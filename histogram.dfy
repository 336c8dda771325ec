/**
 * The cumulative histogram builder (`data_to_histogram`) and its record
 * wrapper (`build_histogram`).
 *
 * Bucket boundaries are collected into a dictionary, so equal boundaries
 * collapse into one key, a `+Inf` key is added when missing, every key
 * that is at least an observation is incremented, and the keys are then
 * listed in ascending order with their counts.
 */
module Histogram {

  /** A bucket boundary: a finite number or Python's `float("inf")`. */
  datatype Bound = Finite(value: real) | Infinity

  /** Strict order on boundaries: every finite boundary is below infinity. */
  predicate Less(a: Bound, b: Bound) {
    a.Finite? && (b.Infinity? || a.value < b.value)
  }

  /** The comparison `o <= key` of the counting loop. */
  predicate Covers(b: Bound, o: real) {
    b.Infinity? || o <= b.value
  }

  /** Strictly ascending, hence free of duplicates. */
  predicate Ascending(s: seq<Bound>) {
    forall i, j :: 0 <= i < j < |s| ==> Less(s[i], s[j])
  }

  /** Inserts `x` into an ascending sequence, keeping it ascending and
      leaving it alone when `x` is already there. */
  function Insert(x: Bound, s: seq<Bound>): (r: seq<Bound>)
    requires Ascending(s)
    ensures Ascending(r)
    ensures forall b :: b in r <==> b == x || b in s
  {
    if s == [] then [x]
    else if x == s[0] then s
    else if Less(x, s[0]) then [x] + s
    else
      TailOfAscending(s);
      var t := Insert(x, s[1..]);
      AscendingCons(s[0], t);
      [s[0]] + t
  }

  lemma TailOfAscending(s: seq<Bound>)
    requires Ascending(s) && s != []
    ensures Ascending(s[1..])
    ensures forall b :: b in s[1..] <==> b in s && b != s[0]
    ensures forall b :: b in s[1..] ==> Less(s[0], b)
  {
    forall b | b in s[1..] ensures Less(s[0], b) {
      var i :| 1 <= i < |s| && s[i] == b;
    }
    assert s == [s[0]] + s[1..];
  }

  lemma AscendingCons(a: Bound, t: seq<Bound>)
    requires Ascending(t)
    requires forall b :: b in t ==> Less(a, b)
    ensures Ascending([a] + t)
  {
    forall i, j | 0 <= i < j < |[a] + t| ensures Less(([a] + t)[i], ([a] + t)[j]) {
      if i == 0 {
        assert ([a] + t)[j] == t[j - 1];
      }
    }
  }

  /** The distinct elements of `s` in ascending order: what `sorted()` gives
      for the keys of a dictionary built from `s`. */
  function SortUnique(s: seq<Bound>): (r: seq<Bound>)
    ensures Ascending(r)
    ensures forall b :: b in r <==> b in s
  {
    if s == [] then []
    else Insert(s[|s| - 1], SortUnique(s[..|s| - 1]))
  }

  /** Two ascending sequences with the same elements are equal: the sorted
      order of a set of keys is unique. */
  lemma {:induction false} AscendingUnique(r1: seq<Bound>, r2: seq<Bound>)
    requires Ascending(r1) && Ascending(r2)
    requires forall b :: b in r1 <==> b in r2
    ensures r1 == r2
  {
    assert r1 != [] ==> r1[0] in r2;
    assert r2 != [] ==> r2[0] in r1;
    if r1 != [] && r2 != [] {
      TailOfAscending(r1);
      TailOfAscending(r2);
      assert r1[0] in r2 && r2[0] in r1;
      AscendingUnique(r1[1..], r2[1..]);
      assert r1 == [r1[0]] + r1[1..];
      assert r2 == [r2[0]] + r2[1..];
    }
  }

  /** An ascending sequence holds no element twice. */
  lemma AscendingDistinct(s: seq<Bound>)
    requires Ascending(s)
    ensures forall t, u :: 0 <= t < |s| && 0 <= u < |s| && t != u ==> s[t] != s[u]
  {
    forall t, u | 0 <= t < |s| && 0 <= u < |s| && t != u ensures s[t] != s[u] {
      if t < u { assert Less(s[t], s[u]); } else { assert Less(s[u], s[t]); }
    }
  }

  /** Python's `sorted()` applied to the key set of a dictionary. */
  method SortedKeys(keys: set<Bound>) returns (r: seq<Bound>)
    ensures Ascending(r)
    ensures forall b :: b in r <==> b in keys
  {
    r := [];
    var rest := keys;
    while rest != {}
      invariant rest <= keys
      invariant Ascending(r)
      invariant forall b :: b in r <==> b in keys && b !in rest
      decreases |rest|
    {
      var x :| x in rest;
      r := Insert(x, r);
      rest := rest - {x};
    }
  }

  /** Number of observations that are at most boundary `b`. */
  function CountCovered(observations: seq<real>, b: Bound): nat {
    if observations == [] then 0
    else
      CountCovered(observations[..|observations| - 1], b)
      + (if Covers(b, observations[|observations| - 1]) then 1 else 0)
  }

  /** Python's `sum()` over the observations, summed left to right. */
  function Sum(observations: seq<real>): real {
    if observations == [] then 0.0
    else Sum(observations[..|observations| - 1]) + observations[|observations| - 1]
  }

  /** One `[bucket_name, value]` pair of the output list. */
  datatype BucketCount = BucketCount(name: string, count: nat)

  /** The label of a bucket: the boundary's string form, or `+Inf`. The
      formatting of a finite number is the parameter `fmt`. */
  function BucketName(b: Bound, fmt: real -> string): string {
    match b
    case Finite(x) => fmt(x)
    case Infinity => "+Inf"
  }

  /** The dictionary keys after lines 47-51, in ascending order. */
  function BucketBounds(bounds: seq<Bound>): seq<Bound> {
    SortUnique(bounds + [Infinity])
  }

  /** The bucket list `data_to_histogram` returns. */
  function Buckets(observations: seq<real>, bounds: seq<Bound>, fmt: real -> string): seq<BucketCount> {
    var keys := BucketBounds(bounds);
    seq(|keys|, i requires 0 <= i < |keys| =>
      BucketCount(BucketName(keys[i], fmt), CountCovered(observations, keys[i])))
  }

  /** Every key of the count dictionary holds the number of observations
      it covers. */
  ghost predicate CountsMatch(counts: map<Bound, nat>, observations: seq<real>) {
    forall b :: b in counts ==> counts[b] == CountCovered(observations, b)
  }

  /** Lines 55-57 for one observation `o`: walk the keys in ascending order
      and increment every key that is at least `o`. */
  method AddObservation(counts: map<Bound, nat>, o: real) returns (updated: map<Bound, nat>)
    ensures updated.Keys == counts.Keys
    ensures forall b :: b in counts ==> updated[b] == counts[b] + (if Covers(b, o) then 1 else 0)
  {
    updated := counts;
    var keys := SortedKeys(counts.Keys);
    AscendingDistinct(keys);
    for j := 0 to |keys|
      invariant updated.Keys == counts.Keys
      invariant forall t :: 0 <= t < j ==> updated[keys[t]] == counts[keys[t]] + (if Covers(keys[t], o) then 1 else 0)
      invariant forall t :: j <= t < |keys| ==> updated[keys[t]] == counts[keys[t]]
    {
      if Covers(keys[j], o) {
        updated := updated[keys[j] := updated[keys[j]] + 1];
      }
    }
    forall b | b in counts ensures updated[b] == counts[b] + (if Covers(b, o) then 1 else 0) {
      assert b in keys;
    }
  }

  /** Lines 47-51: one zero counter per distinct boundary, and one for
      `+Inf` whether or not the boundaries hold it. */
  method ZeroCounts(bounds: seq<Bound>) returns (counts: map<Bound, nat>)
    ensures forall b :: b in counts <==> b in bounds + [Infinity]
    ensures forall b :: b in counts ==> counts[b] == 0
  {
    counts := map b | b in bounds :: 0;
    if Infinity !in counts {
      counts := counts[Infinity := 0];
    }
  }

  /** Lines 54-57: starting from zero counters, every counter ends up
      holding the number of observations it covers. */
  method CountObservations(zeros: map<Bound, nat>, observations: seq<real>) returns (counts: map<Bound, nat>)
    requires forall b :: b in zeros ==> zeros[b] == 0
    ensures counts.Keys == zeros.Keys
    ensures CountsMatch(counts, observations)
  {
    counts := zeros;
    for i := 0 to |observations|
      invariant counts.Keys == zeros.Keys
      invariant CountsMatch(counts, observations[..i])
    {
      assert observations[..i + 1][..i] == observations[..i];
      counts := AddObservation(counts, observations[i]);
    }
    assert observations[..|observations|] == observations;
  }

  /** Lines 60-70: one `[bucket_name, value]` pair per key, in the order
      of `keys`. */
  method ListBuckets(counts: map<Bound, nat>, keys: seq<Bound>, fmt: real -> string) returns (buckets: seq<BucketCount>)
    requires forall b :: b in keys ==> b in counts
    ensures |buckets| == |keys|
    ensures forall t :: 0 <= t < |keys| ==> buckets[t] == BucketCount(BucketName(keys[t], fmt), counts[keys[t]])
  {
    buckets := [];
    for j := 0 to |keys|
      invariant |buckets| == j
      invariant forall t :: 0 <= t < j ==> buckets[t] == BucketCount(BucketName(keys[t], fmt), counts[keys[t]])
    {
      var name := if keys[j] != Infinity then fmt(keys[j].value) else "+Inf";
      buckets := buckets + [BucketCount(name, counts[keys[j]])];
    }
  }

  /** `data_to_histogram`: a dictionary of counts, incremented observation
      by observation, then listed in ascending key order. */
  method DataToHistogram(observations: seq<real>, bounds: seq<Bound>, fmt: real -> string)
    returns (buckets: seq<BucketCount>, total: real)
    ensures buckets == Buckets(observations, bounds, fmt)
    ensures total == Sum(observations)
  {
    var zeros := ZeroCounts(bounds);
    var counts := CountObservations(zeros, observations);
    var keys := SortedKeys(counts.Keys);
    AscendingUnique(keys, BucketBounds(bounds));
    buckets := ListBuckets(counts, keys, fmt);
    ghost var spec := Buckets(observations, bounds, fmt);
    forall t | 0 <= t < |buckets| ensures buckets[t] == spec[t] {
      assert keys[t] in counts;
    }
    total := Sum(observations);
  }

  /** One histogram metric family holding one labelled sample. */
  datatype HistogramFamily = HistogramFamily(
    name: string,
    help: string,
    labelNames: seq<string>,
    labelValues: seq<string>,
    buckets: seq<BucketCount>,
    sum: real)

  /** The family `build_histogram` returns for these arguments. */
  function HistogramOf(observations: seq<real>, bounds: seq<Bound>, name: string, help: string,
                       labelNames: seq<string>, labelValues: seq<string>, fmt: real -> string): HistogramFamily
  {
    HistogramFamily(name, help, labelNames, labelValues, Buckets(observations, bounds, fmt), Sum(observations))
  }

  /** `build_histogram`: bucket the observations and wrap them with the
      family's name, help text and labels. */
  method BuildHistogram(observations: seq<real>, bounds: seq<Bound>, name: string, help: string,
                        labelNames: seq<string>, labelValues: seq<string>, fmt: real -> string)
    returns (h: HistogramFamily)
    ensures h.name == name && h.help == help
    ensures h.labelNames == labelNames && h.labelValues == labelValues
    ensures h.buckets == Buckets(observations, bounds, fmt) && h.sum == Sum(observations)
  {
    var bucketValues, bucketsSum := DataToHistogram(observations, bounds, fmt);
    h := HistogramFamily(name, help, labelNames, labelValues, bucketValues, bucketsSum);
  }
}

module HistogramProperties {
  import opened Histogram

  /** The distinct finite boundaries among the configured ones. */
  function FiniteBounds(bounds: seq<Bound>): set<Bound> {
    set b | b in bounds && b.Finite?
  }

  lemma {:induction false} AscendingCard(s: seq<Bound>)
    requires Ascending(s)
    ensures |set b | b in s| == |s|
  {
    if s != [] {
      TailOfAscending(s);
      AscendingCard(s[1..]);
      assert (set b | b in s) == {s[0]} + (set b | b in s[1..]);
    }
  }

  /** The bucket keys are the distinct configured boundaries plus one
      `+Inf`, ascending, with `+Inf` last; a duplicate boundary or an
      infinity already in the list adds no bucket. */
  lemma BucketBoundsShape(bounds: seq<Bound>)
    ensures Ascending(BucketBounds(bounds))
    ensures forall b :: b in BucketBounds(bounds) <==> b in bounds || b == Infinity
    ensures |BucketBounds(bounds)| == |FiniteBounds(bounds)| + 1
    ensures BucketBounds(bounds)[|BucketBounds(bounds)| - 1] == Infinity
  {
    var keys := BucketBounds(bounds);
    assert Infinity in bounds + [Infinity];
    assert Infinity in keys;
    var i :| 0 <= i < |keys| && keys[i] == Infinity;
    assert i < |keys| - 1 ==> Less(keys[i], keys[i + 1]);
    AscendingCard(keys);
    var finite := FiniteBounds(bounds);
    forall b ensures b in (set b | b in keys) <==> b in finite + {Infinity} {
      assert b in bounds + [Infinity] <==> b in bounds || b == Infinity;
    }
    assert (set b | b in keys) == finite + {Infinity};
    assert Infinity !in finite;
  }

  /** A larger boundary covers at least as many observations. */
  lemma {:induction false} CountCoveredMonotone(observations: seq<real>, a: Bound, b: Bound)
    requires Less(a, b)
    ensures CountCovered(observations, a) <= CountCovered(observations, b)
  {
    if observations != [] {
      CountCoveredMonotone(observations[..|observations| - 1], a, b);
    }
  }

  /** The infinite boundary covers every observation. */
  lemma {:induction false} CountCoveredInfinity(observations: seq<real>)
    ensures CountCovered(observations, Infinity) == |observations|
  {
    if observations != [] {
      CountCoveredInfinity(observations[..|observations| - 1]);
    }
  }

  /** The count of a bucket is the number of positions whose observation is
      at most the boundary. */
  lemma {:induction false} CountCoveredIsCardinality(observations: seq<real>, b: Bound)
    ensures CountCovered(observations, b)
         == |set j | 0 <= j < |observations| && Covers(b, observations[j])|
  {
    if observations != [] {
      var n := |observations| - 1;
      var init := observations[..n];
      CountCoveredIsCardinality(init, b);
      var before := set j | 0 <= j < n && Covers(b, init[j]);
      var after := set j | 0 <= j < |observations| && Covers(b, observations[j]);
      if Covers(b, observations[n]) {
        assert after == before + {n};
      } else {
        assert after == before;
      }
    }
  }

  /** The cumulative-histogram guarantees of the returned bucket list. */
  lemma BucketsShape(observations: seq<real>, bounds: seq<Bound>, fmt: real -> string)
    ensures var r := Buckets(observations, bounds, fmt);
      && |r| == |FiniteBounds(bounds)| + 1
      && (forall i, j :: 0 <= i <= j < |r| ==> r[i].count <= r[j].count)
      && r[|r| - 1] == BucketCount("+Inf", |observations|)
      && (observations == [] ==> forall i :: 0 <= i < |r| ==> r[i].count == 0)
    ensures observations == [] ==> Sum(observations) == 0.0
  {
    var keys := BucketBounds(bounds);
    var r := Buckets(observations, bounds, fmt);
    BucketBoundsShape(bounds);
    forall i, j | 0 <= i <= j < |r| ensures r[i].count <= r[j].count {
      if i < j {
        CountCoveredMonotone(observations, keys[i], keys[j]);
      }
    }
    CountCoveredInfinity(observations);
  }

  /** Labels: the `+Inf` label is the last bucket's alone, a finite bucket is
      labelled by its boundary, and distinct boundaries get distinct labels
      when the number formatting is injective. */
  lemma BucketLabels(observations: seq<real>, bounds: seq<Bound>, fmt: real -> string)
    requires forall x :: fmt(x) != "+Inf"
    ensures var r := Buckets(observations, bounds, fmt);
      var keys := BucketBounds(bounds);
      && |r| == |keys|
      && (forall i :: 0 <= i < |r| ==> (r[i].name == "+Inf" <==> i == |r| - 1))
      && (forall i :: 0 <= i < |r| - 1 ==> keys[i].Finite? && r[i].name == fmt(keys[i].value))
    ensures (forall x, y :: fmt(x) == fmt(y) ==> x == y) ==>
      var r := Buckets(observations, bounds, fmt);
      forall i, j :: 0 <= i < j < |r| ==> r[i].name != r[j].name
  {
    var keys := BucketBounds(bounds);
    BucketBoundsShape(bounds);
    AscendingDistinct(keys);
    forall i | 0 <= i < |keys| - 1 ensures keys[i].Finite? {
      assert Less(keys[i], keys[|keys| - 1]);
    }
  }

  /** The worked example: observations 10, 40, 95 over boundaries 30, 60, 90
      give cumulative counts 1, 2, 2, 3 and sum 145. */
  lemma ExampleBuckets(fmt: real -> string)
    ensures Buckets([10.0, 40.0, 95.0], [Finite(30.0), Finite(60.0), Finite(90.0)], fmt)
         == [BucketCount(fmt(30.0), 1), BucketCount(fmt(60.0), 2), BucketCount(fmt(90.0), 2), BucketCount("+Inf", 3)]
    ensures Sum([10.0, 40.0, 95.0]) == 145.0
  {
    var bounds := [Finite(30.0), Finite(60.0), Finite(90.0)];
    var expected := [Finite(30.0), Finite(60.0), Finite(90.0), Infinity];
    assert forall b :: b in expected <==> b in bounds + [Infinity];
    AscendingUnique(BucketBounds(bounds), expected);
    assert [10.0, 40.0, 95.0][..2] == [10.0, 40.0];
    assert [10.0, 40.0][..1] == [10.0];
    assert [10.0][..0] == [];
    assert Sum([10.0, 40.0]) == 50.0;
    forall b | b in expected
      ensures CountCovered([10.0, 40.0, 95.0], b)
           == (if Covers(b, 10.0) then 1 else 0) + (if Covers(b, 40.0) then 1 else 0) + (if Covers(b, 95.0) then 1 else 0)
    {
      assert CountCovered([10.0], b) == (if Covers(b, 10.0) then 1 else 0);
      assert CountCovered([10.0, 40.0], b) == CountCovered([10.0], b) + (if Covers(b, 40.0) then 1 else 0);
    }
  }
}
