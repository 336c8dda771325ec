/**
 * Effective price resolution (`collect`, price section): one scan over the
 * fetched prices builds, per company, a dictionary from employee id to the
 * employee's stored price record, and then the per-field observations of
 * each company are read off that dictionary.
 *
 * The first record seen for an employee is stored unconditionally; a later
 * record replaces the stored one only when its `ValidFrom` is strictly
 * later than the stored one's and not after `now`.
 */
module Prices {
  import opened Wrappers
  import opened Records

  // ---------------------------------------------------------------------
  // One employee's history
  // ---------------------------------------------------------------------

  /** The record left stored after scanning one employee's records in
      order. */
  function Effective(history: seq<Price>, now: int): (p: Price)
    requires |history| > 0
    ensures p in history
    ensures p.validFrom >= history[0].validFrom
  {
    if |history| == 1 then history[0]
    else
      var stored := Effective(history[..|history| - 1], now);
      var q := history[|history| - 1];
      if q.validFrom > stored.validFrom && q.validFrom <= now then q else stored
  }

  /** Record `j` can end up stored: the first record always, a later one
      only when it is not in the future. */
  predicate Eligible(history: seq<Price>, j: int, now: int)
    requires 0 <= j < |history|
  {
    j == 0 || history[j].validFrom <= now
  }

  /** Record `k` is the first-seen among the eligible records with the
      latest `ValidFrom`. */
  ghost predicate FirstLatest(history: seq<Price>, k: int, now: int)
    requires 0 <= k < |history|
  {
    && Eligible(history, k, now)
    && (forall j :: 0 <= j < |history| && Eligible(history, j, now) ==> history[j].validFrom <= history[k].validFrom)
    && (forall j :: 0 <= j < k && Eligible(history, j, now) ==> history[j].validFrom < history[k].validFrom)
  }

  /** The scan stores the first-seen latest eligible record. */
  lemma {:induction false} EffectiveIsFirstLatest(history: seq<Price>, now: int) returns (k: nat)
    requires |history| > 0
    ensures k < |history| && FirstLatest(history, k, now)
    ensures Effective(history, now) == history[k]
  {
    var n := |history| - 1;
    if n == 0 {
      k := 0;
    } else {
      var init := history[..n];
      var k0 := EffectiveIsFirstLatest(init, now);
      var stored := Effective(init, now);
      var q := history[n];
      assert forall j :: 0 <= j < n ==> (Eligible(init, j, now) <==> Eligible(history, j, now));
      if q.validFrom > stored.validFrom && q.validFrom <= now {
        k := n;
      } else {
        k := k0;
      }
    }
  }

  /** At most one position is the first-seen latest eligible one. */
  lemma FirstLatestUnique(history: seq<Price>, k1: int, k2: int, now: int)
    requires 0 <= k1 < |history| && 0 <= k2 < |history|
    requires FirstLatest(history, k1, now) && FirstLatest(history, k2, now)
    ensures k1 == k2
  {
    assert history[k1].validFrom <= history[k2].validFrom;
    assert history[k2].validFrom <= history[k1].validFrom;
  }

  /** Independent description of the scan: whichever record is first-seen
      latest eligible is the one stored. */
  lemma EffectiveDeterminedBy(history: seq<Price>, k: int, now: int)
    requires 0 <= k < |history| && FirstLatest(history, k, now)
    ensures Effective(history, now) == history[k]
  {
    var k' := EffectiveIsFirstLatest(history, now);
    FirstLatestUnique(history, k, k', now);
  }

  /** A future-dated first record is never replaced: every later record that
      could replace it is not in the future, hence earlier. */
  lemma FutureFirstRecordSticks(history: seq<Price>, now: int)
    requires |history| > 0 && history[0].validFrom > now
    ensures Effective(history, now) == history[0]
  {
    EffectiveDeterminedBy(history, 0, now);
  }

  /** When the first record is not in the future, the stored record is the
      latest one not in the future (the first-seen of them on a tie). */
  lemma LatestNotInFuture(history: seq<Price>, now: int)
    requires |history| > 0 && history[0].validFrom <= now
    ensures Effective(history, now).validFrom <= now
    ensures forall j :: 0 <= j < |history| && history[j].validFrom <= now ==>
              history[j].validFrom <= Effective(history, now).validFrom
  {
    var k := EffectiveIsFirstLatest(history, now);
    assert forall j :: 0 <= j < |history| && history[j].validFrom <= now ==> Eligible(history, j, now);
  }

  /** The stored `ValidFrom` never decreases as the scan proceeds. */
  lemma StoredDateNeverDecreases(history: seq<Price>, i: int, now: int)
    requires 0 < i < |history|
    ensures Effective(history[..i], now).validFrom <= Effective(history[..i + 1], now).validFrom
  {
    assert history[..i + 1][..i] == history[..i];
  }

  /** The stored record depends on the order of the records: a future-dated
      record seen first wins over a past one, and loses when seen second. */
  lemma OrderMatters(now: int)
    ensures var future := Price(1, now + 5, None, Some(99.0), None);
      var past := Price(1, now - 10, None, Some(8.0), None);
      Effective([future, past], now) == future && Effective([past, future], now) == past
  {
    var future := Price(1, now + 5, None, Some(99.0), None);
    var past := Price(1, now - 10, None, Some(8.0), None);
    assert [future, past][..1] == [future];
    assert [past, future][..1] == [past];
  }

  /** Records dated 30 and 10 days ago and 5 days ahead, in that order: the
      one from 10 days ago is stored. */
  lemma ExampleResolution(now: int)
    ensures var h := [Price(1, now - 30 * MicrosPerDay, None, Some(5.0), None),
                      Price(1, now - 10 * MicrosPerDay, None, Some(8.0), None),
                      Price(1, now + 5 * MicrosPerDay, None, Some(99.0), None)];
      Effective(h, now) == h[1]
  {
    var h := [Price(1, now - 30 * MicrosPerDay, None, Some(5.0), None),
              Price(1, now - 10 * MicrosPerDay, None, Some(8.0), None),
              Price(1, now + 5 * MicrosPerDay, None, Some(99.0), None)];
    assert h[..2][..1] == [h[0]];
    assert h[..2] == [h[0], h[1]];
  }

  // ---------------------------------------------------------------------
  // The price dictionary of all companies
  // ---------------------------------------------------------------------

  /** Employee `e` is filed under company `c`: it is in the employee index
      and belongs to `c`. */
  predicate Filed(e: int, index: map<int, Employee>, c: int) {
    e in index && index[e].companyId == c
  }

  /** The lookups of lines 141 and 145 succeed for this price. */
  predicate Resolvable(p: Price, index: map<int, Employee>, companies: seq<int>) {
    p.employeeId in index && index[p.employeeId].companyId in companies
  }

  predicate AllResolvable(prices: seq<Price>, index: map<int, Employee>, companies: seq<int>) {
    forall p :: p in prices ==> Resolvable(p, index, companies)
  }

  /** One employee's records, in scan order. */
  function History(prices: seq<Price>, e: int): seq<Price> {
    if prices == [] then []
    else
      var last := prices[|prices| - 1];
      History(prices[..|prices| - 1], e) + (if last.employeeId == e then [last] else [])
  }

  /** Appending a price extends only its own employee's history. */
  lemma HistorySnoc(prices: seq<Price>, p: Price, x: int)
    ensures History(prices + [p], x) == History(prices, x) + (if x == p.employeeId then [p] else [])
  {
    assert (prices + [p])[..|prices|] == prices;
  }

  lemma {:induction false} HistoryElements(prices: seq<Price>, e: int)
    ensures forall q :: q in History(prices, e) ==> q in prices && q.employeeId == e
  {
    if prices != [] {
      HistoryElements(prices[..|prices| - 1], e);
    }
  }

  /** The employees filed under company `c`, in order of first appearance:
      the key order of the company's inner dictionary. */
  function SeenEmployees(prices: seq<Price>, index: map<int, Employee>, c: int): seq<int> {
    if prices == [] then []
    else
      var order := SeenEmployees(prices[..|prices| - 1], index, c);
      var last := prices[|prices| - 1];
      if Filed(last.employeeId, index, c) && last.employeeId !in order then order + [last.employeeId] else order
  }

  /** The keys of an inner dictionary are distinct, and are exactly the
      employees of `c` that have a price. */
  lemma {:induction false} SeenEmployeesFacts(prices: seq<Price>, index: map<int, Employee>, c: int)
    ensures var order := SeenEmployees(prices, index, c);
      && (forall i, j :: 0 <= i < j < |order| ==> order[i] != order[j])
      && (forall e :: e in order <==> Filed(e, index, c) && |History(prices, e)| > 0)
  {
    if prices != [] {
      var init := prices[..|prices| - 1];
      SeenEmployeesFacts(init, index, c);
      assert prices == init + [prices[|prices| - 1]];
      forall e ensures |History(prices, e)| > 0 <==> |History(init, e)| > 0 || prices[|prices| - 1].employeeId == e {
        HistorySnoc(init, prices[|prices| - 1], e);
      }
    }
  }

  lemma SeenHasHistory(prices: seq<Price>, index: map<int, Employee>, c: int, k: int)
    requires 0 <= k < |SeenEmployees(prices, index, c)|
    ensures |History(prices, SeenEmployees(prices, index, c)[k])| > 0
  {
    SeenEmployeesFacts(prices, index, c);
    assert SeenEmployees(prices, index, c)[k] in SeenEmployees(prices, index, c);
  }

  /** The inner dictionary of company `c` after the scan, as its list of
      stored records in key order. */
  function ResolvedRow(prices: seq<Price>, index: map<int, Employee>, c: int, now: int): seq<Price> {
    var order := SeenEmployees(prices, index, c);
    seq(|order|, k requires 0 <= k < |order| =>
      SeenHasHistory(prices, index, c, k);
      Effective(History(prices, order[k]), now))
  }

  /** `row.get(e)` on an inner dictionary kept as its list of records. */
  function Find(row: seq<Price>, e: int): (k: nat)
    ensures k <= |row|
    ensures k < |row| ==> row[k].employeeId == e
    ensures forall j :: 0 <= j < k ==> row[j].employeeId != e
  {
    if row == [] then 0
    else if row[0].employeeId == e then 0
    else 1 + Find(row[1..], e)
  }

  /** The stored records of a company belong to its employees, one each, in
      first-appearance order, and come from the fetched prices. */
  lemma ResolvedRowKeys(prices: seq<Price>, index: map<int, Employee>, c: int, now: int)
    ensures var row := ResolvedRow(prices, index, c, now);
      var order := SeenEmployees(prices, index, c);
      && |row| == |order|
      && (forall k :: 0 <= k < |row| ==>
            row[k].employeeId == order[k] && row[k] in prices && Filed(row[k].employeeId, index, c))
      && (forall i, j :: 0 <= i < j < |row| ==> row[i].employeeId != row[j].employeeId)
  {
    var row := ResolvedRow(prices, index, c, now);
    var order := SeenEmployees(prices, index, c);
    SeenEmployeesFacts(prices, index, c);
    forall k | 0 <= k < |row|
      ensures row[k].employeeId == order[k] && row[k] in prices && Filed(row[k].employeeId, index, c)
    {
      assert order[k] in order;
      HistoryElements(prices, order[k]);
    }
  }

  /** A price filed elsewhere leaves company `c`'s row unchanged. */
  lemma RowUnchanged(prices: seq<Price>, p: Price, index: map<int, Employee>, c: int, now: int)
    requires !Filed(p.employeeId, index, c)
    ensures ResolvedRow(prices + [p], index, c, now) == ResolvedRow(prices, index, c, now)
  {
    var all := prices + [p];
    assert all[..|prices|] == prices;
    var order := SeenEmployees(prices, index, c);
    assert SeenEmployees(all, index, c) == order;
    SeenEmployeesFacts(prices, index, c);
    var row := ResolvedRow(prices, index, c, now);
    var row' := ResolvedRow(all, index, c, now);
    forall k | 0 <= k < |order| ensures row'[k] == row[k] {
      assert order[k] in order;
      HistorySnoc(prices, p, order[k]);
      assert History(all, order[k]) == History(prices, order[k]);
      assert row'[k] == Effective(History(all, order[k]), now);
    }
  }

  /** The replacement rule for a stored record. */
  function Replace(stored: Price, p: Price, now: int): Price {
    if p.validFrom > stored.validFrom && p.validFrom <= now then p else stored
  }

  /** A price filed under `c` for an employee already there: the entry is
      replaced by the rule, in place. */
  lemma RowReplaced(prices: seq<Price>, p: Price, index: map<int, Employee>, c: int, now: int, m: int)
    requires Filed(p.employeeId, index, c)
    requires 0 <= m < |SeenEmployees(prices, index, c)| && SeenEmployees(prices, index, c)[m] == p.employeeId
    ensures var row := ResolvedRow(prices, index, c, now);
      ResolvedRow(prices + [p], index, c, now) == row[m := Replace(row[m], p, now)]
  {
    var all := prices + [p];
    assert all[..|prices|] == prices;
    var e := p.employeeId;
    var order := SeenEmployees(prices, index, c);
    var row := ResolvedRow(prices, index, c, now);
    var row' := ResolvedRow(all, index, c, now);
    assert e in order;
    assert SeenEmployees(all, index, c) == order;
    SeenEmployeesFacts(prices, index, c);
    forall j | 0 <= j < |row| ensures row'[j] == row[m := Replace(row[m], p, now)][j] {
      HistorySnoc(prices, p, order[j]);
      assert row'[j] == Effective(History(all, order[j]), now);
      assert row[j] == Effective(History(prices, order[j]), now);
      if j == m {
        SeenHasHistory(prices, index, c, m);
        var h := History(prices, e);
        assert History(all, e) == h + [p];
        assert (h + [p])[..|h|] == h;
      } else {
        assert order[j] != e;
        assert History(all, order[j]) == History(prices, order[j]);
      }
    }
  }

  /** A price filed under `c` for an employee not there yet: a new entry is
      appended, holding this price. */
  lemma RowAppended(prices: seq<Price>, p: Price, index: map<int, Employee>, c: int, now: int)
    requires Filed(p.employeeId, index, c)
    requires p.employeeId !in SeenEmployees(prices, index, c)
    ensures ResolvedRow(prices + [p], index, c, now) == ResolvedRow(prices, index, c, now) + [p]
  {
    var all := prices + [p];
    assert all[..|prices|] == prices;
    var e := p.employeeId;
    var order := SeenEmployees(prices, index, c);
    var row := ResolvedRow(prices, index, c, now);
    var row' := ResolvedRow(all, index, c, now);
    assert SeenEmployees(all, index, c) == order + [e];
    SeenEmployeesFacts(prices, index, c);
    assert History(prices, e) == [];
    HistorySnoc(prices, p, e);
    forall j | 0 <= j < |row'| ensures row'[j] == (row + [p])[j] {
      if j < |row| {
        HistorySnoc(prices, p, order[j]);
        assert order[j] in order;
        assert History(all, order[j]) == History(prices, order[j]);
        assert row'[j] == Effective(History(all, order[j]), now);
        assert row[j] == Effective(History(prices, order[j]), now);
      } else {
        assert History(all, e) == [p];
        assert row'[j] == Effective(History(all, e), now);
      }
    }
  }

  /** A price filed under `c` updates the employee's entry in place, or
      appends a new entry when the employee has none yet; `Find` plays the
      part of the dictionary lookup. */
  lemma RowUpdated(prices: seq<Price>, p: Price, index: map<int, Employee>, c: int, now: int)
    requires Filed(p.employeeId, index, c)
    ensures var row := ResolvedRow(prices, index, c, now);
      var k := Find(row, p.employeeId);
      ResolvedRow(prices + [p], index, c, now)
        == if k < |row| then row[k := Replace(row[k], p, now)] else row + [p]
  {
    var e := p.employeeId;
    var order := SeenEmployees(prices, index, c);
    var row := ResolvedRow(prices, index, c, now);
    ResolvedRowKeys(prices, index, c, now);
    var k := Find(row, e);
    if e in order {
      var m :| 0 <= m < |order| && order[m] == e;
      assert k == m;
      RowReplaced(prices, p, index, c, now, m);
    } else {
      RowAppended(prices, p, index, c, now);
    }
  }

  /** The scan of lines 136-158. `None` stands for the `KeyError` raised when
      a price's employee is not in the employee index, or that employee's
      company is not in the company dictionary. */
  method ResolvePrices(companies: seq<int>, index: map<int, Employee>, prices: seq<Price>, now: int)
    returns (priceDict: Option<map<int, seq<Price>>>)
    ensures priceDict.None? <==> !AllResolvable(prices, index, companies)
    ensures priceDict.Some? ==> priceDict.value.Keys == set c | c in companies
    ensures priceDict.Some? ==>
      forall c :: c in priceDict.value ==> priceDict.value[c] == ResolvedRow(prices, index, c, now)
  {
    var dict: map<int, seq<Price>> := map c | c in companies :: [];
    for i := 0 to |prices|
      invariant dict.Keys == set c | c in companies
      invariant AllResolvable(prices[..i], index, companies)
      invariant forall c :: c in dict ==> dict[c] == ResolvedRow(prices[..i], index, c, now)
    {
      var p := prices[i];
      assert prices[..i + 1] == prices[..i] + [p];
      assert p in prices;
      if p.employeeId !in index {
        return None;
      }
      var c := index[p.employeeId].companyId;
      if c !in dict {
        return None;
      }
      var row := dict[c];
      RowUpdated(prices[..i], p, index, c, now);
      var k := Find(row, p.employeeId);
      if k < |row| {
        if p.validFrom > row[k].validFrom && p.validFrom <= now {
          row := row[k := p];
        }
      } else {
        row := row + [p];
      }
      forall c' | c' in dict && c' != c
        ensures dict[c'] == ResolvedRow(prices[..i + 1], index, c', now)
      {
        RowUnchanged(prices[..i], p, index, c', now);
      }
      dict := dict[c := row];
    }
    assert prices[..|prices|] == prices;
    return Some(dict);
  }

  // ---------------------------------------------------------------------
  // Observations read off one company's inner dictionary
  // ---------------------------------------------------------------------

  datatype PriceField = Profit | HoursCost | HoursSale

  /** `p.get(field)`. */
  function FieldOf(p: Price, field: PriceField): Option<real> {
    match field
    case Profit => p.profit
    case HoursCost => p.hoursCost
    case HoursSale => p.hoursSale
  }

  /** The field of every stored record, in key order. */
  function FieldValues(row: seq<Price>, field: PriceField): (vs: seq<Option<real>>)
    ensures |vs| == |row|
    ensures forall i :: 0 <= i < |row| ==> vs[i] == FieldOf(row[i], field)
  {
    seq(|row|, i requires 0 <= i < |row| => FieldOf(row[i], field))
  }

  /** Lines 161-175 for one company: collect each field's present, non-zero
      values. */
  method PriceObservations(row: seq<Price>) returns (profit: seq<real>, hoursCost: seq<real>, hoursSale: seq<real>)
    ensures profit == TruthyValues(FieldValues(row, Profit))
    ensures hoursCost == TruthyValues(FieldValues(row, HoursCost))
    ensures hoursSale == TruthyValues(FieldValues(row, HoursSale))
  {
    profit, hoursCost, hoursSale := [], [], [];
    for i := 0 to |row|
      invariant profit == TruthyValues(FieldValues(row[..i], Profit))
      invariant hoursCost == TruthyValues(FieldValues(row[..i], HoursCost))
      invariant hoursSale == TruthyValues(FieldValues(row[..i], HoursSale))
    {
      var p := row[i];
      assert forall f :: FieldValues(row[..i + 1], f)[..i] == FieldValues(row[..i], f);
      // The inner loop over the three field names, one field at a time.
      if Truthy(p.profit) {
        profit := profit + [p.profit.value];
      }
      if Truthy(p.hoursCost) {
        hoursCost := hoursCost + [p.hoursCost.value];
      }
      if Truthy(p.hoursSale) {
        hoursSale := hoursSale + [p.hoursSale.value];
      }
    }
    assert row[..|row|] == row;
  }

  /** A price observation of a company is a present, non-zero field value of
      one of the records stored for that company, and every such value is
      observed. */
  lemma PriceObservationMembers(prices: seq<Price>, index: map<int, Employee>, c: int, now: int, field: PriceField)
    ensures var row := ResolvedRow(prices, index, c, now);
      forall v :: v in TruthyValues(FieldValues(row, field))
        <==> v != 0.0 && exists k :: 0 <= k < |row| && FieldOf(row[k], field) == Some(v)
  {
    var row := ResolvedRow(prices, index, c, now);
    var vs := FieldValues(row, field);
    TruthyValuesMembers(vs);
    forall v ensures Some(v) in vs <==> exists k :: 0 <= k < |row| && FieldOf(row[k], field) == Some(v) {
      if Some(v) in vs {
        var k :| 0 <= k < |vs| && vs[k] == Some(v);
      }
    }
  }
}
