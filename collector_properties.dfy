/**
 * What one scrape promises: when it raises, how many histograms it emits
 * and for which companies, when the error flag is set, what a company
 * without prices gets, and that no two emitted histograms share both name
 * and label values.
 */
module CollectorProperties {
  import opened Wrappers
  import opened Records
  import opened Histogram
  import opened Decimal
  import opened Prices
  import opened Observations
  import opened Collector
  import opened HistogramProperties

  predicate Distinct(cs: seq<int>) {
    forall i, j :: 0 <= i < j < |cs| ==> cs[i] != cs[j]
  }

  /** The companies whose per-company call succeeded, in company order. */
  function FetchedIds<T>(cs: seq<int>, fetchOf: int -> Fetch<T>): (r: seq<int>)
    ensures |r| <= |cs|
    ensures forall c :: c in r <==> c in cs && fetchOf(c).Fetched?
    ensures Distinct(cs) ==> Distinct(r)
    ensures (forall k :: 0 <= k < |cs| ==> fetchOf(cs[k]).Fetched?) ==> r == cs
  {
    if cs == [] then []
    else
      var init := cs[..|cs| - 1];
      var c := cs[|cs| - 1];
      assert Distinct(cs) ==> c !in init;
      assert cs == init + [c];
      if fetchOf(c).Fetched? then FetchedIds(init, fetchOf) + [c] else FetchedIds(init, fetchOf)
  }

  /** The jobs of company `c` were fetched and one of them lacks a date. */
  predicate Undated(jobsOf: int -> Fetch<Job>, c: int) {
    jobsOf(c).Fetched? && !AllDated(jobsOf(c).records)
  }

  // ---------------------------------------------------------------------
  // Section shapes
  // ---------------------------------------------------------------------

  /** Three price histograms per company, in company order, whether or not
      the company has prices. */
  lemma {:induction false} PriceSectionShape(cs: seq<int>, prices: seq<Price>, index: map<int, Employee>, now: int,
                                             fmt: real -> string)
    ensures var out := PriceSection(cs, prices, index, now, fmt);
      && |out| == 3 * |cs|
      && forall k, f :: 0 <= k < |cs| && 0 <= f < 3 ==>
           out[3 * k + f] == PriceHistograms(cs[k], ResolvedRow(prices, index, cs[k], now), fmt)[f]
  {
    if cs != [] {
      var n := |cs|;
      var init := cs[..n - 1];
      PriceSectionShape(init, prices, index, now, fmt);
      var pre := PriceSection(init, prices, index, now, fmt);
      var block := PriceHistograms(cs[n - 1], ResolvedRow(prices, index, cs[n - 1], now), fmt);
      var out := PriceSection(cs, prices, index, now, fmt);
      assert out == pre + block;
      forall k, f | 0 <= k < n && 0 <= f < 3
        ensures out[3 * k + f] == PriceHistograms(cs[k], ResolvedRow(prices, index, cs[k], now), fmt)[f]
      {
        if k < n - 1 {
          assert cs[k] == init[k];
          assert out[3 * k + f] == pre[3 * k + f];
        } else {
          assert out[3 * k + f] == block[f];
        }
      }
    }
  }

  /** One days-employed histogram per company whose employees were fetched. */
  lemma {:induction false} TenureSectionShape(cs: seq<int>, employeesOf: int -> Fetch<Employee>, today: int,
                                              fmt: real -> string)
    ensures var out := TenureSection(cs, employeesOf, today, fmt);
      var ids := FetchedIds(cs, employeesOf);
      && |out| == |ids|
      && forall j :: 0 <= j < |ids| ==> out[j] == TenureHistogram(ids[j], employeesOf(ids[j]).records, today, fmt)
  {
    if cs != [] {
      var n := |cs|;
      var init := cs[..n - 1];
      TenureSectionShape(init, employeesOf, today, fmt);
      assert cs == init + [cs[n - 1]];
    }
  }

  /** The job section raises exactly when some fetched job list holds a job
      without dates. */
  lemma {:induction false} JobSectionRaises(cs: seq<int>, jobsOf: int -> Fetch<Job>, today: int, fmt: real -> string)
    ensures JobSection(cs, jobsOf, today, fmt).None? <==> exists c :: c in cs && Undated(jobsOf, c)
  {
    if cs != [] {
      var last := cs[|cs| - 1];
      var init := cs[..|cs| - 1];
      JobSectionRaises(init, jobsOf, today, fmt);
      assert cs == init + [last];
      assert (exists c :: c in cs && Undated(jobsOf, c))
        <==> (exists c :: c in init && Undated(jobsOf, c)) || Undated(jobsOf, last);
    }
  }

  /** Otherwise two job histograms, billable first, per company whose jobs
      were fetched. */
  lemma {:induction false} JobSectionShape(cs: seq<int>, jobsOf: int -> Fetch<Job>, today: int, fmt: real -> string)
    requires JobSection(cs, jobsOf, today, fmt).Some?
    ensures var out := JobSection(cs, jobsOf, today, fmt).value;
      var ids := FetchedIds(cs, jobsOf);
      && |out| == 2 * |ids|
      && (forall j :: 0 <= j < |ids| ==> AllDated(jobsOf(ids[j]).records))
      && forall j, f :: 0 <= j < |ids| && 0 <= f < 2 ==>
           out[2 * j + f] == JobHistograms(ids[j], jobsOf(ids[j]).records, today, fmt)[f]
  {
    if cs != [] {
      var n := |cs|;
      var last := cs[n - 1];
      var init := cs[..n - 1];
      assert JobSection(init, jobsOf, today, fmt).Some?;
      JobSectionShape(init, jobsOf, today, fmt);
      var pre := JobSection(init, jobsOf, today, fmt).value;
      var out := JobSection(cs, jobsOf, today, fmt).value;
      var preIds := FetchedIds(init, jobsOf);
      var ids := FetchedIds(cs, jobsOf);
      if jobsOf(last).Fetched? {
        assert AllDated(jobsOf(last).records);
        assert out == pre + JobHistograms(last, jobsOf(last).records, today, fmt);
        assert ids == preIds + [last];
        JobBlockAppended(pre, preIds, last, jobsOf, today, fmt);
      } else {
        assert out == pre && ids == preIds;
      }
    }
  }

  /** The induction step of `JobSectionShape`: appending one company's two
      job histograms keeps every earlier company's pair in place. */
  lemma JobBlockAppended(pre: seq<HistogramFamily>, preIds: seq<int>, last: int, jobsOf: int -> Fetch<Job>,
                         today: int, fmt: real -> string)
    requires jobsOf(last).Fetched? && AllDated(jobsOf(last).records)
    requires |pre| == 2 * |preIds|
    requires forall j :: 0 <= j < |preIds| ==> jobsOf(preIds[j]).Fetched? && AllDated(jobsOf(preIds[j]).records)
    requires forall j, f :: 0 <= j < |preIds| && 0 <= f < 2 ==>
               pre[2 * j + f] == JobHistograms(preIds[j], jobsOf(preIds[j]).records, today, fmt)[f]
    ensures var out := pre + JobHistograms(last, jobsOf(last).records, today, fmt);
      var ids := preIds + [last];
      && |out| == 2 * |ids|
      && (forall j :: 0 <= j < |ids| ==> jobsOf(ids[j]).Fetched? && AllDated(jobsOf(ids[j]).records))
      && forall j, f :: 0 <= j < |ids| && 0 <= f < 2 ==>
           out[2 * j + f] == JobHistograms(ids[j], jobsOf(ids[j]).records, today, fmt)[f]
  {
    var block := JobHistograms(last, jobsOf(last).records, today, fmt);
    var out := pre + block;
    var ids := preIds + [last];
    forall j, f | 0 <= j < |ids| && 0 <= f < 2
      ensures out[2 * j + f] == JobHistograms(ids[j], jobsOf(ids[j]).records, today, fmt)[f]
    {
      if j < |preIds| {
        assert ids[j] == preIds[j];
        assert out[2 * j + f] == pre[2 * j + f];
      } else {
        assert out[2 * j + f] == block[f];
      }
    }
  }

  /** Two credit histograms per company, whether or not it has creditors. */
  lemma {:induction false} CreditSectionShape(cs: seq<int>, creditors: seq<Creditor>, fmt: real -> string)
    ensures var out := CreditSection(cs, creditors, fmt);
      && |out| == 2 * |cs|
      && forall k, f :: 0 <= k < |cs| && 0 <= f < 2 ==>
           out[2 * k + f] == CreditHistograms(cs[k], creditors, fmt)[f]
  {
    if cs != [] {
      var n := |cs|;
      var init := cs[..n - 1];
      CreditSectionShape(init, creditors, fmt);
      var pre := CreditSection(init, creditors, fmt);
      var block := CreditHistograms(cs[n - 1], creditors, fmt);
      var out := CreditSection(cs, creditors, fmt);
      assert out == pre + block;
      forall k, f | 0 <= k < n && 0 <= f < 2
        ensures out[2 * k + f] == CreditHistograms(cs[k], creditors, fmt)[f]
      {
        if k < n - 1 {
          assert cs[k] == init[k];
          assert out[2 * k + f] == pre[2 * k + f];
        } else {
          assert out[2 * k + f] == block[f];
        }
      }
    }
  }

  // ---------------------------------------------------------------------
  // The whole scrape
  // ---------------------------------------------------------------------

  /** The three ways a scrape raises, each characterised by its inputs. */
  lemma ScrapeRaises(data: WorkbookData, now: int, fmt: real -> string)
    ensures var o := Scrape(data, now, fmt);
      var critical := data.currencies.FetchFailed? || data.companies.FetchFailed? || data.employees.FetchFailed?;
      && (o == Raised(FetchError) <==> critical)
      && (o == Raised(MissingKey) <==>
            !critical && data.prices.Fetched?
            && exists p :: p in data.prices.records
                 && !Resolvable(p, EmployeeIndex(data.employees.records), CompanyIds(data.companies.records)))
      && (o == Raised(MissingDate) <==>
            !critical
            && (data.prices.FetchFailed?
                || AllResolvable(data.prices.records, EmployeeIndex(data.employees.records), CompanyIds(data.companies.records)))
            && exists c :: c in CompanyIds(data.companies.records) && Undated(data.jobsOf, c))
  {
    if data.companies.Fetched? {
      JobSectionRaises(CompanyIds(data.companies.records), data.jobsOf, now, fmt);
    }
  }

  /** A completed scrape emits, per company, three price histograms (when
      prices were fetched), one tenure histogram (when its employees were),
      two job histograms (when its jobs were) and two credit histograms
      (when creditors were); the error flag is set exactly when one of the
      guarded calls failed. */
  lemma ScrapeSize(data: WorkbookData, now: int, fmt: real -> string)
    requires Scrape(data, now, fmt).Completed?
    ensures var o := Scrape(data, now, fmt);
      var cs := CompanyIds(data.companies.records);
      && |o.metrics| == (if data.prices.Fetched? then 3 * |cs| else 0)
                        + |FetchedIds(cs, data.employeesOf)|
                        + 2 * |FetchedIds(cs, data.jobsOf)|
                        + (if data.creditors.Fetched? then 2 * |cs| else 0)
      && (o.wbError <==>
            data.prices.FetchFailed? || data.creditors.FetchFailed?
            || (exists k :: 0 <= k < |cs| && data.employeesOf(cs[k]).FetchFailed?)
            || (exists k :: 0 <= k < |cs| && data.jobsOf(cs[k]).FetchFailed?))
  {
    var cs := CompanyIds(data.companies.records);
    var index := EmployeeIndex(data.employees.records);
    if data.prices.Fetched? {
      PriceSectionShape(cs, data.prices.records, index, now, fmt);
    }
    TenureSectionShape(cs, data.employeesOf, now, fmt);
    JobSectionShape(cs, data.jobsOf, now, fmt);
    if data.creditors.Fetched? {
      CreditSectionShape(cs, data.creditors.records, fmt);
    }
  }

  /** When every call succeeds, each company gets eight histograms and the
      error flag stays clear. */
  lemma HealthyScrape(data: WorkbookData, now: int, fmt: real -> string)
    requires Scrape(data, now, fmt).Completed?
    requires data.prices.Fetched? && data.creditors.Fetched?
    requires forall c :: data.employeesOf(c).Fetched? && data.jobsOf(c).Fetched?
    ensures var o := Scrape(data, now, fmt);
      |o.metrics| == 8 * |CompanyIds(data.companies.records)| && !o.wbError
  {
    var cs := CompanyIds(data.companies.records);
    ScrapeSize(data, now, fmt);
    assert FetchedIds(cs, data.employeesOf) == cs;
    assert FetchedIds(cs, data.jobsOf) == cs;
  }

  /** No price filed under `c` leaves its inner dictionary without keys. */
  lemma {:induction false} NothingSeen(prices: seq<Price>, index: map<int, Employee>, c: int)
    requires forall p :: p in prices ==> !Filed(p.employeeId, index, c)
    ensures SeenEmployees(prices, index, c) == []
  {
    if prices != [] {
      var init := prices[..|prices| - 1];
      assert forall p :: p in init ==> p in prices;
      NothingSeen(init, index, c);
      assert prices[|prices| - 1] in prices;
    }
  }

  /** A company none of whose employees has a price still gets its three
      price histograms, with every bucket and the sum at zero. */
  lemma UnpricedCompany(prices: seq<Price>, index: map<int, Employee>, c: int, now: int, fmt: real -> string)
    requires forall p :: p in prices ==> !Filed(p.employeeId, index, c)
    ensures var hs := PriceHistograms(c, ResolvedRow(prices, index, c, now), fmt);
      forall f :: 0 <= f < |hs| ==>
        hs[f].sum == 0.0 && forall b :: b in hs[f].buckets ==> b.count == 0
  {
    NothingSeen(prices, index, c);
    var row := ResolvedRow(prices, index, c, now);
    assert row == [];
    assert FieldValues(row, Profit) == [] && FieldValues(row, HoursSale) == [] && FieldValues(row, HoursCost) == [];
    BucketsShape([], ProfitBuckets, fmt);
    BucketsShape([], HoursSaleBuckets, fmt);
    BucketsShape([], HoursCostBuckets, fmt);
  }

  // ---------------------------------------------------------------------
  // No duplicate series
  // ---------------------------------------------------------------------

  /** No two histograms of the same name carry the same label values. */
  predicate UniqueSeries(ms: seq<HistogramFamily>) {
    forall i, j :: 0 <= i < j < |ms| && ms[i].name == ms[j].name ==> ms[i].labelValues != ms[j].labelValues
  }

  function Names(ms: seq<HistogramFamily>): set<string> {
    set h | h in ms :: h.name
  }

  /** Every histogram's first label value, its `company_id`, is one of
      `labels`. */
  predicate LabelledFrom(ms: seq<HistogramFamily>, labels: set<string>) {
    forall h :: h in ms ==> |h.labelValues| >= 1 && h.labelValues[0] in labels
  }

  /** The `company_id` labels of the companies. */
  function CompanyLabels(cs: seq<int>): set<string> {
    set c | c in cs :: IntText(c)
  }

  const PriceNames: seq<string> :=
    ["workbook_employees_profit_ratio", "workbook_employees_hours_sale", "workbook_employees_hours_cost"]
  const CreditNames: seq<string> := ["workbook_credit_total", "workbook_credit_due"]
  const PriceNameSet: set<string> := {PriceNames[0], PriceNames[1], PriceNames[2]}
  const TenureNameSet: set<string> := {"workbook_employees_days_employed"}
  const JobNameSet: set<string> := {"workbook_jobs_age_days"}
  const CreditNameSet: set<string> := {CreditNames[0], CreditNames[1]}

  /** A company not among `cs` has a label none of them has. */
  lemma NewCompanyApart(cs: seq<int>, c: int)
    requires c !in cs
    ensures CompanyLabels(cs) !! {IntText(c)}
  {
    forall x | x in cs ensures IntText(x) != IntText(c) {
      IntTextInjective(x, c);
    }
  }

  lemma DistinctInit(cs: seq<int>)
    requires Distinct(cs) && cs != []
    ensures Distinct(cs[..|cs| - 1]) && cs[|cs| - 1] !in cs[..|cs| - 1]
    ensures CompanyLabels(cs) == CompanyLabels(cs[..|cs| - 1]) + {IntText(cs[|cs| - 1])}
  {
    assert cs == cs[..|cs| - 1] + [cs[|cs| - 1]];
  }

  lemma NamesConcat(a: seq<HistogramFamily>, b: seq<HistogramFamily>)
    ensures Names(a + b) == Names(a) + Names(b)
  {
    assert forall h :: h in a + b <==> h in a || h in b;
  }

  lemma LabelledConcat(a: seq<HistogramFamily>, b: seq<HistogramFamily>, la: set<string>, lb: set<string>)
    requires LabelledFrom(a, la) && LabelledFrom(b, lb)
    ensures LabelledFrom(a + b, la + lb)
  {
    assert forall h :: h in a + b <==> h in a || h in b;
  }

  /** Two series lists for disjoint sets of companies concatenate without a
      duplicate series. */
  lemma UniqueAcrossCompanies(a: seq<HistogramFamily>, b: seq<HistogramFamily>, la: set<string>, lb: set<string>)
    requires UniqueSeries(a) && UniqueSeries(b) && LabelledFrom(a, la) && LabelledFrom(b, lb) && la !! lb
    ensures UniqueSeries(a + b)
  {
    var ab := a + b;
    forall i, j | 0 <= i < j < |ab|
      ensures ab[i].name == ab[j].name ==> ab[i].labelValues != ab[j].labelValues
    {
      if j < |a| {
        assert ab[i] == a[i] && ab[j] == a[j];
      } else if i >= |a| {
        assert ab[i] == b[i - |a|] && ab[j] == b[j - |a|];
      } else {
        assert ab[i] == a[i] && ab[j] == b[j - |a|];
        assert a[i] in a && b[j - |a|] in b;
        assert ab[i].labelValues[0] != ab[j].labelValues[0];
      }
    }
  }

  /** Two series lists of different metric families concatenate without a
      duplicate series. */
  lemma UniqueAcrossFamilies(a: seq<HistogramFamily>, b: seq<HistogramFamily>)
    requires UniqueSeries(a) && UniqueSeries(b) && Names(a) !! Names(b)
    ensures UniqueSeries(a + b)
  {
    var ab := a + b;
    forall i, j | 0 <= i < j < |ab|
      ensures ab[i].name == ab[j].name ==> ab[i].labelValues != ab[j].labelValues
    {
      if j < |a| {
        assert ab[i] == a[i] && ab[j] == a[j];
      } else if i >= |a| {
        assert ab[i] == b[i - |a|] && ab[j] == b[j - |a|];
      } else {
        assert ab[i] == a[i] && ab[j] == b[j - |a|];
        assert a[i].name in Names(a) && b[j - |a|].name in Names(b);
      }
    }
  }

  // One company's histograms.

  lemma PriceBlock(c: int, row: seq<Price>, fmt: real -> string)
    ensures var hs := PriceHistograms(c, row, fmt);
      UniqueSeries(hs) && LabelledFrom(hs, {IntText(c)}) && Names(hs) <= PriceNameSet
  {
    var hs := PriceHistograms(c, row, fmt);
    assert |PriceNames[0]| == 31 && |PriceNames[1]| == 29 && |PriceNames[2]| == 29;
    assert PriceNames[1][25] == 's' && PriceNames[2][25] == 'c';
    assert hs[0].name == PriceNames[0] && hs[1].name == PriceNames[1] && hs[2].name == PriceNames[2];
    assert forall h :: h in hs <==> h == hs[0] || h == hs[1] || h == hs[2];
  }

  lemma JobBlock(c: int, jobs: seq<Job>, today: int, fmt: real -> string)
    requires AllDated(jobs)
    ensures var hs := JobHistograms(c, jobs, today, fmt);
      UniqueSeries(hs) && LabelledFrom(hs, {IntText(c)}) && Names(hs) <= JobNameSet
  {
    var hs := JobHistograms(c, jobs, today, fmt);
    assert hs[0].labelValues[1] == "1" && hs[1].labelValues[1] == "0";
    assert forall h :: h in hs <==> h == hs[0] || h == hs[1];
  }

  lemma CreditBlock(c: int, creditors: seq<Creditor>, fmt: real -> string)
    ensures var hs := CreditHistograms(c, creditors, fmt);
      UniqueSeries(hs) && LabelledFrom(hs, {IntText(c)}) && Names(hs) <= CreditNameSet
  {
    var hs := CreditHistograms(c, creditors, fmt);
    assert |CreditNames[0]| == 21 && |CreditNames[1]| == 19;
    assert hs[0].name == CreditNames[0] && hs[1].name == CreditNames[1];
    assert forall h :: h in hs <==> h == hs[0] || h == hs[1];
  }

  // Each section, by induction on the companies.

  lemma {:induction false} PriceSectionUnique(cs: seq<int>, prices: seq<Price>, index: map<int, Employee>, now: int,
                                              fmt: real -> string)
    requires Distinct(cs)
    ensures var out := PriceSection(cs, prices, index, now, fmt);
      UniqueSeries(out) && LabelledFrom(out, CompanyLabels(cs)) && Names(out) <= PriceNameSet
  {
    if cs != [] {
      var init, c := cs[..|cs| - 1], cs[|cs| - 1];
      DistinctInit(cs);
      PriceSectionUnique(init, prices, index, now, fmt);
      var pre := PriceSection(init, prices, index, now, fmt);
      var block := PriceHistograms(c, ResolvedRow(prices, index, c, now), fmt);
      PriceBlock(c, ResolvedRow(prices, index, c, now), fmt);
      NewCompanyApart(init, c);
      UniqueAcrossCompanies(pre, block, CompanyLabels(init), {IntText(c)});
      LabelledConcat(pre, block, CompanyLabels(init), {IntText(c)});
      NamesConcat(pre, block);
    }
  }

  lemma {:induction false} TenureSectionUnique(cs: seq<int>, employeesOf: int -> Fetch<Employee>, today: int,
                                               fmt: real -> string)
    requires Distinct(cs)
    ensures var out := TenureSection(cs, employeesOf, today, fmt);
      UniqueSeries(out) && LabelledFrom(out, CompanyLabels(cs)) && Names(out) <= TenureNameSet
  {
    if cs != [] {
      var init, c := cs[..|cs| - 1], cs[|cs| - 1];
      DistinctInit(cs);
      TenureSectionUnique(init, employeesOf, today, fmt);
      var pre := TenureSection(init, employeesOf, today, fmt);
      var block: seq<HistogramFamily> := match employeesOf(c)
        case Fetched(employees) => [TenureHistogram(c, employees, today, fmt)]
        case FetchFailed => [];
      assert TenureSection(cs, employeesOf, today, fmt) == pre + block;
      assert forall h :: h in block ==> h.labelValues == [IntText(c)] && h.name in TenureNameSet;
      NewCompanyApart(init, c);
      UniqueAcrossCompanies(pre, block, CompanyLabels(init), {IntText(c)});
      LabelledConcat(pre, block, CompanyLabels(init), {IntText(c)});
      NamesConcat(pre, block);
    }
  }

  lemma {:induction false} JobSectionUnique(cs: seq<int>, jobsOf: int -> Fetch<Job>, today: int, fmt: real -> string)
    requires Distinct(cs) && JobSection(cs, jobsOf, today, fmt).Some?
    ensures var out := JobSection(cs, jobsOf, today, fmt).value;
      UniqueSeries(out) && LabelledFrom(out, CompanyLabels(cs)) && Names(out) <= JobNameSet
  {
    if cs != [] {
      var init, c := cs[..|cs| - 1], cs[|cs| - 1];
      DistinctInit(cs);
      assert JobSection(init, jobsOf, today, fmt).Some?;
      JobSectionUnique(init, jobsOf, today, fmt);
      var pre := JobSection(init, jobsOf, today, fmt).value;
      var block: seq<HistogramFamily> := [];
      if jobsOf(c).Fetched? {
        assert AllDated(jobsOf(c).records);
        block := JobHistograms(c, jobsOf(c).records, today, fmt);
        JobBlock(c, jobsOf(c).records, today, fmt);
      }
      assert JobSection(cs, jobsOf, today, fmt).value == pre + block;
      NewCompanyApart(init, c);
      UniqueAcrossCompanies(pre, block, CompanyLabels(init), {IntText(c)});
      LabelledConcat(pre, block, CompanyLabels(init), {IntText(c)});
      NamesConcat(pre, block);
    }
  }

  lemma {:induction false} CreditSectionUnique(cs: seq<int>, creditors: seq<Creditor>, fmt: real -> string)
    requires Distinct(cs)
    ensures var out := CreditSection(cs, creditors, fmt);
      UniqueSeries(out) && LabelledFrom(out, CompanyLabels(cs)) && Names(out) <= CreditNameSet
  {
    if cs != [] {
      var init, c := cs[..|cs| - 1], cs[|cs| - 1];
      DistinctInit(cs);
      CreditSectionUnique(init, creditors, fmt);
      var pre := CreditSection(init, creditors, fmt);
      var block := CreditHistograms(c, creditors, fmt);
      CreditBlock(c, creditors, fmt);
      NewCompanyApart(init, c);
      UniqueAcrossCompanies(pre, block, CompanyLabels(init), {IntText(c)});
      LabelledConcat(pre, block, CompanyLabels(init), {IntText(c)});
      NamesConcat(pre, block);
    }
  }

  // Across sections: no two sections share a family name. The names of
  // different sections already differ in length.

  lemma PriceNameLengths()
    ensures forall x :: x in PriceNameSet ==> |x| in {29, 31}
  {
    assert |PriceNames[0]| == 31 && |PriceNames[1]| == 29 && |PriceNames[2]| == 29;
  }

  lemma TenureNameLengths()
    ensures forall x :: x in TenureNameSet ==> |x| in {32}
  {
  }

  lemma JobNameLengths()
    ensures forall x :: x in JobNameSet ==> |x| in {22}
  {
  }

  lemma CreditNameLengths()
    ensures forall x :: x in CreditNameSet ==> |x| in {19, 21}
  {
    assert |CreditNames[0]| == 21 && |CreditNames[1]| == 19;
  }

  /** The price, days-employed, job and credit families have pairwise
      different names. */
  lemma FamilyNamesApart()
    ensures PriceNameSet !! TenureNameSet && PriceNameSet !! JobNameSet && PriceNameSet !! CreditNameSet
    ensures TenureNameSet !! JobNameSet && TenureNameSet !! CreditNameSet
    ensures JobNameSet !! CreditNameSet
  {
    PriceNameLengths();
    TenureNameLengths();
    JobNameLengths();
    CreditNameLengths();
  }

  /** Four series lists drawn from pairwise disjoint sets of family names
      repeat no series when concatenated. */
  lemma SectionsUnique(p: seq<HistogramFamily>, t: seq<HistogramFamily>, j: seq<HistogramFamily>, c: seq<HistogramFamily>,
                       sp: set<string>, st: set<string>, sj: set<string>, sc: set<string>)
    requires UniqueSeries(p) && UniqueSeries(t) && UniqueSeries(j) && UniqueSeries(c)
    requires Names(p) <= sp && Names(t) <= st && Names(j) <= sj && Names(c) <= sc
    requires sp !! st && sp !! sj && sp !! sc && st !! sj && st !! sc && sj !! sc
    ensures UniqueSeries(p + t + j + c)
  {
    UniqueAcrossFamilies(p, t);
    NamesConcat(p, t);
    UniqueAcrossFamilies(p + t, j);
    NamesConcat(p + t, j);
    UniqueAcrossFamilies(p + t + j, c);
  }

  /** Every completed scrape is a valid exposition: no series appears twice. */
  lemma ScrapeSeriesUnique(data: WorkbookData, now: int, fmt: real -> string)
    requires Scrape(data, now, fmt).Completed?
    ensures UniqueSeries(Scrape(data, now, fmt).metrics)
  {
    var cs := CompanyIds(data.companies.records);
    var index := EmployeeIndex(data.employees.records);
    var p: seq<HistogramFamily> := [];
    if data.prices.Fetched? {
      PriceSectionUnique(cs, data.prices.records, index, now, fmt);
      p := PriceSection(cs, data.prices.records, index, now, fmt);
    }
    var t := TenureSection(cs, data.employeesOf, now, fmt);
    TenureSectionUnique(cs, data.employeesOf, now, fmt);
    var j := JobSection(cs, data.jobsOf, now, fmt).value;
    JobSectionUnique(cs, data.jobsOf, now, fmt);
    var c: seq<HistogramFamily> := [];
    if data.creditors.Fetched? {
      CreditSectionUnique(cs, data.creditors.records, fmt);
      c := CreditSection(cs, data.creditors.records, fmt);
    }
    FamilyNamesApart();
    SectionsUnique(p, t, j, c, PriceNameSet, TenureNameSet, JobNameSet, CreditNameSet);
  }
}
