/**
 * `WorkbookCollector.collect` up to its bare `return`: the fetches, the
 * price dictionary, and the histograms emitted per company, in emission
 * order. The data source is replaced by a `WorkbookData` value holding the
 * outcome of every call, and the clock by the parameter `now`.
 */
module Collector {
  import opened Wrappers
  import opened Records
  import opened Histogram
  import opened Decimal
  import opened Prices
  import opened Observations

  // ---------------------------------------------------------------------
  // Configuration (lines 114-121)
  // ---------------------------------------------------------------------

  const DaysEmployedBuckets: seq<Bound> := [
    Finite((3 * 30) as real), Finite((5 * 30) as real), Finite((2 * 12 * 30 + 9 * 30) as real),
    Finite((5 * 12 * 30 + 8 * 30) as real), Finite((8 * 12 * 30 + 7 * 30) as real)]
  const JobAgeBuckets: seq<Bound> := [Finite(30.0), Finite((2 * 30) as real), Finite((6 * 30) as real), Finite(365.0)]
  const ProfitBuckets: seq<Bound> := [Finite(0.2), Finite(0.4), Finite(0.6), Finite(0.8)]
  const HoursSaleBuckets: seq<Bound> := [Finite(500.0), Finite(1000.0), Finite(1500.0), Finite(2000.0)]
  const HoursCostBuckets: seq<Bound> := [Finite(250.0), Finite(500.0), Finite(750.0), Finite(1000.0)]
  const CreditBuckets: seq<Bound> := [
    Finite(-50000.0), Finite(-25000.0), Finite(-10000.0), Finite(0.0),
    Finite(10000.0), Finite(25000.0), Finite(50000.0)]

  /** The currency label written literally on the price and credit
      families; amounts are not converted. */
  const CurrencyLabel: string := "DKK"

  // ---------------------------------------------------------------------
  // Inputs and result
  // ---------------------------------------------------------------------

  /** What every call to the data source returns during one scrape. The
      per-company calls are functions of the company id. */
  datatype WorkbookData = WorkbookData(
    currencies: Fetch<Currency>,
    companies: Fetch<Company>,
    employees: Fetch<Employee>,
    prices: Fetch<Price>,
    employeesOf: int -> Fetch<Employee>,
    jobsOf: int -> Fetch<Job>,
    creditors: Fetch<Creditor>)

  /** Why `collect` raised: an unguarded fetch failed (lines 101-107), a
      dictionary lookup failed (lines 141 and 145), or a job date was
      missing (lines 247 and 249). */
  datatype Cause = FetchError | MissingKey | MissingDate

  /** A generator that raises yields nothing the exposition layer keeps, so
      a raised scrape carries only its cause. `wbError` is computed but,
      because of the early `return`, never emitted. */
  datatype Outcome = Completed(metrics: seq<HistogramFamily>, wbError: bool) | Raised(cause: Cause)

  // ---------------------------------------------------------------------
  // The histograms of one company
  // ---------------------------------------------------------------------

  /** Profit, hours-sale and hours-cost histograms (lines 179-205). */
  function PriceHistograms(c: int, row: seq<Price>, fmt: real -> string): seq<HistogramFamily> {
    [ HistogramOf(TruthyValues(FieldValues(row, Profit)), ProfitBuckets,
        "workbook_employees_profit_ratio", "Estimated sales price of 1 hours work",
        ["company_id"], [IntText(c)], fmt),
      HistogramOf(TruthyValues(FieldValues(row, HoursSale)), HoursSaleBuckets,
        "workbook_employees_hours_sale", "Estimated sales price of 1 hours work",
        ["company_id", "currency"], [IntText(c), CurrencyLabel], fmt),
      HistogramOf(TruthyValues(FieldValues(row, HoursCost)), HoursCostBuckets,
        "workbook_employees_hours_cost", "Estimated cost of 1 hours work",
        ["company_id", "currency"], [IntText(c), CurrencyLabel], fmt) ]
  }

  /** Days-employed histogram (lines 222-228). */
  function TenureHistogram(c: int, employees: seq<Employee>, today: int, fmt: real -> string): HistogramFamily {
    HistogramOf(TenureDays(employees, today), DaysEmployedBuckets,
      "workbook_employees_days_employed", "Days since employment",
      ["company_id"], [IntText(c)], fmt)
  }

  /** Billable and non-billable job histograms (lines 257-272). */
  function JobHistograms(c: int, jobs: seq<Job>, today: int, fmt: real -> string): seq<HistogramFamily>
    requires AllDated(jobs)
  {
    [ HistogramOf(JobDays(jobs, today, true), JobAgeBuckets,
        "workbook_jobs_age_days", "Days since job was created",
        ["company_id", "billable"], [IntText(c), "1"], fmt),
      HistogramOf(JobDays(jobs, today, false), JobAgeBuckets,
        "workbook_jobs_age_days", "Days since job was created",
        ["company_id", "billable"], [IntText(c), "0"], fmt) ]
  }

  /** Credit total and credit due histograms (lines 300-315). */
  function CreditHistograms(c: int, creditors: seq<Creditor>, fmt: real -> string): seq<HistogramFamily> {
    var own := CreditorsOf(creditors, c);
    [ HistogramOf(TruthyValues(Totals(own)), CreditBuckets,
        "workbook_credit_total", "Amount owed",
        ["company_id", "currency"], [IntText(c), CurrencyLabel], fmt),
      HistogramOf(TruthyValues(Dues(own)), CreditBuckets,
        "workbook_credit_due", "Amount owed",
        ["company_id", "currency"], [IntText(c), CurrencyLabel], fmt) ]
  }

  // ---------------------------------------------------------------------
  // The sections of the scrape, company by company
  // ---------------------------------------------------------------------

  function PriceSection(cs: seq<int>, prices: seq<Price>, index: map<int, Employee>, now: int,
                        fmt: real -> string): seq<HistogramFamily>
  {
    if cs == [] then []
    else
      var c := cs[|cs| - 1];
      PriceSection(cs[..|cs| - 1], prices, index, now, fmt) + PriceHistograms(c, ResolvedRow(prices, index, c, now), fmt)
  }

  function TenureSection(cs: seq<int>, employeesOf: int -> Fetch<Employee>, today: int,
                         fmt: real -> string): seq<HistogramFamily>
  {
    if cs == [] then []
    else
      var c := cs[|cs| - 1];
      TenureSection(cs[..|cs| - 1], employeesOf, today, fmt)
        + match employeesOf(c)
          case Fetched(employees) => [TenureHistogram(c, employees, today, fmt)]
          case FetchFailed => []
  }

  /** `None` when some company's fetched jobs include one without dates. */
  function JobSection(cs: seq<int>, jobsOf: int -> Fetch<Job>, today: int,
                      fmt: real -> string): Option<seq<HistogramFamily>>
  {
    if cs == [] then Some([])
    else
      var c := cs[|cs| - 1];
      match JobSection(cs[..|cs| - 1], jobsOf, today, fmt)
      case None => None
      case Some(out) =>
        match jobsOf(c)
        case FetchFailed => Some(out)
        case Fetched(jobs) => if AllDated(jobs) then Some(out + JobHistograms(c, jobs, today, fmt)) else None
  }

  function CreditSection(cs: seq<int>, creditors: seq<Creditor>, fmt: real -> string): seq<HistogramFamily> {
    if cs == [] then []
    else
      CreditSection(cs[..|cs| - 1], creditors, fmt) + CreditHistograms(cs[|cs| - 1], creditors, fmt)
  }

  /** Some per-company call failed. */
  function AnyFailed<T>(cs: seq<int>, fetchOf: int -> Fetch<T>): (r: bool)
    ensures r <==> exists k :: 0 <= k < |cs| && fetchOf(cs[k]).FetchFailed?
  {
    if cs == [] then false
    else AnyFailed(cs[..|cs| - 1], fetchOf) || fetchOf(cs[|cs| - 1]).FetchFailed?
  }

  /** The whole scrape, section by section. */
  function Scrape(data: WorkbookData, now: int, fmt: real -> string): Outcome {
    if data.currencies.FetchFailed? || data.companies.FetchFailed? || data.employees.FetchFailed? then
      Raised(FetchError)
    else
      var cs := CompanyIds(data.companies.records);
      var index := EmployeeIndex(data.employees.records);
      if data.prices.Fetched? && !AllResolvable(data.prices.records, index, cs) then
        Raised(MissingKey)
      else
        var jobs := JobSection(cs, data.jobsOf, now, fmt);
        if jobs.None? then
          Raised(MissingDate)
        else
          Completed(
            (if data.prices.Fetched? then PriceSection(cs, data.prices.records, index, now, fmt) else [])
              + TenureSection(cs, data.employeesOf, now, fmt)
              + jobs.value
              + (if data.creditors.Fetched? then CreditSection(cs, data.creditors.records, fmt) else []),
            data.prices.FetchFailed? || AnyFailed(cs, data.employeesOf)
              || AnyFailed(cs, data.jobsOf) || data.creditors.FetchFailed?)
  }

  /** A company whose jobs raise makes the whole section raise. */
  lemma {:induction false} JobSectionNoneExtends(cs: seq<int>, i: int, jobsOf: int -> Fetch<Job>, today: int,
                                                 fmt: real -> string)
    requires 0 <= i <= |cs| && JobSection(cs[..i], jobsOf, today, fmt).None?
    ensures JobSection(cs, jobsOf, today, fmt).None?
  {
    if i < |cs| {
      assert cs[..|cs| - 1][..i] == cs[..i];
      JobSectionNoneExtends(cs[..|cs| - 1], i, jobsOf, today, fmt);
    } else {
      assert cs[..i] == cs;
    }
  }

  // ---------------------------------------------------------------------
  // The phases of `collect`, each proved against its section
  // ---------------------------------------------------------------------

  /** One company's price histograms from its row of `price_dict`. */
  method EmitPriceHistograms(c: int, row: seq<Price>, fmt: real -> string) returns (hs: seq<HistogramFamily>)
    ensures hs == PriceHistograms(c, row, fmt)
  {
    var profit, hoursCost, hoursSale := PriceObservations(row);
    var profitH := BuildHistogram(profit, ProfitBuckets,
      "workbook_employees_profit_ratio", "Estimated sales price of 1 hours work",
      ["company_id"], [IntText(c)], fmt);
    var saleH := BuildHistogram(hoursSale, HoursSaleBuckets,
      "workbook_employees_hours_sale", "Estimated sales price of 1 hours work",
      ["company_id", "currency"], [IntText(c), CurrencyLabel], fmt);
    var costH := BuildHistogram(hoursCost, HoursCostBuckets,
      "workbook_employees_hours_cost", "Estimated cost of 1 hours work",
      ["company_id", "currency"], [IntText(c), CurrencyLabel], fmt);
    hs := [profitH, saleH, costH];
  }

  /** Lines 136-205: resolve the price dictionary, then emit it company by
      company; `None` when a lookup raised. */
  method EmitPrices(cs: seq<int>, index: map<int, Employee>, prices: seq<Price>, now: int, fmt: real -> string)
    returns (out: Option<seq<HistogramFamily>>)
    ensures out.None? <==> !AllResolvable(prices, index, cs)
    ensures out.Some? ==> out.value == PriceSection(cs, prices, index, now, fmt)
  {
    var priceDict := ResolvePrices(cs, index, prices, now);
    if priceDict.None? {
      return None;
    }
    var dict := priceDict.value;
    var emitted: seq<HistogramFamily> := [];
    for i := 0 to |cs|
      invariant emitted == PriceSection(cs[..i], prices, index, now, fmt)
    {
      assert cs[..i + 1][..i] == cs[..i];
      assert cs[i] in dict;
      var hs := EmitPriceHistograms(cs[i], dict[cs[i]], fmt);
      emitted := emitted + hs;
    }
    assert cs[..|cs|] == cs;
    return Some(emitted);
  }

  /** Lines 207-228: one days-employed histogram per company whose
      employees could be fetched; a failed fetch sets the error flag. */
  method EmitTenure(cs: seq<int>, employeesOf: int -> Fetch<Employee>, today: int, fmt: real -> string)
    returns (out: seq<HistogramFamily>, failed: bool)
    ensures out == TenureSection(cs, employeesOf, today, fmt)
    ensures failed == AnyFailed(cs, employeesOf)
  {
    out, failed := [], false;
    for i := 0 to |cs|
      invariant out == TenureSection(cs[..i], employeesOf, today, fmt)
      invariant failed == AnyFailed(cs[..i], employeesOf)
    {
      var c := cs[i];
      assert cs[..i + 1][..i] == cs[..i];
      match employeesOf(c)
      case FetchFailed =>
        failed := true;
      case Fetched(employees) =>
        var observations := TenureObservations(employees, today);
        assert observations == TenureDays(employees, today);
        var h := BuildHistogram(observations, DaysEmployedBuckets,
          "workbook_employees_days_employed", "Days since employment",
          ["company_id"], [IntText(c)], fmt);
        out := out + [h];
    }
    assert cs[..|cs|] == cs;
  }

  /** Lines 230-272: two job histograms per company whose jobs could be
      fetched; `None` as soon as a job without dates raises. */
  method EmitJobs(cs: seq<int>, jobsOf: int -> Fetch<Job>, today: int, fmt: real -> string)
    returns (out: Option<seq<HistogramFamily>>, failed: bool)
    ensures out == JobSection(cs, jobsOf, today, fmt)
    ensures out.Some? ==> failed == AnyFailed(cs, jobsOf)
  {
    var emitted: seq<HistogramFamily> := [];
    failed := false;
    for i := 0 to |cs|
      invariant JobSection(cs[..i], jobsOf, today, fmt) == Some(emitted)
      invariant failed == AnyFailed(cs[..i], jobsOf)
    {
      var c := cs[i];
      assert cs[..i + 1][..i] == cs[..i];
      match jobsOf(c)
      case FetchFailed =>
        failed := true;
      case Fetched(jobs) =>
        var split := JobObservations(jobs, today);
        if split.None? {
          JobSectionNoneExtends(cs, i + 1, jobsOf, today, fmt);
          return None, failed;
        }
        var billableH := BuildHistogram(split.value.billable, JobAgeBuckets,
          "workbook_jobs_age_days", "Days since job was created",
          ["company_id", "billable"], [IntText(c), "1"], fmt);
        var nonBillableH := BuildHistogram(split.value.nonBillable, JobAgeBuckets,
          "workbook_jobs_age_days", "Days since job was created",
          ["company_id", "billable"], [IntText(c), "0"], fmt);
        emitted := emitted + [billableH, nonBillableH];
    }
    assert cs[..|cs|] == cs;
    return Some(emitted), failed;
  }

  /** Lines 275-315: credit total and credit due per company. */
  method EmitCredit(cs: seq<int>, creditors: seq<Creditor>, fmt: real -> string) returns (out: seq<HistogramFamily>)
    ensures out == CreditSection(cs, creditors, fmt)
  {
    out := [];
    for i := 0 to |cs|
      invariant out == CreditSection(cs[..i], creditors, fmt)
    {
      var c := cs[i];
      assert cs[..i + 1][..i] == cs[..i];
      var total, due := CreditObservations(creditors, c);
      var totalH := BuildHistogram(total, CreditBuckets,
        "workbook_credit_total", "Amount owed",
        ["company_id", "currency"], [IntText(c), CurrencyLabel], fmt);
      var dueH := BuildHistogram(due, CreditBuckets,
        "workbook_credit_due", "Amount owed",
        ["company_id", "currency"], [IntText(c), CurrencyLabel], fmt);
      out := out + [totalH, dueH];
    }
    assert cs[..|cs|] == cs;
  }

  // ---------------------------------------------------------------------
  // The collector object
  // ---------------------------------------------------------------------

  class WorkbookCollector {
    /** Keys of `self.companies`, in dictionary order. */
    var companies: seq<int>
    /** `self.companies`: company id to name. */
    var companyNames: map<int, string>

    constructor ()
      ensures companies == [] && companyNames == map[]
    {
      companies := [];
      companyNames := map[];
    }

    /** Lines 100-318. */
    method Collect(data: WorkbookData, now: int, fmt: real -> string) returns (outcome: Outcome)
      modifies this
      ensures outcome == Scrape(data, now, fmt)
      ensures if data.currencies.Fetched? && data.companies.Fetched?
              then companies == CompanyIds(data.companies.records)
                   && companyNames == CompanyNames(data.companies.records)
              else companies == old(companies) && companyNames == old(companyNames)
    {
      if data.currencies.FetchFailed? || data.companies.FetchFailed? {
        return Raised(FetchError);
      }
      companies := CompanyIds(data.companies.records);
      companyNames := CompanyNames(data.companies.records);
      if data.employees.FetchFailed? {
        return Raised(FetchError);
      }
      var index := EmployeeIndex(data.employees.records);
      var cs := companies;

      var priceOut: seq<HistogramFamily> := [];
      if data.prices.Fetched? {
        var emitted := EmitPrices(cs, index, data.prices.records, now, fmt);
        if emitted.None? {
          return Raised(MissingKey);
        }
        priceOut := emitted.value;
      }
      var tenureOut, tenureFailed := EmitTenure(cs, data.employeesOf, now, fmt);
      var jobOut, jobsFailed := EmitJobs(cs, data.jobsOf, now, fmt);
      if jobOut.None? {
        return Raised(MissingDate);
      }
      var creditOut: seq<HistogramFamily> := [];
      if data.creditors.Fetched? {
        creditOut := EmitCredit(cs, data.creditors.records, fmt);
      }
      var wbError := data.prices.FetchFailed? || tenureFailed || jobsFailed || data.creditors.FetchFailed?;
      return Completed(priceOut + tenureOut + jobOut.value + creditOut, wbError);
    }
  }
}
