/**
 * Observation extraction of `collect` for employees (days employed), jobs
 * (days to the end date, split by the billable flag) and creditors
 * (remaining amounts of one company).
 */
module Observations {
  import opened Wrappers
  import opened Records

  // ---------------------------------------------------------------------
  // Employees
  // ---------------------------------------------------------------------

  /** Days since each employee's hire date, in fetch order. */
  function TenureDays(employees: seq<Employee>, today: int): seq<real> {
    seq(|employees|, i requires 0 <= i < |employees| => Days(employees[i].hireDate, today) as real)
  }

  /** Lines 217-219. */
  method TenureObservations(employees: seq<Employee>, today: int) returns (observations: seq<real>)
    ensures |observations| == |employees|
    ensures forall i :: 0 <= i < |employees| ==>
              observations[i] == Days(employees[i].hireDate, today) as real
  {
    observations := [];
    for i := 0 to |employees|
      invariant |observations| == i
      invariant forall k :: 0 <= k < i ==> observations[k] == Days(employees[k].hireDate, today) as real
    {
      observations := observations + [Days(employees[i].hireDate, today) as real];
    }
  }

  // ---------------------------------------------------------------------
  // Jobs
  // ---------------------------------------------------------------------

  /** Both dates are present; `parse_date` of a missing one raises. */
  predicate Dated(j: Job) {
    j.createDate.Some? && j.endDate.Some?
  }

  predicate AllDated(jobs: seq<Job>) {
    forall i :: 0 <= i < |jobs| ==> Dated(jobs[i])
  }

  /** `if j.get('Billable'):` */
  predicate IsBillable(j: Job) {
    j.billable == Some(true)
  }

  /** `(date_end - datetime.today()).days`. */
  function DaysToEnd(j: Job, today: int): int
    requires j.endDate.Some?
  {
    Days(today, j.endDate.value)
  }

  /** The observations of the jobs whose billable flag is `billable`, in
      fetch order. */
  function JobDays(jobs: seq<Job>, today: int, billable: bool): seq<real>
    requires AllDated(jobs)
  {
    if jobs == [] then []
    else
      var last := jobs[|jobs| - 1];
      JobDays(jobs[..|jobs| - 1], today, billable)
        + (if IsBillable(last) == billable then [DaysToEnd(last, today) as real] else [])
  }

  datatype JobSplit = JobSplit(billable: seq<real>, nonBillable: seq<real>)

  /** Lines 240-254. `None` stands for the `TypeError` that `parse_date`
      raises on a job without a create or end date. */
  method JobObservations(jobs: seq<Job>, today: int) returns (split: Option<JobSplit>)
    ensures split.None? <==> !AllDated(jobs)
    ensures split.Some? ==> split.value == JobSplit(JobDays(jobs, today, true), JobDays(jobs, today, false))
  {
    var billable, nonBillable := [], [];
    for i := 0 to |jobs|
      invariant AllDated(jobs[..i])
      invariant billable == JobDays(jobs[..i], today, true)
      invariant nonBillable == JobDays(jobs[..i], today, false)
    {
      var j := jobs[i];
      assert jobs[..i + 1][..i] == jobs[..i];
      if j.createDate.None? || j.endDate.None? {
        return None;
      }
      if IsBillable(j) {
        billable := billable + [DaysToEnd(j, today) as real];
      } else {
        nonBillable := nonBillable + [DaysToEnd(j, today) as real];
      }
    }
    assert jobs[..|jobs|] == jobs;
    return Some(JobSplit(billable, nonBillable));
  }

  /** Every job's observation, in fetch order. */
  function AllJobDays(jobs: seq<Job>, today: int): seq<real>
    requires AllDated(jobs)
  {
    seq(|jobs|, i requires 0 <= i < |jobs| => DaysToEnd(jobs[i], today) as real)
  }

  /** Every job lands in exactly one of the two lists: together they are a
      rearrangement of all the jobs' observations. */
  lemma {:induction false} JobsPartition(jobs: seq<Job>, today: int)
    requires AllDated(jobs)
    ensures multiset(JobDays(jobs, today, true)) + multiset(JobDays(jobs, today, false))
         == multiset(AllJobDays(jobs, today))
    ensures |JobDays(jobs, today, true)| + |JobDays(jobs, today, false)| == |jobs|
  {
    if jobs != [] {
      var n := |jobs| - 1;
      var init := jobs[..n];
      assert AllDated(init);
      JobsPartition(init, today);
      var x := DaysToEnd(jobs[n], today) as real;
      var b0, nb0 := JobDays(init, today, true), JobDays(init, today, false);
      assert AllJobDays(jobs, today) == AllJobDays(init, today) + [x];
      if IsBillable(jobs[n]) {
        assert JobDays(jobs, today, true) == b0 + [x];
        assert JobDays(jobs, today, false) == nb0;
      } else {
        assert JobDays(jobs, today, true) == b0;
        assert JobDays(jobs, today, false) == nb0 + [x];
      }
    }
  }

  /** The billable list holds the observations of the billable jobs and
      nothing else; the non-billable list those of the others. */
  lemma {:induction false} JobDaysMembers(jobs: seq<Job>, today: int, billable: bool)
    requires AllDated(jobs)
    ensures forall v :: v in JobDays(jobs, today, billable) <==>
              exists i :: 0 <= i < |jobs| && IsBillable(jobs[i]) == billable && DaysToEnd(jobs[i], today) as real == v
  {
    if jobs != [] {
      var n := |jobs| - 1;
      JobDaysMembers(jobs[..n], today, billable);
      forall v | v in JobDays(jobs, today, billable)
        ensures exists i :: 0 <= i < |jobs| && IsBillable(jobs[i]) == billable && DaysToEnd(jobs[i], today) as real == v
      {
        if v !in JobDays(jobs[..n], today, billable) {
          assert IsBillable(jobs[n]) == billable && DaysToEnd(jobs[n], today) as real == v;
        } else {
          var i :| 0 <= i < n && IsBillable(jobs[..n][i]) == billable && DaysToEnd(jobs[..n][i], today) as real == v;
          assert jobs[i] == jobs[..n][i];
        }
      }
      forall v, i | 0 <= i < |jobs| && IsBillable(jobs[i]) == billable && DaysToEnd(jobs[i], today) as real == v
        ensures v in JobDays(jobs, today, billable)
      {
        if i < n {
          assert jobs[..n][i] == jobs[i];
        }
      }
    }
  }

  // ---------------------------------------------------------------------
  // Creditors
  // ---------------------------------------------------------------------

  /** `[c for c in creditors if c['CompanyId'] == company_id]`. */
  function CreditorsOf(creditors: seq<Creditor>, companyId: int): (r: seq<Creditor>)
    ensures forall c :: c in r <==> c in creditors && c.companyId == companyId
  {
    if creditors == [] then []
    else
      var last := creditors[|creditors| - 1];
      assert forall x :: x in creditors <==> x in creditors[..|creditors| - 1] || x == last;
      CreditorsOf(creditors[..|creditors| - 1], companyId) + (if last.companyId == companyId then [last] else [])
  }

  function Totals(creditors: seq<Creditor>): (vs: seq<Option<real>>)
    ensures |vs| == |creditors|
    ensures forall i :: 0 <= i < |creditors| ==> vs[i] == creditors[i].remainingAmountTotal
  {
    seq(|creditors|, i requires 0 <= i < |creditors| => creditors[i].remainingAmountTotal)
  }

  function Dues(creditors: seq<Creditor>): (vs: seq<Option<real>>)
    ensures |vs| == |creditors|
    ensures forall i :: 0 <= i < |creditors| ==> vs[i] == creditors[i].remainingAmountDue
  {
    seq(|creditors|, i requires 0 <= i < |creditors| => creditors[i].remainingAmountDue)
  }

  /** Lines 285-297 for one company. */
  method CreditObservations(creditors: seq<Creditor>, companyId: int) returns (total: seq<real>, due: seq<real>)
    ensures total == TruthyValues(Totals(CreditorsOf(creditors, companyId)))
    ensures due == TruthyValues(Dues(CreditorsOf(creditors, companyId)))
  {
    total, due := [], [];
    var own := CreditorsOf(creditors, companyId);
    for i := 0 to |own|
      invariant total == TruthyValues(Totals(own[..i]))
      invariant due == TruthyValues(Dues(own[..i]))
    {
      var c := own[i];
      assert Totals(own[..i + 1])[..i] == Totals(own[..i]);
      assert Dues(own[..i + 1])[..i] == Dues(own[..i]);
      var t := c.remainingAmountTotal;
      var d := c.remainingAmountDue;
      if Truthy(d) {
        due := due + [d.value];
      }
      if Truthy(t) {
        total := total + [t.value];
      }
    }
    assert own[..|own|] == own;
  }

  /** A credit observation of a company is a present, non-zero amount of a
      creditor of that company, and every such amount is observed; the
      creditors of other companies contribute nothing. */
  lemma CreditObservationMembers(creditors: seq<Creditor>, companyId: int)
    ensures forall v :: v in TruthyValues(Totals(CreditorsOf(creditors, companyId))) <==>
              v != 0.0 && exists c :: c in creditors && c.companyId == companyId && c.remainingAmountTotal == Some(v)
    ensures forall v :: v in TruthyValues(Dues(CreditorsOf(creditors, companyId))) <==>
              v != 0.0 && exists c :: c in creditors && c.companyId == companyId && c.remainingAmountDue == Some(v)
  {
    var own := CreditorsOf(creditors, companyId);
    TruthyValuesMembers(Totals(own));
    TruthyValuesMembers(Dues(own));
    forall v ensures Some(v) in Totals(own) <==> exists c :: c in own && c.remainingAmountTotal == Some(v) {
      if Some(v) in Totals(own) {
        var i :| 0 <= i < |own| && Totals(own)[i] == Some(v);
        assert own[i] in own;
      }
      if exists c :: c in own && c.remainingAmountTotal == Some(v) {
        var c :| c in own && c.remainingAmountTotal == Some(v);
        var i :| 0 <= i < |own| && own[i] == c;
        assert Totals(own)[i] == Some(v);
      }
    }
    forall v ensures Some(v) in Dues(own) <==> exists c :: c in own && c.remainingAmountDue == Some(v) {
      if Some(v) in Dues(own) {
        var i :| 0 <= i < |own| && Dues(own)[i] == Some(v);
        assert own[i] in own;
      }
      if exists c :: c in own && c.remainingAmountDue == Some(v) {
        var c :| c in own && c.remainingAmountDue == Some(v);
        var i :| 0 <= i < |own| && own[i] == c;
        assert Dues(own)[i] == Some(v);
      }
    }
  }
}
