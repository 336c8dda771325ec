/**
 * The fetched entities, as far as the reachable part of `collect` reads
 * them, and the id-keyed dictionaries it builds from them.
 *
 * A field the source reads with `record['Field']` is a plain field; a field
 * it reads with `record.get('Field')` may be absent and is an `Option`.
 * Timestamps are integer microseconds on one clock.
 */
module Records {
  import opened Wrappers

  /** The outcome of one call to the data source. */
  datatype Fetch<T> = Fetched(records: seq<T>) | FetchFailed

  datatype Currency = Currency(id: int, iso4127: string)

  datatype Company = Company(id: int, name: string)

  datatype Employee = Employee(id: int, companyId: int, hireDate: int)

  datatype Price = Price(
    employeeId: int,
    validFrom: int,
    profit: Option<real>,
    hoursCost: Option<real>,
    hoursSale: Option<real>)

  datatype Job = Job(createDate: Option<int>, endDate: Option<int>, billable: Option<bool>)

  datatype Creditor = Creditor(
    companyId: int,
    remainingAmountTotal: Option<real>,
    remainingAmountDue: Option<real>)

  const MicrosPerDay: int := 24 * 60 * 60 * 1000000

  /** `(to - from).days`: whole days in the difference, rounded down as
      `timedelta` does, so a difference of minus one microsecond is -1 day. */
  function Days(from: int, to: int): (d: int)
    ensures d * MicrosPerDay <= to - from < (d + 1) * MicrosPerDay
  {
    (to - from) / MicrosPerDay
  }

  /** Python truthiness of an optional number: present and non-zero. */
  predicate Truthy(v: Option<real>) {
    v.Some? && v.value != 0.0
  }

  /** The values that pass `if value:`, in order. */
  function TruthyValues(values: seq<Option<real>>): (r: seq<real>)
    ensures |r| <= |values|
  {
    if values == [] then []
    else
      var last := values[|values| - 1];
      TruthyValues(values[..|values| - 1]) + (if Truthy(last) then [last.value] else [])
  }

  /** Exactly the present, non-zero values become observations. */
  lemma {:induction false} TruthyValuesMembers(values: seq<Option<real>>)
    ensures forall v :: v in TruthyValues(values) <==> v != 0.0 && Some(v) in values
  {
    if values != [] {
      var init := values[..|values| - 1];
      TruthyValuesMembers(init);
      assert values == init + [values[|values| - 1]];
    }
  }

  /** Keys of `{c['Id']: c['Name'] for c in companies}` in dictionary order:
      every id once, at its first occurrence. */
  function CompanyIds(companies: seq<Company>): (ids: seq<int>)
    ensures forall i, j :: 0 <= i < j < |ids| ==> ids[i] != ids[j]
    ensures forall id :: id in ids <==> exists c :: c in companies && c.id == id
  {
    if companies == [] then []
    else
      var ids := CompanyIds(companies[..|companies| - 1]);
      var c := companies[|companies| - 1];
      assert forall x :: x in companies <==> x in companies[..|companies| - 1] || x == c;
      if c.id in ids then ids else ids + [c.id]
  }

  /** Values of that dictionary: a later company with the same id replaces
      the name. */
  function CompanyNames(companies: seq<Company>): (names: map<int, string>)
    ensures forall id :: id in names <==> exists c :: c in companies && c.id == id
  {
    if companies == [] then map[]
    else
      var c := companies[|companies| - 1];
      assert forall x :: x in companies <==> x in companies[..|companies| - 1] || x == c;
      CompanyNames(companies[..|companies| - 1])[c.id := c.name]
  }

  /** `{e['Id']: e for e in employees}`. */
  function EmployeeIndex(employees: seq<Employee>): (index: map<int, Employee>)
    ensures forall id :: id in index <==> exists e :: e in employees && e.id == id
    ensures forall id :: id in index ==> index[id] in employees && index[id].id == id
  {
    if employees == [] then map[]
    else
      var e := employees[|employees| - 1];
      assert forall x :: x in employees <==> x in employees[..|employees| - 1] || x == e;
      EmployeeIndex(employees[..|employees| - 1])[e.id := e]
  }

  /** No later record in `employees` has the id of the one at `k`. */
  predicate LastWithId(employees: seq<Employee>, k: int)
    requires 0 <= k < |employees|
  {
    forall k' :: k < k' < |employees| ==> employees[k'].id != employees[k].id
  }

  /** When an id occurs more than once, the dictionary keeps the last record. */
  lemma {:induction false} EmployeeIndexLastWins(employees: seq<Employee>, k: int)
    requires 0 <= k < |employees| && LastWithId(employees, k)
    ensures EmployeeIndex(employees)[employees[k].id] == employees[k]
  {
    var n := |employees| - 1;
    if k < n {
      EmployeeIndexLastWins(employees[..n], k);
    }
  }
}
