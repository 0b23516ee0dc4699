/**
 * The service that fronts the upstream directory: it sends one request per
 * operation, classifies the reply, binds the `data` rows to employee
 * records, and computes the derived views (name search, highest salary, top
 * ten earners) over the fetched list.
 *
 * Each operation takes the upstream's reply to the request it sends; the
 * request itself is given by a separate function per operation.
 */
module EmployeeService {
  import opened Wrappers
  import opened Text
  import opened EmployeeModel
  import opened Upstream

  const OriginalUrl: string := "https://dummy.restapiexample.com/api/v1"
  const SuccessStatus: string := "success"

  /** The four strings deleteEmployeeById answers with besides the upstream message. */
  const NotFoundMessage: string := "Employee not found"
  const RateLimitMessage: string := "Rate limit exdeeded."
  const FailedMessage: string := "Failed to delete"

  /** How many names the top-earners view keeps. */
  const TopCount: nat := 10

  // ---------------------------------------------------------------------------
  // Requests

  function AllEmployeesRequest(): Request {
    Request(Get, OriginalUrl + "/employees")
  }

  function EmployeeRequest(id: string): Request {
    Request(Get, OriginalUrl + "/employee/" + id)
  }

  function CreateRequest(): Request {
    Request(Post, OriginalUrl + "/create")
  }

  function DeleteRequest(id: string): Request {
    Request(Delete, OriginalUrl + "/delete/" + id)
  }

  /**
   * Every operation targets the base URL plus a fixed suffix; the keyed ones
   * append the id verbatim, so the id can be read back from the URL and two
   * ids reach the same URL only if they are equal.
   */
  lemma RequestTargets(id: string, other: string)
    ensures AllEmployeesRequest() == Request(Get, "https://dummy.restapiexample.com/api/v1/employees")
    ensures CreateRequest() == Request(Post, "https://dummy.restapiexample.com/api/v1/create")
    ensures EmployeeRequest(id).verb == Get && DeleteRequest(id).verb == Delete
    ensures EmployeeRequest(id).url[..|OriginalUrl + "/employee/"|] == OriginalUrl + "/employee/"
    ensures EmployeeRequest(id).url[|OriginalUrl + "/employee/"|..] == id
    ensures DeleteRequest(id).url[..|OriginalUrl + "/delete/"|] == OriginalUrl + "/delete/"
    ensures DeleteRequest(id).url[|OriginalUrl + "/delete/"|..] == id
    ensures EmployeeRequest(id) == EmployeeRequest(other) <==> id == other
    ensures DeleteRequest(id) == DeleteRequest(other) <==> id == other
  {
    var p, q := OriginalUrl + "/employee/", OriginalUrl + "/delete/";
    assert (p + id)[|p|..] == id && (p + other)[|p|..] == other;
    assert (q + id)[|q|..] == id && (q + other)[|q|..] == other;
  }

  // ---------------------------------------------------------------------------
  // Reply classification

  /** The response body is present and its `status` is "success", ignoring case. */
  predicate IsSuccessEnvelope<D>(body: Option<Envelope<D>>) {
    body.Some? && EqualsIgnoreCase(SuccessStatus, body.value.status)
  }

  /**
   * The status test accepts exactly the spellings of "success" that differ
   * only in the case of letters (its status lower-cases to "success"), and
   * rejects a null body or status: upper-case and capitalised spellings
   * pass, another word does not.
   */
  lemma SuccessEnvelopeIgnoresCase<D>(body: Option<Envelope<D>>)
    ensures body.Some? && body.value.status == Some("SUCCESS") ==> IsSuccessEnvelope(body)
    ensures body.Some? && body.value.status == Some("Success") ==> IsSuccessEnvelope(body)
    ensures body.Some? && body.value.status == Some("error") ==> !IsSuccessEnvelope(body)
    ensures body.None? ==> !IsSuccessEnvelope(body)
    ensures body.Some? && body.value.status.None? ==> !IsSuccessEnvelope(body)
  {
    assert Lower(SuccessStatus) == "success";
    assert Lower("SUCCESS") == "success";
    assert Lower("Success") == "success";
    assert Lower("error") == "error";
  }

  /** A readable response whose envelope is a success and carries `data`. */
  predicate Delivers<D>(reply: Exchange<D>) {
    reply.Responded? && IsSuccessEnvelope(reply.body) && reply.body.value.data.Some?
  }

  /**
   * The list reply is one the client can hand over, and when it delivers
   * rows, each is a JSON object of an employee.
   */
  predicate ListReplyWellFormed(reply: Exchange<seq<Row>>) {
    Reachable(reply) &&
    (Delivers(reply) ==>
       forall i :: 0 <= i < |reply.body.value.data.value| ==> IsEmployeeRow(reply.body.value.data.value[i]))
  }

  /**
   * The single-record reply is one the client can hand over, and when it
   * delivers a row, it is a JSON object of an employee.
   */
  predicate RecordReplyWellFormed(reply: Exchange<Row>) {
    Reachable(reply) && (Delivers(reply) ==> IsEmployeeRow(reply.body.value.data.value))
  }

  // ---------------------------------------------------------------------------
  // The four upstream operations

  /**
   * getAllEmployees: the delivered rows bound to records, in upstream order;
   * the empty list on every other reply (a failed envelope, a null body or
   * null `data`, 429, and every exception).
   */
  function GetAllEmployees(reply: Exchange<seq<Row>>): (r: seq<Employee>)
    requires ListReplyWellFormed(reply)
    ensures Delivers(reply) ==>
      |r| == |reply.body.value.data.value|
      && forall i :: 0 <= i < |r| ==> ToRow(r[i]) == reply.body.value.data.value[i]
    ensures !Delivers(reply) ==> r == []
  {
    match reply
    case Responded(_, body) =>
      if IsSuccessEnvelope(body) then
        match body.value.data
        case Some(rows) => seq(|rows|, i requires 0 <= i < |rows| => FromRow(rows[i]))
        case None => []  // streaming a null list throws, and the catch-all answers []
      else []
    case _ => []
  }

  /**
   * getEmployeeByID: the delivered record; null on 404, on 429, on any
   * other exception, on a failed envelope and on null `data`.
   */
  function GetEmployeeByID(reply: Exchange<Row>): (r: Option<Employee>)
    requires RecordReplyWellFormed(reply)
    ensures r.Some? <==> Delivers(reply)
    ensures r.Some? ==> ToRow(r.value) == reply.body.value.data.value
  {
    match reply
    case Responded(_, body) =>
      if IsSuccessEnvelope(body) then
        match body.value.data
        case Some(row) => Some(FromRow(row))
        case None => None  // binding null yields null
      else None
    case _ => None
  }

  /**
   * createEmployee: like getEmployeeByID, but the response status must also
   * be 2xx.
   */
  function CreateEmployee(reply: Exchange<Row>): (r: Option<Employee>)
    requires RecordReplyWellFormed(reply)
    ensures r.Some? <==> Delivers(reply) && Is2xx(reply.code)
    ensures r.Some? ==> ToRow(r.value) == reply.body.value.data.value
  {
    match reply
    case Responded(code, body) =>
      if Is2xx(code) && IsSuccessEnvelope(body) then
        match body.value.data
        case Some(row) => Some(FromRow(row))
        case None => None
      else None
    case _ => None
  }

  /**
   * On a 2xx reply creating and reading bind the same record; a successful
   * envelope under a status outside 2xx is read but not accepted as created.
   */
  lemma CreateAcceptsOnly2xx(reply: Exchange<Row>, row: Row)
    requires RecordReplyWellFormed(reply)
    requires IsEmployeeRow(row)
    ensures reply.Responded? && Is2xx(reply.code) ==> CreateEmployee(reply) == GetEmployeeByID(reply)
    ensures var moved := Responded(302, Some(Envelope(Some("success"), Some(row), None)));
      GetEmployeeByID(moved) == Some(FromRow(row)) && CreateEmployee(moved) == None
  {
    var moved: Exchange<Row> := Responded(302, Some(Envelope(Some("success"), Some(row), None)));
    assert Lower(SuccessStatus) == Lower("success");
    assert Delivers(moved);
  }

  /**
   * deleteEmployeeById: the upstream `message` (possibly null) on a 2xx
   * success envelope, and otherwise one of three fixed messages.
   */
  function DeleteEmployeeById(reply: Exchange<()>): (r: Option<string>)
    requires Reachable(reply)
    ensures reply.NotFound? ==> r == Some(NotFoundMessage)
    ensures reply.TooManyRequests? ==> r == Some(RateLimitMessage)
    ensures reply.Failed? ==> r == Some(FailedMessage)
    ensures reply.Responded? && !(Is2xx(reply.code) && IsSuccessEnvelope(reply.body)) ==> r == Some(FailedMessage)
    ensures reply.Responded? && Is2xx(reply.code) && IsSuccessEnvelope(reply.body) ==> r == reply.body.value.message
  {
    match reply
    case Responded(code, body) =>
      if Is2xx(code) && IsSuccessEnvelope(body) then body.value.message else Some(FailedMessage)
    case TooManyRequests => Some(RateLimitMessage)
    case NotFound => Some(NotFoundMessage)
    case Failed => Some(FailedMessage)
  }

  // ---------------------------------------------------------------------------
  // Name search

  /** `name.toLowerCase().contains(query.toLowerCase())`. */
  predicate NameMatches(e: Employee, query: string) {
    Contains(Lower(e.employeeName), Lower(query))
  }

  /** `sub` is `s` with some elements left out, the rest in their order. */
  ghost predicate IsSubsequence<T>(sub: seq<T>, s: seq<T>)
    decreases |s|
  {
    sub == []
    || (s != [] && ((sub[0] == s[0] && IsSubsequence(sub[1..], s[1..])) || IsSubsequence(sub, s[1..])))
  }

  /**
   * The stream filter: an order-preserving subsequence holding every
   * matching employee as often as the list does, and nothing else.
   */
  function FilterByName(es: seq<Employee>, query: string): (r: seq<Employee>)
    ensures IsSubsequence(r, es)
    ensures forall e :: multiset(r)[e] == if NameMatches(e, query) then multiset(es)[e] else 0
    decreases |es|
  {
    if es == [] then []
    else
      assert es == [es[0]] + es[1..];
      if NameMatches(es[0], query) then [es[0]] + FilterByName(es[1..], query)
      else FilterByName(es[1..], query)
  }

  /** getEmployeesByNameSearch: the search runs over a fresh list fetch. */
  function GetEmployeesByNameSearch(query: string, reply: Exchange<seq<Row>>): (r: seq<Employee>)
    requires ListReplyWellFormed(reply)
    ensures IsSubsequence(r, GetAllEmployees(reply))
    ensures forall e :: e in r <==> e in GetAllEmployees(reply) && NameMatches(e, query)
    ensures forall e :: multiset(r)[e] == if NameMatches(e, query) then multiset(GetAllEmployees(reply))[e] else 0
    ensures query == "" ==> r == GetAllEmployees(reply)
  {
    var all := GetAllEmployees(reply);
    var r := FilterByName(all, query);
    EmptyQueryKeepsAll(all);
    assert forall e :: e in r <==> multiset(r)[e] > 0;
    assert forall e :: e in all <==> multiset(all)[e] > 0;
    r
  }

  /** The empty query is contained in every name, so it keeps every employee. */
  lemma {:induction false} EmptyQueryKeepsAll(es: seq<Employee>)
    ensures FilterByName(es, "") == es
    decreases |es|
  {
    if es != [] {
      assert Lower("") == "";
      assert NameMatches(es[0], "");
      EmptyQueryKeepsAll(es[1..]);
    }
  }

  /** Queries that differ only in letter case select the same employees. */
  lemma {:induction false} SearchIgnoresQueryCase(es: seq<Employee>, query: string)
    ensures FilterByName(es, query) == FilterByName(es, Lower(query))
    decreases |es|
  {
    if es != [] {
      LowerIdempotent(query);
      SearchIgnoresQueryCase(es[1..], query);
    }
  }

  // ---------------------------------------------------------------------------
  // Parsed salaries

  /** Every salary in the list is a decimal integer, as Integer.parseInt needs. */
  predicate SalariesParse(es: seq<Employee>) {
    forall e :: e in es ==> IsDecimal(e.salary)
  }

  function Salary(e: Employee): int
    requires IsDecimal(e.salary)
  {
    ParseInt(e.salary)
  }

  /** The largest parsed salary of a non-empty list. */
  function MaxSalary(es: seq<Employee>): (m: int)
    requires |es| > 0 && SalariesParse(es)
    ensures forall e :: e in es ==> Salary(e) <= m
    ensures exists e :: e in es && Salary(e) == m
    decreases |es|
  {
    if |es| == 1 then Salary(es[0])
    else
      var rest := MaxSalary(es[1..]);
      assert forall e :: e in es ==> e == es[0] || e in es[1..];
      if Salary(es[0]) >= rest then Salary(es[0]) else rest
  }

  /** `mapToInt(parseInt).max().orElse(0)`. */
  function HighestSalary(es: seq<Employee>): (m: int)
    requires SalariesParse(es)
    ensures es == [] ==> m == 0
    ensures es != [] ==> (forall e :: e in es ==> Salary(e) <= m) && exists e :: e in es && Salary(e) == m
  {
    if es == [] then 0 else MaxSalary(es)
  }

  /** getHighestSalaryOfEmployees: the highest salary of a fresh list fetch. */
  function GetHighestSalaryOfEmployees(reply: Exchange<seq<Row>>): (m: int)
    requires ListReplyWellFormed(reply) && SalariesParse(GetAllEmployees(reply))
    ensures !Delivers(reply) ==> m == 0
    ensures GetAllEmployees(reply) == [] ==> m == 0
    ensures forall e :: e in GetAllEmployees(reply) ==> Salary(e) <= m
    ensures GetAllEmployees(reply) != [] ==> exists e :: e in GetAllEmployees(reply) && Salary(e) == m
  {
    HighestSalary(GetAllEmployees(reply))
  }

  // ---------------------------------------------------------------------------
  // Top earners

  /** Salaries never increase along the list. */
  ghost predicate DescendingBySalary(l: seq<Employee>)
    requires SalariesParse(l)
  {
    forall i, j :: 0 <= i < j < |l| ==> Salary(l[i]) >= Salary(l[j])
  }

  /** The employees of `l` whose salary is `v`, in their order in `l`. */
  function WithSalary(l: seq<Employee>, v: int): seq<Employee>
    requires SalariesParse(l)
    decreases |l|
  {
    if l == [] then []
    else (if Salary(l[0]) == v then [l[0]] else []) + WithSalary(l[1..], v)
  }

  lemma {:induction false} WithSalaryAppend(a: seq<Employee>, b: seq<Employee>, v: int)
    requires SalariesParse(a) && SalariesParse(b)
    ensures SalariesParse(a + b)
    ensures WithSalary(a + b, v) == WithSalary(a, v) + WithSalary(b, v)
    decreases |a|
  {
    if a == [] {
      assert a + b == b;
    } else {
      var head := if Salary(a[0]) == v then [a[0]] else [];
      assert forall e :: e in a[1..] ==> e in a;
      WithSalaryAppend(a[1..], b, v);
      assert a + b == [a[0]] + (a[1..] + b);
      assert (a + b)[1..] == a[1..] + b;
      assert WithSalary(a + b, v) == head + WithSalary(a[1..] + b, v);
      assert WithSalary(a, v) == head + WithSalary(a[1..], v);
    }
  }

  /**
   * Places `x` before the first element that earns no more than it, so it
   * goes ahead of the elements that earn the same.
   */
  function InsertBySalary(x: Employee, l: seq<Employee>): (r: seq<Employee>)
    requires IsDecimal(x.salary) && SalariesParse(l)
    ensures |r| == |l| + 1 && multiset(r) == multiset(l) + multiset{x}
    ensures SalariesParse(r)
    decreases |l|
  {
    if l == [] || Salary(x) >= Salary(l[0]) then [x] + l
    else
      assert l == [l[0]] + l[1..];
      [l[0]] + InsertBySalary(x, l[1..])
  }

  lemma {:induction false} InsertKeepsDescending(x: Employee, l: seq<Employee>)
    requires IsDecimal(x.salary) && SalariesParse(l) && DescendingBySalary(l)
    ensures DescendingBySalary(InsertBySalary(x, l))
    decreases |l|
  {
    if l != [] && Salary(x) < Salary(l[0]) {
      var tail := InsertBySalary(x, l[1..]);
      InsertKeepsDescending(x, l[1..]);
      var r := [l[0]] + tail;
      forall j | 0 < j < |r|
        ensures Salary(r[0]) >= Salary(r[j])
      {
        assert r[j] in multiset(l[1..]) + multiset{x};
        if r[j] != x {
          assert r[j] in l[1..];
          var k :| 0 <= k < |l[1..]| && l[1..][k] == r[j];
          assert l[k + 1] == r[j];
        }
      }
    }
  }

  /** Inserting adds `x` to the employees of its salary, ahead of them, and changes no other salary's. */
  lemma {:induction false} InsertWithSalary(x: Employee, l: seq<Employee>, v: int)
    requires IsDecimal(x.salary) && SalariesParse(l)
    ensures WithSalary(InsertBySalary(x, l), v) == (if Salary(x) == v then [x] else []) + WithSalary(l, v)
    decreases |l|
  {
    if l == [] || Salary(x) >= Salary(l[0]) {
      assert ([x] + l)[1..] == l;
    } else {
      var tail := InsertBySalary(x, l[1..]);
      assert ([l[0]] + tail)[1..] == tail;
      InsertWithSalary(x, l[1..], v);
    }
  }

  /**
   * The stream's `sorted` with the salary comparator reversed, highest
   * salary first: a permutation of the list.
   */
  function SortBySalaryDesc(es: seq<Employee>): (r: seq<Employee>)
    requires SalariesParse(es)
    ensures |r| == |es| && multiset(r) == multiset(es)
    ensures SalariesParse(r)
    decreases |es|
  {
    if es == [] then []
    else
      assert es == [es[0]] + es[1..];
      InsertBySalary(es[0], SortBySalaryDesc(es[1..]))
  }

  /** The sorted list has salaries never increasing. */
  lemma {:induction false} SortIsDescending(es: seq<Employee>)
    requires SalariesParse(es)
    ensures DescendingBySalary(SortBySalaryDesc(es))
    decreases |es|
  {
    if es != [] {
      SortIsDescending(es[1..]);
      InsertKeepsDescending(es[0], SortBySalaryDesc(es[1..]));
    }
  }

  /**
   * The sort is stable: for every salary, the employees earning it appear
   * in the sorted list in the same order as in the input.
   */
  lemma {:induction false} SortIsStable(es: seq<Employee>, v: int)
    requires SalariesParse(es)
    ensures WithSalary(SortBySalaryDesc(es), v) == WithSalary(es, v)
    decreases |es|
  {
    if es != [] {
      SortIsStable(es[1..], v);
      InsertWithSalary(es[0], SortBySalaryDesc(es[1..]), v);
    }
  }

  function Min(a: int, b: int): int {
    if a < b then a else b
  }

  /** The employees the top-earners view keeps: the first ten of the sorted list. */
  function TopEarners(es: seq<Employee>): seq<Employee>
    requires SalariesParse(es)
  {
    var sorted := SortBySalaryDesc(es);
    sorted[..Min(|sorted|, TopCount)]
  }

  function Names(l: seq<Employee>): (r: seq<string>)
    ensures |r| == |l| && forall i :: 0 <= i < |l| ==> r[i] == l[i].employeeName
  {
    seq(|l|, i requires 0 <= i < |l| => l[i].employeeName)
  }

  /** The employees the top-earners view leaves out, with their multiplicities. */
  function Omitted(es: seq<Employee>): multiset<Employee>
    requires SalariesParse(es)
  {
    multiset(es) - multiset(TopEarners(es))
  }

  lemma MultisetSplit(s: seq<Employee>, k: nat)
    requires k <= |s|
    ensures multiset(s) - multiset(s[..k]) == multiset(s[k..])
  {
    assert s == s[..k] + s[k..];
  }

  /** In a descending list, everything after position `k` earns no more than anything before it. */
  lemma DescendingPrefixDominates(s: seq<Employee>, k: nat, e: Employee)
    requires SalariesParse(s) && DescendingBySalary(s) && k <= |s|
    requires e in s[k..]
    ensures IsDecimal(e.salary) && forall i :: 0 <= i < k ==> Salary(e) <= Salary(s[i])
  {
    var j :| k <= j < |s| && s[j] == e;
  }

  /**
   * The kept employees: min(10, n) of them, drawn from the list, with
   * salaries never increasing.
   */
  lemma TopEarnersShape(es: seq<Employee>)
    requires SalariesParse(es)
    ensures |TopEarners(es)| == Min(|es|, TopCount)
    ensures multiset(TopEarners(es)) <= multiset(es)
    ensures SalariesParse(TopEarners(es)) && DescendingBySalary(TopEarners(es))
  {
    var s := SortBySalaryDesc(es);
    var k := Min(|s|, TopCount);
    assert s == s[..k] + s[k..];
    SortIsDescending(es);
  }

  /** In a descending list, what the first `k` leave over earns no more than any of them. */
  lemma RemainderBelowPrefix(s: seq<Employee>, k: nat, e: Employee)
    requires SalariesParse(s) && DescendingBySalary(s) && k <= |s|
    requires e in multiset(s) - multiset(s[..k])
    ensures IsDecimal(e.salary) && forall i :: 0 <= i < k ==> Salary(e) <= Salary(s[i])
  {
    MultisetSplit(s, k);
    assert e in s[k..];
    DescendingPrefixDominates(s, k, e);
  }

  /** Nobody left out earns more than anybody kept. */
  lemma TopEarnersOmitNoHigherEarner(es: seq<Employee>)
    requires SalariesParse(es)
    ensures forall e :: e in Omitted(es) ==>
      IsDecimal(e.salary) && forall i :: 0 <= i < |TopEarners(es)| ==> Salary(e) <= Salary(TopEarners(es)[i])
  {
    var s := SortBySalaryDesc(es);
    var k := Min(|s|, TopCount);
    assert TopEarners(es) == s[..k];
    assert Omitted(es) == multiset(s) - multiset(s[..k]);
    SortIsDescending(es);
    forall e | e in Omitted(es)
      ensures IsDecimal(e.salary) && forall i :: 0 <= i < k ==> Salary(e) <= Salary(s[i])
    {
      RemainderBelowPrefix(s, k, e);
    }
  }

  /**
   * Among employees with equal salaries, the kept ones are the earliest in
   * the list, in list order: the sort is stable.
   */
  lemma TopEarnersStable(es: seq<Employee>)
    requires SalariesParse(es)
    ensures SalariesParse(TopEarners(es))
    ensures forall v :: WithSalary(TopEarners(es), v) <= WithSalary(es, v)
  {
    var s := SortBySalaryDesc(es);
    var k := Min(|s|, TopCount);
    var t := s[..k];
    assert s == t + s[k..];
    forall v
      ensures WithSalary(t, v) <= WithSalary(es, v)
    {
      SortIsStable(es, v);
      WithSalaryAppend(t, s[k..], v);
    }
  }

  /**
   * The salaries the stream sort parses: every one for a list of two or more
   * (each element takes part in some comparison), none for a shorter list,
   * which the sort returns without calling its comparator.
   */
  predicate ComparedSalariesParse(es: seq<Employee>) {
    |es| < 2 || SalariesParse(es)
  }

  /** A list too short to compare is already sorted. */
  lemma SortShortList(es: seq<Employee>)
    requires |es| < 2 && SalariesParse(es)
    ensures TopEarners(es) == es
  {
    if |es| == 1 {
      assert es[1..] == [];
    }
  }

  /** getTop10HighestEarningEmployeeNames: the names of the kept employees, in order. */
  function GetTop10HighestEarningEmployeeNames(reply: Exchange<seq<Row>>): (r: seq<string>)
    requires ListReplyWellFormed(reply) && ComparedSalariesParse(GetAllEmployees(reply))
    ensures |r| == Min(|GetAllEmployees(reply)|, TopCount)
    ensures |GetAllEmployees(reply)| < 2 ==>
      forall i :: 0 <= i < |r| ==> r[i] == GetAllEmployees(reply)[i].employeeName
    ensures SalariesParse(GetAllEmployees(reply)) ==>
      forall i :: 0 <= i < |r| ==> r[i] == TopEarners(GetAllEmployees(reply))[i].employeeName
  {
    var es := GetAllEmployees(reply);
    if |es| < 2 then
      (if SalariesParse(es) then SortShortList(es); Names(es) else Names(es))
    else
      TopEarnersShape(es);
      Names(TopEarners(es))
  }
}
