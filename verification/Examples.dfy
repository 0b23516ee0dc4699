/**
 * The scenarios of the repository's service tests, stated over the model:
 * the replies they stub and the answers they expect.
 */
module EmployeeServiceExamples {
  import opened Wrappers
  import opened Text
  import opened EmployeeModel
  import opened Upstream
  import opened EmployeeService

  function ConorRow(): Row {
    map[IdProperty := "1", NameProperty := "Conor", SalaryProperty := "1000000",
        AgeProperty := "32", PictureProperty := "pic2"]
  }

  function JohnDoeRow(): Row {
    map[IdProperty := "2", NameProperty := "John Doe", SalaryProperty := "10000",
        AgeProperty := "29", PictureProperty := "pic"]
  }

  /** A 200 response whose envelope says "success" and carries the given rows. */
  function ListReply(rows: seq<Row>): Exchange<seq<Row>> {
    Responded(200, Some(Envelope(Some("success"), Some(rows), None)))
  }

  lemma ConorAndJohnDoe()
    ensures ListReplyWellFormed(ListReply([ConorRow(), JohnDoeRow()]))
    ensures GetAllEmployees(ListReply([ConorRow(), JohnDoeRow()])) == ConorAndJohnDoeList()
  {
    var reply := ListReply([ConorRow(), JohnDoeRow()]);
    assert Lower(SuccessStatus) == Lower("success");
    assert Delivers(reply);
    var r := GetAllEmployees(reply);
    assert ToRow(r[0]) == ConorRow() && ToRow(r[1]) == JohnDoeRow();
    ToRowFromRow(r[0]);
    ToRowFromRow(r[1]);
  }

  function ConorAndJohnDoeList(): seq<Employee> {
    [Employee("1", "Conor", "1000000", "32", "pic2"), Employee("2", "John Doe", "10000", "29", "pic")]
  }

  /** A salary string that Integer.toString prints for `n` parses back to `n`. */
  lemma SalaryText(n: nat, s: string)
    requires NatToDecimal(n) == s
    ensures IsDecimal(s) && ParseInt(s) == n
  {
    ParseIntRoundTrip(n);
  }

  /** The highest of 1000000 and 10000 is 1000000. */
  lemma HighestOfConorAndJohnDoe()
    ensures SalariesParse(ConorAndJohnDoeList())
    ensures HighestSalary(ConorAndJohnDoeList()) == 1000000
  {
    var es := ConorAndJohnDoeList();
    assert NatToDecimal(10) == "10";
    assert NatToDecimal(100) == "100";
    assert NatToDecimal(1000) == "1000";
    assert NatToDecimal(10000) == "10000";
    assert NatToDecimal(100000) == "100000";
    assert NatToDecimal(1000000) == "1000000";
    SalaryText(1000000, "1000000");
    SalaryText(10000, "10000");
    assert Salary(es[0]) == 1000000 && Salary(es[1]) == 10000;
    assert es[1..] == [es[1]];
  }

  lemma JohnDoeDoesNotMatchConor()
    ensures !NameMatches(Employee("2", "John Doe", "10000", "29", "pic"), "Conor")
  {
    var hay, needle := Lower("John Doe"), Lower("Conor");
    assert needle[0] == 'c';
    assert forall i :: 0 <= i < |hay| ==> hay[i] != 'c';
    ContainsIffOccurs(hay, needle);
  }

  /** Searching "Conor" or "conor" among Conor and John Doe finds Conor alone. */
  lemma SearchFindsConor()
    ensures FilterByName(ConorAndJohnDoeList(), "Conor") == ConorAndJohnDoeList()[..1]
    ensures FilterByName(ConorAndJohnDoeList(), "conor") == ConorAndJohnDoeList()[..1]
  {
    var es := ConorAndJohnDoeList();
    assert Lower(es[0].employeeName) == Lower("Conor");
    assert NameMatches(es[0], "Conor");
    JohnDoeDoesNotMatchConor();
    assert es[1..][1..] == [];
    assert FilterByName(es[1..], "Conor") == [];
    assert FilterByName(es, "Conor") == [es[0]];
    assert Lower("conor") == Lower("Conor") by {
      assert LowerChar('C') == 'c';
    }
    SearchIgnoresQueryCase(es, "Conor");
    SearchIgnoresQueryCase(es, "conor");
  }

  /** The same answers through the service operations, from the stubbed list reply. */
  lemma ServiceOverConorAndJohnDoe()
    ensures var reply := ListReply([ConorRow(), JohnDoeRow()]);
      ListReplyWellFormed(reply)
      && GetEmployeesByNameSearch("Conor", reply) == [Employee("1", "Conor", "1000000", "32", "pic2")]
      && SalariesParse(GetAllEmployees(reply))
      && GetHighestSalaryOfEmployees(reply) == 1000000
  {
    ConorAndJohnDoe();
    SearchFindsConor();
    HighestOfConorAndJohnDoe();
  }

  /** The fifteen employees "John 1" to "John 15", earning 1 to 15, in that order. */
  function FifteenJohns(): seq<Employee> {
    seq(15, i requires 0 <= i < 15 =>
      Employee(["1", "2", "3"][i % 3], "John " + NatToDecimal(i + 1), NatToDecimal(i + 1),
               ["30", "40", "35"][i % 3], ""))
  }

  function Reverse(s: seq<Employee>): (r: seq<Employee>)
    ensures |r| == |s| && forall i :: 0 <= i < |s| ==> r[i] == s[|s| - 1 - i]
  {
    seq(|s|, i requires 0 <= i < |s| => s[|s| - 1 - i])
  }

  lemma ReverseOfTail(s: seq<Employee>)
    requires s != []
    ensures Reverse(s[1..]) + [s[0]] == Reverse(s)
  {
    var rev, whole := Reverse(s[1..]), Reverse(s);
    forall k | 0 <= k < |whole|
      ensures (rev + [s[0]])[k] == whole[k]
    {
      if k < |rev| {
        assert rev[k] == s[1..][|s| - 2 - k] == s[|s| - 1 - k];
      }
    }
  }

  /** The salaries along the list are `base`, `base + 1`, `base + 2`, and so on. */
  ghost predicate SalariesCountFrom(es: seq<Employee>, base: int) {
    forall i :: 0 <= i < |es| ==> IsDecimal(es[i].salary) && Salary(es[i]) == base + i
  }

  lemma {:induction false} InsertBelowAll(x: Employee, l: seq<Employee>)
    requires IsDecimal(x.salary) && SalariesParse(l)
    requires forall i :: 0 <= i < |l| ==> Salary(x) < Salary(l[i])
    ensures InsertBySalary(x, l) == l + [x]
    decreases |l|
  {
    if l != [] {
      InsertBelowAll(x, l[1..]);
      assert l == [l[0]] + l[1..];
    }
  }

  lemma CountingSalariesParse(es: seq<Employee>, base: int)
    requires SalariesCountFrom(es, base)
    ensures SalariesParse(es)
  {
    forall e | e in es
      ensures IsDecimal(e.salary)
    {
      var i :| 0 <= i < |es| && es[i] == e;
    }
  }

  lemma CountingTail(es: seq<Employee>, base: int)
    requires es != [] && SalariesCountFrom(es, base)
    ensures SalariesCountFrom(es[1..], base + 1)
  {
    forall i | 0 <= i < |es| - 1
      ensures IsDecimal(es[1..][i].salary) && Salary(es[1..][i]) == base + 1 + i
    {
      assert es[1..][i] == es[i + 1];
    }
  }

  lemma CountingReversedAbove(es: seq<Employee>, base: int)
    requires es != [] && SalariesCountFrom(es, base)
    ensures forall i :: 0 <= i < |es| - 1 ==> Salary(es[0]) < Salary(Reverse(es[1..])[i])
  {
    forall i | 0 <= i < |es| - 1
      ensures Salary(es[0]) < Salary(Reverse(es[1..])[i])
    {
      assert Reverse(es[1..])[i] == es[|es| - 1 - i];
    }
  }

  /** Sorting a list whose salaries count upwards reverses it. */
  lemma {:induction false} SortReversesAscending(es: seq<Employee>, base: int)
    requires SalariesCountFrom(es, base)
    ensures SalariesParse(es)
    ensures SortBySalaryDesc(es) == Reverse(es)
    decreases |es|
  {
    CountingSalariesParse(es, base);
    if es != [] {
      CountingTail(es, base);
      SortReversesAscending(es[1..], base + 1);
      CountingReversedAbove(es, base);
      InsertBelowAll(es[0], Reverse(es[1..]));
      ReverseOfTail(es);
    }
  }

  lemma FifteenJohnsAscending()
    ensures SalariesCountFrom(FifteenJohns(), 1)
  {
    var es := FifteenJohns();
    forall i | 0 <= i < 15
      ensures IsDecimal(es[i].salary) && Salary(es[i]) == 1 + i
    {
      ParseIntRoundTrip(i + 1);
    }
  }

  lemma TwelveAndFifteen()
    ensures NatToDecimal(15) == "15" && NatToDecimal(12) == "12"
  {
  }

  lemma TopEarnersOfFifteen()
    ensures SalariesParse(FifteenJohns())
    ensures TopEarners(FifteenJohns()) == Reverse(FifteenJohns())[..10]
  {
    FifteenJohnsAscending();
    SortReversesAscending(FifteenJohns(), 1);
  }

  lemma NamesOfTopFifteen()
    ensures var names := Names(Reverse(FifteenJohns())[..10]);
      |names| == 10 && names[0] == "John 15" && names[3] == "John 12"
  {
    var es := FifteenJohns();
    var top := Reverse(es)[..10];
    assert top[0] == es[14] && top[3] == es[11];
    TwelveAndFifteen();
  }

  lemma TopEarnerNamesOfFifteen()
    ensures SalariesParse(FifteenJohns())
    ensures var names := Names(TopEarners(FifteenJohns()));
      |names| == 10 && names[0] == "John 15" && names[3] == "John 12"
  {
    TopEarnersOfFifteen();
    NamesOfTopFifteen();
  }

  /** The JSON objects of a list of employees, in order. */
  function RowsOf(es: seq<Employee>): (rows: seq<Row>)
    ensures |rows| == |es| && forall i :: 0 <= i < |es| ==> rows[i] == ToRow(es[i])
  {
    seq(|es|, i requires 0 <= i < |es| => ToRow(es[i]))
  }

  /** A success reply carrying the JSON objects of some employees reads back as those employees. */
  lemma ReadBack(es: seq<Employee>)
    ensures ListReplyWellFormed(ListReply(RowsOf(es)))
    ensures GetAllEmployees(ListReply(RowsOf(es))) == es
  {
    var reply := ListReply(RowsOf(es));
    assert Lower(SuccessStatus) == Lower("success");
    assert Delivers(reply);
    var r := GetAllEmployees(reply);
    forall i | 0 <= i < |es|
      ensures r[i] == es[i]
    {
      ToRowFromRow(r[i]);
      ToRowFromRow(es[i]);
    }
  }

  /**
   * From the stubbed reply of fifteen employees, the service names ten,
   * "John 15" first and "John 12" fourth.
   */
  lemma TopTenOfFifteen()
    ensures var reply := ListReply(RowsOf(FifteenJohns()));
      ListReplyWellFormed(reply)
      && ComparedSalariesParse(GetAllEmployees(reply))
      && var names := GetTop10HighestEarningEmployeeNames(reply);
         |names| == 10 && names[0] == "John 15" && names[3] == "John 12"
  {
    ReadBack(FifteenJohns());
    TopEarnerNamesOfFifteen();
  }

  /** A 200 "success" delete reply passes the upstream message through. */
  lemma DeleteReturnsUpstreamMessage()
    ensures DeleteEmployeeById(Responded(200, Some(Envelope(Some("success"), None, Some("Successfully deleted employee")))))
      == Some("Successfully deleted employee")
  {
    assert Lower(SuccessStatus) == Lower("success");
  }
}
