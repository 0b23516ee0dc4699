/**
 * The employee record. Salary and age are kept as the strings the upstream
 * sends; they are parsed only where the service compares salaries.
 */
module EmployeeModel {

  /** One directory record as the service passes it around. */
  datatype Employee = Employee(
    id: string,
    employeeName: string,
    salary: string,
    age: string,
    profilePicture: string)

  /** A record as a JSON object: property name to string value. */
  type Row = map<string, string>

  const IdProperty: string := "id"
  const NameProperty: string := "employee_name"
  const SalaryProperty: string := "employee_salary"
  const AgeProperty: string := "employee_age"
  const PictureProperty: string := "profile_image"

  /** The JSON property names the record binds, one per field. */
  function PropertyNames(): set<string> {
    {IdProperty, NameProperty, SalaryProperty, AgeProperty, PictureProperty}
  }

  /** A JSON object carrying exactly the record's five properties. */
  predicate IsEmployeeRow(row: Row) {
    row.Keys == PropertyNames()
  }

  /** Binding a JSON object to a record: each property lands in its field. */
  function FromRow(row: Row): (e: Employee)
    requires IsEmployeeRow(row)
    ensures ToRow(e) == row
  {
    var e := Employee(row[IdProperty], row[NameProperty], row[SalaryProperty],
                      row[AgeProperty], row[PictureProperty]);
    assert ToRow(e).Keys == row.Keys;
    e
  }

  /** Writing a record as JSON, under the same property names. */
  function ToRow(e: Employee): (row: Row)
    ensures IsEmployeeRow(row)
  {
    map[IdProperty := e.id, NameProperty := e.employeeName, SalaryProperty := e.salary,
        AgeProperty := e.age, PictureProperty := e.profilePicture]
  }

  /** Writing a record and binding it again gives the same record. */
  lemma ToRowFromRow(e: Employee)
    ensures FromRow(ToRow(e)) == e
  {
  }

  /**
   * The mutable bean: a five-argument constructor, a getter and a setter per
   * field. `Value` is the record the bean currently holds.
   */
  class EmployeeBean {
    var id: string
    var employeeName: string
    var salary: string
    var age: string
    var profilePicture: string

    function Value(): Employee
      reads this
    {
      Employee(id, employeeName, salary, age, profilePicture)
    }

    constructor (id: string, employeeName: string, salary: string, age: string, profilePicture: string)
      ensures Value() == Employee(id, employeeName, salary, age, profilePicture)
    {
      this.id := id;
      this.employeeName := employeeName;
      this.salary := salary;
      this.age := age;
      this.profilePicture := profilePicture;
    }

    method GetId() returns (r: string)
      ensures r == Value().id
    {
      r := id;
    }

    method SetId(id: string)
      modifies this`id
      ensures Value() == old(Value()).(id := id)
    {
      this.id := id;
    }

    method GetEmployeeName() returns (r: string)
      ensures r == Value().employeeName
    {
      r := employeeName;
    }

    method SetEmployeeName(employeeName: string)
      modifies this`employeeName
      ensures Value() == old(Value()).(employeeName := employeeName)
    {
      this.employeeName := employeeName;
    }

    method GetSalary() returns (r: string)
      ensures r == Value().salary
    {
      r := salary;
    }

    method SetSalary(salary: string)
      modifies this`salary
      ensures Value() == old(Value()).(salary := salary)
    {
      this.salary := salary;
    }

    method GetAge() returns (r: string)
      ensures r == Value().age
    {
      r := age;
    }

    method SetAge(age: string)
      modifies this`age
      ensures Value() == old(Value()).(age := age)
    {
      this.age := age;
    }

    method GetProfilePicture() returns (r: string)
      ensures r == Value().profilePicture
    {
      r := profilePicture;
    }

    method SetProfilePicture(profilePicture: string)
      modifies this`profilePicture
      ensures Value() == old(Value()).(profilePicture := profilePicture)
    {
      this.profilePicture := profilePicture;
    }
  }
}
