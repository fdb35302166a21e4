/** Read-only queries on the employee table. */
module EmployeeRepo {
  import opened Wrappers
  import opened Models
  import opened Seqs

  function NameIs(name: string): Employee -> bool {
    (e: Employee) => e.name == name
  }

  /** `get_employee_by_name`: the first employee whose name equals `name`
      character for character (no trimming, no case folding). */
  function GetEmployeeByName(employees: seq<Employee>, name: string): (r: Option<Employee>)
    ensures r.Some? ==> r.value in employees && r.value.name == name
    ensures r.None? <==> forall e :: e in employees ==> e.name != name
  {
    First(employees, NameIs(name))
  }

  /** A name that differs only in letter case or surrounding spaces finds nobody. */
  lemma ExactNameOnly(e: Employee)
    requires e.name == "Alice"
    ensures GetEmployeeByName([e], "Alice") == Some(e)
    ensures GetEmployeeByName([e], "alice").None?
    ensures GetEmployeeByName([e], " Alice").None?
  {
    assert "alice"[0] != "Alice"[0];
  }
}
