/** src/context/DepartmentContext.tsx: a context-held list of departments with an
    employee count each, and the adjuster that moves a count by a delta. */
module DepartmentContext {
  import opened Lists

  datatype CountedDepartment = CountedDepartment(name: string, description: string, employeeCount: int)

  const InitialCountedDepartments: seq<CountedDepartment> := [
    CountedDepartment("Engineering", "Software development team", 1),
    CountedDepartment("Marketing", "Marketing and communications team", 1),
    CountedDepartment("Human Resources", "HR management and recruitment", 0)
  ]

  /** `{ ...dept, employeeCount: Math.max(0, dept.employeeCount + change) }` for the named department. */
  function Adjusting(name: string, change: int): CountedDepartment -> CountedDepartment
  {
    (d: CountedDepartment) =>
      if d.name == name then d.(employeeCount := Max(0, d.employeeCount + change)) else d
  }

  function AdjustEmployeeCount(ds: seq<CountedDepartment>, name: string, change: int): seq<CountedDepartment>
  {
    Map(ds, Adjusting(name, change))
  }

  ghost predicate CountsNonNegative(ds: seq<CountedDepartment>)
  {
    forall i :: 0 <= i < |ds| ==> ds[i].employeeCount >= 0
  }

  /** The adjuster keeps length, order, names and descriptions; the named
      department's count moves by the delta but not below 0; the others are
      unchanged. So counts that start non-negative stay non-negative. The
      per-position clauses are the contract of `Lists.Map` read at `Adjusting`. */
  lemma AdjustEmployeeCountSpec(ds: seq<CountedDepartment>, name: string, change: int)
    ensures var r := AdjustEmployeeCount(ds, name, change);
            && |r| == |ds|
            && (forall i :: 0 <= i < |ds| ==> r[i].name == ds[i].name && r[i].description == ds[i].description)
            && (forall i :: 0 <= i < |ds| && ds[i].name == name ==>
                  r[i].employeeCount == Max(0, ds[i].employeeCount + change) && r[i].employeeCount >= 0)
            && (forall i :: 0 <= i < |ds| && ds[i].name != name ==> r[i] == ds[i])
    ensures CountsNonNegative(ds) ==> CountsNonNegative(AdjustEmployeeCount(ds, name, change))
  {
  }

  class DepartmentProvider {
    var departments: seq<CountedDepartment>

    ghost predicate Valid()
      reads this
    {
      CountsNonNegative(departments)
    }

    constructor ()
      ensures departments == InitialCountedDepartments && Valid()
    {
      departments := InitialCountedDepartments;
    }

    /** The exposed setDepartments: the list is replaced as given, so the counts stay
        non-negative only when the new list's counts are. */
    method SetDepartments(ds: seq<CountedDepartment>)
      modifies this
      ensures departments == ds
      ensures Valid() <==> CountsNonNegative(ds)
    {
      departments := ds;
    }

    /** updateEmployeeCount */
    method UpdateEmployeeCount(departmentName: string, change: int)
      modifies this
      ensures departments == AdjustEmployeeCount(old(departments), departmentName, change)
      ensures old(Valid()) ==> Valid()
    {
      AdjustEmployeeCountSpec(departments, departmentName, change);
      departments := AdjustEmployeeCount(departments, departmentName, change);
    }
  }
}
