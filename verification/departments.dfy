/** src/pages/Departments.tsx: the department table with each department's
    employee count, and the add, edit and delete handlers. */
module Departments {
  import opened Lists
  import opened Entities
  import opened Storage

  /** `employeeCounts[name] || 0`: a department nobody works in shows 0. */
  function DisplayedCount(counts: map<string, nat>, name: string): nat
  {
    if name in counts then counts[name] else 0
  }

  /** Over the map getAllDepartmentCounts builds, the displayed count is the number
      of employees in the department, 0 included. */
  lemma DisplayedCountIsEmployeeCount(counts: map<string, nat>, emps: seq<Employee>, name: string)
    requires CountsOf(counts, emps)
    ensures DisplayedCount(counts, name) == DepartmentEmployeeCount(emps, name)
  {
    if name !in counts {
      CountPositiveIffPresent(emps, name);
    }
  }

  /** Editing replaces the departments named like the one being edited, so a rename
      takes effect in place; nothing else moves. This is the contract of `Lists.Map` read at `ReplacingDepartment`. */
  lemma EditDepartmentSpec(ds: seq<Department>, original: Option<Department>, d: Department)
    ensures var name := if original.Some? then Some(original.value.name) else None;
            var r := Map(ds, ReplacingDepartment(name, d));
            && |r| == |ds|
            && (forall i :: 0 <= i < |ds| ==> r[i] == if name == Some(ds[i].name) then d else ds[i])
    ensures original.None? ==> Map(ds, ReplacingDepartment(None, d)) == ds
  {
  }

  class DepartmentsPage {
    const store: Store
    var departments: seq<Department>
    var employeeCounts: map<string, nat>
    var selectedDepartment: Option<Department>
    var mode: Mode

    constructor (store: Store)
      ensures this.store == store
      ensures departments == [] && employeeCounts == map[]
      ensures selectedDepartment == None && mode == Add
    {
      this.store := store;
      departments, employeeCounts := [], map[];
      selectedDepartment, mode := None, Add;
    }

    /** The mount effect: seed storage, then read the departments and the counts. */
    method Load()
      modifies this`departments, this`employeeCounts, store
      ensures store.departments == if old(store.departments).None? then Some(InitialDepartments) else old(store.departments)
      ensures store.employees == if old(store.employees).None? then Some(InitialEmployees) else old(store.employees)
      ensures store.transfers == if old(store.transfers).None? then Some([]) else old(store.transfers)
      ensures store.accounts == if old(store.accounts).None? then Some(InitialAccounts) else old(store.accounts)
      ensures store.requests == if old(store.requests).None? then Some(InitialRequests) else old(store.requests)
      ensures departments == store.GetDepartments()
      ensures CountsOf(employeeCounts, store.GetEmployees())
    {
      store.InitializeStorage();
      departments := store.GetDepartments();
      employeeCounts := store.GetAllDepartmentCounts();
    }

    /** The `storage` event handler: the counts are read again from the store. */
    method HandleStorageChange()
      modifies this`employeeCounts
      ensures CountsOf(employeeCounts, store.GetEmployees())
      ensures forall name :: CountDisplay(name) == DepartmentEmployeeCount(store.GetEmployees(), name)
    {
      employeeCounts := store.GetAllDepartmentCounts();
      forall name ensures CountDisplay(name) == DepartmentEmployeeCount(store.GetEmployees(), name) {
        DisplayedCountIsEmployeeCount(employeeCounts, store.GetEmployees(), name);
      }
    }

    /** The Employee Count column. */
    function CountDisplay(name: string): nat
      reads this
    {
      DisplayedCount(employeeCounts, name)
    }

    method HandleAddClick()
      modifies this`selectedDepartment, this`mode
      ensures selectedDepartment == None && mode == Add
    {
      selectedDepartment, mode := None, Add;
    }

    method HandleEditClick(d: Department)
      modifies this`selectedDepartment, this`mode
      ensures selectedDepartment == Some(d) && mode == Edit
    {
      selectedDepartment, mode := Some(d), Edit;
    }

    /** handleDialogClose: closing the dialog forgets the selected department; the mode stays. */
    method HandleDialogClose()
      modifies this`selectedDepartment
      ensures selectedDepartment == None
    {
      selectedDepartment := None;
    }

    /** handleDeleteClick: every department with that name goes, the others keep their order. */
    method HandleDeleteClick(d: Department)
      modifies this`departments, store`departments
      ensures departments == Filter(old(departments), DepartmentOtherName(d.name))
      ensures store.departments == Some(departments)
    {
      var updated := Filter(departments, DepartmentOtherName(d.name));
      departments := updated;
      store.SetDepartments(updated);
    }

    /** handleSaveDepartment: append in add mode; in edit mode replace the departments
        carrying the selected department's original name. */
    method HandleSaveDepartment(d: Department)
      modifies this`departments, store`departments
      ensures mode == Add ==> departments == old(departments) + [d]
      ensures mode == Edit ==>
                departments == Map(old(departments),
                                   ReplacingDepartment(if selectedDepartment.Some? then Some(selectedDepartment.value.name) else None, d))
      ensures store.departments == Some(departments)
    {
      var updated: seq<Department>;
      if mode == Add {
        updated := departments + [d];
      } else {
        var name := if selectedDepartment.Some? then Some(selectedDepartment.value.name) else None;
        updated := Map(departments, ReplacingDepartment(name, d));
      }
      departments := updated;
      store.SetDepartments(updated);
    }
  }
}
