/** src/components/TransferDialog.tsx: choosing the department to move an
    employee to. The current department is never offered and cannot be submitted. */
module TransferDialog {
  import opened Lists
  import opened Entities

  /** The menu: the departments not named like the current one, in order. */
  function OfferedDepartments(departments: seq<Department>, currentDepartment: string): seq<Department>
  {
    Filter(departments, DepartmentOtherName(currentDepartment))
  }

  /** A department is offered exactly when its name differs from the current one. */
  lemma OfferedDepartmentsSpec(departments: seq<Department>, currentDepartment: string)
    ensures forall i :: 0 <= i < |departments| ==>
              (departments[i] in OfferedDepartments(departments, currentDepartment) <==>
               departments[i].name != currentDepartment)
    ensures IsSubsequence(OfferedDepartments(departments, currentDepartment), departments)
  {
    FilterIsSubsequence(departments, DepartmentOtherName(currentDepartment));
    var offered := OfferedDepartments(departments, currentDepartment);
    forall i | 0 <= i < |departments| && departments[i] in offered
      ensures departments[i].name != currentDepartment
    {
      var k :| 0 <= k < |offered| && offered[k] == departments[i];
    }
  }

  class TransferForm {
    const departments: seq<Department>
    const currentDepartment: string
    var selectedDepartment: string

    /** The selection is the current department or one of the offered ones. */
    ghost predicate Valid()
      reads this
    {
      selectedDepartment == currentDepartment ||
      exists d :: d in OfferedDepartments(departments, currentDepartment) && d.name == selectedDepartment
    }

    /** The selection starts at the current department, so Transfer starts disabled. */
    constructor (departments: seq<Department>, currentDepartment: string)
      ensures this.departments == departments && this.currentDepartment == currentDepartment
      ensures selectedDepartment == currentDepartment && Valid() && !SubmitEnabled()
    {
      this.departments := departments;
      this.currentDepartment := currentDepartment;
      selectedDepartment := currentDepartment;
    }

    /** `disabled={selectedDepartment === currentDepartment}` */
    predicate SubmitEnabled()
      reads this
    {
      selectedDepartment != currentDepartment
    }

    /** handleChange: the value comes from the menu. */
    method HandleChange(choice: Department)
      modifies this
      requires choice in OfferedDepartments(departments, currentDepartment)
      ensures selectedDepartment == choice.name && Valid() && SubmitEnabled()
    {
      selectedDepartment := choice.name;
    }

    /** handleSubmit through the Transfer button: onTransfer receives the selection,
        which is then an offered department other than the current one; while the
        button is disabled nothing happens. */
    method HandleSubmit() returns (target: Option<string>)
      requires Valid()
      ensures SubmitEnabled() <==> target.Some?
      ensures target.Some? ==>
                && target.value == selectedDepartment
                && target.value != currentDepartment
                && exists d :: d in departments && d.name == target.value
    {
      if SubmitEnabled() {
        target := Some(selectedDepartment);
        var d :| d in OfferedDepartments(departments, currentDepartment) && d.name == selectedDepartment;
        var k :| 0 <= k < |OfferedDepartments(departments, currentDepartment)| && OfferedDepartments(departments, currentDepartment)[k] == d;
      } else {
        target := None;
      }
    }
  }
}
