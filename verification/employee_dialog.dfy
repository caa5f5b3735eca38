/** src/components/EmployeeDialog.tsx: the employee form. A new employee gets the
    page's next employee id; the id field itself is never edited. The props
    (the employee being edited, the next id, today's date) are parameters. */
module EmployeeDialog {
  import opened Lists
  import opened Entities

  datatype EmployeeField = AccountEmail | Position | DepartmentName | HireDate | Status

  datatype EmployeeErrors = EmployeeErrors(
    account: Option<string>,
    position: Option<string>,
    department: Option<string>,
    hireDate: Option<string>,
    status: Option<string>)

  const NoErrors := EmployeeErrors(None, None, None, None, None)

  function Get(e: Employee, f: EmployeeField): string
  {
    match f
    case AccountEmail => e.account
    case Position => e.position
    case DepartmentName => e.department
    case HireDate => e.hireDate
    case Status => e.status
  }

  function SetField(e: Employee, f: EmployeeField, v: string): (r: Employee)
    ensures Get(r, f) == v && r.id == e.id
    ensures forall g :: g != f ==> Get(r, g) == Get(e, g)
  {
    match f
    case AccountEmail => e.(account := v)
    case Position => e.(position := v)
    case DepartmentName => e.(department := v)
    case HireDate => e.(hireDate := v)
    case Status => e.(status := v)
  }

  function ErrorOf(errs: EmployeeErrors, f: EmployeeField): Option<string>
  {
    match f
    case AccountEmail => errs.account
    case Position => errs.position
    case DepartmentName => errs.department
    case HireDate => errs.hireDate
    case Status => errs.status
  }

  function ClearError(errs: EmployeeErrors, f: EmployeeField): (r: EmployeeErrors)
    ensures ErrorOf(r, f).None?
    ensures forall g :: g != f ==> ErrorOf(r, g) == ErrorOf(errs, g)
  {
    match f
    case AccountEmail => errs.(account := None)
    case Position => errs.(position := None)
    case DepartmentName => errs.(department := None)
    case HireDate => errs.(hireDate := None)
    case Status => errs.(status := None)
  }

  const AccountRequired := "Account is required"
  const PositionRequired := "Position is required"
  const DepartmentRequired := "Department is required"
  const HireDateRequired := "Hire date is required"
  const StatusRequired := "Status is required"

  /** The `newErrors` validateForm builds: one message per empty field, no other. */
  method CheckEmployee(e: Employee) returns (errs: EmployeeErrors)
    ensures forall f :: ErrorOf(errs, f).Some? <==> Get(e, f) == ""
    ensures errs.account == (if e.account == "" then Some(AccountRequired) else None)
    ensures errs.position == (if e.position == "" then Some(PositionRequired) else None)
    ensures errs.department == (if e.department == "" then Some(DepartmentRequired) else None)
    ensures errs.hireDate == (if e.hireDate == "" then Some(HireDateRequired) else None)
    ensures errs.status == (if e.status == "" then Some(StatusRequired) else None)
    ensures errs == NoErrors <==>
              e.account != "" && e.position != "" && e.department != "" && e.hireDate != "" && e.status != ""
  {
    errs := NoErrors;
    if e.account == "" { errs := errs.(account := Some(AccountRequired)); }
    if e.position == "" { errs := errs.(position := Some(PositionRequired)); }
    if e.department == "" { errs := errs.(department := Some(DepartmentRequired)); }
    if e.hireDate == "" { errs := errs.(hireDate := Some(HireDateRequired)); }
    if e.status == "" { errs := errs.(status := Some(StatusRequired)); }
  }

  /** The form the dialog opens with: a new employee gets the next id, today's hire
      date and status Active; an edited one keeps its id. */
  function InitialEmployeeData(employee: Option<Employee>, nextEmployeeId: string, today: string): (e: Employee)
    ensures employee.None? ==> e == Employee(nextEmployeeId, "", "", "", today, Active)
    ensures employee.Some? && employee.value.id != "" ==> e.id == employee.value.id
    ensures employee.Some? ==> e.account == employee.value.account && e.position == employee.value.position
  {
    match employee
    case None => Employee(nextEmployeeId, "", "", "", today, Active)
    case Some(x) => Employee(OrElse(x.id, nextEmployeeId), x.account, x.position, x.department,
                             OrElse(x.hireDate, today), OrElse(x.status, Active))
  }

  class EmployeeForm {
    var formData: Employee
    var errors: EmployeeErrors

    constructor (employee: Option<Employee>, nextEmployeeId: string, today: string)
      ensures formData == InitialEmployeeData(employee, nextEmployeeId, today) && errors == NoErrors
    {
      formData := InitialEmployeeData(employee, nextEmployeeId, today);
      errors := NoErrors;
    }

    /** The effect on new props: load the edited employee, or give the form the
        next id and keep the rest; clear the errors. */
    method Reset(employee: Option<Employee>, nextEmployeeId: string)
      modifies this
      ensures formData == if employee.Some? then employee.value else old(formData).(id := nextEmployeeId)
      ensures formData.id == if employee.Some? then employee.value.id else nextEmployeeId
      ensures errors == NoErrors
    {
      if employee.Some? {
        formData := employee.value;
      } else {
        formData := formData.(id := nextEmployeeId);
      }
      errors := NoErrors;
    }

    /** handleInputChange / handleSelectChange: set the field; clear its error, and
        only its error, if one is shown. The id is not a field the form edits. */
    method HandleChange(field: EmployeeField, value: string)
      modifies this
      ensures formData == SetField(old(formData), field, value)
      ensures formData.id == old(formData.id)
      ensures !Shown(ErrorOf(errors, field))
      ensures forall g :: g != field ==> ErrorOf(errors, g) == ErrorOf(old(errors), g)
      ensures !Shown(ErrorOf(old(errors), field)) ==> errors == old(errors)
    {
      formData := SetField(formData, field, value);
      if Shown(ErrorOf(errors, field)) {
        errors := ClearError(errors, field);
      }
    }

    method ValidateForm() returns (ok: bool)
      modifies this`errors
      ensures ok <==> formData.account != "" && formData.position != "" && formData.department != ""
                      && formData.hireDate != "" && formData.status != ""
      ensures ok <==> errors == NoErrors
    {
      var newErrors := CheckEmployee(formData);
      errors := newErrors;
      ok := newErrors == NoErrors;
    }

    /** handleSubmit: the form reaches onSave, with its id, only when it validates. */
    method HandleSubmit() returns (saved: Option<Employee>)
      modifies this`errors
      ensures saved.Some? <==> formData.account != "" && formData.position != "" && formData.department != ""
                               && formData.hireDate != "" && formData.status != ""
      ensures saved.Some? ==> saved.value == formData
      ensures formData == old(formData)
    {
      var ok := ValidateForm();
      saved := if ok then Some(formData) else None;
    }
  }
}
