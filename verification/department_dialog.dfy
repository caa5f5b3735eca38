/** src/components/DepartmentDialog.tsx: the department form (name and description). */
module DepartmentDialog {
  import opened Lists
  import opened Entities

  datatype DepartmentField = Name | Description

  datatype DepartmentErrors = DepartmentErrors(name: Option<string>, description: Option<string>)

  const NoErrors := DepartmentErrors(None, None)

  const NameRequired := "Department name is required"
  const DescriptionRequired := "Description is required"

  function SetField(d: Department, f: DepartmentField, v: string): Department
  {
    match f
    case Name => d.(name := v)
    case Description => d.(description := v)
  }

  function ErrorOf(errs: DepartmentErrors, f: DepartmentField): Option<string>
  {
    match f
    case Name => errs.name
    case Description => errs.description
  }

  /** The `newErrors` validateForm builds. */
  method CheckDepartment(d: Department) returns (errs: DepartmentErrors)
    ensures errs.name == (if d.name == "" then Some(NameRequired) else None)
    ensures errs.description == (if d.description == "" then Some(DescriptionRequired) else None)
    ensures errs == NoErrors <==> d.name != "" && d.description != ""
  {
    errs := NoErrors;
    if d.name == "" { errs := errs.(name := Some(NameRequired)); }
    if d.description == "" { errs := errs.(description := Some(DescriptionRequired)); }
  }

  class DepartmentForm {
    var formData: Department
    var errors: DepartmentErrors

    constructor (department: Option<Department>)
      ensures formData == (if department.Some? then department.value else Department("", ""))
      ensures errors == NoErrors
    {
      formData := if department.Some? then department.value else Department("", "");
      errors := NoErrors;
    }

    /** The effect on a new `department` prop: load it if there is one, clear the errors. */
    method Reset(department: Option<Department>)
      modifies this
      ensures formData == if department.Some? then department.value else old(formData)
      ensures errors == NoErrors
    {
      if department.Some? {
        formData := department.value;
      }
      errors := NoErrors;
    }

    /** handleInputChange: set the field; clear its error, and only its error, if
        one is shown. */
    method HandleInputChange(field: DepartmentField, value: string)
      modifies this
      ensures formData == SetField(old(formData), field, value)
      ensures field == Name ==> formData.description == old(formData.description) && formData.name == value
      ensures field == Description ==> formData.name == old(formData.name) && formData.description == value
      ensures !Shown(ErrorOf(errors, field))
      ensures field == Name ==> errors.description == old(errors.description)
      ensures field == Description ==> errors.name == old(errors.name)
      ensures !Shown(ErrorOf(old(errors), field)) ==> errors == old(errors)
    {
      formData := SetField(formData, field, value);
      if Shown(ErrorOf(errors, field)) {
        errors := if field == Name then errors.(name := None) else errors.(description := None);
      }
    }

    method ValidateForm() returns (ok: bool)
      modifies this`errors
      ensures ok <==> formData.name != "" && formData.description != ""
      ensures ok <==> errors == NoErrors
    {
      var newErrors := CheckDepartment(formData);
      errors := newErrors;
      ok := newErrors == NoErrors;
    }

    /** handleSubmit: the form reaches onSave only when it validates. */
    method HandleSubmit() returns (saved: Option<Department>)
      modifies this`errors
      ensures saved.Some? <==> formData.name != "" && formData.description != ""
      ensures saved.Some? ==> saved.value == formData
      ensures formData == old(formData)
    {
      var ok := ValidateForm();
      saved := if ok then Some(formData) else None;
    }
  }
}
