/** src/components/RequestDialog.tsx: the request form with its list of line
    items. Item errors live in a sparse array: `newErrors.items[index] = ...`
    leaves holes below `index`, and `items.length` is one past the last error.
    Here a hole is None and a cleared message is Some(""). The props (the request
    being edited, the next request id, today's date) are parameters. */
module RequestDialog {
  import opened Lists
  import opened Entities

  datatype RequestField = TypeField | EmployeeIdField | DescriptionField | RequestDateField

  datatype RequestErrors = RequestErrors(
    requestType: Option<string>,
    employeeId: Option<string>,
    description: Option<string>,
    requestDate: Option<string>,
    items: seq<Option<string>>)

  const NoErrors := RequestErrors(None, None, None, None, [])

  const TypeRequired := "Type is required"
  const EmployeeRequired := "Employee is required"
  const DescriptionRequired := "Description is required"
  const RequestDateRequired := "Request date is required"
  const ItemNameRequired := "Item name is required"

  /** `{ name: '', quantity: 1 }` */
  const NewItem := Item("", 1)

  function Get(r: Request, f: RequestField): string
  {
    match f
    case TypeField => r.requestType
    case EmployeeIdField => r.employeeId
    case DescriptionField => r.description
    case RequestDateField => r.requestDate
  }

  function SetField(r: Request, f: RequestField, v: string): (s: Request)
    ensures Get(s, f) == v && s.id == r.id && s.items == r.items && s.status == r.status
    ensures forall g :: g != f ==> Get(s, g) == Get(r, g)
  {
    match f
    case TypeField => r.(requestType := v)
    case EmployeeIdField => r.(employeeId := v)
    case DescriptionField => r.(description := v)
    case RequestDateField => r.(requestDate := v)
  }

  function ErrorOf(e: RequestErrors, f: RequestField): Option<string>
  {
    match f
    case TypeField => e.requestType
    case EmployeeIdField => e.employeeId
    case DescriptionField => e.description
    case RequestDateField => e.requestDate
  }

  function ClearError(e: RequestErrors, f: RequestField): (r: RequestErrors)
    ensures ErrorOf(r, f).None? && r.items == e.items
    ensures forall g :: g != f ==> ErrorOf(r, g) == ErrorOf(e, g)
  {
    match f
    case TypeField => e.(requestType := None)
    case EmployeeIdField => e.(employeeId := None)
    case DescriptionField => e.(description := None)
    case RequestDateField => e.(requestDate := None)
  }

  /** The form the dialog opens with. A new request is an Equipment request dated
      today, Pending, with one empty item of quantity 1 and the next request id. */
  function InitialRequestData(request: Option<Request>, nextRequestId: string, today: string): (r: Request)
    ensures request.None? ==> r == Request(nextRequestId, "Equipment", "", "", today, [NewItem], Pending)
    ensures request.Some? ==> r.items == request.value.items && r.description == request.value.description
    ensures request.Some? && request.value.id != "" ==> r.id == request.value.id
  {
    match request
    case None => Request(nextRequestId, "Equipment", "", "", today, [NewItem], Pending)
    case Some(x) => Request(OrElse(x.id, nextRequestId), OrElse(x.requestType, "Equipment"), x.employeeId,
                            x.description, OrElse(x.requestDate, today), x.items, OrElse(x.status, Pending))
  }

  /** A request the dialog accepts. */
  ghost predicate RequestValid(r: Request)
  {
    && r.requestType != "" && r.employeeId != "" && r.description != "" && r.requestDate != ""
    && forall k :: 0 <= k < |r.items| ==> r.items[k].name != ""
  }

  /** Item errors are shown only next to items whose name is empty. */
  ghost predicate ErrorsSound(errs: seq<Option<string>>, items: seq<Item>)
  {
    forall k :: 0 <= k < |errs| && Shown(errs[k]) ==> k < |items| && items[k].name == ""
  }

  // ---------------------------------------------------------------------------
  // validateForm

  /** The `forEach` over the items: a message at each index whose name is empty,
      holes elsewhere, and the array ends at the last message. */
  method CheckItems(items: seq<Item>) returns (errs: seq<Option<string>>)
    ensures |errs| <= |items|
    ensures forall k :: 0 <= k < |errs| ==> (errs[k].Some? <==> items[k].name == "")
    ensures forall k :: 0 <= k < |errs| && errs[k].Some? ==> errs[k].value == ItemNameRequired
    ensures forall k :: |errs| <= k < |items| ==> items[k].name != ""
    ensures errs != [] ==> errs[|errs| - 1].Some?
    ensures errs == [] <==> forall k :: 0 <= k < |items| ==> items[k].name != ""
  {
    errs := [];
    var i := 0;
    while i < |items|
      invariant 0 <= i <= |items|
      invariant |errs| <= i
      invariant forall k :: 0 <= k < |errs| ==> (errs[k].Some? <==> items[k].name == "")
      invariant forall k :: 0 <= k < |errs| && errs[k].Some? ==> errs[k].value == ItemNameRequired
      invariant forall k :: |errs| <= k < i ==> items[k].name != ""
      invariant errs != [] ==> errs[|errs| - 1].Some?
    {
      if items[i].name == "" {
        errs := errs + seq(i - |errs|, _ => None) + [Some(ItemNameRequired)];
      }
      i := i + 1;
    }
  }

  /** The `newErrors` validateForm builds. */
  method CheckRequest(r: Request) returns (errs: RequestErrors)
    ensures errs.requestType == (if r.requestType == "" then Some(TypeRequired) else None)
    ensures errs.employeeId == (if r.employeeId == "" then Some(EmployeeRequired) else None)
    ensures errs.description == (if r.description == "" then Some(DescriptionRequired) else None)
    ensures errs.requestDate == (if r.requestDate == "" then Some(RequestDateRequired) else None)
    ensures ErrorsSound(errs.items, r.items)
    ensures forall k :: 0 <= k < |r.items| && r.items[k].name == "" ==> k < |errs.items| && Shown(errs.items[k])
    ensures errs == NoErrors <==> RequestValid(r)
  {
    var itemErrors := CheckItems(r.items);
    errs := RequestErrors(None, None, None, None, itemErrors);
    if r.requestType == "" { errs := errs.(requestType := Some(TypeRequired)); }
    if r.employeeId == "" { errs := errs.(employeeId := Some(EmployeeRequired)); }
    if r.description == "" { errs := errs.(description := Some(DescriptionRequired)); }
    if r.requestDate == "" { errs := errs.(requestDate := Some(RequestDateRequired)); }
  }

  // ---------------------------------------------------------------------------
  // Item editing

  datatype ItemEdit = NameEdit(name: string) | QuantityEdit(quantity: int)

  /** `{ ...newItems[index], [field]: value }` */
  function ApplyEdit(item: Item, edit: ItemEdit): Item
  {
    match edit
    case NameEdit(n) => item.(name := n)
    case QuantityEdit(q) => item.(quantity := q)
  }

  /** `Math.max(1, quantity + (increment ? 1 : -1))` */
  function StepQuantity(quantity: int, increment: bool): (q: int)
    ensures q >= 1
    ensures increment && quantity >= 0 ==> q == quantity + 1
    ensures !increment && quantity > 1 ==> q == quantity - 1
    ensures !increment && quantity <= 1 ==> q == 1
  {
    Max(1, quantity + (if increment then 1 else -1))
  }

  /** `items.filter((_, i) => i !== index)` */
  function RemoveAt<T>(s: seq<T>, index: nat): (r: seq<T>)
    requires index < |s|
    ensures |r| == |s| - 1
    ensures forall k :: 0 <= k < |r| ==> r[k] == if k < index then s[k] else s[k + 1]
  {
    s[..index] + s[index + 1..]
  }

  /** `prev.items.map((err, i) => i === index ? '' : err)` when the item's error is
      shown: `map` skips holes, so only that message becomes "". */
  function ClearItemError(errs: seq<Option<string>>, index: nat): (r: seq<Option<string>>)
    ensures |r| == |errs|
    ensures index < |r| ==> !Shown(r[index])
    ensures forall k :: 0 <= k < |r| && k != index ==> r[k] == errs[k]
  {
    if index < |errs| && Shown(errs[index]) then errs[index := Some("")] else errs
  }

  /** Removing an item removes its error slot, holes included, so every later
      message moves down with its item. */
  function RemoveItemErrors(errs: seq<Option<string>>, index: nat): seq<Option<string>>
  {
    if index < |errs| then RemoveAt(errs, index) else errs
  }

  /** After a removal each remaining item shows the error it showed before. */
  lemma RemoveItemErrorsAligned(errs: seq<Option<string>>, items: seq<Item>, index: nat)
    requires index < |items|
    ensures var r := RemoveItemErrors(errs, index);
            forall k :: 0 <= k < |items| - 1 ==>
              ((k < |r| && Shown(r[k])) <==>
               (var j := if k < index then k else k + 1; j < |errs| && Shown(errs[j])))
    ensures ErrorsSound(errs, items) ==> ErrorsSound(RemoveItemErrors(errs, index), RemoveAt(items, index))
  {
  }

  // ---------------------------------------------------------------------------
  // handleRemoveItem as written

  /** `prev.items.filter((_, i) => i !== index)` on the sparse error array: the
      holes are dropped along with the slot at `index`. */
  function CompactWithout(errs: seq<Option<string>>, index: nat): seq<Option<string>>
  {
    if errs == [] then []
    else
      var last := |errs| - 1;
      var prefix := CompactWithout(errs[..last], index);
      if errs[last].None? || last == index then prefix else prefix + [errs[last]]
  }

  /** handleRemoveItem's error update as the source has it: the array is filtered
      only when the removed item's error is shown, and then its holes collapse. */
  function RemoveItemErrorsAsWritten(errs: seq<Option<string>>, index: nat): seq<Option<string>>
  {
    if index < |errs| && Shown(errs[index]) then CompactWithout(errs, index) else errs
  }

  /** Two runs of the source's update that put errors next to the wrong items:
      - items [a, "", b, ""] with errors at 1 and 3: removing item 1 leaves items
        [a, b, ""] and errors [msg], so "a" is flagged and the empty item is not;
      - items [a, b, ""] with an error at 2: removing item 0 leaves items [b, ""]
        and the error still at 2, past the last item, so the empty item is not flagged.
      The aligned update keeps the errors next to their items in both runs. */
  lemma RemoveItemMisalignsErrors()
    ensures var items := [Item("a", 1), Item("", 1), Item("b", 1), Item("", 1)];
            var errs := [None, Some(ItemNameRequired), None, Some(ItemNameRequired)];
            && ErrorsSound(errs, items)
            && RemoveItemErrorsAsWritten(errs, 1) == [Some(ItemNameRequired)]
            && !ErrorsSound(RemoveItemErrorsAsWritten(errs, 1), RemoveAt(items, 1))
            && RemoveItemErrors(errs, 1) == [None, None, Some(ItemNameRequired)]
            && ErrorsSound(RemoveItemErrors(errs, 1), RemoveAt(items, 1))
    ensures var items := [Item("a", 1), Item("b", 1), Item("", 1)];
            var errs := [None, None, Some(ItemNameRequired)];
            && ErrorsSound(errs, items)
            && RemoveItemErrorsAsWritten(errs, 0) == errs
            && !ErrorsSound(RemoveItemErrorsAsWritten(errs, 0), RemoveAt(items, 0))
            && RemoveItemErrors(errs, 0) == [None, Some(ItemNameRequired)]
            && ErrorsSound(RemoveItemErrors(errs, 0), RemoveAt(items, 0))
  {
    var items := [Item("a", 1), Item("", 1), Item("b", 1), Item("", 1)];
    var errs: seq<Option<string>> := [None, Some(ItemNameRequired), None, Some(ItemNameRequired)];
    var e0, e1, e2, e3 := errs[..0], errs[..1], errs[..2], errs[..3];
    assert e1[..0] == e0 && e2[..1] == e1 && e3[..2] == e2 && errs[..3] == e3;
    assert CompactWithout(e0, 1) == [];
    assert CompactWithout(e1, 1) == [];
    assert CompactWithout(e2, 1) == [];
    assert CompactWithout(e3, 1) == [];
    assert CompactWithout(errs, 1) == [Some(ItemNameRequired)];
    assert RemoveAt(items, 1)[0] == Item("a", 1);
    assert RemoveItemErrors(errs, 1) == [None, None, Some(ItemNameRequired)];
    var items2 := [Item("a", 1), Item("b", 1), Item("", 1)];
    var errs2: seq<Option<string>> := [None, None, Some(ItemNameRequired)];
    assert RemoveItemErrors(errs2, 0) == [None, Some(ItemNameRequired)];
    assert |RemoveAt(items2, 0)| == 2;
  }

  // ---------------------------------------------------------------------------
  // The form

  class RequestForm {
    var formData: Request
    var errors: RequestErrors

    /** Item errors stay next to items with empty names. */
    ghost predicate Valid()
      reads this
    {
      ErrorsSound(errors.items, formData.items)
    }

    constructor (request: Option<Request>, nextRequestId: string, today: string)
      ensures formData == InitialRequestData(request, nextRequestId, today)
      ensures errors == NoErrors && Valid()
    {
      formData := InitialRequestData(request, nextRequestId, today);
      errors := NoErrors;
    }

    /** The effect on new props: load the request, or give the form the next id and
        keep the rest; clear the errors. */
    method Reset(request: Option<Request>, nextRequestId: string)
      modifies this
      ensures formData == if request.Some? then request.value else old(formData).(id := nextRequestId)
      ensures errors == NoErrors && Valid()
    {
      if request.Some? {
        formData := request.value;
      } else {
        formData := formData.(id := nextRequestId);
      }
      errors := NoErrors;
    }

    /** handleInputChange / handleSelectChange: set the field; clear its error, and
        only its error, if one is shown. */
    method HandleChange(field: RequestField, value: string)
      modifies this
      requires Valid()
      ensures formData == SetField(old(formData), field, value)
      ensures !Shown(ErrorOf(errors, field))
      ensures forall g :: g != field ==> ErrorOf(errors, g) == ErrorOf(old(errors), g)
      ensures errors.items == old(errors.items)
      ensures !Shown(ErrorOf(old(errors), field)) ==> errors == old(errors)
      ensures Valid()
    {
      formData := SetField(formData, field, value);
      if Shown(ErrorOf(errors, field)) {
        errors := ClearError(errors, field);
      }
    }

    /** handleItemChange: edit one field of one item and clear that item's error. */
    method HandleItemChange(index: nat, edit: ItemEdit)
      modifies this
      requires index < |formData.items| && Valid()
      ensures formData == old(formData).(items := old(formData.items)[index := ApplyEdit(old(formData.items)[index], edit)])
      ensures errors == old(errors).(items := ClearItemError(old(errors.items), index))
      ensures Valid()
    {
      var newItems := formData.items[index := ApplyEdit(formData.items[index], edit)];
      formData := formData.(items := newItems);
      errors := errors.(items := ClearItemError(errors.items, index));
    }

    /** handleAddItem: one empty item of quantity 1 at the end. */
    method HandleAddItem()
      modifies this
      requires Valid()
      ensures formData == old(formData).(items := old(formData.items) + [NewItem])
      ensures errors == old(errors) && Valid()
    {
      formData := formData.(items := formData.items + [NewItem]);
    }

    /** handleRemoveItem, reachable only while there is more than one item, with the
        error slots removed along with the item. The list never empties. */
    method HandleRemoveItem(index: nat)
      modifies this
      requires 1 < |formData.items| && index < |formData.items| && Valid()
      ensures formData == old(formData).(items := RemoveAt(old(formData.items), index))
      ensures errors == old(errors).(items := RemoveItemErrors(old(errors.items), index))
      ensures |formData.items| >= 1 && Valid()
    {
      RemoveItemErrorsAligned(errors.items, formData.items, index);
      formData := formData.(items := RemoveAt(formData.items, index));
      errors := errors.(items := RemoveItemErrors(errors.items, index));
    }

    /** handleQuantityChange: step one quantity, never below 1. */
    method HandleQuantityChange(index: nat, increment: bool)
      modifies this`formData
      requires index < |formData.items| && Valid()
      ensures formData == old(formData).(items := old(formData.items)[index := old(formData.items)[index].(quantity := StepQuantity(old(formData.items)[index].quantity, increment))])
      ensures formData.items[index].quantity >= 1
      ensures Valid()
    {
      var item := formData.items[index];
      formData := formData.(items := formData.items[index := item.(quantity := StepQuantity(item.quantity, increment))]);
    }

    method ValidateForm() returns (ok: bool)
      modifies this`errors
      ensures ok <==> RequestValid(formData)
      ensures ok <==> errors == NoErrors
      ensures Valid()
    {
      var newErrors := CheckRequest(formData);
      errors := newErrors;
      ok := newErrors == NoErrors;
    }

    /** handleSubmit: the form reaches onSave only when it validates. */
    method HandleSubmit() returns (saved: Option<Request>)
      modifies this`errors
      ensures saved.Some? <==> RequestValid(formData)
      ensures saved.Some? ==> saved.value == formData
      ensures formData == old(formData) && Valid()
    {
      var ok := ValidateForm();
      saved := if ok then Some(formData) else None;
    }
  }
}
