/** src/pages/Requests.tsx: all requests, sorted by type, with status changes,
    deletion and saving through the store. `a.type.localeCompare(b.type)` is the
    parameter `typeRank`, a ranking of type strings. */
module Requests {
  import opened Lists
  import opened Entities
  import opened Sorting
  import opened Storage
  import opened Ids

  /** Ascending by type is descending by the negated rank. */
  function ByType(typeRank: string -> int): Request -> int
  {
    (r: Request) => -typeRank(r.requestType)
  }

  /** The loadData sort. */
  function SortedByType(rs: seq<Request>, typeRank: string -> int): seq<Request>
  {
    SortDesc(rs, ByType(typeRank))
  }

  /** loadData lists every stored request once, types in ascending order, and
      requests of the same type in their stored order. */
  lemma SortedByTypeSpec(rs: seq<Request>, typeRank: string -> int, k: int)
    ensures multiset(SortedByType(rs, typeRank)) == multiset(rs)
    ensures forall i, j :: 0 <= i < j < |SortedByType(rs, typeRank)| ==>
              typeRank(SortedByType(rs, typeRank)[i].requestType) <= typeRank(SortedByType(rs, typeRank)[j].requestType)
    ensures WithKey(SortedByType(rs, typeRank), ByType(typeRank), k) == WithKey(rs, ByType(typeRank), k)
  {
    SortDescPermutes(rs, ByType(typeRank));
    SortDescOrdered(rs, ByType(typeRank));
    SortDescStable(rs, ByType(typeRank), k);
  }

  /** getEmployeeName: `${position} (${account})` of the first employee with the id,
      or the id itself. */
  function EmployeeName(emps: seq<Employee>, employeeId: string): string
  {
    match FindFirst(emps, EmployeeHasId(employeeId))
    case Some(k) => emps[k].position + " (" + emps[k].account + ")"
    case None => employeeId
  }

  lemma EmployeeNameSpec(emps: seq<Employee>, employeeId: string)
    ensures (forall i :: 0 <= i < |emps| ==> emps[i].id != employeeId) ==> EmployeeName(emps, employeeId) == employeeId
    ensures forall i :: 0 <= i < |emps| && emps[i].id == employeeId &&
                        (forall j :: 0 <= j < i ==> emps[j].id != employeeId) ==>
              EmployeeName(emps, employeeId) == emps[i].position + " (" + emps[i].account + ")"
  {
    forall i | 0 <= i < |emps| && emps[i].id == employeeId &&
               (forall j :: 0 <= j < i ==> emps[j].id != employeeId)
      ensures EmployeeName(emps, employeeId) == emps[i].position + " (" + emps[i].account + ")"
    {
      assert EmployeeHasId(employeeId)(emps[i]);
    }
  }

  /** A status change through updateRequest writes the chosen request, carrying
      the new status, over the first stored request with its id, and nothing else
      moves. That is a change of status alone exactly when the two requests agree
      on every other field, which holds whenever the ids rise along the list and
      the chosen request is one of the stored ones. An id nobody has leaves the
      list as it is. */
  lemma StatusChangeSpec(rs: seq<Request>, r: Request, status: string)
    ensures match FindFirst(rs, RequestHasId(r.id))
            case Some(k) =>
              var after := rs[k := r.(status := status)];
              && |after| == |rs|
              && after[k] == r.(status := status)
              && (forall j :: 0 <= j < |rs| && j != k ==> after[j] == rs[j])
              && (after[k] == rs[k].(status := status) <==> r.(status := rs[k].status) == rs[k])
            case None => r !in rs
    ensures IncreasingRequestIds(rs) && r in rs ==>
            var k := FindFirst(rs, RequestHasId(r.id));
            k.Some? && rs[k.value] == r
  {
    if r in rs {
      var i :| 0 <= i < |rs| && rs[i] == r;
      assert RequestHasId(r.id)(rs[i]);
      var k := FindFirst(rs, RequestHasId(r.id)).value;
      if IncreasingRequestIds(rs) && k < i {
        assert false;
      }
    }
  }

  class RequestsPage {
    const store: Store
    var requests: seq<Request>
    var employees: seq<Employee>
    var mode: Mode
    /** The request handed to the dialog; None stands for `undefined`. */
    var selectedRequest: Option<Request>

    constructor (store: Store)
      ensures this.store == store && requests == [] && employees == [] && mode == Add
      ensures selectedRequest == None
    {
      this.store := store;
      requests, employees, mode := [], [], Add;
      selectedRequest := None;
    }

    /** loadData */
    method LoadData(typeRank: string -> int)
      modifies this`requests, this`employees
      ensures requests == SortedByType(store.GetRequests(), typeRank)
      ensures employees == store.GetEmployees()
    {
      requests := SortedByType(store.GetRequests(), typeRank);
      employees := store.GetEmployees();
    }

    /** handleAddClick: the dialog opens with no request, in add mode. */
    method HandleAddClick()
      modifies this`mode, this`selectedRequest
      ensures mode == Add && selectedRequest == None
    {
      selectedRequest := None;
      mode := Add;
    }

    /** handleEditClick: the dialog opens on the chosen request, in edit mode. */
    method HandleEditClick(r: Request)
      modifies this`mode, this`selectedRequest
      ensures mode == Edit && selectedRequest == Some(r)
    {
      selectedRequest := Some(r);
      mode := Edit;
    }

    /** handleDialogClose: closing forgets the chosen request; the mode stays. */
    method HandleDialogClose()
      modifies this`selectedRequest
      ensures selectedRequest == None
    {
      selectedRequest := None;
    }

    /** handleDeleteClick */
    method HandleDeleteClick(r: Request, typeRank: string -> int)
      modifies this`requests, this`employees, store`requests
      ensures store.requests == Some(Filter(old(store.GetRequests()), RequestOtherId(r.id)))
      ensures employees == store.GetEmployees()
      ensures requests == SortedByType(store.GetRequests(), typeRank)
    {
      store.DeleteRequest(r.id);
      LoadData(typeRank);
    }

    /** handleStatusChange: the chosen request with the new status goes through updateRequest. */
    method HandleStatusChange(r: Request, newStatus: string, typeRank: string -> int)
      modifies this`requests, this`employees, store`requests
      ensures match FindFirst(old(store.GetRequests()), RequestHasId(r.id))
              case Some(k) => store.requests == Some(old(store.GetRequests())[k := r.(status := newStatus)])
              case None => store.requests == old(store.requests)
      ensures employees == store.GetEmployees()
      ensures requests == SortedByType(store.GetRequests(), typeRank)
    {
      store.UpdateRequest(r.(status := newStatus));
      LoadData(typeRank);
    }

    /** handleSaveRequest: append in add mode, replace by id in edit mode. */
    method HandleSaveRequest(r: Request, typeRank: string -> int)
      modifies this`requests, this`employees, store`requests
      ensures mode == Add ==> store.requests.Some? && store.GetRequests() == old(store.GetRequests()) + [r]
      ensures mode == Edit ==>
                match FindFirst(old(store.GetRequests()), RequestHasId(r.id))
                case Some(k) => store.requests == Some(old(store.GetRequests())[k := r])
                case None => store.requests == old(store.requests)
      ensures employees == store.GetEmployees()
      ensures requests == SortedByType(store.GetRequests(), typeRank)
    {
      if mode == Add {
        store.AddRequest(r);
      } else {
        store.UpdateRequest(r);
      }
      LoadData(typeRank);
    }

    function GetEmployeeName(employeeId: string): string
      reads this
    {
      EmployeeName(employees, employeeId)
    }
  }
}
