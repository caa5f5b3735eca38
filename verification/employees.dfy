/** src/pages/Employees.tsx: the employee table and the handlers behind its
    buttons and dialogs. The page keeps its own copies of the employees, transfers
    and requests and writes every change through to the store. */
module Employees {
  import opened Lists
  import opened Entities
  import opened Ids
  import opened Storage

  /** `${title} ${firstName} ${lastName} (${role})` */
  function DisplayName(a: Account): string
  {
    a.title + " " + a.firstName + " " + a.lastName + " (" + a.role + ")"
  }

  /** getAccountDisplay: the first account with that email, shown by name; the raw
      email when there is none. */
  function AccountDisplay(accounts: seq<Account>, email: string): string
  {
    match FindFirst(accounts, AccountHasEmail(email))
    case Some(k) => DisplayName(accounts[k])
    case None => email
  }

  lemma AccountDisplaySpec(accounts: seq<Account>, email: string)
    ensures (forall i :: 0 <= i < |accounts| ==> accounts[i].email != email) ==>
              AccountDisplay(accounts, email) == email
    ensures forall i :: 0 <= i < |accounts| && accounts[i].email == email &&
                        (forall j :: 0 <= j < i ==> accounts[j].email != email) ==>
              AccountDisplay(accounts, email) == DisplayName(accounts[i])
  {
    forall i | 0 <= i < |accounts| && accounts[i].email == email &&
               (forall j :: 0 <= j < i ==> accounts[j].email != email)
      ensures AccountDisplay(accounts, email) == DisplayName(accounts[i])
    {
      assert AccountHasEmail(email)(accounts[i]);
    }
  }

  /** Saving an edited employee replaces every employee with its id, in place.
      This is the contract of `Lists.Map` read at `ReplacingEmployee`. */
  lemma ReplaceEmployeeSpec(emps: seq<Employee>, e: Employee)
    ensures |Map(emps, ReplacingEmployee(e.id, e))| == |emps|
    ensures forall i :: 0 <= i < |emps| ==>
              Map(emps, ReplacingEmployee(e.id, e))[i] == if emps[i].id == e.id then e else emps[i]
  {
  }

  /** A transfer moves the employees with the selected id to the new department and
      leaves every other employee as it was. This is the contract of `Lists.Map` read at `ReplacingEmployee`. */
  lemma TransferMovesOnlyThatEmployee(emps: seq<Employee>, selected: Employee, newDepartment: string)
    ensures var moved := Map(emps, ReplacingEmployee(selected.id, selected.(department := newDepartment)));
            && |moved| == |emps|
            && (forall i :: 0 <= i < |emps| && emps[i].id == selected.id ==>
                  moved[i].department == newDepartment && moved[i].id == selected.id)
            && (forall i :: 0 <= i < |emps| && emps[i].id != selected.id ==> moved[i] == emps[i])
  {
  }

  /** A status change touches only the status of the transfers with that id, so
      identifiers, and with them sequential numbering, are kept. */
  lemma StatusChangeKeepsTransfers(ts: seq<TransferRecord>, id: string, status: string)
    ensures var r := Map(ts, WithTransferStatus(id, status));
            && |r| == |ts|
            && (forall i :: 0 <= i < |ts| ==> r[i] == (if ts[i].id == id then ts[i].(status := status) else ts[i]))
            && (forall i :: 0 <= i < |ts| ==> r[i].id == ts[i].id)
    ensures SequentialTransferIds(ts) ==> SequentialTransferIds(Map(ts, WithTransferStatus(id, status)))
  {
  }

  /** The record handleTransfer writes. */
  function NewTransfer(transfers: seq<TransferRecord>, selected: Employee, newDepartment: string, today: string): TransferRecord
  {
    TransferRecord(NextTransferId(transfers), selected.id, selected.department, newDepartment, today, Pending)
  }

  class EmployeesPage {
    const store: Store
    var employees: seq<Employee>
    var departments: seq<Department>
    var transfers: seq<TransferRecord>
    var requests: seq<Request>
    var selectedEmployee: Option<Employee>
    var selectedRequest: Option<Request>
    var mode: Mode

    /** The page's copies agree with storage. */
    ghost predicate Synced()
      reads this, store
    {
      && employees == store.GetEmployees()
      && transfers == store.GetTransfers()
      && requests == store.GetRequests()
    }

    /** The identifier disciplines the count and last-element policies rely on. */
    ghost predicate IdsSound()
      reads this
    {
      SequentialTransferIds(transfers) && IncreasingRequestIds(requests)
    }

    constructor (store: Store)
      ensures this.store == store
      ensures employees == [] && transfers == [] && requests == []
      ensures departments == store.GetDepartments()
      ensures selectedEmployee == None && selectedRequest == None && mode == Add
    {
      this.store := store;
      employees, transfers, requests := [], [], [];
      departments := store.GetDepartments();
      selectedEmployee, selectedRequest, mode := None, None, Add;
    }

    /** The mount effect: seed storage where it is empty, then copy it. On a fresh
        storage the seeds satisfy both identifier disciplines. */
    method Load()
      modifies this`employees, this`departments, this`transfers, this`requests, store
      ensures store.employees == if old(store.employees).None? then Some(InitialEmployees) else old(store.employees)
      ensures store.departments == if old(store.departments).None? then Some(InitialDepartments) else old(store.departments)
      ensures store.transfers == if old(store.transfers).None? then Some([]) else old(store.transfers)
      ensures store.accounts == if old(store.accounts).None? then Some(InitialAccounts) else old(store.accounts)
      ensures store.requests == if old(store.requests).None? then Some(InitialRequests) else old(store.requests)
      ensures Synced() && departments == store.GetDepartments()
      ensures old(store.transfers).None? && old(store.requests).None? ==> IdsSound()
    {
      store.InitializeStorage();
      employees := store.GetEmployees();
      departments := store.GetDepartments();
      transfers := store.GetTransfers();
      requests := store.GetRequests();
      InitialRequestsIncreasing();
    }

    /** getNextEmployeeId */
    function GetNextEmployeeId(): string
      reads this
    {
      NextEmployeeId(employees)
    }

    method HandleAddClick()
      modifies this`selectedEmployee, this`mode
      ensures selectedEmployee == None && mode == Add
    {
      selectedEmployee, mode := None, Add;
    }

    method HandleEditClick(e: Employee)
      modifies this`selectedEmployee, this`mode
      ensures selectedEmployee == Some(e) && mode == Edit
    {
      selectedEmployee, mode := Some(e), Edit;
    }

    /** The Transfer, Workflows and Requests buttons select their row. */
    method SelectEmployee(e: Employee)
      modifies this`selectedEmployee
      ensures selectedEmployee == Some(e)
    {
      selectedEmployee := Some(e);
    }

    /** Closing any of the page's dialogs forgets the selected employee (and
        nothing else: a selected request stays selected). */
    method CloseDialog()
      modifies this`selectedEmployee
      ensures selectedEmployee == None
    {
      selectedEmployee := None;
    }

    /** handleEditRequest: the request history's edit button. */
    method HandleEditRequest(r: Request)
      modifies this`selectedRequest, this`mode
      ensures selectedRequest == Some(r) && mode == Edit
    {
      selectedRequest, mode := Some(r), Edit;
    }

    /** The `request` prop of the request dialog: the selected request, else a new
        Equipment request for the selected employee carrying the store's next
        request id. */
    function RequestDialogProp(today: string): Request
      reads this, store
    {
      match selectedRequest
      case Some(r) => r
      case None =>
        Request(store.GetNextRequestId(), "Equipment",
                (if selectedEmployee.Some? then selectedEmployee.value.id else ""),
                "", today, [Item("", 1)], Pending)
    }

    /** The history dialog's New Request button as written: it switches to add mode
        but leaves an earlier selected request in place. */
    method OnNewRequestAsWritten(e: Employee)
      modifies this`selectedEmployee, this`mode
      ensures selectedEmployee == Some(e) && mode == Add
    {
      selectedEmployee, mode := Some(e), Add;
    }

    /** The New Request button with the selection cleared: the dialog opens on a
        new request for that employee, numbered with the store's next request id. */
    method OnNewRequest(e: Employee, today: string)
      modifies this`selectedEmployee, this`selectedRequest, this`mode
      ensures selectedEmployee == Some(e) && selectedRequest == None && mode == Add
      ensures RequestDialogProp(today) ==
                Request(store.GetNextRequestId(), "Equipment", e.id, "", today, [Item("", 1)], Pending)
      ensures RequestDialogProp(today).id == store.GetNextRequestId()
    {
      selectedEmployee, selectedRequest, mode := Some(e), None, Add;
    }

    /** handleDeleteClick: every employee with that id goes, the others keep their order. */
    method HandleDeleteClick(e: Employee)
      modifies this`employees, store`employees
      ensures employees == Filter(old(employees), EmployeeOtherId(e.id))
      ensures store.employees == Some(employees)
      ensures old(Synced()) ==> Synced()
    {
      var updated := Filter(employees, EmployeeOtherId(e.id));
      employees := updated;
      store.SetEmployees(updated);
    }

    /** handleSaveEmployee: append in add mode, replace by id in edit mode. */
    method HandleSaveEmployee(e: Employee)
      modifies this`employees, store`employees
      ensures mode == Add ==> employees == old(employees) + [e]
      ensures mode == Edit ==> employees == Map(old(employees), ReplacingEmployee(e.id, e))
      ensures store.employees == Some(employees)
      ensures old(Synced()) ==> Synced()
    {
      var updated: seq<Employee>;
      if mode == Add {
        updated := employees + [e];
      } else {
        updated := Map(employees, ReplacingEmployee(e.id, e));
      }
      employees := updated;
      store.SetEmployees(updated);
    }

    /** handleTransfer: with an employee selected, first store a pending transfer
        numbered one past the page's transfer count, then move the employee. With
        sequential transfer numbers the new number is unused and stays sequential. */
    method HandleTransfer(newDepartment: string, today: string)
      modifies this`transfers, this`employees, store`transfers, store`employees
      ensures match old(selectedEmployee)
              case None =>
                && transfers == old(transfers) && employees == old(employees)
                && store.transfers == old(store.transfers) && store.employees == old(store.employees)
              case Some(se) =>
                var t := NewTransfer(old(transfers), se, newDepartment, today);
                && store.transfers.Some? && store.GetTransfers() == old(store.GetTransfers()) + [t]
                && transfers == old(transfers) + [t]
                && employees == Map(old(employees), ReplacingEmployee(se.id, se.(department := newDepartment)))
                && store.employees == Some(employees)
      ensures old(Synced()) ==> Synced()
      ensures old(SequentialTransferIds(transfers)) ==> SequentialTransferIds(transfers)
      ensures old(selectedEmployee).Some? && old(SequentialTransferIds(transfers)) ==>
                forall i :: 0 <= i < |old(transfers)| ==> old(transfers)[i].id != transfers[|transfers| - 1].id
    {
      if selectedEmployee.Some? {
        var se := selectedEmployee.value;
        var t := NewTransfer(transfers, se, newDepartment, today);
        if SequentialTransferIds(transfers) {
          NextTransferIdFresh(transfers, t);
        }
        store.AddTransfer(t);
        transfers := transfers + [t];
        var updated := Map(employees, ReplacingEmployee(se.id, se.(department := newDepartment)));
        employees := updated;
        store.SetEmployees(updated);
      }
    }

    /** handleTransferStatusChange: only the status of the transfers with that id
        changes; employees are left where they are. */
    method HandleTransferStatusChange(transferId: string, newStatus: string)
      modifies this`transfers, store`transfers
      ensures transfers == Map(old(transfers), WithTransferStatus(transferId, newStatus))
      ensures store.transfers == Some(transfers)
      ensures old(Synced()) ==> Synced()
      ensures old(SequentialTransferIds(transfers)) ==> SequentialTransferIds(transfers)
    {
      StatusChangeKeepsTransfers(transfers, transferId, newStatus);
      var updated := Map(transfers, WithTransferStatus(transferId, newStatus));
      transfers := updated;
      store.SetTransfers(updated);
    }

    /** handleDeleteRequest: delete in storage, then reread. */
    method HandleDeleteRequest(r: Request)
      modifies this`requests, store`requests
      ensures requests == Filter(old(store.GetRequests()), RequestOtherId(r.id))
      ensures store.requests == Some(requests)
      ensures old(Synced()) ==> Synced()
      ensures old(IncreasingRequestIds(store.GetRequests())) ==> IncreasingRequestIds(requests)
    {
      if IncreasingRequestIds(store.GetRequests()) {
        FilterKeepsIncreasing(store.GetRequests(), RequestOtherId(r.id));
      }
      store.DeleteRequest(r.id);
      requests := store.GetRequests();
    }

    /** handleSaveRequest: add or update in storage, then reread. A new request that
        carries the store's next request id keeps the request numbers rising, and so
        does an update, which keeps the id in place. */
    method HandleSaveRequest(r: Request)
      modifies this`requests, this`selectedRequest, store`requests
      ensures mode == Add ==> store.requests.Some? && store.GetRequests() == old(store.GetRequests()) + [r]
      ensures mode == Edit ==>
                match FindFirst(old(store.GetRequests()), RequestHasId(r.id))
                case Some(k) => store.requests == Some(old(store.GetRequests())[k := r])
                case None => store.requests == old(store.requests)
      ensures requests == store.GetRequests() && selectedRequest == None
      ensures old(Synced()) ==> Synced()
      ensures mode == Add && r.id == old(store.GetNextRequestId()) && old(IncreasingRequestIds(store.GetRequests())) ==>
                IncreasingRequestIds(requests)
      ensures mode == Edit && old(IncreasingRequestIds(store.GetRequests())) ==> IncreasingRequestIds(requests)
    {
      var before := store.GetRequests();
      if mode == Add {
        if r.id == NextRequestId(before) && IncreasingRequestIds(before) {
          NextRequestIdFresh(before, r);
        }
        store.AddRequest(r);
      } else {
        var k := FindFirst(before, RequestHasId(r.id));
        if k.Some? && IncreasingRequestIds(before) {
          ReplaceKeepsIncreasing(before, k.value, r);
        }
        store.UpdateRequest(r);
      }
      requests := store.GetRequests();
      selectedRequest := None;
    }
  }

  /** Edit a stored request from the history, cancel, then press New Request: the
      dialog opens in add mode on the old request, and saving it appends a second
      request with the same id. */
  method StaleRequestOnNewRequest(store: Store, r: Request, e: Employee, today: string)
    returns (page: EmployeesPage)
    ensures page.store == store && page.mode == Add
    ensures page.RequestDialogProp(today) == r
  {
    page := new EmployeesPage(store);
    page.HandleEditRequest(r);
    page.CloseDialog();
    page.OnNewRequestAsWritten(e);
  }

  /** A request whose id is already stored breaks the rising numbering when it is
      appended again. */
  lemma DuplicateIdBreaksIncreasing(rs: seq<Request>, r: Request, k: nat)
    requires k < |rs| && rs[k].id == r.id
    ensures !IncreasingRequestIds(rs + [r])
  {
    var rs' := rs + [r];
    assert rs'[k] == rs[k] && rs'[|rs|] == r;
  }
}
