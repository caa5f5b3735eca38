/** What the read-only views compute from the stored records: the item summary and
    status colour of a request (src/pages/Requests.tsx,
    src/components/EmployeeRequestsDialog.tsx), an employee's request history, and
    the merged, date-sorted workflow history (src/components/WorkflowDialog.tsx).
    Dates are strings; `new Date(s).getTime()` is the parameter `dateKey`. */
module Views {
  import opened Lists
  import opened Text
  import opened Entities
  import opened Sorting

  // ---------------------------------------------------------------------------
  // Items and status chips

  /** `${item.name} x ${item.quantity}` */
  function FormatItem(item: Item): string
  {
    item.name + " x " + IntToString(item.quantity)
  }

  /** `items.map(...).join(', ')` */
  function FormatItems(items: seq<Item>): string
  {
    Join(Map(items, FormatItem), ", ")
  }

  /** The summary lists the items in order, separated by ", "; no items give "". */
  lemma {:induction false} FormatItemsSpec(a: seq<Item>, b: seq<Item>)
    ensures FormatItems([]) == ""
    ensures |a| == 1 ==> FormatItems(a) == a[0].name + " x " + IntToString(a[0].quantity)
    ensures a != [] && b != [] ==> FormatItems(a + b) == FormatItems(a) + ", " + FormatItems(b)
  {
    if a != [] && b != [] {
      assert Map(a + b, FormatItem) == Map(a, FormatItem) + Map(b, FormatItem);
      JoinAppend(Map(a, FormatItem), Map(b, FormatItem), ", ");
    }
  }

  datatype Color = Success | Error | Warning

  /** getStatusColor of the request tables. */
  function RequestStatusColor(status: string): (c: Color)
    ensures c == Success <==> status == Approved
    ensures c == Error <==> status == Disapproved
  {
    if status == Approved then Success
    else if status == Disapproved then Error
    else Warning
  }

  /** getStatusColor of the workflow table, which also shows "Completed" as success. */
  function WorkflowStatusColor(status: string): (c: Color)
    ensures c == Success <==> status == Approved || status == "Completed"
    ensures c == Error <==> status == Disapproved
  {
    if status == Approved || status == "Completed" then Success
    else if status == Disapproved then Error
    else Warning
  }

  /** The two colourings differ on "Completed" alone; it follows from the two
      definitions by cases, with no generic lemma involved. */
  lemma StatusColorsAgree(status: string)
    ensures status != "Completed" ==> WorkflowStatusColor(status) == RequestStatusColor(status)
    ensures status == "Completed" ==> WorkflowStatusColor(status) == Success && RequestStatusColor(status) == Warning
  {
  }

  // ---------------------------------------------------------------------------
  // EmployeeRequestsDialog: an employee's requests, newest first

  function ByRequestDate(dateKey: string -> int): Request -> int
  {
    (r: Request) => dateKey(r.requestDate)
  }

  function EmployeeRequestRows(requests: seq<Request>, employeeId: string, dateKey: string -> int): seq<Request>
  {
    SortDesc(Filter(requests, OfEmployeeRequest(employeeId)), ByRequestDate(dateKey))
  }

  /** Edit and delete are offered for pending requests only. */
  predicate ActionsOffered(r: Request)
  {
    r.status == Pending
  }

  /** The history holds exactly the employee's requests (with multiplicity), newest
      first, and requests of the same date keep their stored order. */
  lemma EmployeeRequestRowsSpec(requests: seq<Request>, employeeId: string, dateKey: string -> int, k: int)
    ensures multiset(EmployeeRequestRows(requests, employeeId, dateKey)) ==
            multiset(Filter(requests, OfEmployeeRequest(employeeId)))
    ensures forall r :: r in EmployeeRequestRows(requests, employeeId, dateKey) ==>
              r in requests && r.employeeId == employeeId
    ensures forall i :: 0 <= i < |requests| && requests[i].employeeId == employeeId ==>
              requests[i] in EmployeeRequestRows(requests, employeeId, dateKey)
    ensures NonIncreasing(EmployeeRequestRows(requests, employeeId, dateKey), ByRequestDate(dateKey))
    ensures WithKey(EmployeeRequestRows(requests, employeeId, dateKey), ByRequestDate(dateKey), k) ==
            WithKey(Filter(requests, OfEmployeeRequest(employeeId)), ByRequestDate(dateKey), k)
  {
    var mine := Filter(requests, OfEmployeeRequest(employeeId));
    var rows := EmployeeRequestRows(requests, employeeId, dateKey);
    SortDescPermutes(mine, ByRequestDate(dateKey));
    SortDescOrdered(mine, ByRequestDate(dateKey));
    SortDescStable(mine, ByRequestDate(dateKey), k);
    forall r | r in rows ensures r in requests && r.employeeId == employeeId {
      assert r in multiset(mine);
      var m :| 0 <= m < |mine| && mine[m] == r;
    }
    forall i | 0 <= i < |requests| && requests[i].employeeId == employeeId
      ensures requests[i] in rows
    {
      assert requests[i] in multiset(mine);
    }
  }

  /** Edit and delete appear on a row of the history exactly when the row is a
      pending request of the employee, and each such request appears as often as
      it is stored. */
  lemma ActionsOfferedRows(requests: seq<Request>, employeeId: string, dateKey: string -> int)
    ensures forall r :: r in EmployeeRequestRows(requests, employeeId, dateKey) && ActionsOffered(r) <==>
              r in requests && r.employeeId == employeeId && r.status == Pending
    ensures forall r: Request :: r.employeeId == employeeId && r.status == Pending ==>
              multiset(EmployeeRequestRows(requests, employeeId, dateKey))[r] == multiset(requests)[r]
  {
    EmployeeRequestRowsSpec(requests, employeeId, dateKey, 0);
    FilterMultiset(requests, OfEmployeeRequest(employeeId));
    forall r | r in requests && r.employeeId == employeeId
      ensures r in EmployeeRequestRows(requests, employeeId, dateKey)
    {
      var i :| 0 <= i < |requests| && requests[i] == r;
    }
  }

  // ---------------------------------------------------------------------------
  // WorkflowDialog: onboarding, transfers and requests merged, newest first

  datatype WorkflowKind = Onboarding | TransferKind | RequestKind

  datatype WorkflowItem = WorkflowItem(
    id: string,
    kind: WorkflowKind,
    date: string,
    details: string,
    description: string,
    status: string)

  /** The onboarding row is dated `today` (the ISO date of the moment of rendering). */
  function OnboardingItem(department: string, today: string): WorkflowItem
  {
    WorkflowItem("onboarding", Onboarding, today, "OnBoarding on " + department, "", Approved)
  }

  /** `transfer.status || 'Pending'`: an empty status shows as Pending. */
  function TransferItem(t: TransferRecord): WorkflowItem
  {
    WorkflowItem(t.id, TransferKind, t.date,
                 "Employee Transferred From " + t.fromDepartment + " to " + t.toDepartment,
                 "", if t.status == "" then Pending else t.status)
  }

  function RequestItem(r: Request): WorkflowItem
  {
    WorkflowItem(r.id, RequestKind, r.requestDate,
                 "Requested " + r.requestType + ": " + FormatItems(r.items),
                 r.description, r.status)
  }

  /** The rows before sorting: onboarding, then the employee's transfers, then the
      employee's requests. */
  function UnsortedWorkflow(employeeId: string, transfers: seq<TransferRecord>, requests: seq<Request>,
                            department: string, today: string): seq<WorkflowItem>
  {
    [OnboardingItem(department, today)]
    + Map(Filter(transfers, OfEmployeeTransfer(employeeId)), TransferItem)
    + Map(Filter(requests, OfEmployeeRequest(employeeId)), RequestItem)
  }

  function ByDate(dateKey: string -> int): WorkflowItem -> int
  {
    (w: WorkflowItem) => dateKey(w.date)
  }

  function WorkflowItems(employeeId: string, transfers: seq<TransferRecord>, requests: seq<Request>,
                         department: string, today: string, dateKey: string -> int): seq<WorkflowItem>
  {
    SortDesc(UnsortedWorkflow(employeeId, transfers, requests, department, today), ByDate(dateKey))
  }

  /** The status selector is shown for transfer rows only. */
  predicate SelectorOffered(w: WorkflowItem)
  {
    w.kind == TransferKind
  }

  /** The history has one row per transfer and per request of the employee plus the
      onboarding row, so it is never empty and "No workflow history found" is never
      shown; its rows are those of the unsorted list, newest first, ties in the
      unsorted order. */
  lemma WorkflowItemsSpec(employeeId: string, transfers: seq<TransferRecord>, requests: seq<Request>,
                          department: string, today: string, dateKey: string -> int, k: int)
    ensures |WorkflowItems(employeeId, transfers, requests, department, today, dateKey)| ==
            1 + |Filter(transfers, OfEmployeeTransfer(employeeId))| + |Filter(requests, OfEmployeeRequest(employeeId))|
    ensures WorkflowItems(employeeId, transfers, requests, department, today, dateKey) != []
    ensures multiset(WorkflowItems(employeeId, transfers, requests, department, today, dateKey)) ==
            multiset(UnsortedWorkflow(employeeId, transfers, requests, department, today))
    ensures NonIncreasing(WorkflowItems(employeeId, transfers, requests, department, today, dateKey), ByDate(dateKey))
    ensures WithKey(WorkflowItems(employeeId, transfers, requests, department, today, dateKey), ByDate(dateKey), k) ==
            WithKey(UnsortedWorkflow(employeeId, transfers, requests, department, today), ByDate(dateKey), k)
  {
    var u := UnsortedWorkflow(employeeId, transfers, requests, department, today);
    SortDescPermutes(u, ByDate(dateKey));
    SortDescOrdered(u, ByDate(dateKey));
    SortDescStable(u, ByDate(dateKey), k);
  }

  /** Where a workflow row comes from: the onboarding row, a transfer of the
      employee, or a request of the employee. */
  ghost predicate RowOfEmployee(w: WorkflowItem, employeeId: string, transfers: seq<TransferRecord>,
                                requests: seq<Request>, department: string, today: string)
  {
    match w.kind
    case Onboarding => w == OnboardingItem(department, today)
    case TransferKind => exists t :: t in transfers && t.employeeId == employeeId && w == TransferItem(t)
    case RequestKind => exists r :: r in requests && r.employeeId == employeeId && w == RequestItem(r)
  }

  /** The images of the kept elements are exactly the elements of `Map(Filter(s, p), f)`. */
  lemma MapFilterMembers<T, U>(s: seq<T>, p: T -> bool, f: T -> U)
    ensures forall x :: x in Map(Filter(s, p), f) ==> exists y :: y in s && p(y) && x == f(y)
    ensures forall i :: 0 <= i < |s| && p(s[i]) ==> f(s[i]) in Map(Filter(s, p), f)
  {
    var kept := Filter(s, p);
    var m := Map(kept, f);
    forall x | x in m ensures exists y :: y in s && p(y) && x == f(y) {
      var k :| 0 <= k < |m| && m[k] == x;
      assert kept[k] in s && p(kept[k]);
    }
    forall i | 0 <= i < |s| && p(s[i]) ensures f(s[i]) in m {
      var k :| 0 <= k < |kept| && kept[k] == s[i];
      assert m[k] == f(s[i]);
    }
  }

  lemma UnsortedRowsComeFromEmployee(employeeId: string, transfers: seq<TransferRecord>, requests: seq<Request>,
                                     department: string, today: string)
    ensures forall w :: w in UnsortedWorkflow(employeeId, transfers, requests, department, today) ==>
              RowOfEmployee(w, employeeId, transfers, requests, department, today)
    ensures forall i :: 0 <= i < |transfers| && transfers[i].employeeId == employeeId ==>
              TransferItem(transfers[i]) in UnsortedWorkflow(employeeId, transfers, requests, department, today)
    ensures forall i :: 0 <= i < |requests| && requests[i].employeeId == employeeId ==>
              RequestItem(requests[i]) in UnsortedWorkflow(employeeId, transfers, requests, department, today)
  {
    var ts := Map(Filter(transfers, OfEmployeeTransfer(employeeId)), TransferItem);
    var rs := Map(Filter(requests, OfEmployeeRequest(employeeId)), RequestItem);
    MapFilterMembers(transfers, OfEmployeeTransfer(employeeId), TransferItem);
    MapFilterMembers(requests, OfEmployeeRequest(employeeId), RequestItem);
    forall x | x in ts ensures RowOfEmployee(x, employeeId, transfers, requests, department, today) {
      var t :| t in transfers && OfEmployeeTransfer(employeeId)(t) && x == TransferItem(t);
    }
    forall x | x in rs ensures RowOfEmployee(x, employeeId, transfers, requests, department, today) {
      var r :| r in requests && OfEmployeeRequest(employeeId)(r) && x == RequestItem(r);
    }
  }

  /** Every row of the history is the onboarding row or shows a transfer or a
      request of this employee, and every such transfer and request has its row. */
  lemma WorkflowRowsComeFromEmployee(employeeId: string, transfers: seq<TransferRecord>, requests: seq<Request>,
                                     department: string, today: string, dateKey: string -> int)
    ensures forall w :: w in WorkflowItems(employeeId, transfers, requests, department, today, dateKey) ==>
              RowOfEmployee(w, employeeId, transfers, requests, department, today)
    ensures forall i :: 0 <= i < |transfers| && transfers[i].employeeId == employeeId ==>
              TransferItem(transfers[i]) in WorkflowItems(employeeId, transfers, requests, department, today, dateKey)
    ensures forall i :: 0 <= i < |requests| && requests[i].employeeId == employeeId ==>
              RequestItem(requests[i]) in WorkflowItems(employeeId, transfers, requests, department, today, dateKey)
  {
    var u := UnsortedWorkflow(employeeId, transfers, requests, department, today);
    var w := WorkflowItems(employeeId, transfers, requests, department, today, dateKey);
    SortDescPermutes(u, ByDate(dateKey));
    UnsortedRowsComeFromEmployee(employeeId, transfers, requests, department, today);
    assert forall x :: x in w <==> x in u by {
      forall x ensures x in w <==> x in u {
        assert x in w <==> x in multiset(w);
        assert x in u <==> x in multiset(u);
      }
    }
  }

  lemma WithKeyHead<T>(s: seq<T>, key: T -> int)
    requires s != []
    ensures WithKey(s, key, key(s[0])) != [] && WithKey(s, key, key(s[0]))[0] == s[0]
  {
  }

  /** Because the onboarding row is dated today and comes first before sorting, it
      heads the history whenever no transfer or request is dated later than today. */
  lemma OnboardingFirstWhenLatest(employeeId: string, transfers: seq<TransferRecord>, requests: seq<Request>,
                                  department: string, today: string, dateKey: string -> int)
    requires forall t :: t in transfers ==> dateKey(t.date) <= dateKey(today)
    requires forall r :: r in requests ==> dateKey(r.requestDate) <= dateKey(today)
    ensures WorkflowItems(employeeId, transfers, requests, department, today, dateKey)[0] ==
            OnboardingItem(department, today)
  {
    var key := ByDate(dateKey);
    var onb := OnboardingItem(department, today);
    var u := UnsortedWorkflow(employeeId, transfers, requests, department, today);
    var w := WorkflowItems(employeeId, transfers, requests, department, today, dateKey);
    WorkflowItemsSpec(employeeId, transfers, requests, department, today, dateKey, key(onb));
    WorkflowRowsComeFromEmployee(employeeId, transfers, requests, department, today, dateKey);
    assert w[0] in w;
    assert key(w[0]) == key(onb);
    WithKeyHead(w, key);
    WithKeyHead(u, key);
  }

  /** With a transfer dated before today and a request dated before the transfer,
      the history reads onboarding, transfer, request. */
  lemma WorkflowOrderExample(employeeId: string, t: TransferRecord, r: Request,
                             department: string, today: string, dateKey: string -> int)
    requires t.employeeId == employeeId && r.employeeId == employeeId
    requires dateKey(today) > dateKey(t.date) > dateKey(r.requestDate)
    ensures WorkflowItems(employeeId, [t], [r], department, today, dateKey) ==
            [OnboardingItem(department, today), TransferItem(t), RequestItem(r)]
  {
    assert Filter([t], OfEmployeeTransfer(employeeId)) == [t];
    assert Filter([r], OfEmployeeRequest(employeeId)) == [r];
    var key := ByDate(dateKey);
    var o, ti, ri := OnboardingItem(department, today), TransferItem(t), RequestItem(r);
    var u := UnsortedWorkflow(employeeId, [t], [r], department, today);
    assert u == [o, ti, ri];
    assert SortDesc([ri], key) == [ri] by { assert [ri][1..] == []; }
    assert SortDesc([ti, ri], key) == [ti, ri] by { assert [ti, ri][1..] == [ri]; }
    assert SortDesc(u, key) == [o, ti, ri] by { assert u[1..] == [ti, ri]; }
  }

  /** The status selector appears on a row of the history exactly when the row
      shows a transfer of the employee, and every such transfer has a row with it. */
  lemma SelectorOfferedRows(employeeId: string, transfers: seq<TransferRecord>, requests: seq<Request>,
                            department: string, today: string, dateKey: string -> int)
    ensures forall w :: w in WorkflowItems(employeeId, transfers, requests, department, today, dateKey) ==>
              (SelectorOffered(w) <==>
                 exists t :: t in transfers && t.employeeId == employeeId && w == TransferItem(t))
    ensures forall i :: 0 <= i < |transfers| && transfers[i].employeeId == employeeId ==>
              TransferItem(transfers[i]) in WorkflowItems(employeeId, transfers, requests, department, today, dateKey)
              && SelectorOffered(TransferItem(transfers[i]))
  {
    WorkflowRowsComeFromEmployee(employeeId, transfers, requests, department, today, dateKey);
  }
}
