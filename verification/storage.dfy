/** src/services/storageService.ts: five collections kept in localStorage under the
    keys employees, departments, transfers, accounts and requests. Each key holds a
    JSON array or is absent; reading an absent key gives the empty array. The JSON
    encoding is the identity here, so a key is modelled by the array it stores. */
module Storage {
  import opened Lists
  import opened Entities
  import opened Ids

  // ---------------------------------------------------------------------------
  // Derived views, computed afresh from the stored arrays

  /** `new Set(employees.map(emp => emp.account))` */
  function UsedEmails(emps: seq<Employee>): set<string>
  {
    set e | e in emps :: e.account
  }

  function Unassigned(emps: seq<Employee>): Account -> bool
  {
    (a: Account) => a.email !in UsedEmails(emps)
  }

  /** getAvailableAccounts: the accounts no employee refers to. */
  function AvailableAccounts(accounts: seq<Account>, emps: seq<Employee>): seq<Account>
  {
    Filter(accounts, Unassigned(emps))
  }

  /** The available accounts are exactly the accounts whose email is no employee's
      `account`, kept in their original order. */
  lemma AvailableAccountsExact(accounts: seq<Account>, emps: seq<Employee>)
    ensures forall i :: 0 <= i < |accounts| ==>
              (accounts[i] in AvailableAccounts(accounts, emps) <==>
               forall j :: 0 <= j < |emps| ==> emps[j].account != accounts[i].email)
    ensures forall a :: a in AvailableAccounts(accounts, emps) ==>
              a in accounts && forall j :: 0 <= j < |emps| ==> emps[j].account != a.email
    ensures IsSubsequence(AvailableAccounts(accounts, emps), accounts)
  {
    FilterIsSubsequence(accounts, Unassigned(emps));
    var r := AvailableAccounts(accounts, emps);
    forall a | a in r
      ensures a in accounts && forall j :: 0 <= j < |emps| ==> emps[j].account != a.email
    {
      var k :| 0 <= k < |r| && r[k] == a;
      assert forall j :: 0 <= j < |emps| ==> emps[j] in emps;
    }
    forall i | 0 <= i < |accounts| && accounts[i] !in r
      ensures exists j :: 0 <= j < |emps| && emps[j].account == accounts[i].email
    {
      assert accounts[i].email in UsedEmails(emps);
    }
  }

  /** getDepartmentEmployeeCount: `employees.filter(emp => emp.department === name).length` */
  function DepartmentEmployeeCount(emps: seq<Employee>, name: string): nat
  {
    |Filter(emps, InDepartment(name))|
  }

  lemma CountAppend(emps: seq<Employee>, e: Employee, name: string)
    ensures DepartmentEmployeeCount(emps + [e], name) ==
            DepartmentEmployeeCount(emps, name) + (if e.department == name then 1 else 0)
  {
    FilterAppend(emps, [e], InDepartment(name));
    assert [e][1..] == [];
  }

  /** The departments that have employees, in order of first appearance. */
  function DistinctDepartments(emps: seq<Employee>): (ds: seq<string>)
    ensures forall i, j :: 0 <= i < j < |ds| ==> ds[i] != ds[j]
    ensures forall d :: d in ds <==> exists i :: 0 <= i < |emps| && emps[i].department == d
  {
    if emps == [] then []
    else
      var prefix := emps[..|emps| - 1];
      var ds := DistinctDepartments(prefix);
      var d := emps[|emps| - 1].department;
      assert forall i :: 0 <= i < |prefix| ==> prefix[i] == emps[i];
      if d in ds then ds else ds + [d]
  }

  /** A department has employees exactly when it is one of the distinct departments. */
  lemma {:induction false} CountPositiveIffPresent(emps: seq<Employee>, name: string)
    ensures DepartmentEmployeeCount(emps, name) > 0 <==> name in DistinctDepartments(emps)
  {
    if emps != [] {
      var prefix := emps[..|emps| - 1];
      assert emps == prefix + [emps[|emps| - 1]];
      CountPositiveIffPresent(prefix, name);
      CountAppend(prefix, emps[|emps| - 1], name);
    }
  }

  /** Sum of the counts of the departments `ds`. */
  function SumOfCounts(emps: seq<Employee>, ds: seq<string>): nat
  {
    if ds == [] then 0 else DepartmentEmployeeCount(emps, ds[0]) + SumOfCounts(emps, ds[1..])
  }

  lemma {:induction false} SumOfCountsAppendEmployee(emps: seq<Employee>, e: Employee, ds: seq<string>)
    requires forall i, j :: 0 <= i < j < |ds| ==> ds[i] != ds[j]
    ensures SumOfCounts(emps + [e], ds) == SumOfCounts(emps, ds) + (if e.department in ds then 1 else 0)
  {
    if ds != [] {
      DistinctTail(ds);
      SumOfCountsAppendEmployee(emps, e, ds[1..]);
      CountAppend(emps, e, ds[0]);
      assert e.department in ds <==> e.department == ds[0] || e.department in ds[1..] by {
        assert ds == [ds[0]] + ds[1..];
      }
    }
  }

  /** The tail of a list without repeats has none, and lacks the head. */
  lemma DistinctTail(ds: seq<string>)
    requires ds != []
    requires forall i, j :: 0 <= i < j < |ds| ==> ds[i] != ds[j]
    ensures forall i, j :: 0 <= i < j < |ds[1..]| ==> ds[1..][i] != ds[1..][j]
    ensures ds[0] !in ds[1..]
  {
    assert forall i :: 0 <= i < |ds[1..]| ==> ds[1..][i] == ds[i + 1];
  }

  lemma {:induction false} SumOfCountsAppendDepartment(emps: seq<Employee>, ds: seq<string>, d: string)
    ensures SumOfCounts(emps, ds + [d]) == SumOfCounts(emps, ds) + DepartmentEmployeeCount(emps, d)
  {
    if ds != [] {
      assert (ds + [d])[1..] == ds[1..] + [d];
      SumOfCountsAppendDepartment(emps, ds[1..], d);
    } else {
      assert [d][1..] == [];
    }
  }

  /** Every employee is counted once: the per-department counts add up to the
      number of employees. */
  lemma {:induction false} CountsSumToTotal(emps: seq<Employee>)
    ensures SumOfCounts(emps, DistinctDepartments(emps)) == |emps|
  {
    if emps != [] {
      var prefix := emps[..|emps| - 1];
      var e := emps[|emps| - 1];
      assert emps == prefix + [e];
      var ds := DistinctDepartments(prefix);
      CountsSumToTotal(prefix);
      SumOfCountsAppendEmployee(prefix, e, ds);
      if e.department !in ds {
        SumOfCountsAppendDepartment(emps, ds, e.department);
        CountPositiveIffPresent(prefix, e.department);
        CountAppend(prefix, e, e.department);
      }
    }
  }

  /** Sum of the values a count map gives the departments `ds`. */
  function SumOver(counts: map<string, nat>, ds: seq<string>): nat
    requires forall d :: d in ds ==> d in counts
  {
    if ds == [] then 0 else counts[ds[0]] + SumOver(counts, ds[1..])
  }

  lemma {:induction false} SumOverMatchesCounts(counts: map<string, nat>, emps: seq<Employee>, ds: seq<string>)
    requires forall d :: d in ds ==> d in counts && counts[d] == DepartmentEmployeeCount(emps, d)
    ensures SumOver(counts, ds) == SumOfCounts(emps, ds)
  {
    if ds != [] {
      SumOverMatchesCounts(counts, emps, ds[1..]);
    }
  }

  /** `counts` holds, for exactly the departments in use, their employee counts. */
  ghost predicate CountsOf(counts: map<string, nat>, emps: seq<Employee>)
  {
    && (forall d :: d in counts <==> d in DistinctDepartments(emps))
    && (forall d :: d in counts ==> counts[d] == DepartmentEmployeeCount(emps, d))
  }

  /** `counts[dept] = (counts[dept] || 0) + 1` */
  function Tally(counts: map<string, nat>, dept: string): map<string, nat>
  {
    counts[dept := (if dept in counts then counts[dept] else 0) + 1]
  }

  lemma TallyCounts(counts: map<string, nat>, emps: seq<Employee>, e: Employee)
    requires CountsOf(counts, emps)
    ensures CountsOf(Tally(counts, e.department), emps + [e])
  {
    var emps' := emps + [e];
    assert emps'[..|emps'| - 1] == emps;
    forall d ensures DepartmentEmployeeCount(emps', d) ==
                     DepartmentEmployeeCount(emps, d) + (if e.department == d then 1 else 0)
    {
      CountAppend(emps, e, d);
    }
    CountPositiveIffPresent(emps, e.department);
  }

  /** A complete tally has no zero entry and adds up to the number of employees. */
  lemma CountsOfComplete(counts: map<string, nat>, emps: seq<Employee>)
    requires CountsOf(counts, emps)
    ensures forall d :: d in counts ==> counts[d] >= 1
    ensures SumOver(counts, DistinctDepartments(emps)) == |emps|
  {
    forall d | d in counts ensures counts[d] >= 1 {
      CountPositiveIffPresent(emps, d);
    }
    SumOverMatchesCounts(counts, emps, DistinctDepartments(emps));
    CountsSumToTotal(emps);
  }

  /** The seed requests REQ001, REQ002 carry rising numbers. */
  lemma InitialRequestsIncreasing()
    ensures IncreasingRequestIds(InitialRequests)
  {
    assert InitialRequests[0].id == "REQ" + "00" + [Text.DigitChar(1)];
    assert InitialRequests[1].id == "REQ" + "00" + [Text.DigitChar(2)];
    RequestSuffixOf(InitialRequests[0].id, 1);
    RequestSuffixOf(InitialRequests[1].id, 2);
  }

  /** updateRequest keeps the id at the replaced position, so rising numbers stay rising. */
  lemma ReplaceKeepsIncreasing(rs: seq<Request>, k: nat, r: Request)
    requires IncreasingRequestIds(rs)
    requires k < |rs| && rs[k].id == r.id
    ensures IncreasingRequestIds(rs[k := r])
  {
    assert forall i :: 0 <= i < |rs| ==> rs[k := r][i].id == rs[i].id;
  }

  // ---------------------------------------------------------------------------
  // The store

  class Store {
    // None: the key is absent from localStorage.
    var employees: Option<seq<Employee>>
    var departments: Option<seq<Department>>
    var transfers: Option<seq<TransferRecord>>
    var accounts: Option<seq<Account>>
    var requests: Option<seq<Request>>

    /** An empty localStorage. */
    constructor ()
      ensures employees.None? && departments.None? && transfers.None?
      ensures accounts.None? && requests.None?
    {
      employees, departments, transfers, accounts, requests := None, None, None, None, None;
    }

    /** initializeStorage: every absent key gets its seed collection; a key that is
        present keeps what it holds. */
    method InitializeStorage()
      modifies this
      ensures employees == if old(employees).None? then Some(InitialEmployees) else old(employees)
      ensures departments == if old(departments).None? then Some(InitialDepartments) else old(departments)
      ensures transfers == if old(transfers).None? then Some([]) else old(transfers)
      ensures accounts == if old(accounts).None? then Some(InitialAccounts) else old(accounts)
      ensures requests == if old(requests).None? then Some(InitialRequests) else old(requests)
    {
      if employees.None? { employees := Some(InitialEmployees); }
      if departments.None? { departments := Some(InitialDepartments); }
      if transfers.None? { transfers := Some([]); }
      if accounts.None? { accounts := Some(InitialAccounts); }
      if requests.None? { requests := Some(InitialRequests); }
    }

    function GetEmployees(): seq<Employee> reads this { employees.GetOr([]) }

    function GetDepartments(): seq<Department> reads this { departments.GetOr([]) }

    function GetTransfers(): seq<TransferRecord> reads this { transfers.GetOr([]) }

    function GetAccounts(): seq<Account> reads this { accounts.GetOr([]) }

    function GetRequests(): seq<Request> reads this { requests.GetOr([]) }

    method SetEmployees(s: seq<Employee>)
      modifies this`employees
      ensures employees == Some(s) && GetEmployees() == s
    {
      employees := Some(s);
    }

    method SetDepartments(s: seq<Department>)
      modifies this`departments
      ensures departments == Some(s) && GetDepartments() == s
    {
      departments := Some(s);
    }

    method SetTransfers(s: seq<TransferRecord>)
      modifies this`transfers
      ensures transfers == Some(s) && GetTransfers() == s
    {
      transfers := Some(s);
    }

    method SetAccounts(s: seq<Account>)
      modifies this`accounts
      ensures accounts == Some(s) && GetAccounts() == s
    {
      accounts := Some(s);
    }

    method SetRequests(s: seq<Request>)
      modifies this`requests
      ensures requests == Some(s) && GetRequests() == s
    {
      requests := Some(s);
    }

    function GetAvailableAccounts(): seq<Account>
      reads this
    {
      AvailableAccounts(GetAccounts(), GetEmployees())
    }

    /** addTransfer: appended at the end; the earlier transfers are untouched. */
    method AddTransfer(t: TransferRecord)
      modifies this`transfers
      ensures transfers.Some? && GetTransfers() == old(GetTransfers()) + [t]
    {
      var ts := GetTransfers();
      ts := ts + [t];
      SetTransfers(ts);
    }

    function GetDepartmentEmployeeCount(name: string): nat
      reads this
    {
      DepartmentEmployeeCount(GetEmployees(), name)
    }

    /** getAllDepartmentCounts: one entry per department that has employees, holding
        its employee count (so at least 1); the entries add up to the number of
        employees. */
    method GetAllDepartmentCounts() returns (counts: map<string, nat>)
      ensures CountsOf(counts, GetEmployees())
      ensures forall d :: d in counts ==> counts[d] >= 1
      ensures SumOver(counts, DistinctDepartments(GetEmployees())) == |GetEmployees()|
    {
      var emps := GetEmployees();
      counts := map[];
      var i := 0;
      while i < |emps|
        invariant 0 <= i <= |emps|
        invariant CountsOf(counts, emps[..i])
      {
        var emp := emps[i];
        assert emps[..i + 1] == emps[..i] + [emp];
        TallyCounts(counts, emps[..i], emp);
        counts := Tally(counts, emp.department);
        i := i + 1;
      }
      assert emps[..i] == emps;
      CountsOfComplete(counts, emps);
    }

    /** addRequest: appended at the end; the earlier requests are untouched. */
    method AddRequest(r: Request)
      modifies this`requests
      ensures requests.Some? && GetRequests() == old(GetRequests()) + [r]
    {
      var rs := GetRequests();
      rs := rs + [r];
      SetRequests(rs);
    }

    /** updateRequest: the first request with the same id is replaced; with no such
        request nothing is written (an absent key stays absent). */
    method UpdateRequest(r: Request)
      modifies this`requests
      ensures match FindFirst(old(GetRequests()), RequestHasId(r.id))
              case Some(k) => requests == Some(old(GetRequests())[k := r])
              case None => requests == old(requests)
    {
      var rs := GetRequests();
      var index := FindFirst(rs, RequestHasId(r.id));
      if index.Some? {
        rs := rs[index.value := r];
        SetRequests(rs);
      }
    }

    /** deleteRequest: every request with that id is dropped, the others keep their order. */
    method DeleteRequest(id: string)
      modifies this`requests
      ensures requests == Some(Filter(old(GetRequests()), RequestOtherId(id)))
    {
      var rs := GetRequests();
      var filtered := Filter(rs, RequestOtherId(id));
      SetRequests(filtered);
    }

    function GetNextRequestId(): string
      reads this
    {
      NextRequestId(GetRequests())
    }
  }

  /** What deleteRequest leaves: no request with the id, every other request in
      its original order and as often as before, and the list itself when the id
      is absent. */
  lemma DeleteRequestSpec(rs: seq<Request>, id: string)
    ensures forall k :: 0 <= k < |Filter(rs, RequestOtherId(id))| ==> Filter(rs, RequestOtherId(id))[k].id != id
    ensures forall i :: 0 <= i < |rs| && rs[i].id != id ==> rs[i] in Filter(rs, RequestOtherId(id))
    ensures IsSubsequence(Filter(rs, RequestOtherId(id)), rs)
    ensures (forall i :: 0 <= i < |rs| ==> rs[i].id != id) ==> Filter(rs, RequestOtherId(id)) == rs
    ensures forall x: Request ::
      multiset(Filter(rs, RequestOtherId(id)))[x] == if x.id != id then multiset(rs)[x] else 0
  {
    FilterIsSubsequence(rs, RequestOtherId(id));
    FilterMultiset(rs, RequestOtherId(id));
    if forall i :: 0 <= i < |rs| ==> rs[i].id != id {
      FilterKeepsAll(rs, RequestOtherId(id));
    }
  }

  /** What updateRequest leaves: same length, the replaced position holds the new
      request, which is the first with its id, and every other position is unchanged.
      This is the contract of `Lists.FindFirst` read at `RequestHasId`, plus sequence update. */
  lemma UpdateRequestSpec(rs: seq<Request>, r: Request)
    ensures match FindFirst(rs, RequestHasId(r.id))
            case Some(k) =>
              && k < |rs| && rs[k].id == r.id
              && (forall j :: 0 <= j < k ==> rs[j].id != r.id)
              && |rs[k := r]| == |rs|
              && (forall j :: 0 <= j < |rs| && j != k ==> rs[k := r][j] == rs[j])
            case None => forall j :: 0 <= j < |rs| ==> rs[j].id != r.id
  {
  }
}
