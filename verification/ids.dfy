/** The three identifier policies of the application, side by side.
    An identifier is a three-letter prefix followed by a number written with at
    least three digits (`String(n).padStart(3, '0')`).
    - employees: one more than the largest suffix in the list (src/pages/Employees.tsx);
    - requests: one more than the suffix of the LAST element (src/services/storageService.ts);
    - transfers: one more than the number of transfers (src/pages/Employees.tsx). */
module Ids {
  import opened Lists
  import opened Text
  import opened Entities

  /** `${prefix}${String(n).padStart(3, '0')}` */
  function Format(prefix: string, n: nat): string
  {
    prefix + PadStart(NatToString(n), 3, '0')
  }

  /** `parseInt(id.replace('EMP', ''))`; None stands for NaN. */
  function EmployeeSuffix(id: string): Option<nat>
  {
    ParseInt(RemoveFirst(id, "EMP"))
  }

  /** `parseInt(id.slice(3))`; None stands for NaN. */
  function RequestSuffix(id: string): Option<nat>
  {
    ParseInt(SliceFrom(id, 3))
  }

  /** Reading the number back from a formatted identifier gives the number. */
  lemma FormatParse(prefix: string, n: nat)
    ensures ParseInt(Format(prefix, n)[|prefix|..]) == Some(n)
  {
    assert Format(prefix, n)[|prefix|..] == PadStart(NatToString(n), 3, '0');
    ParseIntOfPadded(n, 3);
  }

  lemma FormatInjective(prefix: string, a: nat, b: nat)
    requires Format(prefix, a) == Format(prefix, b)
    ensures a == b
  {
    FormatParse(prefix, a);
    FormatParse(prefix, b);
  }

  lemma EmployeeIdRoundTrip(n: nat)
    ensures EmployeeSuffix(Format("EMP", n)) == Some(n)
  {
    var id := Format("EMP", n);
    assert id[..3] == "EMP";
    FormatParse("EMP", n);
  }

  lemma RequestIdRoundTrip(n: nat)
    ensures RequestSuffix(Format("REQ", n)) == Some(n)
  {
    FormatParse("REQ", n);
  }

  // ---------------------------------------------------------------------------
  // Max-suffix policy: getNextEmployeeId

  /** The fold of `reduce` over the parsed suffixes: the largest number present,
      0 when there is none. */
  function MaxPresent(xs: seq<Option<nat>>): (m: nat)
    ensures forall i :: 0 <= i < |xs| && xs[i].Some? ==> xs[i].value <= m
    ensures m == 0 || exists i :: 0 <= i < |xs| && xs[i] == Some(m)
  {
    if xs == [] then 0
    else
      var m := MaxPresent(xs[..|xs| - 1]);
      assert forall i :: 0 <= i < |xs| - 1 ==> xs[..|xs| - 1][i] == xs[i];
      match xs[|xs| - 1]
      case Some(n) => if n > m then n else m
      case None => m
  }

  function SuffixOfEmployee(e: Employee): Option<nat>
  {
    EmployeeSuffix(e.id)
  }

  /** `employees.reduce((max, e) => num > max ? num : max, 0)` where `num` is the
      parsed suffix; a NaN suffix never wins the comparison and is skipped. */
  function MaxEmployeeSuffix(emps: seq<Employee>): (m: nat)
    ensures forall i :: 0 <= i < |emps| && EmployeeSuffix(emps[i].id).Some? ==>
              EmployeeSuffix(emps[i].id).value <= m
    ensures m == 0 || exists i :: 0 <= i < |emps| && EmployeeSuffix(emps[i].id) == Some(m)
  {
    var xs := Map(emps, SuffixOfEmployee);
    assert forall i :: 0 <= i < |emps| ==> xs[i] == EmployeeSuffix(emps[i].id);
    MaxPresent(xs)
  }

  function NextEmployeeId(emps: seq<Employee>): string
  {
    Format("EMP", MaxEmployeeSuffix(emps) + 1)
  }

  /** The max-suffix identifier is never one that is already in the list, and its
      suffix is above every suffix in the list, whatever the order of the list. */
  lemma NextEmployeeIdFresh(emps: seq<Employee>)
    ensures EmployeeSuffix(NextEmployeeId(emps)).Some?
    ensures forall i :: 0 <= i < |emps| && EmployeeSuffix(emps[i].id).Some? ==>
              EmployeeSuffix(emps[i].id).value < EmployeeSuffix(NextEmployeeId(emps)).value
    ensures forall i :: 0 <= i < |emps| ==> emps[i].id != NextEmployeeId(emps)
  {
    EmployeeIdRoundTrip(MaxEmployeeSuffix(emps) + 1);
  }

  lemma NextEmployeeIdOfEmpty()
    ensures NextEmployeeId([]) == "EMP001"
  {
    assert NatToString(1) == "1";
  }

  /** [EMP001, EMP003] gives EMP004, not EMP002: the policy is max-based, not count-based. */
  lemma NextEmployeeIdAfterGap(a: Employee, b: Employee)
    requires a.id == Format("EMP", 1) && b.id == Format("EMP", 3)
    ensures NextEmployeeId([a, b]) == Format("EMP", 4)
  {
    EmployeeIdRoundTrip(1);
    EmployeeIdRoundTrip(3);
    MaxOfTwo(a, b);
  }

  lemma MaxOfTwo(a: Employee, b: Employee)
    requires EmployeeSuffix(a.id) == Some(1) && EmployeeSuffix(b.id) == Some(3)
    ensures MaxEmployeeSuffix([a, b]) == 3
  {
    var xs := Map([a, b], SuffixOfEmployee);
    assert xs == [Some(1), Some(3)];
    assert xs[..1] == [Some(1)];
    assert [Some(1)][..0] == [];
  }

  lemma RequestSuffixOf(id: string, n: nat)
    requires n < 10 && id == "REQ" + "00" + [DigitChar(n)]
    ensures RequestSuffix(id) == Some(n)
  {
    FormatOneDigit("REQ", n);
    RequestIdRoundTrip(n);
  }

  /** A one-digit number is written after two zeros. */
  lemma FormatOneDigit(prefix: string, n: nat)
    requires n < 10
    ensures Format(prefix, n) == prefix + "00" + [DigitChar(n)]
  {
    var d := [DigitChar(n)];
    assert NatToString(n) == d;
    assert PadStart(d, 3, '0') == "00" + d;
  }

  // ---------------------------------------------------------------------------
  // Last-element policy: getNextRequestId

  /** `'REQ001'` for no requests, else the last id's suffix plus one; a NaN suffix
      gives `'REQNaN'` (NaN + 1 is NaN and is already three characters long). */
  function NextRequestId(rs: seq<Request>): string
  {
    if rs == [] then "REQ001"
    else match RequestSuffix(rs[|rs| - 1].id)
      case Some(n) => Format("REQ", n + 1)
      case None => "REQNaN"
  }

  /** Every request id has a number and the numbers rise along the list. */
  ghost predicate IncreasingRequestIds(rs: seq<Request>)
  {
    && (forall i :: 0 <= i < |rs| ==> RequestSuffix(rs[i].id).Some?)
    && (forall i, j :: 0 <= i < j < |rs| ==>
          RequestSuffix(rs[i].id).value < RequestSuffix(rs[j].id).value)
  }

  lemma NextRequestIdOfEmpty()
    ensures NextRequestId([]) == Format("REQ", 1)
  {
    assert NatToString(1) == "1";
  }

  /** While the numbers rise along the list, the last element holds the largest
      one, so the last-element identifier is fresh and appending a request that
      carries it keeps the numbers rising. */
  lemma NextRequestIdFresh(rs: seq<Request>, r: Request)
    requires IncreasingRequestIds(rs)
    requires r.id == NextRequestId(rs)
    ensures forall i :: 0 <= i < |rs| ==> rs[i].id != r.id
    ensures IncreasingRequestIds(rs + [r])
  {
    var n := NextRequestSuffix(rs, r);
    forall i | 0 <= i < |rs| ensures rs[i].id != r.id {
      assert RequestSuffix(rs[i].id).value < n;
    }
    AppendIncreasing(rs, r, n);
  }

  /** Appending a request numbered above every request keeps the numbers rising. */
  lemma AppendIncreasing(rs: seq<Request>, r: Request, n: nat)
    requires IncreasingRequestIds(rs)
    requires RequestSuffix(r.id) == Some(n)
    requires forall i :: 0 <= i < |rs| ==> RequestSuffix(rs[i].id).value < n
    ensures IncreasingRequestIds(rs + [r])
  {
    var rs' := rs + [r];
    assert forall i :: 0 <= i < |rs| ==> rs'[i] == rs[i];
  }

  /** The next request id carries a number above every number in the list. */
  lemma NextRequestSuffix(rs: seq<Request>, r: Request) returns (n: nat)
    requires IncreasingRequestIds(rs)
    requires r.id == NextRequestId(rs)
    ensures RequestSuffix(r.id) == Some(n)
    ensures forall i :: 0 <= i < |rs| ==> RequestSuffix(rs[i].id).value < n
  {
    if rs == [] {
      NextRequestIdOfEmpty();
      RequestIdRoundTrip(1);
      n := 1;
    } else {
      var m := RequestSuffix(rs[|rs| - 1].id).value;
      assert NextRequestId(rs) == Format("REQ", m + 1);
      RequestIdRoundTrip(m + 1);
      n := m + 1;
      forall i | 0 <= i < |rs| - 1 ensures RequestSuffix(rs[i].id).value < n {
        assert RequestSuffix(rs[i].id).value < m;
      }
    }
  }

  lemma ConsIncreasing(h: Request, t: seq<Request>)
    requires IncreasingRequestIds(t) && RequestSuffix(h.id).Some?
    requires forall k :: 0 <= k < |t| ==> RequestSuffix(h.id).value < RequestSuffix(t[k].id).value
    ensures IncreasingRequestIds([h] + t)
  {
    var f := [h] + t;
    assert forall k :: 0 < k < |f| ==> f[k] == t[k - 1];
  }

  /** Removing requests keeps the numbers rising (deleteRequest filters). */
  lemma {:induction false} FilterKeepsIncreasing(rs: seq<Request>, p: Request -> bool)
    requires IncreasingRequestIds(rs)
    ensures IncreasingRequestIds(Filter(rs, p))
  {
    if rs != [] {
      var rest := rs[1..];
      assert IncreasingRequestIds(rest) by {
        assert forall k :: 0 <= k < |rest| ==> rest[k] == rs[k + 1];
      }
      FilterKeepsIncreasing(rest, p);
      var tail := Filter(rest, p);
      if p(rs[0]) {
        forall k | 0 <= k < |tail|
          ensures RequestSuffix(rs[0].id).value < RequestSuffix(tail[k].id).value
        {
          assert tail[k] in rest;
          var m :| 0 <= m < |rest| && rest[m] == tail[k];
          assert rs[m + 1] == tail[k];
        }
        ConsIncreasing(rs[0], tail);
      }
    }
  }

  /** A list whose first element's suffix is not the largest breaks the policy:
      [REQ002, REQ001] yields REQ002 again. */
  lemma LastElementPolicyRepeats(a: Request, b: Request)
    requires a.id == Format("REQ", 2) && b.id == Format("REQ", 1)
    ensures NextRequestId([a, b]) == a.id
  {
    RequestIdRoundTrip(1);
  }

  // ---------------------------------------------------------------------------
  // Count-based policy: the transfer id in handleTransfer

  /** `TRF${String(transfers.length + 1).padStart(3, '0')}` */
  function NextTransferId(ts: seq<TransferRecord>): string
  {
    Format("TRF", |ts| + 1)
  }

  /** The i-th transfer (from 0) carries number i + 1. */
  ghost predicate SequentialTransferIds(ts: seq<TransferRecord>)
  {
    forall i :: 0 <= i < |ts| ==> ts[i].id == Format("TRF", i + 1)
  }

  /** As long as transfers are only ever appended, the count-based identifier is fresh
      and the transfer that carries it keeps the numbering sequential. */
  lemma NextTransferIdFresh(ts: seq<TransferRecord>, t: TransferRecord)
    requires SequentialTransferIds(ts)
    requires t.id == NextTransferId(ts)
    ensures forall i :: 0 <= i < |ts| ==> ts[i].id != t.id
    ensures SequentialTransferIds(ts + [t])
  {
    forall i | 0 <= i < |ts|
      ensures ts[i].id != t.id
    {
      if ts[i].id == t.id {
        FormatInjective("TRF", i + 1, |ts| + 1);
      }
    }
  }

  /** Without that discipline the count repeats an identifier: one stored transfer
      TRF002 makes the next one TRF002 as well. */
  lemma CountPolicyRepeats(t: TransferRecord)
    requires t.id == Format("TRF", 2)
    ensures NextTransferId([t]) == t.id
  {
  }
}
