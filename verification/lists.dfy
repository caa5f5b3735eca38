/** Sequence operations the application performs on its arrays:
    `filter`, `map`, `findIndex`/`find` and the `slice` used for table pages. */
module Lists {

  datatype Option<+T> = None | Some(value: T) {
    /** The value, or `default` when there is none (`x ?? default`). */
    function GetOr(default: T): T {
      match this
      case Some(v) => v
      case None => default
    }
  }

  function Min(a: int, b: int): int { if a <= b then a else b }

  function Max(a: int, b: int): int { if a >= b then a else b }

  /** `Array.prototype.filter`: the elements that satisfy `p`, in their original order. */
  function Filter<T>(s: seq<T>, p: T -> bool): (r: seq<T>)
    ensures |r| <= |s|
    ensures forall i :: 0 <= i < |r| ==> r[i] in s && p(r[i])
    ensures forall i :: 0 <= i < |s| && p(s[i]) ==> s[i] in r
  {
    if s == [] then []
    else if p(s[0]) then [s[0]] + Filter(s[1..], p)
    else Filter(s[1..], p)
  }

  /** `a` is obtained from `b` by deleting elements, without reordering. */
  ghost predicate IsSubsequence<T>(a: seq<T>, b: seq<T>)
    decreases |b|
  {
    if a == [] then true
    else if b == [] then false
    else if a[0] == b[0] then IsSubsequence(a[1..], b[1..])
    else IsSubsequence(a, b[1..])
  }

  lemma {:induction false} FilterIsSubsequence<T>(s: seq<T>, p: T -> bool)
    ensures IsSubsequence(Filter(s, p), s)
  {
    if s != [] {
      FilterIsSubsequence(s[1..], p);
      var r := Filter(s, p);
      if !p(s[0]) && r != [] {
        assert r[0] in r;
        assert r[0] != s[0];
      }
    }
  }

  lemma {:induction false} FilterAppend<T>(a: seq<T>, b: seq<T>, p: T -> bool)
    ensures Filter(a + b, p) == Filter(a, p) + Filter(b, p)
  {
    if a == [] {
      assert a + b == b;
    } else {
      assert (a + b)[0] == a[0] && (a + b)[1..] == a[1..] + b;
      FilterAppend(a[1..], b, p);
      if p(a[0]) {
        calc {
          Filter(a + b, p);
          [a[0]] + Filter(a[1..] + b, p);
          [a[0]] + (Filter(a[1..], p) + Filter(b, p));
          ([a[0]] + Filter(a[1..], p)) + Filter(b, p);
        }
      }
    }
  }

  /** `filter` keeps every satisfying element as often as it occurs and drops
      every other one entirely. */
  lemma {:induction false} FilterMultiset<T>(s: seq<T>, p: T -> bool)
    ensures forall x :: multiset(Filter(s, p))[x] == if p(x) then multiset(s)[x] else 0
  {
    if s != [] {
      FilterMultiset(s[1..], p);
      assert s == [s[0]] + s[1..];
      assert multiset(s) == multiset{s[0]} + multiset(s[1..]);
    }
  }

  /** Filtering out nothing gives the sequence back. */
  lemma {:induction false} FilterKeepsAll<T>(s: seq<T>, p: T -> bool)
    requires forall i :: 0 <= i < |s| ==> p(s[i])
    ensures Filter(s, p) == s
  {
    if s != [] {
      FilterKeepsAll(s[1..], p);
    }
  }

  /** `Array.prototype.map`. */
  function Map<T, U>(s: seq<T>, f: T -> U): (r: seq<U>)
    ensures |r| == |s|
    ensures forall i :: 0 <= i < |s| ==> r[i] == f(s[i])
  {
    if s == [] then [] else [f(s[0])] + Map(s[1..], f)
  }

  /** `Array.prototype.findIndex`, with None for -1 (also the index `find` returns). */
  function FindFirst<T>(s: seq<T>, p: T -> bool): (r: Option<nat>)
    ensures r.Some? ==> r.value < |s| && p(s[r.value])
    ensures r.Some? ==> forall j :: 0 <= j < r.value ==> !p(s[j])
    ensures r.None? <==> forall j :: 0 <= j < |s| ==> !p(s[j])
  {
    if s == [] then None
    else if p(s[0]) then Some(0)
    else match FindFirst(s[1..], p)
      case Some(k) => Some(k + 1)
      case None => None
  }

  /** Rows shown on one page of a table: `items.slice(page * 5, page * 5 + 5)`. */
  const RowsPerPage: nat := 5

  function PageRows<T>(s: seq<T>, page: nat): (r: seq<T>)
    ensures |r| <= RowsPerPage
    ensures |r| == Min(RowsPerPage, Max(0, |s| - page * RowsPerPage))
    ensures forall i :: 0 <= i < |r| ==> page * RowsPerPage + i < |s| && r[i] == s[page * RowsPerPage + i]
  {
    s[Min(page * RowsPerPage, |s|)..Min(page * RowsPerPage + RowsPerPage, |s|)]
  }

  /** The first `n` pages, one after the other. */
  function Pages<T>(s: seq<T>, n: nat): seq<T>
  {
    if n == 0 then [] else Pages(s, n - 1) + PageRows(s, n - 1)
  }

  /** Paging neither loses nor repeats rows: pages 0 .. n-1 together are the first
      `5 * n` rows, so enough pages show every row exactly once and in order. */
  lemma {:induction false} PagesArePrefix<T>(s: seq<T>, n: nat)
    ensures Pages(s, n) == s[..Min(n * RowsPerPage, |s|)]
  {
    if n > 0 {
      PagesArePrefix(s, n - 1);
    }
  }

  lemma PagesCoverAll<T>(s: seq<T>, n: nat)
    requires n * RowsPerPage >= |s|
    ensures Pages(s, n) == s
  {
    PagesArePrefix(s, n);
  }
}
