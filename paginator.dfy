/**
  Pagination of the filtered user list: a fixed page size, the page window
  taken with JavaScript's `Array.prototype.slice`, and the page count taken
  with `Math.ceil`.
 */
module Paginator {

  /** `usersPerPage`. */
  const PageSize: nat := 5

  /**
    How `slice` turns one of its arguments into a position in a list of
    length `len`: a negative argument counts back from the end (and stops at 0),
    a non-negative one stops at `len`.
   */
  function ClampIndex(i: int, len: nat): (r: nat)
    ensures r <= len
    ensures 0 <= i ==> r == if i <= len then i else len
    ensures i < 0 ==> r == if len + i <= 0 then 0 else len + i
  {
    if i < 0 then (if len + i < 0 then 0 else len + i)
    else if i > len then len
    else i
  }

  /** `r` is the contiguous run of `s` that starts at position `a`. */
  ghost predicate RunAt<T>(s: seq<T>, r: seq<T>, a: int)
  {
    0 <= a <= |s| - |r| && r == s[a..a + |r|]
  }

  /** `s.slice(start, end)`: the elements between the two clamped positions, or nothing if they cross. */
  function Slice<T>(s: seq<T>, start: int, end: int): (r: seq<T>)
    ensures |r| <= |s|
    ensures start <= end ==> |r| <= end - start
    ensures 0 <= start <= end ==> r == s[if start <= |s| then start else |s|..if end <= |s| then end else |s|]
    ensures exists a :: RunAt(s, r, a)
  {
    var a := ClampIndex(start, |s|);
    var b := ClampIndex(end, |s|);
    if a < b then assert RunAt(s, s[a..b], a); s[a..b]
    else assert RunAt(s, [], 0); []
  }

  /** `Math.ceil(n / usersPerPage)`: the least number of pages that holds `n` items. */
  function TotalPages(n: nat): (r: nat)
    ensures r * PageSize >= n
    ensures r > 0 ==> (r - 1) * PageSize < n
    ensures r == 0 <==> n == 0
  {
    (n + PageSize - 1) / PageSize
  }

  /** The smaller of two naturals. */
  function Min(a: nat, b: nat): (r: nat)
    ensures r <= a && r <= b && (r == a || r == b)
  {
    if a <= b then a else b
  }

  /**
    `currentUsers`: the slice from `indexOfFirstUser = page * 5 - 5` up to
    `indexOfLastUser = page * 5`. Never more than a page; for a page from 1 on
    it is the window of positions [(page-1)*5, page*5) that exist, and past
    the last page it is empty.
   */
  function PageSlice<T>(s: seq<T>, page: int): (r: seq<T>)
    ensures |r| <= PageSize && |r| <= |s|
    ensures page >= 1 ==> r == s[Min((page - 1) * PageSize, |s|)..Min(page * PageSize, |s|)]
    ensures page > TotalPages(|s|) ==> r == []
  {
    var last := page * PageSize;
    var first := last - PageSize;
    Slice(s, first, last)
  }

  /** Pages 1 to `k` laid end to end. */
  function PagesUpTo<T>(s: seq<T>, k: nat): (r: seq<T>)
  {
    if k == 0 then [] else PagesUpTo(s, k - 1) + PageSlice(s, k)
  }

  /** The first `k` pages together are exactly the first `k * 5` items (or all of them): no gap, no overlap. */
  lemma {:induction false} PagesUpToIsPrefix<T>(s: seq<T>, k: nat)
    ensures PagesUpTo(s, k) == s[..Min(k * PageSize, |s|)]
  {
    if k > 0 {
      PagesUpToIsPrefix(s, k - 1);
      var m0 := Min((k - 1) * PageSize, |s|);
      var m1 := Min(k * PageSize, |s|);
      assert s[..m0] + s[m0..m1] == s[..m1];
    }
  }

  /** Concatenating pages 1 to `TotalPages(|s|)` gives back the whole list. */
  lemma PagesCoverAll<T>(s: seq<T>)
    ensures PagesUpTo(s, TotalPages(|s|)) == s
  {
    PagesUpToIsPrefix(s, TotalPages(|s|));
    assert s[..|s|] == s;
  }

  /** Item `i` is shown on page `i / 5 + 1`, at row `i % 5`. */
  lemma ItemPage<T>(s: seq<T>, i: nat)
    requires i < |s|
    ensures 1 <= i / PageSize + 1 <= TotalPages(|s|)
    ensures i % PageSize < |PageSlice(s, i / PageSize + 1)|
    ensures PageSlice(s, i / PageSize + 1)[i % PageSize] == s[i]
  {
    var p := i / PageSize + 1;
    assert (p - 1) * PageSize + i % PageSize == i;
  }
}
