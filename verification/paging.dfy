/** Pages of ten items, as both search screens cut their result lists. */
module Paging {

  const PageSize: nat := 10

  /** `Math.max(a, b)` */
  function Max(a: int, b: int): int
  {
    if a < b then b else a
  }

  /** `Math.min(a, b)` */
  function Min(a: int, b: int): int
  {
    if a < b then a else b
  }

  /** `Math.ceil(n / PAGE_SIZE)` */
  function TotalPages(n: nat): (r: nat)
    ensures r * PageSize >= n
    ensures r > 0 ==> (r - 1) * PageSize < n
    ensures r == 0 <==> n == 0
  {
    (n + 9) / 10
  }

  /** `Math.min(start + PAGE_SIZE, n)` */
  function PageEnd(start: nat, n: nat): (r: nat)
    ensures r <= n && r <= start + PageSize
    ensures r == n || r == start + PageSize
  {
    if start + PageSize < n then start + PageSize else n
  }

  /** `s.slice(start, end)` for `end <= s.length`: empty when `end <= start`. */
  function Slice<T>(s: seq<T>, start: nat, end: nat): (r: seq<T>)
    requires end <= |s|
    ensures |r| == if start < end then end - start else 0
    ensures forall k :: 0 <= k < |r| ==> r[k] == s[start + k]
  {
    if start < end then s[start..end] else []
  }

  /** The items shown on page `page` (counted from 0): at most ten, taken
      in order from index `page * 10`; non-empty exactly on the pages
      `0 .. TotalPages - 1`, and full on every page but the last. */
  function Page<T>(s: seq<T>, page: nat): (r: seq<T>)
    ensures |r| <= PageSize
    ensures forall k :: 0 <= k < |r| ==> page * PageSize + k < |s| && r[k] == s[page * PageSize + k]
    ensures |r| > 0 <==> page < TotalPages(|s|)
    ensures page + 1 < TotalPages(|s|) ==> |r| == PageSize
  {
    var start := page * PageSize;
    Slice(s, start, PageEnd(start, |s|))
  }

  /** Item `i` of the list is shown on page `i / 10`, at row `i % 10`. */
  lemma PageOfIndex<T>(s: seq<T>, i: nat)
    requires i < |s|
    ensures i / PageSize < TotalPages(|s|)
    ensures i % PageSize < |Page(s, i / PageSize)|
    ensures Page(s, i / PageSize)[i % PageSize] == s[i]
  {
    var p := i / PageSize;
    assert p * PageSize + i % PageSize == i;
  }
}
