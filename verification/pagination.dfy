/**
  Page arithmetic of the admin table: the page count is `Math.ceil(n / itemsPerPage)`
  and page `p` is `list.slice((p - 1) * itemsPerPage, (p - 1) * itemsPerPage + itemsPerPage)`.
*/
module Pagination {

  function Min(a: int, b: int): int
  {
    if a <= b then a else b
  }

  /** `Math.ceil(n / size)`: the fewest pages of `size` items that hold `n` items. */
  function TotalPages(n: nat, size: nat): (r: nat)
    requires size > 0
    ensures n <= r * size
    ensures r == 0 || (r - 1) * size < n
  {
    (n + size - 1) / size
  }

  /** How `Array.prototype.slice` reads an index: negative counts from the end, then clamped to the length. */
  function SliceIndex(k: int, len: nat): (r: nat)
    ensures r <= len
    ensures 0 <= k <= len ==> r == k
  {
    if k < 0 then (if len + k < 0 then 0 else len + k)
    else if k > len then len
    else k
  }

  /** `Array.prototype.slice(start, end)`. */
  function Slice<T>(s: seq<T>, start: int, end: int): (r: seq<T>)
    ensures SliceIndex(start, |s|) + |r| <= |s|
    ensures |r| == if SliceIndex(start, |s|) < SliceIndex(end, |s|) then SliceIndex(end, |s|) - SliceIndex(start, |s|) else 0
    ensures forall k :: 0 <= k < |r| ==> r[k] == s[SliceIndex(start, |s|) + k]
  {
    var from, to := SliceIndex(start, |s|), SliceIndex(end, |s|);
    if from < to then s[from..to] else []
  }

  /** The index page `page` starts at: `(page - 1) * itemsPerPage`. */
  function PageStart(page: int, size: nat): (r: int)
    ensures page >= 1 ==> r >= 0
  {
    (page - 1) * size
  }

  /** Each page starts where the one before it ends. */
  lemma {:induction false} PageStartNext(page: int, size: nat)
    ensures PageStart(page + 1, size) == PageStart(page, size) + size
  {
  }

  /** Page number `page` (counted from 1) of `s`, `size` items per page. */
  function Page<T>(s: seq<T>, page: int, size: nat): (r: seq<T>)
    requires size > 0
    ensures |r| <= size
    ensures page >= 1 ==> r == s[Min(PageStart(page, size), |s|)..Min(PageStart(page, size) + size, |s|)]
    ensures page >= 1 ==> (|r| > 0 <==> page <= TotalPages(|s|, size))
  {
    var start := PageStart(page, size);
    PageFacts(s, page, size, start);
    Slice(s, start, start + size)
  }

  /**
    The slice behind page `page`: at most `size` items and, for a page numbered from 1,
    the clamped range it covers, non-empty exactly when the page starts inside the list.
  */
  lemma {:induction false} PageFacts<T>(s: seq<T>, page: int, size: nat, start: int)
    requires size > 0 && start == PageStart(page, size)
    ensures |Slice(s, start, start + size)| <= size
    ensures page >= 1 ==> Slice(s, start, start + size) == s[Min(start, |s|)..Min(start + size, |s|)]
    ensures page >= 1 ==> (|Slice(s, start, start + size)| > 0 <==> page <= TotalPages(|s|, size))
  {
    SliceLength(s, start, size);
    if page >= 1 {
      PageBounds(|s|, page, size);
      SliceWithin(s, start, start + size);
    }
  }

  lemma {:induction false} SliceLength<T>(s: seq<T>, start: int, size: nat)
    ensures |Slice(s, start, start + size)| <= size
  {
  }

  /** A slice between two in-order, non-negative indices is the clamped range. */
  lemma {:induction false} SliceWithin<T>(s: seq<T>, start: int, end: int)
    requires 0 <= start <= end
    ensures Slice(s, start, end) == s[Min(start, |s|)..Min(end, |s|)]
  {
  }

  /** The arithmetic behind `Page`: a page starts inside the list exactly when it is one of the first `TotalPages`. */
  lemma {:induction false} PageBounds(n: nat, page: int, size: nat)
    requires size > 0 && page >= 1
    ensures 0 <= (page - 1) * size < page * size
    ensures (page - 1) * size + size == page * size
    ensures (page - 1) * size < n <==> page <= TotalPages(n, size)
  {
    var t := TotalPages(n, size);
    if page <= t {
      assert (page - 1) * size <= (t - 1) * size by {
        MulMonotone(page - 1, t - 1, size);
      }
    } else {
      assert t * size <= (page - 1) * size by {
        MulMonotone(t, page - 1, size);
      }
    }
  }

  lemma {:induction false} MulMonotone(a: int, b: int, size: nat)
    requires a <= b
    ensures a * size <= b * size
  {
  }

  /** Pages `1..k` laid end to end. */
  function Pages<T>(s: seq<T>, size: nat, k: nat): seq<T>
    requires size > 0
  {
    if k == 0 then [] else Pages(s, size, k - 1) + Page(s, k, size)
  }

  /** The first `k` pages are the first `k * size` items (or all of them), `k * size` being where page `k + 1` starts. */
  lemma {:induction false} PagesArePrefix<T>(s: seq<T>, size: nat, k: nat)
    requires size > 0
    ensures Pages(s, size, k) == s[..Min(PageStart(k + 1, size), |s|)]
  {
    if k > 0 {
      PagesArePrefix(s, size, k - 1);
      PageStartNext(k, size);
      var start := PageStart(k, size);
      PrefixThenRange(s, Min(start, |s|), Min(start + size, |s|));
    }
  }

  lemma {:induction false} PrefixThenRange<T>(s: seq<T>, a: int, b: int)
    requires 0 <= a <= b <= |s|
    ensures s[..a] + s[a..b] == s[..b]
  {
  }

  /**
    Pagination partitions the list: pages `1..TotalPages` concatenate back to it,
    none of them is empty, and every page after them is empty.
  */
  lemma {:induction false} PagesPartition<T>(s: seq<T>, size: nat)
    requires size > 0
    ensures Pages(s, size, TotalPages(|s|, size)) == s
    ensures forall p :: 1 <= p <= TotalPages(|s|, size) ==> 0 < |Page(s, p, size)| <= size
    ensures forall p :: p > TotalPages(|s|, size) ==> Page(s, p, size) == []
  {
    PagesArePrefix(s, size, TotalPages(|s|, size));
  }
}
