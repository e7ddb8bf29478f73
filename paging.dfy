/** Page slicing of a listing: a fixed page size, 1-based page numbers,
    and page k the contiguous slice that starts at (k - 1) * PostsCount. */
module Paging {

  /** Number of posts on one page. */
  const PostsCount: nat := 10

  /** Number of pages of a listing of n items; an empty listing still has
      its (empty) first page. */
  function NumPages(n: nat): (r: nat)
    ensures r >= 1
    ensures n <= r * PostsCount
    ensures r == 1 || (r - 1) * PostsCount < n
  {
    if n == 0 then 1 else (n + PostsCount - 1) / PostsCount
  }

  /** Index of the first item of page k. */
  function PageStart(k: nat): nat
    requires k >= 1
  {
    (k - 1) * PostsCount
  }

  /** Index just past the last item of page k of a listing of n items. */
  function PageEnd(n: nat, k: nat): nat
    requires k >= 1
  {
    if k * PostsCount <= n then k * PostsCount else n
  }

  /** Page k of the listing s. */
  function Page<T>(s: seq<T>, k: nat): (r: seq<T>)
    requires 1 <= k <= NumPages(|s|)
    ensures |r| <= PostsCount
    ensures PageStart(k) + |r| == PageEnd(|s|, k)
    ensures k < NumPages(|s|) ==> |r| == PostsCount
    ensures forall i :: 0 <= i < |r| ==> r[i] == s[PageStart(k) + i]
  {
    s[PageStart(k)..PageEnd(|s|, k)]
  }

  /** An independent description of the whole pagination: the listing cut
      into consecutive chunks of PostsCount items, the last one possibly
      shorter (and the only one, possibly empty, when s is short). */
  function Chunks<T>(s: seq<T>): seq<seq<T>>
    decreases |s|
  {
    if |s| <= PostsCount then [s] else [s[..PostsCount]] + Chunks(s[PostsCount..])
  }

  function Flatten<T>(ss: seq<seq<T>>): seq<T>
  {
    if ss == [] then [] else ss[0] + Flatten(ss[1..])
  }

  lemma NumPagesShift(n: nat)
    requires n > PostsCount
    ensures NumPages(n) == NumPages(n - PostsCount) + 1
  {
  }

  /** There is one chunk per page. */
  lemma {:induction false} ChunksCount<T>(s: seq<T>)
    ensures |Chunks(s)| == NumPages(|s|)
    decreases |s|
  {
    if |s| > PostsCount {
      ChunksCount(s[PostsCount..]);
      NumPagesShift(|s|);
    }
  }

  /** Page k is exactly the k-th chunk. */
  lemma {:induction false} ChunksArePages<T>(s: seq<T>, k: nat)
    requires 1 <= k <= NumPages(|s|)
    ensures |Chunks(s)| == NumPages(|s|)
    ensures Chunks(s)[k - 1] == Page(s, k)
    decreases |s|
  {
    ChunksCount(s);
    if |s| > PostsCount && k > 1 {
      var rest := s[PostsCount..];
      NumPagesShift(|s|);
      ChunksArePages(rest, k - 1);
      assert Chunks(s)[k - 1] == Chunks(rest)[k - 2];
      assert PageStart(k) == PageStart(k - 1) + PostsCount;
      assert PageEnd(|s|, k) == PageEnd(|rest|, k - 1) + PostsCount;
      assert Page(rest, k - 1) == s[PageStart(k)..PageEnd(|s|, k)];
    }
  }

  /** Read one after the other, the pages give back the listing: every item
      appears once, in order. */
  lemma {:induction false} PagesCoverListing<T>(s: seq<T>)
    ensures Flatten(Chunks(s)) == s
    decreases |s|
  {
    if |s| > PostsCount {
      PagesCoverListing(s[PostsCount..]);
      assert Chunks(s)[1..] == Chunks(s[PostsCount..]);
      assert s == s[..PostsCount] + s[PostsCount..];
    } else {
      assert Chunks(s)[1..] == [];
    }
  }

  /** Pages are disjoint and cover every index: index i of a listing of n
      items lies on page k exactly when k == i / PostsCount + 1. */
  lemma IndexOnExactlyOnePage(n: nat, i: nat, k: nat)
    requires i < n && k >= 1
    ensures PageStart(k) <= i < PageEnd(n, k) <==> k == i / PostsCount + 1
  {
    var q := i / PostsCount;
    assert q * PostsCount <= i < (q + 1) * PostsCount;
    if k < q + 1 {
      assert k * PostsCount <= q * PostsCount;
    } else if k > q + 1 {
      assert (k - 1) * PostsCount >= (q + 1) * PostsCount;
    }
  }

  /** With PostsCount + 1 items, the first page is full and the second holds
      the one item left. */
  lemma OneMoreThanAPage<T>(s: seq<T>)
    requires |s| == PostsCount + 1
    ensures NumPages(|s|) == 2
    ensures |Page(s, 1)| == PostsCount && |Page(s, 2)| == 1
    ensures Page(s, 2) == [s[PostsCount]]
  {
  }

  /** A listing of at most PostsCount items is a single page holding all
      of it. */
  lemma ShortListingIsOnePage<T>(s: seq<T>)
    requires |s| <= PostsCount
    ensures NumPages(|s|) == 1 && Page(s, 1) == s
  {
  }
}
