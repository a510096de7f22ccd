/**
 * The paginator every listing goes through: fixed-size pages of an ordered listing,
 * with the page-number fallback of the paginator's `get_page`.
 */
module Paging {
  import opened Wrappers

  /** Records shown per page of every listing. */
  const PostsCount: nat := 10

  /** Number of pages of a listing of `count` records; an empty listing still has one (empty) page. */
  function NumPages(count: nat): (k: nat)
    ensures k >= 1
    ensures count == 0 ==> k == 1
    ensures count <= k * PostsCount
    ensures count > 0 ==> (k - 1) * PostsCount < count
  {
    if count == 0 then 1 else (count + PostsCount - 1) / PostsCount
  }

  /**
   * The page served for a requested page parameter: a missing or non-numeric parameter
   * (`None`) gives page 1, a number outside `1..NumPages(count)` gives the last page.
   */
  function PageNumber(count: nat, requested: Option<int>): (k: nat)
    ensures 1 <= k <= NumPages(count)
    ensures requested.None? ==> k == 1
    ensures requested.Some? && 1 <= requested.value <= NumPages(count) ==> k == requested.value
    ensures requested.Some? && !(1 <= requested.value <= NumPages(count)) ==> k == NumPages(count)
  {
    match requested
    case None => 1
    case Some(n) => if 1 <= n <= NumPages(count) then n else NumPages(count)
  }

  /** Page `k` (counting from 1) of the listing `s`. */
  function Page<T>(s: seq<T>, k: nat): (r: seq<T>)
    requires 1 <= k <= NumPages(|s|)
    ensures |r| <= PostsCount
    ensures k < NumPages(|s|) ==> |r| == PostsCount
    ensures |s| > 0 ==> |r| > 0
    ensures (k - 1) * PostsCount + |r| <= |s|
    ensures r == s[(k - 1) * PostsCount..(k - 1) * PostsCount + |r|]
    ensures k == NumPages(|s|) ==> (k - 1) * PostsCount + |r| == |s|
  {
    var lo := (k - 1) * PostsCount;
    var hi := if lo + PostsCount >= |s| then |s| else lo + PostsCount;
    s[lo..hi]
  }

  /** The page a listing view shows for a requested page parameter. */
  function GetPage<T>(s: seq<T>, requested: Option<int>): (r: seq<T>)
    ensures |r| <= PostsCount
    ensures forall i :: 0 <= i < |r| ==> r[i] in s
    ensures |s| > 0 ==> |r| > 0
    ensures var k := PageNumber(|s|, requested);
      && (k - 1) * PostsCount + |r| <= |s|
      && r == s[(k - 1) * PostsCount..(k - 1) * PostsCount + |r|]
      && (k < NumPages(|s|) ==> |r| == PostsCount)
      && (k == NumPages(|s|) ==> (k - 1) * PostsCount + |r| == |s|)
  {
    Page(s, PageNumber(|s|, requested))
  }

  /** Pages `k`, `k + 1`, ..., last of `s`, concatenated. */
  function PagesFrom<T>(s: seq<T>, k: nat): seq<T>
    requires 1 <= k <= NumPages(|s|)
    decreases NumPages(|s|) - k
  {
    Page(s, k) + if k < NumPages(|s|) then PagesFrom(s, k + 1) else []
  }

  /** The pages from `k` on are exactly the listing from the first record of page `k` on. */
  lemma {:induction false} PagesFromCover<T>(s: seq<T>, k: nat)
    requires 1 <= k <= NumPages(|s|)
    ensures PagesFrom(s, k) == s[(k - 1) * PostsCount..]
    decreases NumPages(|s|) - k
  {
    var lo := (k - 1) * PostsCount;
    if k < NumPages(|s|) {
      PagesFromCover(s, k + 1);
      assert s[lo..] == s[lo..lo + PostsCount] + s[lo + PostsCount..];
    } else {
      assert lo + |Page(s, k)| == |s|;
    }
  }

  /** The pages of a listing, in order, are the listing: every record is on exactly one page. */
  lemma PagesCover<T>(s: seq<T>)
    ensures PagesFrom(s, 1) == s
  {
    PagesFromCover(s, 1);
  }

  /** Thirteen records make two pages: ten on the first and three on the second. */
  lemma ThirteenRecords<T>(s: seq<T>)
    requires |s| == 13
    ensures NumPages(|s|) == 2
    ensures |Page(s, 1)| == 10 && |Page(s, 2)| == 3
    ensures Page(s, 1) + Page(s, 2) == s
  {
    PagesCover(s);
  }
}
