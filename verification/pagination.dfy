/**
 * The paging of the public blog list (Frontend/src/component/allpostblog.jsx):
 * five posts to a page, the slice shown for the current page, and the
 * clamped "next" and "previous" buttons.
 */
module BlogPagination {

  const PostsPerPage := 5

  /** `Math.ceil(n / 5)` for a list length `n`. */
  function TotalPages(n: nat): (r: nat)
    ensures r == 0 <==> n == 0
    ensures (r - 1) * PostsPerPage < n <= r * PostsPerPage || n == 0
  {
    (n + PostsPerPage - 1) / PostsPerPage
  }

  /** A position argument of `Array.prototype.slice`: negative counts from the end, then clamped to the length. */
  function SliceIndex(len: nat, k: int): (r: nat)
    ensures r <= len
    ensures 0 <= k <= len ==> r == k
  {
    if k < 0 then (if len + k < 0 then 0 else len + k)
    else if k > len then len
    else k
  }

  /** `s.slice(start, end)` */
  function JsSlice<T>(s: seq<T>, start: int, end: int): (r: seq<T>)
    ensures |r| <= |s|
    ensures 0 <= start <= end <= |s| ==> r == s[start..end]
    ensures 0 <= start && |s| <= end ==> r == s[(if start <= |s| then start else |s|)..]
  {
    var a := SliceIndex(|s|, start);
    var b := SliceIndex(|s|, end);
    if a < b then s[a..b] else []
  }

  /** `posts.slice(indexOfFirstPost, indexOfLastPost)` for the current page. */
  function CurrentPosts<T>(posts: seq<T>, page: int): seq<T> {
    JsSlice(posts, page * PostsPerPage - PostsPerPage, page * PostsPerPage)
  }

  /** Every page in range shows between one and five posts, the ones at its place in the list. */
  lemma PageContents<T>(posts: seq<T>, page: int)
    requires 1 <= page <= TotalPages(|posts|)
    ensures var first := (page - 1) * PostsPerPage;
      var last := if page * PostsPerPage <= |posts| then page * PostsPerPage else |posts|;
      first < last && CurrentPosts(posts, page) == posts[first..last]
    ensures 1 <= |CurrentPosts(posts, page)| <= PostsPerPage
  {
    assert (page - 1) * PostsPerPage < |posts|;
  }

  /** The posts on pages 1 to k, in order. */
  function FirstPages<T>(posts: seq<T>, k: nat): seq<T> {
    if k == 0 then [] else FirstPages(posts, k - 1) + CurrentPosts(posts, k)
  }

  /** Pages 1 to k together are the first 5k posts. */
  lemma {:induction false} FirstPagesArePrefix<T>(posts: seq<T>, k: nat)
    ensures FirstPages(posts, k) == posts[..if k * PostsPerPage <= |posts| then k * PostsPerPage else |posts|]
  {
    if k > 0 {
      FirstPagesArePrefix(posts, k - 1);
      var m := if (k - 1) * PostsPerPage <= |posts| then (k - 1) * PostsPerPage else |posts|;
      var m' := if k * PostsPerPage <= |posts| then k * PostsPerPage else |posts|;
      if (k - 1) * PostsPerPage <= |posts| {
        assert CurrentPosts(posts, k) == posts[m..m'];
      } else {
        assert CurrentPosts(posts, k) == [];
      }
      assert posts[..m] + posts[m..m'] == posts[..m'];
    }
  }

  /** Walking through every page shows every post exactly once and in order. */
  lemma PagesCoverPosts<T>(posts: seq<T>)
    ensures FirstPages(posts, TotalPages(|posts|)) == posts
  {
    FirstPagesArePrefix(posts, TotalPages(|posts|));
  }

  /** handleNextPage: one page on, but not past the last page. */
  function NextPage(page: int, totalPages: nat): (r: int)
    ensures r <= totalPages && r <= page + 1
    ensures r == page + 1 || r == totalPages
  {
    if page + 1 < totalPages then page + 1 else totalPages
  }

  /** handlePrevPage: one page back, but not before page 1. */
  function PrevPage(page: int): (r: int)
    ensures r >= 1 && r >= page - 1
    ensures r == page - 1 || r == 1
  {
    if page - 1 > 1 then page - 1 else 1
  }

  datatype Nav = Next | Prev

  /** The page after pressing the buttons in `navs`, in order. */
  function Navigate(page: int, totalPages: nat, navs: seq<Nav>): int
    decreases |navs|
  {
    if navs == [] then page
    else Navigate(if navs[0] == Next then NextPage(page, totalPages) else PrevPage(page), totalPages, navs[1..])
  }

  /**
   * The page starts at 1 and the pager is only shown for a non-empty list;
   * whatever buttons are pressed, the page stays between 1 and the number of pages.
   */
  lemma {:induction false} NavigationStaysInRange(page: int, n: nat, navs: seq<Nav>)
    requires n > 0 && 1 <= page <= TotalPages(n)
    ensures 1 <= Navigate(page, TotalPages(n), navs) <= TotalPages(n)
    decreases |navs|
  {
    if navs != [] {
      var next := if navs[0] == Next then NextPage(page, TotalPages(n)) else PrevPage(page);
      NavigationStaysInRange(next, n, navs[1..]);
    }
  }

  /** From the first page of a non-empty list every reachable page is in range. */
  lemma FromFirstPage(n: nat, navs: seq<Nav>)
    requires n > 0
    ensures 1 <= Navigate(1, TotalPages(n), navs) <= TotalPages(n)
  {
    NavigationStaysInRange(1, n, navs);
  }
}
