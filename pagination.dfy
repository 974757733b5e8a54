/**
 * Pagination arithmetic of a topic's post listing (Topic.get_page_count,
 * Topic.has_many_pages and Topic.get_page_range in boards/models.py).
 * Every function here takes the number of posts of the topic, which the
 * source obtains as `self.posts.count()`; Queries.TopicPostCount supplies it.
 */
module Pagination {
  import opened Wrappers

  /** Posts shown on one page. */
  const PostsPerPage: nat := 20
  /** A topic with more pages than this shows only the preview window. */
  const ManyPagesThreshold: nat := 6
  /** The preview window shown for a topic with many pages: range(1, 5). */
  const PreviewWindow: seq<int> := [1, 2, 3, 4]

  /** Python's `range(start, stop)` with step 1. */
  function Range(start: int, stop: int): (r: seq<int>)
    ensures |r| == if start <= stop then stop - start else 0
    ensures forall i :: 0 <= i < |r| ==> r[i] == start + i
  {
    if start < stop then seq(stop - start, i => start + i) else []
  }

  /**
   * get_page_count: `math.ceil(count / 20)`. The float division and ceiling
   * are computed exactly as an integer division rounded up; the contract
   * states that the result is the least number of 20-post pages that hold
   * all posts.
   */
  function PageCount(postCount: nat): (pages: nat)
    ensures postCount <= 20 * pages
    ensures 20 * pages < postCount + 20
  {
    (postCount + PostsPerPage - 1) / PostsPerPage
  }

  /** The two inequalities of PageCount's contract determine the page count. */
  lemma PageCountIsCeiling(postCount: nat, pages: nat)
    requires postCount <= 20 * pages < postCount + 20
    ensures PageCount(postCount) == pages
  {
  }

  /** The boundaries of get_page_count: 0 posts, 1 to 20 posts, 21 posts. */
  lemma PageCountBoundaries(postCount: nat)
    ensures postCount == 0 ==> PageCount(postCount) == 0
    ensures 1 <= postCount <= 20 ==> PageCount(postCount) == 1
    ensures postCount == 21 ==> PageCount(postCount) == 2
  {
  }

  /** More posts never need fewer pages. */
  lemma PageCountMonotonic(m: nat, n: nat)
    requires m <= n
    ensures PageCount(m) <= PageCount(n)
  {
  }

  /**
   * has_many_pages(count=None). An explicit `count` is compared with the
   * threshold as given; without one the topic's own page count is used,
   * so the topic has many pages exactly when it has more than 120 posts.
   */
  function HasManyPages(postCount: nat, count: Option<int>): (many: bool)
    ensures count.Some? ==> (many <==> count.value > 6)
    ensures count.None? ==> (many <==> postCount > 120)
  {
    var c := if count.Some? then count.value else PageCount(postCount);
    c > ManyPagesThreshold
  }

  /**
   * get_page_range: the preview window [1, 2, 3, 4] when the topic has
   * more than 6 pages, otherwise every page number 1 .. page count.
   */
  function PageRange(postCount: nat): (r: seq<int>)
    ensures PageCount(postCount) > 6 ==> r == PreviewWindow
    ensures PageCount(postCount) <= 6 ==> |r| == PageCount(postCount)
    ensures PageCount(postCount) <= 6 ==> forall i :: 0 <= i < |r| ==> r[i] == i + 1
  {
    var count := PageCount(postCount);
    if HasManyPages(postCount, Some(count)) then Range(1, 5) else Range(1, count + 1)
  }

  /** Every page number offered lies between 1 and the page count. */
  lemma PageRangeWithinPages(postCount: nat)
    ensures forall i :: 0 <= i < |PageRange(postCount)| ==> 1 <= PageRange(postCount)[i] <= PageCount(postCount)
    ensures |PageRange(postCount)| <= 6
  {
  }

  /** The range is empty exactly for a topic without posts. */
  lemma PageRangeEmptyIffNoPosts(postCount: nat)
    ensures PageRange(postCount) == [] <==> postCount == 0
  {
  }
}
