/**
 * The derived read queries of boards/models.py, each written as the query
 * the ORM runs: a filter over the posts table, a count, an
 * `order_by('-created_at')` followed by `first()` or a `[:10]` slice.
 */
module Queries {
  import opened Wrappers
  import opened Models
  import Pagination

  /** The posts of `s` that `keep` accepts, in their original order. */
  function Filter(s: seq<Post>, keep: Post -> bool): (r: seq<Post>)
    ensures |r| <= |s|
    ensures forall x :: x in r <==> x in s && keep(x)
  {
    if s == [] then []
    else
      var init, last := s[..|s| - 1], s[|s| - 1];
      assert s == init + [last];
      Filter(init, keep) + (if keep(last) then [last] else [])
  }

  /** The positions of `s` whose element `keep` accepts. */
  ghost function Positions(s: seq<Post>, keep: Post -> bool): set<int> {
    set i | 0 <= i < |s| && keep(s[i])
  }

  /** The accepted positions of `s` are those of its prefix, plus the last one if accepted. */
  lemma PositionsOfLast(s: seq<Post>, keep: Post -> bool)
    requires s != []
    ensures var n := |s| - 1;
      && n !in Positions(s[..n], keep)
      && Positions(s, keep) == Positions(s[..n], keep) + (if keep(s[n]) then {n} else {})
  {
  }

  /** Filtering keeps exactly one post per accepted position. */
  lemma {:induction false} FilterCountsPositions(s: seq<Post>, keep: Post -> bool)
    ensures |Filter(s, keep)| == |Positions(s, keep)|
  {
    if s != [] {
      var n := |s| - 1;
      var init := s[..n];
      assert Filter(s, keep) == Filter(init, keep) + (if keep(s[n]) then [s[n]] else []);
      FilterCountsPositions(init, keep);
      PositionsOfLast(s, keep);
    }
  }

  /** Two filters agree on `s` when their tests agree on its elements. */
  lemma {:induction false} FilterSameTest(s: seq<Post>, f: Post -> bool, g: Post -> bool)
    requires forall x :: x in s ==> f(x) == g(x)
    ensures Filter(s, f) == Filter(s, g)
  {
    if s != [] {
      FilterSameTest(s[..|s| - 1], f, g);
    }
  }

  /** A filter that accepts no post of `s` is empty. */
  lemma {:induction false} FilterNone(s: seq<Post>, keep: Post -> bool)
    requires forall x :: x in s ==> !keep(x)
    ensures Filter(s, keep) == []
  {
    if s != [] {
      FilterNone(s[..|s| - 1], keep);
    }
  }

  /** Appending one element extends the filter by that element when it is accepted. */
  lemma FilterAppend(s: seq<Post>, x: Post, keep: Post -> bool)
    ensures Filter(s + [x], keep) == Filter(s, keep) + (if keep(x) then [x] else [])
  {
  }

  // ----- order_by('-created_at') -----

  /** Newest first: creation times never increase along the sequence. */
  predicate NewestFirst(s: seq<Post>) {
    forall i, j :: 0 <= i < j < |s| ==> s[i].createdAt >= s[j].createdAt
  }

  /** Inserts `x` ahead of the first post that is no newer than it. */
  function Insert(x: Post, s: seq<Post>): (r: seq<Post>)
    ensures multiset(r) == multiset(s) + multiset{x}
  {
    if s == [] || s[0].createdAt <= x.createdAt then [x] + s
    else
      assert s == [s[0]] + s[1..];
      [s[0]] + Insert(x, s[1..])
  }

  /** Inserting a post no newer than `bound` into posts no newer than `bound` yields such posts. */
  lemma {:induction false} InsertBounded(x: Post, s: seq<Post>, bound: Time)
    requires x.createdAt <= bound
    requires forall j :: 0 <= j < |s| ==> s[j].createdAt <= bound
    ensures forall j :: 0 <= j < |Insert(x, s)| ==> Insert(x, s)[j].createdAt <= bound
  {
    if s != [] && s[0].createdAt > x.createdAt {
      InsertBounded(x, s[1..], bound);
    }
  }

  /** Inserting into a newest-first sequence keeps it newest first. */
  lemma {:induction false} InsertKeepsNewestFirst(x: Post, s: seq<Post>)
    requires NewestFirst(s)
    ensures NewestFirst(Insert(x, s))
  {
    if s != [] && s[0].createdAt > x.createdAt {
      var head, tail := s[0], s[1..];
      InsertKeepsNewestFirst(x, tail);
      InsertBounded(x, tail, head.createdAt);
      var rest := Insert(x, tail);
      var r := [head] + rest;
      assert Insert(x, s) == r;
      forall i, j | 0 <= i < j < |r| ensures r[i].createdAt >= r[j].createdAt {
        assert r[j] == rest[j - 1];
        if i > 0 {
          assert r[i] == rest[i - 1];
        }
      }
    }
  }

  /**
   * `order_by('-created_at')`: the posts newest first. Posts created at the
   * same time keep their store order.
   */
  function SortNewestFirst(s: seq<Post>): (r: seq<Post>)
    ensures multiset(r) == multiset(s)
    ensures NewestFirst(r)
  {
    if s == [] then []
    else
      assert s == [s[0]] + s[1..];
      var rest := SortNewestFirst(s[1..]);
      InsertKeepsNewestFirst(s[0], rest);
      Insert(s[0], rest)
  }

  /**
   * The first `k` posts of a newest-first permutation of `s` are posts of
   * `s`, and they leave out no post of `s` newer than one they keep.
   */
  lemma NewestPrefix(s: seq<Post>, sorted: seq<Post>, k: nat)
    requires multiset(sorted) == multiset(s) && NewestFirst(sorted) && k <= |sorted|
    ensures |sorted| == |s|
    ensures multiset(sorted[..k]) <= multiset(s)
    ensures forall p :: p in sorted[..k] ==> p in s
    ensures forall p, q :: p in s && q in sorted[..k] && p.createdAt > q.createdAt ==> p in sorted[..k]
    ensures k == |sorted| ==> multiset(sorted[..k]) == multiset(s)
  {
    assert |sorted| == |multiset(sorted)| == |multiset(s)| == |s|;
    var prefix := sorted[..k];
    assert sorted == prefix + sorted[k..];
    assert multiset(sorted) == multiset(prefix) + multiset(sorted[k..]);
    forall p | p in prefix ensures p in s {
      assert p in multiset(s);
    }
    forall p, q | p in s && q in prefix && p.createdAt > q.createdAt
      ensures p in prefix
    {
      assert p in multiset(sorted);
      var j :| 0 <= j < |sorted| && sorted[j] == p;
      var i :| 0 <= i < k && prefix[i] == q;
      assert sorted[i] == q;
      assert j < k;
      assert prefix[j] == p;
    }
  }

  /** The head of a newest-first permutation of `s` is a post of `s` at least as new as all others. */
  lemma NewestHead(s: seq<Post>, sorted: seq<Post>)
    requires multiset(sorted) == multiset(s) && NewestFirst(sorted)
    ensures sorted == [] <==> s == []
    ensures sorted != [] ==> sorted[0] in s && forall q :: q in s ==> q.createdAt <= sorted[0].createdAt
  {
    assert |sorted| == |multiset(sorted)| == |multiset(s)| == |s|;
    if sorted != [] {
      assert sorted[0] in multiset(s);
      forall q | q in s ensures q.createdAt <= sorted[0].createdAt {
        assert q in multiset(sorted);
        var j :| 0 <= j < |sorted| && sorted[j] == q;
      }
    }
  }

  // ----- Board -----

  /** `topic__board=self`: the post's topic belongs to board `b`. */
  predicate InBoard(st: Store, p: Post, b: Board) {
    match TopicById(st.topics, p.topic)
    case Some(t) => t.board == b.id
    case None => false
  }

  /** `Post.objects.filter(topic__board=self)`, in store order. */
  function BoardPosts(st: Store, b: Board): (r: seq<Post>)
    ensures forall p :: p in r <==> p in st.posts && InBoard(st, p, b)
  {
    Filter(st.posts, (p: Post) => InBoard(st, p, b))
  }

  /**
   * Board.get_posts_count: `filter(topic__board=self).count()`, the number
   * of rows of the posts table whose topic is on this board.
   */
  function GetPostsCount(st: Store, b: Board): (n: nat)
    ensures n == |set i | 0 <= i < |st.posts| && InBoard(st, st.posts[i], b)|
  {
    var keep := (p: Post) => InBoard(st, p, b);
    FilterCountsPositions(st.posts, keep);
    assert Positions(st.posts, keep) == set i | 0 <= i < |st.posts| && InBoard(st, st.posts[i], b);
    |BoardPosts(st, b)|
  }

  /**
   * Board.get_last_post: the first post of the board's posts newest first,
   * or none when the board has no post.
   */
  function GetLastPost(st: Store, b: Board): (r: Option<Post>)
    ensures r.None? <==> forall p :: p in st.posts ==> !InBoard(st, p, b)
    ensures r.Some? ==> r.value in st.posts && InBoard(st, r.value, b)
    ensures r.Some? ==> forall q :: q in st.posts && InBoard(st, q, b) ==> q.createdAt <= r.value.createdAt
  {
    var posts := BoardPosts(st, b);
    var sorted := SortNewestFirst(posts);
    NewestHead(posts, sorted);
    if sorted == [] then None else Some(sorted[0])
  }

  // ----- Topic -----

  /** `self.posts`: the posts whose topic is `t`, in store order. */
  function TopicPosts(st: Store, t: Topic): (r: seq<Post>)
    ensures forall p :: p in r <==> p in st.posts && p.topic == t.id
  {
    Filter(st.posts, (p: Post) => p.topic == t.id)
  }

  /**
   * `self.posts.count()`, the number that Pagination works on: the number
   * of rows of the posts table that refer to the topic.
   */
  function TopicPostCount(st: Store, t: Topic): (n: nat)
    ensures n == |set i | 0 <= i < |st.posts| && st.posts[i].topic == t.id|
  {
    var keep := (p: Post) => p.topic == t.id;
    FilterCountsPositions(st.posts, keep);
    assert Positions(st.posts, keep) == set i | 0 <= i < |st.posts| && st.posts[i].topic == t.id;
    |TopicPosts(st, t)|
  }

  /**
   * Topic.get_last_ten_posts: `self.posts.order_by('-created_at')[:10]`.
   * At most ten posts of the topic, newest first; no post of the topic newer
   * than one shown is left out; with ten or fewer posts, all of them.
   */
  function GetLastTenPosts(st: Store, t: Topic): (r: seq<Post>)
    ensures |r| == if |TopicPosts(st, t)| < 10 then |TopicPosts(st, t)| else 10
    ensures forall p :: p in r ==> p in st.posts && p.topic == t.id
    ensures NewestFirst(r)
    ensures multiset(r) <= multiset(TopicPosts(st, t))
    ensures forall p, q :: p in TopicPosts(st, t) && q in r && p.createdAt > q.createdAt ==> p in r
    ensures |TopicPosts(st, t)| <= 10 ==> multiset(r) == multiset(TopicPosts(st, t))
  {
    var posts := TopicPosts(st, t);
    var sorted := SortNewestFirst(posts);
    var k := if |sorted| < 10 then |sorted| else 10;
    NewestPrefix(posts, sorted, k);
    sorted[..k]
  }

  // ----- Creating a topic with its first post -----

  /** The store after inserting topic `t` and post `p`. */
  function AddTopicAndPost(st: Store, t: Topic, p: Post): (after: Store)
    ensures after.boards == st.boards
    ensures after.topics == st.topics + [t] && after.posts == st.posts + [p]
  {
    Store(st.boards, st.topics + [t], st.posts + [p])
  }

  /** The requirements of a fresh topic `t` with first post `p` on an existing board. */
  predicate FreshTopicWithPost(st: Store, t: Topic, p: Post) {
    && BoardById(st.boards, t.board).Some?
    && TopicById(st.topics, t.id).None?
    && (forall q :: q in st.posts ==> q.id != p.id)
    && p.topic == t.id
  }

  /** Adding a topic with a fresh id and a post changes no existing post's board. */
  lemma InBoardAfterNewTopic(st: Store, t: Topic, p: Post, b: Board)
    requires WellFormed(st) && FreshTopicWithPost(st, t, p)
    ensures forall q :: q in st.posts ==> InBoard(AddTopicAndPost(st, t, p), q, b) == InBoard(st, q, b)
  {
  }

  /** The integrity rules survive adding a fresh topic on an existing board with its first post. */
  lemma NewTopicKeepsWellFormed(st: Store, t: Topic, p: Post)
    requires WellFormed(st) && FreshTopicWithPost(st, t, p)
    ensures WellFormed(AddTopicAndPost(st, t, p))
  {
    var after := AddTopicAndPost(st, t, p);
    assert TopicById(after.topics, t.id) == Some(t);
    forall q | q in after.posts ensures TopicById(after.topics, q.topic).Some? {
      if q != p {
        TopicByIdAppend(st.topics, t, q.topic);
      }
    }
  }

  /** Every board keeps its posts; the new topic's board gains the new post. */
  lemma BoardPostsAfterNewTopic(st: Store, t: Topic, p: Post, b: Board)
    requires WellFormed(st) && FreshTopicWithPost(st, t, p)
    ensures BoardPosts(AddTopicAndPost(st, t, p), b) == BoardPosts(st, b) + (if t.board == b.id then [p] else [])
  {
    var after := AddTopicAndPost(st, t, p);
    InBoardAfterNewTopic(st, t, p, b);
    FilterSameTest(st.posts, (q: Post) => InBoard(after, q, b), (q: Post) => InBoard(st, q, b));
    FilterAppend(st.posts, p, (q: Post) => InBoard(after, q, b));
    assert TopicById(after.topics, t.id) == Some(t);
  }

  /** The new topic holds exactly its first post. */
  lemma TopicPostsAfterNewTopic(st: Store, t: Topic, p: Post)
    requires WellFormed(st) && FreshTopicWithPost(st, t, p)
    ensures TopicPosts(AddTopicAndPost(st, t, p), t) == [p]
  {
    var ofTopic := (q: Post) => q.topic == t.id;
    forall q | q in st.posts ensures !ofTopic(q) {
      assert TopicById(st.topics, q.topic).Some?;
    }
    FilterNone(st.posts, ofTopic);
    FilterAppend(st.posts, p, ofTopic);
  }

  /** A topic whose only post is `p` has one page, page range [1], and `p` as its last ten posts. */
  lemma SinglePostTopic(st: Store, t: Topic, p: Post)
    requires TopicPosts(st, t) == [p]
    ensures Pagination.PageCount(TopicPostCount(st, t)) == 1
    ensures Pagination.PageRange(TopicPostCount(st, t)) == [1]
    ensures GetLastTenPosts(st, t) == [p]
  {
  }

  /**
   * What the request handler does with a valid NewTopicForm: insert a new
   * topic on board `b` and its first post, both created at `now` by `starter`.
   */
  function CreateTopicWithPost(
    st: Store, b: Board, tid: TopicId, pid: PostId,
    subject: string, message: string, starter: UserId, now: Time): (after: Store)
    ensures after.boards == st.boards
    ensures |after.topics| == |st.topics| + 1 && after.topics[..|st.topics|] == st.topics
    ensures |after.posts| == |st.posts| + 1 && after.posts[..|st.posts|] == st.posts
    ensures after.topics[|st.topics|] == NewTopic(tid, subject, b.id, starter, now)
    ensures after.posts[|st.posts|] == NewPost(pid, message, tid, starter, now)
  {
    AddTopicAndPost(st, NewTopic(tid, subject, b.id, starter, now), NewPost(pid, message, tid, starter, now))
  }

  /**
   * Creating a topic together with its first post: with fresh ids on an
   * existing board of a well-formed store, the store stays well formed, the
   * board's post count grows by one (BoardPostsAfterNewTopic: no other board
   * changes), and the new topic holds just that post, on a single page.
   */
  lemma NewTopicWithFirstPost(
    st: Store, b: Board, tid: TopicId, pid: PostId,
    subject: string, message: string, starter: UserId, now: Time)
    requires WellFormed(st) && b in st.boards
    requires TopicById(st.topics, tid).None?
    requires forall q :: q in st.posts ==> q.id != pid
    ensures WellFormed(CreateTopicWithPost(st, b, tid, pid, subject, message, starter, now))
    ensures GetPostsCount(CreateTopicWithPost(st, b, tid, pid, subject, message, starter, now), b)
      == GetPostsCount(st, b) + 1
    ensures Pagination.PageRange(TopicPostCount(
      CreateTopicWithPost(st, b, tid, pid, subject, message, starter, now),
      NewTopic(tid, subject, b.id, starter, now))) == [1]
    ensures GetLastTenPosts(
      CreateTopicWithPost(st, b, tid, pid, subject, message, starter, now),
      NewTopic(tid, subject, b.id, starter, now)) == [NewPost(pid, message, tid, starter, now)]
  {
    var t := NewTopic(tid, subject, b.id, starter, now);
    var p := NewPost(pid, message, tid, starter, now);
    var after := AddTopicAndPost(st, t, p);
    assert after == CreateTopicWithPost(st, b, tid, pid, subject, message, starter, now);
    assert BoardById(st.boards, b.id).Some?;
    assert FreshTopicWithPost(st, t, p);
    NewTopicKeepsWellFormed(st, t, p);
    BoardPostsAfterNewTopic(st, t, p, b);
    TopicPostsAfterNewTopic(st, t, p);
    SinglePostTopic(after, t, p);
  }
}
