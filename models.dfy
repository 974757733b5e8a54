/**
 * The entities of the discussion board (Board, Topic, Post in
 * boards/models.py), their field constraints and creation defaults, the
 * in-memory store that stands for the database tables, and Post's excerpt.
 * Foreign keys are ids; users are opaque ids; timestamps are naturals
 * supplied by the caller.
 */
module Models {
  import opened Wrappers

  type BoardId = nat
  type TopicId = nat
  type PostId = nat
  type UserId = nat
  type Time = nat

  const BoardNameMaxLength: nat := 30
  const BoardDescriptionMaxLength: nat := 100
  const TopicSubjectMaxLength: nat := 255
  const PostMessageMaxLength: nat := 4000

  /** Number of characters Post's excerpt keeps, marker included. */
  const ExcerptLength: nat := 30
  /** The marker Truncator.chars appends to a cut message. */
  const TruncationMarker: char := '…'

  datatype Board = Board(id: BoardId, name: string, description: string)

  /** `lastUpdate` is set once when the topic is created and never refreshed. */
  datatype Topic = Topic(
    id: TopicId,
    subject: string,
    lastUpdate: Time,
    board: BoardId,
    starter: UserId,
    views: nat)

  datatype Post = Post(
    id: PostId,
    message: string,
    topic: TopicId,
    createdAt: Time,
    updatedAt: Option<Time>,
    createdBy: UserId,
    updatedBy: Option<UserId>)

  /** The three tables, each in insertion order. */
  datatype Store = Store(boards: seq<Board>, topics: seq<Topic>, posts: seq<Post>)

  /**
   * A value that is non-blank and within `maxLength` characters. Model
   * validation enforces this for Board.name, Board.description and
   * Topic.subject (CharField); for Post.message, a TextField, the database
   * does not enforce `max_length` and only the form field generated from it
   * does, so ValidPost states the form's rule.
   */
  predicate FitsField(value: string, maxLength: nat) {
    0 < |value| <= maxLength
  }

  /** What model validation demands of a board's own fields (unique=True is a rule of the store, WellFormed). */
  predicate ValidBoard(b: Board) {
    FitsField(b.name, BoardNameMaxLength) && FitsField(b.description, BoardDescriptionMaxLength)
  }

  /** What model validation demands of a topic's own fields. */
  predicate ValidTopic(t: Topic) {
    FitsField(t.subject, TopicSubjectMaxLength)
  }

  /** The length rule the form generated from Post.message enforces. */
  predicate ValidPost(p: Post) {
    FitsField(p.message, PostMessageMaxLength)
  }

  /**
   * A topic as first saved: `views` takes its default 0 and `last_update`
   * the creation time (auto_now_add).
   */
  function NewTopic(id: TopicId, subject: string, board: BoardId, starter: UserId, now: Time): (t: Topic)
    ensures t.id == id && t.subject == subject && t.board == board && t.starter == starter
    ensures t.views == 0 && t.lastUpdate == now
  {
    Topic(id, subject, now, board, starter, 0)
  }

  /**
   * A post as first saved: `created_at` is the creation time (auto_now_add)
   * and the nullable edit fields `updated_at`, `updated_by` are both unset.
   */
  function NewPost(id: PostId, message: string, topic: TopicId, author: UserId, now: Time): (p: Post)
    ensures p.id == id && p.message == message && p.topic == topic && p.createdBy == author
    ensures p.createdAt == now && p.updatedAt.None? && p.updatedBy.None?
  {
    Post(id, message, topic, now, None, author, None)
  }

  /** The board row with primary key `id`, if there is one. */
  function BoardById(boards: seq<Board>, id: BoardId): (r: Option<Board>)
    ensures r.Some? ==> r.value in boards && r.value.id == id
    ensures r.None? <==> forall b :: b in boards ==> b.id != id
  {
    if boards == [] then None
    else if boards[|boards| - 1].id == id then Some(boards[|boards| - 1])
    else
      var r := BoardById(boards[..|boards| - 1], id);
      assert forall b :: b in boards ==> b in boards[..|boards| - 1] || b == boards[|boards| - 1];
      r
  }

  /** The topic row with primary key `id`, if there is one. */
  function TopicById(topics: seq<Topic>, id: TopicId): (r: Option<Topic>)
    ensures r.Some? ==> r.value in topics && r.value.id == id
    ensures r.None? <==> forall t :: t in topics ==> t.id != id
  {
    if topics == [] then None
    else if topics[|topics| - 1].id == id then Some(topics[|topics| - 1])
    else
      var r := TopicById(topics[..|topics| - 1], id);
      assert forall t :: t in topics ==> t in topics[..|topics| - 1] || t == topics[|topics| - 1];
      r
  }

  /** Appending a board with another id leaves every lookup of an existing id unchanged. */
  lemma BoardByIdAppend(boards: seq<Board>, b: Board, id: BoardId)
    requires b.id != id
    ensures BoardById(boards + [b], id) == BoardById(boards, id)
  {
  }

  /** Appending a topic with another id leaves every lookup of an existing id unchanged. */
  lemma TopicByIdAppend(topics: seq<Topic>, t: Topic, id: TopicId)
    requires t.id != id
    ensures TopicById(topics + [t], id) == TopicById(topics, id)
  {
    assert (topics + [t])[..|topics|] == topics;
  }

  /** Names of the existing boards, against which a new name must be unique. */
  function BoardNames(st: Store): set<string> {
    set b | b in st.boards :: b.name
  }

  /**
   * The database's integrity rules: primary keys are unique, board names
   * are unique (unique=True), and every foreign key refers to an existing row.
   */
  predicate WellFormed(st: Store) {
    && (forall i, j :: 0 <= i < j < |st.boards| ==> st.boards[i].id != st.boards[j].id)
    && (forall i, j :: 0 <= i < j < |st.boards| ==> st.boards[i].name != st.boards[j].name)
    && (forall i, j :: 0 <= i < j < |st.topics| ==> st.topics[i].id != st.topics[j].id)
    && (forall i, j :: 0 <= i < j < |st.posts| ==> st.posts[i].id != st.posts[j].id)
    && (forall t :: t in st.topics ==> BoardById(st.boards, t.board).Some?)
    && (forall p :: p in st.posts ==> TopicById(st.topics, p.topic).Some?)
  }

  /** In a well-formed store a board name identifies the board: no two rows share it. */
  lemma BoardNameIdentifiesBoard(st: Store, b1: Board, b2: Board)
    requires WellFormed(st) && b1 in st.boards && b2 in st.boards && b1.name == b2.name
    ensures b1 == b2
  {
    var i :| 0 <= i < |st.boards| && st.boards[i] == b1;
    var j :| 0 <= j < |st.boards| && st.boards[j] == b2;
  }

  /**
   * Post.__str__: Truncator(message).chars(30). A message of at most 30
   * characters is shown whole; a longer one is cut to its first 29
   * characters followed by the marker, 30 characters in all.
   */
  function Excerpt(message: string): (r: string)
    ensures |message| <= ExcerptLength ==> r == message
    ensures |message| > ExcerptLength ==>
      && |r| == ExcerptLength
      && r[..ExcerptLength - 1] == message[..ExcerptLength - 1]
      && r[ExcerptLength - 1] == TruncationMarker
  {
    if |message| <= ExcerptLength then message
    else message[..ExcerptLength - 1] + [TruncationMarker]
  }

  /** A cut excerpt is a proper prefix of the message followed by the marker. */
  lemma ExcerptIsPrefixAndMarker(message: string)
    requires |message| > ExcerptLength
    ensures exists k :: 0 <= k < |message| && Excerpt(message) == message[..k] + [TruncationMarker]
  {
    var k := ExcerptLength - 1;
    assert Excerpt(message) == message[..k] + [TruncationMarker];
  }

  /** An excerpt never exceeds 30 characters, and taking it twice changes nothing. */
  lemma ExcerptIdempotent(message: string)
    ensures |Excerpt(message)| <= ExcerptLength
    ensures Excerpt(Excerpt(message)) == Excerpt(message)
  {
  }
}
