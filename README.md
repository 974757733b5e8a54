# Discussion boards: entities, pagination and forms

A Dafny model of the data and validation layer of a small Django
discussion board (`boards/models.py`, `boards/forms.py`). Boards hold
topics, topics hold posts. The model covers:

- the entities `Board`, `Topic` and `Post`, their field constraints and
  creation defaults, and an explicit in-memory `Store` standing for the
  three database tables (module `Models`, `models.dfy`);
- the pagination arithmetic of a topic's post listing: 20 posts per page,
  a topic with more than 6 pages shows only the preview window
  `[1, 2, 3, 4]` (module `Pagination`, `pagination.dfy`);
- the derived read queries: a board's post count and last post, a topic's
  post count and its ten newest posts, written as the filter / count /
  `order_by('-created_at')` / slice the ORM runs (module `Queries`,
  `queries.dfy`), plus the insertion of a new topic with its first post;
- `Post.__str__`, the 30-character excerpt (`Models.Excerpt`);
- the three forms `NewTopicForm`, `PostForm` and `NewBoardForm` as
  validators over submitted data, with field errors, the board-name
  uniqueness check and what `save(commit=False)` sets on the instance
  (module `Forms`, `forms.dfy`);
- `Option` and `Result` (module `Wrappers`, `wrappers.dfy`).

Ids are naturals, users are opaque ids, and `auto_now_add` timestamps are
naturals supplied by the caller. The store is an explicit parameter of
every query.

Two points of the code fix details a reader might expect otherwise:

- `order_by('-created_at')` allows equal timestamps, so `GetLastTenPosts`
  promises non-increasing, not strictly decreasing, creation times.
- A ModelForm runs `validate_unique` inside `is_valid`, so a taken board
  name is an error on the `name` field of `NewBoardForm`, reported only
  when the name passed its own required, length and null-character
  checks: Django leaves fields that already failed out of the uniqueness
  check.

## Model

| member | source | states |
|---|---|---|
| Pagination.PageCount | boards/models.py:47-50 | the page count is the least number of 20-post pages holding all posts: `n <= 20*pages < n + 20` |
| Pagination.PageCountIsCeiling | boards/models.py:47-50 | those two inequalities determine the page count uniquely, so it is the ceiling of n/20 |
| Pagination.PageCountBoundaries | boards/models.py:47-50 | 0 posts give 0 pages, 1 to 20 posts give 1 page, 21 posts give 2 pages |
| Pagination.PageCountMonotonic | boards/models.py:47-50 | more posts never need fewer pages |
| Pagination.HasManyPages | boards/models.py:52-55 | with an explicit count: true iff count > 6; without one: true iff the topic's own page count exceeds 6, i.e. it has more than 120 posts |
| Pagination.PageRange | boards/models.py:57-61 | exactly the preview window `[1, 2, 3, 4]` when the page count exceeds 6, whatever the real count; otherwise exactly `1 .. page count` |
| Pagination.PageRangeWithinPages | boards/models.py:57-61 | every page number offered is between 1 and the page count, and at most 6 numbers are offered |
| Pagination.PageRangeEmptyIffNoPosts | boards/models.py:57-61 | the range is empty exactly when the topic has no posts |
| Models.ValidBoard | boards/models.py:15-16 | a board's name is 1 to 30 characters and its description 1 to 100 |
| Models.ValidTopic | boards/models.py:28 | a topic's subject is 1 to 255 characters |
| Models.ValidPost | boards/models.py:67 | a post's message is 1 to 4000 characters, the length rule the form generated from this TextField enforces |
| Models.WellFormed | boards/models.py:14-73 | the store's integrity rules: primary keys unique per table, board names unique (`unique=True`), every topic's board and every post's topic exist |
| Models.BoardNameIdentifiesBoard | boards/models.py:15 | in a well-formed store two boards with the same name are the same board |
| Models.NewTopic | boards/models.py:27-42 | a new topic takes `views` = 0 and `last_update` = creation time, with the given subject, board and starter |
| Models.NewPost | boards/models.py:66-73 | a new post takes `created_at` = creation time and leaves `updated_at` and `updated_by` both unset |
| Models.BoardById | boards/models.py:40 | the foreign-key lookup of a board finds a board with that id, and misses exactly when no board has it |
| Models.TopicById | boards/models.py:68 | the foreign-key lookup of a topic finds a topic with that id, and misses exactly when no topic has it |
| Models.Excerpt | boards/models.py:75-77 | a message of at most 30 characters is returned unchanged; a longer one becomes its first 29 characters followed by `…`, 30 characters in all |
| Models.ExcerptIsPrefixAndMarker | boards/models.py:75-77 | a cut excerpt is a proper prefix of the message followed by the marker |
| Models.ExcerptIdempotent | boards/models.py:75-77 | an excerpt is at most 30 characters long and taking it again changes nothing |
| Queries.Filter | boards/models.py:22 | a filter keeps exactly the rows its test accepts, never more rows than it was given |
| Queries.FilterCountsPositions | boards/models.py:22 | `count()` of a filter is the number of rows of the table the test accepts |
| Queries.SortNewestFirst | boards/models.py:25 | `order_by('-created_at')` is a permutation of the rows with creation times non-increasing |
| Queries.BoardPosts | boards/models.py:22 | `filter(topic__board=self)` holds exactly the posts whose topic belongs to the board |
| Queries.GetPostsCount | boards/models.py:21-22 | a board's post count is the number of rows of the posts table whose topic's board is that board |
| Queries.GetLastPost | boards/models.py:24-25 | none iff the board has no post; otherwise a post of the board whose `created_at` is at least that of every post of the board |
| Queries.TopicPosts | boards/models.py:48 | `self.posts` holds exactly the posts that refer to the topic |
| Queries.TopicPostCount | boards/models.py:48 | a topic's post count, on which pagination works, is the number of rows of the posts table that refer to it |
| Queries.GetLastTenPosts | boards/models.py:63-64 | min(10, n) posts, all of this topic, newest first, drawn from the topic's posts, leaving out no post newer than one shown, and all of them when the topic has 10 or fewer |
| Queries.AddTopicAndPost | boards/forms.py:4-17 | inserting a topic and a post appends one row to each of those tables and leaves the boards table alone |
| Queries.NewTopicKeepsWellFormed | boards/models.py:40-41 | adding a topic with a fresh id on an existing board, with a post referring to it, keeps every id unique and every foreign key resolvable |
| Queries.BoardPostsAfterNewTopic | boards/models.py:21-22 | after that insertion the board of the new topic gains exactly the new post and every other board's posts are unchanged |
| Queries.TopicPostsAfterNewTopic | boards/models.py:63-64 | the new topic's posts are exactly its first post |
| Queries.SinglePostTopic | boards/models.py:47-64 | a topic whose only post is `p` has 1 page, page range `[1]` and last ten posts `[p]` |
| Queries.CreateTopicWithPost | boards/forms.py:4-17 | existing rows are kept; the new topic row is `NewTopic` of the form's subject, the board, the starter and the creation time (`views` = 0, `last_update` = now); the new post row is `NewPost` of the form's message, the topic, the author and the creation time (`updated_at`, `updated_by` unset) |
| Queries.NewTopicWithFirstPost | boards/models.py:21-64 | creating a topic with its first post on a board keeps the store well formed, raises the board's post count by one, and gives the topic page range `[1]` and that post as its last ten |
| Forms.CleanCharField | boards/forms.py:24-33 | a required character field accepts a value iff it is non-empty, within its maximum length and free of null characters; an empty value fails with Required alone, otherwise every failing validator adds its error: TooLong(limit, length) for a longer value, NullCharacter for a null character |
| Forms.CleanNewTopicForm | boards/forms.py:4-17 | valid iff `subject` is non-empty, at most 255 characters and free of null characters and `message` non-empty, at most 4000 characters and free of null characters; on failure the errors name exactly the failing fields, each with the errors of its own cleaning |
| Forms.ApplyNewTopicForm | boards/forms.py:13-17 | saving the form sets only the topic's subject; board, starter, views and last_update are untouched |
| Forms.NewTopicFormYieldsValidRecords | boards/models.py:27-28 | a valid NewTopicForm yields a topic and a first post that meet the model's field constraints |
| Forms.NewTopicFormBoundaries | boards/forms.py:4-17 | without null characters, 255 subject and 4000 message characters pass; 256 and 4001 fail with TooLong on that field |
| Forms.CleanPostForm | boards/forms.py:19-22 | valid iff `message` is non-empty, at most 4000 characters and free of null characters; on failure the only errors are on `message`, those of its cleaning |
| Forms.ApplyPostForm | boards/forms.py:19-22 | saving the form sets only the message; topic, created_at, created_by, updated_at and updated_by are untouched |
| Forms.PostFormBoundary | boards/forms.py:19-22 | a 4000-character message passes, 4001 characters fail with TooLong, an empty message fails with Required, a message holding a null character with NullCharacter |
| Forms.CleanNewBoardForm | boards/forms.py:24-37 | valid iff `name` is non-empty, at most 30 characters, free of null characters and not an existing board's name, and `description` non-empty, at most 100 characters and free of null characters; errors name exactly the failing fields, each with the errors of its own cleaning, except that a name that passed its own checks fails with NameTaken alone |
| Forms.NewBoardFormBoundaries | boards/forms.py:24-33 | without null characters, a new 30-character name and a 100-character description pass; 31 and 101 fail with TooLong on that field |
| Forms.NewBoardFormRejectsTakenName | boards/models.py:15 | a name already used by a board of the store is rejected on the `name` field, as NameTaken when it is otherwise well formed |
| Forms.SaveNewBoard | boards/forms.py:35-37 | saving appends one board row with the cleaned name and description and changes nothing else |
| Forms.NewBoardKeepsWellFormed | boards/models.py:15-16 | saving a valid form under a fresh id keeps ids and names unique and foreign keys resolvable, the new board meets its field constraints, and the set of names grows by exactly the new one |
| Forms.SameFieldValuesSameOutcome | boards/forms.py:4-37 | two submissions with the same values for a form's listed fields get the same outcome, cleaned data or errors, from that form |
| Forms.FormsReadOnlyListedFields | boards/forms.py:4-37 | each form's outcome depends only on the fields of its `fields` list; any other submitted key is ignored |

## Left out

- `Post.get_message_as_markdown` (boards/models.py:79-80): a call into the
  external markdown converter and Django's `mark_safe`; its escaping is that
  library's behaviour and is not part of this model.
- `Board.__str__` and `Topic.__str__` (boards/models.py:18-19, 44-45) return a
  field unchanged; they have nothing to state beyond the field itself.
- The ORM: QuerySets, `related_name` reverse lookups and `DO_NOTHING`
  deletion are replaced by explicit functions over the `Store`. Deletion is
  not modelled. Database errors such as an IntegrityError on a duplicate
  primary key are not modelled: the insertion lemmas require fresh ids.
- The race between a form's uniqueness check and the insert of the board,
  the race on `views` and the non-atomic topic-plus-post insertion:
  concurrency is not modelled; insertions are single steps.
- The clock: `auto_now_add` timestamps are naturals passed in by the caller.
- `views`: nothing in the code changes it; only its default 0 and its
  non-negativity (type `nat`) are modelled.
- Users and authentication: a user is an opaque natural id.
- Float arithmetic: `math.ceil(count / 20)` is computed exactly as an integer
  division rounded up.
- Queries.SortNewestFirst: posts with equal `created_at` keep their store
  order; the database leaves the order of such ties unspecified, and no
  property proved depends on it.
- Forms.CleanCharField: Django strips leading and trailing whitespace before
  the required and length checks; the model checks the value as submitted.
- Models.Excerpt: Django's Truncator does not count combining characters and
  normalises the text first; the model counts every character.
- Widget attributes, placeholders and help texts of the forms are
  presentation only.
- Error messages: each error is a `FieldError` value, not the human-readable
  text Django renders.
