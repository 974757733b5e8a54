/**
 * The three ModelForms of boards/forms.py as validators over submitted
 * form data. Submitted data maps field names to the strings the browser
 * sent; a field that was not sent reads as empty, as Django's CharField
 * does. Each form reads only the fields it lists and cleans each one:
 * an empty value is rejected outright, otherwise every validator of the
 * field runs (maximum length, no null character) and all their errors
 * are collected. NewBoardForm also checks that no existing board has the
 * submitted name (Board.name is unique=True). A form whose fields all
 * clean yields its cleaned values; otherwise it yields, for each failing
 * field, the list of its errors.
 */
module Forms {
  import opened Wrappers
  import opened Models

  type FormData = map<string, string>

  /** Why one field was rejected. */
  datatype FieldError =
    | Required                             // missing or empty
    | TooLong(maxLength: nat, length: nat) // more characters than the field's max_length
    | NullCharacter                        // contains the character U+0000
    | NameTaken                            // a board with this name already exists

  /** The form's `errors`: field name to the errors that field raised, in the order raised. */
  type Errors = map<string, seq<FieldError>>

  /** The character every forms.CharField refuses (ProhibitNullCharactersValidator). */
  const NullChar: char := '\0'

  const SubjectField: string := "subject"
  const MessageField: string := "message"
  const NameField: string := "name"
  const DescriptionField: string := "description"

  /** The raw value of `field`, or the empty string when it was not sent. */
  function Value(data: FormData, field: string): (v: string)
    ensures field in data ==> v == data[field]
    ensures field !in data ==> v == ""
  {
    if field in data then data[field] else ""
  }

  /**
   * What a required forms.CharField with a maximum length accepts: the
   * model field's constraint (Models.FitsField) and no null character.
   */
  predicate CharFieldAccepts(v: string, maxLength: nat) {
    FitsField(v, maxLength) && NullChar !in v
  }

  /**
   * CharField.clean for a required field with a maximum length. An empty
   * value fails with Required alone (the validators do not run); otherwise
   * both validators run and every one that fails contributes its error:
   * TooLong for more than `maxLength` characters, NullCharacter for a
   * null character. A value no validator rejects is the cleaned value.
   */
  function CleanCharField(data: FormData, field: string, maxLength: nat): (r: Result<string, seq<FieldError>>)
    ensures r.Success? <==> CharFieldAccepts(Value(data, field), maxLength)
    ensures r.Success? ==> r.value == Value(data, field)
    ensures r.Failure? ==> r.error != []
    ensures Value(data, field) == "" ==> r == Failure([Required])
    ensures r.Failure? && Value(data, field) != "" ==>
      var v := Value(data, field);
      && Required !in r.error
      && (TooLong(maxLength, |v|) in r.error <==> |v| > maxLength)
      && (NullCharacter in r.error <==> NullChar in v)
      && (forall e :: e in r.error ==> e == TooLong(maxLength, |v|) || e == NullCharacter)
  {
    var v := Value(data, field);
    if v == "" then Failure([Required])
    else
      var errors :=
        (if |v| > maxLength then [TooLong(maxLength, |v|)] else []) +
        (if NullChar in v then [NullCharacter] else []);
      if errors == [] then Success(v) else Failure(errors)
  }

  /** The error entry a cleaned field contributes to the form's errors. */
  function ErrorEntry(field: string, r: Result<string, seq<FieldError>>): (e: Errors)
    ensures field in e <==> r.Failure?
    ensures forall k :: k in e ==> k == field && e[k] == r.error
  {
    if r.Failure? then map[field := r.error] else map[]
  }

  // ----- NewTopicForm -----

  /** The cleaned data of NewTopicForm: the topic's subject and its first post's message. */
  datatype TopicInput = TopicInput(subject: string, message: string)

  /**
   * NewTopicForm.is_valid: `subject` comes from Topic.subject (required,
   * at most 255 characters) and `message` is declared on the form
   * (required, at most 4000 characters). Each failing field reports the
   * errors its own cleaning raised.
   */
  function CleanNewTopicForm(data: FormData): (r: Result<TopicInput, Errors>)
    ensures r.Success? <==>
      CharFieldAccepts(Value(data, SubjectField), TopicSubjectMaxLength) &&
      CharFieldAccepts(Value(data, MessageField), PostMessageMaxLength)
    ensures r.Success? ==>
      r.value.subject == Value(data, SubjectField) && r.value.message == Value(data, MessageField)
    ensures r.Failure? ==>
      && r.error != map[]
      && (SubjectField in r.error <==> !CharFieldAccepts(Value(data, SubjectField), TopicSubjectMaxLength))
      && (MessageField in r.error <==> !CharFieldAccepts(Value(data, MessageField), PostMessageMaxLength))
      && (forall k :: k in r.error ==> k == SubjectField || k == MessageField)
      && (SubjectField in r.error ==> r.error[SubjectField] == CleanCharField(data, SubjectField, TopicSubjectMaxLength).error)
      && (MessageField in r.error ==> r.error[MessageField] == CleanCharField(data, MessageField, PostMessageMaxLength).error)
  {
    var subject := CleanCharField(data, SubjectField, TopicSubjectMaxLength);
    var message := CleanCharField(data, MessageField, PostMessageMaxLength);
    if subject.Success? && message.Success? then Success(TopicInput(subject.value, message.value))
    else Failure(ErrorEntry(SubjectField, subject) + ErrorEntry(MessageField, message))
  }

  /**
   * `form.save(commit=False)` of NewTopicForm on a topic: of the topic's
   * fields only `subject` is listed, so only it is set; `message` is not a
   * Topic field and `board`, `starter`, `views` and `last_update` are left
   * to the caller.
   */
  function ApplyNewTopicForm(t: Topic, input: TopicInput): (r: Topic)
    ensures r.subject == input.subject
    ensures r.id == t.id && r.board == t.board && r.starter == t.starter
    ensures r.views == t.views && r.lastUpdate == t.lastUpdate
  {
    t.(subject := input.subject)
  }

  /** A valid NewTopicForm yields a topic and a first post that satisfy the model's field constraints. */
  lemma NewTopicFormYieldsValidRecords(
    data: FormData, tid: TopicId, pid: PostId, b: BoardId, starter: UserId, now: Time)
    requires CleanNewTopicForm(data).Success?
    ensures var input := CleanNewTopicForm(data).value;
      && ValidTopic(NewTopic(tid, input.subject, b, starter, now))
      && ValidPost(NewPost(pid, input.message, tid, starter, now))
  {
  }

  /**
   * The boundaries of NewTopicForm: non-empty values without a null
   * character pass at 255 subject and 4000 message characters; one more
   * character fails with TooLong on that field.
   */
  lemma NewTopicFormBoundaries(subject: string, message: string)
    requires 0 < |subject| && 0 < |message|
    ensures var data := map[SubjectField := subject, MessageField := message];
      && (|subject| <= 255 && |message| <= 4000 && NullChar !in subject && NullChar !in message
          <==> CleanNewTopicForm(data).Success?)
      && (|subject| == 256 ==> TooLong(255, 256) in CleanNewTopicForm(data).error[SubjectField])
      && (|message| == 4001 ==> TooLong(4000, 4001) in CleanNewTopicForm(data).error[MessageField])
  {
  }

  // ----- PostForm -----

  /** PostForm.is_valid: `message` comes from Post.message (required, at most 4000 characters). */
  function CleanPostForm(data: FormData): (r: Result<string, Errors>)
    ensures r.Success? <==> CharFieldAccepts(Value(data, MessageField), PostMessageMaxLength)
    ensures r.Success? ==> r.value == Value(data, MessageField)
    ensures r.Failure? ==>
      r.error.Keys == {MessageField} &&
      r.error[MessageField] == CleanCharField(data, MessageField, PostMessageMaxLength).error
  {
    var message := CleanCharField(data, MessageField, PostMessageMaxLength);
    if message.Success? then Success(message.value) else Failure(ErrorEntry(MessageField, message))
  }

  /**
   * `form.save(commit=False)` of PostForm, for a new reply or an edit:
   * only `message` is set; `topic`, `created_by`, `created_at` and the
   * edit fields `updated_at`, `updated_by` are left to the caller.
   */
  function ApplyPostForm(p: Post, message: string): (r: Post)
    ensures r.message == message
    ensures r.id == p.id && r.topic == p.topic && r.createdAt == p.createdAt && r.createdBy == p.createdBy
    ensures r.updatedAt == p.updatedAt && r.updatedBy == p.updatedBy
  {
    p.(message := message)
  }

  /**
   * The boundary of PostForm: a 4000-character message passes and a
   * 4001-character one fails with TooLong; an empty message fails with
   * Required alone, and one holding a null character with NullCharacter.
   */
  lemma PostFormBoundary(message: string)
    ensures |message| == 4000 && NullChar !in message ==>
      CleanPostForm(map[MessageField := message]) == Success(message)
    ensures |message| == 4001 && NullChar !in message ==>
      CleanPostForm(map[MessageField := message]) == Failure(map[MessageField := [TooLong(4000, 4001)]])
    ensures message == "" ==>
      CleanPostForm(map[MessageField := message]) == Failure(map[MessageField := [Required]])
    ensures 0 < |message| <= 4000 && NullChar in message ==>
      CleanPostForm(map[MessageField := message]) == Failure(map[MessageField := [NullCharacter]])
  {
    var data := map[MessageField := message];
    assert Value(data, MessageField) == message;
    if |message| == 4001 && NullChar !in message {
      assert CleanCharField(data, MessageField, PostMessageMaxLength).error == [TooLong(4000, 4001)];
    }
    if 0 < |message| <= 4000 && NullChar in message {
      assert CleanCharField(data, MessageField, PostMessageMaxLength).error == [NullCharacter];
    }
  }

  // ----- NewBoardForm -----

  /** The cleaned data of NewBoardForm. */
  datatype BoardInput = BoardInput(name: string, description: string)

  /**
   * NewBoardForm.is_valid against the names of the existing boards:
   * `name` is required and at most 30 characters, `description` required
   * and at most 100, neither may hold a null character. Uniqueness of the
   * name is checked only once the name itself cleaned, as ModelForm leaves
   * fields that already failed out of validate_unique; a taken name is
   * reported on the `name` field.
   */
  function CleanNewBoardForm(data: FormData, existingNames: set<string>): (r: Result<BoardInput, Errors>)
    ensures r.Success? <==>
      && CharFieldAccepts(Value(data, NameField), BoardNameMaxLength)
      && CharFieldAccepts(Value(data, DescriptionField), BoardDescriptionMaxLength)
      && Value(data, NameField) !in existingNames
    ensures r.Success? ==>
      r.value.name == Value(data, NameField) && r.value.description == Value(data, DescriptionField)
    ensures r.Failure? ==>
      && r.error != map[]
      && (NameField in r.error <==>
            !CharFieldAccepts(Value(data, NameField), BoardNameMaxLength) || Value(data, NameField) in existingNames)
      && (DescriptionField in r.error <==> !CharFieldAccepts(Value(data, DescriptionField), BoardDescriptionMaxLength))
      && (forall k :: k in r.error ==> k == NameField || k == DescriptionField)
    ensures r.Failure? && DescriptionField in r.error ==>
      r.error[DescriptionField] == CleanCharField(data, DescriptionField, BoardDescriptionMaxLength).error
    ensures r.Failure? && NameField in r.error ==>
      if CharFieldAccepts(Value(data, NameField), BoardNameMaxLength) then r.error[NameField] == [NameTaken]
      else r.error[NameField] == CleanCharField(data, NameField, BoardNameMaxLength).error
  {
    var name := CleanCharField(data, NameField, BoardNameMaxLength);
    var description := CleanCharField(data, DescriptionField, BoardDescriptionMaxLength);
    var fieldErrors := ErrorEntry(NameField, name) + ErrorEntry(DescriptionField, description);
    var uniqueErrors := if name.Success? && name.value in existingNames then map[NameField := [NameTaken]] else map[];
    var errors := fieldErrors + uniqueErrors;
    if errors == map[] then Success(BoardInput(name.value, description.value))
    else Failure(errors)
  }

  /**
   * The boundaries of NewBoardForm: for a new name and values without a
   * null character, 30 name and 100 description characters pass; 31 and
   * 101 fail with TooLong on that field.
   */
  lemma NewBoardFormBoundaries(name: string, description: string, existingNames: set<string>)
    requires 0 < |name| && 0 < |description| && name !in existingNames
    ensures var data := map[NameField := name, DescriptionField := description];
      && (|name| <= 30 && |description| <= 100 && NullChar !in name && NullChar !in description
          <==> CleanNewBoardForm(data, existingNames).Success?)
      && (|name| == 31 ==> TooLong(30, 31) in CleanNewBoardForm(data, existingNames).error[NameField])
      && (|description| == 101 ==>
            TooLong(100, 101) in CleanNewBoardForm(data, existingNames).error[DescriptionField])
  {
  }

  /** A name already used by a board of the store is rejected on the `name` field, whatever the description. */
  lemma NewBoardFormRejectsTakenName(st: Store, b: Board, data: FormData)
    requires b in st.boards && Value(data, NameField) == b.name
    ensures CleanNewBoardForm(data, BoardNames(st)).Failure?
    ensures NameField in CleanNewBoardForm(data, BoardNames(st)).error
    ensures CharFieldAccepts(b.name, BoardNameMaxLength) ==>
      CleanNewBoardForm(data, BoardNames(st)).error[NameField] == [NameTaken]
  {
  }

  /**
   * `form.save()` of NewBoardForm: a new row with the cleaned name and
   * description, appended to the boards table.
   */
  function SaveNewBoard(st: Store, id: BoardId, input: BoardInput): (after: Store)
    ensures after.topics == st.topics && after.posts == st.posts
    ensures |after.boards| == |st.boards| + 1 && after.boards[..|st.boards|] == st.boards
    ensures after.boards[|st.boards|] == Board(id, input.name, input.description)
  {
    Store(st.boards + [Board(id, input.name, input.description)], st.topics, st.posts)
  }

  /**
   * Saving a valid NewBoardForm under a fresh id keeps the store's
   * integrity rules, board-name uniqueness among them, and the new board
   * satisfies the model's field constraints.
   */
  lemma NewBoardKeepsWellFormed(st: Store, data: FormData, id: BoardId)
    requires WellFormed(st) && BoardById(st.boards, id).None?
    requires CleanNewBoardForm(data, BoardNames(st)).Success?
    ensures var after := SaveNewBoard(st, id, CleanNewBoardForm(data, BoardNames(st)).value);
      && WellFormed(after)
      && ValidBoard(after.boards[|st.boards|])
      && BoardNames(after) == BoardNames(st) + {Value(data, NameField)}
  {
    var input := CleanNewBoardForm(data, BoardNames(st)).value;
    var nb := Board(id, input.name, input.description);
    var after := SaveNewBoard(st, id, input);
    assert after.boards == st.boards + [nb];
    forall i, j | 0 <= i < j < |after.boards|
      ensures after.boards[i].id != after.boards[j].id && after.boards[i].name != after.boards[j].name
    {
      if j == |st.boards| {
        assert after.boards[i] in st.boards;
        assert after.boards[i].name in BoardNames(st);
      }
    }
    forall t | t in after.topics ensures BoardById(after.boards, t.board).Some? {
      assert BoardById(st.boards, t.board).Some?;
      BoardByIdAppend(st.boards, nb, t.board);
    }
    assert BoardNames(after) == BoardNames(st) + {nb.name} by {
      forall n ensures n in BoardNames(after) <==> n in BoardNames(st) + {nb.name} {
        if n in BoardNames(after) {
          var c :| c in after.boards && c.name == n;
          assert c in st.boards || c == nb;
        }
      }
    }
  }

  // ----- Only the listed fields are read -----

  /** The submitted data restricted to the given field names. */
  function Restrict(data: FormData, fields: set<string>): (r: FormData)
    ensures r.Keys == data.Keys * fields
    ensures forall k :: k in r ==> r[k] == data[k]
  {
    map k | k in data && k in fields :: data[k]
  }

  /** Two submissions that agree on a form's fields have the same outcome for each form. */
  lemma SameFieldValuesSameOutcome(d1: FormData, d2: FormData, existingNames: set<string>)
    ensures Value(d1, SubjectField) == Value(d2, SubjectField) && Value(d1, MessageField) == Value(d2, MessageField)
      ==> CleanNewTopicForm(d1) == CleanNewTopicForm(d2)
    ensures Value(d1, MessageField) == Value(d2, MessageField) ==> CleanPostForm(d1) == CleanPostForm(d2)
    ensures Value(d1, NameField) == Value(d2, NameField) && Value(d1, DescriptionField) == Value(d2, DescriptionField)
      ==> CleanNewBoardForm(d1, existingNames) == CleanNewBoardForm(d2, existingNames)
  {
  }

  /**
   * Each form reads only the fields of its `fields` list: dropping every
   * other submitted key (a `board`, `starter`, `topic`, `created_by` or
   * `updated_by` smuggled into the request, say) changes nothing.
   */
  lemma FormsReadOnlyListedFields(data: FormData, existingNames: set<string>)
    ensures CleanNewTopicForm(Restrict(data, {SubjectField, MessageField})) == CleanNewTopicForm(data)
    ensures CleanPostForm(Restrict(data, {MessageField})) == CleanPostForm(data)
    ensures CleanNewBoardForm(Restrict(data, {NameField, DescriptionField}), existingNames)
      == CleanNewBoardForm(data, existingNames)
  {
    var topicData := Restrict(data, {SubjectField, MessageField});
    assert Value(topicData, SubjectField) == Value(data, SubjectField);
    assert Value(topicData, MessageField) == Value(data, MessageField);
    SameFieldValuesSameOutcome(topicData, data, existingNames);
    var postData := Restrict(data, {MessageField});
    assert Value(postData, MessageField) == Value(data, MessageField);
    SameFieldValuesSameOutcome(postData, data, existingNames);
    var boardData := Restrict(data, {NameField, DescriptionField});
    assert Value(boardData, NameField) == Value(data, NameField);
    assert Value(boardData, DescriptionField) == Value(data, DescriptionField);
    SameFieldValuesSameOutcome(boardData, data, existingNames);
  }
}
