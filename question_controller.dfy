/** controllers/QuestionController.js: a teacher's question bank (the
    'QuestionModel' collection). Every handler is scoped to the questions whose
    `createdBy` is the requester. */
module QuestionController {
  import opened Common
  import opened Models
  import opened JsText

  datatype QuestionError =
    | QuestionNotFound  // 404 'Question not found' / '... or you are not the creator'
    | ValidationFailed  // the save is rejected by the schema (500)

  /** The request body fields of `addQuestion` and `updateQuestion`; `None` is a
      field the body leaves out. */
  datatype QuestionFields = QuestionFields(
    questionText: Option<string>,
    questionType: Option<string>,
    options: Option<seq<string>>,
    correctAnswer: Option<seq<string>>,
    timeLimit: Option<int>,
    imageLink: Option<string>,
    answerExplanation: Option<string>,
    subject: Option<string>,
    isActive: Option<bool>)

  /** The filter `{ createdBy: requester }` of `getAllQuestions` and
      `getAllQuestionsImported`. */
  function QuestionsOf(rows: map<Id, QuestionRecord>, requester: Id): (r: map<Id, QuestionRecord>)
    ensures forall id :: id in r <==> id in rows && rows[id].createdBy == requester
    ensures forall id :: id in r ==> r[id] == rows[id]
  {
    map id | id in rows && rows[id].createdBy == requester :: rows[id]
  }

  // ------------------------------------------------------------ status filter

  /** The filter `getStatusQuestionsImported` builds: always the owner, a subject
      only when one is given, an active flag only when one is given. */
  datatype QuestionFilter = QuestionFilter(createdBy: Id, subject: Option<string>, isActive: Option<bool>)

  /** The query's `isActive` text read as a flag: "yes" or "true" in any case,
      without trimming; any other text means inactive. */
  function QueryFlag(s: string): (b: bool)
    ensures b <==> YesOrTrue(s)
    ensures b ==> !IsWhite(s[0]) && !IsWhite(s[|s| - 1])
  {
    LowerIsYesOrTrue(s);
    ToLower(s) == "yes" || ToLower(s) == "true"
  }

  /** The filter of `getStatusQuestionsImported`. An empty query value is
      falsy and adds nothing. */
  function StatusFilter(requester: Id, subject: Option<string>, isActive: Option<string>): (f: QuestionFilter)
    ensures f.createdBy == requester
    ensures f.subject.Some? <==> Truthy(subject)
    ensures f.subject.Some? ==> f.subject == subject
    ensures f.isActive.Some? <==> Truthy(isActive)
    ensures f.isActive.Some? ==> f.isActive.value == QueryFlag(isActive.value)
  {
    QuestionFilter(
      requester,
      if Truthy(subject) then subject else None,
      if Truthy(isActive) then Some(QueryFlag(isActive.value)) else None)
  }

  predicate Matches(f: QuestionFilter, q: QuestionRecord)
  {
    && q.createdBy == f.createdBy
    && (f.subject.Some? ==> q.subject == f.subject)
    && (f.isActive.Some? ==> q.isActive == f.isActive.value)
  }

  /** `QuestionModel.find(filter)`. */
  function FindQuestions(rows: map<Id, QuestionRecord>, f: QuestionFilter): (r: map<Id, QuestionRecord>)
    ensures forall id :: id in r <==> id in rows && Matches(f, rows[id])
    ensures forall id :: id in r ==> r[id] == rows[id]
  {
    map id | id in rows && Matches(f, rows[id]) :: rows[id]
  }

  /** The status query never reaches past the requester's own questions, and
      without a subject or flag it returns exactly all of them. */
  lemma StatusQueryIsOwnerScoped(rows: map<Id, QuestionRecord>, requester: Id, subject: Option<string>, isActive: Option<string>)
    ensures FindQuestions(rows, StatusFilter(requester, subject, isActive)).Keys <= QuestionsOf(rows, requester).Keys
    ensures !Truthy(subject) && !Truthy(isActive) ==>
              FindQuestions(rows, StatusFilter(requester, subject, isActive)) == QuestionsOf(rows, requester)
  {
    var found := FindQuestions(rows, StatusFilter(requester, subject, isActive));
    var own := QuestionsOf(rows, requester);
    if !Truthy(subject) && !Truthy(isActive) {
      assert found.Keys == own.Keys;
    }
  }

  /** Unlike the CSV upload, the query flag is not trimmed: " true" is inactive. */
  lemma QueryFlagIsNotTrimmed()
    ensures QueryFlag("TRUE") && QueryFlag("Yes")
    ensures !QueryFlag(" true") && !QueryFlag("no")
  {
    assert ToLower("TRUE") == "true";
    assert ToLower("Yes") == "yes";
    assert ToLower(" true")[0] == ' ';
    assert |ToLower("no")| == 2;
  }

  // ------------------------------------------------------------ single questions

  /** The filter `{ _id: id, createdBy: requester }`. */
  predicate OwnedBy(rows: map<Id, QuestionRecord>, id: Id, requester: Id)
  {
    id in rows && rows[id].createdBy == requester
  }

  /** The document `addQuestion` saves: the body's fields, the requester as
      creator, and the schema defaults for what the body leaves out. */
  function NewQuestion(requester: Id, f: QuestionFields): (q: QuestionRecord)
    requires f.questionText.Some?
    ensures q.createdBy == requester && q.questionText == f.questionText.value
    ensures q.questionType == (if f.questionType.Some? then f.questionType.value else DefaultQuestionType)
    ensures q.timeLimit == (if f.timeLimit.Some? then f.timeLimit.value else DefaultTimeLimit)
    ensures q.isActive == (f.isActive.None? || f.isActive.value)
    ensures f.options.Some? ==> q.options == f.options.value
    ensures f.options.None? ==> q.options == []
    ensures f.correctAnswer.Some? ==> q.correctAnswer == f.correctAnswer.value
    ensures f.correctAnswer.None? ==> q.correctAnswer == []
    ensures q.imageLink == f.imageLink && q.answerExplanation == f.answerExplanation
    ensures q.subject == f.subject
  {
    QuestionRecord(
      f.questionText.value,
      if f.questionType.Some? then f.questionType.value else DefaultQuestionType,
      if f.options.Some? then f.options.value else [],
      if f.correctAnswer.Some? then f.correctAnswer.value else [],
      if f.timeLimit.Some? then f.timeLimit.value else DefaultTimeLimit,
      f.imageLink, f.answerExplanation, f.subject,
      if f.isActive.Some? then f.isActive.value else true,
      requester)
  }

  /** `addQuestion`. The schema refuses a missing or empty question text. */
  method AddQuestion(questions: Collection<QuestionRecord>, requester: Id, f: QuestionFields) returns (r: Result<Id, QuestionError>)
    requires questions.Valid()
    modifies questions
    ensures questions.Valid()
    ensures r.Ok? <==> Truthy(f.questionText)
    ensures r.Err? ==> r.error == ValidationFailed && questions.rows == old(questions.rows)
                       && questions.nextId == old(questions.nextId)
    ensures r.Ok? ==> r.value !in old(questions.rows)
                      && questions.rows == old(questions.rows)[r.value := NewQuestion(requester, f)]
  {
    if !Truthy(f.questionText) {
      return Err(ValidationFailed);
    }
    var id := questions.Insert(NewQuestion(requester, f));
    r := Ok(id);
  }

  /** `getQuestionById`. */
  function GetQuestion(rows: map<Id, QuestionRecord>, id: Id, requester: Id): (r: Result<QuestionRecord, QuestionError>)
    ensures r.Ok? <==> OwnedBy(rows, id, requester)
    ensures r.Ok? ==> r.value == rows[id] && r.value.createdBy == requester
    ensures r.Err? ==> r.error == QuestionNotFound
  {
    if OwnedBy(rows, id, requester) then Ok(rows[id]) else Err(QuestionNotFound)
  }

  /** The update document of `updateQuestion`: the fields the body gives replace
      the stored ones; the creator is never touched. */
  function ApplyFields(q: QuestionRecord, f: QuestionFields): (u: QuestionRecord)
    ensures u.createdBy == q.createdBy
    ensures f.questionText.Some? ==> u.questionText == f.questionText.value
    ensures f.questionText.None? ==> u.questionText == q.questionText
    ensures f.questionType.Some? ==> u.questionType == f.questionType.value
    ensures f.questionType.None? ==> u.questionType == q.questionType
    ensures f.options.Some? ==> u.options == f.options.value
    ensures f.options.None? ==> u.options == q.options
    ensures f.correctAnswer.Some? ==> u.correctAnswer == f.correctAnswer.value
    ensures f.correctAnswer.None? ==> u.correctAnswer == q.correctAnswer
    ensures f.timeLimit.Some? ==> u.timeLimit == f.timeLimit.value
    ensures f.timeLimit.None? ==> u.timeLimit == q.timeLimit
    ensures f.imageLink.Some? ==> u.imageLink == f.imageLink
    ensures f.imageLink.None? ==> u.imageLink == q.imageLink
    ensures f.answerExplanation.Some? ==> u.answerExplanation == f.answerExplanation
    ensures f.answerExplanation.None? ==> u.answerExplanation == q.answerExplanation
    ensures f.subject.Some? ==> u.subject == f.subject
    ensures f.subject.None? ==> u.subject == q.subject
    ensures f.isActive.Some? ==> u.isActive == f.isActive.value
    ensures f.isActive.None? ==> u.isActive == q.isActive
    ensures f == QuestionFields(None, None, None, None, None, None, None, None, None) ==> u == q
  {
    QuestionRecord(
      Overlay(f.questionText, q.questionText),
      Overlay(f.questionType, q.questionType),
      Overlay(f.options, q.options),
      Overlay(f.correctAnswer, q.correctAnswer),
      Overlay(f.timeLimit, q.timeLimit),
      OverlayOption(f.imageLink, q.imageLink),
      OverlayOption(f.answerExplanation, q.answerExplanation),
      OverlayOption(f.subject, q.subject),
      Overlay(f.isActive, q.isActive),
      q.createdBy)
  }

  /** `updateQuestion`: changes the matched question only. The update
      validators run before the match: a body that sets the required question
      text to "" is refused whichever question it names. */
  method UpdateQuestion(questions: Collection<QuestionRecord>, requester: Id, id: Id, f: QuestionFields)
    returns (r: Result<QuestionRecord, QuestionError>)
    modifies questions
    ensures questions.nextId == old(questions.nextId)
    ensures r.Ok? <==> f.questionText != Some("") && OwnedBy(old(questions.rows), id, requester)
    ensures r.Err? ==> questions.rows == old(questions.rows)
    ensures r.Err? ==> r.error == (if f.questionText == Some("") then ValidationFailed else QuestionNotFound)
    ensures r.Ok? ==> r.value == ApplyFields(old(questions.rows)[id], f)
                      && questions.rows == old(questions.rows)[id := r.value]
  {
    if f.questionText == Some("") {
      return Err(ValidationFailed);
    }
    if !OwnedBy(questions.rows, id, requester) {
      return Err(QuestionNotFound);
    }
    var updated := ApplyFields(questions.rows[id], f);
    questions.rows := questions.rows[id := updated];
    r := Ok(updated);
  }

  /** `deleteQuestion`: removes the matched question and no other. */
  method DeleteQuestion(questions: Collection<QuestionRecord>, requester: Id, id: Id)
    returns (r: Result<QuestionRecord, QuestionError>)
    modifies questions
    ensures questions.nextId == old(questions.nextId)
    ensures r.Ok? <==> OwnedBy(old(questions.rows), id, requester)
    ensures r.Err? ==> r.error == QuestionNotFound && questions.rows == old(questions.rows)
    ensures r.Ok? ==> r.value == old(questions.rows)[id] && questions.rows == old(questions.rows) - {id}
    ensures forall k :: k in old(questions.rows) && k != id ==> k in questions.rows && questions.rows[k] == old(questions.rows)[k]
  {
    if !OwnedBy(questions.rows, id, requester) {
      return Err(QuestionNotFound);
    }
    r := Ok(questions.rows[id]);
    questions.rows := questions.rows - {id};
  }
}
