/** controllers/TestController.js: a teacher's tests. Every handler that names a
    test matches it by identity AND by `teacherId` equal to the requester. */
module TestController {
  import opened Common
  import opened Models
  import opened MongoArrays

  datatype TestError =
    | TestNotFound      // 404 'Test not found or you are not the creator'
    | QuestionNotFound  // 400 'Question not found'
    | ValidationFailed  // the save is rejected by the schema (500)

  /** The request body fields of `createTest` and `updateTest`; `None` (or
      `Unset`, for a date) is a field the body leaves out. */
  datatype TestFields = TestFields(
    title: Option<string>,
    description: Option<string>,
    duration: Option<int>,
    startDate: Date,
    endDate: Date,
    questions: Option<seq<Id>>)

  /** The filter `{ _id: id, teacherId: requester }`. */
  predicate OwnedBy(rows: map<Id, Test>, id: Id, requester: Id)
  {
    id in rows && rows[id].teacherId == requester
  }

  /** The document `createTest` saves. */
  function NewTest(requester: Id, f: TestFields): (t: Test)
    requires f.title.Some?
    ensures t.teacherId == requester && t.title == f.title.value
    ensures t.questions == (if f.questions.Some? then f.questions.value else [])
    ensures t.duration == (if f.duration.Some? then f.duration.value else DefaultDuration)
    ensures t.description == f.description && t.startDate == f.startDate && t.endDate == f.endDate
    ensures t.visibility.None? && t.allowedStudentIds == []
  {
    Test(requester, f.title.value, f.description,
         if f.questions.Some? then f.questions.value else [],
         if f.duration.Some? then f.duration.value else DefaultDuration,
         f.startDate, f.endDate, None, [])
  }

  /** `createTest`: stores a new test owned by the requester. The schema refuses
      a missing or empty title. */
  method CreateTest(tests: Collection<Test>, requester: Id, f: TestFields) returns (r: Result<Id, TestError>)
    requires tests.Valid()
    modifies tests
    ensures tests.Valid()
    ensures r.Ok? <==> Truthy(f.title)
    ensures r.Err? ==> r.error == ValidationFailed && tests.rows == old(tests.rows) && tests.nextId == old(tests.nextId)
    ensures r.Ok? ==> r.value !in old(tests.rows) && tests.rows == old(tests.rows)[r.value := NewTest(requester, f)]
  {
    if !Truthy(f.title) {
      return Err(ValidationFailed);
    }
    var id := tests.Insert(NewTest(requester, f));
    r := Ok(id);
  }

  /** `getAllTestsByTeacher`: every test the requester owns. */
  function TestsOf(rows: map<Id, Test>, requester: Id): (r: map<Id, Test>)
    ensures forall id :: id in r <==> OwnedBy(rows, id, requester)
    ensures forall id :: id in r ==> id in rows && r[id] == rows[id]
  {
    map id | id in rows && rows[id].teacherId == requester :: rows[id]
  }

  /** `getTestByIdForTeacher`. */
  function GetTestForTeacher(rows: map<Id, Test>, id: Id, requester: Id): (r: Result<Test, TestError>)
    ensures r.Ok? <==> OwnedBy(rows, id, requester)
    ensures r.Ok? ==> r.value == rows[id] && r.value.teacherId == requester
    ensures r.Err? ==> r.error == TestNotFound
  {
    if OwnedBy(rows, id, requester) then Ok(rows[id]) else Err(TestNotFound)
  }

  /** The update document of `updateTest`: the fields the body gives replace the
      stored ones; the owner and the access fields are never touched. */
  function ApplyFields(t: Test, f: TestFields): (u: Test)
    ensures u.teacherId == t.teacherId && u.visibility == t.visibility && u.allowedStudentIds == t.allowedStudentIds
    ensures f.title.Some? ==> u.title == f.title.value
    ensures f.title.None? ==> u.title == t.title
    ensures f.description.Some? ==> u.description == f.description
    ensures f.description.None? ==> u.description == t.description
    ensures f.duration.Some? ==> u.duration == f.duration.value
    ensures f.duration.None? ==> u.duration == t.duration
    ensures !f.startDate.Unset? ==> u.startDate == f.startDate
    ensures f.startDate.Unset? ==> u.startDate == t.startDate
    ensures !f.endDate.Unset? ==> u.endDate == f.endDate
    ensures f.endDate.Unset? ==> u.endDate == t.endDate
    ensures f.questions.Some? ==> u.questions == f.questions.value
    ensures f.questions.None? ==> u.questions == t.questions
    ensures f == TestFields(None, None, None, Unset, Unset, None) ==> u == t
  {
    t.(title := Overlay(f.title, t.title),
       description := OverlayOption(f.description, t.description),
       duration := Overlay(f.duration, t.duration),
       startDate := if f.startDate.Unset? then t.startDate else f.startDate,
       endDate := if f.endDate.Unset? then t.endDate else f.endDate,
       questions := Overlay(f.questions, t.questions))
  }

  /** `updateTest`. The update validators run before the match: a body that
      sets the required title to "" is refused whichever test it names. */
  method UpdateTest(tests: Collection<Test>, requester: Id, id: Id, f: TestFields) returns (r: Result<Test, TestError>)
    modifies tests
    ensures tests.nextId == old(tests.nextId)
    ensures r.Ok? <==> f.title != Some("") && OwnedBy(old(tests.rows), id, requester)
    ensures r.Err? ==> tests.rows == old(tests.rows)
    ensures r.Err? ==> r.error == (if f.title == Some("") then ValidationFailed else TestNotFound)
    ensures r.Ok? ==> r.value == ApplyFields(old(tests.rows)[id], f) && tests.rows == old(tests.rows)[id := r.value]
  {
    if f.title == Some("") {
      return Err(ValidationFailed);
    }
    if !OwnedBy(tests.rows, id, requester) {
      return Err(TestNotFound);
    }
    var updated := ApplyFields(tests.rows[id], f);
    tests.rows := tests.rows[id := updated];
    r := Ok(updated);
  }

  /** `deleteTest`: removes the matched test and no other. */
  method DeleteTest(tests: Collection<Test>, requester: Id, id: Id) returns (r: Result<Test, TestError>)
    modifies tests
    ensures tests.nextId == old(tests.nextId)
    ensures r.Ok? <==> OwnedBy(old(tests.rows), id, requester)
    ensures r.Err? ==> r.error == TestNotFound && tests.rows == old(tests.rows)
    ensures r.Ok? ==> r.value == old(tests.rows)[id] && tests.rows == old(tests.rows) - {id}
    ensures forall k :: k in old(tests.rows) && k != id ==> k in tests.rows && tests.rows[k] == old(tests.rows)[k]
  {
    if !OwnedBy(tests.rows, id, requester) {
      return Err(TestNotFound);
    }
    r := Ok(tests.rows[id]);
    tests.rows := tests.rows - {id};
  }

  /** `addQuestionToTest`: `$addToSet` on the test's question list, THEN the check
      that the question exists; an unknown question is reported but stays added. */
  method AddQuestionToTest(tests: Collection<Test>, bank: map<Id, QuestionDoc>, requester: Id, testId: Id, questionId: Id)
    returns (r: Result<Test, TestError>)
    modifies tests
    ensures tests.nextId == old(tests.nextId)
    ensures !OwnedBy(old(tests.rows), testId, requester) ==> r == Err(TestNotFound) && tests.rows == old(tests.rows)
    ensures OwnedBy(old(tests.rows), testId, requester) ==>
              var t := old(tests.rows)[testId];
              && tests.rows == old(tests.rows)[testId := t.(questions := AddToSet(t.questions, questionId))]
              && (r.Ok? <==> questionId in bank)
              && (r.Ok? ==> r.value == tests.rows[testId])
              && (r.Err? ==> r.error == QuestionNotFound)
              && (Distinct(t.questions) ==> Distinct(tests.rows[testId].questions))
  {
    if !OwnedBy(tests.rows, testId, requester) {
      return Err(TestNotFound);
    }
    var t := tests.rows[testId];
    var updated := t.(questions := AddToSet(t.questions, questionId));
    tests.rows := tests.rows[testId := updated];
    if questionId !in bank {
      return Err(QuestionNotFound);
    }
    r := Ok(updated);
  }

  /** `removeQuestionFromTest`: `$pull` of every occurrence of the question. */
  method RemoveQuestionFromTest(tests: Collection<Test>, requester: Id, testId: Id, questionId: Id)
    returns (r: Result<Test, TestError>)
    modifies tests
    ensures tests.nextId == old(tests.nextId)
    ensures r.Ok? <==> OwnedBy(old(tests.rows), testId, requester)
    ensures r.Err? ==> r.error == TestNotFound && tests.rows == old(tests.rows)
    ensures r.Ok? ==> var t := old(tests.rows)[testId];
                      && r.value == t.(questions := Pull(t.questions, questionId))
                      && tests.rows == old(tests.rows)[testId := r.value]
                      && questionId !in r.value.questions
  {
    if !OwnedBy(tests.rows, testId, requester) {
      return Err(TestNotFound);
    }
    var t := tests.rows[testId];
    var updated := t.(questions := Pull(t.questions, questionId));
    tests.rows := tests.rows[testId := updated];
    r := Ok(updated);
  }

  /** Adding a question the test lacks and removing it again restores the test. */
  method AddThenRemove(tests: Collection<Test>, bank: map<Id, QuestionDoc>, requester: Id, testId: Id, questionId: Id)
    returns (added: Result<Test, TestError>, removed: Result<Test, TestError>)
    requires testId in tests.rows && questionId !in tests.rows[testId].questions
    modifies tests
    ensures tests.rows == old(tests.rows)
  {
    added := AddQuestionToTest(tests, bank, requester, testId, questionId);
    removed := RemoveQuestionFromTest(tests, requester, testId, questionId);
    PullUndoesAddToSet(old(tests.rows)[testId].questions, questionId);
    if removed.Ok? {
      assert tests.rows[testId] == old(tests.rows)[testId];
    }
  }
}
