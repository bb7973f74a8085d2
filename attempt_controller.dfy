/** controllers/AttemptControllers.js: the student side of a test, from listing
    the tests that are open to starting an attempt and submitting it for scoring. */
module AttemptController {
  import opened Common
  import opened Models

  datatype AttemptError =
    | TestNotFound           // 404 'Test not found'
    | TestNotActive          // 403 'Test is not currently active'
    | AlreadyStarted         // 400 'You have already started this test'
    | NotStartedOrSubmitted  // 400 'Test not started or already submitted'
    | AttemptNotFound        // 404 'Attempt not found'

  // ------------------------------------------------------------ test window

  /** The window check of `getTestByIdForStudent` and `startTest`: a test is
      refused when `startDate > now` or `endDate < now` in JavaScript's terms.
      An unset date bounds nothing; a `null` date compares as 0, so a `null`
      end refuses the test at every instant after the epoch. */
  function IsActive(t: Test, now: int): (b: bool)
    ensures b <==> && (t.startDate.At? ==> t.startDate.ms <= now)
                   && (t.startDate.Null? ==> 0 <= now)
                   && (t.endDate.At? ==> now <= t.endDate.ms)
                   && (t.endDate.Null? ==> now <= 0)
    ensures t.endDate.Null? && now > 0 ==> !b
  {
    var start := AsNumber(t.startDate);
    var end := AsNumber(t.endDate);
    !((start.Some? && start.value > now) || (end.Some? && end.value < now))
  }

  /** The query of `getAllAvailableTests`: `startDate <= now` and `endDate >= now`.
      MongoDB compares a date only with a date, so a document whose date is unset
      or `null` never matches. */
  function IsListed(t: Test, now: int): (b: bool)
    ensures b ==> t.startDate.At? && t.endDate.At? && t.startDate.ms <= t.endDate.ms
    ensures !t.startDate.At? || !t.endDate.At? ==> !b
  {
    t.startDate.At? && t.startDate.ms <= now && t.endDate.At? && now <= t.endDate.ms
  }

  /** With both dates set, listing, viewing and starting use one window, closed at
      both ends. */
  lemma WindowIsInclusive(t: Test, now: int)
    requires t.startDate.At? && t.endDate.At?
    ensures IsActive(t, now) <==> t.startDate.ms <= now <= t.endDate.ms
    ensures IsListed(t, now) <==> IsActive(t, now)
  {
  }

  /** A listed test can always be viewed and started; the converse fails for a
      test without an end date, which can be started but is never listed, and a
      test whose end date is `null` can be neither after the epoch. */
  lemma ListedIsActive(t: Test, now: int)
    ensures IsListed(t, now) ==> IsActive(t, now)
    ensures t.endDate.Unset? && IsActive(t, now) ==> !IsListed(t, now)
    ensures t.endDate.Unset? && t.startDate.Unset? ==> IsActive(t, now)
    ensures t.endDate.Null? && now > 0 ==> !IsActive(t, now) && !IsListed(t, now)
  {
  }

  /** `getAllAvailableTests`: the tests the window query matches, unchanged. */
  function AvailableTests(tests: map<Id, Test>, now: int): (r: map<Id, Test>)
    ensures forall id :: id in r <==> id in tests && IsListed(tests[id], now)
    ensures forall id :: id in r ==> r[id] == tests[id]
  {
    map id | id in tests && IsListed(tests[id], now) :: tests[id]
  }

  /** `getTestByIdForStudent`: the test, provided it exists and is active. */
  function GetTestForStudent(tests: map<Id, Test>, testId: Id, now: int): (r: Result<Test, AttemptError>)
    ensures r.Ok? <==> testId in tests && IsActive(tests[testId], now)
    ensures r.Ok? ==> r.value == tests[testId]
    ensures testId !in tests ==> r == Err(TestNotFound)
    ensures testId in tests && !IsActive(tests[testId], now) ==> r == Err(TestNotActive)
  {
    if testId !in tests then Err(TestNotFound)
    else if !IsActive(tests[testId], now) then Err(TestNotActive)
    else Ok(tests[testId])
  }

  // ------------------------------------------------------------ open attempts

  /** The query `{ studentId, testId, endTime: null }`. */
  predicate IsOpenFor(a: Attempt, studentId: Id, testId: Id)
  {
    a.studentId == studentId && a.testId == testId && a.endTime.None?
  }

  ghost predicate HasOpen(rows: map<Id, Attempt>, studentId: Id, testId: Id)
  {
    exists id :: id in rows && IsOpenFor(rows[id], studentId, testId)
  }

  /** The lifecycle invariant: no student has two open attempts at one test. */
  ghost predicate AtMostOneOpen(rows: map<Id, Attempt>)
  {
    forall i, j ::
      (i in rows && j in rows && IsOpenFor(rows[i], rows[j].studentId, rows[j].testId) && rows[j].endTime.None?)
      ==> i == j
  }

  /** `Attempt.findOne({ studentId, testId, endTime: null })`. */
  method FindOpenAttempt(rows: map<Id, Attempt>, studentId: Id, testId: Id) returns (found: Option<Id>)
    ensures found.Some? ==> found.value in rows && IsOpenFor(rows[found.value], studentId, testId)
    ensures found.None? <==> !HasOpen(rows, studentId, testId)
  {
    if exists id :: id in rows && IsOpenFor(rows[id], studentId, testId) {
      var id :| id in rows && IsOpenFor(rows[id], studentId, testId);
      found := Some(id);
    } else {
      found := None;
    }
  }

  /** The attempt `startTest` creates: no answers, no score, no end time. */
  function NewAttempt(studentId: Id, testId: Id, now: int): (a: Attempt)
    ensures IsOpenFor(a, studentId, testId) && a.answers == [] && a.score.None? && a.startTime == now
  {
    Attempt(studentId, testId, [], None, now, None)
  }

  /** `startTest`: refuses, in this order, a missing test, a test outside its
      window and a second open attempt; otherwise stores one new open attempt. */
  method StartTest(tests: map<Id, Test>, attempts: Collection<Attempt>, studentId: Id, testId: Id, now: int)
    returns (r: Result<Id, AttemptError>)
    requires attempts.Valid() && AtMostOneOpen(attempts.rows)
    modifies attempts
    ensures attempts.Valid() && AtMostOneOpen(attempts.rows)
    ensures testId !in tests ==> r == Err(TestNotFound)
    ensures testId in tests && !IsActive(tests[testId], now) ==> r == Err(TestNotActive)
    ensures testId in tests && IsActive(tests[testId], now) && HasOpen(old(attempts.rows), studentId, testId)
            ==> r == Err(AlreadyStarted)
    ensures r.Ok? <==> testId in tests && IsActive(tests[testId], now) && !HasOpen(old(attempts.rows), studentId, testId)
    ensures r.Err? ==> attempts.rows == old(attempts.rows) && attempts.nextId == old(attempts.nextId)
    ensures r.Ok? ==> r.value !in old(attempts.rows)
                      && attempts.rows == old(attempts.rows)[r.value := NewAttempt(studentId, testId, now)]
    ensures r.Ok? ==> HasOpen(attempts.rows, studentId, testId)
  {
    if testId !in tests {
      return Err(TestNotFound);
    }
    if !IsActive(tests[testId], now) {
      return Err(TestNotActive);
    }
    var existing := FindOpenAttempt(attempts.rows, studentId, testId);
    if existing.Some? {
      return Err(AlreadyStarted);
    }
    var id := attempts.Insert(NewAttempt(studentId, testId, now));
    assert attempts.rows[id] == NewAttempt(studentId, testId, now);
    r := Ok(id);
  }

  /** A second start before a submit is refused, whatever the window. */
  method RestartIsRefused(tests: map<Id, Test>, attempts: Collection<Attempt>, studentId: Id, testId: Id, now: int, later: int)
    returns (first: Result<Id, AttemptError>, second: Result<Id, AttemptError>)
    requires attempts.Valid() && AtMostOneOpen(attempts.rows)
    modifies attempts
    ensures first.Ok? ==> second.Err?
    ensures first.Ok? ==> testId in tests && (IsActive(tests[testId], later) ==> second == Err(AlreadyStarted))
  {
    first := StartTest(tests, attempts, studentId, testId, now);
    second := StartTest(tests, attempts, studentId, testId, later);
  }

  // ------------------------------------------------------------ scoring

  /** An answer scores when its question is one of the test's questions (as
      populated from the 'Question' collection) and the selected option is exactly
      that question's correct answer: `===`, sensitive to case and white space. */
  predicate IsCorrect(a: Answer, questions: seq<Id>, bank: map<Id, QuestionDoc>)
  {
    a.questionId in questions && a.questionId in bank && a.selectedOption == Some(bank[a.questionId].correctAnswer)
  }

  /** The number of correct answers among `answers`; every answer counts on its
      own, so a repeated correct answer counts again. */
  function Score(answers: seq<Answer>, questions: seq<Id>, bank: map<Id, QuestionDoc>): (n: nat)
    ensures n <= |answers|
  {
    if answers == [] then 0
    else Score(answers[..|answers| - 1], questions, bank) + (if IsCorrect(answers[|answers| - 1], questions, bank) then 1 else 0)
  }

  /** The positions of the correct answers. */
  function CorrectPositions(answers: seq<Answer>, questions: seq<Id>, bank: map<Id, QuestionDoc>): set<nat>
  {
    set i: nat | i < |answers| && IsCorrect(answers[i], questions, bank)
  }

  /** The score is the number of positions that hold a correct answer. */
  lemma {:induction false} ScoreCountsCorrectPositions(answers: seq<Answer>, questions: seq<Id>, bank: map<Id, QuestionDoc>)
    ensures Score(answers, questions, bank) == |CorrectPositions(answers, questions, bank)|
  {
    if answers != [] {
      var n := |answers| - 1;
      var init := answers[..n];
      ScoreCountsCorrectPositions(init, questions, bank);
      var before := CorrectPositions(init, questions, bank);
      var after := CorrectPositions(answers, questions, bank);
      assert n !in before;
      var added: set<nat> := if IsCorrect(answers[n], questions, bank) then {n} else {};
      forall i | i in after ensures i in before + added {
        if i < n { assert init[i] == answers[i]; }
      }
      forall i | i in before + added ensures i in after {
        if i < n { assert init[i] == answers[i]; }
      }
      assert after == before + added;
    }
  }

  /** Scoring a concatenation adds the scores of its parts. */
  lemma {:induction false} ScoreConcat(a: seq<Answer>, b: seq<Answer>, questions: seq<Id>, bank: map<Id, QuestionDoc>)
    ensures Score(a + b, questions, bank) == Score(a, questions, bank) + Score(b, questions, bank)
  {
    if b == [] {
      assert a + b == a;
    } else {
      var n := |b| - 1;
      ScoreConcat(a, b[..n], questions, bank);
      assert (a + b)[..|a + b| - 1] == a + b[..n];
    }
  }

  /** Answers to questions outside the test score nothing. */
  lemma {:induction false} UnknownQuestionsScoreNothing(answers: seq<Answer>, questions: seq<Id>, bank: map<Id, QuestionDoc>)
    requires forall i :: 0 <= i < |answers| ==> answers[i].questionId !in questions
    ensures Score(answers, questions, bank) == 0
  {
    if answers != [] {
      UnknownQuestionsScoreNothing(answers[..|answers| - 1], questions, bank);
    }
  }

  /** The comparison is exact: an option that differs from the correct answer
      only in case or surrounding spaces scores nothing. */
  lemma ComparisonIsExact(q: Id, teacher: Id)
    ensures Score([Answer(q, Some("paris"))], [q], map[q := QuestionDoc(teacher, "Capital of France?", ["Paris", "Rome"], "Paris")]) == 0
    ensures Score([Answer(q, Some("Paris "))], [q], map[q := QuestionDoc(teacher, "Capital of France?", ["Paris", "Rome"], "Paris")]) == 0
    ensures Score([Answer(q, Some("Paris"))], [q], map[q := QuestionDoc(teacher, "Capital of France?", ["Paris", "Rome"], "Paris")]) == 1
  {
    var bank := map[q := QuestionDoc(teacher, "Capital of France?", ["Paris", "Rome"], "Paris")];
    assert [Answer(q, Some("paris"))][..0] == [];
    assert "paris" != "Paris" by { assert "paris"[0] != "Paris"[0]; }
    assert "Paris " != "Paris" by { assert |"Paris "| != |"Paris"|; }
  }

  /** The scoring loop of `submitTest`. */
  method ScoreAnswers(answers: seq<Answer>, questions: seq<Id>, bank: map<Id, QuestionDoc>) returns (score: nat)
    ensures score == |CorrectPositions(answers, questions, bank)|
    ensures score <= |answers|
  {
    score := 0;
    for i := 0 to |answers|
      invariant score == Score(answers[..i], questions, bank)
    {
      assert answers[..i + 1][..i] == answers[..i];
      if IsCorrect(answers[i], questions, bank) {
        score := score + 1;
      }
    }
    assert answers[..|answers|] == answers;
    ScoreCountsCorrectPositions(answers, questions, bank);
  }

  // ------------------------------------------------------------ submitting

  /** What a successful submit reports: the attempt it closed and its score. */
  datatype Submission = Submission(attemptId: Id, score: nat)

  /** The attempt after `submitTest`: the submitted answers, the score and the
      end time, which closes it. */
  function Submitted(a: Attempt, answers: seq<Answer>, score: nat, now: int): (b: Attempt)
    ensures b.studentId == a.studentId && b.testId == a.testId && b.startTime == a.startTime
    ensures b.answers == answers && b.score == Some(score) && b.endTime == Some(now)
  {
    a.(answers := answers, score := Some(score), endTime := Some(now))
  }

  /** `submitTest`: refuses a missing test, then a missing open attempt; otherwise
      scores the answers and closes the open attempt. The test window is not
      consulted. */
  method SubmitTest(tests: map<Id, Test>, bank: map<Id, QuestionDoc>, attempts: Collection<Attempt>,
                    studentId: Id, testId: Id, answers: seq<Answer>, now: int)
    returns (r: Result<Submission, AttemptError>)
    requires attempts.Valid() && AtMostOneOpen(attempts.rows)
    modifies attempts
    ensures attempts.Valid() && AtMostOneOpen(attempts.rows) && attempts.nextId == old(attempts.nextId)
    ensures testId !in tests ==> r == Err(TestNotFound)
    ensures testId in tests && !HasOpen(old(attempts.rows), studentId, testId) ==> r == Err(NotStartedOrSubmitted)
    ensures r.Ok? <==> testId in tests && HasOpen(old(attempts.rows), studentId, testId)
    ensures r.Err? ==> attempts.rows == old(attempts.rows)
    ensures r.Ok? ==> var id := r.value.attemptId;
                      && id in old(attempts.rows) && IsOpenFor(old(attempts.rows)[id], studentId, testId)
                      && r.value.score == |CorrectPositions(answers, tests[testId].questions, bank)|
                      && attempts.rows == old(attempts.rows)[id := Submitted(old(attempts.rows)[id], answers, r.value.score, now)]
    ensures r.Ok? ==> !HasOpen(attempts.rows, studentId, testId)
  {
    if testId !in tests {
      return Err(TestNotFound);
    }
    var found := FindOpenAttempt(attempts.rows, studentId, testId);
    if found.None? {
      return Err(NotStartedOrSubmitted);
    }
    var id := found.value;
    var score := ScoreAnswers(answers, tests[testId].questions, bank);
    ghost var before := attempts.rows;
    attempts.rows := attempts.rows[id := Submitted(attempts.rows[id], answers, score, now)];
    ClosingKeepsInvariant(before, id, attempts.rows[id]);
    r := Ok(Submission(id, score));
  }

  /** Closing the one open attempt of a pair leaves that pair without an open
      attempt and keeps the invariant. */
  lemma ClosingKeepsInvariant(rows: map<Id, Attempt>, id: Id, closed: Attempt)
    requires AtMostOneOpen(rows) && id in rows && closed.endTime.Some?
    requires closed.studentId == rows[id].studentId && closed.testId == rows[id].testId
    ensures AtMostOneOpen(rows[id := closed])
    ensures IsOpenFor(rows[id], closed.studentId, closed.testId)
            ==> !HasOpen(rows[id := closed], closed.studentId, closed.testId)
  {
  }

  /** A second submit for the same pair is refused and changes nothing: the first
      one closed the only open attempt. */
  method ResubmitIsRefused(tests: map<Id, Test>, bank: map<Id, QuestionDoc>, attempts: Collection<Attempt>,
                           studentId: Id, testId: Id, answers: seq<Answer>, again: seq<Answer>, now: int, later: int)
    returns (first: Result<Submission, AttemptError>, second: Result<Submission, AttemptError>)
    requires attempts.Valid() && AtMostOneOpen(attempts.rows)
    modifies attempts
    ensures first.Ok? ==> second == Err(NotStartedOrSubmitted)
    ensures first.Ok? ==> first.value.attemptId in attempts.rows
                          && attempts.rows[first.value.attemptId].answers == answers
  {
    first := SubmitTest(tests, bank, attempts, studentId, testId, answers, now);
    second := SubmitTest(tests, bank, attempts, studentId, testId, again, later);
  }

  // ------------------------------------------------------------ reading attempts

  /** `getStudentAttemptById`: an attempt is visible only to its own student. */
  function GetStudentAttempt(rows: map<Id, Attempt>, attemptId: Id, requester: Id): (r: Result<Attempt, AttemptError>)
    ensures r.Ok? <==> attemptId in rows && rows[attemptId].studentId == requester
    ensures r.Ok? ==> r.value == rows[attemptId] && r.value.studentId == requester
    ensures r.Err? ==> r.error == AttemptNotFound
  {
    if attemptId in rows && rows[attemptId].studentId == requester then Ok(rows[attemptId])
    else Err(AttemptNotFound)
  }

  /** `getStudentAttempts`: every attempt of the requesting student. */
  function StudentAttempts(rows: map<Id, Attempt>, studentId: Id): (r: map<Id, Attempt>)
    ensures forall id :: id in r <==> id in rows && rows[id].studentId == studentId
    ensures forall id :: id in r ==> r[id] == rows[id]
  {
    map id | id in rows && rows[id].studentId == studentId :: rows[id]
  }

  /** `getAttemptsByTest`: every attempt at one test, whoever made it. */
  function AttemptsOfTest(rows: map<Id, Attempt>, testId: Id): (r: map<Id, Attempt>)
    ensures forall id :: id in r <==> id in rows && rows[id].testId == testId
    ensures forall id :: id in r ==> r[id] == rows[id]
  {
    map id | id in rows && rows[id].testId == testId :: rows[id]
  }

  /** `getAttemptDetails`: any attempt by identity, with no owner check. */
  function GetAttemptDetails(rows: map<Id, Attempt>, attemptId: Id): (r: Result<Attempt, AttemptError>)
    ensures r.Ok? <==> attemptId in rows
    ensures r.Ok? ==> r.value == rows[attemptId]
    ensures r.Err? ==> r.error == AttemptNotFound
  {
    if attemptId in rows then Ok(rows[attemptId]) else Err(AttemptNotFound)
  }

  /** The student's own view is the unrestricted view narrowed to their attempts. */
  lemma OwnViewNarrowsDetails(rows: map<Id, Attempt>, attemptId: Id, requester: Id)
    ensures GetStudentAttempt(rows, attemptId, requester).Ok? <==>
              GetAttemptDetails(rows, attemptId).Ok? && attemptId in StudentAttempts(rows, requester)
  {
  }
}
