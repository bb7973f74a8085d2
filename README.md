# learn-max quiz backend — a Dafny model

learn-max is a quiz backend written for Node.js with Express and Mongoose. Teachers
keep a question bank. They build timed tests from questions, enrol students and
upload questions in bulk from a CSV file. Students start a test inside its
window, submit their answers once and get a score. This project models the
handlers that hold that logic and proves what they promise:

| Dafny module | file | models |
|---|---|---|
| `Common` | common.dfy | identities, `Option`, `Result`, JavaScript truthiness of a string |
| `Models` | models.dfy | the stored documents, and a `Collection<T>` class for one MongoDB collection, updated in place |
| `JsText` | js_text.dfy | `trim`, `toLowerCase` and `parseInt` as the upload uses them |
| `MongoArrays` | mongo_arrays.dfy | `$addToSet`, `$addToSet` with `$each`, `$pull`, `$pull` with `$in`, and `[...new Set(list)]` |
| `AttemptController` | attempt_controller.dfy | controllers/AttemptControllers.js: the test window, starting, scoring and submitting an attempt, reading attempts |
| `CsvImport` | csv_import.dfy | routes/teacherRoutes.js: one CSV row to one question, and all-or-nothing validation of the batch |
| `Enrollment` | enrollment.dfy | controllers/enrollmentController.js: enrolling and removing students, and syncing test access |
| `TestController` | test_controller.dfy | controllers/TestController.js: tests guarded by ownership, plus adding and removing questions |
| `QuestionController` | question_controller.dfy | controllers/QuestionController.js: the question bank guarded by ownership, and the status filter |

How things are represented:
- A collection is a map from identity to document. A counter hands out fresh
  identities in increasing order. A query without a sort returns its matches in
  ascending identity, which is insertion order.
- A handler that writes to the database is a method. It modifies the `Collection`
  objects it writes to, and its postcondition gives the whole new state as a
  function of the old one.
- A handler that only reads is a function over the map.
- Each HTTP outcome becomes a `Result` value. Each 4xx response is an error
  constructor.

Some behaviour follows the code where a plain reading of the system suggests otherwise:
- The score is the number of answers whose `selectedOption` is `===` to the
  question's `correctAnswer`. There are no marks, no negative marking, no
  percentage and no normalisation of case or white space. An answer repeated in the
  submission counts each time. Answers to questions that are not in the test count
  nothing.
- `submitTest` never checks the test window. An attempt that is still open can
  be submitted after `endDate`.
- There are two question collections. `Question` (models/Question.js) is what
  tests reference and what attempts are scored against. `QuestionModel`
  (models/QuestionModel.js) is what the question-bank handlers and the CSV upload
  write. Nothing links the two, so the model keeps them apart.
- `startDate` and `endDate` are optional, and a body may set them to `null`
  (Mongoose also casts "" to `null`), so a stored date is unset, `null` or an
  instant. The check in `getTestByIdForStudent` and `startTest`
  (`start > now || end < now`) treats an unset date as no bound, because a
  comparison with `undefined` is false. A `null` date compares as 0, so a `null`
  end date refuses the test at every instant after the epoch. The listing query of
  `getAllAvailableTests` matches dates only, so it never lists a test whose date
  is unset or `null`. A test without an end date can therefore be started but is
  never listed (`AttemptController.ListedIsActive`).
- `addQuestionToTest` adds the question before checking that it exists. An
  unknown question is reported, but it stays in the test.
- models/User.js and models/Test.js do not declare `enrolledStudents`,
  `enrolledTeachers`, `visibility` or `allowedStudentIds`. The model treats them as
  declared fields, because that is how the handlers use them.
- The `isActive` query of `getStatusQuestionsImported` is lower-cased but not
  trimmed. The CSV upload trims its "Is Active" column first.

## Model

| member | source | states |
|---|---|---|
| `Models.Collection.Insert` | controllers/AttemptControllers.js:63-68 | `save` of a new document stores it under a fresh identity and changes nothing else |
| `Models.NaturalOrder` | controllers/enrollmentController.js:78-81 | a query without a sort lists exactly the matching identities, each once, ascending |
| `JsText.Trim` | routes/teacherRoutes.js:56-57 | the result is no longer than the input and neither starts nor ends with white space |
| `JsText.TrimShape` | routes/teacherRoutes.js:56-57 | the trimmed text is a contiguous slice of the input, and everything cut off on either side is white space |
| `JsText.TrimIdempotent` | routes/teacherRoutes.js:57 | trimming twice is trimming once |
| `JsText.TrimEmptyIffAllWhite` | routes/teacherRoutes.js:56 | a cell trims to "" exactly when it is all white space, both directions |
| `JsText.ToLower` | routes/teacherRoutes.js:68 | same length; each ASCII capital is lowered and every other character is kept |
| `JsText.ToLowerIdempotent` | routes/teacherRoutes.js:68 | lower-casing twice is lower-casing once |
| `JsText.LowerIsYesOrTrue` | routes/teacherRoutes.js:69 | comparing the lower-cased text with "yes" and "true" accepts exactly the three- and four-letter spellings of those words in any case |
| `JsText.DecimalShape` | routes/teacherRoutes.js:77 | the decimal notation of n has only digits, no leading zero, and the value n |
| `JsText.DigitRunStopsAtNonDigit` | routes/teacherRoutes.js:62 | `parseInt` reads the run of digits and stops at the first non-digit |
| `JsText.ParseInt` | routes/teacherRoutes.js:77 | all-white text, and text whose first non-white character is neither a sign nor a digit, reads as NaN; a negative result comes from a leading '-' |
| `JsText.UnsignedReadsDecimal` | routes/teacherRoutes.js:77 | the digits of n followed by a non-digit read back as n |
| `JsText.ParseIntReadsDecimal` | routes/teacherRoutes.js:77 | `parseInt` of any integer's decimal notation, with leading white space and a non-digit tail, gives back that integer |
| `JsText.IntStringReads` | routes/teacherRoutes.js:62-63 | an integer's notation starts with no white space, and its sign and digits read back as that integer |
| `JsText.ParseIntSkipsWhite` | routes/teacherRoutes.js:62 | leading white space does not change what `parseInt` reads |
| `JsText.TrimStartSkipsWhite` | routes/teacherRoutes.js:62 | `parseInt` skips exactly the leading white space |
| `MongoArrays.AddToSet` | controllers/TestController.js:101 | the value is present afterwards; the old list is an unchanged prefix; nothing else is added; no duplicates are introduced |
| `MongoArrays.AddEachToSet` | controllers/enrollmentController.js:117-119 | the result holds exactly the old and new values; the old list is an unchanged prefix; everything appended comes from the new values; no duplicates are introduced |
| `MongoArrays.Pull` | controllers/TestController.js:127 | the value is gone, every other value is kept, and no duplicates are introduced |
| `MongoArrays.PullAll` | controllers/enrollmentController.js:153-155 | exactly the values not listed are kept, and no duplicates are introduced |
| `MongoArrays.Dedup` | controllers/enrollmentController.js:97 | `[...new Set(s)]` has no duplicates and the same values as `s` |
| `MongoArrays.DedupOfDistinct` | controllers/enrollmentController.js:97 | a list without duplicates is its own de-duplication |
| `MongoArrays.DedupConcat` | controllers/enrollmentController.js:97 | de-duplicating `xs + ys` is de-duplicating `xs` and then adding `ys` value by value |
| `MongoArrays.AppendDedupIsAddEach` | controllers/enrollmentController.js:97 | on a list without duplicates, the Set idiom computes the same list as `$addToSet` with `$each` |
| `MongoArrays.PullConcat` | controllers/TestController.js:127 | `$pull` distributes over concatenation, so it keeps the order of what it leaves |
| `MongoArrays.PullAbsent` | controllers/TestController.js:127 | pulling an absent value changes nothing |
| `MongoArrays.PullUndoesAddToSet` | controllers/TestController.js:101-127 | adding an absent value and pulling it again restores the list |
| `MongoArrays.PullIsPullAllOfOne` | controllers/enrollmentController.js:161 | `$pull` of one value is `$pull` with `$in` of that one value |
| `MongoArrays.PullAllConcat` | controllers/enrollmentController.js:153-155 | filtering out a list of values distributes over concatenation |
| `MongoArrays.PullAllDisjoint` | controllers/enrollmentController.js:153-155 | filtering out values that do not occur changes nothing |
| `MongoArrays.PullAllUndoesAddEach` | controllers/enrollmentController.js:117-176 | adding values that are all absent and then pulling them restores the list |
| `AttemptController.IsActive` | controllers/AttemptControllers.js:34 | a test may be viewed and started exactly when each set date bounds now (a `null` date as 0) and an unset date bounds nothing; a `null` end date refuses it at every instant after the epoch |
| `AttemptController.IsListed` | controllers/AttemptControllers.js:13-15 | a listed test has both dates set as instants and a non-empty window; an unset or `null` date is never listed |
| `AttemptController.WindowIsInclusive` | controllers/AttemptControllers.js:13-15 | with both dates set, the listing query and the start check agree on one window closed at both ends |
| `AttemptController.ListedIsActive` | controllers/AttemptControllers.js:34 | a listed test can be viewed and started; a test with an unset end date can be started but is never listed; unset dates bound nothing; a `null` end date is neither listed nor startable after the epoch |
| `AttemptController.AvailableTests` | controllers/AttemptControllers.js:10-22 | exactly the tests whose dates bracket now, unchanged |
| `AttemptController.GetTestForStudent` | controllers/AttemptControllers.js:27-42 | the test when it exists and is active; otherwise not-found, or not-active, in that order |
| `AttemptController.FindOpenAttempt` | controllers/AttemptControllers.js:58 | finds an open attempt of the pair exactly when one exists |
| `AttemptController.NewAttempt` | controllers/AttemptControllers.js:63-67 | a new attempt is open, with no answers and no score, and starts now |
| `AttemptController.StartTest` | controllers/AttemptControllers.js:47-74 | refuses, in this order, a missing test, an inactive test and a pair that already has an open attempt, changing nothing; otherwise adds exactly one open attempt; keeps the one-open-attempt invariant |
| `AttemptController.RestartIsRefused` | controllers/AttemptControllers.js:58-61 | after a successful start, a second start is refused, and refused as already-started while the test is active |
| `AttemptController.Score` | controllers/AttemptControllers.js:95-101 | the score never exceeds the number of answers |
| `AttemptController.ScoreCountsCorrectPositions` | controllers/AttemptControllers.js:95-101 | the score is the number of positions that hold an exactly correct answer to a question of the test |
| `AttemptController.ScoreConcat` | controllers/AttemptControllers.js:96-100 | the score of a concatenation is the sum of the scores of its parts, so duplicates each count |
| `AttemptController.UnknownQuestionsScoreNothing` | controllers/AttemptControllers.js:97-98 | answers to questions outside the test add nothing |
| `AttemptController.ComparisonIsExact` | controllers/AttemptControllers.js:98 | "paris" and "Paris " score 0 against "Paris"; "Paris" scores 1 |
| `AttemptController.ScoreAnswers` | controllers/AttemptControllers.js:95-101 | the loop's count is the number of correct positions, at most the number of answers |
| `AttemptController.Submitted` | controllers/AttemptControllers.js:103-105 | the attempt keeps its student, test and start, and gets the answers, the score and an end time |
| `AttemptController.SubmitTest` | controllers/AttemptControllers.js:79-113 | refuses a missing test, then a pair with no open attempt, changing nothing; otherwise closes exactly that attempt with the scored answers, leaves the pair with no open attempt and keeps the invariant; no window check |
| `AttemptController.ClosingKeepsInvariant` | controllers/AttemptControllers.js:103-106 | closing the open attempt keeps at most one open attempt per pair, and leaves its pair with none |
| `AttemptController.ResubmitIsRefused` | controllers/AttemptControllers.js:90-92 | after a successful submit, a second submit is refused and the stored answers are the first ones |
| `AttemptController.GetStudentAttempt` | controllers/AttemptControllers.js:131-148 | an attempt is returned only to its own student, otherwise not-found |
| `AttemptController.StudentAttempts` | controllers/AttemptControllers.js:118-126 | exactly the requester's attempts |
| `AttemptController.AttemptsOfTest` | controllers/AttemptControllers.js:153-163 | exactly the attempts at the test |
| `AttemptController.GetAttemptDetails` | controllers/AttemptControllers.js:168-186 | any attempt by identity, with no owner check |
| `AttemptController.OwnViewNarrowsDetails` | controllers/AttemptControllers.js:133 | the student's view succeeds exactly when the teacher's view does and the attempt is the student's own |
| `CsvImport.CompactOptions` | routes/teacherRoutes.js:52-59 | the loop collects the present, non-blank, trimmed option columns 1 to 5 in column order |
| `CsvImport.OptionsAreCompacted` | routes/teacherRoutes.js:52-59 | at most one option per column; none is empty or padded; each is the trimmed text of some option column, and every non-blank option column is kept |
| `CsvImport.ColumnsAreKept` | routes/teacherRoutes.js:55-57 | the trimmed text of every non-blank option column is among the options |
| `CsvImport.FullRowKeepsColumns` | routes/teacherRoutes.js:53-58 | when every option column is filled, option k is column k+1 |
| `CsvImport.CorrectAnswer` | routes/teacherRoutes.js:61-67 | an answer is set exactly when the cell is non-empty and parses to k with 1 <= k <= the number of options, and it is then option k of the compacted list (1-based) |
| `CsvImport.CorrectAnswerSkipsBlankColumns` | routes/teacherRoutes.js:61-67 | k indexes the compacted list: with "Option 1" blank, answer 1 is the text of "Option 2" |
| `CsvImport.ParseIsActive` | routes/teacherRoutes.js:68-69 | a missing or empty cell is active; otherwise the row is active exactly when the trimmed cell is "yes" or "true" in any case, so a cell of white space only is not |
| `CsvImport.ParseTimeLimit` | routes/teacherRoutes.js:77 | a non-empty cell that `parseInt` reads gives that integer; a missing, empty or non-numeric cell gives 30 |
| `CsvImport.RowToDraft` | routes/teacherRoutes.js:51-81 | the draft belongs to the uploader; its text is the trimmed "Question Text" cell; it carries the compacted options and the answer the "Correct Answer" cell names among them; its active flag and time limit are read from their columns |
| `CsvImport.BuildQuestion` | routes/teacherRoutes.js:51-81 | the per-row callback builds the draft of that row |
| `CsvImport.Drafts` | routes/teacherRoutes.js:51-82 | one draft per row |
| `CsvImport.DraftsAreRowwise` | routes/teacherRoutes.js:51-82 | draft k is the draft of row k, for every row |
| `CsvImport.BuildQuestions` | routes/teacherRoutes.js:51-82 | the loop over the rows builds exactly the drafts of the rows, in row order |
| `CsvImport.DraftFields` | routes/teacherRoutes.js:70-81 | creator is the uploader; at most 5 clean options; the answer is among them; the text is the trimmed "Question Text" cell, or ""; the type is the trimmed cell or "Multiple Choice"; a subject is present exactly when its cell is non-empty and is then the trimmed cell; image link and explanation are the trimmed cell or "" |
| `CsvImport.TextMissingIffBlank` | routes/teacherRoutes.js:71 | the question text is "" exactly when the column is missing or all white space |
| `CsvImport.IsActiveDefaults` | routes/teacherRoutes.js:68-69 | a missing or empty cell is active; " TRUE " is active; "no" and a blank cell are not |
| `CsvImport.TimeLimitReadsDecimal` | routes/teacherRoutes.js:77 | a decimal time limit is read back; a missing or empty cell gives 30 |
| `CsvImport.ImportRows` | routes/teacherRoutes.js:51-91 | one draft per row in row order, or refusal of the whole batch exactly when some draft has no question text |
| `Enrollment.MatchingStudents` | controllers/enrollmentController.js:78-81 | exactly the users with a listed username and the student role, each once |
| `Enrollment.EnrolledTests` | controllers/enrollmentController.js:107-110 | exactly the teacher's tests with visibility "enrolled", each once |
| `Enrollment.ExistingUsers` | controllers/enrollmentController.js:8 | populate keeps exactly the references whose user exists |
| `Enrollment.ExistingUsersOfResolved` | controllers/enrollmentController.js:8 | when every reference resolves, populate keeps the list as it is |
| `Enrollment.EnrolledStudentsOf` | controllers/enrollmentController.js:53-66 | the teacher's existing enrolled students, or not-found |
| `Enrollment.WithStudents` | controllers/enrollmentController.js:97 | the new list has no duplicates and holds exactly the old and the new students |
| `Enrollment.EnrolmentKeepsOrder` | controllers/enrollmentController.js:96-98 | on a list without duplicates, the old list stays an unchanged prefix and the new students follow |
| `Enrollment.WithoutStudents` | controllers/enrollmentController.js:153-155 | exactly the students not listed stay, and no duplicates are introduced |
| `Enrollment.AddTeacher` | controllers/enrollmentController.js:101-104 | each listed user has the teacher afterwards, keeps its other teachers, gains no duplicate, and changes in no other field; other users are unchanged |
| `Enrollment.DropTeacher` | controllers/enrollmentController.js:159-162 | each listed user loses the teacher, keeps its other teachers, and changes in no other field; other users are unchanged |
| `Enrollment.ApplyAccess` | controllers/enrollmentController.js:113-123 | only `allowedStudentIds` changes: a grant adds the ids and keeps the old list as prefix; a revoke keeps exactly the ids not listed; a replace sets the list |
| `Enrollment.Updated` | controllers/enrollmentController.js:113-125 | the listed tests get the update and every other test is unchanged |
| `Enrollment.AfterAccess` | controllers/enrollmentController.js:107-125 | the teacher's enrolled-visibility tests get the update and every other test is unchanged |
| `Enrollment.UpdateTests` | controllers/enrollmentController.js:113-125 | the per-test loop updates exactly the listed tests |
| `Enrollment.SaveEnrolment` | controllers/enrollmentController.js:96-104 | the teacher gets the extended list, then every listed student gets the teacher; nothing else changes |
| `Enrollment.SaveRemoval` | controllers/enrollmentController.js:152-162 | the teacher gets the shortened list, then every listed user loses the teacher; nothing else changes |
| `Enrollment.QueriedTestsAreAllEnrolledTests` | controllers/enrollmentController.js:107-123 | updating the tests the query found is updating every enrolled-visibility test of the teacher |
| `Enrollment.EnrollStudents` | controllers/enrollmentController.js:69-135 | refuses, in this order, a non-array, no matching student and a missing teacher, changing nothing; otherwise updates the teacher's list, then the students, then the teacher's enrolled-visibility tests |
| `Enrollment.RemoveEnrolledStudents` | controllers/enrollmentController.js:138-192 | refuses a non-array or a missing teacher, changing nothing; otherwise removes the ids from the teacher, the teacher from those users, and the ids from the enrolled-visibility tests |
| `Enrollment.SyncEnrolledStudentsWithTests` | controllers/enrollmentController.js:5-50 | refuses a missing teacher; otherwise sets every enrolled-visibility test's list to the teacher's existing students; with no such test nothing changes |
| `Enrollment.SyncPutsTestsInStep` | controllers/enrollmentController.js:27-37 | once every enrolled student exists, syncing makes every enrolled-visibility test admit exactly the teacher's list |
| `Enrollment.EnrolKeepsTestsInStep` | controllers/enrollmentController.js:96-123 | tests in step with a duplicate-free list stay in step after an enrolment |
| `Enrollment.RemovalKeepsTestsInStep` | controllers/enrollmentController.js:152-181 | tests in step stay in step after a removal |
| `Enrollment.RemovalUndoesEnrolment` | controllers/enrollmentController.js:97-155 | enrolling students none of whom were enrolled, then removing them, restores the teacher |
| `TestController.NewTest` | controllers/TestController.js:23-31 | the new test belongs to the requester; title, description, start and end date are stored as given; questions are `[]` when none are given and duration is 60 by default |
| `TestController.CreateTest` | controllers/TestController.js:20-38 | stores the new test under a fresh identity exactly when the title is non-empty; otherwise nothing changes |
| `TestController.TestsOf` | controllers/TestController.js:7-15 | exactly the requester's tests |
| `TestController.GetTestForTeacher` | controllers/TestController.js:43-54 | the test only when the requester owns it, otherwise not-found |
| `TestController.ApplyFields` | controllers/TestController.js:61-66 | each field the body gives (a date also when `null`) is written and each field it leaves out keeps its value; the owner and access fields never change |
| `TestController.UpdateTest` | controllers/TestController.js:59-75 | an empty title is refused first; otherwise only the owned test changes, or not-found with no change |
| `TestController.DeleteTest` | controllers/TestController.js:80-91 | removes exactly the owned test and leaves every other test untouched |
| `TestController.AddQuestionToTest` | controllers/TestController.js:96-117 | adds the question to the owned test unless present, keeping a duplicate-free list duplicate-free, and only then reports an unknown question |
| `TestController.RemoveQuestionFromTest` | controllers/TestController.js:122-139 | removes every occurrence of the question from the owned test |
| `TestController.AddThenRemove` | controllers/TestController.js:99-129 | adding a question the test lacks and removing it again restores the tests |
| `QuestionController.QuestionsOf` | controllers/QuestionController.js:7-27 | exactly the requester's questions |
| `QuestionController.StatusFilter` | controllers/QuestionController.js:28-40 | the filter always has the owner; it has a subject or a flag exactly when that query value is non-empty; the flag is the parsed query text |
| `QuestionController.QueryFlag` | controllers/QuestionController.js:38 | the flag is true exactly when the untrimmed query text is "yes" or "true" in any case, so a padded value is false |
| `QuestionController.FindQuestions` | controllers/QuestionController.js:41 | exactly the questions the filter matches |
| `QuestionController.StatusQueryIsOwnerScoped` | controllers/QuestionController.js:31-41 | the status query returns only the requester's questions, and with no subject or flag all of them |
| `QuestionController.QueryFlagIsNotTrimmed` | controllers/QuestionController.js:38 | "TRUE" and "Yes" are active; " true" and "no" are not |
| `QuestionController.NewQuestion` | controllers/QuestionController.js:55-58 | the requester is the creator; every given field is stored as given; options and answers default to []; type, time limit and active flag default to "Multiple Choice", 30 and true |
| `QuestionController.AddQuestion` | controllers/QuestionController.js:52-65 | stores the new question under a fresh identity exactly when the text is non-empty; otherwise nothing changes |
| `QuestionController.GetQuestion` | controllers/QuestionController.js:70-81 | the question only when the requester created it, otherwise not-found |
| `QuestionController.ApplyFields` | controllers/QuestionController.js:91 | each field the body gives is written and each field it leaves out keeps its value; the creator never changes |
| `QuestionController.UpdateQuestion` | controllers/QuestionController.js:86-102 | an empty text is refused first; otherwise only the owned question changes, or not-found with no change |
| `QuestionController.DeleteQuestion` | controllers/QuestionController.js:107-118 | removes exactly the owned question and leaves every other question untouched |

## Left out

- HTTP plumbing is not modelled: Express routing, authentication middleware, the role guards, and status codes beyond the error constructors.
- controllers/authController.js and server.js are not part of this model. They hash passwords, sign tokens and wire routes.
- The file side of the CSV upload is left out: multer storage, the read stream, csv-parser and the file deletion. The model starts from the parsed rows.
- `insertMany` of the drafts is not modelled, nor Mongoose's casting of a draft into a `QuestionModel` document (for example `correctAnswer: null` into a list).
- controllers/questionController.js (lower case) is not part of this model. It is an older copy over models/Question.js.
- Every catch-all 500 path is left out: database failures, CastErrors on malformed identities, a non-array `answers` that makes the scoring loop throw, and `runValidators` errors other than an emptied required text.
- `Promise.all` runs the per-test updates concurrently. The model runs them one after another; the tests they touch are distinct, so the order does not matter. Racing requests are not modelled, so the one-open-attempt invariant holds for sequential calls only.
- The clock is a parameter `now`. `startTest` reads the clock twice, once for the window check and once for `startTime`. The model uses one reading for both.
- Identities are values. In the running code `new Set([...enrolledStudents, ...studentIds])` compares ObjectId objects by reference, so an id that is already enrolled can appear twice. `Enrollment.WithStudents` states the evidently intended de-duplication.
- `removeEnrolledStudents` compares `id.toString()` with the request's entries. The model compares identities directly, so it does not capture an entry that is not a string.
- Population projections and the response bodies are not modelled beyond the returned identities and counts: `select`, `populate` paths, and `enrolledStudents` re-read in the response.
- JsText.ToLower: lowers only ASCII A-Z, not the full Unicode case mapping of `toLowerCase`.
- JsText.ParseInt: reads into an unbounded integer. JavaScript's float rounding of very long digit strings and `Infinity` are not modelled.
- Updates assume undefined keys are dropped from an update document (Mongoose 6 and later), so a field the body leaves out keeps its stored value.
- `Models.Collection` uses a counter for fresh identities. ObjectId's time-and-random layout is not modelled.
