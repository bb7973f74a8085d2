/** The stored documents (the schemas under models/) and the collections that hold them. */
module Models {
  import opened Common

  /** models/User.js, with the two enrollment lists the enrollment handlers keep
      on a user (absent from the schema file): the students a teacher enrolled, in
      enrollment order, and the teachers a student is enrolled with. */
  datatype User = User(
    username: string,
    role: string,
    enrolledStudents: seq<Id>,
    enrolledTeachers: seq<Id>)

  const StudentRole := "student"

  /** A `Date` path of a stored document: never set (`undefined`), set to
      `null` (a body value of `null` or "" is cast to `null`), or an instant in
      milliseconds since the epoch. */
  datatype Date = Unset | Null | At(ms: int)

  /** The number JavaScript compares a stored date as: `undefined` is NaN, so
      every comparison with it is false; `null` converts to 0. */
  function AsNumber(d: Date): (n: Option<int>)
    ensures n.None? <==> d.Unset?
    ensures d.At? ==> n == Some(d.ms)
    ensures d.Null? ==> n == Some(0)
  {
    match d
    case Unset => None
    case Null => Some(0)
    case At(ms) => Some(ms)
  }

  /** models/Test.js, with the two access fields the enrollment handlers use
      (absent from the schema file). `startDate` and `endDate` are optional. */
  datatype Test = Test(
    teacherId: Id,
    title: string,
    description: Option<string>,
    questions: seq<Id>,
    duration: int,
    startDate: Date,
    endDate: Date,
    visibility: Option<string>,
    allowedStudentIds: seq<Id>)

  /** Default of `Test.duration`, in minutes. */
  const DefaultDuration := 60

  /** The visibility value that restricts a test to enrolled students. */
  const EnrolledVisibility := "enrolled"

  /** models/Question.js: the 'Question' collection, which tests reference and
      against which attempts are scored. Its `correctAnswer` is one string. */
  datatype QuestionDoc = QuestionDoc(
    teacherId: Id,
    questionText: string,
    options: seq<string>,
    correctAnswer: string)

  /** models/QuestionModel.js: the 'QuestionModel' collection that the question
      bank handlers and the CSV upload write. Its `correctAnswer` is a list. */
  datatype QuestionRecord = QuestionRecord(
    questionText: string,
    questionType: string,
    options: seq<string>,
    correctAnswer: seq<string>,
    timeLimit: int,
    imageLink: Option<string>,
    answerExplanation: Option<string>,
    subject: Option<string>,
    isActive: bool,
    createdBy: Id)

  /** Schema defaults of models/QuestionModel.js. */
  const DefaultQuestionType := "Multiple Choice"
  const DefaultTimeLimit := 30

  /** One submitted answer of models/Attempt.js. */
  datatype Answer = Answer(questionId: Id, selectedOption: Option<string>)

  /** models/Attempt.js. An attempt is open while `endTime` is unset. */
  datatype Attempt = Attempt(
    studentId: Id,
    testId: Id,
    answers: seq<Answer>,
    score: Option<int>,
    startTime: int,
    endTime: Option<int>)

  /** A MongoDB collection: documents keyed by identity. New identities come from
      a counter, so they are fresh and increase in insertion order. */
  class Collection<T> {
    var rows: map<Id, T>
    var nextId: Id

    ghost predicate Valid()
      reads this
    {
      forall id :: id in rows ==> id < nextId
    }

    constructor ()
      ensures Valid() && rows == map[] && nextId == 0
    {
      rows := map[];
      nextId := 0;
    }

    /** `new Model(doc).save()`: store `doc` under a fresh identity. */
    method Insert(doc: T) returns (id: Id)
      requires Valid()
      modifies this
      ensures Valid()
      ensures id == old(nextId) && id !in old(rows)
      ensures rows == old(rows)[id := doc] && nextId == old(nextId) + 1
    {
      id := nextId;
      rows := rows[id := doc];
      nextId := nextId + 1;
    }
  }

  /** The identities of `ids` below `bound`, ascending: the order in which a query
      without a sort returns the documents it matches (insertion order). */
  function NaturalOrder(ids: set<Id>, bound: nat): (r: seq<Id>)
    ensures forall id :: id in r <==> id in ids && id < bound
    ensures forall i, j :: 0 <= i < j < |r| ==> r[i] < r[j]
  {
    if bound == 0 then []
    else
      var before := NaturalOrder(ids, bound - 1);
      assert forall k :: 0 <= k < |before| ==> before[k] < bound - 1 by {
        forall k | 0 <= k < |before|
          ensures before[k] < bound - 1
        {
          assert before[k] in before;
        }
      }
      before + (if bound - 1 in ids then [bound - 1] else [])
  }
}
