/** controllers/enrollmentController.js: the three links between a teacher, the
    students they enrolled and their tests. A teacher keeps `enrolledStudents`,
    a student keeps `enrolledTeachers`, and every test of the teacher whose
    visibility is "enrolled" keeps `allowedStudentIds`. */
module Enrollment {
  import opened Common
  import opened Models
  import opened MongoArrays

  datatype EnrollError =
    | NotAnArray       // 400 'Usernames / Student IDs must be provided as an array'
    | NoStudentsFound  // 404 'No valid students found with the provided usernames'
    | TeacherNotFound  // 404 'Teacher not found'

  // ------------------------------------------------------------ the queries

  predicate IsStudentNamed(u: User, usernames: seq<string>)
  {
    u.username in usernames && u.role == StudentRole
  }

  /** `User.find({ username: { $in: usernames }, role: 'student' })`, as the
      identities of the matches in natural order. */
  function MatchingStudents(rows: map<Id, User>, usernames: seq<string>, bound: nat): (r: seq<Id>)
    ensures forall id :: id in r <==> id in rows && id < bound && IsStudentNamed(rows[id], usernames)
    ensures Distinct(r)
  {
    NaturalOrder((set id | id in rows && IsStudentNamed(rows[id], usernames)), bound)
  }

  predicate IsEnrolledTestOf(t: Test, teacherId: Id)
  {
    t.teacherId == teacherId && t.visibility == Some(EnrolledVisibility)
  }

  /** `Test.find({ teacherId, visibility: 'enrolled' })`, in natural order. */
  function EnrolledTests(rows: map<Id, Test>, teacherId: Id, bound: nat): (r: seq<Id>)
    ensures forall id :: id in r <==> id in rows && id < bound && IsEnrolledTestOf(rows[id], teacherId)
    ensures Distinct(r)
  {
    NaturalOrder((set id | id in rows && IsEnrolledTestOf(rows[id], teacherId)), bound)
  }

  /** `populate('enrolledStudents')`: the references whose user exists, in order;
      a reference to a missing user is dropped. */
  function ExistingUsers(ids: seq<Id>, rows: map<Id, User>): (r: seq<Id>)
    ensures forall id :: id in r <==> id in ids && id in rows
    ensures |r| <= |ids|
    ensures Distinct(ids) ==> Distinct(r)
  {
    if ids == [] then []
    else
      assert Distinct(ids) ==> ids[0] !in ids[1..];
      (if ids[0] in rows then [ids[0]] else []) + ExistingUsers(ids[1..], rows)
  }

  /** When every reference resolves, population keeps the list as it is. */
  lemma {:induction false} ExistingUsersOfResolved(ids: seq<Id>, rows: map<Id, User>)
    requires forall k :: 0 <= k < |ids| ==> ids[k] in rows
    ensures ExistingUsers(ids, rows) == ids
  {
    if ids != [] {
      ExistingUsersOfResolved(ids[1..], rows);
    }
  }

  /** `getEnrolledStudents`: the teacher's enrolled students that exist, in
      enrolment order. */
  function EnrolledStudentsOf(rows: map<Id, User>, teacherId: Id): (r: Result<seq<Id>, EnrollError>)
    ensures r.Ok? <==> teacherId in rows
    ensures r.Ok? ==> forall id :: id in r.value <==> id in rows[teacherId].enrolledStudents && id in rows
    ensures r.Err? ==> r.error == TeacherNotFound
  {
    if teacherId in rows then Ok(ExistingUsers(rows[teacherId].enrolledStudents, rows)) else Err(TeacherNotFound)
  }

  // ------------------------------------------------------------ the user updates

  /** The teacher's list after `[...new Set([...enrolledStudents, ...ids])]`. */
  function WithStudents(teacher: User, ids: seq<Id>): (u: User)
    ensures u.username == teacher.username && u.role == teacher.role
    ensures u.enrolledTeachers == teacher.enrolledTeachers
    ensures Distinct(u.enrolledStudents)
    ensures forall id :: id in u.enrolledStudents <==> id in teacher.enrolledStudents || id in ids
  {
    teacher.(enrolledStudents := Dedup(teacher.enrolledStudents + ids))
  }

  /** On a list without duplicates the new list is the old one, unchanged and in
      order, followed by the newly enrolled students in the order found. */
  lemma EnrolmentKeepsOrder(teacher: User, ids: seq<Id>)
    requires Distinct(teacher.enrolledStudents)
    ensures WithStudents(teacher, ids).enrolledStudents == AddEachToSet(teacher.enrolledStudents, ids)
    ensures |teacher.enrolledStudents| <= |WithStudents(teacher, ids).enrolledStudents|
    ensures WithStudents(teacher, ids).enrolledStudents[..|teacher.enrolledStudents|] == teacher.enrolledStudents
  {
    AppendDedupIsAddEach(teacher.enrolledStudents, ids);
  }

  /** The teacher's list after `filter(id => !ids.includes(id))`. */
  function WithoutStudents(teacher: User, ids: seq<Id>): (u: User)
    ensures u.username == teacher.username && u.role == teacher.role
    ensures u.enrolledTeachers == teacher.enrolledTeachers
    ensures forall id :: id in u.enrolledStudents <==> id in teacher.enrolledStudents && id !in ids
    ensures Distinct(teacher.enrolledStudents) ==> Distinct(u.enrolledStudents)
  {
    teacher.(enrolledStudents := PullAll(teacher.enrolledStudents, ids))
  }

  /** `User.updateMany({ _id: { $in: ids } }, { $addToSet: { enrolledTeachers: teacherId } })`. */
  function AddTeacher(rows: map<Id, User>, ids: seq<Id>, teacherId: Id): (r: map<Id, User>)
    ensures r.Keys == rows.Keys
    ensures forall id :: id in rows && id !in ids ==> r[id] == rows[id]
    ensures forall id :: id in rows && id in ids ==>
              && r[id] == rows[id].(enrolledTeachers := r[id].enrolledTeachers)
              && teacherId in r[id].enrolledTeachers
              && (forall t :: t in r[id].enrolledTeachers <==> t in rows[id].enrolledTeachers || t == teacherId)
              && (Distinct(rows[id].enrolledTeachers) ==> Distinct(r[id].enrolledTeachers))
  {
    map id | id in rows :: if id in ids then rows[id].(enrolledTeachers := AddToSet(rows[id].enrolledTeachers, teacherId)) else rows[id]
  }

  /** `User.updateMany({ _id: { $in: ids } }, { $pull: { enrolledTeachers: teacherId } })`. */
  function DropTeacher(rows: map<Id, User>, ids: seq<Id>, teacherId: Id): (r: map<Id, User>)
    ensures r.Keys == rows.Keys
    ensures forall id :: id in rows && id !in ids ==> r[id] == rows[id]
    ensures forall id :: id in rows && id in ids ==>
              && r[id] == rows[id].(enrolledTeachers := r[id].enrolledTeachers)
              && teacherId !in r[id].enrolledTeachers
              && (forall t :: t != teacherId ==> (t in r[id].enrolledTeachers <==> t in rows[id].enrolledTeachers))
  {
    map id | id in rows :: if id in ids then rows[id].(enrolledTeachers := Pull(rows[id].enrolledTeachers, teacherId)) else rows[id]
  }

  /** The users after `enrollStudents` enrolled `ids`: the teacher saved first,
      then the students updated. */
  function AfterEnrol(rows: map<Id, User>, teacherId: Id, ids: seq<Id>): map<Id, User>
    requires teacherId in rows
  {
    AddTeacher(rows[teacherId := WithStudents(rows[teacherId], ids)], ids, teacherId)
  }

  /** The users after `removeEnrolledStudents` removed `ids`. */
  function AfterRemoval(rows: map<Id, User>, teacherId: Id, ids: seq<Id>): map<Id, User>
    requires teacherId in rows
  {
    DropTeacher(rows[teacherId := WithoutStudents(rows[teacherId], ids)], ids, teacherId)
  }

  // ------------------------------------------------------------ the test updates

  /** The update each handler sends to every enrolled-visibility test. */
  datatype AccessUpdate =
    | Grant(ids: seq<Id>)   // $addToSet: { allowedStudentIds: { $each: ids } }
    | Revoke(ids: seq<Id>)  // $pull: { allowedStudentIds: { $in: ids } }
    | Replace(ids: seq<Id>) // $set: { allowedStudentIds: ids }

  function ApplyAccess(t: Test, u: AccessUpdate): (r: Test)
    ensures r.(allowedStudentIds := t.allowedStudentIds) == t
    ensures u.Grant? ==> (forall id :: id in r.allowedStudentIds <==> id in t.allowedStudentIds || id in u.ids)
                         && |t.allowedStudentIds| <= |r.allowedStudentIds| && r.allowedStudentIds[..|t.allowedStudentIds|] == t.allowedStudentIds
                         && (Distinct(t.allowedStudentIds) ==> Distinct(r.allowedStudentIds))
    ensures u.Revoke? ==> (forall id :: id in r.allowedStudentIds <==> id in t.allowedStudentIds && id !in u.ids)
                          && (Distinct(t.allowedStudentIds) ==> Distinct(r.allowedStudentIds))
    ensures u.Replace? ==> r.allowedStudentIds == u.ids
  {
    match u
    case Grant(ids) => t.(allowedStudentIds := AddEachToSet(t.allowedStudentIds, ids))
    case Revoke(ids) => t.(allowedStudentIds := PullAll(t.allowedStudentIds, ids))
    case Replace(ids) => t.(allowedStudentIds := ids)
  }

  /** The tests after the update reached every test listed in `testIds`. */
  function Updated(rows: map<Id, Test>, testIds: seq<Id>, u: AccessUpdate): (r: map<Id, Test>)
    ensures r.Keys == rows.Keys
    ensures forall id :: id in rows ==> r[id] == (if id in testIds then ApplyAccess(rows[id], u) else rows[id])
  {
    map id | id in rows :: if id in testIds then ApplyAccess(rows[id], u) else rows[id]
  }

  /** The tests after the update reached every enrolled-visibility test of the
      teacher and no other test. */
  function AfterAccess(rows: map<Id, Test>, teacherId: Id, u: AccessUpdate): (r: map<Id, Test>)
    ensures r.Keys == rows.Keys
    ensures forall id :: id in rows && !IsEnrolledTestOf(rows[id], teacherId) ==> r[id] == rows[id]
    ensures forall id :: id in rows && IsEnrolledTestOf(rows[id], teacherId) ==> r[id] == ApplyAccess(rows[id], u)
  {
    map id | id in rows :: if IsEnrolledTestOf(rows[id], teacherId) then ApplyAccess(rows[id], u) else rows[id]
  }

  /** `tests.map(test => Test.findByIdAndUpdate(test._id, update))`, one test
      after another. */
  method UpdateTests(tests: Collection<Test>, testIds: seq<Id>, u: AccessUpdate)
    requires Distinct(testIds)
    modifies tests
    ensures tests.nextId == old(tests.nextId)
    ensures tests.rows == Updated(old(tests.rows), testIds, u)
  {
    var i := 0;
    while i < |testIds|
      invariant 0 <= i <= |testIds|
      invariant tests.nextId == old(tests.nextId)
      invariant tests.rows == Updated(old(tests.rows), testIds[..i], u)
    {
      var id := testIds[i];
      UpdatedStep(old(tests.rows), testIds, i, u);
      if id in tests.rows {
        tests.rows := tests.rows[id := ApplyAccess(tests.rows[id], u)];
      }
      i := i + 1;
    }
    assert testIds[..i] == testIds;
  }

  /** One more test of the list updated. */
  lemma UpdatedStep(rows: map<Id, Test>, testIds: seq<Id>, i: nat, u: AccessUpdate)
    requires Distinct(testIds) && i < |testIds|
    ensures var before := Updated(rows, testIds[..i], u);
            var id := testIds[i];
            Updated(rows, testIds[..i + 1], u) ==
              (if id in before then before[id := ApplyAccess(before[id], u)] else before)
  {
    var id := testIds[i];
    assert testIds[..i + 1] == testIds[..i] + [id];
    assert id !in testIds[..i];
  }

  /** Updating the tests the query found is updating every enrolled-visibility
      test of the teacher. */
  lemma QueriedTestsAreAllEnrolledTests(rows: map<Id, Test>, teacherId: Id, bound: nat, u: AccessUpdate)
    requires forall id :: id in rows ==> id < bound
    ensures Updated(rows, EnrolledTests(rows, teacherId, bound), u) == AfterAccess(rows, teacherId, u)
  {
  }

  // ------------------------------------------------------------ the handlers

  /** `enrollStudents`. */
  method EnrollStudents(users: Collection<User>, tests: Collection<Test>, teacherId: Id, usernames: Option<seq<string>>)
    returns (r: Result<seq<Id>, EnrollError>)
    requires users.Valid() && tests.Valid()
    modifies users, tests
    ensures users.Valid() && tests.Valid()
    ensures users.nextId == old(users.nextId) && tests.nextId == old(tests.nextId)
    ensures usernames.None? ==> r == Err(NotAnArray)
    ensures usernames.Some? ==>
              var found := MatchingStudents(old(users.rows), usernames.value, old(users.nextId));
              && (found == [] ==> r == Err(NoStudentsFound))
              && (found != [] && teacherId !in old(users.rows) ==> r == Err(TeacherNotFound))
              && (found != [] && teacherId in old(users.rows) ==> r == Ok(found))
    ensures r.Err? ==> users.rows == old(users.rows) && tests.rows == old(tests.rows)
    ensures r.Ok? ==> teacherId in old(users.rows)
                      && users.rows == AfterEnrol(old(users.rows), teacherId, r.value)
                      && tests.rows == AfterAccess(old(tests.rows), teacherId, Grant(r.value))
  {
    if usernames.None? {
      return Err(NotAnArray);
    }
    var studentIds := MatchingStudents(users.rows, usernames.value, users.nextId);
    if studentIds == [] {
      return Err(NoStudentsFound);
    }
    if teacherId !in users.rows {
      return Err(TeacherNotFound);
    }
    SaveEnrolment(users, teacherId, studentIds);
    var testIds := EnrolledTests(tests.rows, teacherId, tests.nextId);
    QueriedTestsAreAllEnrolledTests(tests.rows, teacherId, tests.nextId, Grant(studentIds));
    UpdateTests(tests, testIds, Grant(studentIds));
    r := Ok(studentIds);
  }

  /** `teacher.save()` of the extended list, then `updateMany` on the students. */
  method SaveEnrolment(users: Collection<User>, teacherId: Id, ids: seq<Id>)
    requires users.Valid() && teacherId in users.rows
    modifies users
    ensures users.Valid() && users.nextId == old(users.nextId)
    ensures users.rows == AfterEnrol(old(users.rows), teacherId, ids)
  {
    users.rows := users.rows[teacherId := WithStudents(users.rows[teacherId], ids)];
    users.rows := AddTeacher(users.rows, ids, teacherId);
  }

  /** `teacher.save()` of the shortened list, then `updateMany` on the users. */
  method SaveRemoval(users: Collection<User>, teacherId: Id, ids: seq<Id>)
    requires users.Valid() && teacherId in users.rows
    modifies users
    ensures users.Valid() && users.nextId == old(users.nextId)
    ensures users.rows == AfterRemoval(old(users.rows), teacherId, ids)
  {
    users.rows := users.rows[teacherId := WithoutStudents(users.rows[teacherId], ids)];
    users.rows := DropTeacher(users.rows, ids, teacherId);
  }

  /** `removeEnrolledStudents`. There is no role filter: the teacher is pulled
      from every listed user. The result is the number of tests updated. */
  method RemoveEnrolledStudents(users: Collection<User>, tests: Collection<Test>, teacherId: Id, studentIds: Option<seq<Id>>)
    returns (r: Result<nat, EnrollError>)
    requires users.Valid() && tests.Valid()
    modifies users, tests
    ensures users.Valid() && tests.Valid()
    ensures users.nextId == old(users.nextId) && tests.nextId == old(tests.nextId)
    ensures studentIds.None? ==> r == Err(NotAnArray)
    ensures studentIds.Some? && teacherId !in old(users.rows) ==> r == Err(TeacherNotFound)
    ensures r.Err? ==> users.rows == old(users.rows) && tests.rows == old(tests.rows)
    ensures studentIds.Some? && teacherId in old(users.rows) ==>
              && r == Ok(|EnrolledTests(old(tests.rows), teacherId, old(tests.nextId))|)
              && users.rows == AfterRemoval(old(users.rows), teacherId, studentIds.value)
              && tests.rows == AfterAccess(old(tests.rows), teacherId, Revoke(studentIds.value))
  {
    if studentIds.None? {
      return Err(NotAnArray);
    }
    if teacherId !in users.rows {
      return Err(TeacherNotFound);
    }
    var ids := studentIds.value;
    SaveRemoval(users, teacherId, ids);
    var testIds := EnrolledTests(tests.rows, teacherId, tests.nextId);
    QueriedTestsAreAllEnrolledTests(tests.rows, teacherId, tests.nextId, Revoke(ids));
    UpdateTests(tests, testIds, Revoke(ids));
    r := Ok(|testIds|);
  }

  /** `syncEnrolledStudentsWithTests`: every enrolled-visibility test of the
      teacher is given exactly the teacher's (existing) enrolled students. With no
      such test nothing changes. The result is the number of tests updated. */
  method SyncEnrolledStudentsWithTests(users: Collection<User>, tests: Collection<Test>, teacherId: Id)
    returns (r: Result<nat, EnrollError>)
    requires tests.Valid()
    modifies tests
    ensures tests.Valid() && tests.nextId == old(tests.nextId)
    ensures teacherId !in users.rows ==> r == Err(TeacherNotFound) && tests.rows == old(tests.rows)
    ensures teacherId in users.rows ==>
              && r == Ok(|EnrolledTests(old(tests.rows), teacherId, old(tests.nextId))|)
              && tests.rows == AfterAccess(old(tests.rows), teacherId,
                                           Replace(ExistingUsers(users.rows[teacherId].enrolledStudents, users.rows)))
  {
    if teacherId !in users.rows {
      return Err(TeacherNotFound);
    }
    var enrolled := ExistingUsers(users.rows[teacherId].enrolledStudents, users.rows);
    var testIds := EnrolledTests(tests.rows, teacherId, tests.nextId);
    if testIds == [] {
      assert AfterAccess(tests.rows, teacherId, Replace(enrolled)) == tests.rows;
      return Ok(0);
    }
    QueriedTestsAreAllEnrolledTests(tests.rows, teacherId, tests.nextId, Replace(enrolled));
    UpdateTests(tests, testIds, Replace(enrolled));
    r := Ok(|testIds|);
  }

  // ------------------------------------------------------------ keeping the links in step

  /** Every enrolled-visibility test of the teacher admits exactly the teacher's
      enrolled students. */
  ghost predicate InStep(users: map<Id, User>, tests: map<Id, Test>, teacherId: Id)
    requires teacherId in users
  {
    forall id :: id in tests && IsEnrolledTestOf(tests[id], teacherId) ==>
      tests[id].allowedStudentIds == users[teacherId].enrolledStudents
  }

  /** Syncing puts the tests in step with the enrolment list once every enrolled
      student exists. */
  lemma SyncPutsTestsInStep(users: map<Id, User>, tests: map<Id, Test>, teacherId: Id)
    requires teacherId in users
    requires forall id :: id in users[teacherId].enrolledStudents ==> id in users
    ensures InStep(users, AfterAccess(tests, teacherId, Replace(ExistingUsers(users[teacherId].enrolledStudents, users))), teacherId)
  {
    ExistingUsersOfResolved(users[teacherId].enrolledStudents, users);
  }

  /** Enrolling keeps the tests in step: `$addToSet` with `$each` on the tests
      computes the same list as the de-duplicated concatenation on the teacher,
      provided the teacher's list has no duplicates. */
  lemma EnrolKeepsTestsInStep(users: map<Id, User>, tests: map<Id, Test>, teacherId: Id, ids: seq<Id>)
    requires teacherId in users && Distinct(users[teacherId].enrolledStudents)
    requires InStep(users, tests, teacherId)
    ensures teacherId in AfterEnrol(users, teacherId, ids)
    ensures InStep(AfterEnrol(users, teacherId, ids), AfterAccess(tests, teacherId, Grant(ids)), teacherId)
  {
    EnrolmentKeepsOrder(users[teacherId], ids);
  }

  /** Removing keeps the tests in step. */
  lemma RemovalKeepsTestsInStep(users: map<Id, User>, tests: map<Id, Test>, teacherId: Id, ids: seq<Id>)
    requires teacherId in users
    requires InStep(users, tests, teacherId)
    ensures teacherId in AfterRemoval(users, teacherId, ids)
    ensures InStep(AfterRemoval(users, teacherId, ids), AfterAccess(tests, teacherId, Revoke(ids)), teacherId)
  {
  }

  /** Enrolling students none of whom were enrolled and then removing them
      restores the teacher's list. */
  lemma RemovalUndoesEnrolment(teacher: User, ids: seq<Id>)
    requires Distinct(teacher.enrolledStudents)
    requires forall id :: id in ids ==> id !in teacher.enrolledStudents
    ensures WithoutStudents(WithStudents(teacher, ids), ids) == teacher
  {
    EnrolmentKeepsOrder(teacher, ids);
    PullAllUndoesAddEach(teacher.enrolledStudents, ids);
  }
}
