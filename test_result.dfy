/** `app/crud/test_result.py`: the results of submitted tests. The table has
    no uniqueness constraint; submitting again overwrites the student's
    earlier result for the test, which keeps at most one result per student
    and test when there was at most one before. */
module TestResultStore {
  import opened Wrappers
  import opened Table
  import opened Quiz
  import TestStore

  datatype TestResult = TestResult(
    testId: nat, studentId: nat, answers: seq<MarkedAnswer>, score: int, totalQuestions: int)

  /** The pair a result belongs to: (student, test). */
  function Taker(r: TestResult): (nat, nat) {
    (r.studentId, r.testId)
  }

  function Overwrite(answers: seq<MarkedAnswer>, score: int, totalQuestions: int): TestResult -> TestResult {
    (r: TestResult) => r.(answers := answers, score := score, totalQuestions := totalQuestions)
  }

  /** The join on `tests` of lines 27-30: without a course every result, with
      one only results whose test exists and belongs to that course. */
  function InCourse(tests: seq<Row<TestStore.TestRecord>>, courseId: Option<int>): Row<TestResult> -> bool {
    (x: Row<TestResult>) =>
      courseId.None? || (Get(tests, x.value.testId).Some? && Get(tests, x.value.testId).value.value.courseId == courseId.value)
  }

  function OfStudent(studentId: nat): Row<TestResult> -> bool {
    (x: Row<TestResult>) => x.value.studentId == studentId
  }

  function OfTest(testId: nat): Row<TestResult> -> bool {
    (x: Row<TestResult>) => x.value.testId == testId
  }

  function OfStudentInCourse(tests: seq<Row<TestStore.TestRecord>>, studentId: nat, courseId: int): Row<TestResult> -> bool {
    (x: Row<TestResult>) => OfStudent(studentId)(x) && InCourse(tests, Some(courseId))(x)
  }

  /** `get_test_results`. */
  function Results(rows: seq<Row<TestResult>>, tests: seq<Row<TestStore.TestRecord>>,
                   skip: nat, limit: nat, courseId: Option<int>): (r: seq<Row<TestResult>>)
    ensures |r| <= limit
    ensures forall k | 0 <= k < |r| :: r[k] in rows && InCourse(tests, courseId)(r[k])
  {
    PageWhere(rows, InCourse(tests, courseId), skip, limit)
  }

  /** `get_test_results_by_student`. */
  function ByStudent(rows: seq<Row<TestResult>>, studentId: nat, skip: nat, limit: nat): (r: seq<Row<TestResult>>)
    ensures |r| <= limit
    ensures forall k | 0 <= k < |r| :: r[k] in rows && r[k].value.studentId == studentId
  {
    PageWhere(rows, OfStudent(studentId), skip, limit)
  }

  /** `get_test_results_by_test`. */
  function ByTest(rows: seq<Row<TestResult>>, testId: nat, skip: nat, limit: nat): (r: seq<Row<TestResult>>)
    ensures |r| <= limit
    ensures forall k | 0 <= k < |r| :: r[k] in rows && r[k].value.testId == testId
  {
    PageWhere(rows, OfTest(testId), skip, limit)
  }

  /** `get_test_results_by_student_and_course`: no paging. */
  function ByStudentAndCourse(rows: seq<Row<TestResult>>, tests: seq<Row<TestStore.TestRecord>>,
                              studentId: nat, courseId: int): seq<Row<TestResult>> {
    Where(rows, OfStudentInCourse(tests, studentId, courseId))
  }

  /** `get_test_result_by_student_and_test`: the first result of the pair. */
  function ByStudentAndTest(rows: seq<Row<TestResult>>, studentId: nat, testId: nat): (r: Option<Row<TestResult>>)
    ensures r.Some? ==> r.value in rows && r.value.value.studentId == studentId && r.value.value.testId == testId
    ensures r.None? ==> forall k | 0 <= k < |rows| :: Taker(rows[k].value) != (studentId, testId)
  {
    match FirstWhere(rows, SameKey(Taker, (studentId, testId)))
    case None => None
    case Some(i) =>
      assert Taker(rows[i].value) == (studentId, testId) by { assert SameKey(Taker, (studentId, testId))(rows[i]); }
      Some(rows[i])
  }

  /** The student's results are exactly that student's rows. */
  lemma ByStudentComplete(rows: seq<Row<TestResult>>, studentId: nat, limit: nat, x: Row<TestResult>)
    requires limit >= |rows|
    ensures x in ByStudent(rows, studentId, 0, limit) <==> x in rows && x.value.studentId == studentId
  {
    PageWhereComplete(rows, OfStudent(studentId), limit, x);
  }

  /** The test's results are exactly that test's rows. */
  lemma ByTestComplete(rows: seq<Row<TestResult>>, testId: nat, limit: nat, x: Row<TestResult>)
    requires limit >= |rows|
    ensures x in ByTest(rows, testId, 0, limit) <==> x in rows && x.value.testId == testId
  {
    PageWhereComplete(rows, OfTest(testId), limit, x);
  }

  /** A course filter keeps exactly the results whose test exists and belongs
      to the course; a result of a deleted test is never listed under a course. */
  lemma ResultsOfCourse(rows: seq<Row<TestResult>>, tests: seq<Row<TestStore.TestRecord>>,
                        limit: nat, courseId: int, x: Row<TestResult>)
    requires Ascending(tests) && limit >= |rows|
    ensures x in Results(rows, tests, 0, limit, Some(courseId)) <==>
      x in rows && exists t | t in tests :: t.id == x.value.testId && t.value.courseId == courseId
  {
    PageWhereComplete(rows, InCourse(tests, Some(courseId)), limit, x);
    if exists t | t in tests :: t.id == x.value.testId && t.value.courseId == courseId {
      var t :| t in tests && t.id == x.value.testId && t.value.courseId == courseId;
      GetMember(tests, t);
    }
  }

  /** The student's results in a course are exactly that student's rows whose
      test belongs to the course. */
  lemma ByStudentAndCourseMembers(rows: seq<Row<TestResult>>, tests: seq<Row<TestStore.TestRecord>>,
                                  studentId: nat, courseId: int, x: Row<TestResult>)
    ensures x in ByStudentAndCourse(rows, tests, studentId, courseId) <==>
      x in rows && x.value.studentId == studentId
      && Get(tests, x.value.testId).Some? && Get(tests, x.value.testId).value.value.courseId == courseId
  {
    var p := OfStudentInCourse(tests, studentId, courseId);
    assert p(x) <==> OfStudent(studentId)(x) && InCourse(tests, Some(courseId))(x);
    if x in rows && p(x) {
      WhereKeeps(rows, p, x);
    }
  }

  /** The table after `create_or_update_test_result`. */
  function Submitted(rows: seq<Row<TestResult>>, next: nat, testId: nat, studentId: nat,
                     answers: seq<MarkedAnswer>, score: int, totalQuestions: int): seq<Row<TestResult>> {
    Upsert(rows, next, Taker, TestResult(testId, studentId, answers, score, totalQuestions))
  }

  /** Submitting again overwrites the pair's result under the same key and adds
      no row; a first submission adds exactly one row. At most one result per
      pair is preserved, and afterwards the pair's result is the one given. */
  lemma SubmittedResult(rows: seq<Row<TestResult>>, next: nat, testId: nat, studentId: nat,
                        answers: seq<MarkedAnswer>, score: int, totalQuestions: int)
    requires Valid(rows, next)
    ensures var v := TestResult(testId, studentId, answers, score, totalQuestions);
      var r := Submitted(rows, next, testId, studentId, answers, score, totalQuestions);
      ByStudentAndTest(r, studentId, testId).Some? && ByStudentAndTest(r, studentId, testId).value.value == v
      && (ByStudentAndTest(rows, studentId, testId).Some? ==>
            |r| == |rows| && Valid(r, next)
            && ByStudentAndTest(r, studentId, testId).value.id == ByStudentAndTest(rows, studentId, testId).value.id)
      && (ByStudentAndTest(rows, studentId, testId).None? ==> r == rows + [Row(next, v)] && Valid(r, next + 1))
      && (UniqueBy(rows, Taker) ==> UniqueBy(r, Taker))
  {
    var v := TestResult(testId, studentId, answers, score, totalQuestions);
    assert Taker(v) == (studentId, testId);
    UpsertFinds(rows, next, Taker, v);
    var found := FirstWhere(rows, SameKey(Taker, Taker(v)));
    var r := Submitted(rows, next, testId, studentId, answers, score, totalQuestions);
    if found.Some? {
      SetAtValid(rows, next, found.value, v);
      var after := FirstWhere(r, SameKey(Taker, Taker(v)));
      assert after == found by {
        assert SameKey(Taker, Taker(v))(r[found.value]);
        forall j | 0 <= j < found.value ensures !SameKey(Taker, Taker(v))(r[j]) {
          assert r[j] == rows[j];
        }
      }
    } else {
      InsertValid(rows, next, v);
    }
    if UniqueBy(rows, Taker) {
      UpsertKeeps(rows, next, Taker, v);
    }
  }

  class TestResults {
    var rows: seq<Row<TestResult>>
    var nextId: nat

    ghost predicate Valid() reads this {
      Table.Valid(rows, nextId)
    }

    constructor ()
      ensures Valid() && rows == []
    {
      rows, nextId := [], 1;
    }

    /** `get_test_result`. */
    function GetTestResult(id: nat): Option<Row<TestResult>>
      reads this
    {
      Get(rows, id)
    }

    /** `get_test_results`. */
    function GetTestResults(tests: TestStore.Tests, skip: nat, limit: nat, courseId: Option<int>): seq<Row<TestResult>>
      reads this, tests
    {
      Results(rows, tests.rows, skip, limit, courseId)
    }

    /** `get_test_results_by_student`. */
    function GetTestResultsByStudent(studentId: nat, skip: nat, limit: nat): seq<Row<TestResult>>
      reads this
    {
      ByStudent(rows, studentId, skip, limit)
    }

    /** `get_test_results_by_test`. */
    function GetTestResultsByTest(testId: nat, skip: nat, limit: nat): seq<Row<TestResult>>
      reads this
    {
      ByTest(rows, testId, skip, limit)
    }

    /** `get_test_results_by_student_and_course`. */
    function GetTestResultsByStudentAndCourse(tests: TestStore.Tests, studentId: nat, courseId: int): seq<Row<TestResult>>
      reads this, tests
    {
      ByStudentAndCourse(rows, tests.rows, studentId, courseId)
    }

    /** `get_test_result_by_student_and_test`. */
    function GetTestResultByStudentAndTest(studentId: nat, testId: nat): Option<Row<TestResult>>
      reads this
    {
      ByStudentAndTest(rows, studentId, testId)
    }

    /** `create_test_result`: a new row under the next key. */
    method CreateTestResult(testId: nat, studentId: nat, answers: seq<MarkedAnswer>, score: int, totalQuestions: int)
      returns (result: Row<TestResult>)
      requires Valid()
      modifies this
      ensures Valid()
      ensures result == Row(old(nextId), TestResult(testId, studentId, answers, score, totalQuestions))
      ensures rows == old(rows) + [result] && nextId == old(nextId) + 1
    {
      result := Row(nextId, TestResult(testId, studentId, answers, score, totalQuestions));
      InsertValid(rows, nextId, result.value);
      rows := rows + [result];
      nextId := nextId + 1;
    }

    /** `update_test_result`: answers, score and total change; `None` for a missing key. */
    method UpdateTestResult(id: nat, answers: seq<MarkedAnswer>, score: int, totalQuestions: int)
      returns (result: Option<Row<TestResult>>)
      requires Valid()
      modifies this
      ensures Valid() && nextId == old(nextId)
      ensures rows == Modify(old(rows), id, Overwrite(answers, score, totalQuestions))
      ensures result.Some? <==> old(Get(rows, id)).Some?
      ensures result.Some? ==> result.value == Row(id, Overwrite(answers, score, totalQuestions)(old(Get(rows, id)).value.value))
    {
      var i := KeyIndex(rows, id);
      if i.None? {
        return None;
      }
      var f := Overwrite(answers, score, totalQuestions);
      ModifyAt(rows, nextId, id, f);
      result := Some(Row(id, f(rows[i.value].value)));
      rows := SetAt(rows, i.value, f(rows[i.value].value));
    }

    /** `create_or_update_test_result`. */
    method CreateOrUpdateTestResult(testId: nat, studentId: nat, answers: seq<MarkedAnswer>, score: int, totalQuestions: int)
      returns (result: Row<TestResult>)
      requires Valid()
      modifies this
      ensures Valid()
      ensures rows == Submitted(old(rows), old(nextId), testId, studentId, answers, score, totalQuestions)
      ensures ByStudentAndTest(rows, studentId, testId) == Some(result)
      ensures result.value == TestResult(testId, studentId, answers, score, totalQuestions)
      ensures old(UniqueBy(rows, Taker)) ==> UniqueBy(rows, Taker)
    {
      SubmittedResult(rows, nextId, testId, studentId, answers, score, totalQuestions);
      var existing := FirstWhere(rows, SameKey(Taker, (studentId, testId)));
      if existing.Some? {
        var i := existing.value;
        KeyIndexAt(rows, i);
        var updated := UpdateTestResult(rows[i].id, answers, score, totalQuestions);
        result := updated.value;
      } else {
        result := CreateTestResult(testId, studentId, answers, score, totalQuestions);
      }
    }

    /** `delete_test_result`: true exactly when the result existed. */
    method DeleteTestResult(id: nat) returns (deleted: bool)
      requires Valid()
      modifies this
      ensures Valid() && nextId == old(nextId)
      ensures deleted <==> old(Get(rows, id)).Some?
      ensures Get(rows, id) == None
      ensures deleted ==> rows == RemoveAt(old(rows), old(KeyIndex(rows, id)).value)
      ensures !deleted ==> rows == old(rows)
    {
      var i := KeyIndex(rows, id);
      if i.None? {
        return false;
      }
      RemoveAtValid(rows, nextId, i.value);
      rows := RemoveAt(rows, i.value);
      return true;
    }
  }
}
