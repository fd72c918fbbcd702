/** `app/crud/test.py`: the test table, at most one test per course. Creating
    a test for a course that has one replaces that test's questions. */
module TestStore {
  import opened Wrappers
  import opened Table
  import opened Questions

  datatype TestRecord = TestRecord(courseId: int, questions: seq<Question>)

  function CourseOf(t: TestRecord): int {
    t.courseId
  }

  function WithQuestions(questions: seq<Question>): TestRecord -> TestRecord {
    (t: TestRecord) => t.(questions := questions)
  }

  /** `get_test_by_course`: the first test of the course. */
  function ByCourse(rows: seq<Row<TestRecord>>, courseId: int): (r: Option<Row<TestRecord>>)
    ensures r.Some? ==> r.value in rows && r.value.value.courseId == courseId
    ensures r.None? ==> forall k | 0 <= k < |rows| :: rows[k].value.courseId != courseId
  {
    match FirstWhere(rows, SameKey(CourseOf, courseId))
    case None => None
    case Some(i) => Some(rows[i])
  }

  /** The table after `create_test(course_id, questions)`. */
  function Created(rows: seq<Row<TestRecord>>, next: nat, courseId: int, questions: seq<Question>): seq<Row<TestRecord>> {
    Upsert(rows, next, CourseOf, TestRecord(courseId, questions))
  }

  /** Afterwards the course's test holds exactly the given questions; a course
      that had a test keeps its key and gets no second test. */
  lemma CreatedTest(rows: seq<Row<TestRecord>>, next: nat, courseId: int, questions: seq<Question>)
    requires Valid(rows, next) && UniqueBy(rows, CourseOf)
    ensures var r := Created(rows, next, courseId, questions);
      UniqueBy(r, CourseOf)
      && ByCourse(r, courseId).Some? && ByCourse(r, courseId).value.value.questions == questions
      && (ByCourse(rows, courseId).Some? ==>
            |r| == |rows| && Valid(r, next) && ByCourse(r, courseId).value.id == ByCourse(rows, courseId).value.id)
      && (ByCourse(rows, courseId).None? ==> r == rows + [Row(next, TestRecord(courseId, questions))])
  {
    var v := TestRecord(courseId, questions);
    assert CourseOf(v) == courseId;
    UpsertKeeps(rows, next, CourseOf, v);
    UpsertFinds(rows, next, CourseOf, v);
  }

  class Tests {
    var rows: seq<Row<TestRecord>>
    var nextId: nat

    ghost predicate Valid() reads this {
      Table.Valid(rows, nextId) && UniqueBy(rows, CourseOf)
    }

    constructor ()
      ensures Valid() && rows == []
    {
      rows, nextId := [], 1;
    }

    /** `get_test`. */
    function GetTest(id: nat): Option<Row<TestRecord>>
      reads this
    {
      Get(rows, id)
    }

    /** `get_test_by_course`. */
    function GetTestByCourse(courseId: int): Option<Row<TestRecord>>
      reads this
    {
      ByCourse(rows, courseId)
    }

    /** `get_tests`. */
    function GetTests(skip: nat, limit: nat): seq<Row<TestRecord>>
      reads this
    {
      Page(rows, skip, limit)
    }

    /** `create_test`: overwrite the questions of the course's test, or add one. */
    method CreateTest(courseId: int, questions: seq<Question>) returns (t: Row<TestRecord>)
      requires Valid()
      modifies this
      ensures Valid()
      ensures rows == Created(old(rows), old(nextId), courseId, questions)
      ensures ByCourse(rows, courseId) == Some(t) && t.value == TestRecord(courseId, questions)
      ensures nextId == if old(ByCourse(rows, courseId)).Some? then old(nextId) else old(nextId) + 1
    {
      CreatedTest(rows, nextId, courseId, questions);
      var existing := FirstWhere(rows, SameKey(CourseOf, courseId));
      if existing.Some? {
        var i := existing.value;
        assert rows[i].value.(questions := questions) == TestRecord(courseId, questions);
        rows := SetAt(rows, i, rows[i].value.(questions := questions));
        t := rows[i];
      } else {
        t := Row(nextId, TestRecord(courseId, questions));
        rows := rows + [t];
        nextId := nextId + 1;
      }
    }

    /** `update_test`: only the questions change; `None` for a missing key. */
    method UpdateTest(id: nat, questions: seq<Question>) returns (t: Option<Row<TestRecord>>)
      requires Valid()
      modifies this
      ensures Valid() && nextId == old(nextId)
      ensures rows == Modify(old(rows), id, WithQuestions(questions))
      ensures t.Some? <==> old(Get(rows, id)).Some?
      ensures t.Some? ==> t.value == Row(id, old(Get(rows, id)).value.value.(questions := questions))
    {
      var i := KeyIndex(rows, id);
      if i.None? {
        return None;
      }
      ModifyAt(rows, nextId, id, WithQuestions(questions));
      t := Some(Row(id, rows[i.value].value.(questions := questions)));
      rows := SetAt(rows, i.value, rows[i.value].value.(questions := questions));
    }

    /** `delete_test`: true exactly when the test existed. */
    method DeleteTest(id: nat) returns (deleted: bool)
      requires Valid()
      modifies this
      ensures Valid() && nextId == old(nextId)
      ensures deleted <==> old(Get(rows, id)).Some?
      ensures Get(rows, id) == None
      ensures deleted ==> rows == RemoveAt(old(rows), old(KeyIndex(rows, id)).value)
      ensures !deleted ==> rows == old(rows)
    {
      var i := KeyIndex(rows, id);
      if i.None? {
        return false;
      }
      RemoveAtValid(rows, nextId, i.value);
      rows := RemoveAt(rows, i.value);
      return true;
    }
  }
}
