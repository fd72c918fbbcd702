/** `app/crud/summary.py`: the summary table, at most one summary per course.
    Creating a summary for a course that has one overwrites its content. */
module SummaryStore {
  import opened Wrappers
  import opened Table

  datatype Summary = Summary(courseId: int, content: string)

  function CourseOf(s: Summary): int {
    s.courseId
  }

  function WithContent(content: string): Summary -> Summary {
    (s: Summary) => s.(content := content)
  }

  /** `get_summary_by_course`: the first summary of the course. */
  function ByCourse(rows: seq<Row<Summary>>, courseId: int): (r: Option<Row<Summary>>)
    ensures r.Some? ==> r.value in rows && r.value.value.courseId == courseId
    ensures r.None? ==> forall k | 0 <= k < |rows| :: rows[k].value.courseId != courseId
  {
    match FirstWhere(rows, SameKey(CourseOf, courseId))
    case None => None
    case Some(i) => Some(rows[i])
  }

  /** The table after `create_summary(course_id, content)`. */
  function Created(rows: seq<Row<Summary>>, next: nat, courseId: int, content: string): seq<Row<Summary>> {
    Upsert(rows, next, CourseOf, Summary(courseId, content))
  }

  /** Afterwards the course's summary holds exactly the given content; a course
      that had a summary keeps its key and gets no second summary. */
  lemma CreatedSummary(rows: seq<Row<Summary>>, next: nat, courseId: int, content: string)
    requires Valid(rows, next) && UniqueBy(rows, CourseOf)
    ensures var r := Created(rows, next, courseId, content);
      UniqueBy(r, CourseOf)
      && ByCourse(r, courseId).Some? && ByCourse(r, courseId).value.value.content == content
      && (ByCourse(rows, courseId).Some? ==>
            |r| == |rows| && Valid(r, next) && ByCourse(r, courseId).value.id == ByCourse(rows, courseId).value.id)
      && (ByCourse(rows, courseId).None? ==> r == rows + [Row(next, Summary(courseId, content))])
  {
    var v := Summary(courseId, content);
    assert CourseOf(v) == courseId;
    UpsertKeeps(rows, next, CourseOf, v);
    UpsertFinds(rows, next, CourseOf, v);
  }

  class Summaries {
    var rows: seq<Row<Summary>>
    var nextId: nat

    ghost predicate Valid() reads this {
      Table.Valid(rows, nextId) && UniqueBy(rows, CourseOf)
    }

    constructor ()
      ensures Valid() && rows == []
    {
      rows, nextId := [], 1;
    }

    /** `get_summary`. */
    function GetSummary(id: nat): Option<Row<Summary>>
      reads this
    {
      Get(rows, id)
    }

    /** `get_summary_by_course`. */
    function GetSummaryByCourse(courseId: int): Option<Row<Summary>>
      reads this
    {
      ByCourse(rows, courseId)
    }

    /** `get_summaries`. */
    function GetSummaries(skip: nat, limit: nat): seq<Row<Summary>>
      reads this
    {
      Page(rows, skip, limit)
    }

    /** `create_summary`: overwrite the content of the course's summary, or add one. */
    method CreateSummary(courseId: int, content: string) returns (summary: Row<Summary>)
      requires Valid()
      modifies this
      ensures Valid()
      ensures rows == Created(old(rows), old(nextId), courseId, content)
      ensures ByCourse(rows, courseId) == Some(summary) && summary.value == Summary(courseId, content)
      ensures nextId == if old(ByCourse(rows, courseId)).Some? then old(nextId) else old(nextId) + 1
    {
      CreatedSummary(rows, nextId, courseId, content);
      var existing := FirstWhere(rows, SameKey(CourseOf, courseId));
      if existing.Some? {
        var i := existing.value;
        assert rows[i].value.(content := content) == Summary(courseId, content);
        rows := SetAt(rows, i, rows[i].value.(content := content));
        summary := rows[i];
      } else {
        summary := Row(nextId, Summary(courseId, content));
        rows := rows + [summary];
        nextId := nextId + 1;
      }
    }

    /** `update_summary`: only the content changes; `None` for a missing key. */
    method UpdateSummary(id: nat, content: string) returns (summary: Option<Row<Summary>>)
      requires Valid()
      modifies this
      ensures Valid() && nextId == old(nextId)
      ensures rows == Modify(old(rows), id, WithContent(content))
      ensures summary.Some? <==> old(Get(rows, id)).Some?
      ensures summary.Some? ==> summary.value == Row(id, old(Get(rows, id)).value.value.(content := content))
    {
      var i := KeyIndex(rows, id);
      if i.None? {
        return None;
      }
      ModifyAt(rows, nextId, id, WithContent(content));
      summary := Some(Row(id, rows[i.value].value.(content := content)));
      rows := SetAt(rows, i.value, rows[i.value].value.(content := content));
    }

    /** `delete_summary`: true exactly when the summary existed. */
    method DeleteSummary(id: nat) returns (deleted: bool)
      requires Valid()
      modifies this
      ensures Valid() && nextId == old(nextId)
      ensures deleted <==> old(Get(rows, id)).Some?
      ensures Get(rows, id) == None
      ensures deleted ==> rows == RemoveAt(old(rows), old(KeyIndex(rows, id)).value)
      ensures !deleted ==> rows == old(rows)
    {
      var i := KeyIndex(rows, id);
      if i.None? {
        return false;
      }
      RemoveAtValid(rows, nextId, i.value);
      rows := RemoveAt(rows, i.value);
      return true;
    }
  }
}
