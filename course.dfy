/** `app/crud/course.py`: the course table. New courses are drafts; a course
    is published by setting its status, and edited by a partial update. */
module CourseStore {
  import opened Wrappers
  import opened Table

  datatype Status = Draft | Published

  datatype Course = Course(
    title: string, description: Option<string>, originalText: Option<string>,
    fileUrl: Option<string>, createdBy: int, status: Status)

  /** `CourseUpdate`: every field the API lets a methodist change. */
  datatype CourseUpdate = CourseUpdate(
    title: Patch<string>, description: Patch<Option<string>>, originalText: Patch<Option<string>>,
    fileUrl: Patch<Option<string>>, status: Patch<Status>)

  const NoChange: CourseUpdate := CourseUpdate(Keep, Keep, Keep, Keep, Keep)

  /** The `setattr` loop of lines 54-56: each field set in the request takes its
      new value; the creator is not part of an update. */
  function ApplyUpdate(c: Course, u: CourseUpdate): (r: Course)
    ensures r.createdBy == c.createdBy
    ensures u == NoChange ==> r == c
    ensures (u.title.Set? ==> r.title == u.title.value) && (r.title != c.title ==> u.title == Set(r.title))
    ensures (u.description.Set? ==> r.description == u.description.value)
         && (r.description != c.description ==> u.description == Set(r.description))
    ensures (u.originalText.Set? ==> r.originalText == u.originalText.value)
         && (r.originalText != c.originalText ==> u.originalText == Set(r.originalText))
    ensures (u.fileUrl.Set? ==> r.fileUrl == u.fileUrl.value) && (r.fileUrl != c.fileUrl ==> u.fileUrl == Set(r.fileUrl))
    ensures (u.status.Set? ==> r.status == u.status.value) && (r.status != c.status ==> u.status == Set(r.status))
  {
    Course(u.title.Over(c.title), u.description.Over(c.description), u.originalText.Over(c.originalText),
           u.fileUrl.Over(c.fileUrl), c.createdBy, u.status.Over(c.status))
  }

  function Publish(c: Course): Course {
    c.(status := Published)
  }

  /** A course under a status filter: `if status:` filters, `None` does not. */
  function HasStatus(status: Option<Status>): Row<Course> -> bool {
    (x: Row<Course>) => status.None? || x.value.status == status.value
  }

  function ByCreator(creator: int): Row<Course> -> bool {
    (x: Row<Course>) => x.value.createdBy == creator
  }

  /** `get_courses`: the courses of the given status, `limit` of them after
      skipping `skip`, in table order. */
  function Listing(rows: seq<Row<Course>>, skip: nat, limit: nat, status: Option<Status>): (r: seq<Row<Course>>)
    ensures |r| <= limit
    ensures forall k | 0 <= k < |r| :: r[k] in rows && (status.Some? ==> r[k].value.status == status.value)
  {
    var matching := Where(rows, HasStatus(status));
    var r := Page(matching, skip, limit);
    assert forall k | 0 <= k < |r| :: r[k] in matching;
    r
  }

  /** Publishing twice is publishing once. */
  lemma PublishIdempotent(rows: seq<Row<Course>>, id: nat)
    ensures Modify(Modify(rows, id, Publish), id, Publish) == Modify(rows, id, Publish)
  {
    var once := Modify(rows, id, Publish);
    SameKeysSameIndex(rows, once, id);
  }

  /** After `publish_course` the course with that key, if any, is published and
      otherwise unchanged; every other course is untouched. */
  lemma PublishedCourse(rows: seq<Row<Course>>, next: nat, id: nat)
    requires Valid(rows, next)
    ensures var r := Modify(rows, id, Publish);
      Valid(r, next)
      && (Get(r, id).Some? <==> Get(rows, id).Some?)
      && (Get(r, id).Some? ==> Get(r, id).value.value == Get(rows, id).value.value.(status := Published))
      && forall k | 0 <= k < |rows| && rows[k].id != id :: r[k] == rows[k]
  {
    ModifyAt(rows, next, id, Publish);
    var r := Modify(rows, id, Publish);
    SameKeysSameIndex(rows, r, id);
  }

  class Courses {
    var rows: seq<Row<Course>>
    var nextId: nat

    ghost predicate Valid() reads this {
      Table.Valid(rows, nextId)
    }

    constructor ()
      ensures Valid() && rows == []
    {
      rows, nextId := [], 1;
    }

    /** `get_course`. */
    function GetCourse(id: nat): Option<Row<Course>>
      reads this
    {
      Get(rows, id)
    }

    /** `get_courses`. */
    function GetCourses(skip: nat, limit: nat, status: Option<Status>): seq<Row<Course>>
      reads this
    {
      Listing(rows, skip, limit, status)
    }

    /** `get_courses_by_creator`. */
    function GetCoursesByCreator(creator: int, skip: nat, limit: nat): seq<Row<Course>>
      reads this
    {
      Page(Where(rows, ByCreator(creator)), skip, limit)
    }

    /** `create_course`: a new draft under the next key. */
    method CreateCourse(title: string, description: Option<string>, originalText: Option<string>,
                        fileUrl: Option<string>, creator: int) returns (c: Row<Course>)
      requires Valid()
      modifies this
      ensures Valid()
      ensures c == Row(old(nextId), Course(title, description, originalText, fileUrl, creator, Draft))
      ensures rows == old(rows) + [c] && nextId == old(nextId) + 1
    {
      c := Row(nextId, Course(title, description, originalText, fileUrl, creator, Draft));
      InsertValid(rows, nextId, c.value);
      rows := rows + [c];
      nextId := nextId + 1;
    }

    /** `update_course`: `None` for a missing key, which changes nothing. */
    method UpdateCourse(id: nat, u: CourseUpdate) returns (c: Option<Row<Course>>)
      requires Valid()
      modifies this
      ensures Valid() && nextId == old(nextId)
      ensures rows == Modify(old(rows), id, (x: Course) => ApplyUpdate(x, u))
      ensures c.Some? <==> old(Get(rows, id)).Some?
      ensures c.Some? ==> c.value == Row(id, ApplyUpdate(old(Get(rows, id)).value.value, u))
    {
      var i := KeyIndex(rows, id);
      if i.None? {
        return None;
      }
      ModifyAt(rows, nextId, id, (x: Course) => ApplyUpdate(x, u));
      c := Some(Row(id, ApplyUpdate(rows[i.value].value, u)));
      rows := SetAt(rows, i.value, ApplyUpdate(rows[i.value].value, u));
    }

    /** `publish_course`. */
    method PublishCourse(id: nat) returns (c: Option<Row<Course>>)
      requires Valid()
      modifies this
      ensures Valid() && nextId == old(nextId)
      ensures rows == Modify(old(rows), id, Publish)
      ensures c.Some? <==> old(Get(rows, id)).Some?
      ensures c.Some? ==> c.value == Row(id, old(Get(rows, id)).value.value.(status := Published))
    {
      var i := KeyIndex(rows, id);
      if i.None? {
        return None;
      }
      ModifyAt(rows, nextId, id, Publish);
      c := Some(Row(id, Publish(rows[i.value].value)));
      rows := SetAt(rows, i.value, Publish(rows[i.value].value));
    }

    /** `delete_course`: true exactly when the course existed. */
    method DeleteCourse(id: nat) returns (deleted: bool)
      requires Valid()
      modifies this
      ensures Valid() && nextId == old(nextId)
      ensures deleted <==> old(Get(rows, id)).Some?
      ensures Get(rows, id) == None
      ensures deleted ==> rows == RemoveAt(old(rows), old(KeyIndex(rows, id)).value)
      ensures !deleted ==> rows == old(rows)
    {
      var i := KeyIndex(rows, id);
      if i.None? {
        return false;
      }
      RemoveAtValid(rows, nextId, i.value);
      rows := RemoveAt(rows, i.value);
      return true;
    }
  }
}
