/** `app/crud/case.py`: the case table. A case is a draft unless created
    with a status, is published and unpublished by setting its status, and is
    listed newest first. */
module CaseStore {
  import opened Wrappers
  import opened Table

  datatype Status = Draft | Published

  datatype Case = Case(
    title: string, description: Option<string>, cleaningText: Option<string>,
    createdBy: Option<int>, status: Status)

  /** `CaseCreate`. */
  datatype CaseCreate = CaseCreate(
    title: string, description: Option<string>, cleaningText: Option<string>, status: Option<Status>)

  /** `CaseFromPDF`: the text produced by the cleaning pipeline. */
  datatype CaseFromPdf = CaseFromPdf(
    title: string, description: Option<string>, cleanedText: string, status: Option<Status>)

  /** `CaseUpdate`. */
  datatype CaseUpdate = CaseUpdate(
    title: Patch<string>, description: Patch<Option<string>>, cleaningText: Patch<Option<string>>,
    status: Patch<Status>)

  const NoChange: CaseUpdate := CaseUpdate(Keep, Keep, Keep, Keep)

  /** `case.status if case.status else CaseStatus.DRAFT`. */
  function StatusOrDraft(s: Option<Status>): (r: Status)
    ensures s.None? ==> r == Draft
    ensures s.Some? ==> r == s.value
  {
    s.GetOr(Draft)
  }

  /** The record `create_case` stores (lines 46-52). */
  function NewCase(data: CaseCreate, creator: Option<int>): (c: Case)
    ensures c.status == (if data.status.Some? then data.status.value else Draft)
    ensures c.title == data.title && c.description == data.description
    ensures c.cleaningText == data.cleaningText && c.createdBy == creator
  {
    Case(data.title, data.description, data.cleaningText, creator, StatusOrDraft(data.status))
  }

  /** The record `create_case_from_pdf` stores (lines 65-71): the cleaned
      text becomes the case's `cleaning_text`. */
  function CaseFromPdfRecord(data: CaseFromPdf, creator: Option<int>): (c: Case)
    ensures c.cleaningText == Some(data.cleanedText)
    ensures c == NewCase(CaseCreate(data.title, data.description, Some(data.cleanedText), data.status), creator)
  {
    Case(data.title, data.description, Some(data.cleanedText), creator, StatusOrDraft(data.status))
  }

  /** The `setattr` loop of lines 84-86: each field set in the request takes its
      new value; the creator is not part of an update. */
  function ApplyUpdate(c: Case, u: CaseUpdate): (r: Case)
    ensures r.createdBy == c.createdBy
    ensures u == NoChange ==> r == c
    ensures (u.title.Set? ==> r.title == u.title.value) && (r.title != c.title ==> u.title == Set(r.title))
    ensures (u.description.Set? ==> r.description == u.description.value)
         && (r.description != c.description ==> u.description == Set(r.description))
    ensures (u.cleaningText.Set? ==> r.cleaningText == u.cleaningText.value)
         && (r.cleaningText != c.cleaningText ==> u.cleaningText == Set(r.cleaningText))
    ensures (u.status.Set? ==> r.status == u.status.value) && (r.status != c.status ==> u.status == Set(r.status))
  {
    Case(u.title.Over(c.title), u.description.Over(c.description), u.cleaningText.Over(c.cleaningText),
         c.createdBy, u.status.Over(c.status))
  }

  function Publish(c: Case): Case {
    c.(status := Published)
  }

  function Unpublish(c: Case): Case {
    c.(status := Draft)
  }

  function HasStatus(status: Option<Status>): Row<Case> -> bool {
    (x: Row<Case>) => status.None? || x.value.status == status.value
  }

  function ByCreator(creator: int): Row<Case> -> bool {
    (x: Row<Case>) => x.value.createdBy == Some(creator)
  }

  /** `order_by(desc(created_at))`: keys are handed out in creation order, so
      the newest case is the last row. */
  function Newest<X>(xs: seq<X>): (r: seq<X>)
    ensures |r| == |xs| && forall k | 0 <= k < |xs| :: r[k] == xs[|xs| - 1 - k]
  {
    seq(|xs|, k requires 0 <= k < |xs| => xs[|xs| - 1 - k])
  }

  /** `get_cases`: filter by status, newest first, then skip and limit. */
  function Listing(rows: seq<Row<Case>>, skip: nat, limit: nat, status: Option<Status>): (r: seq<Row<Case>>)
    ensures |r| <= limit
    ensures forall k | 0 <= k < |r| :: r[k] in rows && (status.Some? ==> r[k].value.status == status.value)
  {
    var matching := Where(rows, HasStatus(status));
    var r := Page(Newest(matching), skip, limit);
    assert forall k | 0 <= k < |r| :: r[k] in matching;
    r
  }

  predicate Descending(rows: seq<Row<Case>>) {
    forall i, j | 0 <= i < j < |rows| :: rows[i].id > rows[j].id
  }

  lemma NewestDescending(rows: seq<Row<Case>>)
    requires Ascending(rows)
    ensures Descending(Newest(rows))
  {
    var r := Newest(rows);
    forall i, j | 0 <= i < j < |r| ensures r[i].id > r[j].id {
      assert r[i] == rows[|rows| - 1 - i] && r[j] == rows[|rows| - 1 - j];
    }
  }

  lemma PageDescending(rows: seq<Row<Case>>, skip: nat, limit: nat)
    requires Descending(rows)
    ensures Descending(Page(rows, skip, limit))
  {
    var r := Page(rows, skip, limit);
    forall i, j | 0 <= i < j < |r| ensures r[i].id > r[j].id {
      assert r[i] == rows[skip + i] && r[j] == rows[skip + j];
    }
  }

  /** The listing is newest first: keys strictly decrease along it. */
  lemma ListingNewestFirst(rows: seq<Row<Case>>, skip: nat, limit: nat, status: Option<Status>)
    requires Ascending(rows)
    ensures Descending(Listing(rows, skip, limit, status))
  {
    var matching := Where(rows, HasStatus(status));
    WhereAscending(rows, HasStatus(status));
    NewestDescending(matching);
    PageDescending(Newest(matching), skip, limit);
  }

  /** Publishing or unpublishing twice is doing it once. */
  lemma StatusIdempotent(rows: seq<Row<Case>>, id: nat)
    ensures Modify(Modify(rows, id, Publish), id, Publish) == Modify(rows, id, Publish)
    ensures Modify(Modify(rows, id, Unpublish), id, Unpublish) == Modify(rows, id, Unpublish)
  {
    SameKeysSameIndex(rows, Modify(rows, id, Publish), id);
    SameKeysSameIndex(rows, Modify(rows, id, Unpublish), id);
  }

  /** Unpublishing a published case restores a draft with the same fields. */
  lemma UnpublishUndoesPublish(rows: seq<Row<Case>>, id: nat)
    requires forall k | 0 <= k < |rows| && rows[k].id == id :: rows[k].value.status == Draft
    ensures Modify(Modify(rows, id, Publish), id, Unpublish) == rows
  {
    var once := Modify(rows, id, Publish);
    SameKeysSameIndex(rows, once, id);
    var i := KeyIndex(rows, id);
    if i.Some? {
      assert Unpublish(Publish(rows[i.value].value)) == rows[i.value].value;
    }
  }

  class Cases {
    var rows: seq<Row<Case>>
    var nextId: nat

    ghost predicate Valid() reads this {
      Table.Valid(rows, nextId)
    }

    constructor ()
      ensures Valid() && rows == []
    {
      rows, nextId := [], 1;
    }

    /** `get_case`. */
    function GetCase(id: nat): Option<Row<Case>>
      reads this
    {
      Get(rows, id)
    }

    /** `get_cases`. */
    function GetCases(skip: nat, limit: nat, status: Option<Status>): seq<Row<Case>>
      reads this
    {
      Listing(rows, skip, limit, status)
    }

    /** `get_cases_by_creator`. */
    function GetCasesByCreator(creator: int, skip: nat, limit: nat): seq<Row<Case>>
      reads this
    {
      Page(Where(rows, ByCreator(creator)), skip, limit)
    }

    method Insert(c: Case) returns (row: Row<Case>)
      requires Valid()
      modifies this
      ensures Valid()
      ensures row == Row(old(nextId), c) && rows == old(rows) + [row] && nextId == old(nextId) + 1
    {
      row := Row(nextId, c);
      InsertValid(rows, nextId, c);
      rows := rows + [row];
      nextId := nextId + 1;
    }

    /** `create_case`. */
    method CreateCase(data: CaseCreate, creator: Option<int>) returns (row: Row<Case>)
      requires Valid()
      modifies this
      ensures Valid()
      ensures row == Row(old(nextId), NewCase(data, creator))
      ensures rows == old(rows) + [row] && nextId == old(nextId) + 1
    {
      row := Insert(NewCase(data, creator));
    }

    /** `create_case_from_pdf`. */
    method CreateCaseFromPdf(data: CaseFromPdf, creator: Option<int>) returns (row: Row<Case>)
      requires Valid()
      modifies this
      ensures Valid()
      ensures row == Row(old(nextId), CaseFromPdfRecord(data, creator))
      ensures rows == old(rows) + [row] && nextId == old(nextId) + 1
    {
      row := Insert(CaseFromPdfRecord(data, creator));
    }

    /** Applies `f` to the case with key `id`: `None` when there is none. */
    method Change(id: nat, f: Case -> Case) returns (c: Option<Row<Case>>)
      requires Valid()
      modifies this
      ensures Valid() && nextId == old(nextId)
      ensures rows == Modify(old(rows), id, f)
      ensures c.Some? <==> old(Get(rows, id)).Some?
      ensures c.Some? ==> c.value == Row(id, f(old(Get(rows, id)).value.value))
    {
      var i := KeyIndex(rows, id);
      if i.None? {
        return None;
      }
      ModifyAt(rows, nextId, id, f);
      c := Some(Row(id, f(rows[i.value].value)));
      rows := SetAt(rows, i.value, f(rows[i.value].value));
    }

    /** `update_case`. */
    method UpdateCase(id: nat, u: CaseUpdate) returns (c: Option<Row<Case>>)
      requires Valid()
      modifies this
      ensures Valid() && nextId == old(nextId)
      ensures rows == Modify(old(rows), id, (x: Case) => ApplyUpdate(x, u))
      ensures c.Some? <==> old(Get(rows, id)).Some?
      ensures c.Some? ==> c.value == Row(id, ApplyUpdate(old(Get(rows, id)).value.value, u))
    {
      c := Change(id, (x: Case) => ApplyUpdate(x, u));
    }

    /** `publish_case`. */
    method PublishCase(id: nat) returns (c: Option<Row<Case>>)
      requires Valid()
      modifies this
      ensures Valid() && nextId == old(nextId)
      ensures rows == Modify(old(rows), id, Publish)
      ensures c.Some? <==> old(Get(rows, id)).Some?
      ensures c.Some? ==> c.value == Row(id, old(Get(rows, id)).value.value.(status := Published))
    {
      c := Change(id, Publish);
    }

    /** `unpublish_case`. */
    method UnpublishCase(id: nat) returns (c: Option<Row<Case>>)
      requires Valid()
      modifies this
      ensures Valid() && nextId == old(nextId)
      ensures rows == Modify(old(rows), id, Unpublish)
      ensures c.Some? <==> old(Get(rows, id)).Some?
      ensures c.Some? ==> c.value == Row(id, old(Get(rows, id)).value.value.(status := Draft))
    {
      c := Change(id, Unpublish);
    }

    /** `delete_case`: true exactly when the case existed. */
    method DeleteCase(id: nat) returns (deleted: bool)
      requires Valid()
      modifies this
      ensures Valid() && nextId == old(nextId)
      ensures deleted <==> old(Get(rows, id)).Some?
      ensures Get(rows, id) == None
      ensures deleted ==> rows == RemoveAt(old(rows), old(KeyIndex(rows, id)).value)
      ensures !deleted ==> rows == old(rows)
    {
      var i := KeyIndex(rows, id);
      if i.None? {
        return false;
      }
      RemoveAtValid(rows, nextId, i.value);
      rows := RemoveAt(rows, i.value);
      return true;
    }
  }
}
