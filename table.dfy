/** An in-memory database table: rows in primary-key order, each key handed
    out once by an auto-increment counter. The SQL queries of the record
    stores are functions on the row list: `.filter(p).first()` is the first
    matching row, `.offset(skip).limit(limit)` a window of the filtered rows. */
module Table {
  import opened Wrappers

  datatype Row<T> = Row(id: nat, value: T)

  /** Keys are strictly increasing along the table, hence distinct. */
  predicate Ascending<T>(rows: seq<Row<T>>) {
    forall i, j | 0 <= i < j < |rows| :: rows[i].id < rows[j].id
  }

  /** Every key is below the next one the counter hands out. */
  predicate Below<T>(rows: seq<Row<T>>, next: nat) {
    forall i | 0 <= i < |rows| :: rows[i].id < next
  }

  predicate Valid<T>(rows: seq<Row<T>>, next: nat) {
    Ascending(rows) && Below(rows, next)
  }

  /** `.filter(p).first()`, as the position of the row. */
  function FirstWhere<T>(rows: seq<Row<T>>, p: Row<T> -> bool): (r: Option<nat>)
    ensures r.Some? ==> r.value < |rows| && p(rows[r.value])
    ensures forall j | 0 <= j < (if r.Some? then r.value else |rows|) :: !p(rows[j])
  {
    if rows == [] then None
    else if p(rows[0]) then Some(0)
    else match FirstWhere(rows[1..], p)
      case None => None
      case Some(k) => Some(k + 1)
  }

  /** The position of the row with key `id`. */
  function KeyIndex<T>(rows: seq<Row<T>>, id: nat): (r: Option<nat>)
    ensures r.Some? ==> r.value < |rows| && rows[r.value].id == id
    ensures forall j | 0 <= j < (if r.Some? then r.value else |rows|) :: rows[j].id != id
  {
    FirstWhere(rows, (x: Row<T>) => x.id == id)
  }

  /** Tables with the same keys at the same positions find a key at the same position. */
  lemma SameKeysSameIndex<T>(rows: seq<Row<T>>, r: seq<Row<T>>, id: nat)
    requires |r| == |rows| && forall j | 0 <= j < |rows| :: r[j].id == rows[j].id
    ensures KeyIndex(r, id) == KeyIndex(rows, id)
  {
    var a, b := KeyIndex(rows, id), KeyIndex(r, id);
    if a.Some? && b.Some? {
      assert !(a.value < b.value) && !(b.value < a.value);
    }
  }

  /** `.filter(Model.id == id).first()`. */
  function Get<T>(rows: seq<Row<T>>, id: nat): (r: Option<Row<T>>)
    ensures r.Some? <==> exists j | 0 <= j < |rows| :: rows[j].id == id
    ensures r.Some? ==> r.value in rows && r.value.id == id
  {
    match KeyIndex(rows, id)
    case None => None
    case Some(i) => Some(rows[i])
  }

  /** In an ascending table a key sits at exactly one position. */
  lemma KeyIndexAt<T>(rows: seq<Row<T>>, k: nat)
    requires Ascending(rows) && k < |rows|
    ensures KeyIndex(rows, rows[k].id) == Some(k)
  {
    assert KeyIndex(rows, rows[k].id).Some?;
  }

  /** In a table with distinct keys a row is what its key finds. */
  lemma GetMember<T>(rows: seq<Row<T>>, x: Row<T>)
    requires Ascending(rows) && x in rows
    ensures Get(rows, x.id) == Some(x)
  {
    var k :| 0 <= k < |rows| && rows[k] == x;
    KeyIndexAt(rows, k);
  }

  /** `.filter(p).all()`: the matching rows, in table order. */
  function Where<T>(rows: seq<Row<T>>, p: Row<T> -> bool): (r: seq<Row<T>>)
    ensures |r| <= |rows|
    ensures forall x | x in r :: x in rows && p(x)
  {
    if rows == [] then []
    else (if p(rows[0]) then [rows[0]] else []) + Where(rows[1..], p)
  }

  /** Filtering keeps every matching row: the filter is exact. */
  lemma {:induction false} WhereKeeps<T>(rows: seq<Row<T>>, p: Row<T> -> bool, x: Row<T>)
    requires x in rows && p(x)
    ensures x in Where(rows, p)
  {
    if rows[0] != x {
      WhereKeeps(rows[1..], p, x);
    }
  }

  /** Filtering a table split in two filters each part, so order is kept. */
  lemma {:induction false} WhereAppend<T>(a: seq<Row<T>>, b: seq<Row<T>>, p: Row<T> -> bool)
    ensures Where(a + b, p) == Where(a, p) + Where(b, p)
  {
    if a == [] {
      assert a + b == b;
    } else {
      assert (a + b)[1..] == a[1..] + b;
      WhereAppend(a[1..], b, p);
    }
  }

  /** A filtered table is still ascending. */
  lemma {:induction false} WhereAscending<T>(rows: seq<Row<T>>, p: Row<T> -> bool)
    requires Ascending(rows)
    ensures Ascending(Where(rows, p))
  {
    if rows != [] {
      var h, tail := rows[0], rows[1..];
      assert Ascending(tail) by {
        forall i, j | 0 <= i < j < |tail| ensures tail[i].id < tail[j].id {
          assert tail[i] == rows[i + 1] && tail[j] == rows[j + 1];
        }
      }
      WhereAscending(tail, p);
      var rest := Where(tail, p);
      forall x | x in rest ensures h.id < x.id {
        var j :| 0 <= j < |tail| && tail[j] == x;
        assert rows[j + 1] == x;
      }
      if p(h) {
        assert Where(rows, p) == [h] + rest;
        ConsAscending(h, rest);
      } else {
        assert Where(rows, p) == rest;
      }
    }
  }

  lemma ConsAscending<T>(h: Row<T>, rest: seq<Row<T>>)
    requires Ascending(rest) && forall x | x in rest :: h.id < x.id
    ensures Ascending([h] + rest)
  {
    var r := [h] + rest;
    forall i, j | 0 <= i < j < |r| ensures r[i].id < r[j].id {
      assert r[j] == rest[j - 1];
      if i > 0 { assert r[i] == rest[i - 1]; }
    }
  }

  function Min(a: nat, b: nat): nat {
    if a <= b then a else b
  }

  /** `.offset(skip).limit(limit)`. */
  function Page<X>(xs: seq<X>, skip: nat, limit: nat): (r: seq<X>)
    ensures |r| == Min(limit, |xs| - Min(skip, |xs|))
    ensures forall k | 0 <= k < |r| :: skip + k < |xs| && r[k] == xs[skip + k]
  {
    xs[Min(skip, |xs|)..Min(skip + limit, |xs|)]
  }

  /** `.filter(p).offset(skip).limit(limit).all()`: a window of the matching rows. */
  function PageWhere<T>(rows: seq<Row<T>>, p: Row<T> -> bool, skip: nat, limit: nat): (r: seq<Row<T>>)
    ensures |r| <= limit
    ensures forall k | 0 <= k < |r| :: r[k] in rows && p(r[k])
  {
    var matching := Where(rows, p);
    var r := Page(matching, skip, limit);
    assert forall k | 0 <= k < |r| :: r[k] in matching;
    r
  }

  /** A first page at least as long as the table is every matching row. */
  lemma PageWhereComplete<T>(rows: seq<Row<T>>, p: Row<T> -> bool, limit: nat, x: Row<T>)
    requires limit >= |rows|
    ensures x in PageWhere(rows, p, 0, limit) <==> x in rows && p(x)
  {
    var matching := Where(rows, p);
    assert Page(matching, 0, limit) == matching;
    if x in rows && p(x) {
      WhereKeeps(rows, p, x);
    }
  }

  /** A window of an ascending table is ascending. */
  lemma PageAscending<T>(rows: seq<Row<T>>, skip: nat, limit: nat)
    requires Ascending(rows)
    ensures Ascending(Page(rows, skip, limit))
  {
    var r := Page(rows, skip, limit);
    forall i, j | 0 <= i < j < |r| ensures r[i].id < r[j].id {
      assert r[i] == rows[skip + i] && r[j] == rows[skip + j];
    }
  }

  /** The table with the value of row `i` replaced, its key kept. */
  function SetAt<T>(rows: seq<Row<T>>, i: nat, v: T): (r: seq<Row<T>>)
    requires i < |rows|
    ensures |r| == |rows| && r[i] == Row(rows[i].id, v)
    ensures forall j | 0 <= j < |rows| && j != i :: r[j] == rows[j]
  {
    rows[i := Row(rows[i].id, v)]
  }

  /** The table without row `i`. */
  function RemoveAt<T>(rows: seq<Row<T>>, i: nat): (r: seq<Row<T>>)
    requires i < |rows|
    ensures |r| == |rows| - 1
    ensures forall j | 0 <= j < i :: r[j] == rows[j]
    ensures forall j | i <= j < |r| :: r[j] == rows[j + 1]
  {
    rows[..i] + rows[i + 1..]
  }

  /** `db_row.field = value` on the row with key `id`, when there is one. */
  function Modify<T>(rows: seq<Row<T>>, id: nat, f: T -> T): (r: seq<Row<T>>)
    ensures |r| == |rows| && forall j | 0 <= j < |rows| :: r[j].id == rows[j].id
  {
    match KeyIndex(rows, id)
    case None => rows
    case Some(i) => SetAt(rows, i, f(rows[i].value))
  }

  /** Modifying a row changes only that row, and only its value. */
  lemma ModifyAt<T>(rows: seq<Row<T>>, next: nat, id: nat, f: T -> T)
    requires Valid(rows, next)
    ensures Valid(Modify(rows, id, f), next)
    ensures forall k | 0 <= k < |rows| ::
      Modify(rows, id, f)[k] == if rows[k].id == id then Row(id, f(rows[k].value)) else rows[k]
  {
    var r := Modify(rows, id, f);
    forall k | 0 <= k < |rows|
      ensures r[k] == if rows[k].id == id then Row(id, f(rows[k].value)) else rows[k]
    {
      if rows[k].id == id { KeyIndexAt(rows, k); }
    }
  }

  /** An insert gives the new row the next key and advances the counter. */
  lemma InsertValid<T>(rows: seq<Row<T>>, next: nat, v: T)
    requires Valid(rows, next)
    ensures Valid(rows + [Row(next, v)], next + 1)
  {
  }

  lemma SetAtValid<T>(rows: seq<Row<T>>, next: nat, i: nat, v: T)
    requires Valid(rows, next) && i < |rows|
    ensures Valid(SetAt(rows, i, v), next)
  {
  }

  /** Position `a` after deleting row `i` holds the row that followed it, or preceded it. */
  function Skipped(i: nat, a: nat): nat {
    if a < i then a else a + 1
  }

  lemma RemoveAtIndex<T>(rows: seq<Row<T>>, i: nat, a: nat)
    requires i < |rows| && a < |rows| - 1
    ensures Skipped(i, a) < |rows| && Skipped(i, a) != i && RemoveAt(rows, i)[a] == rows[Skipped(i, a)]
  {
  }

  /** Deleting a row keeps the table valid, and its key is gone. */
  lemma RemoveAtValid<T>(rows: seq<Row<T>>, next: nat, i: nat)
    requires Valid(rows, next) && i < |rows|
    ensures Valid(RemoveAt(rows, i), next)
    ensures Get(RemoveAt(rows, i), rows[i].id) == None
  {
    var r := RemoveAt(rows, i);
    forall a, b | 0 <= a < b < |r| ensures r[a].id < r[b].id {
      RemoveAtIndex(rows, i, a);
      RemoveAtIndex(rows, i, b);
    }
    forall a | 0 <= a < |r| ensures r[a].id < next && r[a].id != rows[i].id {
      RemoveAtIndex(rows, i, a);
    }
  }

  /** Deleting a row keeps exactly the rows with other keys. */
  lemma RemoveAtRows<T>(rows: seq<Row<T>>, next: nat, i: nat)
    requires Valid(rows, next) && i < |rows|
    ensures forall x | x in rows && x.id != rows[i].id :: x in RemoveAt(rows, i)
    ensures forall x | x in RemoveAt(rows, i) :: x in rows && x.id != rows[i].id
  {
    var r := RemoveAt(rows, i);
    forall x | x in rows && x.id != rows[i].id ensures x in r {
      var j :| 0 <= j < |rows| && rows[j] == x;
      if j < i { assert r[j] == x; } else { assert j > i && r[j - 1] == x; }
    }
    forall x | x in r ensures x in rows && x.id != rows[i].id {
      var a :| 0 <= a < |r| && r[a] == x;
      RemoveAtIndex(rows, i, a);
    }
  }

  /** A key that is not in the table is not found after an update elsewhere. */
  lemma SetAtKeys<T>(rows: seq<Row<T>>, i: nat, v: T, id: nat)
    requires i < |rows|
    ensures Get(SetAt(rows, i, v), id).Some? <==> Get(rows, id).Some?
  {
    var r := SetAt(rows, i, v);
    if Get(rows, id).Some? {
      var j :| 0 <= j < |rows| && rows[j].id == id;
      assert r[j].id == id;
    }
    if Get(r, id).Some? {
      var j :| 0 <= j < |r| && r[j].id == id;
      assert rows[j].id == id;
    }
  }

  // ---------------------------------------------------------------------------
  // Upsert by a key of the record: the `create_*` functions that first look
  // for a row with the same key and overwrite it in place.

  /** At most one row per key. */
  predicate UniqueBy<K(==), T>(rows: seq<Row<T>>, key: T -> K) {
    forall i, j | 0 <= i < j < |rows| :: key(rows[i].value) != key(rows[j].value)
  }

  function SameKey<K(==), T>(key: T -> K, k: K): Row<T> -> bool {
    (x: Row<T>) => key(x.value) == k
  }

  /** The row with key `key(v)` gets the value `v`: the first row with that
      key is overwritten, or a new row is inserted under the next key. */
  function Upsert<K(==), T>(rows: seq<Row<T>>, next: nat, key: T -> K, v: T): seq<Row<T>> {
    match FirstWhere(rows, SameKey(key, key(v)))
    case Some(i) => SetAt(rows, i, v)
    case None => rows + [Row(next, v)]
  }

  /** An upsert keeps the table valid and keeps at most one row per key;
      it adds a row exactly when the key was absent. */
  lemma UpsertKeeps<K, T>(rows: seq<Row<T>>, next: nat, key: T -> K, v: T)
    requires Valid(rows, next) && UniqueBy(rows, key)
    ensures var r := Upsert(rows, next, key, v);
      var found := FirstWhere(rows, SameKey(key, key(v)));
      UniqueBy(r, key)
      && (found.Some? ==> Valid(r, next) && |r| == |rows| && r[found.value].id == rows[found.value].id)
      && (found.None? ==> Valid(r, next + 1) && r == rows + [Row(next, v)])
  {
    var found := FirstWhere(rows, SameKey(key, key(v)));
    var r := Upsert(rows, next, key, v);
    if found.Some? {
      SetAtValid(rows, next, found.value, v);
      forall i, j | 0 <= i < j < |r| ensures key(r[i].value) != key(r[j].value) {
        assert SameKey(key, key(v))(rows[found.value]);
      }
    } else {
      InsertValid(rows, next, v);
      forall i, j | 0 <= i < j < |r| ensures key(r[i].value) != key(r[j].value) {
        if j == |rows| {
          assert r[j].value == v && r[i] == rows[i];
          assert !SameKey(key, key(v))(rows[i]);
        }
      }
    }
  }

  /** After an upsert, looking the key up finds exactly the value given. */
  lemma {:induction false} UpsertFinds<K, T>(rows: seq<Row<T>>, next: nat, key: T -> K, v: T)
    ensures var r := Upsert(rows, next, key, v);
      var found := FirstWhere(r, SameKey(key, key(v)));
      found.Some? && r[found.value].value == v
  {
    var r := Upsert(rows, next, key, v);
    var before := FirstWhere(rows, SameKey(key, key(v)));
    if before.Some? {
      var i := before.value;
      assert SameKey(key, key(v))(r[i]);
    } else {
      assert SameKey(key, key(v))(r[|rows|]);
    }
  }
}
