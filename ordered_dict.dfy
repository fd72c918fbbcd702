/** A Python `dict[str, str]`: insertion-ordered, one entry per key. The NER
    code iterates over its replacement dictionaries, so the order is kept. */
module OrderedDict {
  import opened Wrappers

  datatype Entry = Entry(key: string, value: string)

  type Dict = seq<Entry>

  /** No key occurs twice (every dictionary built by the model satisfies this). */
  predicate Valid(d: Dict) {
    forall i, j | 0 <= i < j < |d| :: d[i].key != d[j].key
  }

  function KeySet(d: Dict): set<string> {
    if d == [] then {} else {d[0].key} + KeySet(d[1..])
  }

  /** `d.get(k)`. */
  function Get(d: Dict, k: string): (r: Option<string>)
    ensures r.Some? <==> k in KeySet(d)
  {
    if d == [] then None else if d[0].key == k then Some(d[0].value) else Get(d[1..], k)
  }

  /** `d[k] = v`: a present key keeps its position, a new key goes last. */
  function Put(d: Dict, k: string, v: string): (r: Dict)
    ensures Get(r, k) == Some(v)
    ensures forall k' | k' != k :: Get(r, k') == Get(d, k')
    ensures KeySet(r) == KeySet(d) + {k}
    ensures k !in KeySet(d) ==> r == d + [Entry(k, v)]
    ensures k in KeySet(d) ==> |r| == |d|
  {
    if d == [] then [Entry(k, v)]
    else if d[0].key == k then [Entry(k, v)] + d[1..]
    else [d[0]] + Put(d[1..], k, v)
  }

  lemma {:induction false} PutValid(d: Dict, k: string, v: string)
    requires Valid(d)
    ensures Valid(Put(d, k, v))
  {
    if d != [] && d[0].key != k {
      var tail := Put(d[1..], k, v);
      PutValid(d[1..], k, v);
      KeysNotAfter(d);
      forall j | 0 <= j < |tail| ensures d[0].key != tail[j].key {
        InKeySet(tail, j);
      }
      assert Put(d, k, v) == [d[0]] + tail;
    }
  }

  lemma InKeySet(d: Dict, i: nat)
    requires i < |d|
    ensures d[i].key in KeySet(d)
  {
    if i > 0 { InKeySet(d[1..], i - 1); }
  }

  lemma {:induction false} NotInKeySet(d: Dict, k: string)
    requires forall i | 0 <= i < |d| :: d[i].key != k
    ensures k !in KeySet(d)
  {
    if d != [] { NotInKeySet(d[1..], k); }
  }

  lemma KeysNotAfter(d: Dict)
    requires Valid(d) && d != []
    ensures d[0].key !in KeySet(d[1..])
  {
    NotInKeySet(d[1..], d[0].key);
  }

  /** `r` is `d` with entries added at the end and none changed. */
  predicate Extends(d: Dict, r: Dict) {
    |d| <= |r| && r[..|d|] == d
  }

  lemma ExtendsTrans(a: Dict, b: Dict, c: Dict)
    requires Extends(a, b) && Extends(b, c)
    ensures Extends(a, c)
  {
    assert c[..|b|][..|a|] == c[..|a|];
  }

  lemma {:induction false} KeySetAppend(a: Dict, b: Dict)
    ensures KeySet(a + b) == KeySet(a) + KeySet(b)
    decreases |a|
  {
    if a == [] {
      assert a + b == b;
    } else {
      assert (a + b)[1..] == a[1..] + b;
      KeySetAppend(a[1..], b);
    }
  }

  /** A lookup finds the first entry with the key. */
  lemma {:induction false} GetAppend(a: Dict, b: Dict, k: string)
    ensures Get(a + b, k) == if k in KeySet(a) then Get(a, k) else Get(b, k)
    decreases |a|
  {
    if a == [] {
      assert a + b == b;
    } else {
      assert (a + b)[1..] == a[1..] + b;
      GetAppend(a[1..], b, k);
    }
  }

  /** Entries already present keep their values when others are added after them. */
  lemma ExtendsKeepsGet(d: Dict, r: Dict, k: string)
    requires Extends(d, r) && k in KeySet(d)
    ensures Get(r, k) == Get(d, k)
  {
    assert r == d + r[|d|..];
    GetAppend(d, r[|d|..], k);
  }

  /** A key that only the added entries hold is found with their common value. */
  lemma {:induction false} GetAdded(d: Dict, r: Dict, k: string, v: string)
    requires Extends(d, r) && k in KeySet(r) && k !in KeySet(d)
    requires forall i | |d| <= i < |r| :: r[i].value == v
    ensures Get(r, k) == Some(v)
  {
    var ext := r[|d|..];
    assert r == d + ext;
    GetAppend(d, ext, k);
    KeySetAppend(d, ext);
    GetUniform(ext, k, v);
  }

  lemma {:induction false} GetUniform(d: Dict, k: string, v: string)
    requires k in KeySet(d)
    requires forall i | 0 <= i < |d| :: d[i].value == v
    ensures Get(d, k) == Some(v)
    decreases |d|
  {
    if d[0].key != k { GetUniform(d[1..], k, v); }
  }

  lemma AppendValid(d: Dict, k: string, v: string)
    requires Valid(d) && k !in KeySet(d)
    ensures Valid(d + [Entry(k, v)]) && KeySet(d + [Entry(k, v)]) == KeySet(d) + {k}
  {
    forall i | 0 <= i < |d| ensures d[i].key != k { InKeySet(d, i); }
    KeySetAppend(d, [Entry(k, v)]);
    assert KeySet([Entry(k, v)]) == {k} + KeySet([]);
  }

  /** A new key appended is found with its value. */
  lemma PushGet(d: Dict, k: string, v: string)
    requires Valid(d) && k !in KeySet(d)
    ensures var d' := d + [Entry(k, v)]; Valid(d') && k in KeySet(d') && Get(d', k) == Some(v)
  {
    AppendValid(d, k, v);
    GetAppend(d, [Entry(k, v)], k);
  }

  /** A dictionary holds as many entries as it has keys. */
  lemma {:induction false} SizeIsKeyCount(d: Dict)
    requires Valid(d)
    ensures |d| == |KeySet(d)|
  {
    if d != [] {
      KeysNotAfter(d);
      SizeIsKeyCount(d[1..]);
    }
  }

  /** `{**a, **b}`: the entries of `b` override those of `a`; new keys of `b` follow in order. */
  function Merge(a: Dict, b: Dict): (r: Dict)
    ensures KeySet(r) == KeySet(a) + KeySet(b)
    decreases |b|
  {
    if b == [] then a else Merge(Put(a, b[0].key, b[0].value), b[1..])
  }

  lemma {:induction false} MergeValid(a: Dict, b: Dict)
    requires Valid(a)
    ensures Valid(Merge(a, b))
    decreases |b|
  {
    if b != [] {
      PutValid(a, b[0].key, b[0].value);
      MergeValid(Put(a, b[0].key, b[0].value), b[1..]);
    }
  }

  /** Looking up a merged dictionary finds `b`'s value first, then `a`'s. */
  lemma {:induction false} MergeGet(a: Dict, b: Dict, k: string)
    requires Valid(b)
    ensures Get(Merge(a, b), k) == if k in KeySet(b) then Get(b, k) else Get(a, k)
    decreases |b|
  {
    if b != [] {
      assert Valid(b[1..]);
      MergeGet(Put(a, b[0].key, b[0].value), b[1..], k);
      if k == b[0].key { KeysNotAfter(b); }
    }
  }

  /** The merged dictionary has one entry per distinct key, hence at most `|a| + |b|` entries. */
  lemma MergeSize(a: Dict, b: Dict)
    requires Valid(a) && Valid(b)
    ensures |Merge(a, b)| == |KeySet(a) + KeySet(b)| <= |a| + |b|
  {
    SizeIsKeyCount(a);
    SizeIsKeyCount(b);
    MergeValid(a, b);
    SizeIsKeyCount(Merge(a, b));
  }
}
