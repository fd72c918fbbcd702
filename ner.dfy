/** Pre-processing of a document before it is sent to a language model:
    regular-expression replacement of phones, e-mails, identifiers and addresses,
    then named-entity replacement of persons, organisations and places. Python's
    regular-expression engine and the spaCy model are oracles, passed in as
    functions. */
module Ner {
  import opened Wrappers
  import opened Text
  import opened OrderedDict
  import opened Placeholders

  // ---------------------------------------------------------------------------
  // Patterns and the regex oracle

  /** The categories that are replaced by one fixed tag, in processing order. */
  datatype FlatCategory = Phone | Email | Inn | Bin | Snils | Passport | LicensePlate | BankAccount | Card

  function FlatTag(c: FlatCategory): string {
    match c
    case Phone => "[ТЕЛЕФОН]"
    case Email => "[EMAIL]"
    case Inn => "[ИНН]"
    case Bin => "[БИН]"
    case Snils => "[СНИЛС]"
    case Passport => "[ПАСПОРТ]"
    case LicensePlate => "[ГОСНОМЕР]"
    case BankAccount => "[СЧЕТ]"
    case Card => "[КАРТА]"
  }

  /** The `index`-th expression listed for a flat category. */
  datatype FlatPattern = FlatPattern(category: FlatCategory, index: nat)

  /** The `index`-th address expression; these are matched case-insensitively. */
  datatype AddressPattern = AddressPattern(index: nat)

  /** Every flat pattern in the order the regex pass tries them: three phone
      formats, one e-mail, three ИНН, two БИН/БИК, two СНИЛС, three passport,
      one licence plate, one bank account, one card. */
  const FlatPatterns: seq<FlatPattern> := [
    FlatPattern(Phone, 0), FlatPattern(Phone, 1), FlatPattern(Phone, 2),
    FlatPattern(Email, 0),
    FlatPattern(Inn, 0), FlatPattern(Inn, 1), FlatPattern(Inn, 2),
    FlatPattern(Bin, 0), FlatPattern(Bin, 1),
    FlatPattern(Snils, 0), FlatPattern(Snils, 1),
    FlatPattern(Passport, 0), FlatPattern(Passport, 1), FlatPattern(Passport, 2),
    FlatPattern(LicensePlate, 0),
    FlatPattern(BankAccount, 0),
    FlatPattern(Card, 0)
  ]

  const AddressPatterns: seq<AddressPattern> := [AddressPattern(0), AddressPattern(1), AddressPattern(2)]

  /** What the model needs from Python's `re`:
      `findFlat(p, s)` / `findAddress(p, s)` are the `group()` of every match of
      `re.finditer` (the address ones with `re.IGNORECASE`), in order;
      `subFlat(p, repl, s)` is `re.sub(p, repl, s)`;
      `subWord(w, repl, s)` is `re.sub(r'\b' + re.escape(w) + r'\b', repl, s)`. */
  datatype RegexEngine = RegexEngine(
    findFlat: (FlatPattern, string) -> seq<string>,
    subFlat: (FlatPattern, string, string) -> string,
    findAddress: (AddressPattern, string) -> seq<string>,
    subWord: (string, string, string) -> string)

  predicate IsFlatTag(v: string) {
    exists c: FlatCategory :: v == FlatTag(c)
  }

  /** No fixed tag looks like a numbered placeholder. */
  lemma FlatTagUntagged(c: FlatCategory, k: Kind)
    ensures !IsTagged(FlatTag(c), k)
  {
    var v, h := FlatTag(c), Head(k);
    if |h| <= |v| {
      assert v[..|h|][1] == v[1] && v[..|h|][2] == v[2];
      assert v[1] != h[1] || v[2] != h[2];
    }
  }

  // ---------------------------------------------------------------------------
  // Counting the placeholders of one kind

  /** The values of `d` that are placeholders of kind `k`, in order. */
  function TaggedValues(d: Dict, k: Kind): seq<string> {
    if d == [] then []
    else (if IsTagged(d[0].value, k) then [d[0].value] else []) + TaggedValues(d[1..], k)
  }

  /** `[TAG-lo+1]`, …, `[TAG-hi]`. */
  function Numbered(k: Kind, lo: nat, hi: nat): (r: seq<string>)
    ensures |r| == if hi <= lo then 0 else hi - lo
    decreases hi - lo
  {
    if hi <= lo then [] else [Placeholder(k, lo + 1)] + Numbered(k, lo + 1, hi)
  }

  lemma {:induction false} TaggedValuesAppend(a: Dict, b: Dict, k: Kind)
    ensures TaggedValues(a + b, k) == TaggedValues(a, k) + TaggedValues(b, k)
    decreases |a|
  {
    if a == [] {
      assert a + b == b;
    } else {
      assert (a + b)[1..] == a[1..] + b;
      TaggedValuesAppend(a[1..], b, k);
    }
  }

  /** Appending one entry adds its value to the kind it is tagged with. */
  lemma TaggedValuesPush(d: Dict, key: string, v: string, k: Kind)
    ensures TaggedValues(d + [Entry(key, v)], k)
         == TaggedValues(d, k) + (if IsTagged(v, k) then [v] else [])
  {
    TaggedValuesAppend(d, [Entry(key, v)], k);
    assert [Entry(key, v)][1..] == [];
  }

  // ---------------------------------------------------------------------------
  // The regex pass, as functions

  /** The state the regex pass threads through its loops: the current text,
      the replacements so far and the address counter. */
  datatype Stage = Stage(text: string, reps: Dict, count: nat)

  /** Lines 122-124: each literal found is registered under `tag` unless an
      earlier pattern (of any category) registered it already. */
  function RegisterFirst(d: Dict, found: seq<string>, tag: string): Dict
    decreases |found|
  {
    if found == [] then d
    else RegisterFirst(if found[0] in KeySet(d) then d else d + [Entry(found[0], tag)], found[1..], tag)
  }

  /** One flat pattern: register the matches of the current text, then
      substitute the tag for every match. */
  function FlatStep(e: RegexEngine, s: Stage, p: FlatPattern): Stage {
    var tag := FlatTag(p.category);
    Stage(e.subFlat(p, tag, s.text), RegisterFirst(s.reps, e.findFlat(p, s.text), tag), s.count)
  }

  /** The flat categories, pattern by pattern. */
  function FlatPass(e: RegexEngine, s: Stage, ps: seq<FlatPattern>): (r: Stage)
    ensures r.count == s.count
    decreases |ps|
  {
    if ps == [] then s else FlatPass(e, FlatStep(e, s, ps[0]), ps[1..])
  }

  /** The text each flat pattern is matched against. */
  function FlatTexts(e: RegexEngine, text: string, ps: seq<FlatPattern>): (ts: seq<string>)
    ensures |ts| == |ps| + 1 && ts[0] == text
    decreases |ps|
  {
    if ps == [] then [text]
    else [text] + FlatTexts(e, e.subFlat(ps[0], FlatTag(ps[0].category), text), ps[1..])
  }

  /** Lines 194-198: a literal not yet registered mints the next address
      placeholder, which replaces every occurrence of the literal at once. */
  function AddressFold(s: Stage, found: seq<string>): (r: Stage)
    ensures s.count <= r.count
    decreases |found|
  {
    if found == [] then s
    else if found[0] in KeySet(s.reps) then AddressFold(s, found[1..])
    else
      var ph := Placeholder(Address, s.count + 1);
      AddressFold(Stage(ReplaceAll(s.text, found[0], ph), s.reps + [Entry(found[0], ph)], s.count + 1), found[1..])
  }

  /** Each address pattern finds its matches in the text as it stands when that pattern starts. */
  function AddressPass(e: RegexEngine, s: Stage, ps: seq<AddressPattern>): (r: Stage)
    ensures s.count <= r.count
    decreases |ps|
  {
    if ps == [] then s else AddressPass(e, AddressFold(s, e.findAddress(ps[0], s.text)), ps[1..])
  }

  /** `replace_with_regex` with the address counter standing at `count`. */
  function RegexPass(e: RegexEngine, text: string, count: nat): Stage {
    AddressPass(e, FlatPass(e, Stage(text, [], count), FlatPatterns), AddressPatterns)
  }

  // ---------------------------------------------------------------------------
  // Properties of the regex pass

  /** Registering keeps the dictionary valid, only appends, and every
      appended entry carries the tag. */
  lemma {:induction false} RegisterFirstFacts(d: Dict, found: seq<string>, tag: string)
    requires Valid(d)
    ensures var r := RegisterFirst(d, found, tag);
      Valid(r) && Extends(d, r) && (forall i | |d| <= i < |r| :: r[i].value == tag)
    decreases |found|
  {
    if found != [] {
      var d1 := if found[0] in KeySet(d) then d else d + [Entry(found[0], tag)];
      if found[0] !in KeySet(d) { AppendValid(d, found[0], tag); }
      RegisterFirstFacts(d1, found[1..], tag);
      ExtendsTrans(d, d1, RegisterFirst(d, found, tag));
    } else {
      assert d[..|d|] == d;
    }
  }

  /** Registering adds exactly the literals found to the keys. */
  lemma {:induction false} RegisterFirstKeys(d: Dict, found: seq<string>, tag: string)
    ensures KeySet(RegisterFirst(d, found, tag)) == KeySet(d) + (set m | m in found)
    decreases |found|
  {
    if found != [] {
      var d1 := if found[0] in KeySet(d) then d else d + [Entry(found[0], tag)];
      if found[0] !in KeySet(d) { KeySetAppend(d, [Entry(found[0], tag)]); assert KeySet([Entry(found[0], tag)]) == {found[0]} + KeySet([]); }
      RegisterFirstKeys(d1, found[1..], tag);
      assert (set m | m in found) == {found[0]} + (set m | m in found[1..]);
    }
  }

  /** The flat categories only add entries, each of them a fixed tag, and
      leave the text of the last stage. */
  lemma {:induction false} FlatPassFacts(e: RegexEngine, s: Stage, ps: seq<FlatPattern>)
    requires Valid(s.reps)
    ensures var r := FlatPass(e, s, ps);
      Valid(r.reps) && Extends(s.reps, r.reps)
      && r.text == FlatTexts(e, s.text, ps)[|ps|]
      && (forall i | |s.reps| <= i < |r.reps| :: IsFlatTag(r.reps[i].value))
    decreases |ps|
  {
    if ps != [] {
      var s1 := FlatStep(e, s, ps[0]);
      RegisterFirstFacts(s.reps, e.findFlat(ps[0], s.text), FlatTag(ps[0].category));
      FlatPassFacts(e, s1, ps[1..]);
      var r := FlatPass(e, s, ps).reps;
      assert r[..|s1.reps|][..|s.reps|] == r[..|s.reps|];
      forall i | |s.reps| <= i < |r| ensures IsFlatTag(r[i].value) {
        if i < |s1.reps| { assert r[i] == s1.reps[i]; assert r[i].value == FlatTag(ps[0].category); }
      }
    }
  }

  /** Every literal a flat pattern matches ends up registered, and it carries
      the tag of the first pattern that matched it. */
  lemma {:induction false} FlatFirstMatchWins(e: RegexEngine, s: Stage, ps: seq<FlatPattern>, i: nat, m: string)
    requires Valid(s.reps)
    requires i < |ps| && m in e.findFlat(ps[i], FlatTexts(e, s.text, ps)[i])
    ensures m in KeySet(FlatPass(e, s, ps).reps)
    ensures m !in KeySet(s.reps) && (forall j | 0 <= j < i :: m !in e.findFlat(ps[j], FlatTexts(e, s.text, ps)[j]))
            ==> Get(FlatPass(e, s, ps).reps, m) == Some(FlatTag(ps[i].category))
    decreases i
  {
    var tag := FlatTag(ps[0].category);
    var s1 := FlatStep(e, s, ps[0]);
    RegisterFirstFacts(s.reps, e.findFlat(ps[0], s.text), tag);
    RegisterFirstKeys(s.reps, e.findFlat(ps[0], s.text), tag);
    FlatPassFacts(e, s1, ps[1..]);
    var r := FlatPass(e, s, ps).reps;
    assert FlatTexts(e, s.text, ps)[1..] == FlatTexts(e, s1.text, ps[1..]);
    if i == 0 {
      KeySetAppend(s1.reps, r[|s1.reps|..]);
      assert r == s1.reps + r[|s1.reps|..];
      if m !in KeySet(s.reps) {
        GetAdded(s.reps, s1.reps, m, tag);
        ExtendsKeepsGet(s1.reps, r, m);
      }
    } else {
      FlatFirstMatchWins(e, s1, ps[1..], i - 1, m);
      if m !in KeySet(s.reps) && (forall j | 0 <= j < i :: m !in e.findFlat(ps[j], FlatTexts(e, s.text, ps)[j])) {
        assert m !in e.findFlat(ps[0], s.text);
        forall j | 0 <= j < i - 1 ensures m !in e.findFlat(ps[1..][j], FlatTexts(e, s1.text, ps[1..])[j]) {
          assert ps[1..][j] == ps[j + 1];
        }
      }
    }
  }

  lemma {:induction false} NoneTagged(ext: Dict, k: Kind)
    requires forall i | 0 <= i < |ext| :: IsFlatTag(ext[i].value)
    ensures TaggedValues(ext, k) == []
    decreases |ext|
  {
    if ext != [] {
      var c: FlatCategory :| ext[0].value == FlatTag(c);
      FlatTagUntagged(c, k);
      NoneTagged(ext[1..], k);
    }
  }

  /** The flat categories mint no numbered placeholder. */
  lemma FlatPassUntagged(e: RegexEngine, s: Stage, ps: seq<FlatPattern>, k: Kind)
    requires Valid(s.reps)
    ensures TaggedValues(FlatPass(e, s, ps).reps, k) == TaggedValues(s.reps, k)
  {
    FlatPassFacts(e, s, ps);
    var r := FlatPass(e, s, ps).reps;
    var ext := r[|s.reps|..];
    assert r == s.reps + ext;
    TaggedValuesAppend(s.reps, ext, k);
    NoneTagged(ext, k);
  }

  /** One address pattern adds one entry per new literal, and the counter by as much. */
  lemma {:induction false} AddressFoldShape(s: Stage, found: seq<string>)
    requires Valid(s.reps)
    ensures var r := AddressFold(s, found);
      Valid(r.reps) && Extends(s.reps, r.reps) && |r.reps| - |s.reps| == r.count - s.count
    decreases |found|
  {
    if found != [] {
      if found[0] in KeySet(s.reps) {
        AddressFoldShape(s, found[1..]);
      } else {
        var ph := Placeholder(Address, s.count + 1);
        var s1 := Stage(ReplaceAll(s.text, found[0], ph), s.reps + [Entry(found[0], ph)], s.count + 1);
        AppendValid(s.reps, found[0], ph);
        AddressFoldShape(s1, found[1..]);
        var r := AddressFold(s, found).reps;
        assert r[..|s1.reps|][..|s.reps|] == r[..|s.reps|];
      }
    }
  }

  /** The new literals of one address pattern are numbered on from the counter. */
  lemma {:induction false} AddressFoldTagged(s: Stage, found: seq<string>, k: Kind)
    ensures var r := AddressFold(s, found);
      TaggedValues(r.reps, k) == TaggedValues(s.reps, k) + (if k == Address then Numbered(Address, s.count, r.count) else [])
    decreases |found|
  {
    if found != [] {
      if found[0] in KeySet(s.reps) {
        AddressFoldTagged(s, found[1..], k);
      } else {
        var ph := Placeholder(Address, s.count + 1);
        var s1 := Stage(ReplaceAll(s.text, found[0], ph), s.reps + [Entry(found[0], ph)], s.count + 1);
        var r := AddressFold(s1, found[1..]);
        assert AddressFold(s, found) == r;
        TaggedValuesPush(s.reps, found[0], ph, k);
        PlaceholderTagged(Address, s.count + 1, k);
        AddressFoldTagged(s1, found[1..], k);
        if k == Address {
          assert Numbered(Address, s.count, s.count + 1) == [ph];
          NumberedChain(TaggedValues(s.reps, k), TaggedValues(s1.reps, k), TaggedValues(r.reps, k),
                        Address, s.count, s.count + 1, r.count);
        }
      }
    }
  }

  lemma {:induction false} NumberedConcat(k: Kind, a: nat, b: nat, c: nat)
    requires a <= b <= c
    ensures Numbered(k, a, b) + Numbered(k, b, c) == Numbered(k, a, c)
    decreases b - a
  {
    if a < b { NumberedConcat(k, a + 1, b, c); }
  }

  /** Two runs of consecutive numbers make one. */
  lemma NumberedChain(x: seq<string>, y: seq<string>, z: seq<string>, k: Kind, a: nat, b: nat, c: nat)
    requires a <= b <= c && y == x + Numbered(k, a, b) && z == y + Numbered(k, b, c)
    ensures z == x + Numbered(k, a, c)
  {
    NumberedConcat(k, a, b, c);
    assert z == x + (Numbered(k, a, b) + Numbered(k, b, c));
  }

  lemma {:induction false} AddressPassShape(e: RegexEngine, s: Stage, ps: seq<AddressPattern>)
    requires Valid(s.reps)
    ensures var r := AddressPass(e, s, ps);
      Valid(r.reps) && Extends(s.reps, r.reps) && |r.reps| - |s.reps| == r.count - s.count
    decreases |ps|
  {
    if ps != [] {
      var s1 := AddressFold(s, e.findAddress(ps[0], s.text));
      AddressFoldShape(s, e.findAddress(ps[0], s.text));
      AddressPassShape(e, s1, ps[1..]);
      var r := AddressPass(e, s, ps).reps;
      assert r[..|s1.reps|][..|s.reps|] == r[..|s.reps|];
    }
  }

  lemma {:induction false} AddressPassTagged(e: RegexEngine, s: Stage, ps: seq<AddressPattern>, k: Kind)
    ensures var r := AddressPass(e, s, ps);
      TaggedValues(r.reps, k) == TaggedValues(s.reps, k) + (if k == Address then Numbered(Address, s.count, r.count) else [])
    decreases |ps|
  {
    if ps != [] {
      var s1 := AddressFold(s, e.findAddress(ps[0], s.text));
      AddressFoldTagged(s, e.findAddress(ps[0], s.text), k);
      AddressPassTagged(e, s1, ps[1..], k);
      NumberedConcat(Address, s.count, s1.count, AddressPass(e, s, ps).count);
    }
  }

  /** The regex pass yields one entry per literal; the only numbered
      placeholders in it are `[АДРЕС-count+1]` … `[АДРЕС-n]`, in order, where
      `n` is the final address counter. */
  lemma RegexPassFacts(e: RegexEngine, text: string, count: nat, k: Kind)
    ensures var r := RegexPass(e, text, count);
      Valid(r.reps) && count <= r.count
      && TaggedValues(r.reps, k) == (if k == Address then Numbered(Address, count, r.count) else [])
  {
    var s0 := Stage(text, [], count);
    var s1 := FlatPass(e, s0, FlatPatterns);
    var r := AddressPass(e, s1, AddressPatterns);
    assert r == RegexPass(e, text, count);
    FlatPassFacts(e, s0, FlatPatterns);
    FlatPassUntagged(e, s0, FlatPatterns, k);
    assert TaggedValues(s0.reps, k) == [];
    AddressPassShape(e, s1, AddressPatterns);
    AddressPassTagged(e, s1, AddressPatterns, k);
    EmptyPrefix(TaggedValues(s1.reps, k), TaggedValues(r.reps, k),
                if k == Address then Numbered(Address, s1.count, r.count) else []);
  }

  lemma EmptyPrefix(x: seq<string>, z: seq<string>, y: seq<string>)
    requires x == [] && z == x + y
    ensures z == y
  {
  }

  // ---------------------------------------------------------------------------
  // The entity pass, as functions

  /** A spaCy entity: its text and its label. */
  datatype Entity = Entity(text: string, tag: string)

  /** The model is installed or not; if it is, `entities(s)` is `nlp_ru(s).ents`. */
  datatype Tagger = Tagger(installed: bool, entities: string -> seq<Entity>)

  const GenericPlaces: seq<string> := ["город", "село", "район", "область"]

  /** Which placeholder an entity with this label and stripped text gets, if any. */
  function EntityKind(tag: string, text: string): (r: Option<Kind>)
    ensures r != Some(Address)
  {
    if tag == "PER" || tag == "PERSON" then Some(Person)
    else if tag == "ORG" then Some(Organization)
    else if (tag == "LOC" || tag == "GPE") && |text| > 3 && Lower(text) !in GenericPlaces then Some(Location)
    else None
  }

  /** An entity gets no placeholder exactly when its label is none of
      PER, PERSON, ORG, LOC and GPE, or it is a place of at most three
      characters or one of the generic words. */
  lemma EntityKindFilter(tag: string, text: string)
    ensures EntityKind(tag, text).None? <==>
      (tag !in ["PER", "PERSON", "ORG", "LOC", "GPE"]
       || ((tag == "LOC" || tag == "GPE") && (|text| <= 3 || Lower(text) in GenericPlaces)))
  {
  }

  /** The entity dictionary and the counters. */
  datatype Registered = Registered(reps: Dict, counts: Counters)

  /** Whether an entity mints a placeholder: its stripped text is new and its label is used. */
  predicate Mints(r: Registered, ent: Entity) {
    Strip(ent.text) !in KeySet(r.reps) && EntityKind(ent.tag, Strip(ent.text)).Some?
  }

  /** One entity (lines 230-258): skipped when its stripped text is already
      registered; otherwise its label decides whether it mints a placeholder. */
  function EntityStep(r: Registered, ent: Entity): Registered {
    var t := Strip(ent.text);
    StepWith(r, t, EntityKind(ent.tag, t))
  }

  /** The step for text `t` once its label has been read as `kind`. */
  function StepWith(r: Registered, t: string, kind: Option<Kind>): Registered {
    if t in KeySet(r.reps) || kind.None? then r
    else Registered(r.reps + [Entry(t, Placeholder(kind.value, r.counts.Get(kind.value) + 1))], r.counts.Bump(kind.value))
  }

  function RegisterEntities(r: Registered, ents: seq<Entity>): (r': Registered)
    ensures r'.counts.address == r.counts.address
    decreases |ents|
  {
    if ents == [] then r else RegisterEntities(EntityStep(r, ents[0]), ents[1..])
  }

  /** Lines 261-264: the word-bounded substitution of every registered entity,
      in registration order. */
  function ApplyWord(e: RegexEngine, text: string, d: Dict): string
    decreases |d|
  {
    if d == [] then text else ApplyWord(e, e.subWord(d[0].key, d[0].value, text), d[1..])
  }

  // ---------------------------------------------------------------------------
  // Properties of the entity pass

  lemma {:induction false} RegisterEntitiesSplit(r: Registered, a: seq<Entity>, b: seq<Entity>)
    ensures RegisterEntities(r, a + b) == RegisterEntities(RegisterEntities(r, a), b)
    decreases |a|
  {
    if a == [] {
      assert a + b == b;
    } else {
      assert (a + b)[0] == a[0] && (a + b)[1..] == a[1..] + b;
      RegisterEntitiesSplit(EntityStep(r, a[0]), a[1..], b);
    }
  }

  /** The number of placeholders an entity pass has minted. */
  function Minted(c: Counters): nat {
    c.person + c.org + c.geo
  }

  /** One step keeps the dictionary valid, only appends to it, and adds an
      entry exactly when it raises one counter. */
  lemma StepWithShape(r: Registered, t: string, kind: Option<Kind>)
    requires Valid(r.reps) && kind != Some(Address)
    ensures var r' := StepWith(r, t, kind);
      Valid(r'.reps) && Extends(r.reps, r'.reps) && |r'.reps| + Minted(r.counts) == |r.reps| + Minted(r'.counts)
  {
    if !(t in KeySet(r.reps) || kind.None?) {
      AppendValid(r.reps, t, Placeholder(kind.value, r.counts.Get(kind.value) + 1));
      var c' := r.counts.Bump(kind.value);
      assert c'.address == r.counts.address;
    }
  }

  /** The entity pass keeps the dictionary valid and only appends to it, and
      every entry it adds raised exactly one of the person, organisation and
      place counters. */
  lemma {:induction false} RegisterEntitiesShape(r: Registered, ents: seq<Entity>)
    requires Valid(r.reps)
    ensures var r' := RegisterEntities(r, ents);
      Valid(r'.reps) && Extends(r.reps, r'.reps) && |r'.reps| + Minted(r.counts) == |r.reps| + Minted(r'.counts)
    decreases |ents|
  {
    if ents == [] {
      assert r.reps[..|r.reps|] == r.reps;
    } else {
      var t := Strip(ents[0].text);
      var r1 := StepWith(r, t, EntityKind(ents[0].tag, t));
      assert r1 == EntityStep(r, ents[0]);
      var r' := RegisterEntities(r1, ents[1..]);
      assert RegisterEntities(r, ents) == r';
      StepWithShape(r, t, EntityKind(ents[0].tag, t));
      RegisterEntitiesShape(r1, ents[1..]);
      ExtendsTrans(r.reps, r1.reps, r'.reps);
    }
  }

  /** One entity adds at most the next placeholder of each kind. */
  lemma EntityStepTagged(r: Registered, x: Entity, k: Kind)
    ensures r.counts.Get(k) <= EntityStep(r, x).counts.Get(k)
    ensures TaggedValues(EntityStep(r, x).reps, k)
         == TaggedValues(r.reps, k) + Numbered(k, r.counts.Get(k), EntityStep(r, x).counts.Get(k))
  {
    var t := Strip(x.text);
    StepWithTagged(r, t, EntityKind(x.tag, t), k);
  }

  lemma StepWithTagged(r: Registered, t: string, kind: Option<Kind>, k: Kind)
    ensures r.counts.Get(k) <= StepWith(r, t, kind).counts.Get(k)
    ensures TaggedValues(StepWith(r, t, kind).reps, k)
         == TaggedValues(r.reps, k) + Numbered(k, r.counts.Get(k), StepWith(r, t, kind).counts.Get(k))
  {
    if t in KeySet(r.reps) || kind.None? {
      assert Numbered(k, r.counts.Get(k), r.counts.Get(k)) == [];
    } else {
      MintTagged(r.reps, r.counts, t, kind.value, k);
    }
  }

  /** Minting the next placeholder of kind `k0` adds it to that kind's list only. */
  lemma MintTagged(d: Dict, counts: Counters, t: string, k0: Kind, k: Kind)
    ensures var c' := counts.Bump(k0); var d' := d + [Entry(t, Placeholder(k0, counts.Get(k0) + 1))];
      counts.Get(k) <= c'.Get(k) && TaggedValues(d', k) == TaggedValues(d, k) + Numbered(k, counts.Get(k), c'.Get(k))
  {
    if k == k0 { MintTaggedSame(d, counts, t, k); } else { MintTaggedOther(d, counts, t, k0, k); }
  }

  lemma MintTaggedSame(d: Dict, counts: Counters, t: string, k: Kind)
    ensures var n := counts.Get(k) + 1;
      TaggedValues(d + [Entry(t, Placeholder(k, n))], k) == TaggedValues(d, k) + Numbered(k, n - 1, n)
  {
    var n := counts.Get(k) + 1;
    var ph := Placeholder(k, n);
    TaggedValuesPush(d, t, ph, k);
    PlaceholderTagged(k, n, k);
    assert Numbered(k, n - 1, n) == [ph];
  }

  lemma MintTaggedOther(d: Dict, counts: Counters, t: string, k0: Kind, k: Kind)
    requires k != k0
    ensures TaggedValues(d + [Entry(t, Placeholder(k0, counts.Get(k0) + 1))], k) == TaggedValues(d, k)
  {
    var n := counts.Get(k0) + 1;
    TaggedValuesPush(d, t, Placeholder(k0, n), k);
    PlaceholderTagged(k0, n, k);
  }

  /** The placeholders of each kind that the entity pass mints are numbered on
      from that kind's counter, in order. */
  lemma {:induction false} RegisterEntitiesTagged(r: Registered, ents: seq<Entity>, k: Kind)
    ensures var r' := RegisterEntities(r, ents);
      r.counts.Get(k) <= r'.counts.Get(k)
      && TaggedValues(r'.reps, k) == TaggedValues(r.reps, k) + Numbered(k, r.counts.Get(k), r'.counts.Get(k))
    decreases |ents|
  {
    if ents == [] {
      assert Numbered(k, r.counts.Get(k), r.counts.Get(k)) == [];
    } else {
      var r1 := EntityStep(r, ents[0]);
      var r' := RegisterEntities(r1, ents[1..]);
      assert RegisterEntities(r, ents) == r';
      EntityStepTagged(r, ents[0], k);
      RegisterEntitiesTagged(r1, ents[1..], k);
      NumberedChain(TaggedValues(r.reps, k), TaggedValues(r1.reps, k), TaggedValues(r'.reps, k),
                    k, r.counts.Get(k), r1.counts.Get(k), r'.counts.Get(k));
    }
  }

  /** Around any entity `x` of the document, the pass is the pass over the
      entities before it, then `x`'s step, then the pass over the rest. */
  lemma RegisterAround(r: Registered, pre: seq<Entity>, x: Entity, post: seq<Entity>)
    ensures RegisterEntities(r, pre + [x]) == EntityStep(RegisterEntities(r, pre), x)
    ensures RegisterEntities(r, pre + [x] + post) == RegisterEntities(EntityStep(RegisterEntities(r, pre), x), post)
  {
    var rest := [x] + post;
    assert pre + [x] + post == pre + rest;
    RegisterEntitiesSplit(r, pre, rest);
    assert rest[0] == x && rest[1..] == post;
    RegisterEntitiesSplit(r, pre, [x]);
    assert [x][1..] == [];
  }

  /** A later occurrence of an already registered entity text changes nothing,
      whatever label it carries. */
  lemma RepeatedEntitySkipped(r: Registered, pre: seq<Entity>, x: Entity, post: seq<Entity>)
    requires Valid(r.reps)
    requires Strip(x.text) in KeySet(RegisterEntities(r, pre).reps)
    ensures RegisterEntities(r, pre + [x]) == RegisterEntities(r, pre)
    ensures Get(RegisterEntities(r, pre + [x] + post).reps, Strip(x.text)) == Get(RegisterEntities(r, pre).reps, Strip(x.text))
  {
    var ri := RegisterEntities(r, pre);
    RegisterAround(r, pre, x, post);
    assert EntityStep(ri, x) == ri;
    RegisterEntitiesShape(r, pre);
    KeptThrough(ri, post, Strip(x.text));
  }

  /** A registered entity text keeps its placeholder for the rest of the pass. */
  lemma KeptThrough(r: Registered, post: seq<Entity>, t: string)
    requires Valid(r.reps) && t in KeySet(r.reps)
    ensures Get(RegisterEntities(r, post).reps, t) == Get(r.reps, t)
  {
    RegisterEntitiesShape(r, post);
    ExtendsKeepsGet(r.reps, RegisterEntities(r, post).reps, t);
  }

  /** A minted placeholder survives the rest of the pass. */
  lemma MintedKept(ri: Registered, t: string, k: Kind, post: seq<Entity>)
    requires Valid(ri.reps) && t !in KeySet(ri.reps)
    ensures Get(RegisterEntities(StepWith(ri, t, Some(k)), post).reps, t) == Some(Placeholder(k, ri.counts.Get(k) + 1))
  {
    var ph := Placeholder(k, ri.counts.Get(k) + 1);
    var r1 := StepWith(ri, t, Some(k));
    assert r1.reps == ri.reps + [Entry(t, ph)];
    PushGet(ri.reps, t, ph);
    KeptThrough(r1, post, t);
  }

  /** The first occurrence of an entity text with a usable label fixes its
      placeholder for the whole document: the next number of its kind. */
  lemma FirstEntityFixesPlaceholder(r: Registered, pre: seq<Entity>, x: Entity, post: seq<Entity>)
    requires Valid(r.reps)
    requires Strip(x.text) !in KeySet(RegisterEntities(r, pre).reps)
    requires EntityKind(x.tag, Strip(x.text)).Some?
    ensures var t := Strip(x.text);
      var k := EntityKind(x.tag, t).value;
      Get(RegisterEntities(r, pre + [x] + post).reps, t) == Some(Placeholder(k, RegisterEntities(r, pre).counts.Get(k) + 1))
  {
    var ri, t := RegisterEntities(r, pre), Strip(x.text);
    var k := EntityKind(x.tag, t).value;
    assert RegisterEntities(r, pre + [x] + post) == RegisterEntities(StepWith(ri, t, Some(k)), post) by {
      RegisterAround(r, pre, x, post);
    }
    assert Valid(ri.reps) by { RegisterEntitiesShape(r, pre); }
    MintedKept(ri, t, k, post);
  }

  /** An entity whose label is not used, or a short or generic place, registers
      nothing and moves no counter. */
  lemma FilteredEntityIgnored(r: Registered, pre: seq<Entity>, x: Entity)
    requires EntityKind(x.tag, Strip(x.text)).None?
    ensures RegisterEntities(r, pre + [x]) == RegisterEntities(r, pre)
  {
    RegisterEntitiesSplit(r, pre, [x]);
    assert [x][1..] == [];
  }

  // ---------------------------------------------------------------------------
  // The whole pre-processing, as a function

  datatype NerStats = NerStats(
    totalReplacements: nat, regexReplacements: nat, nerReplacements: nat,
    persons: nat, organizations: nat, locations: nat, addresses: nat)

  /** The dictionary `preprocess_with_ner` returns; `stats == None` is `{}`. */
  datatype NerResult = NerResult(
    preprocessedText: Option<string>, originalText: string, replacements: Dict,
    stats: Option<NerStats>, success: bool, error: Option<string>)

  const SpacyMissing: string := "SpaCy model not found. Run: python -m spacy download ru_core_news_sm"

  function NerFailure(text: string, message: string): NerResult {
    NerResult(None, text, [], None, false, Some("Error during NER preprocessing: " + message))
  }

  /** The regex pass of a document, after the counters were reset. */
  function RegexStage(e: RegexEngine, text: string): Stage {
    RegexPass(e, text, 0)
  }

  /** The entity pass of a document, run on the regex output with the counters
      the regex pass left. */
  function EntityStage(e: RegexEngine, tagger: Tagger, text: string): Registered {
    var s := RegexStage(e, text);
    RegisterEntities(Registered([], Counters(0, 0, 0, s.count)), tagger.entities(s.text))
  }

  /** `preprocess_with_ner`: counters reset, regex pass, spaCy pass on the
      regex output, merged replacements and the counters as statistics. */
  function Preprocess(e: RegexEngine, tagger: Tagger, text: string): NerResult {
    if !tagger.installed then NerFailure(text, SpacyMissing)
    else
      var s := RegexStage(e, text);
      var n := EntityStage(e, tagger, text);
      var merged := Merge(s.reps, n.reps);
      NerResult(Some(ApplyWord(e, s.text, n.reps)), text, merged,
        Some(NerStats(|merged|, |s.reps|, |n.reps|, n.counts.person, n.counts.org, n.counts.geo, n.counts.address)),
        true, None)
  }

  /** Pre-processing succeeds exactly when the spaCy model can be loaded; a
      failure carries no text, no replacements and no statistics. */
  lemma PreprocessOutcome(e: RegexEngine, tagger: Tagger, text: string)
    ensures var r := Preprocess(e, tagger, text);
      r.success == tagger.installed && r.originalText == text
      && (r.success ==> r.preprocessedText.Some? && r.stats.Some? && r.error == None)
      && (!r.success ==> r.preprocessedText == None && r.replacements == [] && r.stats == None
                         && r.error == Some("Error during NER preprocessing: " + SpacyMissing))
  {
  }

  /** Every document is numbered from 1: the statistics count the
      `[ЛИЦО-1..n]`, `[ОРГ-1..n]`, `[ГЕО-1..n]` minted, in that order, by the
      entity pass and the `[АДРЕС-1..n]` minted by the regex pass, and neither
      pass mints the other's kinds. */
  lemma PreprocessNumbering(e: RegexEngine, tagger: Tagger, text: string, k: Kind)
    requires tagger.installed
    ensures var s := Preprocess(e, tagger, text).stats.value;
      var n := match k
        case Person => s.persons
        case Organization => s.organizations
        case Location => s.locations
        case Address => s.addresses;
      var regexTagged := TaggedValues(RegexStage(e, text).reps, k);
      var entityTagged := TaggedValues(EntityStage(e, tagger, text).reps, k);
      (k == Address ==> regexTagged == Numbered(k, 0, n) && entityTagged == [])
      && (k != Address ==> regexTagged == [] && entityTagged == Numbered(k, 0, n))
  {
    var s := RegexStage(e, text);
    RegexPassFacts(e, text, 0, k);
    RegisterEntitiesTagged(Registered([], Counters(0, 0, 0, s.count)), tagger.entities(s.text), k);
  }

  /** The statistics add up: every entity replacement minted exactly one
      person, organisation or place number; there are no more address numbers
      than regex replacements; and the merged dictionary, in which an entity
      entry overrides a regex entry for the same text, has one entry per
      distinct text, hence at most as many as both passes together. */
  lemma PreprocessStats(e: RegexEngine, tagger: Tagger, text: string)
    requires tagger.installed
    ensures var r := Preprocess(e, tagger, text);
      var s := r.stats.value;
      Valid(r.replacements)
      && s.persons + s.organizations + s.locations == s.nerReplacements
      && s.addresses <= s.regexReplacements
      && s.totalReplacements == |r.replacements| <= s.regexReplacements + s.nerReplacements
  {
    var s := RegexStage(e, text);
    var n := EntityStage(e, tagger, text);
    RegexPassFacts(e, text, 0, Address);
    RegisterEntitiesShape(Registered([], Counters(0, 0, 0, s.count)), tagger.entities(s.text));
    MergeValid(s.reps, n.reps);
    MergeSize(s.reps, n.reps);
    TaggedValuesBound(s.reps, Address);
  }

  lemma {:induction false} TaggedValuesBound(d: Dict, k: Kind)
    ensures |TaggedValues(d, k)| <= |d|
    decreases |d|
  {
    if d != [] { TaggedValuesBound(d[1..], k); }
  }

  /** Looking a text up in the merged replacements finds the entity pass's
      placeholder if it has one, and the regex pass's otherwise. */
  lemma PreprocessLookup(e: RegexEngine, tagger: Tagger, text: string, key: string)
    requires tagger.installed
    ensures var n := EntityStage(e, tagger, text).reps;
      Get(Preprocess(e, tagger, text).replacements, key)
        == if key in KeySet(n) then Get(n, key) else Get(RegexStage(e, text).reps, key)
  {
    var s := RegexStage(e, text);
    RegisterEntitiesShape(Registered([], Counters(0, 0, 0, s.count)), tagger.entities(s.text));
    MergeGet(s.reps, EntityStage(e, tagger, text).reps, key);
  }

  // ---------------------------------------------------------------------------
  // The imperative code, proved against the functions above

  /** The inner loop of lines 121-124. */
  method RegisterMatches(d: Dict, found: seq<string>, tag: string) returns (r: Dict)
    ensures r == RegisterFirst(d, found, tag)
  {
    r := d;
    var j := 0;
    while j < |found|
      invariant 0 <= j <= |found|
      invariant RegisterFirst(r, found[j..], tag) == RegisterFirst(d, found, tag)
    {
      if found[j] !in KeySet(r) {
        r := r + [Entry(found[j], tag)];
      }
      assert found[j..][1..] == found[j + 1..];
      j := j + 1;
    }
  }

  /** Lines 119-189: the flat-category loops. */
  method ReplaceFlat(e: RegexEngine, s: Stage, ps: seq<FlatPattern>) returns (r: Stage)
    ensures r == FlatPass(e, s, ps)
  {
    r := s;
    var i := 0;
    while i < |ps|
      invariant 0 <= i <= |ps|
      invariant FlatPass(e, r, ps[i..]) == FlatPass(e, s, ps)
    {
      var tag := FlatTag(ps[i].category);
      var reps := RegisterMatches(r.reps, e.findFlat(ps[i], r.text), tag);
      r := Stage(e.subFlat(ps[i], tag, r.text), reps, r.count);
      assert ps[i..][1..] == ps[i + 1..];
      i := i + 1;
    }
  }

  /** Lines 194-198, for the matches of one address pattern. */
  method MintAddresses(reg: Registry, s: Stage, found: seq<string>) returns (r: Stage)
    requires reg.address == s.count
    modifies reg
    ensures r == AddressFold(s, found) && reg.address == r.count
    ensures reg.person == old(reg.person) && reg.org == old(reg.org) && reg.geo == old(reg.geo)
  {
    r := s;
    var j := 0;
    while j < |found|
      invariant 0 <= j <= |found| && reg.address == r.count
      invariant AddressFold(r, found[j..]) == AddressFold(s, found)
      invariant reg.person == old(reg.person) && reg.org == old(reg.org) && reg.geo == old(reg.geo)
    {
      if found[j] !in KeySet(r.reps) {
        var ph := reg.Next(Address);
        r := Stage(ReplaceAll(r.text, found[j], ph), r.reps + [Entry(found[j], ph)], r.count + 1);
      }
      assert found[j..][1..] == found[j + 1..];
      j := j + 1;
    }
  }

  /** Lines 192-198: the address patterns, one after the other. */
  method ReplaceAddresses(reg: Registry, e: RegexEngine, s: Stage, ps: seq<AddressPattern>) returns (r: Stage)
    requires reg.address == s.count
    modifies reg
    ensures r == AddressPass(e, s, ps) && reg.address == r.count
    ensures reg.person == old(reg.person) && reg.org == old(reg.org) && reg.geo == old(reg.geo)
  {
    r := s;
    var k := 0;
    while k < |ps|
      invariant 0 <= k <= |ps| && reg.address == r.count
      invariant AddressPass(e, r, ps[k..]) == AddressPass(e, s, ps)
      invariant reg.person == old(reg.person) && reg.org == old(reg.org) && reg.geo == old(reg.geo)
    {
      r := MintAddresses(reg, r, e.findAddress(ps[k], r.text));
      assert ps[k..][1..] == ps[k + 1..];
      k := k + 1;
    }
  }

  /** `replace_with_regex`. */
  method ReplaceWithRegex(reg: Registry, e: RegexEngine, text: string) returns (cleaned: string, replacements: Dict)
    modifies reg
    ensures Stage(cleaned, replacements, reg.address) == RegexPass(e, text, old(reg.address))
    ensures reg.person == old(reg.person) && reg.org == old(reg.org) && reg.geo == old(reg.geo)
  {
    var flat := ReplaceFlat(e, Stage(text, [], reg.address), FlatPatterns);
    var s := ReplaceAddresses(reg, e, flat, AddressPatterns);
    cleaned, replacements := s.text, s.reps;
  }

  /** One iteration of the loop at lines 229-258. */
  method RegisterEntity(reg: Registry, reps: Dict, ent: Entity) returns (reps': Dict)
    modifies reg
    ensures Registered(reps', reg.Counts()) == EntityStep(Registered(reps, old(reg.Counts())), ent)
  {
    var t := Strip(ent.text);
    reps' := RegisterStripped(reg, reps, t, EntityKind(ent.tag, t));
  }

  /** The same iteration once the stripped text and the placeholder kind its
      label selects are known: a known text or an unused label is skipped,
      otherwise one counter moves and the text is recorded. */
  method RegisterStripped(reg: Registry, reps: Dict, t: string, kind: Option<Kind>) returns (reps': Dict)
    modifies reg
    ensures Registered(reps', reg.Counts()) == StepWith(Registered(reps, old(reg.Counts())), t, kind)
  {
    reps' := reps;
    if t !in KeySet(reps) && kind.Some? {
      var ph := reg.Next(kind.value);
      reps' := reps + [Entry(t, ph)];
    }
  }

  /** `extract_entities_with_spacy`, with `nlp` standing for the loaded model. */
  method ExtractEntities(reg: Registry, e: RegexEngine, nlp: string -> seq<Entity>, text: string)
    returns (cleaned: string, replacements: Dict)
    modifies reg
    ensures Registered(replacements, reg.Counts()) == RegisterEntities(Registered([], old(reg.Counts())), nlp(text))
    ensures cleaned == ApplyWord(e, text, replacements)
  {
    var ents := nlp(text);
    replacements := [];
    var i := 0;
    while i < |ents|
      invariant 0 <= i <= |ents|
      invariant RegisterEntities(Registered(replacements, reg.Counts()), ents[i..])
             == RegisterEntities(Registered([], old(reg.Counts())), ents)
    {
      replacements := RegisterEntity(reg, replacements, ents[i]);
      assert ents[i..][1..] == ents[i + 1..];
      i := i + 1;
    }
    cleaned := text;
    var j := 0;
    while j < |replacements|
      invariant 0 <= j <= |replacements|
      invariant ApplyWord(e, cleaned, replacements[j..]) == ApplyWord(e, text, replacements)
    {
      cleaned := e.subWord(replacements[j].key, replacements[j].value, cleaned);
      assert replacements[j..][1..] == replacements[j + 1..];
      j := j + 1;
    }
  }

  /** `preprocess_with_ner`. The result does not depend on the counters the
      registry held before: each document is numbered afresh. */
  method PreprocessWithNer(reg: Registry, e: RegexEngine, tagger: Tagger, text: string) returns (r: NerResult)
    modifies reg
    ensures r == Preprocess(e, tagger, text)
    ensures r.success ==> reg.Counts() == Counters(r.stats.value.persons, r.stats.value.organizations,
                                                   r.stats.value.locations, r.stats.value.addresses)
  {
    reg.Reset();
    var t1, regexReps := ReplaceWithRegex(reg, e, text);
    if !tagger.installed {
      r := NerFailure(text, SpacyMissing);
      return;
    }
    var t2, nerReps := ExtractEntities(reg, e, tagger.entities, t1);
    var merged := Merge(regexReps, nerReps);
    r := NerResult(Some(t2), text, merged,
      Some(NerStats(|merged|, |regexReps|, |nerReps|, reg.person, reg.org, reg.geo, reg.address)),
      true, None);
  }
}
