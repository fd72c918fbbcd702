/** Numbered placeholders `[ЛИЦО-n]`, `[ОРГ-n]`, `[ГЕО-n]`, `[АДРЕС-n]` and the
    four per-category counters that mint them. */
module Placeholders {
  import opened Text

  datatype Kind = Person | Organization | Location | Address

  function Tag(k: Kind): string {
    match k
    case Person => "ЛИЦО"
    case Organization => "ОРГ"
    case Location => "ГЕО"
    case Address => "АДРЕС"
  }

  /** What is written before the number: `[` + tag + `-`. */
  function Head(k: Kind): string {
    "[" + Tag(k) + "-"
  }

  /** `f"[{TAG}-{n}]"`. */
  function Placeholder(k: Kind, n: nat): string {
    Head(k) + NatToString(n) + "]"
  }

  /** A string that begins like a placeholder of kind `k`. */
  predicate IsTagged(v: string, k: Kind) {
    |Head(k)| <= |v| && v[..|Head(k)|] == Head(k)
  }

  lemma HeadsDiffer(k1: Kind, k2: Kind, v: string)
    requires IsTagged(v, k1) && IsTagged(v, k2)
    ensures k1 == k2
  {
    assert v[1] == Head(k1)[1] == Head(k2)[1];
  }

  /** A placeholder is tagged with its own kind and with no other. */
  lemma PlaceholderTagged(k: Kind, n: nat, k': Kind)
    ensures IsTagged(Placeholder(k, n), k') <==> k == k'
  {
    var p := Placeholder(k, n);
    assert p[..|Head(k)|] == Head(k);
    if IsTagged(p, k') { HeadsDiffer(k, k', p); }
  }

  /** Different (kind, number) pairs never produce the same placeholder. */
  lemma PlaceholderInjective(k1: Kind, n1: nat, k2: Kind, n2: nat)
    requires Placeholder(k1, n1) == Placeholder(k2, n2)
    ensures k1 == k2 && n1 == n2
  {
    var p := Placeholder(k1, n1);
    PlaceholderTagged(k1, n1, k2);
    PlaceholderTagged(k2, n2, k2);
    assert p[|Head(k1)|..|p| - 1] == NatToString(n1);
    assert Placeholder(k2, n2)[|Head(k2)|..|p| - 1] == NatToString(n2);
    NatToStringInjective(n1, n2);
  }

  /** Snapshot of the four counters. */
  datatype Counters = Counters(person: nat, org: nat, geo: nat, address: nat) {
    function Get(k: Kind): nat {
      match k
      case Person => person
      case Organization => org
      case Location => geo
      case Address => address
    }

    /** The counters after minting one placeholder of kind `k`. */
    function Bump(k: Kind): (c: Counters)
      ensures c.Get(k) == Get(k) + 1
      ensures forall k' | k' != k :: c.Get(k') == Get(k')
    {
      match k
      case Person => this.(person := person + 1)
      case Organization => this.(org := org + 1)
      case Location => this.(geo := geo + 1)
      case Address => this.(address := address + 1)
    }
  }

  const Zero := Counters(0, 0, 0, 0)

  /** The counters, which the service keeps as module-level globals. */
  class Registry {
    var person: nat
    var org: nat
    var geo: nat
    var address: nat

    function Counts(): Counters
      reads this
    {
      Counters(person, org, geo, address)
    }

    constructor ()
      ensures Counts() == Zero
    {
      person, org, geo, address := 0, 0, 0, 0;
    }

    /** `reset_counters`: every counter back to zero. */
    method Reset()
      modifies this
      ensures Counts() == Zero
    {
      person, org, geo, address := 0, 0, 0, 0;
    }

    /** `get_person_placeholder`, `get_org_placeholder`, `get_geo_placeholder`,
        `get_address_placeholder`: increment one counter and render its new value. */
    method Next(k: Kind) returns (p: string)
      modifies this
      ensures Counts() == old(Counts()).Bump(k)
      ensures p == Placeholder(k, Counts().Get(k))
    {
      match k
      case Person => person := person + 1; p := Placeholder(k, person);
      case Organization => org := org + 1; p := Placeholder(k, org);
      case Location => geo := geo + 1; p := Placeholder(k, geo);
      case Address => address := address + 1; p := Placeholder(k, address);
    }
  }
}
