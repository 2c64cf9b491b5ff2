/**
 * The JSON values the scraper stores in its JSONB columns, and the canonical
 * form that `json.dumps(..., sort_keys=True)` gives them before hashing.
 *
 * An object is a sequence of members in insertion order, as a Python dict
 * keeps them; its keys are distinct (WellFormed). The canonical form forgets
 * that order: an object becomes a map from keys to canonical values. Sorting
 * the keys when serialising is exactly what makes two dicts with the same
 * key/value pairs, inserted in different orders, produce the same text.
 */
module Json {
  import opened Wrappers

  datatype Json =
    | JNull
    | JInt(n: int)
    | JStr(s: string)
    | JObj(members: seq<Member>)

  datatype Member = Member(key: string, value: Json)

  predicate DistinctKeys(ms: seq<Member>) {
    forall i, j :: 0 <= i < j < |ms| ==> ms[i].key != ms[j].key
  }

  /** Every object, at every depth, has distinct keys: it is a Python dict. */
  predicate WellFormed(j: Json) {
    match j
    case JObj(ms) => DistinctKeys(ms) && forall i :: 0 <= i < |ms| ==> WellFormed(ms[i].value)
    case _ => true
  }

  /** `d.get(key)`: the value stored under `key`, or None. */
  function Get(ms: seq<Member>, key: string): (r: Option<Json>)
    ensures r.None? <==> forall i :: 0 <= i < |ms| ==> ms[i].key != key
    ensures r.Some? ==> exists i :: 0 <= i < |ms| && ms[i] == Member(key, r.value)
  {
    if ms == [] then None
    else if ms[0].key == key then Some(ms[0].value)
    else
      var r := Get(ms[1..], key);
      assert r.Some? ==> exists i :: 1 <= i < |ms| && ms[i] == Member(key, r.value) by {
        if r.Some? {
          var i :| 0 <= i < |ms[1..]| && ms[1..][i] == Member(key, r.value);
          assert ms[i + 1] == Member(key, r.value);
        }
      }
      r
  }

  /** `d.get(key, default)`. */
  function GetOr(ms: seq<Member>, key: string, default: Json): Json {
    Get(ms, key).GetOr(default)
  }

  /** With distinct keys, `get` finds the member that carries the key. */
  lemma GetMember(ms: seq<Member>, i: nat)
    requires DistinctKeys(ms) && i < |ms|
    ensures Get(ms, ms[i].key) == Some(ms[i].value)
  {
    var r := Get(ms, ms[i].key);
    var k :| 0 <= k < |ms| && ms[k] == Member(ms[i].key, r.value);
    assert k == i;
  }

  /** The value `json.dumps(..., sort_keys=True)` serialises: member order forgotten. */
  datatype Canon =
    | CNull
    | CInt(n: int)
    | CStr(s: string)
    | CObj(fields: map<string, Canon>)

  function Canonical(j: Json): Canon
    requires WellFormed(j)
    decreases j, 1
  {
    match j
    case JNull => CNull
    case JInt(n) => CInt(n)
    case JStr(s) => CStr(s)
    case JObj(ms) => CObj(CanonicalMembers(ms))
  }

  /** The members of one object as a map from key to canonical value. */
  function CanonicalMembers(ms: seq<Member>): map<string, Canon>
    requires forall i :: 0 <= i < |ms| ==> WellFormed(ms[i].value)
    decreases ms, 0
  {
    if ms == [] then map[]
    else CanonicalMembers(ms[1..])[ms[0].key := Canonical(ms[0].value)]
  }

  /** The keys of an object's members. */
  function Keys(ms: seq<Member>): (ks: set<string>)
    ensures forall i :: 0 <= i < |ms| ==> ms[i].key in ks
  {
    set i | 0 <= i < |ms| :: ms[i].key
  }

  /** The canonical object holds exactly the keys of the members. */
  lemma {:induction false} CanonicalKeys(ms: seq<Member>)
    requires forall i :: 0 <= i < |ms| ==> WellFormed(ms[i].value)
    ensures CanonicalMembers(ms).Keys == Keys(ms)
  {
    if ms != [] {
      var tail := ms[1..];
      CanonicalKeys(tail);
      assert Keys(ms) == Keys(tail) + {ms[0].key} by {
        forall key | key in Keys(ms) ensures key in Keys(tail) + {ms[0].key} {
          var i :| 0 <= i < |ms| && ms[i].key == key;
          if i > 0 { assert tail[i - 1].key == key; }
        }
        forall key | key in Keys(tail) ensures key in Keys(ms) {
          var i :| 0 <= i < |tail| && tail[i].key == key;
          assert ms[i + 1].key == key;
        }
      }
    }
  }

  /** Under distinct keys, the canonical object maps each member's key to its canonical value. */
  lemma {:induction false} CanonicalAt(ms: seq<Member>, i: nat)
    requires WellFormed(JObj(ms)) && i < |ms|
    ensures ms[i].key in CanonicalMembers(ms)
    ensures CanonicalMembers(ms)[ms[i].key] == Canonical(ms[i].value)
  {
    if i > 0 {
      var tail := ms[1..];
      assert tail[i - 1] == ms[i];
      assert WellFormed(JObj(tail)) by {
        forall p | 0 <= p < |tail| ensures WellFormed(tail[p].value) { assert tail[p] == ms[p + 1]; }
        forall p, q | 0 <= p < q < |tail| ensures tail[p].key != tail[q].key { assert tail[p] == ms[p + 1] && tail[q] == ms[q + 1]; }
      }
      CanonicalAt(tail, i - 1);
    }
  }

  /**
   * Two values hold the same content when they are equal up to the order of
   * the members of every object: the same keys, and under each key values of
   * the same content.
   */
  predicate SameContent(a: Json, b: Json)
    decreases a
  {
    if a.JObj? && b.JObj? then
      Keys(a.members) == Keys(b.members)
      && forall i :: 0 <= i < |a.members| ==>
           var v := Get(b.members, a.members[i].key);
           v.Some? && SameContent(a.members[i].value, v.value)
    else
      !a.JObj? && !b.JObj? && a == b
  }

  /** The members of two objects of the same content that sit under `key`. */
  lemma MatchingMembers(a: Json, b: Json, key: string) returns (i: nat, k: nat)
    requires a.JObj? && b.JObj? && SameContent(a, b) && key in Keys(a.members)
    ensures i < |a.members| && k < |b.members|
    ensures a.members[i].key == key && b.members[k].key == key
    ensures SameContent(a.members[i].value, b.members[k].value)
  {
    var ma, mb := a.members, b.members;
    i :| 0 <= i < |ma| && ma[i].key == key;
    var v := Get(mb, key);
    assert v.Some? && SameContent(ma[i].value, v.value);
    k :| 0 <= k < |mb| && mb[k] == Member(key, v.value);
  }

  /** Equal content gives an equal canonical form, whatever the member order. */
  lemma {:induction false} SameContentSameCanonical(a: Json, b: Json)
    requires WellFormed(a) && WellFormed(b) && SameContent(a, b)
    ensures Canonical(a) == Canonical(b)
    decreases a
  {
    if a.JObj? {
      var ma, mb := a.members, b.members;
      var fa, fb := CanonicalMembers(ma), CanonicalMembers(mb);
      CanonicalKeys(ma);
      CanonicalKeys(mb);
      assert fa.Keys == fb.Keys;
      forall key | key in fa ensures fa[key] == fb[key] {
        var i, k := MatchingMembers(a, b, key);
        CanonicalAt(ma, i);
        CanonicalAt(mb, k);
        SameContentSameCanonical(ma[i].value, mb[k].value);
      }
      assert fa == fb;
    }
  }

  /** An equal canonical form comes only from equal content. */
  lemma {:induction false} SameCanonicalSameContent(a: Json, b: Json)
    requires WellFormed(a) && WellFormed(b) && Canonical(a) == Canonical(b)
    ensures SameContent(a, b)
    decreases a
  {
    if a.JObj? {
      var ma, mb := a.members, b.members;
      var fa, fb := CanonicalMembers(ma), CanonicalMembers(mb);
      CanonicalKeys(ma);
      CanonicalKeys(mb);
      forall i | 0 <= i < |ma|
        ensures var v := Get(mb, ma[i].key); v.Some? && SameContent(ma[i].value, v.value)
      {
        var key := ma[i].key;
        assert key in Keys(mb);
        var k :| 0 <= k < |mb| && mb[k].key == key;
        GetMember(mb, k);
        CanonicalAt(ma, i);
        CanonicalAt(mb, k);
        SameCanonicalSameContent(ma[i].value, mb[k].value);
      }
    }
  }

  /**
   * The canonical form identifies exactly the values with the same content:
   * equal content gives an equal serialisation, and an equal serialisation
   * comes only from equal content.
   */
  lemma CanonicalIdentifiesContent(a: Json, b: Json)
    requires WellFormed(a) && WellFormed(b)
    ensures SameContent(a, b) <==> Canonical(a) == Canonical(b)
  {
    if SameContent(a, b) { SameContentSameCanonical(a, b); }
    if Canonical(a) == Canonical(b) { SameCanonicalSameContent(a, b); }
  }

  /** Every value has the same content as itself. */
  lemma SameContentReflexive(a: Json)
    requires WellFormed(a)
    ensures SameContent(a, a)
  {
    CanonicalIdentifiesContent(a, a);
  }
}
