/**
 * JSON documents as the JavaScript code sees them after `JSON.parse`:
 * objects are ordered lists of members (insertion order, as JavaScript keeps it),
 * arrays are sequences, numbers are reals.
 */
module Json {
  import opened Wrappers

  datatype Json =
    | JNull
    | JBool(b: bool)
    | JNum(n: real)
    | JStr(s: string)
    | JArr(items: seq<Json>)
    | JObj(members: seq<Member>)

  datatype Member = Member(key: string, value: Json)

  /**
   * A JavaScript reference to a JSON document: what a caller passes in, and what
   * in-place updates (a property set or deleted anywhere inside it) change.
   */
  class JsonRef {
    var value: Json

    constructor(v: Json)
      ensures value == v
    {
      value := v;
    }
  }

  /** JavaScript truthiness: `!x` holds exactly when `Truthy(x)` does not. */
  predicate Truthy(j: Json) {
    match j
    case JNull => false
    case JBool(b) => b
    case JNum(n) => n != 0.0
    case JStr(s) => s != ""
    case _ => true
  }

  /** A property read that yields a truthy value (`undefined` is falsy). */
  predicate TruthyOpt(o: Option<Json>) {
    o.Some? && Truthy(o.value)
  }

  /** The member names of an object, in order. */
  function Keys(ms: seq<Member>): (ks: seq<string>)
    ensures |ks| == |ms|
  {
    if ms == [] then [] else [ms[0].key] + Keys(ms[1..])
  }

  lemma {:induction false} KeysAt(ms: seq<Member>)
    ensures forall i :: 0 <= i < |ms| ==> Keys(ms)[i] == ms[i].key
  {
    if ms != [] {
      KeysAt(ms[1..]);
    }
  }

  predicate Distinct(ks: seq<string>) {
    ks != [] ==> ks[0] !in ks[1..] && Distinct(ks[1..])
  }

  /** The member names of an object are pairwise distinct, as in any parsed JSON object. */
  predicate UniqueKeys(ms: seq<Member>) {
    Distinct(Keys(ms))
  }

  /** Every object inside `j` has distinct member names. */
  predicate WellFormed(j: Json) {
    match j
    case JArr(a) => forall i :: 0 <= i < |a| ==> WellFormed(a[i])
    case JObj(ms) => UniqueKeys(ms) && forall i :: 0 <= i < |ms| ==> WellFormed(ms[i].value)
    case _ => true
  }

  /** Property read `obj[k]`: the first member named `k`, if any. */
  function Lookup(ms: seq<Member>, k: string): (r: Option<Json>)
    ensures r.Some? <==> k in Keys(ms)
    ensures r.Some? ==> Member(k, r.value) in ms
  {
    if ms == [] then None
    else if ms[0].key == k then Some(ms[0].value)
    else Lookup(ms[1..], k)
  }

  /**
   * Property write `obj[k] = v`: an existing member keeps its position and takes
   * the new value; a new member is appended (see `PutShape`).
   */
  function Put(ms: seq<Member>, k: string, v: Json): (r: seq<Member>)
    ensures Lookup(r, k) == Some(v)
    ensures forall k' | k' != k :: Lookup(r, k') == Lookup(ms, k')
  {
    if ms == [] then [Member(k, v)]
    else if ms[0].key == k then
      var r := [Member(k, v)] + ms[1..];
      assert r[1..] == ms[1..];
      r
    else
      var rest := Put(ms[1..], k, v);
      var r := [ms[0]] + rest;
      assert r[1..] == rest;
      r
  }

  /** The position of the member a read or a write of `k` addresses. */
  function KeyIndex(ms: seq<Member>, k: string): (p: nat)
    requires k in Keys(ms)
    ensures p < |ms| && ms[p].key == k
    ensures Lookup(ms, k) == Some(ms[p].value)
  {
    if ms[0].key == k then 0 else KeyIndex(ms[1..], k) + 1
  }

  /** A write to an existing property replaces that one member in place. */
  lemma {:induction false} PutAt(ms: seq<Member>, k: string, v: Json)
    requires k in Keys(ms)
    ensures Put(ms, k, v) == ms[KeyIndex(ms, k) := Member(k, v)]
  {
    if ms[0].key == k {
      assert Put(ms, k, v) == [Member(k, v)] + ms[1..];
      assert ms[0 := Member(k, v)] == [Member(k, v)] + ms[1..];
    } else {
      var p := KeyIndex(ms[1..], k);
      assert KeyIndex(ms, k) == p + 1;
      PutAt(ms[1..], k, v);
      assert Put(ms, k, v) == [ms[0]] + ms[1..][p := Member(k, v)];
      assert ms[p + 1 := Member(k, v)] == [ms[0]] + ms[1..][p := Member(k, v)];
    }
  }

  /** Writing back the value a property already has changes nothing. */
  lemma {:induction false} PutSame(ms: seq<Member>, k: string, v: Json)
    requires Lookup(ms, k) == Some(v)
    ensures Put(ms, k, v) == ms
  {
    if ms[0].key != k {
      PutSame(ms[1..], k, v);
      assert ms == [ms[0]] + ms[1..];
    } else {
      assert ms == [Member(k, v)] + ms[1..];
    }
  }

  /** Writing an existing property renames nothing; writing a new one appends it. */
  lemma {:induction false} PutShape(ms: seq<Member>, k: string, v: Json)
    ensures Keys(Put(ms, k, v)) == if k in Keys(ms) then Keys(ms) else Keys(ms) + [k]
    ensures k !in Keys(ms) ==> Put(ms, k, v) == ms + [Member(k, v)]
  {
    PutKeys(ms, k, v);
    if k !in Keys(ms) {
      PutAppends(ms, k, v);
    }
  }

  lemma {:induction false} PutKeys(ms: seq<Member>, k: string, v: Json)
    ensures Keys(Put(ms, k, v)) == if k in Keys(ms) then Keys(ms) else Keys(ms) + [k]
  {
    if ms != [] {
      var r := Put(ms, k, v);
      if ms[0].key == k {
        assert r[1..] == ms[1..];
      } else {
        PutKeys(ms[1..], k, v);
        assert r[1..] == Put(ms[1..], k, v);
        assert k in Keys(ms) <==> k in Keys(ms[1..]);
      }
    }
  }

  lemma {:induction false} PutAppends(ms: seq<Member>, k: string, v: Json)
    requires k !in Keys(ms)
    ensures Put(ms, k, v) == ms + [Member(k, v)]
  {
    if ms != [] {
      assert ms[0].key != k && k !in Keys(ms[1..]) by {
        assert Keys(ms) == [ms[0].key] + Keys(ms[1..]);
      }
      assert Put(ms, k, v) == [ms[0]] + Put(ms[1..], k, v);
      PutAppends(ms[1..], k, v);
      assert ms + [Member(k, v)] == [ms[0]] + (ms[1..] + [Member(k, v)]);
    }
  }

  /** `delete obj[k]`: every member named `k` is removed, the others keep their order. */
  function Remove(ms: seq<Member>, k: string): (r: seq<Member>)
    ensures Lookup(r, k) == None
    ensures forall k' | k' != k :: Lookup(r, k') == Lookup(ms, k')
  {
    if ms == [] then []
    else if ms[0].key == k then Remove(ms[1..], k)
    else [ms[0]] + Remove(ms[1..], k)
  }

  lemma {:induction false} DistinctAppend(ks: seq<string>, k: string)
    requires Distinct(ks) && k !in ks
    ensures Distinct(ks + [k])
  {
    if ks != [] {
      assert (ks + [k])[1..] == ks[1..] + [k];
      DistinctAppend(ks[1..], k);
    }
  }

  /**
   * The object `JSON.parse` builds from members read in text order, starting from
   * the members `acc` already built: a repeated name keeps the position of its first
   * occurrence and the value of its last.
   */
  function Collect(acc: seq<Member>, ms: seq<Member>): (r: seq<Member>)
    requires UniqueKeys(acc)
    ensures UniqueKeys(r)
    decreases |ms|
  {
    if ms == [] then acc
    else
      var next := Put(acc, ms[0].key, ms[0].value);
      assert UniqueKeys(next) by {
        PutShape(acc, ms[0].key, ms[0].value);
        if ms[0].key !in Keys(acc) { DistinctAppend(Keys(acc), ms[0].key); }
      }
      Collect(next, ms[1..])
  }

  function FromMembers(ms: seq<Member>): (r: seq<Member>)
    ensures UniqueKeys(r)
  {
    Collect([], ms)
  }

  lemma {:induction false} KeysAppend(a: seq<Member>, b: seq<Member>)
    ensures Keys(a + b) == Keys(a) + Keys(b)
  {
    if a != [] {
      assert (a + b)[1..] == a[1..] + b;
      KeysAppend(a[1..], b);
      assert Keys(a + b) == [a[0].key] + Keys(a[1..] + b);
    } else {
      assert a + b == b;
    }
  }

  lemma {:induction false} DistinctSplit(a: seq<string>, b: seq<string>)
    requires Distinct(a + b)
    ensures Distinct(a) && Distinct(b) && forall k :: k in a ==> k !in b
  {
    if a != [] {
      assert (a + b)[1..] == a[1..] + b;
      DistinctSplit(a[1..], b);
    } else {
      assert a + b == b;
    }
  }

  lemma {:induction false} CollectDistinct(acc: seq<Member>, ms: seq<Member>)
    requires UniqueKeys(acc + ms)
    ensures UniqueKeys(acc)
    ensures Collect(acc, ms) == acc + ms
    decreases |ms|
  {
    assert Distinct(Keys(acc)) && forall k :: k in Keys(acc) ==> k !in Keys(ms) by {
      KeysAppend(acc, ms);
      DistinctSplit(Keys(acc), Keys(ms));
    }
    if ms != [] {
      var m := ms[0];
      assert m.key !in Keys(acc) by {
        assert m.key == Keys(ms)[0];
      }
      assert UniqueKeys(acc + [m]) by {
        KeysAppend(acc, [m]);
        assert Keys([m]) == [m.key];
        DistinctAppend(Keys(acc), m.key);
      }
      assert Collect(acc, ms) == Collect(acc + [m], ms[1..]) by {
        PutAppends(acc, m.key, m.value);
      }
      assert (acc + [m]) + ms[1..] == acc + ms;
      CollectDistinct(acc + [m], ms[1..]);
    } else {
      assert acc + ms == acc;
    }
  }

  /** Parsing an object whose names are already distinct gives back the same member list. */
  lemma FromMembersUnique(ms: seq<Member>)
    requires UniqueKeys(ms)
    ensures FromMembers(ms) == ms
  {
    assert [] + ms == ms;
    CollectDistinct([], ms);
  }
}
