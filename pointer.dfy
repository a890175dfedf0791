/**
 * JSON Pointer (RFC 6901, sections 3 and 4) as getEncryptedPaths applies it through
 * `jsonpointer.get` and `jsonpointer.set`: the pointer is split at `/`, its first
 * segment must be empty, `~1` and `~0` in each token are decoded, and each token
 * selects an own member of an object or a canonically numbered element of an array
 * (properties a JavaScript object inherits are not modelled).
 */
module Pointer {
  import opened Wrappers
  import opened Json
  import opened Decimal
  import opened Strings

  /** `s.split('/')`: the pieces between the slashes, none of which holds a slash. */
  function Split(s: string): (parts: seq<string>)
    ensures |parts| >= 1
    ensures forall i :: 0 <= i < |parts| ==> '/' !in parts[i]
  {
    if s == [] then [[]]
    else if s[0] == '/' then [[]] + Split(s[1..])
    else
      var rest := Split(s[1..]);
      [[s[0]] + rest[0]] + rest[1..]
  }

  /** Decodes one reference token: `~1` becomes `/` and `~0` becomes `~`, left to right. */
  function Untilde(t: string): (r: string)
    ensures '~' !in t ==> r == t
  {
    if StartsWith(t, "~1") then "/" + Untilde(t[2..])
    else if StartsWith(t, "~0") then
      assert t[0] == t[..2][0] == '~';
      "~" + Untilde(t[2..])
    else if t == [] then []
    else [t[0]] + Untilde(t[1..])
  }

  /**
   * The token list of a pointer, or None where the library throws
   * "Invalid JSON pointer." (a non-empty pointer that does not start with `/`).
   * The empty pointer designates the whole document.
   */
  function Compile(pointer: string): (r: Option<seq<string>>)
    ensures r.None? <==> pointer != [] && pointer[0] != '/'
  {
    var parts := Split(pointer);
    if parts[0] != [] then None
    else Some(seq(|parts| - 1, i requires 0 <= i < |parts| - 1 => Untilde(parts[i + 1])))
  }

  /** The node a token selects below `j`: an own member, or an element at a canonical index. */
  function Child(j: Json, t: string): (r: Option<Json>)
    ensures j.JObj? ==> (r.Some? <==> t in Keys(j.members))
    ensures j.JArr? ==> (r.Some? <==> ParseIndex(t).Some? && ParseIndex(t).value < |j.items|)
    ensures j.JArr? && r.Some? ==> r.value == j.items[ParseIndex(t).value]
    ensures !j.JObj? && !j.JArr? ==> r.None?
  {
    match j
    case JObj(ms) => Lookup(ms, t)
    case JArr(a) =>
      (match ParseIndex(t)
       case Some(i) => if i < |a| then Some(a[i]) else None
       case None => None)
    case _ => None
  }

  /**
   * `jsonpointer.get`: follows the tokens from `doc`; a missing member, an index
   * out of range or a step into a value that is not an object or array gives
   * `undefined` (None).
   */
  function Get(doc: Json, ts: seq<string>): (r: Option<Json>)
    ensures ts == [] ==> r == Some(doc)
    ensures ts != [] && !doc.JObj? && !doc.JArr? ==> r.None?
    decreases |ts|
  {
    if ts == [] then Some(doc)
    else
      match Child(doc, ts[0])
      case None => None
      case Some(c) => Get(c, ts[1..])
  }

  /**
   * `jsonpointer.set` on a location that exists: the node at `ts` is replaced by
   * `x` and every object and array on the way is rebuilt around it.
   */
  function Set(doc: Json, ts: seq<string>, x: Json): (r: Json)
    requires Get(doc, ts).Some?
    ensures Get(r, ts) == Some(x)
    decreases |ts|
  {
    if ts == [] then x
    else
      assert Child(doc, ts[0]).Some?;
      if doc.JObj? then
        var c := Lookup(doc.members, ts[0]).value;
        JObj(Put(doc.members, ts[0], Set(c, ts[1..], x)))
      else
        assert doc.JArr?;
        var i := ParseIndex(ts[0]).value;
        JArr(doc.items[i := Set(doc.items[i], ts[1..], x)])
  }

  /** Overwriting a node with the value it already has leaves the document as it was. */
  lemma {:induction false} SetSame(doc: Json, ts: seq<string>)
    requires Get(doc, ts).Some?
    ensures Set(doc, ts, Get(doc, ts).value) == doc
    decreases |ts|
  {
    if ts != [] {
      var v := Get(doc, ts).value;
      var c := Child(doc, ts[0]).value;
      assert Get(c, ts[1..]) == Some(v);
      SetSame(c, ts[1..]);
      if doc.JObj? {
        PutSame(doc.members, ts[0], c);
      } else {
        var i := ParseIndex(ts[0]).value;
        assert doc.items[i := c] == doc.items;
      }
    }
  }

  /** After a write at `ts`, reading below `ts` reads inside the written value. */
  lemma {:induction false} GetAfterSet(doc: Json, ts: seq<string>, x: Json, us: seq<string>)
    requires Get(doc, ts).Some?
    ensures Get(Set(doc, ts, x), ts + us) == Get(x, us)
    decreases |ts|
  {
    if ts != [] {
      var c := Child(doc, ts[0]).value;
      var r := Set(doc, ts, x);
      assert Child(r, ts[0]) == Some(Set(c, ts[1..], x));
      assert (ts + us)[0] == ts[0] && (ts + us)[1..] == ts[1..] + us;
      GetAfterSet(c, ts[1..], x, us);
    } else {
      assert ts + us == us;
    }
  }

  /** Two canonical index tokens that differ name different elements. */
  lemma ParseIndexInjective(t: string, u: string)
    requires ParseIndex(t).Some? && ParseIndex(t) == ParseIndex(u)
    ensures t == u
  {
  }

  /** A write at `ts` leaves every location that is neither above nor below `ts` as it was. */
  lemma {:induction false} GetAfterSetElsewhere(doc: Json, ts: seq<string>, x: Json, us: seq<string>)
    requires Get(doc, ts).Some?
    requires !(ts <= us) && !(us <= ts)
    ensures Get(Set(doc, ts, x), us) == Get(doc, us)
    decreases |ts|
  {
    assert ts != [] && us != [];
    var r := Set(doc, ts, x);
    var c := Child(doc, ts[0]).value;
    if ts[0] == us[0] {
      assert Child(r, ts[0]) == Some(Set(c, ts[1..], x));
      assert !(ts[1..] <= us[1..]) && !(us[1..] <= ts[1..]) by {
        assert ts == [ts[0]] + ts[1..] && us == [us[0]] + us[1..];
      }
      GetAfterSetElsewhere(c, ts[1..], x, us[1..]);
    } else {
      ChildAfterSetElsewhere(doc, ts, x, us[0]);
    }
  }

  /** A write below one token leaves the node another token selects as it was. */
  lemma ChildAfterSetElsewhere(doc: Json, ts: seq<string>, x: Json, t: string)
    requires ts != [] && Get(doc, ts).Some? && t != ts[0]
    ensures Child(Set(doc, ts, x), t) == Child(doc, t)
  {
    assert Child(doc, ts[0]).Some?;
    if doc.JArr? {
      var i := ParseIndex(ts[0]).value;
      if ParseIndex(t).Some? {
        assert ParseIndex(t).value != i by {
          assert NatToString(ParseIndex(t).value) == t;
          assert NatToString(i) == ts[0];
        }
      }
    }
  }

  /** RFC 6901 section 3: `~` is written `~0` and `/` is written `~1` inside a token. */
  function EscapeToken(t: string): (e: string)
    ensures '/' !in e
  {
    if t == [] then []
    else if t[0] == '~' then "~0" + EscapeToken(t[1..])
    else if t[0] == '/' then "~1" + EscapeToken(t[1..])
    else [t[0]] + EscapeToken(t[1..])
  }

  /** The pointer text that designates the token list `ts`. */
  function Format(ts: seq<string>): (p: string)
  {
    if ts == [] then "" else "/" + EscapeToken(ts[0]) + Format(ts[1..])
  }

  lemma {:induction false} UntildeEscapeToken(t: string)
    ensures Untilde(EscapeToken(t)) == t
  {
    if t != [] {
      var e := EscapeToken(t);
      UntildeEscapeToken(t[1..]);
      if t[0] == '~' {
        assert e[2..] == EscapeToken(t[1..]);
      } else if t[0] == '/' {
        assert e[2..] == EscapeToken(t[1..]);
      } else {
        assert e[1..] == EscapeToken(t[1..]);
        StartsWithUncons(e, "~1");
        StartsWithUncons(e, "~0");
      }
      assert t == [t[0]] + t[1..];
    }
  }

  lemma {:induction false} SplitNoSlash(e: string)
    requires '/' !in e
    ensures Split(e) == [e]
  {
    if e != [] {
      SplitNoSlash(e[1..]);
      assert e == [e[0]] + e[1..];
    }
  }

  lemma {:induction false} SplitAtSlash(e: string, rest: string)
    requires '/' !in e
    ensures Split(e + "/" + rest) == [e] + Split(rest)
  {
    if e == [] {
      assert e + "/" + rest == "/" + rest;
      assert ("/" + rest)[1..] == rest;
    } else {
      var s := e + "/" + rest;
      assert s[1..] == e[1..] + "/" + rest;
      SplitAtSlash(e[1..], rest);
      assert e == [e[0]] + e[1..];
    }
  }

  lemma {:induction false} SplitFormat(e: string, ts: seq<string>)
    requires '/' !in e
    decreases |ts|
    ensures Split(e + Format(ts)) == [e] + seq(|ts|, i requires 0 <= i < |ts| => EscapeToken(ts[i]))
  {
    if ts == [] {
      assert e + Format(ts) == e;
      SplitNoSlash(e);
    } else {
      var head := EscapeToken(ts[0]);
      assert e + Format(ts) == e + "/" + (head + Format(ts[1..]));
      SplitAtSlash(e, head + Format(ts[1..]));
      SplitFormat(head, ts[1..]);
    }
  }

  /** Every token list is compiled back from its pointer text (RFC 6901 round trip). */
  lemma CompileFormat(ts: seq<string>)
    ensures Compile(Format(ts)) == Some(ts)
  {
    assert "" + Format(ts) == Format(ts);
    SplitFormat("", ts);
    var parts := Split(Format(ts));
    assert parts[0] == [] && |parts| == |ts| + 1;
    var r := Compile(Format(ts)).value;
    assert |r| == |ts|;
    forall i | 0 <= i < |ts| ensures r[i] == ts[i] {
      assert parts[i + 1] == EscapeToken(ts[i]);
      UntildeEscapeToken(ts[i]);
    }
    assert r == ts;
  }
}
