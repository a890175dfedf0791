/**
 * The `$ref` escaping applied to a document before encryption and undone after
 * decryption (lib/service/encryption.service.js, getReplacedObject and resolveObject).
 * The source rewrites the JSON text with a global regular-expression replace; since
 * `$`, `r`, `e` and `f` are never escaped by `JSON.stringify`, that is the same as
 * rewriting every member name and every string value on its own, which is what
 * this module does.
 */
module Escaping {
  import opened Json
  import opened Strings

  /** `s.replace(/\$ref/g, '$$ref')`: leftmost, non-overlapping occurrences, one `$` added to each. */
  function EscapeRefs(s: string): (r: string)
    ensures '$' !in s ==> r == s
  {
    if StartsWith(s, "$ref") then "$$ref" + EscapeRefs(s[4..])
    else if s == [] then []
    else [s[0]] + EscapeRefs(s[1..])
  }

  /** `s.replace(/\$\$ref/g, '$ref')`: one `$` removed from each occurrence of `$$ref`. */
  function UnescapeRefs(s: string): (r: string)
    ensures '$' !in s ==> r == s
  {
    if StartsWith(s, "$$ref") then "$ref" + UnescapeRefs(s[5..])
    else if s == [] then []
    else [s[0]] + UnescapeRefs(s[1..])
  }

  /** Escaping leaves alone any prefix made without `$`. */
  lemma {:induction false} EscapeKeepsDollarFreePrefix(t: string, p: string)
    requires '$' !in p
    ensures StartsWith(EscapeRefs(t), p) <==> StartsWith(t, p)
    decreases p
  {
    if p != [] && t != [] {
      if StartsWith(t, "$ref") {
        assert EscapeRefs(t)[0] == '$' && t[0] == '$' && p[0] != '$';
      } else {
        var e := EscapeRefs(t);
        assert e == [t[0]] + EscapeRefs(t[1..]);
        EscapeKeepsDollarFreePrefix(t[1..], p[1..]);
        assert StartsWith(e, p) <==> e[0] == p[0] && StartsWith(e[1..], p[1..]);
        assert StartsWith(t, p) <==> t[0] == p[0] && StartsWith(t[1..], p[1..]);
      }
    }
  }

  /** An escaped string never begins with `$ref`: every `$ref` has become `$$ref`. */
  lemma EscapedNeverStartsWithRef(t: string)
    ensures !StartsWith(EscapeRefs(t), "$ref")
  {
    var e := EscapeRefs(t);
    if StartsWith(t, "$ref") {
      assert e[1] == '$';
    } else if t != [] {
      assert e == [t[0]] + EscapeRefs(t[1..]);
      EscapeKeepsDollarFreePrefix(t[1..], "ref");
      StartsWithUncons(e, "$ref");
      StartsWithUncons(t, "$ref");
    }
  }

  /** Un-escaping undoes escaping on every string. */
  lemma {:induction false} UnescapeEscapeRefs(s: string)
    ensures UnescapeRefs(EscapeRefs(s)) == s
  {
    if StartsWith(s, "$ref") {
      var e := EscapeRefs(s);
      assert e[5..] == EscapeRefs(s[4..]);
      UnescapeEscapeRefs(s[4..]);
      assert s == "$ref" + s[4..];
    } else if s != [] {
      var e := EscapeRefs(s);
      assert e == [s[0]] + EscapeRefs(s[1..]);
      assert !StartsWith(e, "$$ref") by {
        EscapedNeverStartsWithRef(s[1..]);
        StartsWithUncons(e, "$$ref");
      }
      UnescapeEscapeRefs(s[1..]);
      assert e[1..] == EscapeRefs(s[1..]);
      assert s == [s[0]] + s[1..];
    }
  }

  /** Escaping is one-to-one, so it never makes two member names collide. */
  lemma EscapeRefsInjective(a: string, b: string)
    requires EscapeRefs(a) == EscapeRefs(b)
    ensures a == b
  {
    UnescapeEscapeRefs(a);
    UnescapeEscapeRefs(b);
  }

  /** getReplacedObject: the working copy with every member name and string value escaped. */
  function EscapeJson(j: Json): Json
  {
    match j
    case JStr(s) => JStr(EscapeRefs(s))
    case JArr(a) => JArr(seq(|a|, i requires 0 <= i < |a| => EscapeJson(a[i])))
    case JObj(ms) => JObj(seq(|ms|, i requires 0 <= i < |ms| => Member(EscapeRefs(ms[i].key), EscapeJson(ms[i].value))))
    case _ => j
  }

  /**
   * The un-escaping half of resolveObject: every member name and string value
   * un-escaped, objects rebuilt as `JSON.parse` rebuilds them (a name that now
   * occurs twice keeps its last value).
   */
  function UnescapeJson(j: Json): Json
  {
    match j
    case JStr(s) => JStr(UnescapeRefs(s))
    case JArr(a) => JArr(seq(|a|, i requires 0 <= i < |a| => UnescapeJson(a[i])))
    case JObj(ms) => JObj(FromMembers(seq(|ms|, i requires 0 <= i < |ms| => Member(UnescapeRefs(ms[i].key), UnescapeJson(ms[i].value)))))
    case _ => j
  }

  /** No object anywhere in `j` has a member named `$ref`. */
  predicate NoRefKeys(j: Json) {
    match j
    case JArr(a) => forall i :: 0 <= i < |a| ==> NoRefKeys(a[i])
    case JObj(ms) => "$ref" !in Keys(ms) && forall i :: 0 <= i < |ms| ==> NoRefKeys(ms[i].value)
    case _ => true
  }

  /** After escaping, no literal `$ref` member is left to be mistaken for a marker. */
  lemma {:induction false} EscapedHasNoRefKeys(j: Json)
    ensures NoRefKeys(EscapeJson(j))
  {
    match j
    case JArr(a) =>
      forall i | 0 <= i < |a| ensures NoRefKeys(EscapeJson(j).items[i]) {
        EscapedHasNoRefKeys(a[i]);
      }
    case JObj(ms) =>
      var ems := EscapeJson(j).members;
      forall i | 0 <= i < |ms| ensures ems[i].key != "$ref" && NoRefKeys(ems[i].value) {
        EscapedNeverStartsWithRef(ms[i].key);
        EscapedHasNoRefKeys(ms[i].value);
      }
      KeysAt(ems);
    case _ =>
  }

  /** Escaping then un-escaping gives back any parsed document. */
  lemma {:induction false} UnescapeEscapeJson(j: Json)
    requires WellFormed(j)
    ensures UnescapeJson(EscapeJson(j)) == j
  {
    match j
    case JStr(s) => UnescapeEscapeRefs(s);
    case JArr(a) =>
      var r := UnescapeJson(EscapeJson(j)).items;
      forall i | 0 <= i < |a| ensures r[i] == a[i] {
        UnescapeEscapeJson(a[i]);
      }
    case JObj(ms) =>
      var ems := EscapeJson(j).members;
      var back := seq(|ems|, i requires 0 <= i < |ems| => Member(UnescapeRefs(ems[i].key), UnescapeJson(ems[i].value)));
      forall i | 0 <= i < |ms| ensures back[i] == ms[i] {
        UnescapeEscapeRefs(ms[i].key);
        UnescapeEscapeJson(ms[i].value);
      }
      assert back == ms;
      FromMembersUnique(ms);
    case _ =>
  }
}
