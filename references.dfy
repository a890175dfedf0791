/**
 * Reference markers and their resolution (lib/service/encryption.service.js,
 * getEncryptedPaths line 48 and resolveObject). A marker is the one-member object
 * `{"$ref": "#/encrypted/<n>"}`; resolving a document replaces every marker whose
 * index names a decrypted value by that value, itself resolved.
 */
module References {
  import opened Wrappers
  import opened Json
  import opened Decimal
  import opened Strings
  import opened Escaping

  const EncryptedPrefix := "#/encrypted/"

  /** The marker left at the place of the n-th extracted value. */
  function Marker(n: nat): Json
  {
    JObj([Member("$ref", JStr(EncryptedPrefix + NatToString(n)))])
  }

  /** The index a node refers to, when the node is exactly a marker. */
  function MarkerIndex(j: Json): (r: Option<nat>)
    ensures r.Some? ==> j == Marker(r.value)
  {
    match j
    case JObj(ms) =>
      if |ms| == 1 && ms[0].key == "$ref" && ms[0].value.JStr? && StartsWith(ms[0].value.s, EncryptedPrefix) then
        var s := ms[0].value.s;
        var r := ParseIndex(s[|EncryptedPrefix|..]);
        assert r.Some? ==> s == EncryptedPrefix + NatToString(r.value) by {
          assert s == s[..|EncryptedPrefix|] + s[|EncryptedPrefix|..];
        }
        assert ms == [ms[0]];
        r
      else None
    case _ => None
  }

  /** Every marker is recognised as such, with the index it was made with. */
  lemma MarkerIndexOfMarker(n: nat)
    ensures MarkerIndex(Marker(n)) == Some(n)
  {
    var s := EncryptedPrefix + NatToString(n);
    assert s[..|EncryptedPrefix|] == EncryptedPrefix;
    assert s[|EncryptedPrefix|..] == NatToString(n);
    ParseNatToString(n);
  }

  /**
   * Local reference resolution: a marker for index n < |vals| becomes `vals[n]`,
   * whose own markers are resolved against the values before it; all other nodes
   * are kept, with their children resolved.
   */
  function Resolve(j: Json, vals: seq<Json>): Json
    decreases |vals|, j
  {
    match MarkerIndex(j)
    case Some(n) => if n < |vals| then Resolve(vals[n], vals[..n]) else j
    case None =>
      match j
      case JArr(a) => JArr(seq(|a|, i requires 0 <= i < |a| => Resolve(a[i], vals)))
      case JObj(ms) => JObj(seq(|ms|, i requires 0 <= i < |ms| => Member(ms[i].key, Resolve(ms[i].value, vals))))
      case _ => j
  }

  /** Every marker inside `j` refers to an index below `n`. */
  predicate MarkersBelow(j: Json, n: nat)
  {
    match MarkerIndex(j)
    case Some(k) => k < n
    case None =>
      match j
      case JArr(a) => forall i :: 0 <= i < |a| ==> MarkersBelow(a[i], n)
      case JObj(ms) => forall i :: 0 <= i < |ms| ==> MarkersBelow(ms[i].value, n)
      case _ => true
  }

  /** A document without `$ref` members holds no marker, so resolution leaves it alone. */
  lemma {:induction false} ResolveNoRefKeys(j: Json, vals: seq<Json>)
    requires NoRefKeys(j)
    ensures MarkersBelow(j, 0) && Resolve(j, vals) == j
  {
    if j.JObj? {
      KeysAt(j.members);
    }
    assert MarkerIndex(j).None?;
    match j
    case JArr(a) =>
      forall i | 0 <= i < |a| ensures MarkersBelow(a[i], 0) && Resolve(a[i], vals) == a[i] {
        ResolveNoRefKeys(a[i], vals);
      }
      assert Resolve(j, vals).items == a;
    case JObj(ms) =>
      forall i | 0 <= i < |ms| ensures MarkersBelow(ms[i].value, 0) && Resolve(ms[i].value, vals) == ms[i].value {
        ResolveNoRefKeys(ms[i].value, vals);
      }
      assert Resolve(j, vals).members == ms;
    case _ =>
  }

  /** Values appended after the ones a document refers to do not change its resolution. */
  lemma {:induction false} ResolveExtend(j: Json, vals: seq<Json>, more: seq<Json>)
    requires MarkersBelow(j, |vals|)
    ensures Resolve(j, vals + more) == Resolve(j, vals)
  {
    match MarkerIndex(j)
    case Some(n) =>
      assert (vals + more)[..n] == vals[..n];
    case None =>
      match j
      case JArr(a) =>
        forall i | 0 <= i < |a| ensures Resolve(a[i], vals + more) == Resolve(a[i], vals) {
          ResolveExtend(a[i], vals, more);
        }
        assert Resolve(j, vals + more).items == Resolve(j, vals).items;
      case JObj(ms) =>
        forall i | 0 <= i < |ms| ensures Resolve(ms[i].value, vals + more) == Resolve(ms[i].value, vals) {
          ResolveExtend(ms[i].value, vals, more);
        }
        assert Resolve(j, vals + more).members == Resolve(j, vals).members;
      case _ =>
  }

  lemma {:induction false} MarkersBelowMonotone(j: Json, n: nat, m: nat)
    requires MarkersBelow(j, n) && n <= m
    ensures MarkersBelow(j, m)
  {
    if MarkerIndex(j).None? {
      match j
      case JArr(a) =>
        forall i | 0 <= i < |a| ensures MarkersBelow(a[i], m) {
          MarkersBelowMonotone(a[i], n, m);
        }
      case JObj(ms) =>
        forall i | 0 <= i < |ms| ensures MarkersBelow(ms[i].value, m) {
          MarkersBelowMonotone(ms[i].value, n, m);
        }
      case _ =>
    }
  }
}
