/**
 * The path extractor: getEncryptedPaths (lib/service/encryption.service.js:36-54).
 * Each pointer is evaluated against the document as already marked by the pointers
 * before it; the value found is appended to the values to encrypt and its node is
 * overwritten with the marker for its position.
 */
module Extraction {
  import opened Wrappers
  import opened Json
  import opened Pointer
  import opened References
  import opened Errors
  import opened Decimal

  const BadPathPrefix := "A path to encrypt was provided that could not be found: "

  function BadPathMessage(path: string): string
  {
    BadPathPrefix + path
  }

  predicate IsContainer(j: Json) {
    j.JObj? || j.JArr?
  }

  /**
   * One pass of the loop body (lines 41-50) with `n` values already extracted:
   * jsonpointer.get, the falsy check, then jsonpointer.set of marker n.
   */
  function Step(doc: Json, path: string, n: nat): (r: Result<(Json, Json), Error>)
    ensures r.Ok? <==> IsContainer(doc) && Compile(path).Some? && TruthyOpt(Get(doc, Compile(path).value))
    ensures r.Ok? ==> var (marked, value) := r.value;
      && Get(doc, Compile(path).value) == Some(value)
      && Get(marked, Compile(path).value) == Some(Marker(n))
      && IsContainer(marked)
    ensures IsContainer(doc) && Compile(path).Some? && r.Err? ==> r.error == EncryptionBadPath(BadPathMessage(path))
    ensures !IsContainer(doc) ==> r == Err(InvalidInputObject)
  {
    if !IsContainer(doc) then Err(InvalidInputObject)
    else
      match Compile(path)
      case None => Err(InvalidPointer)
      case Some(ts) =>
        var found := Get(doc, ts);
        if !TruthyOpt(found) then Err(EncryptionBadPath(BadPathMessage(path)))
        else Ok((Set(doc, ts, Marker(n)), found.value))
  }

  /**
   * The whole loop as a function: the marked document and the values, continuing
   * from the values `vals` already extracted, or the first error.
   */
  function Extract(doc: Json, paths: seq<string>, vals: seq<Json>): Result<(Json, seq<Json>), Error>
    decreases |paths|
  {
    if paths == [] then Ok((doc, vals))
    else
      match Step(doc, paths[0], |vals|)
      case Err(e) => Err(e)
      case Ok((marked, value)) => Extract(marked, paths[1..], vals + [value])
  }

  /**
   * getEncryptedPaths: walks the pointers in order, overwriting nodes of the working
   * copy in place and collecting the values found.
   */
  method GetEncryptedPaths(inputObject: JsonRef, pathsToEncrypt: seq<string>) returns (r: Result<seq<Json>, Error>)
    modifies inputObject
    ensures var expected := Extract(old(inputObject.value), pathsToEncrypt, []);
      && (r.Ok? <==> expected.Ok?)
      && (r.Err? ==> r.error == expected.error)
      && (r.Ok? ==> r.value == expected.value.1 && inputObject.value == expected.value.0)
  {
    ghost var expected := Extract(inputObject.value, pathsToEncrypt, []);
    var valuesToEncrypt: seq<Json> := [];
    var encryptedFieldCount := 0;
    var pathIndex := 0;
    while pathIndex < |pathsToEncrypt|
      invariant pathIndex <= |pathsToEncrypt|
      invariant encryptedFieldCount == |valuesToEncrypt| == pathIndex
      invariant Extract(inputObject.value, pathsToEncrypt[pathIndex..], valuesToEncrypt) == expected
    {
      var path := pathsToEncrypt[pathIndex];
      assert pathsToEncrypt[pathIndex..][0] == path;
      assert pathsToEncrypt[pathIndex..][1..] == pathsToEncrypt[pathIndex + 1..];
      if !IsContainer(inputObject.value) {
        return Err(InvalidInputObject);
      }
      var tokens := Compile(path);
      if tokens.None? {
        return Err(InvalidPointer);
      }
      var value := Get(inputObject.value, tokens.value);
      if !TruthyOpt(value) {
        return Err(EncryptionBadPath(BadPathMessage(path)));
      }
      valuesToEncrypt := valuesToEncrypt + [value.value];
      inputObject.value := Set(inputObject.value, tokens.value, Marker(encryptedFieldCount));
      encryptedFieldCount := encryptedFieldCount + 1;
      pathIndex := pathIndex + 1;
    }
    return Ok(valuesToEncrypt);
  }

  /** Extraction yields exactly one value per pointer, after those already extracted. */
  lemma {:induction false} ExtractLength(doc: Json, paths: seq<string>, vals: seq<Json>)
    requires Extract(doc, paths, vals).Ok?
    ensures |Extract(doc, paths, vals).value.1| == |vals| + |paths|
    ensures vals <= Extract(doc, paths, vals).value.1
    decreases |paths|
  {
    if paths != [] {
      var (marked, value) := Step(doc, paths[0], |vals|).value;
      ExtractLength(marked, paths[1..], vals + [value]);
    }
  }

  /** Running two lists of pointers one after the other is running their concatenation. */
  lemma {:induction false} ExtractAppend(doc: Json, ps: seq<string>, qs: seq<string>, vals: seq<Json>)
    ensures Extract(doc, ps + qs, vals) ==
      match Extract(doc, ps, vals)
      case Err(e) => Err(e)
      case Ok((marked, vs)) => Extract(marked, qs, vs)
    decreases |ps|
  {
    if ps == [] {
      assert ps + qs == qs;
    } else {
      assert (ps + qs)[0] == ps[0] && (ps + qs)[1..] == ps[1..] + qs;
      match Step(doc, ps[0], |vals|)
      case Err(e) =>
      case Ok((marked, value)) => ExtractAppend(marked, ps[1..], qs, vals + [value]);
    }
  }

  /**
   * A pointer into a subtree that an earlier pointer has already replaced finds only
   * the marker, which has no such member: the extraction fails with BadPath naming
   * the later pointer.
   */
  lemma IntoReplacedSubtree(doc: Json, p: string, q: string, t: string, rest: seq<string>, vals: seq<Json>)
    requires Step(doc, p, |vals|).Ok?
    requires Compile(q) == Some(Compile(p).value + [t] + rest) && t != "$ref"
    ensures Extract(doc, [p, q], vals) == Err(EncryptionBadPath(BadPathMessage(q)))
  {
    var ts := Compile(p).value;
    var (marked, value) := Step(doc, p, |vals|).value;
    GetAfterSet(doc, ts, Marker(|vals|), [t] + rest);
    assert ts + ([t] + rest) == ts + [t] + rest;
    assert Get(marked, Compile(q).value) == None;
    assert [p, q][1..] == [q];
    assert Extract(doc, [p, q], vals) == Extract(marked, [q], vals + [value]);
  }

  // ----- Where the markers end up when the pointers do not overlap -----

  /** No token list is a prefix of another (no pointer lies inside or above another). */
  predicate Disjoint(tss: seq<seq<string>>) {
    forall i, j :: 0 <= i < |tss| && 0 <= j < |tss| && i != j ==> !(tss[i] <= tss[j])
  }

  /** Every pointer compiles; the token lists. */
  predicate AllCompile(paths: seq<string>) {
    forall i :: 0 <= i < |paths| ==> Compile(paths[i]).Some?
  }

  function TokenLists(paths: seq<string>): (tss: seq<seq<string>>)
    requires AllCompile(paths)
    ensures |tss| == |paths|
  {
    seq(|paths|, i requires 0 <= i < |paths| => Compile(paths[i]).value)
  }

  /** Locations outside every extracted pointer read the same before and after extraction. */
  lemma {:induction false} ExtractKeepsOthers(doc: Json, paths: seq<string>, vals: seq<Json>, us: seq<string>)
    requires Extract(doc, paths, vals).Ok? && AllCompile(paths)
    requires forall i :: 0 <= i < |paths| ==> !(Compile(paths[i]).value <= us) && !(us <= Compile(paths[i]).value)
    ensures Get(Extract(doc, paths, vals).value.0, us) == Get(doc, us)
    decreases |paths|
  {
    if paths != [] {
      var (marked, value) := Step(doc, paths[0], |vals|).value;
      GetAfterSetElsewhere(doc, Compile(paths[0]).value, Marker(|vals|), us);
      ExtractKeepsOthers(marked, paths[1..], vals + [value], us);
    }
  }

  /** After the first step, the remaining pointers read the same as in the original. */
  lemma StepKeepsTail(doc: Json, paths: seq<string>, n: nat)
    requires paths != [] && AllCompile(paths) && Disjoint(TokenLists(paths))
    requires Step(doc, paths[0], n).Ok?
    ensures var marked := Step(doc, paths[0], n).value.0;
      forall i :: 1 <= i < |paths| ==> Get(marked, Compile(paths[i]).value) == Get(doc, Compile(paths[i]).value)
    ensures AllCompile(paths[1..]) && Disjoint(TokenLists(paths[1..]))
    ensures forall i :: 0 <= i < |paths[1..]| ==>
      !(Compile(paths[1..][i]).value <= Compile(paths[0]).value) && !(Compile(paths[0]).value <= Compile(paths[1..][i]).value)
  {
    var tss := TokenLists(paths);
    assert TokenLists(paths[1..]) == tss[1..];
    forall i | 1 <= i < |paths|
      ensures Get(Step(doc, paths[0], n).value.0, Compile(paths[i]).value) == Get(doc, Compile(paths[i]).value)
    {
      assert tss[i] == Compile(paths[i]).value && tss[0] == Compile(paths[0]).value;
      GetAfterSetElsewhere(doc, tss[0], Marker(n), tss[i]);
    }
    forall i | 0 <= i < |paths[1..]|
      ensures !(Compile(paths[1..][i]).value <= Compile(paths[0]).value) && !(Compile(paths[0]).value <= Compile(paths[1..][i]).value)
    {
      assert tss[i + 1] == Compile(paths[1..][i]).value;
    }
  }

  /** Every pointer finds a truthy value in `doc`. */
  predicate AllFound(doc: Json, paths: seq<string>)
    requires AllCompile(paths)
  {
    forall i :: 0 <= i < |paths| ==> TruthyOpt(Get(doc, Compile(paths[i]).value))
  }

  lemma AllFoundUncons(doc: Json, marked: Json, paths: seq<string>)
    requires paths != [] && AllCompile(paths)
    requires forall i :: 1 <= i < |paths| ==> Get(marked, Compile(paths[i]).value) == Get(doc, Compile(paths[i]).value)
    ensures AllCompile(paths[1..])
    ensures AllFound(doc, paths) <==> TruthyOpt(Get(doc, Compile(paths[0]).value)) && AllFound(marked, paths[1..])
  {
    assert forall i :: 0 <= i < |paths[1..]| ==> paths[1..][i] == paths[i + 1];
    if TruthyOpt(Get(doc, Compile(paths[0]).value)) && AllFound(marked, paths[1..]) {
      forall i | 0 <= i < |paths| ensures TruthyOpt(Get(doc, Compile(paths[i]).value)) {
        if i > 0 {
          assert paths[1..][i - 1] == paths[i];
        }
      }
    }
  }

  /**
   * With pointers that do not overlap, extraction succeeds exactly when every pointer
   * finds a truthy value in the original document.
   */
  lemma {:induction false} ExtractDisjointSucceeds(doc: Json, paths: seq<string>, vals: seq<Json>)
    requires IsContainer(doc) && AllCompile(paths) && Disjoint(TokenLists(paths))
    ensures Extract(doc, paths, vals).Ok? <==> AllFound(doc, paths)
    decreases |paths|
  {
    if paths != [] {
      var r := Step(doc, paths[0], |vals|);
      if r.Ok? {
        var (marked, value) := r.value;
        StepKeepsTail(doc, paths, |vals|);
        AllFoundUncons(doc, marked, paths);
        ExtractDisjointSucceeds(marked, paths[1..], vals + [value]);
      } else {
        assert !TruthyOpt(Get(doc, Compile(paths[0]).value));
      }
    }
  }

  /** Pointer i of `paths` finds value `offset + i` of `vs`. */
  predicate ValuesAt(doc: Json, paths: seq<string>, vs: seq<Json>, offset: nat)
    requires AllCompile(paths)
  {
    offset + |paths| <= |vs| && forall i :: 0 <= i < |paths| ==> Get(doc, Compile(paths[i]).value) == Some(vs[offset + i])
  }

  /** Pointer i of `paths` finds marker `offset + i`. */
  predicate MarkersAt(doc: Json, paths: seq<string>, offset: nat)
    requires AllCompile(paths)
  {
    forall i :: 0 <= i < |paths| ==> Get(doc, Compile(paths[i]).value) == Some(Marker(offset + i))
  }

  lemma ConsPlaces(doc: Json, marked: Json, final: Json, paths: seq<string>, vs: seq<Json>, offset: nat)
    requires paths != [] && AllCompile(paths) && offset < |vs|
    requires Get(doc, Compile(paths[0]).value) == Some(vs[offset])
    requires Get(final, Compile(paths[0]).value) == Some(Marker(offset))
    requires forall i :: 1 <= i < |paths| ==> Get(marked, Compile(paths[i]).value) == Get(doc, Compile(paths[i]).value)
    requires AllCompile(paths[1..]) && ValuesAt(marked, paths[1..], vs, offset + 1) && MarkersAt(final, paths[1..], offset + 1)
    ensures ValuesAt(doc, paths, vs, offset) && MarkersAt(final, paths, offset)
  {
    forall i | 1 <= i < |paths|
      ensures Get(doc, Compile(paths[i]).value) == Some(vs[offset + i])
      ensures Get(final, Compile(paths[i]).value) == Some(Marker(offset + i))
    {
      assert paths[1..][i - 1] == paths[i];
    }
  }

  /**
   * With pointers that do not overlap and a successful extraction, value i is the one
   * found at pointer i of the original document, and the marked document holds
   * marker i at pointer i.
   */
  lemma {:induction false} ExtractDisjointPlaces(doc: Json, paths: seq<string>, vals: seq<Json>)
    requires AllCompile(paths) && Disjoint(TokenLists(paths)) && Extract(doc, paths, vals).Ok?
    ensures var (marked, vs) := Extract(doc, paths, vals).value;
      && |vs| == |vals| + |paths|
      && ValuesAt(doc, paths, vs, |vals|)
      && MarkersAt(marked, paths, |vals|)
    decreases |paths|
  {
    ExtractLength(doc, paths, vals);
    if paths != [] {
      var ts := Compile(paths[0]).value;
      var (marked, value) := Step(doc, paths[0], |vals|).value;
      var tail := paths[1..];
      var (final, vs) := Extract(doc, paths, vals).value;
      assert Extract(marked, tail, vals + [value]) == Extract(doc, paths, vals);
      StepKeepsTail(doc, paths, |vals|);
      ExtractDisjointPlaces(marked, tail, vals + [value]);
      ExtractLength(marked, tail, vals + [value]);
      assert vs[|vals|] == value;
      ExtractKeepsOthers(marked, tail, vals + [value], ts);
      ConsPlaces(doc, marked, final, paths, vs, |vals|);
    }
  }

  // ----- Resolving the markers gives back the document -----

  /** No pointer names a member called `$ref`, so none can walk into a marker. */
  predicate NoRefTokens(paths: seq<string>) {
    forall i :: 0 <= i < |paths| && Compile(paths[i]).Some? ==> "$ref" !in Compile(paths[i]).value
  }

  /** A marker has the single member `$ref`; no other token leads into it. */
  lemma ChildOfMarker(j: Json, t: string)
    requires MarkerIndex(j).Some? && Child(j, t).Some?
    ensures t == "$ref"
  {
    var ms := j.members;
    assert ms == [Member("$ref", ms[0].value)];
  }

  /** Replacing one member of an object keeps its resolution when the new member resolves the same. */
  lemma ResolveMemberUpdate(ms: seq<Member>, p: nat, inner: Json, vals: seq<Json>, v: Json)
    requires p < |ms| && ms[p].key != "$ref" && MarkersBelow(JObj(ms), |vals|)
    requires Resolve(inner, vals + [v]) == Resolve(ms[p].value, vals) && MarkersBelow(inner, |vals| + 1)
    ensures var ms' := ms[p := Member(ms[p].key, inner)];
      Resolve(JObj(ms'), vals + [v]) == Resolve(JObj(ms), vals) && MarkersBelow(JObj(ms'), |vals| + 1)
  {
    var ms' := ms[p := Member(ms[p].key, inner)];
    var n := |vals|;
    assert MarkerIndex(JObj(ms')).None? by {
      if |ms'| == 1 { assert ms'[0].key != "$ref"; }
    }
    assert MarkerIndex(JObj(ms)).None? by {
      if |ms| == 1 { assert ms[0].key != "$ref"; }
    }
    forall i | 0 <= i < |ms'|
      ensures Resolve(ms'[i].value, vals + [v]) == Resolve(ms[i].value, vals)
      ensures MarkersBelow(ms'[i].value, n + 1)
    {
      if i != p {
        ResolveExtend(ms[i].value, vals, [v]);
        MarkersBelowMonotone(ms[i].value, n, n + 1);
      }
    }
    assert Resolve(JObj(ms'), vals + [v]).members == Resolve(JObj(ms), vals).members;
  }

  /** Replacing one element of an array keeps its resolution when the new element resolves the same. */
  lemma ResolveItemUpdate(a: seq<Json>, k: nat, inner: Json, vals: seq<Json>, v: Json)
    requires k < |a| && MarkersBelow(JArr(a), |vals|)
    requires Resolve(inner, vals + [v]) == Resolve(a[k], vals) && MarkersBelow(inner, |vals| + 1)
    ensures Resolve(JArr(a[k := inner]), vals + [v]) == Resolve(JArr(a), vals) && MarkersBelow(JArr(a[k := inner]), |vals| + 1)
  {
    var a' := a[k := inner];
    var n := |vals|;
    forall i | 0 <= i < |a'|
      ensures Resolve(a'[i], vals + [v]) == Resolve(a[i], vals)
      ensures MarkersBelow(a'[i], n + 1)
    {
      if i != k {
        ResolveExtend(a[i], vals, [v]);
        MarkersBelowMonotone(a[i], n, n + 1);
      }
    }
    assert Resolve(JArr(a'), vals + [v]).items == Resolve(JArr(a), vals).items;
  }

  /** One extraction step keeps the resolved document unchanged. */
  lemma {:induction false} ResolveAfterMark(doc: Json, ts: seq<string>, vals: seq<Json>)
    requires Get(doc, ts).Some? && "$ref" !in ts && MarkersBelow(doc, |vals|)
    ensures var marked := Set(doc, ts, Marker(|vals|));
      && Resolve(marked, vals + [Get(doc, ts).value]) == Resolve(doc, vals)
      && MarkersBelow(marked, |vals| + 1)
    decreases |ts|
  {
    var n := |vals|;
    var v := Get(doc, ts).value;
    if ts == [] {
      MarkerIndexOfMarker(n);
      assert (vals + [v])[..n] == vals;
    } else {
      var t := ts[0];
      var c := Child(doc, t).value;
      assert Get(c, ts[1..]) == Some(v);
      assert "$ref" !in ts[1..];
      if MarkerIndex(doc).Some? {
        ChildOfMarker(doc, t);
      }
      assert MarkerIndex(doc).None?;
      ResolveAfterMark(c, ts[1..], vals);
      var inner := Set(c, ts[1..], Marker(n));
      if doc.JObj? {
        var ms := doc.members;
        var p := KeyIndex(ms, t);
        PutAt(ms, t, inner);
        assert MarkersBelow(ms[p].value, n);
        ResolveMemberUpdate(ms, p, inner, vals, v);
      } else {
        var k := ParseIndex(t).value;
        assert MarkersBelow(doc.items[k], n);
        ResolveItemUpdate(doc.items, k, inner, vals, v);
      }
    }
  }

  /**
   * Extraction loses nothing: resolving the markers of the marked document against
   * the extracted values gives back what resolving the starting document gave, and
   * every marker refers to an extracted value.
   */
  lemma {:induction false} ExtractResolves(doc: Json, paths: seq<string>, vals: seq<Json>)
    requires Extract(doc, paths, vals).Ok? && NoRefTokens(paths) && MarkersBelow(doc, |vals|)
    ensures var (marked, vs) := Extract(doc, paths, vals).value;
      Resolve(marked, vs) == Resolve(doc, vals) && MarkersBelow(marked, |vs|)
    decreases |paths|
  {
    if paths != [] {
      var ts := Compile(paths[0]).value;
      var (marked, value) := Step(doc, paths[0], |vals|).value;
      ResolveAfterMark(doc, ts, vals);
      assert NoRefTokens(paths[1..]) by {
        forall i | 0 <= i < |paths[1..]| ensures paths[1..][i] == paths[i + 1] {}
      }
      ExtractResolves(marked, paths[1..], vals + [value]);
    }
  }
}
