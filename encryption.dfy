/**
 * The encryption service (lib/service/encryption.service.js): selective-field
 * encryption of a JSON packet into the envelope `{version, plain, encrypted}` and
 * its inverse. The JWE sealing and opening, and the PKCS#1 to SubjectPublicKeyInfo
 * key conversion, are the parameters bundled in `Crypto`.
 */
module Encryption {
  import opened Wrappers
  import opened Json
  import opened Strings
  import opened Errors
  import opened Escaping
  import opened References
  import opened Extraction
  import opened Config

  const WrapperVersion := "2.0.0"

  /** The header prefix that marks a PKCS#1 RSAPublicKey PEM. */
  const Pkcs1Header := "-----BEGIN RSA PUBLIC KEY----"

  /**
   * The cryptography the service delegates: `toSpki` re-exports a PKCS#1 PEM as
   * SubjectPublicKeyInfo PEM; `seal` builds the JWE of the values for the PEM public
   * keys; `open` decrypts a JWE with a PEM private key and parses the plaintext,
   * giving None when either fails.
   */
  datatype Crypto = Crypto(
    toSpki: string -> string,
    seal: (seq<string>, seq<Json>) -> Json,
    open: (string, Json) -> Option<seq<Json>>)

  // ----- Keys -----

  predicate IsPkcs1(publicKey: string) {
    StartsWith(publicKey, Pkcs1Header)
  }

  /** The key the keystore receives for one supplied key. */
  function ConvertPublicKey(publicKey: string, toSpki: string -> string): (k: string)
    ensures !IsPkcs1(publicKey) ==> k == publicKey
  {
    if IsPkcs1(publicKey) then toSpki(publicKey) else publicKey
  }

  function ConvertedKeys(publicKeys: seq<string>, toSpki: string -> string): (ks: seq<string>)
    ensures |ks| == |publicKeys|
  {
    seq(|publicKeys|, i requires 0 <= i < |publicKeys| => ConvertPublicKey(publicKeys[i], toSpki))
  }

  /**
   * convertPublicKeys: one key per supplied key, in order; PKCS#1 keys are converted
   * and every other key is passed on unchanged.
   */
  method ConvertPublicKeys(publicKeys: seq<string>, toSpki: string -> string) returns (convertedKeys: seq<string>)
    ensures convertedKeys == ConvertedKeys(publicKeys, toSpki)
    ensures |convertedKeys| == |publicKeys|
    ensures forall i :: 0 <= i < |publicKeys| && IsPkcs1(publicKeys[i]) ==> convertedKeys[i] == toSpki(publicKeys[i])
    ensures forall i :: 0 <= i < |publicKeys| && !IsPkcs1(publicKeys[i]) ==> convertedKeys[i] == publicKeys[i]
  {
    convertedKeys := [];
    for i := 0 to |publicKeys|
      invariant convertedKeys == ConvertedKeys(publicKeys[..i], toSpki)
    {
      var publicKey := publicKeys[i];
      if IsPkcs1(publicKey) {
        publicKey := toSpki(publicKey);
      }
      convertedKeys := convertedKeys + [publicKey];
    }
    assert publicKeys[..|publicKeys|] == publicKeys;
  }

  // ----- Encrypt direction -----

  /**
   * getReplacedObject: the working copy with every `$ref` escaped; it holds no `$ref`
   * member, and un-escaping gives the input back.
   */
  function GetReplacedObject(input: Json): (r: Json)
    ensures NoRefKeys(r)
    ensures WellFormed(input) ==> UnescapeJson(r) == input
  {
    EscapedHasNoRefKeys(input);
    assert WellFormed(input) ==> UnescapeJson(EscapeJson(input)) == input by {
      if WellFormed(input) { UnescapeEscapeJson(input); }
    }
    EscapeJson(input)
  }

  /** getFinalEncryptedPacket's envelope. */
  function FinalPacket(plain: Json, encrypted: Json): (r: Json)
    ensures r.JObj? && UniqueKeys(r.members)
    ensures Keys(r.members) == ["version", "plain", "encrypted"]
    ensures Lookup(r.members, "version") == Some(JStr(WrapperVersion))
    ensures Lookup(r.members, "plain") == Some(plain)
    ensures Lookup(r.members, "encrypted") == Some(encrypted)
  {
    var ms := [Member("version", JStr(WrapperVersion)), Member("plain", plain), Member("encrypted", encrypted)];
    KeysAt(ms);
    assert Keys(ms) == ["version", "plain", "encrypted"];
    assert Distinct(["encrypted"]) && Distinct(["plain", "encrypted"]);
    JObj(ms)
  }

  /** A present, non-empty key list. */
  predicate HasKeys(publicKeys: Option<seq<string>>) {
    publicKeys.Some? && publicKeys.value != []
  }

  /** A present, truthy input. */
  predicate HasInput(input: Option<Json>) {
    input.Some? && Truthy(input.value)
  }

  /** validateEncryptionData: the key list is checked first, then the input. */
  function ValidateEncryptionData(input: Option<Json>, publicKeys: Option<seq<string>>): (r: Option<Error>)
    ensures !HasKeys(publicKeys) ==> r == Some(PublicKeys)
    ensures HasKeys(publicKeys) && !HasInput(input) ==> r == Some(EncryptionBadInput)
    ensures r.None? <==> HasKeys(publicKeys) && HasInput(input)
  {
    if publicKeys.None? || |publicKeys.value| == 0 then Some(PublicKeys)
    else if input.None? || !Truthy(input.value) then Some(EncryptionBadInput)
    else None
  }

  /**
   * encryptPacket as a function of its inputs: validation, extraction from the
   * escaped copy, then the envelope around the sealed values.
   */
  function EncryptPacketSpec(input: Option<Json>, pathsToEncrypt: seq<string>, publicKeys: Option<seq<string>>,
                             crypto: Crypto): (r: Result<Json, Error>)
    ensures ValidateEncryptionData(input, publicKeys).Some? ==> r == Err(ValidateEncryptionData(input, publicKeys).value)
    ensures ValidateEncryptionData(input, publicKeys).None? && Extract(GetReplacedObject(input.value), pathsToEncrypt, []).Err? ==>
      r == Err(Extract(GetReplacedObject(input.value), pathsToEncrypt, []).error)
    ensures r.Ok? ==> r.value.JObj? && Lookup(r.value.members, "version") == Some(JStr(WrapperVersion))
    ensures r.Ok? ==> Lookup(r.value.members, "plain") == Some(Extract(GetReplacedObject(input.value), pathsToEncrypt, []).value.0)
    ensures ValidateEncryptionData(input, publicKeys).None? && Extract(GetReplacedObject(input.value), pathsToEncrypt, []).Ok? ==>
      var (plain, valuesToEncrypt) := Extract(GetReplacedObject(input.value), pathsToEncrypt, []).value;
      r == Ok(FinalPacket(plain, crypto.seal(ConvertedKeys(publicKeys.value, crypto.toSpki), valuesToEncrypt)))
  {
    match ValidateEncryptionData(input, publicKeys)
    case Some(e) => Err(e)
    case None =>
      match Extract(GetReplacedObject(input.value), pathsToEncrypt, [])
      case Err(e) => Err(e)
      case Ok((plain, valuesToEncrypt)) =>
        Ok(FinalPacket(plain, crypto.seal(ConvertedKeys(publicKeys.value, crypto.toSpki), valuesToEncrypt)))
  }

  // ----- Decrypt direction -----

  /** The members of the one recipient built from a flattened JWE: its key and header, when present. */
  function RecipientMembers(ms: seq<Member>): seq<Member>
  {
    (if Lookup(ms, "encrypted_key").Some? then [Member("encrypted_key", Lookup(ms, "encrypted_key").value)] else [])
    + (if Lookup(ms, "header").Some? then [Member("header", Lookup(ms, "header").value)] else [])
  }

  /** A JWE in general serialisation: an object with a truthy `recipients`. */
  predicate IsGeneral(jwe: Json) {
    jwe.JObj? && TruthyOpt(Lookup(jwe.members, "recipients"))
  }

  /**
   * unflatten, applied to `encrypted`: a general JWE is kept; a flattened one gets
   * `recipients` holding one recipient made of its `encrypted_key` and `header`,
   * which are removed from the top level; every other member is kept.
   */
  function UnflattenJwe(jwe: Json): (r: Json)
    ensures IsGeneral(jwe) || !jwe.JObj? ==> r == jwe
    ensures jwe.JObj? && !IsGeneral(jwe) ==>
      && r.JObj?
      && Lookup(r.members, "recipients") == Some(JArr([JObj(RecipientMembers(jwe.members))]))
      && Lookup(r.members, "encrypted_key") == None
      && Lookup(r.members, "header") == None
      && (forall k | k != "recipients" && k != "encrypted_key" && k != "header" :: Lookup(r.members, k) == Lookup(jwe.members, k))
    ensures jwe.JObj? ==> IsGeneral(r)
  {
    if !jwe.JObj? || IsGeneral(jwe) then jwe
    else
      var ms := jwe.members;
      var withRecipients := Put(ms, "recipients", JArr([JObj(RecipientMembers(ms))]));
      JObj(Remove(Remove(withRecipients, "encrypted_key"), "header"))
  }

  /** Unflattening twice is unflattening once. */
  lemma UnflattenJweIdempotent(jwe: Json)
    ensures UnflattenJwe(UnflattenJwe(jwe)) == UnflattenJwe(jwe)
  {
  }

  /** The envelope has an `encrypted` member that unflatten can work on. */
  predicate CanUnflatten(input: Json) {
    input.JObj? && Lookup(input.members, "encrypted").Some?
    && (Lookup(input.members, "encrypted").value.JObj? || Lookup(input.members, "encrypted").value.JArr?)
  }

  /**
   * unflatten on the envelope: `encrypted` is replaced by its unflattened form and
   * nothing else changes; an envelope without an object `encrypted` raises TypeError.
   */
  function UnflattenEnvelope(input: Json): (r: Result<Json, Error>)
    ensures r.Ok? <==> CanUnflatten(input)
    ensures r.Err? ==> r.error == TypeError
    ensures r.Ok? ==>
      && r.value.JObj?
      && Lookup(r.value.members, "encrypted") == Some(UnflattenJwe(Lookup(input.members, "encrypted").value))
      && (forall k | k != "encrypted" :: Lookup(r.value.members, k) == Lookup(input.members, k))
      && CanUnflatten(r.value)
  {
    if !CanUnflatten(input) then Err(TypeError)
    else
      var jwe := Lookup(input.members, "encrypted").value;
      Ok(JObj(Put(input.members, "encrypted", UnflattenJwe(jwe))))
  }

  /** Unflattening an unflattened envelope changes nothing. */
  lemma UnflattenEnvelopeIdempotent(input: Json)
    requires CanUnflatten(input)
    ensures UnflattenEnvelope(UnflattenEnvelope(input).value) == UnflattenEnvelope(input)
  {
    var u := UnflattenEnvelope(input).value;
    var jwe := UnflattenJwe(Lookup(input.members, "encrypted").value);
    UnflattenJweIdempotent(Lookup(input.members, "encrypted").value);
    PutSame(u.members, "encrypted", jwe);
  }

  /** A configuration whose private key is non-empty. */
  predicate PrivateKeyConfigured(abilityConfig: Option<AbilityConfig>) {
    abilityConfig.Some? && abilityConfig.value.privateKey != ""
  }

  /** validateDecryptionData: the input is checked first, then the private key. */
  function ValidateDecryptionData(input: Option<Json>, abilityConfig: Option<AbilityConfig>): (r: Option<Error>)
    ensures !HasInput(input) ==> r == Some(EncryptionBadInput)
    ensures HasInput(input) && !PrivateKeyConfigured(abilityConfig) ==> r == Some(PrivateKey)
    ensures r.None? <==> HasInput(input) && PrivateKeyConfigured(abilityConfig)
  {
    if input.None? || !Truthy(input.value) then Some(EncryptionBadInput)
    else if abilityConfig.None? || abilityConfig.value.privateKey == "" then Some(PrivateKey)
    else None
  }

  /** decryptValues: opens the envelope's `encrypted` with the configured private key. */
  function DecryptValues(input: Json, abilityConfig: AbilityConfig, crypto: Crypto): (r: Option<seq<Json>>)
    requires CanUnflatten(input)
    ensures forall publicKeys, vals ::
      (Opens(crypto, publicKeys, abilityConfig.privateKey)
       && Lookup(input.members, "encrypted") == Some(crypto.seal(publicKeys, vals))) ==> r == Some(vals)
  {
    crypto.open(abilityConfig.privateKey, Lookup(input.members, "encrypted").value)
  }

  /**
   * resolveObject: the `plain` member with every marker replaced by the decrypted
   * value it names, then un-escaped; an envelope without `plain` raises TypeError.
   */
  function ResolveObject(input: Json): (r: Result<Json, Error>)
    ensures r.Ok? <==> input.JObj? && Lookup(input.members, "plain").Some?
    ensures r.Err? ==> r.error == TypeError
    ensures r.Ok? && NoRefKeys(Lookup(input.members, "plain").value) ==> r.value == UnescapeJson(Lookup(input.members, "plain").value)
  {
    if !input.JObj? || Lookup(input.members, "plain").None? then Err(TypeError)
    else
      var plain := Lookup(input.members, "plain").value;
      var vals := match Lookup(input.members, "encrypted") case Some(JArr(a)) => a case _ => [];
      assert NoRefKeys(plain) ==> Resolve(plain, vals) == plain by {
        if NoRefKeys(plain) { ResolveNoRefKeys(plain, vals); }
      }
      Ok(UnescapeJson(Resolve(plain, vals)))
  }

  /**
   * decryptPacket as a function of its inputs: the result, and the caller's input
   * after the call (unflatten and the reassignment of `encrypted` change it in place).
   */
  function DecryptPacketSpec(input: Option<Json>, abilityConfig: Option<AbilityConfig>, crypto: Crypto): (r: (Result<Json, Error>, Option<Json>))
    ensures !HasInput(input) ==> r == (Err(EncryptionBadInput), input)
    ensures HasInput(input) && !PrivateKeyConfigured(abilityConfig) ==> r == (Err(PrivateKey), input)
    ensures ValidateDecryptionData(input, abilityConfig).None? && !CanUnflatten(input.value) ==> r == (Err(TypeError), input)
    ensures r.0.Ok? ==> r.1.Some? && r.1.value.JObj? && Lookup(r.1.value.members, "encrypted").Some? && Lookup(r.1.value.members, "encrypted").value.JArr?
    ensures ValidateDecryptionData(input, abilityConfig).None? && CanUnflatten(input.value) ==>
      var unflattened := UnflattenEnvelope(input.value).value;
      match DecryptValues(unflattened, abilityConfig.value, crypto)
      case None => r == (Err(DecryptionFailure), Some(unflattened))
      case Some(vals) =>
        var decrypted := JObj(Put(unflattened.members, "encrypted", JArr(vals)));
        r == (ResolveObject(decrypted), Some(decrypted))
  {
    match ValidateDecryptionData(input, abilityConfig)
    case Some(e) => (Err(e), input)
    case None =>
      match UnflattenEnvelope(input.value)
      case Err(e) => (Err(e), input)
      case Ok(unflattened) =>
        match DecryptValues(unflattened, abilityConfig.value, crypto)
        case None => (Err(DecryptionFailure), Some(unflattened))
        case Some(vals) =>
          var decrypted := JObj(Put(unflattened.members, "encrypted", JArr(vals)));
          (ResolveObject(decrypted), Some(decrypted))
  }

  /** The caller's reference as an optional value (`null` is absent). */
  function ValueOf(input: JsonRef?): Option<Json>
    reads input
  {
    if input == null then None else Some(input.value)
  }

  class EncryptionService {
    const abilityConfig: Option<AbilityConfig>

    constructor(config: Option<AbilityConfig>)
      ensures abilityConfig == config
    {
      abilityConfig := config;
    }

    /**
     * encryptPacket: works on an escaped copy, so the caller's input is not changed
     * (the method modifies nothing it was given).
     */
    method EncryptPacket(input: JsonRef?, pathsToEncrypt: seq<string>, publicKeys: Option<seq<string>>, crypto: Crypto)
      returns (r: Result<Json, Error>)
      ensures r == EncryptPacketSpec(ValueOf(input), pathsToEncrypt, publicKeys, crypto)
    {
      var invalid := ValidateEncryptionData(ValueOf(input), publicKeys);
      if invalid.Some? {
        return Err(invalid.value);
      }
      var inputObject := new JsonRef(GetReplacedObject(input.value));
      var valuesToEncrypt := GetEncryptedPaths(inputObject, pathsToEncrypt);
      if valuesToEncrypt.Err? {
        return Err(valuesToEncrypt.error);
      }
      var convertedKeys := ConvertPublicKeys(publicKeys.value, crypto.toSpki);
      var encrypted := crypto.seal(convertedKeys, valuesToEncrypt.value);
      return Ok(FinalPacket(inputObject.value, encrypted));
    }

    /**
     * decryptPacket: validates, unflattens the caller's envelope in place, replaces its
     * `encrypted` by the decrypted values and returns the resolved `plain`.
     */
    method DecryptPacket(input: JsonRef?, crypto: Crypto) returns (r: Result<Json, Error>)
      modifies input
      ensures (r, ValueOf(input)) == DecryptPacketSpec(if input == null then None else Some(old(input.value)), abilityConfig, crypto)
    {
      var invalid := ValidateDecryptionData(ValueOf(input), abilityConfig);
      if invalid.Some? {
        return Err(invalid.value);
      }
      var unflattened := UnflattenEnvelope(input.value);
      if unflattened.Err? {
        return Err(unflattened.error);
      }
      input.value := unflattened.value;
      var decrypted := DecryptValues(input.value, abilityConfig.value, crypto);
      if decrypted.None? {
        return Err(DecryptionFailure);
      }
      input.value := JObj(Put(input.value.members, "encrypted", JArr(decrypted.value)));
      r := ResolveObject(input.value);
    }
  }

  // ----- Properties of the pair -----

  /**
   * The cipher opens what it seals for these keys with this private key, and what it
   * seals is a JWE in general serialisation.
   */
  ghost predicate Opens(crypto: Crypto, publicKeys: seq<string>, privateKey: string) {
    forall vals :: crypto.open(privateKey, crypto.seal(publicKeys, vals)) == Some(vals) && IsGeneral(crypto.seal(publicKeys, vals))
  }

  /** Unflatten leaves an envelope with a general JWE as it is. */
  lemma UnflattenKeepsGeneral(input: Json)
    requires input.JObj? && UniqueKeys(input.members)
    requires Lookup(input.members, "encrypted").Some? && IsGeneral(Lookup(input.members, "encrypted").value)
    ensures UnflattenEnvelope(input) == Ok(input)
  {
    PutSame(input.members, "encrypted", Lookup(input.members, "encrypted").value);
  }

  /** After a successful opening, decryption is resolution of the envelope with the values in place. */
  lemma DecryptOpened(input: Json, vals: seq<Json>, abilityConfig: AbilityConfig, crypto: Crypto)
    requires abilityConfig.privateKey != "" && Truthy(input)
    requires UnflattenEnvelope(input) == Ok(input)
    requires crypto.open(abilityConfig.privateKey, Lookup(input.members, "encrypted").value) == Some(vals)
    ensures DecryptPacketSpec(Some(input), Some(abilityConfig), crypto).0 == ResolveObject(JObj(Put(input.members, "encrypted", JArr(vals))))
  {
  }

  /** Resolving an envelope whose `encrypted` holds the values resolves its `plain` against them. */
  lemma ResolveEnvelope(input: Json, plain: Json, vals: seq<Json>)
    requires input.JObj? && Lookup(input.members, "plain") == Some(plain)
    requires Lookup(input.members, "encrypted") == Some(JArr(vals))
    ensures ResolveObject(input) == Ok(UnescapeJson(Resolve(plain, vals)))
  {
  }

  /**
   * Round trip: when the cipher opens what it seals, decrypting the envelope of a
   * JSON document gives the document back, whichever non-`$ref` pointers were
   * encrypted; the envelope's version is 2.0.0.
   */
  lemma RoundTrip(document: Json, pathsToEncrypt: seq<string>, publicKeys: seq<string>,
                  abilityConfig: AbilityConfig, crypto: Crypto)
    requires WellFormed(document) && NoRefTokens(pathsToEncrypt)
    requires EncryptPacketSpec(Some(document), pathsToEncrypt, Some(publicKeys), crypto).Ok?
    requires abilityConfig.privateKey != ""
    requires Opens(crypto, ConvertedKeys(publicKeys, crypto.toSpki), abilityConfig.privateKey)
    ensures var envelope := EncryptPacketSpec(Some(document), pathsToEncrypt, Some(publicKeys), crypto).value;
      && Lookup(envelope.members, "version") == Some(JStr(WrapperVersion))
      && DecryptPacketSpec(Some(envelope), Some(abilityConfig), crypto).0 == Ok(document)
  {
    var escaped := GetReplacedObject(document);
    var (plain, vals) := Extract(escaped, pathsToEncrypt, []).value;
    var sealed := crypto.seal(ConvertedKeys(publicKeys, crypto.toSpki), vals);
    assert EncryptPacketSpec(Some(document), pathsToEncrypt, Some(publicKeys), crypto) == Ok(FinalPacket(plain, sealed));
    assert crypto.open(abilityConfig.privateKey, sealed) == Some(vals) && IsGeneral(sealed);
    var envelope := FinalPacket(plain, sealed);
    UnflattenKeepsGeneral(envelope);
    DecryptOpened(envelope, vals, abilityConfig, crypto);
    var ms := Put(envelope.members, "encrypted", JArr(vals));
    assert Lookup(ms, "plain") == Lookup(envelope.members, "plain");
    ResolveEnvelope(JObj(ms), plain, vals);
    ResolveNoRefKeys(escaped, []);
    ExtractResolves(escaped, pathsToEncrypt, []);
  }

  /**
   * A flattened envelope decrypts exactly as its general form does, and both leave the
   * caller with the same envelope.
   */
  lemma FlattenedDecryptsAsGeneral(input: Json, abilityConfig: Option<AbilityConfig>, crypto: Crypto)
    requires CanUnflatten(input)
    ensures var general := UnflattenEnvelope(input).value;
      DecryptPacketSpec(Some(input), abilityConfig, crypto).0 == DecryptPacketSpec(Some(general), abilityConfig, crypto).0
    ensures PrivateKeyConfigured(abilityConfig) ==>
      DecryptPacketSpec(Some(input), abilityConfig, crypto) == DecryptPacketSpec(Some(UnflattenEnvelope(input).value), abilityConfig, crypto)
  {
    UnflattenEnvelopeIdempotent(input);
  }

  /** Without pointers the envelope's `plain` is the escaped input, and no value is sealed. */
  lemma EncryptWithoutPaths(input: Json, publicKeys: seq<string>, crypto: Crypto)
    requires Truthy(input) && publicKeys != []
    ensures EncryptPacketSpec(Some(input), [], Some(publicKeys), crypto)
      == Ok(FinalPacket(GetReplacedObject(input), crypto.seal(ConvertedKeys(publicKeys, crypto.toSpki), [])))
  {
  }
}
