# focals-client-js: selective-field encryption, configuration, signatures and URLs

A Dafny model of the core of the focals-client-js ability library.

**The encryption service** (`lib/service/encryption.service.js`) turns a JSON packet into the envelope `{version: "2.0.0", plain, encrypted}`:
- Every literal `$ref` in the packet is escaped to `$$ref`.
- Each JSON Pointer (RFC 6901, sections 3 and 4) in the list to encrypt is evaluated, in order, against the document as already marked by the pointers before it.
- The value found is collected and its node is overwritten with the marker `{"$ref": "#/encrypted/<n>"}`.
- The collected values are sealed into a JWE (RFC 7516) for the public keys. PKCS#1 keys are first converted to SubjectPublicKeyInfo form.

Decryption undoes this:
- A flattened JWE (section 7.2.2 of RFC 7516) is turned into the general form (section 7.2.1), in place.
- The values are opened with the configured private key.
- Every marker in `plain` is replaced by the value it names, and `$$ref` is un-escaped.

**The configuration registry** (`lib/util/config.js`) completes each ability's options with defaults. It keeps a module-level dictionary of ability instances, which `init` rebuilds and `get` selects from.

**The signature service** (`lib/service/signature.service.js`) accepts a callback signature when two things hold:
- its timestamp, read as seconds or as milliseconds, lies within five minutes of the clock;
- it equals the version-prefixed HMAC of `version:timestamp:state`.

**The URL service** (`lib/service/url.service.js`) builds the ability-enable URL, with an optional error parameter.

## Model files

| file | what it holds |
|---|---|
| `wrappers.dfy` | `Option` and `Result` |
| `json.dfy` | JSON values after `JSON.parse`: objects are ordered member lists. It also holds JavaScript truthiness, property read, write and delete, and the object `JSON.parse` builds from repeated names. |
| `strings.dfy` | `startsWith` |
| `decimal.dfy` | decimal rendering of integers, and RFC 6901 array indices |
| `pointer.dfy` | RFC 6901 pointers: parsing, evaluation, the in-place set, and formatting |
| `escaping.dfy` | the `$ref` ↔ `$$ref` rewriting of keys and strings |
| `references.dfy` | the `#/encrypted/<n>` markers and their resolution |
| `errors.dfy` | the error kinds |
| `extraction.dfy` | `getEncryptedPaths` |
| `encryption.dfy` | the rest of the encryption service |
| `config.dfy` | the configuration registry |
| `signature.dfy` | the signature service |
| `url.dfy` | the URL service |

Each JavaScript object that the source updates in place is a Dafny class:
- the caller's packet (`Json.JsonRef`);
- the registry (`Config.Registry`);
- the services.

The cryptography is a parameter of type `Encryption.Crypto`, holding `toSpki`, `seal` and `open`. The round trip assumes one hypothesis about it, `Encryption.Opens`: `open` gives back what `seal` sealed, and `seal` produces a general JWE. HMAC, the clock and `encodeURIComponent` are parameters as well.

## Model

| member | source | states |
|---|---|---|
| Encryption.ConvertPublicKeys | lib/service/encryption.service.js:12-28 | exactly one key per supplied key, in order. A key starting with the PKCS#1 header is converted. Every other key is passed on unchanged. |
| Encryption.ConvertPublicKey | lib/service/encryption.service.js:17-21 | a key without the PKCS#1 header is left as it is |
| Encryption.ConvertedKeys | lib/service/encryption.service.js:12-28 | the keys the keystore receives: the per-key conversion of each supplied key, one per key |
| Encryption.IsPkcs1 | lib/service/encryption.service.js:17 | a PEM key whose text starts with the PKCS#1 `RSA PUBLIC KEY` header |
| Encryption.GetReplacedObject | lib/service/encryption.service.js:30-34 | the escaped copy has no `$ref` member. Un-escaping it gives the input back (for any parsed document, i.e. one with distinct names). |
| Escaping.EscapeRefs | lib/service/encryption.service.js:32 | the global replace of `$ref` by `$$ref` on one string: leftmost, non-overlapping occurrences each gain one `$`. A string without `$` is left as it is. |
| Escaping.UnescapeRefs | lib/service/encryption.service.js:87 | the global replace of `$$ref` by `$ref` on one string: each occurrence loses one `$`. A string without `$` is left as it is. |
| Escaping.EscapeJson | lib/service/encryption.service.js:30-34 | the stringify, replace and parse of getReplacedObject: every member name and string value escaped, the structure kept |
| Escaping.UnescapeJson | lib/service/encryption.service.js:85-88 | the stringify, replace and parse of resolveObject: every member name and string value un-escaped, and each object rebuilt as `JSON.parse` builds it, so a name that occurs twice keeps its last value |
| Escaping.UnescapeEscapeRefs | lib/service/encryption.service.js:32 | un-escaping an escaped string gives the string back |
| Escaping.EscapeRefsInjective | lib/service/encryption.service.js:32 | distinct strings stay distinct after escaping |
| Escaping.EscapedNeverStartsWithRef | lib/service/encryption.service.js:32 | an escaped key never begins with `$ref`, so it never spells a reference |
| Escaping.EscapeKeepsDollarFreePrefix | lib/service/encryption.service.js:32 | escaping keeps every prefix that holds no `$` |
| Escaping.EscapedHasNoRefKeys | lib/service/encryption.service.js:30-34 | an escaped document has no member named `$ref` at any depth |
| Escaping.UnescapeEscapeJson | lib/service/encryption.service.js:30-34 | un-escaping an escaped document (one with distinct member names) gives it back |
| Extraction.Extract | lib/service/encryption.service.js:40-51 | the loop as a function: from the values already collected, each pointer in turn is read on the document marked so far; the first failing pass is the result, otherwise the marked document and all the values |
| Extraction.IsContainer | lib/service/encryption.service.js:42 | the working copy is an object or an array; otherwise `jsonpointer.get` throws "Invalid input object." |
| Extraction.BadPathMessage | lib/service/encryption.service.js:44 | the BadPath message: the fixed text followed by the pointer |
| Extraction.Step | lib/service/encryption.service.js:41-50 | one pass succeeds iff the document is an object or array, the pointer parses, and the value found is truthy. On success, the value is the one at the pointer and the marker for this position now sits there. A falsy or absent value raises BadPath with the message followed by the pointer. |
| Extraction.GetEncryptedPaths | lib/service/encryption.service.js:36-54 | the in-place loop fails exactly when the extraction function fails, with the same error. On success it returns the same values and leaves the working copy equal to the marked document. |
| Extraction.ExtractLength | lib/service/encryption.service.js:46 | one value per pointer, appended after those already collected |
| Extraction.ExtractAppend | lib/service/encryption.service.js:40-51 | extracting `ps + qs` is extracting `ps`, then `qs` from the document already marked |
| Extraction.IntoReplacedSubtree | lib/service/encryption.service.js:40-51 | a pointer into a subtree that an earlier pointer replaced finds nothing and raises BadPath |
| Extraction.ExtractKeepsOthers | lib/service/encryption.service.js:48 | nodes that neither lie on nor contain an encrypted pointer are not changed |
| Extraction.StepKeepsTail | lib/service/encryption.service.js:41-50 | marking one pointer leaves the nodes of the other, disjoint pointers as they were |
| Extraction.AllFoundUncons | lib/service/encryption.service.js:42-45 | for disjoint pointers, "all found" splits into the head pointer and the rest on the marked document |
| Extraction.ExtractDisjointSucceeds | lib/service/encryption.service.js:42-45 | for disjoint pointers, extraction succeeds iff every pointer finds a truthy value in the original document |
| Extraction.ConsPlaces | lib/service/encryption.service.js:46-48 | the value/marker placement of the head pointer combines with that of the rest |
| Extraction.ExtractDisjointPlaces | lib/service/encryption.service.js:46-48 | for disjoint pointers, value i is the one found at pointer i, and the marked document holds marker i at pointer i |
| Extraction.ChildOfMarker | lib/service/encryption.service.js:48 | the only member of a marker is `$ref` |
| Extraction.ResolveMemberUpdate | lib/service/encryption.service.js:48 | replacing one member's subtree by one that resolves alike (with one more value) leaves the object's resolution unchanged |
| Extraction.ResolveItemUpdate | lib/service/encryption.service.js:48 | the same for one array element |
| Extraction.ResolveAfterMark | lib/service/encryption.service.js:46-48 | marking a node with the next position, and appending its value, leaves the resolution of the whole document unchanged |
| Extraction.ExtractResolves | lib/service/encryption.service.js:36-54 | resolving the marked document against the collected values gives the document before extraction, and every marker names a collected value. This holds, as the model evaluates pointers, for any pointers not through `$ref`, overlapping ones included. For the root pointer `""` the model replaces the whole document, which the jsonpointer package does not (see "Left out"). |
| Encryption.FinalPacket | lib/service/encryption.service.js:56-69 | the envelope has exactly the three members `version`, `plain` and `encrypted`, in that order: version "2.0.0", the marked document as `plain` and the JWE as `encrypted` |
| Encryption.ValidateEncryptionData | lib/service/encryption.service.js:110-118 | a missing or empty key list raises PublicKeys even when the input is missing too. Otherwise a missing or falsy input raises BadInput. It passes iff both are present. |
| Encryption.HasKeys | lib/service/encryption.service.js:111 | the key list is present and non-empty |
| Encryption.HasInput | lib/service/encryption.service.js:115 | the input is present and truthy |
| Encryption.EncryptPacketSpec | lib/service/encryption.service.js:151-158 | validation errors come first, then the extraction error. Once validation and extraction pass, the call succeeds: the result is the envelope holding the marked escaped copy as `plain` and, as `encrypted`, the seal of the extracted values under the converted keys. |
| Encryption.EncryptPacket | lib/service/encryption.service.js:151-158 | the service method computes `EncryptPacketSpec` of the caller's packet and changes no object it is given |
| Encryption.EncryptWithoutPaths | lib/service/encryption.service.js:151-158 | with no pointers, `plain` is the escaped input and no values are sealed |
| Encryption.IsGeneral | lib/service/encryption.service.js:96 | a JWE counts as general when it is an object whose `recipients` is truthy |
| Encryption.RecipientMembers | lib/service/encryption.service.js:99-104 | the one recipient: the JWE's `encrypted_key` and `header`, each only when present; a missing one, whose property would hold `undefined`, is left out |
| Encryption.CanUnflatten | lib/service/encryption.service.js:96-106 | unflatten completes without a TypeError exactly when the envelope is an object whose `encrypted` is an object or an array |
| Encryption.UnflattenJwe | lib/service/encryption.service.js:95-108 | a general JWE (one with truthy `recipients`) is kept. A flattened one gets a single recipient made of its `encrypted_key` and `header`, which leave the top level; every other member is kept. The result is general. |
| Encryption.UnflattenJweIdempotent | lib/service/encryption.service.js:95-108 | unflattening twice equals unflattening once |
| Encryption.UnflattenEnvelope | lib/service/encryption.service.js:95-108 | only `encrypted` changes. An envelope whose `encrypted` is missing, or is neither an object nor an array, raises TypeError. |
| Encryption.UnflattenEnvelopeIdempotent | lib/service/encryption.service.js:95-108 | unflattening an unflattened envelope changes nothing |
| Encryption.ValidateDecryptionData | lib/service/encryption.service.js:120-128 | a missing or falsy input raises BadInput before the key check. Then a missing configuration or an empty private key raises PrivateKey. It passes iff both are present. |
| Encryption.PrivateKeyConfigured | lib/service/encryption.service.js:125 | a configuration is present and its private key is non-empty |
| Encryption.DecryptValues | lib/service/encryption.service.js:71-77 | the values opened from the envelope's `encrypted` with the configured private key. When the cipher opens what it seals and `encrypted` is the seal of some values, those values come back. |
| Encryption.Opens | lib/service/encryption.service.js:58-62 | the hypothesis about the cipher: opening with the private key gives back what was sealed for the public keys, and a sealed JWE is general |
| Encryption.ResolveObject | lib/service/encryption.service.js:79-89 | fails (TypeError) iff the envelope has no `plain`. A `plain` without `$ref` members comes back un-escaped. |
| Encryption.DecryptPacketSpec | lib/service/encryption.service.js:168-174 | the validation order, and that the caller's input is unchanged on a validation or unflatten failure. Past those, a JWE that does not open gives DecryptionFailure and leaves the caller the unflattened envelope. One that opens leaves the caller the unflattened envelope with `encrypted` replaced by the array of opened values, and the result is the resolution of that envelope. |
| Encryption.DecryptPacket | lib/service/encryption.service.js:168-174 | the method's result, and the caller's packet after the call, are those of `DecryptPacketSpec` on the packet before it |
| Encryption.UnflattenKeepsGeneral | lib/service/encryption.service.js:96-98 | unflatten leaves an envelope with a general JWE as it is |
| Encryption.DecryptOpened | lib/service/encryption.service.js:168-174 | once the JWE opens, the result is the resolution of the envelope with `encrypted` replaced by the values |
| Encryption.ResolveEnvelope | lib/service/encryption.service.js:79-89 | the resolution of such an envelope is its `plain`, resolved against the values and then un-escaped |
| Encryption.RoundTrip | lib/service/encryption.service.js:151-174 | when `open` inverts `seal`, decrypting the envelope of any parsed document gives the document back, and the envelope's version is "2.0.0". This holds, as the model evaluates pointers, for any pointers not through `$ref`. The root pointer `""` is covered only as the model treats it (see "Left out"). |
| Encryption.FlattenedDecryptsAsGeneral | lib/service/encryption.service.js:95-108 | a flattened envelope decrypts to the same result as its general form. With a private key configured, both also leave the caller the same envelope. |
| Encryption.EncryptionService.constructor | lib/service/encryption.service.js:137-139 | the service keeps the configuration it is given |
| Pointer.Split | lib/service/encryption.service.js:42 | the pointer split at every `/`: at least one piece, and no piece holds a `/` |
| Pointer.Untilde | lib/service/encryption.service.js:42 | the RFC 6901 decoding of one token: `~1` becomes `/` and `~0` becomes `~`, left to right. A token without `~` is left as it is. |
| Pointer.Child | lib/service/encryption.service.js:42 | one step of `jsonpointer.get`: in an object, the member of that name, found iff the name is present. In an array, the element at a canonical decimal index, found iff the index is in range. Below any other value, nothing. |
| Pointer.Get | lib/service/encryption.service.js:42 | `jsonpointer.get`: the empty token list reads the document itself. Each token then takes one `Child` step, and a step below a value that is neither an object nor an array finds nothing (`undefined`). |
| Pointer.Compile | lib/service/encryption.service.js:42 | a pointer is rejected iff it is non-empty and does not start with `/` |
| Pointer.Set | lib/service/encryption.service.js:48 | after the set, the pointer reads the new value |
| Pointer.SetSame | lib/service/encryption.service.js:48 | writing back the value already there changes nothing |
| Pointer.GetAfterSet | lib/service/encryption.service.js:48 | below the set node, reads see the new value's subtree |
| Pointer.GetAfterSetElsewhere | lib/service/encryption.service.js:48 | reads of pointers neither above nor below the set node are unchanged |
| Pointer.ChildAfterSetElsewhere | lib/service/encryption.service.js:48 | the other children of the root are unchanged by a set below one child |
| Pointer.ParseIndexInjective | lib/service/encryption.service.js:42 | two array-index tokens that name the same index are the same token |
| Pointer.UntildeEscapeToken | lib/service/encryption.service.js:42 | `~1`/`~0` decoding inverts encoding of a reference token |
| Pointer.CompileFormat | lib/service/encryption.service.js:42 | parsing a formatted pointer gives back its tokens |
| Decimal.ParseNatToString | lib/service/encryption.service.js:48 | the marker's index, written in decimal, reads back as the same array index |
| Decimal.NatToString | lib/service/encryption.service.js:48 | the decimal rendering of the marker's position: digits only, and no leading zero unless the number is 0 |
| Decimal.ParseIndex | lib/service/encryption.service.js:42 | the array index a token names: only a canonical decimal token (digits, no leading zero) names one, and the index written back is the token |
| Decimal.IntToStringInjective | lib/service/signature.service.js:38 | distinct timestamps are written differently in the signed message |
| Decimal.IntToString | lib/service/signature.service.js:38 | the timestamp as a template literal writes it: non-empty, starting with `-` iff negative, and without `:` |
| Decimal.CanonicalRoundTrip | lib/service/encryption.service.js:42 | a canonical index token is the decimal rendering of its value |
| References.Marker | lib/service/encryption.service.js:48 | the marker for position n: the one-member object `{"$ref": "#/encrypted/<n>"}`, n in decimal |
| References.MarkerIndex | lib/service/encryption.service.js:79-82 | the position a node refers to, given only when the node is exactly the marker for that position |
| References.Resolve | lib/service/encryption.service.js:79-83 | json-refs resolution of the markers. Marker n, for n below the number of values, becomes `Resolve(vals[n], vals[..n])`. Any other node is kept, with its elements or members resolved one by one. |
| References.MarkerIndexOfMarker | lib/service/encryption.service.js:48 | the marker written for position n is read back as position n |
| References.ResolveNoRefKeys | lib/service/encryption.service.js:79-82 | a document without `$ref` members resolves to itself |
| References.ResolveExtend | lib/service/encryption.service.js:79-82 | more values do not change the resolution of a document whose markers all name existing values |
| Json.Truthy | lib/service/encryption.service.js:43 | JavaScript truthiness: `null`, `false`, `0` and `""` are falsy, and every object and array is truthy |
| Json.Collect | lib/service/encryption.service.js:88 | the object `JSON.parse` builds from members read in order: a repeated name keeps the position of its first occurrence and the value of its last, so names come out distinct |
| Json.FromMembers | lib/service/encryption.service.js:88 | `JSON.parse` of an object's member list: names come out distinct |
| Json.Lookup | lib/service/encryption.service.js:96 | a property read finds a value iff the name is present, and that value is a member of the object |
| Json.Put | lib/service/encryption.service.js:99 | after a property write the name reads the new value and every other name reads as before |
| Json.Remove | lib/service/encryption.service.js:105-106 | after a delete the name is absent and every other name reads as before |
| Json.PutAt | lib/service/encryption.service.js:172 | writing an existing property replaces that one member in place |
| Json.PutShape | lib/service/encryption.service.js:99 | writing a new property appends it; writing an existing one keeps the names |
| Json.FromMembersUnique | lib/service/encryption.service.js:88 | parsing an object whose names are distinct keeps its members as they are |
| Config.GetConfigValues | lib/util/config.js:8-20 | every non-empty supplied option is kept verbatim. A missing or empty option becomes "", except `baseUrl` ("https://cloud.bynorth.com") and `signingVersion` ("v0"). |
| Config.OrDefault | lib/util/config.js:10-16 | one option with its fallback: the supplied value when it is non-empty, the fallback otherwise |
| Config.GetConfigValuesIdempotent | lib/util/config.js:8-20 | completing an already completed configuration changes nothing |
| Config.Registry.constructor | lib/util/config.js:6 | the registry starts empty |
| Config.Registry.Built | lib/util/config.js:38-43 | the registry init builds has exactly the dictionary's names |
| Config.Registry.Init | lib/util/config.js:35-46 | the previous registry is discarded. Afterwards its names are exactly the dictionary's, each mapped to the instance of its completed configuration, and the new registry is returned. |
| Config.Registry.Get | lib/util/config.js:56-69 | with no (or an empty) key, the call fails iff more than one ability is registered. It returns the single ability when there is one, and nothing when there is none. With a key it returns that key's entry, if any. The registry is not changed. |
| Config.NoKey | lib/util/config.js:58 | `!abilityKey`: no key, or the empty key |
| Config.Registry.GetIntended | lib/util/config.js:56-69 | the same selection, failing with the missing-key error and its message |
| Config.SingleAbility | lib/util/config.js:63-66 | after init with one ability, the registry holds exactly that ability's instance |
| Config.MissingKeyAsWritten | lib/util/config.js:58-60 | with two abilities and no key, the lookup as written fails with a TypeError |
| Config.MissingKeyIntended | lib/util/config.js:58-60 | with two abilities and no key, the intended lookup fails with the missing-key message |
| Signature.SignatureService.constructor | lib/service/signature.service.js:15-17 | the service keeps the configuration it is given |
| Signature.TimestampInMs | lib/service/signature.service.js:30 | timestamps above 10^12 are taken as milliseconds, and all others are multiplied by 1000. So any instant after 2001-09-09, in either unit, comes out in milliseconds (above 10^12). |
| Signature.WithinTolerance | lib/service/signature.service.js:31-35 | the time check passes: the distance between the clock and the timestamp is at most 300000 ms |
| Signature.SignedMessage | lib/service/signature.service.js:38 | the signed message: the signing version, the timestamp as supplied and the state, joined by `:` |
| Signature.Sign | lib/service/signature.service.js:37-41 | the expected signature: the signing version, `:`, then the HMAC of the signed message under the shared secret |
| Signature.SignatureService.VerifySignature | lib/service/signature.service.js:29-42 | outside the five-minute window the result is false whatever the signature. Inside it, the result is true iff the signature equals `version + ":" + hmac(secret, version:timestamp:state)`, with the timestamp as supplied. |
| Signature.SecondsAndMillisecondsAgree | lib/service/signature.service.js:30 | for instants after 2001-09-09, a timestamp in seconds and the same instant in milliseconds are read alike |
| Signature.SignedVerifies | lib/service/signature.service.js:29-42 | a signature made with the same configuration verifies anywhere in the window |
| Signature.WindowBoundary | lib/service/signature.service.js:5-6 | a delta of exactly 300000 ms passes, and 300001 ms fails, in both directions |
| Signature.SignatureBindsInputs | lib/service/signature.service.js:37-41 | with an injective hex HMAC, a signature two services both accept binds the secret, the version, the timestamp and the state. So a wrong one of any of these is rejected. |
| Url.UrlService.constructor | lib/service/url.service.js:10-12 | the service keeps the configuration it is given |
| Url.UrlService.EnableUrl | lib/service/url.service.js:23 | base URL, enable path, then the state unencoded |
| Url.UrlService.BuildEnableUrl | lib/service/url.service.js:22-28 | the enable URL is always a prefix of the result. Without an error, or with the empty error, the result is exactly the enable URL. Otherwise `&error=` and the encoded error follow it. |
| Url.NoError | lib/service/url.service.js:24 | `!error`: no error, or the empty error |
| Url.EmptyErrorIsNoError | lib/service/url.service.js:24 | an empty error gives the same URL as no error |
| Url.ErrorPartOfUrl | lib/service/url.service.js:25 | the encoded error is exactly what follows `&error=` |
| Url.DistinctErrorsDistinctUrls | lib/service/url.service.js:25 | with an injective encoding, distinct errors give distinct URLs |

## Left out

- JWE sealing and opening (node-jose, A256CBC-HS512 with RSA key wrapping), PEM import into the keystore, and the NodeRSA PKCS#1 to PKCS#8 export are foreign library code. They are the `Crypto` parameter, and the round trip takes `Opens` as its hypothesis. A plaintext that does not parse, or is not an array, is a failed opening (`DecryptionFailure`).
- HMAC-SHA256, `Date.now()` and `encodeURIComponent` are parameters. Timestamps are integers: the fractional-second timestamps that `Date.now() / 1000` gives are not modelled.
- Number formatting: JSON numbers are reals, and only integer timestamps are rendered in decimal (`Decimal.IntToString`).
- The text round trip of `JSON.stringify`, `replace` and `JSON.parse` is modelled as the equivalent rewriting of keys and string values. On non-string values, `undefined`, functions and cycles are not modelled.
- JavaScript's enumeration order puts integer-like keys before the other keys. Objects here keep plain insertion order.
- The root pointer `""`: the model's set replaces the whole document with the marker. The jsonpointer package's `set` never replaces the document itself: depending on its version it changes nothing or writes a member named `undefined`. So for `""` neither the marked document nor `Extraction.ExtractResolves` and `Encryption.RoundTrip` describe the source.
- Pointer evaluation: the jsonpointer package reads `obj[token]`, which also finds properties an object inherits (such as `toString`) and an array's `length`. So a pointer like `/toString` finds a truthy value instead of raising BadPath. The model (`Pointer.Child`) reads own members and canonical array indices only. The `-` array token, and a step through `null` (which some package versions turn into a TypeError), are not modelled either.
- `Extraction.GetEncryptedPaths`: after an error, the working copy already holds the markers of the pointers before the failing one; the model does not state this partial state (the copy is discarded).
- `Encryption.ResolveObject`: json-refs resolves every local reference in the envelope. The model resolves only the `#/encrypted/<n>` markers in `plain`, and only those whose index names a decrypted value. Markers inside a decrypted value are resolved against the values before it. Other local references are left as they are.
- `Encryption.UnflattenEnvelope`: an `encrypted` that is an array passes through unchanged. The model does not add a `recipients` property to an array.
- `Extraction.ExtractResolves`, `Encryption.RoundTrip`: stated for pointers with no `$ref` token. A pointer into a marker's own `$ref` member is not covered.
- `Config.GetConfigValues`: options are strings, and a missing option is absent from the map. Non-string option values, and an ability entry that is `null` (which raises a TypeError), are not modelled.
- Configuration values the services read but were not given: the model's `AbilityConfig` always holds strings, and a value that is not given is "". The source sees `undefined` instead (as with `new SignatureService({})`), and behaves differently:
  - `Signature.SignatureService.VerifySignature`: a missing `sharedSecret` makes `crypto.createHmac` throw a TypeError. A missing `signingVersion` signs and compares with the text `undefined`. The model returns a boolean computed with "" in both cases.
  - `Url.UrlService.BuildEnableUrl`: a missing `baseUrl` renders as `undefined/v1/api/integration/enable?...`. The model starts the URL with "".
- `Encryption.ConvertPublicKeys`, `Encryption.EncryptPacketSpec`: importing or converting a malformed PEM key (NodeRSA `importKey`, `keystore.add`) rejects in the source. In the model `toSpki` and `seal` are total, so a malformed key never makes encryption fail.
- `Config.Registry.Get`, `Config.Registry.Init`: the registry and the options dictionary are plain JavaScript objects, and the source reads them with `abilities[abilityKey]` (lib/util/config.js:68) and `for (const abilityKey in optDictionary)` (lib/util/config.js:38). Both also reach properties an object inherits. `get('toString')` returns a function and `get('constructor')` returns `Object`, where the model returns nothing, and `init` would also register inherited enumerable properties. The model reads and enumerates own names only.
- `Config.Registry.Init`: the source returns the module-level `abilities` object itself, so a caller that changes the returned object changes the registry. The model returns a copy of the map, so this aliasing is not captured.
- `Config.Registry.Init`: the `AbilityInstance` wiring of lib/ability.instance.js is reduced to the completed configuration it holds.
- `Config.Registry.Get`: the order `Object.values` returns in is not modelled. With one ability there is only one value to return.
- The HTTP services (lib/service/publish.service.js and lib/service/device.keys.service.js), the legacy duplicates under lib/, and index.js are not part of this model.
- Promises and `async`: results are returned synchronously as `Result` values.

## Findings

| source | as written | input that shows it | evidently intended | confidence | as-written member | corrected member |
|---|---|---|---|---|---|---|
| lib/util/config.js:58-60 | `new Err.configKeyMissing()`, but lib/util/error.js defines no `configKeyMissing`, so the `new` throws a TypeError ("not a constructor") | `init({first: {integrationId: 'first'}, second: {integrationId: 'second'}})`, then `get()` | a missing-key error with the message "A key must be provided if multiple abilities are configured" (test/util/config.test.js:65-76) | high, not executed | Config.MissingKeyAsWritten | Config.MissingKeyIntended |
