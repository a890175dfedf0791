/**
 * The named-configuration registry (lib/util/config.js): raw option objects are
 * completed with defaults, and the module-level `abilities` dictionary maps each
 * ability name to the instance built from its completed configuration.
 */
module Config {
  import opened Wrappers
  import opened Errors

  /** A completed ability configuration (the template built by getConfigValues). */
  datatype AbilityConfig = AbilityConfig(
    sharedSecret: string,
    apiKey: string,
    apiSecret: string,
    privateKey: string,
    integrationId: string,
    baseUrl: string,
    signingVersion: string)

  /** The options object of one ability as supplied to init: option name to value. */
  type RawConfig = map<string, string>

  const DefaultBaseUrl := "https://cloud.bynorth.com"
  const DefaultSigningVersion := "v0"

  /** `raw.name || fallback`: a missing or empty option takes the fallback. */
  function OrDefault(raw: RawConfig, name: string, fallback: string): string
  {
    if name in raw && raw[name] != "" then raw[name] else fallback
  }

  /** Supplied with a non-empty value. */
  predicate Given(raw: RawConfig, name: string) {
    name in raw && raw[name] != ""
  }

  /**
   * getConfigValues: every non-empty supplied option is kept verbatim; a missing or
   * empty one becomes "" except `baseUrl` and `signingVersion`, which get their defaults.
   */
  function GetConfigValues(raw: RawConfig): (c: AbilityConfig)
    ensures Given(raw, "sharedSecret") ==> c.sharedSecret == raw["sharedSecret"]
    ensures Given(raw, "apiKey") ==> c.apiKey == raw["apiKey"]
    ensures Given(raw, "apiSecret") ==> c.apiSecret == raw["apiSecret"]
    ensures Given(raw, "privateKey") ==> c.privateKey == raw["privateKey"]
    ensures Given(raw, "integrationId") ==> c.integrationId == raw["integrationId"]
    ensures Given(raw, "baseUrl") ==> c.baseUrl == raw["baseUrl"]
    ensures Given(raw, "signingVersion") ==> c.signingVersion == raw["signingVersion"]
    ensures !Given(raw, "sharedSecret") ==> c.sharedSecret == ""
    ensures !Given(raw, "apiKey") ==> c.apiKey == ""
    ensures !Given(raw, "apiSecret") ==> c.apiSecret == ""
    ensures !Given(raw, "privateKey") ==> c.privateKey == ""
    ensures !Given(raw, "integrationId") ==> c.integrationId == ""
    ensures !Given(raw, "baseUrl") ==> c.baseUrl == DefaultBaseUrl
    ensures !Given(raw, "signingVersion") ==> c.signingVersion == DefaultSigningVersion
    ensures c.baseUrl != "" && c.signingVersion != ""
  {
    AbilityConfig(
      OrDefault(raw, "sharedSecret", ""),
      OrDefault(raw, "apiKey", ""),
      OrDefault(raw, "apiSecret", ""),
      OrDefault(raw, "privateKey", ""),
      OrDefault(raw, "integrationId", ""),
      OrDefault(raw, "baseUrl", DefaultBaseUrl),
      OrDefault(raw, "signingVersion", DefaultSigningVersion))
  }

  /** A completed configuration written back as an options object. */
  function ToRaw(c: AbilityConfig): RawConfig
  {
    map["sharedSecret" := c.sharedSecret, "apiKey" := c.apiKey, "apiSecret" := c.apiSecret,
        "privateKey" := c.privateKey, "integrationId" := c.integrationId,
        "baseUrl" := c.baseUrl, "signingVersion" := c.signingVersion]
  }

  /** Completing an already completed configuration changes nothing. */
  lemma GetConfigValuesIdempotent(raw: RawConfig)
    ensures GetConfigValues(ToRaw(GetConfigValues(raw))) == GetConfigValues(raw)
  {
    var c := GetConfigValues(raw);
    var r := ToRaw(c);
    assert r["sharedSecret"] == c.sharedSecret && r["apiKey"] == c.apiKey && r["apiSecret"] == c.apiSecret;
    assert r["privateKey"] == c.privateKey && r["integrationId"] == c.integrationId;
    assert r["baseUrl"] == c.baseUrl && r["signingVersion"] == c.signingVersion;
  }

  /**
   * An ability instance (lib/ability.instance.js): the services it wires up are all
   * built from this one configuration.
   */
  datatype AbilityInstance = AbilityInstance(config: AbilityConfig)

  /** `!abilityKey`: no key, or the empty key. */
  predicate NoKey(abilityKey: Option<string>) {
    abilityKey.None? || abilityKey.value == ""
  }

  /** The module-level `abilities` dictionary and the two operations on it. */
  class Registry {
    var abilities: map<string, AbilityInstance>

    /** The module starts with an empty registry. */
    constructor()
      ensures abilities == map[]
    {
      abilities := map[];
    }

    /** The registry init builds from an options dictionary. */
    static function Built(optDictionary: map<string, RawConfig>): (abilities: map<string, AbilityInstance>)
      ensures abilities.Keys == optDictionary.Keys
    {
      map k | k in optDictionary :: AbilityInstance(GetConfigValues(optDictionary[k]))
    }

    /**
     * init: discards the previous registry, then registers every ability of the
     * dictionary with its completed configuration; returns the new registry.
     */
    method Init(optDictionary: map<string, RawConfig>) returns (r: map<string, AbilityInstance>)
      modifies this
      ensures abilities == Built(optDictionary)
      ensures abilities.Keys == optDictionary.Keys
      ensures forall k :: k in abilities ==> abilities[k].config == GetConfigValues(optDictionary[k])
      ensures r == abilities
    {
      abilities := map[];
      var remaining := optDictionary.Keys;
      while remaining != {}
        invariant remaining <= optDictionary.Keys
        invariant abilities.Keys == optDictionary.Keys - remaining
        invariant forall k :: k in abilities ==> abilities[k] == AbilityInstance(GetConfigValues(optDictionary[k]))
        decreases remaining
      {
        var abilityKey :| abilityKey in remaining;
        var abilityConfig := GetConfigValues(optDictionary[abilityKey]);
        abilities := abilities[abilityKey := AbilityInstance(abilityConfig)];
        remaining := remaining - {abilityKey};
      }
      assert abilities.Keys == Built(optDictionary).Keys;
      return abilities;
    }

    /**
     * get, as written: with no key and several abilities the lookup fails, and since
     * the error constructor it names is undefined the failure is a TypeError; with no
     * key and exactly one ability, that ability; otherwise the entry for the key, if
     * any. The registry is not changed.
     */
    method Get(abilityKey: Option<string>) returns (r: Result<Option<AbilityInstance>, Error>)
      ensures NoKey(abilityKey) && |abilities| > 1 <==> r.Err?
      ensures r.Err? ==> r.error == TypeError
      ensures NoKey(abilityKey) && |abilities| == 1 ==> r.Ok? && r.value.Some? && r.value.value in abilities.Values
      ensures NoKey(abilityKey) && |abilities| == 0 ==> r == Ok(None)
      ensures !NoKey(abilityKey) ==>
        r == Ok(if abilityKey.value in abilities then Some(abilities[abilityKey.value]) else None)
    {
      if |abilities| > 1 && NoKey(abilityKey) {
        return Err(TypeError);
      }
      if |abilities| == 1 && NoKey(abilityKey) {
        var k :| k in abilities;
        return Ok(Some(abilities[k]));
      }
      if abilityKey.Some? && abilityKey.value in abilities {
        return Ok(Some(abilities[abilityKey.value]));
      }
      return Ok(None);
    }

    /** get as intended: the same selection, failing with the missing-key error. */
    method GetIntended(abilityKey: Option<string>) returns (r: Result<Option<AbilityInstance>, Error>)
      ensures NoKey(abilityKey) && |abilities| > 1 <==> r.Err?
      ensures r.Err? ==> r.error == ConfigKeyMissing(ConfigKeyMissingMessage)
      ensures NoKey(abilityKey) && |abilities| == 1 ==> r.Ok? && r.value.Some? && r.value.value in abilities.Values
      ensures NoKey(abilityKey) && |abilities| == 0 ==> r == Ok(None)
      ensures !NoKey(abilityKey) ==>
        r == Ok(if abilityKey.value in abilities then Some(abilities[abilityKey.value]) else None)
    {
      r := Get(abilityKey);
      if r.Err? {
        r := Err(ConfigKeyMissing(ConfigKeyMissingMessage));
      }
    }
  }

  /**
   * The case of test/util/config.test.js:65-76, two abilities and no key: as written
   * the lookup fails with a TypeError, not with the error the test expects.
   */
  method MissingKeyAsWritten() returns (r: Result<Option<AbilityInstance>, Error>)
    ensures r == Err(TypeError)
  {
    var registry := new Registry();
    var _ := registry.Init(map["first" := map["integrationId" := "first"], "second" := map["integrationId" := "second"]]);
    r := registry.Get(None);
  }

  /** The same case with the intended lookup fails with the expected message. */
  method MissingKeyIntended() returns (r: Result<Option<AbilityInstance>, Error>)
    ensures r == Err(ConfigKeyMissing(ConfigKeyMissingMessage))
  {
    var registry := new Registry();
    var _ := registry.Init(map["first" := map["integrationId" := "first"], "second" := map["integrationId" := "second"]]);
    r := registry.GetIntended(None);
  }

  /** After init with a single ability, get without a key returns exactly that ability. */
  lemma SingleAbility(name: string, raw: RawConfig)
    ensures Registry.Built(map[name := raw]) == map[name := AbilityInstance(GetConfigValues(raw))]
    ensures |Registry.Built(map[name := raw])| == 1
    ensures Registry.Built(map[name := raw]).Values == {AbilityInstance(GetConfigValues(raw))}
  {
    var b := Registry.Built(map[name := raw]);
    assert b.Keys == {name};
    assert b == map[name := AbilityInstance(GetConfigValues(raw))];
  }
}
