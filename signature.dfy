/**
 * Verification of the signature sent with an ability callback
 * (lib/service/signature.service.js). The HMAC-SHA256 hex digest and the clock are
 * parameters: `hmac(secret, message)` and `now` in milliseconds since the epoch.
 */
module Signature {
  import opened Decimal
  import opened Config

  const ToleranceInMinutes := 5
  const ToleranceInMilliseconds := 60 * ToleranceInMinutes * 1000

  /** Timestamps above this are already in milliseconds; the rest are seconds. */
  const MillisecondThreshold := 1000000000000

  /** The timestamp in milliseconds, whichever unit it was given in. */
  function TimestampInMs(timestamp: int): (ms: int)
    ensures timestamp > MillisecondThreshold ==> ms == timestamp
    ensures timestamp <= MillisecondThreshold ==> ms == timestamp * 1000
    ensures timestamp > MillisecondThreshold / 1000 ==> ms > MillisecondThreshold
  {
    if timestamp > MillisecondThreshold then timestamp else timestamp * 1000
  }

  /** |now - ms| <= tolerance. */
  predicate WithinTolerance(now: int, ms: int) {
    -ToleranceInMilliseconds <= now - ms <= ToleranceInMilliseconds
  }

  /** The signed message: version, the timestamp as supplied, and the state, joined by ':'. */
  function SignedMessage(signingVersion: string, timestamp: int, state: string): string
  {
    signingVersion + ":" + IntToString(timestamp) + ":" + state
  }

  /** The signature a sender holding the same configuration produces. */
  function Sign(hmac: (string, string) -> string, config: AbilityConfig, timestamp: int, state: string): string
  {
    config.signingVersion + ":" + hmac(config.sharedSecret, SignedMessage(config.signingVersion, timestamp, state))
  }

  class SignatureService {
    const abilityConfig: AbilityConfig

    constructor(config: AbilityConfig)
      ensures abilityConfig == config
    {
      abilityConfig := config;
    }

    /**
     * verifySignature: false outside the five-minute window whatever the signature;
     * inside it, true exactly when the signature is the one built from this
     * configuration's secret and version over the supplied timestamp and state.
     */
    function VerifySignature(hmac: (string, string) -> string, now: int,
                             state: string, timestamp: int, signatureToVerify: string): (ok: bool)
      ensures !WithinTolerance(now, TimestampInMs(timestamp)) ==> !ok
      ensures WithinTolerance(now, TimestampInMs(timestamp)) ==>
        (ok <==> signatureToVerify == Sign(hmac, abilityConfig, timestamp, state))
    {
      var timestampInMs := if timestamp > MillisecondThreshold then timestamp else timestamp * 1000;
      var deltaFromCurrentTime := if now - timestampInMs < 0 then timestampInMs - now else now - timestampInMs;
      if deltaFromCurrentTime > ToleranceInMilliseconds then false
      else
        var expectedSignature := hmac(abilityConfig.sharedSecret,
                                      abilityConfig.signingVersion + ":" + IntToString(timestamp) + ":" + state);
        abilityConfig.signingVersion + ":" + expectedSignature == signatureToVerify
    }
  }

  /** A timestamp in seconds and the same instant in milliseconds are read alike (for instants after 2001-09-09). */
  lemma SecondsAndMillisecondsAgree(seconds: int)
    requires MillisecondThreshold / 1000 < seconds <= MillisecondThreshold
    ensures TimestampInMs(seconds) == TimestampInMs(seconds * 1000) == seconds * 1000
  {
  }

  /** A signature made by the same configuration verifies throughout the window, boundaries included. */
  lemma SignedVerifies(s: SignatureService, hmac: (string, string) -> string, now: int, state: string, timestamp: int)
    requires WithinTolerance(now, TimestampInMs(timestamp))
    ensures s.VerifySignature(hmac, now, state, timestamp, Sign(hmac, s.abilityConfig, timestamp, state))
  {
  }

  /** The window boundary: a delta of exactly five minutes passes, one millisecond more does not. */
  lemma WindowBoundary(s: SignatureService, hmac: (string, string) -> string, ms: int, state: string, sig: string)
    requires ms > MillisecondThreshold
    ensures s.VerifySignature(hmac, ms + 300000, state, ms, Sign(hmac, s.abilityConfig, ms, state))
    ensures s.VerifySignature(hmac, ms - 300000, state, ms, Sign(hmac, s.abilityConfig, ms, state))
    ensures !s.VerifySignature(hmac, ms + 300001, state, ms, sig)
    ensures !s.VerifySignature(hmac, ms - 300001, state, ms, sig)
  {
  }

  /** The digest is injective in (secret, message) and is hexadecimal, so it holds no ':'. */
  ghost predicate IdealHmac(hmac: (string, string) -> string) {
    && (forall k1, m1, k2, m2 :: hmac(k1, m1) == hmac(k2, m2) ==> k1 == k2 && m1 == m2)
    && (forall k, m :: ':' !in hmac(k, m))
  }

  /** Splitting at the first ':' when the left parts hold none. */
  lemma SplitAtFirstColon(a: string, b: string, c: string, d: string)
    requires ':' !in a && ':' !in c && a + ":" + b == c + ":" + d
    ensures a == c && b == d
  {
    var x := a + ":" + b;
    assert x[|a|] == ':' && x[|c|] == ':';
    assert |a| <= |c| by {
      if |a| > |c| {
        assert false;
      }
    }
    assert |c| <= |a| by {
      if |c| > |a| {
        assert false;
      }
    }
    assert a == x[..|a|] == c;
    assert b == x[|a| + 1..] == d;
  }

  /** Splitting at the last ':' when the right parts hold none. */
  lemma SplitAtLastColon(a: string, b: string, c: string, d: string)
    requires ':' !in b && ':' !in d && a + ":" + b == c + ":" + d
    ensures a == c && b == d
  {
    var x := a + ":" + b;
    assert x[|a|] == ':' && x[|c|] == ':';
    assert |a| <= |c| by {
      if |a| > |c| {
        assert false;
      }
    }
    assert |c| <= |a| by {
      if |c| > |a| {
        assert false;
      }
    }
    assert a == x[..|a|] == c;
    assert b == x[|a| + 1..] == d;
  }

  /**
   * With an ideal HMAC, one signature is accepted for one (secret, version,
   * timestamp, state) only: a signature accepted by two services for two requests
   * means the secrets, versions, timestamps and states are the same. So a wrong
   * state, secret, version or timestamp is rejected.
   */
  lemma SignatureBindsInputs(s1: SignatureService, s2: SignatureService, hmac: (string, string) -> string,
                             now: int, state1: string, timestamp1: int, state2: string, timestamp2: int, sig: string)
    requires IdealHmac(hmac)
    requires s1.VerifySignature(hmac, now, state1, timestamp1, sig)
    requires s2.VerifySignature(hmac, now, state2, timestamp2, sig)
    ensures s1.abilityConfig.sharedSecret == s2.abilityConfig.sharedSecret
    ensures s1.abilityConfig.signingVersion == s2.abilityConfig.signingVersion
    ensures timestamp1 == timestamp2 && state1 == state2
  {
    var c1, c2 := s1.abilityConfig, s2.abilityConfig;
    var m1 := SignedMessage(c1.signingVersion, timestamp1, state1);
    var m2 := SignedMessage(c2.signingVersion, timestamp2, state2);
    SplitAtLastColon(c1.signingVersion, hmac(c1.sharedSecret, m1), c2.signingVersion, hmac(c2.sharedSecret, m2));
    assert m1 == m2;
    var v := c1.signingVersion;
    var r1, r2 := IntToString(timestamp1) + ":" + state1, IntToString(timestamp2) + ":" + state2;
    assert m1 == (v + ":") + r1 && m2 == (v + ":") + r2;
    assert r1 == m1[|v + ":"|..] == m2[|v + ":"|..] == r2;
    SplitAtFirstColon(IntToString(timestamp1), state1, IntToString(timestamp2), state2);
    IntToStringInjective(timestamp1, timestamp2);
  }
}
