/**
 * The enable-URL builder (lib/service/url.service.js). `encodeURIComponent` is a
 * parameter.
 */
module Url {
  import opened Wrappers
  import opened Strings
  import opened Config

  const EnablePath := "/v1/api/integration/enable?state="
  const ErrorParameter := "&error="

  /** `!error`: no error, or the empty string. */
  predicate NoError(error: Option<string>) {
    error.None? || error.value == ""
  }

  class UrlService {
    const abilityConfig: AbilityConfig

    constructor(config: AbilityConfig)
      ensures abilityConfig == config
    {
      abilityConfig := config;
    }

    /** The URL without an error: base URL, enable path, and the state as given. */
    function EnableUrl(state: string): (url: string)
      ensures StartsWith(url, abilityConfig.baseUrl + EnablePath)
      ensures url[|abilityConfig.baseUrl + EnablePath|..] == state
    {
      abilityConfig.baseUrl + EnablePath + state
    }

    /**
     * buildEnableUrl: the enable URL, followed by the encoded error when an error is
     * given and non-empty.
     */
    function BuildEnableUrl(state: string, error: Option<string>, encodeURIComponent: string -> string): (url: string)
      ensures StartsWith(url, EnableUrl(state))
      ensures NoError(error) ==> url == EnableUrl(state)
      ensures !NoError(error) ==> url[|EnableUrl(state)|..] == ErrorParameter + encodeURIComponent(error.value)
    {
      var url := abilityConfig.baseUrl + EnablePath + state;
      if error.Some? && error.value != "" then url + ErrorParameter + encodeURIComponent(error.value) else url
    }
  }

  /** An empty error is the same as no error. */
  lemma EmptyErrorIsNoError(u: UrlService, state: string, encode: string -> string)
    ensures u.BuildEnableUrl(state, Some(""), encode) == u.BuildEnableUrl(state, None, encode) == u.EnableUrl(state)
  {
  }

  /** The encoded error is exactly what follows the error parameter, so it can be read back from the URL. */
  lemma ErrorPartOfUrl(u: UrlService, state: string, error: string, encode: string -> string)
    requires error != ""
    ensures var url := u.BuildEnableUrl(state, Some(error), encode);
      url[|u.EnableUrl(state) + ErrorParameter|..] == encode(error)
  {
    var url := u.BuildEnableUrl(state, Some(error), encode);
    var k := |u.EnableUrl(state)|;
    assert url[k..] == ErrorParameter + encode(error);
    assert url[k + |ErrorParameter|..] == url[k..][|ErrorParameter|..];
  }

  /** With an injective encoding, different non-empty errors give different URLs. */
  lemma DistinctErrorsDistinctUrls(u: UrlService, state: string, e1: string, e2: string, encode: string -> string)
    requires e1 != "" && e2 != "" && e1 != e2
    requires forall a, b :: encode(a) == encode(b) ==> a == b
    ensures u.BuildEnableUrl(state, Some(e1), encode) != u.BuildEnableUrl(state, Some(e2), encode)
  {
    ErrorPartOfUrl(u, state, e1, encode);
    ErrorPartOfUrl(u, state, e2, encode);
    assert encode(e1) != encode(e2);
  }
}
