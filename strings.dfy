/** String helpers shared by the modules (JavaScript's `startsWith`). */
module Strings {

  predicate StartsWith(s: string, prefix: string) {
    |prefix| <= |s| && s[..|prefix|] == prefix
  }

  /** A prefix check, one character at a time. */
  lemma StartsWithUncons(s: string, prefix: string)
    requires prefix != []
    ensures StartsWith(s, prefix) <==> s != [] && s[0] == prefix[0] && StartsWith(s[1..], prefix[1..])
  {
    if s != [] && |prefix| <= |s| {
      assert s[..|prefix|] == [s[0]] + s[1..][..|prefix| - 1];
      assert prefix == [prefix[0]] + prefix[1..];
    }
  }
}
