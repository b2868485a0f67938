/** `validate_config_url`: a configuration link must start with a known scheme. */
module ConfigUrl {
  /** The accepted scheme prefixes, compared case-sensitively. */
  const AllowedPrefixes: seq<string> :=
    ["vless://", "vmess://", "trojan://", "ss://", "ssr://", "tuic://", "hysteria://", "hy2://"]

  /** Python's `any(url.startswith(p) for p in prefixes)`. */
  function StartsWithAny(prefixes: seq<string>, url: string): (b: bool)
    ensures b <==> exists i :: 0 <= i < |prefixes| && prefixes[i] <= url
  {
    if prefixes == [] then false
    else
      assert forall i :: 1 <= i < |prefixes| ==> prefixes[i] == prefixes[1..][i - 1];
      prefixes[0] <= url || StartsWithAny(prefixes[1..], url)
  }

  /** True exactly when `url` begins with one of the accepted scheme prefixes. */
  function ValidConfigUrl(url: string): (b: bool)
    ensures b <==> exists i :: 0 <= i < |AllowedPrefixes| && AllowedPrefixes[i] <= url
  {
    StartsWithAny(AllowedPrefixes, url)
  }

  /** No accepted prefix is a prefix of another one. */
  lemma PrefixesIndependent()
    ensures forall i, j :: 0 <= i < |AllowedPrefixes| && 0 <= j < |AllowedPrefixes| && i != j
              ==> !(AllowedPrefixes[i] <= AllowedPrefixes[j])
  {
    var P := AllowedPrefixes;
    forall i, j | 0 <= i < |P| && 0 <= j < |P| && i != j
      ensures !(P[i] <= P[j])
    {
      // Every two of them already differ within their first three characters.
      assert P[i][0] != P[j][0] || P[i][1] != P[j][1] || P[i][2] != P[j][2];
    }
  }

  /** A valid link is matched by exactly one accepted prefix. */
  lemma ExactlyOnePrefix(url: string, i: nat, j: nat)
    requires i < |AllowedPrefixes| && j < |AllowedPrefixes|
    requires AllowedPrefixes[i] <= url && AllowedPrefixes[j] <= url
    ensures i == j
  {
    PrefixesIndependent();
  }

  /** Examples: a known scheme is accepted whatever follows it. */
  lemma AcceptedExamples()
    ensures ValidConfigUrl("vless://x@h:443")
    ensures ValidConfigUrl("hy2://p@h")
  {
    assert AllowedPrefixes[0] <= "vless://x@h:443";
    assert AllowedPrefixes[7] <= "hy2://p@h";
  }

  /** Examples: the match is exact and case-sensitive. */
  lemma RejectedExamples()
    ensures !ValidConfigUrl("http://x")
    ensures !ValidConfigUrl("vlesss://x")
    ensures !ValidConfigUrl("VLESS://x@h:443")
    ensures !ValidConfigUrl("")
  {
    var P := AllowedPrefixes;
    forall i | 0 <= i < |P| ensures !(P[i] <= "http://x") {
      assert P[i][0] != 'h' || P[i][1] != 't';
    }
    forall i | 0 <= i < |P| ensures !(P[i] <= "vlesss://x") {
      assert P[i][0] != 'v' || P[i][1] != 'l' || P[i][5] != 's';
    }
    forall i | 0 <= i < |P| ensures !(P[i] <= "VLESS://x@h:443") {
      assert P[i][0] != 'V';
    }
  }
}
