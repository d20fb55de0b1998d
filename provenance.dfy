/** The provenance link of a collapsed network: the web address of the
    network it was derived from, on the server it was read from. */
module Provenance {

  predicate StartsWith(s: string, p: string) {
    |p| <= |s| && s[..|p|] == p
  }

  predicate EndsWith(s: string, p: string) {
    |p| <= |s| && s[|s| - |p|..] == p
  }

  const Fragment: string := "/#/network/"

  /** The server address with a scheme: left alone when it already starts
      with `http`, otherwise prefixed with `http://`. */
  function WithScheme(server: string): (r: string)
    ensures StartsWith(server, "http") ==> r == server
    ensures !StartsWith(server, "http") ==> StartsWith(r, "http://") && r[7..] == server
    ensures StartsWith(r, "http")
  {
    if StartsWith(server, "http") then server else "http://" + server
  }

  /** The address of network `uuid` in the web viewer of `server`. */
  function ParentNetworkUrl(server: string, uuid: string): (url: string)
    ensures StartsWith(url, "http")
    ensures StartsWith(url, WithScheme(server))
    ensures EndsWith(url, Fragment + uuid)
    ensures |url| == |WithScheme(server)| + |Fragment| + |uuid|
  {
    var base := WithScheme(server);
    var url := base + (Fragment + uuid);
    assert url[..|base|] == base && url[..4] == base[..4];
    assert url[|url| - |Fragment + uuid|..] == Fragment + uuid;
    url
  }

  /** The address splits back into the server part and the network id. */
  lemma ParentNetworkUrlSplits(server: string, uuid: string)
    ensures var url := ParentNetworkUrl(server, uuid);
      url[..|WithScheme(server)|] == WithScheme(server) &&
      url[|url| - |uuid|..] == uuid &&
      url[|WithScheme(server)|..|url| - |uuid|] == Fragment
  {
  }

  /** Two addresses are equal exactly when their scheme-completed servers
      and their network ids are. */
  lemma ParentNetworkUrlInjective(s1: string, u1: string, s2: string, u2: string)
    requires |u1| == |u2|
    ensures ParentNetworkUrl(s1, u1) == ParentNetworkUrl(s2, u2) <==>
      WithScheme(s1) == WithScheme(s2) && u1 == u2
  {
    if ParentNetworkUrl(s1, u1) == ParentNetworkUrl(s2, u2) {
      ParentNetworkUrlSplits(s1, u1);
      ParentNetworkUrlSplits(s2, u2);
    }
  }

  /** Completing the scheme twice is completing it once. */
  lemma WithSchemeIdempotent(server: string)
    ensures WithScheme(WithScheme(server)) == WithScheme(server)
  {
  }

  /** A server written without a scheme whose host name happens to start
      with `http` is taken for a full address: the link has no scheme. */
  lemma HostNamedHttpGetsNoScheme()
    ensures var url := ParentNetworkUrl("httpbin.example.org", "42");
      !StartsWith(url, "http://") && !StartsWith(url, "https://")
  {
    var url := ParentNetworkUrl("httpbin.example.org", "42");
    assert StartsWith("httpbin.example.org", "http");
    assert url[..7] == "httpbin";
    assert url[..8] == "httpbin.";
  }

  /** The server address with a scheme, recognising only a full `http://`
      or `https://` prefix as one. */
  function WithSchemeStrict(server: string): (r: string)
    ensures StartsWith(server, "http://") || StartsWith(server, "https://") ==> r == server
    ensures !(StartsWith(server, "http://") || StartsWith(server, "https://")) ==> r == "http://" + server
    ensures StartsWith(r, "http://") || StartsWith(r, "https://")
  {
    if StartsWith(server, "http://") || StartsWith(server, "https://") then server else "http://" + server
  }

  /** The address of network `uuid` in the web viewer of `server`, always
      with a scheme. */
  function ParentNetworkUrlStrict(server: string, uuid: string): (url: string)
    ensures StartsWith(url, "http://") || StartsWith(url, "https://")
    ensures StartsWith(url, WithSchemeStrict(server))
    ensures EndsWith(url, Fragment + uuid)
    ensures |url| == |WithSchemeStrict(server)| + |Fragment| + |uuid|
  {
    var base := WithSchemeStrict(server);
    var url := base + (Fragment + uuid);
    assert url[..|base|] == base;
    assert StartsWith(base, "http://") ==> url[..7] == base[..7];
    assert StartsWith(base, "https://") ==> url[..8] == base[..8];
    assert url[|url| - |Fragment + uuid|..] == Fragment + uuid;
    url
  }

  /** With the strict check, the server of the counterexample above gets
      its scheme. */
  lemma StrictGivesHostNamedHttpScheme()
    ensures ParentNetworkUrlStrict("httpbin.example.org", "42") == "http://" + "httpbin.example.org" + Fragment + "42"
  {
    var server := "httpbin.example.org";
    assert !StartsWith(server, "http://") by {
      assert server[..7][4] == 'b' != "http://"[4];
    }
    assert !StartsWith(server, "https://") by {
      assert server[..8][4] == 'b' != "https://"[4];
    }
  }

  /** Both definitions agree on every server that has a full scheme or none
      that starts with `http`. */
  lemma StrictAgrees(server: string, uuid: string)
    requires StartsWith(server, "http://") || StartsWith(server, "https://") || !StartsWith(server, "http")
    ensures ParentNetworkUrlStrict(server, uuid) == ParentNetworkUrl(server, uuid)
  {
    if StartsWith(server, "http://") {
      assert server[..4] == server[..7][..4];
    } else if StartsWith(server, "https://") {
      assert server[..4] == server[..8][..4];
    }
  }
}
