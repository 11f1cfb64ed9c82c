/**
 * The origin check the backend hands to its CORS configuration (main.ts):
 * a request without an origin is allowed, and otherwise only plain-HTTP
 * origins on the loopback host, under one of its three names and with an
 * optional port, are allowed. The result is what is passed to the callback:
 * `callback(null, true)` or `callback(new Error(...))`.
 */
module Cors {
  import opened Wrappers
  import opened JsText

  /** The error message of a refused origin. */
  const CorsError: string := "CORS policy: Only localhost access is allowed"

  /**
   * The fixed part of each allowed pattern, in order:
   * `^http:\/\/localhost(:\d+)?$`, `^http:\/\/127\.0\.0\.1(:\d+)?$` and
   * `^http:\/\/\[::1\](:\d+)?$`.
   */
  const AllowedHosts: seq<string> := ["http://localhost", "http://127.0.0.1", "http://[::1]"]

  predicate StartsWith(s: string, w: string) {
    |w| <= |s| && s[..|w|] == w
  }

  /** `(:\d+)?$`: nothing, or a colon and one or more decimal digits up to the end. */
  predicate PortSuffix(rest: string) {
    rest == [] || (|rest| >= 2 && rest[0] == ':' && forall k :: 1 <= k < |rest| ==> IsDigit(rest[k]))
  }

  /** One anchored pattern tests true: the whole origin is the host and an optional port. */
  predicate HostMatches(origin: string, host: string) {
    StartsWith(origin, host) && PortSuffix(origin[|host|..])
  }

  /** `allowedPatterns.some(pattern => pattern.test(origin))` over the entries from `k` on. */
  predicate SomeHostMatches(origin: string, hosts: seq<string>, k: nat)
    decreases |hosts| - k
  {
    k < |hosts| && (HostMatches(origin, hosts[k]) || SomeHostMatches(origin, hosts, k + 1))
  }

  /** The `origin` callback: a missing or empty origin passes, otherwise one pattern must match. */
  function CheckOrigin(origin: Option<string>): (r: Outcome<string>)
    ensures r == Pass || r == Fail(CorsError)
  {
    if origin.None? || origin.value == "" then Pass
    else if SomeHostMatches(origin.value, AllowedHosts, 0) then Pass
    else Fail(CorsError)
  }

  lemma {:induction false} SomeHostMatchesIff(origin: string, hosts: seq<string>, k: nat)
    ensures SomeHostMatches(origin, hosts, k) <==> exists j :: k <= j < |hosts| && HostMatches(origin, hosts[j])
    decreases |hosts| - k
  {
    if k < |hosts| {
      SomeHostMatchesIff(origin, hosts, k + 1);
    }
  }

  /** A non-empty origin passes exactly when it is one of the three hosts followed by an optional port. */
  lemma CheckOriginIff(origin: string)
    requires origin != ""
    ensures CheckOrigin(Some(origin)) == Pass <==>
      exists host, rest :: host in AllowedHosts && origin == host + rest && PortSuffix(rest)
  {
    SomeHostMatchesIff(origin, AllowedHosts, 0);
    if CheckOrigin(Some(origin)) == Pass {
      var j :| 0 <= j < |AllowedHosts| && HostMatches(origin, AllowedHosts[j]);
      SplitAtHost(origin, AllowedHosts[j]);
    }
    if exists host, rest :: host in AllowedHosts && origin == host + rest && PortSuffix(rest) {
      var host, rest :| host in AllowedHosts && origin == host + rest && PortSuffix(rest);
      var j :| 0 <= j < |AllowedHosts| && AllowedHosts[j] == host;
      JoinedMatches(host, rest);
    }
  }

  lemma SplitAtHost(origin: string, host: string)
    requires HostMatches(origin, host)
    ensures origin == host + origin[|host|..] && PortSuffix(origin[|host|..])
  {
  }

  lemma JoinedMatches(host: string, rest: string)
    requires PortSuffix(rest)
    ensures HostMatches(host + rest, host)
  {
    assert (host + rest)[..|host|] == host && (host + rest)[|host|..] == rest;
  }

  /**
   * Whatever passes is plain HTTP with no path: after `http://` there is
   * never a `/`, so `https` origins, paths and other schemes are refused.
   */
  lemma AllowedIsPlainHttpWithoutPath(origin: string)
    requires origin != "" && CheckOrigin(Some(origin)) == Pass
    ensures StartsWith(origin, "http://")
    ensures forall k :: 7 <= k < |origin| ==> origin[k] != '/'
  {
    CheckOriginIff(origin);
    var host, rest :| host in AllowedHosts && origin == host + rest && PortSuffix(rest);
    PlainHttp(host, rest);
  }

  /** An allowed host with a port suffix is plain HTTP with no `/` after the scheme. */
  lemma PlainHttp(host: string, rest: string)
    requires host in AllowedHosts && PortSuffix(rest)
    ensures StartsWith(host + rest, "http://")
    ensures forall k :: 7 <= k < |host + rest| ==> (host + rest)[k] != '/'
  {
    var origin := host + rest;
    assert host[..7] == "http://";
    assert origin[..7] == host[..7];
    forall k | 7 <= k < |origin| ensures origin[k] != '/' {
      if k < |host| {
        assert origin[k] == host[k];
      } else {
        assert origin[k] == rest[k - |host|];
      }
    }
  }

  /** The loopback names with any port, written as decimal digits, are allowed. */
  lemma HostWithPortAllowed(host: string, port: string)
    requires host in AllowedHosts && port != [] && forall k :: 0 <= k < |port| ==> IsDigit(port[k])
    ensures CheckOrigin(Some(host + ":" + port)) == Pass
  {
    var rest := ":" + port;
    assert PortSuffix(rest) by {
      forall k | 1 <= k < |rest| ensures IsDigit(rest[k]) {
        assert rest[k] == port[k - 1];
      }
    }
    assert host + ":" + port == host + rest;
    CheckOriginIff(host + rest);
  }

  /** The loopback names without a port are allowed. */
  lemma BareHostAllowed(host: string)
    requires host in AllowedHosts
    ensures CheckOrigin(Some(host)) == Pass
  {
    assert host == host + [];
    CheckOriginIff(host);
  }

  /**
   * `http://localhost` followed by anything that is not a port is refused:
   * a colon without digits, a longer host name such as
   * `localhost.evil.com`, or a path.
   */
  lemma LocalhostLookalikeRefused(rest: string)
    requires rest != [] && !PortSuffix(rest)
    ensures CheckOrigin(Some("http://localhost" + rest)) == Fail(CorsError)
  {
    var origin := "http://localhost" + rest;
    assert !HostMatches(origin, AllowedHosts[0]) by {
      assert origin[|"http://localhost"|..] == rest;
    }
    assert !StartsWith(origin, AllowedHosts[1]) by {
      assert origin[7] == 'l';
    }
    assert !StartsWith(origin, AllowedHosts[2]) by {
      assert origin[7] == 'l';
    }
    assert !SomeHostMatches(origin, AllowedHosts, 3);
  }

  /** A colon with no digits after it is refused. */
  lemma EmptyPortRefused()
    ensures CheckOrigin(Some("http://localhost:")) == Fail(CorsError)
  {
    LocalhostLookalikeRefused(":");
    assert "http://localhost" + ":" == "http://localhost:";
  }

  /** A host that only starts like `localhost` is refused. */
  lemma LongerHostRefused()
    ensures CheckOrigin(Some("http://localhost.evil.com")) == Fail(CorsError)
  {
    LocalhostLookalikeRefused(".evil.com");
    assert "http://localhost" + ".evil.com" == "http://localhost.evil.com";
  }

  /** The secure scheme on the same host is refused. */
  lemma HttpsRefused(origin: string)
    requires StartsWith(origin, "https://")
    ensures CheckOrigin(Some(origin)) == Fail(CorsError)
  {
    assert origin[..8][4] == 's';
    if CheckOrigin(Some(origin)) == Pass {
      AllowedIsPlainHttpWithoutPath(origin);
    }
  }

  /** A missing or empty origin, as for a same-origin request, is allowed. */
  lemma NoOriginAllowed()
    ensures CheckOrigin(None) == Pass && CheckOrigin(Some("")) == Pass
  {
  }
}
