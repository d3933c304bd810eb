/** The proxy checker: wrapping an address into a proxy configuration, judging
    one test request, and keeping the proxies that passed. */
module Checker {
  import Text
  import opened Categories

  /** The `proxies` argument of the HTTP client: transport key to proxy URL. */
  type ProxyConfig = map<string, string>

  /** A configuration sending both plain and secure traffic through `url`. */
  function BothTransports(url: string): (r: ProxyConfig)
    ensures r.Keys == {"http", "https"} && r["http"] == url && r["https"] == url
  {
    map["http" := url, "https" := url]
  }

  /** The proxy configuration for an address of the named category; the name is
      compared after lowercasing, and an unknown name gives no configuration. */
  function BuildProxies(address: string, proxyType: string): (r: ProxyConfig)
    ensures r != map[] ==> r.Keys == {"http", "https"} && r["http"] == r["https"]
  {
    var t := Text.Lower(proxyType);
    if t == "http" || t == "https" then BothTransports(t + "://" + address)
    else if t == "socks4" then BothTransports("socks4://" + address)
    else if t == "socks5" then BothTransports("socks5://" + address)
    else map[]
  }

  /** A name matching a category ignoring case wraps the address with that
      category's scheme on both transports: HTTPS addresses get `https://`,
      SOCKS addresses get `socks4://` or `socks5://` even for plain HTTP. */
  lemma BuildProxiesForCategory(address: string, proxyType: string, c: Category)
    requires Text.EqualsIgnoringCase(proxyType, Name(c))
    ensures BuildProxies(address, proxyType) == BothTransports(Scheme(c) + "://" + address)
  {
    Text.LowerEqualIff(proxyType, Name(c));
    LowerNameIsScheme(c);
    var t := Text.Lower(proxyType);
    assert t == Scheme(c);
    match c
    case HTTP => assert t == "http";
    case HTTPS => assert t == "https";
    case SOCKS4 => assert "socks4" + "://" + address == "socks4://" + address;
    case SOCKS5 => assert "socks5" + "://" + address == "socks5://" + address;
  }

  /** A name matching no category, ignoring case, gives the empty configuration. */
  lemma BuildProxiesUnknown(address: string, proxyType: string)
    requires forall c :: !Text.EqualsIgnoringCase(proxyType, Name(c))
    ensures BuildProxies(address, proxyType) == map[]
  {
    forall c: Category
      ensures Text.Lower(proxyType) != Scheme(c)
    {
      LowerNameIsScheme(c);
      Text.LowerEqualIff(proxyType, Name(c));
    }
    assert Scheme(HTTP) == "http" && Scheme(HTTPS) == "https";
    assert Scheme(SOCKS4) == "socks4" && Scheme(SOCKS5) == "socks5";
  }

  /** The wrapped URL is the scheme, "://" and the unchanged address, so the
      address can be read back from either transport entry. */
  lemma BuildProxiesKeepsAddress(address: string, proxyType: string)
    requires BuildProxies(address, proxyType) != map[]
    ensures exists c :: Text.EqualsIgnoringCase(proxyType, Name(c))
    ensures var url := BuildProxies(address, proxyType)["http"];
            |url| >= |address| && url[|url| - |address|..] == address
  {
    if forall c :: !Text.EqualsIgnoringCase(proxyType, Name(c)) {
      BuildProxiesUnknown(address, proxyType);
    } else {
      var c :| Text.EqualsIgnoringCase(proxyType, Name(c));
      BuildProxiesForCategory(address, proxyType, c);
    }
  }

  /** What the HTTP client reports for the test request: an exception (connection
      error, timeout, TLS failure, ...) or a response with its status code and the
      elapsed milliseconds. */
  datatype Reply = Raised | Responded(status: int, elapsedMs: nat)

  /** The verdict of one check: working or not, with the response time. */
  datatype CheckResult = CheckResult(working: bool, ms: nat)

  /** One liveness check. `probe` stands for the test request sent through the
      configuration `BuildProxies` produced. */
  function CheckProxy(probe: ProxyConfig -> Reply, address: string, proxyType: string): (r: CheckResult)
    ensures var reply := probe(BuildProxies(address, proxyType));
            && (r.working <==> reply.Responded? && reply.status == 200)
            && (r.working ==> r.ms == reply.elapsedMs)
            && (!r.working ==> r.ms == 0)
  {
    var reply := probe(BuildProxies(address, proxyType));
    match reply
    case Responded(status, elapsed) =>
      if status == 200 then CheckResult(true, elapsed) else CheckResult(false, 0)
    case Raised => CheckResult(false, 0)
  }

  /** The proxy addresses of a result list, in the same order. */
  function Firsts(results: seq<(string, nat)>): (r: seq<string>)
    ensures |r| == |results|
    ensures forall k :: 0 <= k < |r| ==> r[k] == results[k].0
  {
    seq(|results|, k requires 0 <= k < |results| => results[k].0)
  }

  lemma FirstsSnoc(results: seq<(string, nat)>, p: (string, nat))
    ensures Firsts(results + [p]) == Firsts(results) + [p.0]
  {
  }

  /** Reference filter: the candidates that pass, in input order, each with its time. */
  function Working(candidates: seq<string>, proxyType: string, probe: ProxyConfig -> Reply): (r: seq<(string, nat)>)
    ensures |r| <= |candidates|
    ensures forall k :: 0 <= k < |r| ==> CheckProxy(probe, r[k].0, proxyType) == CheckResult(true, r[k].1)
    decreases |candidates|
  {
    if candidates == [] then []
    else
      var outcome := CheckProxy(probe, candidates[0], proxyType);
      var rest := Working(candidates[1..], proxyType, probe);
      if outcome.working then [(candidates[0], outcome.ms)] + rest else rest
  }

  /** A pair is kept exactly when its address is a candidate whose check passed
      with that response time. */
  lemma {:induction false} WorkingMembers(candidates: seq<string>, proxyType: string, probe: ProxyConfig -> Reply, p: (string, nat))
    ensures p in Working(candidates, proxyType, probe) <==>
      p.0 in candidates && CheckProxy(probe, p.0, proxyType) == CheckResult(true, p.1)
    decreases |candidates|
  {
    if candidates != [] {
      WorkingMembers(candidates[1..], proxyType, probe, p);
      assert candidates == [candidates[0]] + candidates[1..];
    }
  }

  /** Filtering distributes over concatenation. */
  lemma {:induction false} WorkingAppend(a: seq<string>, b: seq<string>, proxyType: string, probe: ProxyConfig -> Reply)
    ensures Working(a + b, proxyType, probe) == Working(a, proxyType, probe) + Working(b, proxyType, probe)
    decreases |a|
  {
    if a == [] {
      assert a + b == b;
    } else {
      assert (a + b)[0] == a[0];
      assert (a + b)[1..] == a[1..] + b;
      WorkingAppend(a[1..], b, proxyType, probe);
    }
  }

  /** Taking out the candidate at `i` takes out exactly its own contribution. */
  lemma WorkingRemove(pending: seq<string>, i: nat, proxyType: string, probe: ProxyConfig -> Reply)
    requires i < |pending|
    ensures var outcome := CheckProxy(probe, pending[i], proxyType);
            (multiset(Working(pending, proxyType, probe))
             == multiset(Working(pending[..i] + pending[i + 1..], proxyType, probe))
              + (if outcome.working then multiset{(pending[i], outcome.ms)} else multiset{}))
  {
    var before, after := pending[..i], pending[i + 1..];
    assert pending == before + [pending[i]] + after;
    WorkingAppend(before + [pending[i]], after, proxyType, probe);
    WorkingAppend(before, [pending[i]], proxyType, probe);
    WorkingAppend(before, after, proxyType, probe);
  }

  /** Every address is kept as often as it occurs among the candidates if it
      passes, and not at all otherwise. */
  lemma {:induction false} WorkingCounts(candidates: seq<string>, proxyType: string, probe: ProxyConfig -> Reply, c: string)
    ensures multiset(Firsts(Working(candidates, proxyType, probe)))[c]
         == if CheckProxy(probe, c, proxyType).working then multiset(candidates)[c] else 0
    decreases |candidates|
  {
    if candidates != [] {
      var x := candidates[0];
      var rest := candidates[1..];
      WorkingCounts(rest, proxyType, probe, c);
      assert candidates == [x] + rest;
      assert multiset(candidates)[c] == (if x == c then 1 else 0) + multiset(rest)[c];
      var outcome := CheckProxy(probe, x, proxyType);
      if outcome.working {
        FirstsConsCount((x, outcome.ms), Working(rest, proxyType, probe), c);
      }
    }
  }

  /** Putting a pair in front adds one occurrence of its address. */
  lemma FirstsConsCount(p: (string, nat), results: seq<(string, nat)>, c: string)
    ensures multiset(Firsts([p] + results))[c] == (if p.0 == c then 1 else 0) + multiset(Firsts(results))[c]
  {
    assert Firsts([p] + results) == [p.0] + Firsts(results);
  }

  /** The checker object; `workingProxies` holds the working proxies found by the latest run. */
  datatype ProxyChecker = ProxyChecker(workingProxies: seq<string>)

  /** One completed check moves its own contribution from the pending
      candidates to the results. */
  lemma CollectStep(pending: seq<string>, i: nat, proxyType: string, probe: ProxyConfig -> Reply,
                    results: seq<(string, nat)>, total: multiset<(string, nat)>)
    requires i < |pending|
    requires multiset(results) + multiset(Working(pending, proxyType, probe)) == total
    ensures var outcome := CheckProxy(probe, pending[i], proxyType);
            var next := if outcome.working then results + [(pending[i], outcome.ms)] else results;
            multiset(next) + multiset(Working(pending[..i] + pending[i + 1..], proxyType, probe)) == total
  {
    WorkingRemove(pending, i, proxyType, probe);
  }

  /** The pool loop: checks every candidate and collects the passing ones in
      completion order, which the model leaves open: each step takes whichever
      pending check finishes next. */
  method CollectWorking(candidates: seq<string>, proxyType: string, probe: ProxyConfig -> Reply)
    returns (working: seq<string>, results: seq<(string, nat)>)
    ensures multiset(results) == multiset(Working(candidates, proxyType, probe))
    ensures working == Firsts(results)
  {
    working := [];
    results := [];
    var pending := candidates;
    while pending != []
      invariant multiset(results) + multiset(Working(pending, proxyType, probe))
             == multiset(Working(candidates, proxyType, probe))
      invariant working == Firsts(results)
      decreases |pending|
    {
      var i :| 0 <= i < |pending|;
      var proxy := pending[i];
      var outcome := CheckProxy(probe, proxy, proxyType);
      CollectStep(pending, i, proxyType, probe, results, multiset(Working(candidates, proxyType, probe)));
      if outcome.working {
        FirstsSnoc(results, (proxy, outcome.ms));
        working := working + [proxy];
        results := results + [(proxy, outcome.ms)];
      }
      pending := pending[..i] + pending[i + 1..];
    }
  }

  /** Checks every candidate in any completion order. The returned pairs are the
      reference filter up to order; the checker's list is reset and then holds
      the same addresses as the pairs. */
  method CheckProxiesMultithread(checker: ProxyChecker, candidates: seq<string>, proxyType: string, probe: ProxyConfig -> Reply)
    returns (checker': ProxyChecker, results: seq<(string, nat)>)
    ensures multiset(results) == multiset(Working(candidates, proxyType, probe))
    ensures forall p :: p in results <==>
      p.0 in candidates && CheckProxy(probe, p.0, proxyType) == CheckResult(true, p.1)
    ensures checker'.workingProxies == Firsts(results)
  {
    var working;
    working, results := CollectWorking(candidates, proxyType, probe);
    checker' := checker.(workingProxies := working);
    forall p
      ensures p in results <==> p.0 in candidates && CheckProxy(probe, p.0, proxyType) == CheckResult(true, p.1)
    {
      assert p in results <==> p in multiset(results);
      assert p in Working(candidates, proxyType, probe) <==> p in multiset(Working(candidates, proxyType, probe));
      WorkingMembers(candidates, proxyType, probe, p);
    }
  }
}
