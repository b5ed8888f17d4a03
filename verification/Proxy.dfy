// internal/proxy/proxy.go: the routing tables, rebuilt by one pass over the
// sites and swapped as a whole.
module Proxy {
  import opened Wrappers
  import opened Store
  import opened WafManager

  datatype Url = Url(host: string, rest: string)

  datatype Certificate = Certificate(chain: string)

  // The library calls the tables depend on: lower-casing, URL parsing, and
  // loading a certificate pair from its two files.
  datatype Library = Library(
    lower: string -> string,
    parse: string -> Option<Url>,
    load: (string, string) -> Option<Certificate>)

  // A site's handler: the bare reverse proxy, or the same behind an engine.
  datatype Handler = Bare(target: Url) | Inspected(engine: Engine, target: Url, domain: string)

  datatype Tables = Tables(handlers: map<string, Handler>, autoDomains: set<string>, manualCerts: map<string, Certificate>)

  const NO_TABLES := Tables(map[], {}, map[])

  predicate Routable(lib: Library, s: Site) {
    s.enabled && lib.parse(s.upstreamURL).Some? && lib.parse(s.upstreamURL).value.host != ""
  }

  function KeyOf(lib: Library, s: Site): string {
    lib.lower(s.domain)
  }

  function HandlerOf(lib: Library, engines: Engines, s: Site): Handler
    requires Routable(lib, s)
  {
    var target := lib.parse(s.upstreamURL).value;
    if s.wafMode in engines then Inspected(engines[s.wafMode], target, s.domain) else Bare(target)
  }

  // A handler does for a site what the site's mode asks: inspect with an engine
  // of that mode, or, only when the mode is off, pass straight on.
  predicate Protects(lib: Library, s: Site, h: Handler) {
    && Routable(lib, s) && h.target == lib.parse(s.upstreamURL).value
    && (s.wafMode == MODE_ON ==> h.Inspected? && h.engine.setting == "On" && h.domain == s.domain)
    && (s.wafMode == MODE_DETECTION ==> h.Inspected? && h.engine.setting == "DetectionOnly" && h.domain == s.domain)
    && (s.wafMode == MODE_OFF <==> h.Bare?)
  }

  function AutoOf(s: Site): bool {
    s.tlsMode == TLS_AUTO
  }

  function CertOf(lib: Library, s: Site): Option<Certificate> {
    if s.tlsMode == TLS_MANUAL then lib.load(s.certFile, s.keyFile) else None
  }

  // One turn of the loop.
  function AddSite(lib: Library, engines: Engines, t: Tables, s: Site): Tables {
    if !Routable(lib, s) then t
    else
      var key := KeyOf(lib, s);
      Tables(
        t.handlers[key := HandlerOf(lib, engines, s)],
        if AutoOf(s) then t.autoDomains + {key} else t.autoDomains,
        if CertOf(lib, s).Some? then t.manualCerts[key := CertOf(lib, s).value] else t.manualCerts)
  }

  function BuildTables(lib: Library, engines: Engines, sites: seq<Site>): Tables {
    if sites == [] then NO_TABLES
    else AddSite(lib, engines, BuildTables(lib, engines, sites[..|sites| - 1]), sites[|sites| - 1])
  }

  // ----- What the tables say, without the loop -----

  predicate Answers(lib: Library, s: Site, key: string) {
    Routable(lib, s) && KeyOf(lib, s) == key
  }

  // The last site in the list that answers to `key`.
  ghost predicate IsLast(lib: Library, sites: seq<Site>, key: string, i: int) {
    && 0 <= i < |sites| && Answers(lib, sites[i], key)
    && forall j :: i < j < |sites| ==> !Answers(lib, sites[j], key)
  }

  lemma {:induction false} LastSiteServes(lib: Library, engines: Engines, sites: seq<Site>, key: string)
    ensures var t := BuildTables(lib, engines, sites);
            && (key in t.handlers <==> exists i :: IsLast(lib, sites, key, i))
            && (forall i {:trigger IsLast(lib, sites, key, i)} :: IsLast(lib, sites, key, i) ==> key in t.handlers && t.handlers[key] == HandlerOf(lib, engines, sites[i]))
  {
    if sites != [] {
      var n := |sites| - 1;
      LastSiteServes(lib, engines, sites[..n], key);
      if Answers(lib, sites[n], key) {
        assert IsLast(lib, sites, key, n);
      } else {
        forall i ensures IsLast(lib, sites, key, i) <==> IsLast(lib, sites[..n], key, i) {
        }
      }
    }
  }

  // The TLS flags collect over all sites that answer to a key.
  lemma {:induction false} FlagsCollect(lib: Library, engines: Engines, sites: seq<Site>, key: string)
    ensures var t := BuildTables(lib, engines, sites);
            && (key in t.autoDomains <==> exists s <- sites :: Answers(lib, s, key) && AutoOf(s))
            && (key in t.manualCerts <==> exists s <- sites :: Answers(lib, s, key) && CertOf(lib, s).Some?)
  {
    if sites != [] {
      var n := |sites| - 1;
      FlagsCollect(lib, engines, sites[..n], key);
      assert sites == sites[..n] + [sites[n]];
      assert forall s :: s in sites <==> s in sites[..n] || s == sites[n];
    }
  }

  // The last site in the list whose certificate files load for a key.
  ghost predicate LastLoads(lib: Library, sites: seq<Site>, key: string, i: int) {
    && 0 <= i < |sites| && Loads(lib, sites[i], key)
    && forall j :: i < j < |sites| ==> !Loads(lib, sites[j], key)
  }

  // A manual site for the key whose certificate file and key file load.
  predicate Loads(lib: Library, s: Site, key: string) {
    Answers(lib, s, key) && s.tlsMode == "manual" && lib.load(s.certFile, s.keyFile).Some?
  }

  // A key has a certificate exactly when some manual site for it loads one, and
  // then it is that of the last such site.
  lemma {:induction false} CertificatesLoaded(lib: Library, engines: Engines, sites: seq<Site>, key: string)
    ensures var t := BuildTables(lib, engines, sites);
            && (key in t.manualCerts <==> exists s <- sites :: Loads(lib, s, key))
            && (forall i {:trigger LastLoads(lib, sites, key, i)} :: LastLoads(lib, sites, key, i) ==>
                  key in t.manualCerts && t.manualCerts[key] == lib.load(sites[i].certFile, sites[i].keyFile).value)
  {
    if sites != [] {
      var n := |sites| - 1;
      CertificatesLoaded(lib, engines, sites[..n], key);
      assert sites == sites[..n] + [sites[n]];
      assert forall s :: s in sites <==> s in sites[..n] || s == sites[n];
      if Loads(lib, sites[n], key) {
        assert forall i :: LastLoads(lib, sites, key, i) ==> i == n;
      } else {
        forall i ensures LastLoads(lib, sites, key, i) <==> LastLoads(lib, sites[..n], key, i) {
        }
      }
    }
  }

  lemma {:induction false} SomeIsLast(lib: Library, sites: seq<Site>, key: string, s: Site)
    requires s in sites && Answers(lib, s, key)
    ensures exists i :: IsLast(lib, sites, key, i)
  {
    var n := |sites| - 1;
    if Answers(lib, sites[n], key) {
      assert IsLast(lib, sites, key, n);
    } else {
      assert s in sites[..n];
      SomeIsLast(lib, sites[..n], key, s);
      var i :| IsLast(lib, sites[..n], key, i);
      assert IsLast(lib, sites, key, i);
    }
  }

  // No TLS flag without a handler.
  lemma FlagsHaveHandlers(lib: Library, engines: Engines, sites: seq<Site>)
    ensures var t := BuildTables(lib, engines, sites);
            t.autoDomains <= t.handlers.Keys && t.manualCerts.Keys <= t.handlers.Keys
  {
    var t := BuildTables(lib, engines, sites);
    forall key | key in t.autoDomains || key in t.manualCerts
      ensures key in t.handlers
    {
      FlagsCollect(lib, engines, sites, key);
      LastSiteServes(lib, engines, sites, key);
      var s :| s in sites && Answers(lib, s, key);
      SomeIsLast(lib, sites, key, s);
    }
  }

  // No two routable sites share a lower-cased domain.
  ghost predicate DistinctKeys(lib: Library, sites: seq<Site>) {
    forall i, j :: 0 <= i < j < |sites| && Routable(lib, sites[i]) && Routable(lib, sites[j])
      ==> KeyOf(lib, sites[i]) != KeyOf(lib, sites[j])
  }

  // When lower-cased domains are distinct, the flags are those of the site served.
  lemma FlagsMatchSiteServed(lib: Library, engines: Engines, sites: seq<Site>, key: string, i: int)
    requires DistinctKeys(lib, sites) && IsLast(lib, sites, key, i)
    ensures var t := BuildTables(lib, engines, sites);
            && (key in t.autoDomains <==> AutoOf(sites[i]))
            && (key in t.manualCerts <==> CertOf(lib, sites[i]).Some?)
  {
    FlagsCollect(lib, engines, sites, key);
    forall s | s in sites && Answers(lib, s, key)
      ensures s == sites[i]
    {
      var j :| 0 <= j < |sites| && sites[j] == s;
    }
  }

  // In general they match exactly when no site shadowed by the one served
  // contributes a flag that it does not have itself.
  lemma FlagsMatchIff(lib: Library, engines: Engines, sites: seq<Site>, key: string, i: int)
    requires IsLast(lib, sites, key, i)
    ensures var t := BuildTables(lib, engines, sites);
            && ((key in t.autoDomains <==> AutoOf(sites[i]))
                <==> (forall j :: 0 <= j < i && Answers(lib, sites[j], key) && AutoOf(sites[j]) ==> AutoOf(sites[i])))
            && ((key in t.manualCerts <==> CertOf(lib, sites[i]).Some?)
                <==> (forall j :: 0 <= j < i && Answers(lib, sites[j], key) && CertOf(lib, sites[j]).Some? ==> CertOf(lib, sites[i]).Some?))
  {
    FlagsCollect(lib, engines, sites, key);
    assert sites[i] in sites;
    forall s | s in sites && Answers(lib, s, key)
      ensures exists j :: 0 <= j <= i && sites[j] == s
    {
      var j :| 0 <= j < |sites| && sites[j] == s;
    }
  }

  // Two sites that differ only in the case of their domain, which the UNIQUE
  // constraint allows: the one served is plain HTTP, yet the flags say TLS.
  lemma ShadowedSiteLeavesFlag(lib: Library, engines: Engines, sites: seq<Site>, url: string)
    requires lib.parse(url).Some? && lib.parse(url).value.host != "" && lib.lower("A.test") == lib.lower("a.test")
    requires sites == [Site(1, "A.test", url, MODE_OFF, TLS_AUTO, "", "", true), Site(2, "a.test", url, MODE_OFF, TLS_OFF, "", "", true)]
    ensures var key := lib.lower("a.test"); var t := BuildTables(lib, engines, sites);
            && SortedByDomain(sites)
            && IsLast(lib, sites, key, 1) && !AutoOf(sites[1]) && key in t.autoDomains
  {
    assert AtMost("A.test", "a.test");
    FlagsCollect(lib, engines, sites, lib.lower("a.test"));
    assert sites[0] in sites && Answers(lib, sites[0], lib.lower("a.test")) && AutoOf(sites[0]);
  }

  // With the order ListSites gives, the site served is the one whose domain is
  // greatest among those that answer to the key.
  lemma GreatestDomainServes(lib: Library, sites: seq<Site>, key: string, i: int)
    requires IsLast(lib, ByDomain(sites), key, i)
    ensures forall s <- sites :: Answers(lib, s, key) ==> AtMost(s.domain, ByDomain(sites)[i].domain)
  {
    var rows := ByDomain(sites);
    ByDomainSorts(sites);
    ByDomainSameRows(sites);
    forall s | s in sites && Answers(lib, s, key)
      ensures AtMost(s.domain, rows[i].domain)
    {
      var j :| 0 <= j < |rows| && rows[j] == s;
      if j == i {
        AtMostTotal(s.domain, s.domain);
      }
    }
  }

  // ----- Lookups -----

  // The host part of a Host header, up to the first colon.
  function BeforeColon(s: string): string {
    if s == "" || s[0] == ':' then "" else [s[0]] + BeforeColon(s[1..])
  }

  lemma {:induction false} CutAtColon(domain: string, port: string)
    requires ':' !in domain
    ensures BeforeColon(domain) == domain && BeforeColon(domain + ":" + port) == domain
  {
    if domain == "" {
      assert (domain + ":" + port)[0] == ':';
    } else {
      CutAtColon(domain[1..], port);
      var whole := domain + ":" + port;
      assert whole[0] == domain[0] && whole[1..] == domain[1..] + ":" + port;
    }
  }

  function HandlerFor(lib: Library, t: Tables, host: string): Option<Handler> {
    var domain := BeforeColon(lib.lower(host));
    if domain in t.handlers then Some(t.handlers[domain]) else None
  }

  predicate UsesTLS(lib: Library, t: Tables, host: string) {
    var domain := BeforeColon(lib.lower(host));
    domain in t.autoDomains || domain in t.manualCerts
  }

  // The certificate authority's host policy and certificate selection do not
  // cut off a port.
  predicate HostAllowed(lib: Library, t: Tables, host: string) {
    lib.lower(host) in t.autoDomains
  }

  // A host name, in any case, with or without a port.
  predicate NamesHost(lib: Library, host: string, domain: string, port: string) {
    ':' !in domain && (lib.lower(host) == domain || lib.lower(host) == domain + ":" + port)
  }

  // A site can serve a domain: enabled, with an upstream that has a host, and
  // its own domain the same but for case.
  predicate CanServe(lib: Library, s: Site, domain: string) {
    && s.enabled
    && lib.parse(s.upstreamURL).Some? && lib.parse(s.upstreamURL).value.host != ""
    && lib.lower(s.domain) == domain
  }

  // A request is served exactly when some site can serve its host, and then by
  // the last such site.
  lemma HostServed(lib: Library, engines: Engines, sites: seq<Site>, host: string, domain: string, port: string)
    requires NamesHost(lib, host, domain, port)
    ensures var h := HandlerFor(lib, BuildTables(lib, engines, sites), host);
            && (h.Some? <==> exists s <- sites :: CanServe(lib, s, domain))
            && (forall i {:trigger IsLast(lib, sites, domain, i)} ::
                  IsLast(lib, sites, domain, i) ==> h == Some(HandlerOf(lib, engines, sites[i])))
  {
    CutAtColon(domain, port);
    LastSiteServes(lib, engines, sites, domain);
    if s :| s in sites && CanServe(lib, s, domain) {
      assert Answers(lib, s, domain);
      SomeIsLast(lib, sites, domain, s);
    }
    forall i | IsLast(lib, sites, domain, i)
      ensures exists s <- sites :: CanServe(lib, s, domain)
    {
      assert sites[i] in sites && CanServe(lib, sites[i], domain);
    }
  }

  // A site that asks for TLS and can have it.
  predicate WantsTLS(lib: Library, s: Site) {
    s.tlsMode == "auto" || (s.tlsMode == "manual" && lib.load(s.certFile, s.keyFile).Some?)
  }

  // A plaintext request is redirected exactly when some site that can serve its
  // host has TLS; certificates are ordered exactly for automatic sites.
  lemma RedirectIff(lib: Library, engines: Engines, sites: seq<Site>, host: string, domain: string, port: string)
    requires NamesHost(lib, host, domain, port)
    ensures var t := BuildTables(lib, engines, sites);
            && (UsesTLS(lib, t, host) <==> exists s <- sites :: CanServe(lib, s, domain) && WantsTLS(lib, s))
            && (HostAllowed(lib, t, host) <==> exists s <- sites :: CanServe(lib, s, lib.lower(host)) && s.tlsMode == "auto")
  {
    CutAtColon(domain, port);
    FlagsCollect(lib, engines, sites, domain);
    FlagsCollect(lib, engines, sites, lib.lower(host));
    CertificatesLoaded(lib, engines, sites, domain);
    assert forall s: Site, key: string :: CanServe(lib, s, key) <==> Answers(lib, s, key);
    assert forall s: Site, key: string :: Loads(lib, s, key) <==> CanServe(lib, s, key) && WantsTLS(lib, s) && !AutoOf(s);
  }

  // In particular the site that serves a host gets its redirect.
  lemma ServedSiteRedirects(lib: Library, engines: Engines, sites: seq<Site>, host: string, domain: string, port: string, i: int)
    requires NamesHost(lib, host, domain, port) && IsLast(lib, sites, domain, i) && WantsTLS(lib, sites[i])
    ensures UsesTLS(lib, BuildTables(lib, engines, sites), host)
  {
    RedirectIff(lib, engines, sites, host, domain, port);
    assert sites[i] in sites && CanServe(lib, sites[i], domain);
  }

  // On one snapshot a plaintext request is redirected to HTTPS only for a host
  // that HTTPS then serves, and certificates are ordered only for such hosts.
  lemma RedirectsAreServed(lib: Library, engines: Engines, sites: seq<Site>, host: string)
    ensures var t := BuildTables(lib, engines, sites);
            && (UsesTLS(lib, t, host) ==> HandlerFor(lib, t, host).Some?)
            && (HostAllowed(lib, t, host) ==> lib.lower(host) in t.handlers)
  {
    FlagsHaveHandlers(lib, engines, sites);
  }

  class Router {
    const lib: Library
    const wafmgr: Manager
    var handlers: map<string, Handler>
    var autoDomains: set<string>
    var manualCerts: map<string, Certificate>

    function View(): Tables
      reads this
    {
      Tables(handlers, autoDomains, manualCerts)
    }

    constructor (lib: Library, wafmgr: Manager)
      ensures this.lib == lib && this.wafmgr == wafmgr && View() == NO_TABLES
    {
      this.lib, this.wafmgr := lib, wafmgr;
      handlers, autoDomains, manualCerts := map[], {}, map[];
    }

    method Reload(sites: seq<Site>)
      modifies this
      ensures View() == BuildTables(lib, wafmgr.engines, sites)
    {
      var newHandlers: map<string, Handler> := map[];
      var newAuto: set<string> := {};
      var newCerts: map<string, Certificate> := map[];
      for i := 0 to |sites|
        invariant Tables(newHandlers, newAuto, newCerts) == BuildTables(lib, wafmgr.engines, sites[..i])
      {
        var site := sites[i];
        assert sites[..i + 1][..i] == sites[..i];
        if !site.enabled {
          continue;
        }
        var target := lib.parse(site.upstreamURL);
        if target.None? || target.value.host == "" {
          continue;
        }
        var h := Bare(target.value);
        var engine := wafmgr.EngineFor(site.wafMode);
        if engine.Some? {
          h := Inspected(engine.value, target.value, site.domain);
        }
        var key := lib.lower(site.domain);
        newHandlers := newHandlers[key := h];
        if site.tlsMode == TLS_AUTO {
          newAuto := newAuto + {key};
        } else if site.tlsMode == TLS_MANUAL {
          var cert := lib.load(site.certFile, site.keyFile);
          if cert.Some? {
            newCerts := newCerts[key := cert.value];
          }
        }
      }
      assert sites[..|sites|] == sites;
      handlers, autoDomains, manualCerts := newHandlers, newAuto, newCerts;
    }

    method FindHandler(host: string) returns (h: Option<Handler>)
      ensures h == HandlerFor(lib, View(), host)
    {
      var domain := BeforeColon(lib.lower(host));
      if domain in handlers {
        return Some(handlers[domain]);
      }
      return None;
    }
  }
}
