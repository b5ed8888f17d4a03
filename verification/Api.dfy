// internal/api/api.go and the reload closure of cmd/wafportal/main.go: the
// requests that change the store and bring the live data plane after it.
module Api {
  import opened Wrappers
  import opened Store
  import opened WafManager
  import opened Proxy

  datatype Setup = Setup(compiler: Compiler, lib: Library)

  // The store, the engines, how many pairs were installed, and the routes.
  datatype World = World(db: Db, engines: Engines, generation: nat, tables: Tables)

  // Which store accesses of one request fail.
  datatype Faults = Faults(write: bool, readRules: bool, readSites: bool, rollback: bool)

  const NO_FAULTS := Faults(false, false, false, false)

  datatype Request =
    | CreateSite(site: Site)
    | UpdateSite(siteId: int, site: Site)
    | DeleteSite(siteId: int)
    | CreateRule(rule: Rule)
    | UpdateRule(ruleId: int, rule: Rule)
    | DeleteRule(ruleId: int)

  datatype Status = Created | Updated | NoContent | BadRequest | ServerError

  // ----- Validation -----

  predicate ValidMode(mode: string) {
    mode == MODE_ON || mode == MODE_DETECTION || mode == MODE_OFF
  }

  predicate ValidTLSMode(mode: string) {
    mode == TLS_AUTO || mode == TLS_MANUAL || mode == TLS_OFF
  }

  // Fills in the defaults, or names the first thing wrong with a site.
  function ValidateSite(site: Site): Result<Site, string> {
    if site.domain == "" then Failure("domain is required")
    else if site.upstreamURL == "" then Failure("upstream_url is required")
    else if site.wafMode != "" && !ValidMode(site.wafMode) then Failure("invalid waf_mode")
    else if site.tlsMode != "" && !ValidTLSMode(site.tlsMode) then Failure("invalid tls_mode")
    else
      var filled := site.(wafMode := if site.wafMode == "" then MODE_ON else site.wafMode,
                          tlsMode := if site.tlsMode == "" then TLS_AUTO else site.tlsMode);
      if filled.tlsMode == TLS_MANUAL && (filled.certFile == "" || filled.keyFile == "")
      then Failure("cert_file and key_file are required for manual TLS")
      else Success(filled)
  }

  // A site as a request body may state it.
  predicate Acceptable(site: Site) {
    && site.domain != "" && site.upstreamURL != ""
    && (site.wafMode == "" || site.wafMode == "on" || site.wafMode == "detection" || site.wafMode == "off")
    && (site.tlsMode == "" || site.tlsMode == "auto" || site.tlsMode == "manual" || site.tlsMode == "off")
    && (site.tlsMode == "manual" ==> site.certFile != "" && site.keyFile != "")
  }

  // The row that a body stands for: what was stated, and "on" and "auto" for the
  // modes that were not.
  predicate IsRowFor(row: Site, body: Site) {
    && row.domain == body.domain && row.upstreamURL == body.upstreamURL
    && row.wafMode == (if body.wafMode == "" then "on" else body.wafMode)
    && row.tlsMode == (if body.tlsMode == "" then "auto" else body.tlsMode)
    && row.certFile == body.certFile && row.keyFile == body.keyFile && row.enabled == body.enabled
  }

  // Validation accepts exactly these sites.
  lemma ValidationAccepts(site: Site)
    ensures ValidateSite(site).Success? <==> Acceptable(site)
  {
    assert TLS_AUTO != TLS_MANUAL;
  }

  // It fills in the modes and changes nothing else, and validating twice changes
  // nothing more.
  lemma ValidationFills(site: Site)
    requires ValidateSite(site).Success?
    ensures var s := ValidateSite(site).value;
            && s.id == site.id && IsRowFor(s, site)
            && ValidMode(s.wafMode) && ValidTLSMode(s.tlsMode) && ValidateSite(s) == Success(s)
  {
    var s := ValidateSite(site).value;
    assert s.wafMode != "" && s.tlsMode != "";
  }

  // ----- What a request asks of the store, and what follows -----

  // The tables as the reload will see them, or the refusal sent back at once.
  function Mutate(db: Db, req: Request, f: Faults): Result<Db, Status> {
    match req
    case CreateSite(site) =>
      var v := ValidateSite(site);
      if v.Failure? || f.write || InsertConflicts(db.sites, v.value) then Failure(BadRequest)
      else Success(InsertSite(db, v.value))
    case UpdateSite(id, site) =>
      var v := ValidateSite(site.(id := id));
      if v.Failure? || f.write || UpdateConflicts(db.sites, v.value) then Failure(BadRequest)
      else Success(db.(sites := ReplaceSite(db.sites, v.value)))
    case DeleteSite(id) =>
      if f.write then Failure(ServerError) else Success(db.(sites := SitesWithout(db.sites, id)))
    case CreateRule(rule) =>
      if rule.name == "" || rule.directive == "" || f.write then Failure(BadRequest)
      else Success(InsertRule(db, rule))
    case UpdateRule(id, rule) =>
      if rule.name == "" || rule.directive == "" || f.write then Failure(BadRequest)
      else Success(db.(rules := ReplaceRule(db.rules, rule.(id := id))))
    case DeleteRule(id) =>
      if f.write then Failure(ServerError) else Success(db.(rules := RulesWithout(db.rules, id)))
  }

  predicate DbCompiles(setup: Setup, db: Db) {
    Compiles(setup.compiler, EnabledDirectives(db.rules))
  }

  // The staged refresh: rules, engines, sites, routes. It can stop after any stage.
  function Refresh(setup: Setup, w: World, f: Faults): (World, bool) {
    if f.readRules || !DbCompiles(setup, w.db) then (w, false)
    else
      var engines := EnginePair(EnabledDirectives(w.db.rules), w.generation + 1);
      var w1 := w.(engines := engines, generation := w.generation + 1);
      if f.readSites then (w1, false)
      else (w1.(tables := BuildTables(setup.lib, engines, ByDomain(w.db.sites))), true)
  }

  function Handle(setup: Setup, w: World, req: Request, f: Faults): (World, Status) {
    match Mutate(w.db, req, f)
    case Failure(status) => (w, status)
    case Success(db) =>
      var (w', ok) := Refresh(setup, w.(db := db), f);
      match req
      case CreateSite(_) => (w', Created)
      case UpdateSite(_, _) => (w', Updated)
      case DeleteSite(_) => (w', NoContent)
      case DeleteRule(_) => (w', NoContent)
      case UpdateRule(_, _) => (w', if ok then Updated else BadRequest)
      case CreateRule(_) =>
        if ok then (w', Created)
        else if f.rollback then (w', BadRequest)
        else (w'.(db := w'.db.(rules := RulesWithout(w'.db.rules, w'.db.lastRuleId))), BadRequest)
  }

  class Server {
    const setup: Setup
    const store: Database
    const wafmgr: Manager
    const router: Router

    ghost predicate Valid()
    {
      router.wafmgr == wafmgr && router.lib == setup.lib && wafmgr.compiler == setup.compiler
    }

    function View(): World
      reads store, wafmgr, router
    {
      World(store.Tables(), wafmgr.engines, wafmgr.generation, router.View())
    }

    constructor (setup: Setup, store: Database)
      ensures Valid() && this.setup == setup && this.store == store && fresh(wafmgr) && fresh(router)
      ensures View() == World(store.Tables(), map[], 0, NO_TABLES)
    {
      this.setup, this.store := setup, store;
      var m := new Manager(setup.compiler);
      var r := new Router(setup.lib, m);
      wafmgr, router := m, r;
    }

    // The reload closure.
    method Reload(f: Faults) returns (ok: bool)
      requires Valid()
      modifies wafmgr, router
      ensures (View(), ok) == Refresh(setup, old(View()), f)
    {
      if f.readRules {
        return false;
      }
      var directives := store.EnabledRuleDirectives();
      var compiled := wafmgr.Reload(directives);
      if !compiled {
        return false;
      }
      if f.readSites {
        return false;
      }
      var sites := store.ListSites();
      router.Reload(sites);
      return true;
    }

    method CreateSite(body: Site, f: Faults) returns (status: Status)
      requires Valid()
      modifies store, wafmgr, router
      ensures (View(), status) == Handle(setup, old(View()), Request.CreateSite(body), f)
    {
      var v := ValidateSite(body);
      if v.Failure? {
        return BadRequest;
      }
      var id := store.CreateSite(v.value, f.write);
      if id.None? {
        return BadRequest;
      }
      var _ := Reload(f);
      return Created;
    }

    method UpdateSite(id: int, body: Site, f: Faults) returns (status: Status)
      requires Valid()
      modifies store, wafmgr, router
      ensures (View(), status) == Handle(setup, old(View()), Request.UpdateSite(id, body), f)
    {
      var v := ValidateSite(body.(id := id));
      if v.Failure? {
        return BadRequest;
      }
      var ok := store.UpdateSite(v.value, f.write);
      if !ok {
        return BadRequest;
      }
      var _ := Reload(f);
      return Updated;
    }

    method DeleteSite(id: int, f: Faults) returns (status: Status)
      requires Valid()
      modifies store, wafmgr, router
      ensures (View(), status) == Handle(setup, old(View()), Request.DeleteSite(id), f)
    {
      var ok := store.DeleteSite(id, f.write);
      if !ok {
        return ServerError;
      }
      var _ := Reload(f);
      return NoContent;
    }

    method CreateRule(body: Rule, f: Faults) returns (status: Status)
      requires Valid()
      modifies store, wafmgr, router
      ensures (View(), status) == Handle(setup, old(View()), Request.CreateRule(body), f)
    {
      if body.name == "" || body.directive == "" {
        return BadRequest;
      }
      var id := store.CreateRule(body, f.write);
      if id.None? {
        return BadRequest;
      }
      var ok := Reload(f);
      if !ok {
        var _ := store.DeleteRule(id.value, f.rollback);
        return BadRequest;
      }
      return Created;
    }

    method UpdateRule(id: int, body: Rule, f: Faults) returns (status: Status)
      requires Valid()
      modifies store, wafmgr, router
      ensures (View(), status) == Handle(setup, old(View()), Request.UpdateRule(id, body), f)
    {
      if body.name == "" || body.directive == "" {
        return BadRequest;
      }
      var ok := store.UpdateRule(body.(id := id), f.write);
      if !ok {
        return BadRequest;
      }
      ok := Reload(f);
      return if ok then Updated else BadRequest;
    }

    method DeleteRule(id: int, f: Faults) returns (status: Status)
      requires Valid()
      modifies store, wafmgr, router
      ensures (View(), status) == Handle(setup, old(View()), Request.DeleteRule(id), f)
    {
      var ok := store.DeleteRule(id, f.write);
      if !ok {
        return ServerError;
      }
      var _ := Reload(f);
      return NoContent;
    }
  }
}
