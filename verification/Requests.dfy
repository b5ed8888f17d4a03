// What each request of the control plane does to the stored rows, which answer
// it gets, and what a client of the proxied sites then sees.
module Requests {
  import opened Wrappers
  import opened Store
  import opened WafManager
  import opened Proxy
  import opened Api
  import opened ControlRuns

  // ----- Site requests -----

  predicate DomainTaken(sites: seq<Site>, domain: string) {
    exists t <- sites :: t.domain == domain
  }

  // A site is created unless its body is unacceptable, its domain taken, or the
  // insert fails. It becomes the last row, under an id above all earlier ones.
  lemma SiteCreated(setup: Setup, w: World, body: Site, f: Faults)
    requires SitesSound(w.db)
    ensures var (w', status) := Handle(setup, w, CreateSite(body), f);
            var n := |w.db.sites|;
            && status == (if Acceptable(body) && !DomainTaken(w.db.sites, body.domain) && !f.write then Created else BadRequest)
            && (status == BadRequest ==> w' == w)
            && (status == Created ==>
                  && |w'.db.sites| == n + 1 && w'.db.sites[..n] == w.db.sites && IsRowFor(w'.db.sites[n], body)
                  && (forall t <- w.db.sites :: t.id < w'.db.sites[n].id)
                  && w'.db.sites[n].id == w'.db.lastSiteId == w.db.lastSiteId + 1
                  && w'.db.rules == w.db.rules && w'.db.lastRuleId == w.db.lastRuleId
                  && SitesSound(w'.db))
  {
    ValidationAccepts(body);
    if Mutate(w.db, CreateSite(body), f).Success? {
      ValidationFills(body);
      HandleIsRefresh(setup, w, CreateSite(body), f);
      MutateKeepsSites(w.db, CreateSite(body), f);
    }
  }

  // The rows after one row was put in the place of the one with its id.
  ghost predicate Replaced(before: seq<Site>, after: seq<Site>, row: Site) {
    && |after| == |before|
    && forall i :: 0 <= i < |before| ==> after[i] == if before[i].id == row.id then row else before[i]
  }

  // An update is refused if its body is unacceptable, if another row than the one
  // it names has the domain, or if the write fails.
  predicate UpdateRefused(sites: seq<Site>, id: int, body: Site, f: Faults) {
    || !Acceptable(body) || f.write
    || ((exists t <- sites :: t.id == id) && (exists t <- sites :: t.id != id && t.domain == body.domain))
  }

  lemma UpdateMutates(db: Db, id: int, body: Site, f: Faults) returns (row: Site)
    ensures row.id == id && IsRowFor(row, body)
    ensures Mutate(db, UpdateSite(id, body), f)
            == if UpdateRefused(db.sites, id, body, f) then Failure(BadRequest) else Success(db.(sites := ReplaceSite(db.sites, row)))
  {
    row := Site(id, body.domain, body.upstreamURL, if body.wafMode == "" then "on" else body.wafMode,
                if body.tlsMode == "" then "auto" else body.tlsMode, body.certFile, body.keyFile, body.enabled);
    ValidationAccepts(body.(id := id));
    if Acceptable(body) {
      ValidationFills(body.(id := id));
      assert ValidateSite(body.(id := id)).value == row;
    }
  }

  // Otherwise the row with the id of the path becomes the posted one, in its
  // place, and no other row changes.
  lemma SiteUpdated(setup: Setup, w: World, id: int, body: Site, f: Faults) returns (row: Site)
    requires SitesSound(w.db)
    ensures row.id == id && IsRowFor(row, body)
    ensures var (w', status) := Handle(setup, w, UpdateSite(id, body), f);
            && status == (if UpdateRefused(w.db.sites, id, body, f) then BadRequest else Updated)
            && (status == BadRequest ==> w' == w)
            && (status == Updated ==>
                  Replaced(w.db.sites, w'.db.sites, row) && w'.db == w.db.(sites := w'.db.sites) && SitesSound(w'.db))
  {
    row := UpdateMutates(w.db, id, body, f);
    if !UpdateRefused(w.db.sites, id, body, f) {
      HandleIsRefresh(setup, w, UpdateSite(id, body), f);
      RefreshDerivesOrKeeps(setup, w, w.db.(sites := ReplaceSite(w.db.sites, row)), f);
      MutateKeepsSites(w.db, UpdateSite(id, body), f);
    }
  }

  // After a deletion no row has the id, and every other row is still there, in
  // order. (Rows in id order are determined by which rows there are.)
  lemma SiteDeleted(setup: Setup, w: World, id: int, f: Faults)
    requires SitesSound(w.db)
    ensures var (w', status) := Handle(setup, w, DeleteSite(id), f);
            && status == (if f.write then ServerError else NoContent)
            && (status == ServerError ==> w' == w)
            && (status == NoContent ==>
                  && (forall t :: t in w'.db.sites <==> t in w.db.sites && t.id != id)
                  && w'.db == w.db.(sites := w'.db.sites) && SitesSound(w'.db))
  {
    if !f.write {
      HandleIsRefresh(setup, w, DeleteSite(id), f);
      MutateKeepsSites(w.db, DeleteSite(id), f);
      DeleteSiteMeans(w.db.sites, id);
    }
  }

  // ----- Rule requests -----

  // A refresh from these tables gets to its end.
  predicate Refreshes(setup: Setup, db: Db, f: Faults) {
    && !f.readRules && !f.readSites
    && setup.compiler(ConfigText(Join(EnabledDirectives(db.rules)), "On"))
    && setup.compiler(ConfigText(Join(EnabledDirectives(db.rules)), "DetectionOnly"))
  }

  predicate RuleStated(rule: Rule) {
    rule.name != "" && rule.directive != ""
  }

  // A stated rule becomes the last row under a fresh id. It is created if the
  // refresh then completes; if not, it is taken out again, and only the id is
  // used up, unless taking it out fails too.
  lemma RuleCreated(setup: Setup, w: World, rule: Rule, f: Faults)
    requires RuleIdsFresh(w.db)
    ensures var (w', status) := Handle(setup, w, CreateRule(rule), f);
            var row := Rule(w.db.lastRuleId + 1, rule.name, rule.directive, rule.description, rule.enabled);
            var inserted := w.db.(rules := w.db.rules + [row], lastRuleId := row.id);
            && (forall t <- w.db.rules :: t.id < row.id)
            && (!RuleStated(rule) || f.write ==> status == BadRequest && w' == w)
            && (RuleStated(rule) && !f.write ==>
                  if Refreshes(setup, inserted, f) then status == Created && w'.db == inserted
                  else status == BadRequest && w'.db == if f.rollback then inserted else w.db.(lastRuleId := row.id))
  {
    if RuleStated(rule) && !f.write {
      RefreshDerivesOrKeeps(setup, w, InsertRule(w.db, rule), f);
      DeleteUndoesInsert(w.db, rule);
    }
  }

  // An update is stored whether or not the refresh completes; the answer tells.
  lemma RuleUpdated(setup: Setup, w: World, id: int, rule: Rule, f: Faults)
    requires RuleIdsFresh(w.db)
    ensures var (w', status) := Handle(setup, w, UpdateRule(id, rule), f);
            var row := Rule(id, rule.name, rule.directive, rule.description, rule.enabled);
            && (!RuleStated(rule) || f.write ==> status == BadRequest && w' == w)
            && (RuleStated(rule) && !f.write ==>
                  && status == (if Refreshes(setup, w'.db, f) then Updated else BadRequest)
                  && |w'.db.rules| == |w.db.rules| && w'.db == w.db.(rules := w'.db.rules)
                  && forall i :: 0 <= i < |w.db.rules| ==> w'.db.rules[i] == if w.db.rules[i].id == id then row else w.db.rules[i])
  {
    if RuleStated(rule) && !f.write {
      HandleIsRefresh(setup, w, UpdateRule(id, rule), f);
    }
  }

  lemma RuleDeleted(setup: Setup, w: World, id: int, f: Faults)
    requires RuleIdsFresh(w.db)
    ensures var (w', status) := Handle(setup, w, DeleteRule(id), f);
            && status == (if f.write then ServerError else NoContent)
            && (status == ServerError ==> w' == w)
            && (status == NoContent ==>
                  && (forall t :: t in w'.db.rules <==> t in w.db.rules && t.id != id)
                  && w'.db == w.db.(rules := w'.db.rules) && RuleIdsFresh(w'.db))
  {
    if !f.write {
      HandleIsRefresh(setup, w, DeleteRule(id), f);
      DeleteRuleMeans(w.db.rules, id);
    }
  }

  // ----- The refresh, stage by stage -----

  // The engines of one list: one per inspecting mode, and no other.
  ghost predicate EnginesOf(engines: Engines, directives: seq<string>, generation: nat) {
    && engines.Keys == {"on", "detection"}
    && engines["on"] == Engine(directives, "On", generation)
    && engines["detection"] == Engine(directives, "DetectionOnly", generation)
  }

  // Rules that cannot be read or do not compile change nothing. Otherwise both
  // engines are those of the enabled directives, and the routes follow if the
  // sites can be read, or stay as they were.
  lemma RefreshStages(setup: Setup, w: World, f: Faults)
    ensures var (w', ok) := Refresh(setup, w, f);
            && ok == Refreshes(setup, w.db, f) && w'.db == w.db
            && (f.readRules || !Refreshes(setup, w.db, NO_FAULTS) ==> w' == w)
            && (!f.readRules && Refreshes(setup, w.db, NO_FAULTS) ==>
                  EnginesOf(w'.engines, EnabledDirectives(w.db.rules), w'.generation) && w'.generation == w.generation + 1)
            && (if ok then DerivedFrom(setup, w.db, w') else w'.tables == w.tables)
  {
    RefreshDerivesOrKeeps(setup, w, w.db, f);
    assert w.(db := w.db) == w;
  }

  // ----- Who is served, and how -----

  // Among the sites that can serve its domain no domain is greater.
  predicate Wins(lib: Library, sites: seq<Site>, s: Site) {
    forall t <- sites :: CanServe(lib, t, lib.lower(s.domain)) ==> AtMost(t.domain, s.domain)
  }

  lemma WinnerIsLast(lib: Library, sites: seq<Site>, s: Site) returns (i: int)
    requires DomainsDistinct(sites) && s in sites && CanServe(lib, s, lib.lower(s.domain)) && Wins(lib, sites, s)
    ensures IsLast(lib, ByDomain(sites), lib.lower(s.domain), i) && ByDomain(sites)[i] == s
  {
    var rows, key := ByDomain(sites), lib.lower(s.domain);
    ByDomainSorts(sites);
    ByDomainSameRows(sites);
    SomeIsLast(lib, rows, key, s);
    i :| IsLast(lib, rows, key, i);
    GreatestDomainServes(lib, sites, key, i);
    assert rows[i] in rows && CanServe(lib, rows[i], key);
    AtMostAntisymmetric(rows[i].domain, s.domain);
    var j :| 0 <= j < |sites| && sites[j] == s;
    var k :| 0 <= k < |sites| && sites[k] == rows[i];
  }

  // A handler passes to the stated upstream, and does what the stated mode asks
  // with an engine compiled from the stated directives.
  predicate ActsAs(lib: Library, directives: seq<string>, mode: string, domain: string, url: string, h: Handler) {
    && lib.parse(url).Some? && h.target == lib.parse(url).value
    && match h
       case Bare(_) => mode == "off"
       case Inspected(engine, _, name) =>
         && name == domain && engine.source == directives
         && ((mode == "on" && engine.setting == "On") || (mode == "detection" && engine.setting == "DetectionOnly"))
  }

  // Once the live part is that of the tables, a stored site that wins its domain
  // answers for every host with that name, in its stored mode.
  lemma WinnerServes(setup: Setup, db: Db, w: World, s: Site, host: string, port: string)
    requires DerivedFrom(setup, db, w) && DomainsDistinct(db.sites) && ValidMode(s.wafMode)
    requires s in db.sites && CanServe(setup.lib, s, setup.lib.lower(s.domain)) && Wins(setup.lib, db.sites, s)
    requires NamesHost(setup.lib, host, setup.lib.lower(s.domain), port)
    ensures var h := HandlerFor(setup.lib, w.tables, host);
            h.Some? && ActsAs(setup.lib, EnabledDirectives(db.rules), s.wafMode, s.domain, s.upstreamURL, h.value)
    ensures WantsTLS(setup.lib, s) ==> UsesTLS(setup.lib, w.tables, host)
  {
    var i := WinnerIsLast(setup.lib, db.sites, s);
    HostServed(setup.lib, w.engines, ByDomain(db.sites), host, setup.lib.lower(s.domain), port);
    if WantsTLS(setup.lib, s) {
      ServedSiteRedirects(setup.lib, w.engines, ByDomain(db.sites), host, setup.lib.lower(s.domain), port, i);
    }
  }

  // A host is answered by nobody when no stored site can serve it.
  lemma NobodyServes(setup: Setup, db: Db, w: World, host: string, domain: string, port: string)
    requires DerivedFrom(setup, db, w) && NamesHost(setup.lib, host, domain, port)
    requires forall t <- db.sites :: !CanServe(setup.lib, t, domain)
    ensures HandlerFor(setup.lib, w.tables, host) == None
  {
    ByDomainSameRows(db.sites);
    HostServed(setup.lib, w.engines, ByDomain(db.sites), host, domain, port);
  }

  // The refresh after a site request completes.
  lemma SiteRequestRefreshes(setup: Setup, w: World, req: Request, f: Faults)
    requires Mutate(w.db, req, f).Success? && (req.CreateSite? || req.UpdateSite? || req.DeleteSite?)
    requires Refreshes(setup, w.db, f)
    ensures var w' := Handle(setup, w, req, f).0; DerivedFrom(setup, w'.db, w')
  {
    HandleIsRefresh(setup, w, req, f);
    RefreshStages(setup, w.(db := Mutate(w.db, req, f).value), f);
  }

  function ModeOf(body: Site): string {
    if body.wafMode == "" then "on" else body.wafMode
  }

  // A newly created site is answered for in the mode that was posted.
  lemma CreatedSiteServed(setup: Setup, w: World, body: Site, f: Faults, host: string, port: string)
    requires SitesSound(w.db) && Handle(setup, w, CreateSite(body), f).1 == Created && Refreshes(setup, w.db, f)
    requires CanServe(setup.lib, body, setup.lib.lower(body.domain)) && Wins(setup.lib, w.db.sites, body)
    requires NamesHost(setup.lib, host, setup.lib.lower(body.domain), port)
    ensures var h := HandlerFor(setup.lib, Handle(setup, w, CreateSite(body), f).0.tables, host);
            && h.Some?
            && ActsAs(setup.lib, EnabledDirectives(w.db.rules), ModeOf(body), body.domain, body.upstreamURL, h.value)
  {
    var w' := Handle(setup, w, CreateSite(body), f).0;
    SiteCreated(setup, w, body, f);
    SiteRequestRefreshes(setup, w, CreateSite(body), f);
    var s := w'.db.sites[|w.db.sites|];
    assert s in w'.db.sites;
    forall t | t in w'.db.sites && CanServe(setup.lib, t, setup.lib.lower(s.domain))
      ensures AtMost(t.domain, s.domain)
    {
      var i :| 0 <= i < |w'.db.sites| && w'.db.sites[i] == t;
      if i < |w.db.sites| {
        assert w'.db.sites[..|w.db.sites|][i] == t;
      } else {
        AtMostTotal(s.domain, s.domain);
      }
    }
    WinnerServes(setup, w'.db, w', s, host, port);
  }

  lemma ReplacedWins(lib: Library, before: seq<Site>, after: seq<Site>, row: Site)
    requires Replaced(before, after, row) && exists t <- before :: t.id == row.id
    requires forall t <- before :: t.id != row.id && CanServe(lib, t, lib.lower(row.domain)) ==> AtMost(t.domain, row.domain)
    ensures row in after && Wins(lib, after, row)
  {
    var t0 :| t0 in before && t0.id == row.id;
    var k :| 0 <= k < |before| && before[k] == t0;
    assert after[k] == row;
    AtMostTotal(row.domain, row.domain);
    forall t | t in after && t != row
      ensures t in before && t.id != row.id
    {
      var i :| 0 <= i < |after| && after[i] == t;
      assert before[i] in before;
    }
  }

  // So is an updated one.
  lemma UpdatedSiteServed(setup: Setup, w: World, id: int, body: Site, f: Faults, host: string, port: string)
    requires SitesSound(w.db) && Handle(setup, w, UpdateSite(id, body), f).1 == Updated && Refreshes(setup, w.db, f)
    requires CanServe(setup.lib, body, setup.lib.lower(body.domain)) && exists t <- w.db.sites :: t.id == id
    requires forall t <- w.db.sites :: t.id != id && CanServe(setup.lib, t, setup.lib.lower(body.domain)) ==> AtMost(t.domain, body.domain)
    requires NamesHost(setup.lib, host, setup.lib.lower(body.domain), port)
    ensures var h := HandlerFor(setup.lib, Handle(setup, w, UpdateSite(id, body), f).0.tables, host);
            && h.Some?
            && ActsAs(setup.lib, EnabledDirectives(w.db.rules), ModeOf(body), body.domain, body.upstreamURL, h.value)
  {
    var w' := Handle(setup, w, UpdateSite(id, body), f).0;
    var s := SiteUpdated(setup, w, id, body, f);
    SiteRequestRefreshes(setup, w, UpdateSite(id, body), f);
    ReplacedWins(setup.lib, w.db.sites, w'.db.sites, s);
    WinnerServes(setup, w'.db, w', s, host, port);
  }

  // A host that only a deleted site could serve is answered by nobody.
  lemma DeletedSiteUnserved(setup: Setup, w: World, id: int, f: Faults, host: string, domain: string, port: string)
    requires SitesSound(w.db) && Handle(setup, w, DeleteSite(id), f).1 == NoContent && Refreshes(setup, w.db, f)
    requires NamesHost(setup.lib, host, domain, port)
    requires forall t <- w.db.sites :: CanServe(setup.lib, t, domain) ==> t.id == id
    ensures HandlerFor(setup.lib, Handle(setup, w, DeleteSite(id), f).0.tables, host) == None
  {
    var w' := Handle(setup, w, DeleteSite(id), f).0;
    SiteDeleted(setup, w, id, f);
    SiteRequestRefreshes(setup, w, DeleteSite(id), f);
    NobodyServes(setup, w'.db, w', host, domain, port);
  }
}
