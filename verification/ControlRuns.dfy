// Serial runs of the control plane: the live engines and routes are a cache of
// the store. What the cache holds after any sequence of requests.
module ControlRuns {
  import opened Wrappers
  import opened Store
  import opened WafManager
  import opened Proxy
  import opened Api

  datatype Call = Call(request: Request, faults: Faults)

  function Run(setup: Setup, w: World, calls: seq<Call>): World
    decreases calls
  {
    if calls == [] then w else Run(setup, Handle(setup, w, calls[0].request, calls[0].faults).0, calls[1..])
  }

  // The world right after a successful startup over given tables.
  function Started(setup: Setup, db: Db): World {
    Refresh(setup, World(db, map[], 0, NO_TABLES), NO_FAULTS).0
  }

  ghost predicate FaultFree(calls: seq<Call>) {
    forall c <- calls :: c.faults == NO_FAULTS
  }

  // The live data plane is the function of `db` that a full reload computes.
  ghost predicate DerivedFrom(setup: Setup, db: Db, w: World) {
    && w.engines == EnginePair(EnabledDirectives(db.rules), w.generation)
    && w.tables == BuildTables(setup.lib, w.engines, ByDomain(db.sites))
  }

  ghost predicate SameLive(w: World, v: World) {
    w.engines == v.engines && w.generation == v.generation && w.tables == v.tables
  }

  // ----- One request -----

  lemma MutateKeepsIdsFresh(db: Db, req: Request, f: Faults)
    requires RuleIdsFresh(db) && Mutate(db, req, f).Success?
    ensures RuleIdsFresh(Mutate(db, req, f).value)
  {
    match req
    case DeleteRule(id) => DeleteRuleMeans(db.rules, id);
    case _ =>
  }

  lemma HandleKeepsIdsFresh(setup: Setup, w: World, req: Request, f: Faults)
    requires RuleIdsFresh(w.db)
    ensures RuleIdsFresh(Handle(setup, w, req, f).0.db)
  {
    if Mutate(w.db, req, f).Success? {
      MutateKeepsIdsFresh(w.db, req, f);
      var db := Mutate(w.db, req, f).value;
      DeleteRuleMeans(db.rules, db.lastRuleId);
    }
  }

  lemma MutateKeepsSites(db: Db, req: Request, f: Faults)
    requires SitesSound(db) && Mutate(db, req, f).Success?
    ensures SitesSound(Mutate(db, req, f).value)
  {
    match req
    case CreateSite(site) =>
      var s := ValidateSite(site).value.(id := db.lastSiteId + 1);
      InsertConflictsIff(db.sites, s);
    case UpdateSite(id, site) =>
      UpdateConflictsIff(db.sites, ValidateSite(site.(id := id)).value);
    case DeleteSite(id) => DeleteSiteMeans(db.sites, id);
    case _ =>
  }

  // In every run, whatever fails, no two sites have one domain or one id.
  lemma {:induction false} SitesStaySound(setup: Setup, w: World, calls: seq<Call>)
    requires SitesSound(w.db)
    ensures SitesSound(Run(setup, w, calls).db)
    decreases calls
  {
    if calls != [] {
      if Mutate(w.db, calls[0].request, calls[0].faults).Success? {
        MutateKeepsSites(w.db, calls[0].request, calls[0].faults);
      }
      SitesStaySound(setup, Handle(setup, w, calls[0].request, calls[0].faults).0, calls[1..]);
    }
  }

  // A rule whose directive does not compile leaves no trace but a used-up id.
  lemma RejectedRuleIsNoOp(setup: Setup, w: World, rule: Rule, f: Faults)
    requires RuleIdsFresh(w.db) && rule.name != "" && rule.directive != "" && !f.write && !f.rollback
    requires !DbCompiles(setup, InsertRule(w.db, rule))
    ensures Handle(setup, w, CreateRule(rule), f) == (w.(db := w.db.(lastRuleId := w.db.lastRuleId + 1)), BadRequest)
  {
    DeleteUndoesInsert(w.db, rule);
  }

  // A rejected update is answered in the same way, but it stays in the store:
  // the tables are as before only if no row had the id or nothing was changed.
  lemma RejectedUpdateStays(setup: Setup, w: World, id: int, rule: Rule)
    requires rule.name != "" && rule.directive != ""
    requires var db := w.db.(rules := ReplaceRule(w.db.rules, rule.(id := id))); !DbCompiles(setup, db)
    ensures var (w', status) := Handle(setup, w, UpdateRule(id, rule), NO_FAULTS);
            && status == BadRequest && SameLive(w, w')
            && (w'.db == w.db <==> forall r <- w.db.rules :: r.id == id ==> r == rule.(id := id))
  {
    var rules := ReplaceRule(w.db.rules, rule.(id := id));
    if forall r <- w.db.rules :: r.id == id ==> r == rule.(id := id) {
      assert rules == w.db.rules;
    } else {
      var r :| r in w.db.rules && r.id == id && r != rule.(id := id);
      var i :| 0 <= i < |w.db.rules| && w.db.rules[i] == r;
      assert rules[i] != w.db.rules[i];
    }
  }

  // ----- Fault-free runs -----

  // Whenever the stored rules compile, the live data plane is up to date.
  ghost predicate UpToDate(setup: Setup, w: World) {
    DbCompiles(setup, w.db) ==> DerivedFrom(setup, w.db, w)
  }

  lemma RefreshUpToDate(setup: Setup, w: World, db: Db)
    ensures var (w', ok) := Refresh(setup, w.(db := db), NO_FAULTS);
            && ok == DbCompiles(setup, db) && w'.db == db
            && (ok ==> DerivedFrom(setup, db, w'))
            && (!ok ==> SameLive(w, w'))
  {
  }

  // Only creating a rule does anything after the refresh.
  lemma HandleIsRefresh(setup: Setup, w: World, req: Request, f: Faults)
    requires Mutate(w.db, req, f).Success? && !req.CreateRule?
    ensures Handle(setup, w, req, f).0 == Refresh(setup, w.(db := Mutate(w.db, req, f).value), f).0
  {
  }

  lemma CreationKeepsUpToDate(setup: Setup, w: World, rule: Rule)
    requires RuleIdsFresh(w.db) && UpToDate(setup, w) && Mutate(w.db, CreateRule(rule), NO_FAULTS).Success?
    ensures var w' := Handle(setup, w, CreateRule(rule), NO_FAULTS).0;
            UpToDate(setup, w') && (!DbCompiles(setup, w'.db) ==> SameLive(w, w'))
  {
    var db := InsertRule(w.db, rule);
    RefreshUpToDate(setup, w, db);
    if !DbCompiles(setup, db) {
      RejectedRuleIsNoOp(setup, w, rule, NO_FAULTS);
    }
  }

  lemma RequestKeepsUpToDate(setup: Setup, w: World, req: Request)
    requires RuleIdsFresh(w.db) && UpToDate(setup, w)
    ensures var w' := Handle(setup, w, req, NO_FAULTS).0;
            UpToDate(setup, w') && (!DbCompiles(setup, w'.db) ==> SameLive(w, w'))
  {
    var m := Mutate(w.db, req, NO_FAULTS);
    if m.Success? {
      if req.CreateRule? {
        CreationKeepsUpToDate(setup, w, req.rule);
      } else {
        RefreshUpToDate(setup, w, m.value);
        HandleIsRefresh(setup, w, req, NO_FAULTS);
      }
    }
  }

  // After any fault-free run, if the enabled directives in the store compile,
  // engines and routes are exactly what a reload of the current tables gives.
  lemma {:induction false} LiveRefinesStore(setup: Setup, w: World, calls: seq<Call>)
    requires RuleIdsFresh(w.db) && UpToDate(setup, w) && FaultFree(calls)
    ensures UpToDate(setup, Run(setup, w, calls)) && RuleIdsFresh(Run(setup, w, calls).db)
    decreases calls
  {
    if calls != [] {
      RequestKeepsUpToDate(setup, w, calls[0].request);
      HandleKeepsIdsFresh(setup, w, calls[0].request, NO_FAULTS);
      LiveRefinesStore(setup, Handle(setup, w, calls[0].request, NO_FAULTS).0, calls[1..]);
    }
  }

  lemma LiveRefinesStoreFromStartup(setup: Setup, db: Db, calls: seq<Call>)
    requires RuleIdsFresh(db) && DbCompiles(setup, db) && FaultFree(calls)
    ensures var w := Run(setup, Started(setup, db), calls);
            DbCompiles(setup, w.db) ==> DerivedFrom(setup, w.db, w)
  {
    LiveRefinesStore(setup, Started(setup, db), calls);
  }

  // The tables as they were the last time a reload succeeded.
  function LastGood(setup: Setup, good: Db, w: World, calls: seq<Call>): Db
    decreases calls
  {
    if calls == [] then good
    else
      var m := Mutate(w.db, calls[0].request, calls[0].faults);
      var good' := if m.Success? && DbCompiles(setup, m.value) then m.value else good;
      LastGood(setup, good', Handle(setup, w, calls[0].request, calls[0].faults).0, calls[1..])
  }

  lemma RequestKeepsLastGood(setup: Setup, good: Db, w: World, req: Request)
    requires DerivedFrom(setup, good, w)
    ensures var m := Mutate(w.db, req, NO_FAULTS);
            var good' := if m.Success? && DbCompiles(setup, m.value) then m.value else good;
            DerivedFrom(setup, good', Handle(setup, w, req, NO_FAULTS).0)
  {
    var m := Mutate(w.db, req, NO_FAULTS);
    if m.Success? {
      RefreshUpToDate(setup, w, m.value);
    }
  }

  // Compiling or not, the live data plane always is the one of the last tables
  // that compiled: a bad rule never takes it down and never mixes two versions.
  lemma {:induction false} LiveIsLastGood(setup: Setup, good: Db, w: World, calls: seq<Call>)
    requires FaultFree(calls) && DerivedFrom(setup, good, w)
    ensures DerivedFrom(setup, LastGood(setup, good, w, calls), Run(setup, w, calls))
    decreases calls
  {
    if calls != [] {
      var m := Mutate(w.db, calls[0].request, calls[0].faults);
      var good' := if m.Success? && DbCompiles(setup, m.value) then m.value else good;
      assert calls[0] in calls;
      RequestKeepsLastGood(setup, good, w, calls[0].request);
      LiveIsLastGood(setup, good', Handle(setup, w, calls[0].request, calls[0].faults).0, calls[1..]);
    }
  }

  // ----- The stored rules can stop compiling, but only through an update -----

  lemma OneRuleDirectives(r: Rule)
    ensures r.enabled ==> EnabledDirectives([r]) == [r.directive]
  {
    assert [r][1..] == [];
  }

  // A compiler for which leaving a directive out never does harm.
  ghost predicate ClosedUnderRemoval(compiler: Compiler) {
    forall a, d, b :: Compiles(compiler, a + [d] + b) ==> Compiles(compiler, a + b)
  }

  ghost predicate OneOut(all: seq<string>, left: seq<string>, a: seq<string>, d: string, b: seq<string>) {
    all == a + [d] + b && left == a + b
  }

  // Taking a directive out further down the list.
  lemma OneOutBelow(first: seq<string>, all: seq<string>, left: seq<string>)
    requires exists a, d, b :: OneOut(all, left, a, d, b)
    ensures exists a, d, b :: OneOut(first + all, first + left, a, d, b)
  {
    var a, d, b :| OneOut(all, left, a, d, b);
    assert first + all == (first + a) + [d] + b && first + left == (first + a) + b;
    assert OneOut(first + all, first + left, first + a, d, b);
  }

  // Deleting a row takes at most one directive out of the list.
  lemma {:induction false} DeletionRemovesOne(rules: seq<Rule>, id: int)
    requires IdsIncrease(rules)
    ensures var all, left := EnabledDirectives(rules), EnabledDirectives(RulesWithout(rules, id));
            left == all || exists a, d, b :: OneOut(all, left, a, d, b)
  {
    if rules != [] {
      var tail := rules[1..];
      if rules[0].id == id {
        WithoutAbsent(tail, id);
        assert RulesWithout(rules, id) == tail;
        var left := EnabledDirectives(tail);
        assert rules[0].enabled ==> OneOut(EnabledDirectives(rules), left, [], rules[0].directive, left);
      } else {
        DeletionRemovesOne(tail, id);
        assert RulesWithout(rules, id)[1..] == RulesWithout(tail, id);
        var first := if rules[0].enabled then [rules[0].directive] else [];
        var all, left := EnabledDirectives(tail), EnabledDirectives(RulesWithout(tail, id));
        assert EnabledDirectives(rules) == first + all && EnabledDirectives(RulesWithout(rules, id)) == first + left;
        if left != all {
          OneOutBelow(first, all, left);
        }
      }
    }
  }

  // An update that is let through to the store and leaves rules there that do
  // not compile: what updateRule would have to refuse or undo.
  predicate BreaksRules(setup: Setup, db: Db, req: Request) {
    && req.UpdateRule? && req.rule.name != "" && req.rule.directive != ""
    && !Compiles(setup.compiler, EnabledDirectives(ReplaceRule(db.rules, req.rule.(id := req.ruleId))))
  }

  lemma DeletionKeepsCompiling(setup: Setup, db: Db, id: int)
    requires ClosedUnderRemoval(setup.compiler) && RuleIdsFresh(db) && DbCompiles(setup, db)
    ensures DbCompiles(setup, db.(rules := RulesWithout(db.rules, id)))
  {
    DeletionRemovesOne(db.rules, id);
    var all, left := EnabledDirectives(db.rules), EnabledDirectives(RulesWithout(db.rules, id));
    if left != all {
      var a, d, b :| OneOut(all, left, a, d, b);
      assert Compiles(setup.compiler, a + [d] + b);
    }
  }

  lemma CreationKeepsCompiling(setup: Setup, w: World, rule: Rule)
    requires RuleIdsFresh(w.db) && DbCompiles(setup, w.db)
    ensures DbCompiles(setup, Handle(setup, w, CreateRule(rule), NO_FAULTS).0.db)
  {
    var w' := Handle(setup, w, CreateRule(rule), NO_FAULTS).0;
    var db := InsertRule(w.db, rule);
    if rule.name == "" || rule.directive == "" {
      assert w' == w;
    } else if DbCompiles(setup, db) {
      assert w'.db == db;
    } else {
      RejectedRuleIsNoOp(setup, w, rule, NO_FAULTS);
      assert w'.db.rules == w.db.rules;
    }
  }

  // One request leaves rules that compile, unless it is a breaking update.
  lemma RequestKeepsCompilingIff(setup: Setup, w: World, req: Request)
    requires ClosedUnderRemoval(setup.compiler) && RuleIdsFresh(w.db) && DbCompiles(setup, w.db)
    ensures DbCompiles(setup, Handle(setup, w, req, NO_FAULTS).0.db) <==> !BreaksRules(setup, w.db, req)
  {
    var m := Mutate(w.db, req, NO_FAULTS);
    if m.Success? {
      RefreshUpToDate(setup, w, m.value);
      match req
      case DeleteRule(id) => DeletionKeepsCompiling(setup, w.db, id);
      case CreateRule(rule) => CreationKeepsCompiling(setup, w, rule);
      case _ =>
    }
  }

  // Any firewall engine that takes one directive and refuses another can be got
  // there: a rule with the first is edited into the second.
  lemma UpdateCanBreakStoredRules(setup: Setup, name: string, good: string, bad: string)
    requires name != "" && bad != "" && Compiles(setup.compiler, [good]) && !Compiles(setup.compiler, [bad])
    ensures var db := Db([Rule(1, name, good, "", true)], 1, [], 0);
            var (w, status) := Handle(setup, Started(setup, db), UpdateRule(1, Rule(0, name, bad, "", true)), NO_FAULTS);
            && DbCompiles(setup, db) && status == BadRequest && !DbCompiles(setup, w.db)
            && w.engines == EnginePair([good], 1)
  {
    var rule, edited := Rule(1, name, good, "", true), Rule(1, name, bad, "", true);
    OneRuleDirectives(rule);
    OneRuleDirectives(edited);
    assert ReplaceRule([rule], edited) == [edited];
  }

  // No request of the run is a breaking update when its turn comes.
  ghost predicate NoBreakingUpdate(setup: Setup, w: World, calls: seq<Call>)
    decreases calls
  {
    calls == [] ||
    (!BreaksRules(setup, w.db, calls[0].request)
     && NoBreakingUpdate(setup, Handle(setup, w, calls[0].request, calls[0].faults).0, calls[1..]))
  }

  // The stored rules compile before, during and after the run.
  ghost predicate AlwaysCompiles(setup: Setup, w: World, calls: seq<Call>)
    decreases calls
  {
    && DbCompiles(setup, w.db)
    && (calls == [] || AlwaysCompiles(setup, Handle(setup, w, calls[0].request, calls[0].faults).0, calls[1..]))
  }

  // Rollback and deletion never break the stored rules: in a fault-free run they
  // compile all along exactly when no update breaks them.
  lemma {:induction false} RulesCompileIff(setup: Setup, w: World, calls: seq<Call>)
    requires ClosedUnderRemoval(setup.compiler) && RuleIdsFresh(w.db) && DbCompiles(setup, w.db) && FaultFree(calls)
    ensures AlwaysCompiles(setup, w, calls) <==> NoBreakingUpdate(setup, w, calls)
    decreases calls
  {
    if calls != [] {
      assert calls[0] in calls;
      RequestKeepsCompilingIff(setup, w, calls[0].request);
      HandleKeepsIdsFresh(setup, w, calls[0].request, NO_FAULTS);
      if !BreaksRules(setup, w.db, calls[0].request) {
        RulesCompileIff(setup, Handle(setup, w, calls[0].request, NO_FAULTS).0, calls[1..]);
      }
    }
  }

  lemma {:induction false} AlwaysThenFinally(setup: Setup, w: World, calls: seq<Call>)
    requires AlwaysCompiles(setup, w, calls)
    ensures DbCompiles(setup, Run(setup, w, calls).db)
    decreases calls
  {
    if calls != [] {
      AlwaysThenFinally(setup, Handle(setup, w, calls[0].request, calls[0].faults).0, calls[1..]);
    }
  }

  // Then the live data plane is up to date after every such run.
  lemma StoredRulesKeepCompiling(setup: Setup, w: World, calls: seq<Call>)
    requires ClosedUnderRemoval(setup.compiler) && RuleIdsFresh(w.db) && DbCompiles(setup, w.db) && DerivedFrom(setup, w.db, w)
    requires FaultFree(calls) && NoBreakingUpdate(setup, w, calls)
    ensures var w' := Run(setup, w, calls); DbCompiles(setup, w'.db) && DerivedFrom(setup, w'.db, w')
  {
    RulesCompileIff(setup, w, calls);
    AlwaysThenFinally(setup, w, calls);
    LiveRefinesStore(setup, w, calls);
  }

  // ----- Runs in which store accesses may fail -----

  ghost predicate ModesValid(sites: seq<Site>) {
    forall s <- sites :: ValidMode(s.wafMode)
  }

  lemma MutateKeepsModes(db: Db, req: Request, f: Faults)
    requires ModesValid(db.sites) && Mutate(db, req, f).Success?
    ensures ModesValid(Mutate(db, req, f).value.sites)
  {
    match req
    case DeleteSite(id) => WithoutSites(db.sites, id);
    case _ =>
  }

  lemma {:induction false} RunKeepsModes(setup: Setup, w: World, calls: seq<Call>)
    requires ModesValid(w.db.sites)
    ensures ModesValid(Run(setup, w, calls).db.sites)
    decreases calls
  {
    if calls != [] {
      if Mutate(w.db, calls[0].request, calls[0].faults).Success? {
        MutateKeepsModes(w.db, calls[0].request, calls[0].faults);
      }
      RunKeepsModes(setup, Handle(setup, w, calls[0].request, calls[0].faults).0, calls[1..]);
    }
  }

  // The request reaches the store and its refresh gets to the end.
  predicate Completes(setup: Setup, w: World, c: Call) {
    var m := Mutate(w.db, c.request, c.faults);
    m.Success? && Refresh(setup, w.(db := m.value), c.faults).1
  }

  // How many requests of the run had been handled when a refresh last completed.
  function LastComplete(setup: Setup, w: World, calls: seq<Call>): (m: nat)
    ensures m <= |calls|
    decreases |calls|
  {
    if calls == [] then 0
    else
      var n := |calls| - 1;
      if Completes(setup, Run(setup, w, calls[..n]), calls[n]) then |calls| else LastComplete(setup, w, calls[..n])
  }

  lemma {:induction false} RunOneMore(setup: Setup, w: World, calls: seq<Call>, c: Call)
    ensures Run(setup, w, calls + [c]) == Handle(setup, Run(setup, w, calls), c.request, c.faults).0
    decreases calls
  {
    if calls == [] {
      assert [c][1..] == [];
    } else {
      assert (calls + [c])[0] == calls[0] && (calls + [c])[1..] == calls[1..] + [c];
      RunOneMore(setup, Handle(setup, w, calls[0].request, calls[0].faults).0, calls[1..], c);
    }
  }

  lemma RefreshDerivesOrKeeps(setup: Setup, w: World, db: Db, f: Faults)
    ensures var (w', ok) := Refresh(setup, w.(db := db), f);
            w'.db == db && if ok then DerivedFrom(setup, db, w') else w'.tables == w.tables
  {
  }

  // A completed refresh brings everything up to date; otherwise the routes stay.
  lemma RequestDerivesOrKeeps(setup: Setup, w: World, c: Call)
    ensures var w' := Handle(setup, w, c.request, c.faults).0;
            if Completes(setup, w, c) then DerivedFrom(setup, w'.db, w') else w'.tables == w.tables
  {
    var m := Mutate(w.db, c.request, c.faults);
    if m.Success? {
      RefreshDerivesOrKeeps(setup, w, m.value, c.faults);
      if !c.request.CreateRule? {
        HandleIsRefresh(setup, w, c.request, c.faults);
      }
    }
  }

  // Whatever store accesses fail on the way, the routes are those of the last
  // completed refresh, and at that moment routes and engines were the function
  // of the tables that a full reload computes.
  lemma {:induction false} RoutesOfLastComplete(setup: Setup, w: World, calls: seq<Call>)
    requires DerivedFrom(setup, w.db, w)
    ensures var v := Run(setup, w, calls[..LastComplete(setup, w, calls)]);
            DerivedFrom(setup, v.db, v) && Run(setup, w, calls).tables == v.tables
    decreases |calls|
  {
    if calls == [] {
      assert calls[..0] == calls;
    } else {
      var n := |calls| - 1;
      RoutesOfLastComplete(setup, w, calls[..n]);
      RunOneMore(setup, w, calls[..n], calls[n]);
      assert calls[..n] + [calls[n]] == calls && calls[..|calls|] == calls;
      RequestDerivesOrKeeps(setup, Run(setup, w, calls[..n]), calls[n]);
      var m := LastComplete(setup, w, calls[..n]);
      assert calls[..n][..m] == calls[..m];
    }
  }

  // All inspecting handlers share one generation and one directive list.
  ghost predicate OneGeneration(t: Tables) {
    forall j <- t.handlers, k <- t.handlers :: t.handlers[j].Inspected? && t.handlers[k].Inspected?
      ==> && t.handlers[j].engine.generation == t.handlers[k].engine.generation
          && t.handlers[j].engine.source == t.handlers[k].engine.source
  }

  // The routes lead to exactly the keys of the routable sites in a list, each to
  // the last site with the key, and a site in on or detection mode is behind an
  // engine of that mode; only off is bare.
  ghost predicate ServesKey(setup: Setup, t: Tables, sites: seq<Site>, key: string) {
    && (key in t.handlers <==> exists i :: IsLast(setup.lib, sites, key, i))
    && (forall i {:trigger IsLast(setup.lib, sites, key, i)} :: IsLast(setup.lib, sites, key, i) && key in t.handlers ==>
          Protects(setup.lib, sites[i], t.handlers[key]))
  }

  ghost predicate ServesSites(setup: Setup, t: Tables, sites: seq<Site>) {
    forall key :: ServesKey(setup, t, sites, key)
  }

  lemma ReloadServes(setup: Setup, directives: seq<string>, generation: nat, sites: seq<Site>)
    requires ModesValid(sites)
    ensures ServesSites(setup, BuildTables(setup.lib, EnginePair(directives, generation), sites), sites)
  {
    var t := BuildTables(setup.lib, EnginePair(directives, generation), sites);
    forall key: string
      ensures ServesKey(setup, t, sites, key)
    {
      LastSiteServes(setup.lib, EnginePair(directives, generation), sites, key);
      forall i | IsLast(setup.lib, sites, key, i) && key in t.handlers
        ensures Protects(setup.lib, sites[i], t.handlers[key])
      {
        assert sites[i] in sites;
      }
    }
  }

  lemma ReloadIsOneGeneration(setup: Setup, directives: seq<string>, generation: nat, sites: seq<Site>)
    ensures OneGeneration(BuildTables(setup.lib, EnginePair(directives, generation), sites))
  {
    var t := BuildTables(setup.lib, EnginePair(directives, generation), sites);
    forall key | key in t.handlers && t.handlers[key].Inspected?
      ensures t.handlers[key].engine.generation == generation && t.handlers[key].engine.source == directives
    {
      LastSiteServes(setup.lib, EnginePair(directives, generation), sites, key);
    }
  }

  // In every serial run from startup, whatever store accesses fail: the routes
  // serve the sites that were in the store after the last completed refresh,
  // every on or detection site among them behind an engine of its mode, and all
  // engines in the routes are of one generation.
  lemma SerialRunsProtect(setup: Setup, db: Db, calls: seq<Call>)
    requires DbCompiles(setup, db) && ModesValid(db.sites)
    ensures var w := Started(setup, db);
            var t, v := Run(setup, w, calls).tables, Run(setup, w, calls[..LastComplete(setup, w, calls)]);
            ServesSites(setup, t, ByDomain(v.db.sites)) && OneGeneration(t)
  {
    var w := Started(setup, db);
    RoutesOfLastComplete(setup, w, calls);
    var before := calls[..LastComplete(setup, w, calls)];
    var v := Run(setup, w, before);
    RunKeepsModes(setup, w, before);
    ByDomainSameRows(v.db.sites);
    ReloadServes(setup, EnabledDirectives(v.db.rules), v.generation, ByDomain(v.db.sites));
    ReloadIsOneGeneration(setup, EnabledDirectives(v.db.rules), v.generation, ByDomain(v.db.sites));
  }
}
