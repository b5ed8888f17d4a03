// Reloads running concurrently. Each one reads the directives, compiles and
// installs the engines, lists the sites, builds its tables one site at a time
// (asking the manager for an engine each time) and publishes them; between any
// two of these steps other reloads and other requests may act.
module ReloadRace {
  import opened Wrappers
  import opened Store
  import opened WafManager
  import opened Proxy
  import opened Api
  import opened ControlRuns

  // How far one reload has got.
  datatype Phase =
    | HasDirectives(directives: seq<string>)
    | Installed
    | Building(sites: seq<Site>, done: nat, partial: Tables)

  datatype Config = Config(db: Db, engines: Engines, generation: nat, live: Tables, reloads: map<nat, Phase>)

  datatype Step =
    | Mutation(request: Request, faults: Faults)   // a handler writes to the store
    | Rollback(ruleId: int)                        // createRule deletes what it inserted
    | ReadDirectives(who: nat)
    | Install(who: nat)
    | ReadSites(who: nat)
    | AddOne(who: nat)
    | Publish(who: nat)
    | GiveUp(who: nat)                             // any stage returns an error

  ghost predicate Enabled(c: Config, step: Step) {
    match step
    case Mutation(_, _) => true
    case Rollback(_) => true
    case ReadDirectives(who) => who !in c.reloads
    case Install(who) => who in c.reloads && c.reloads[who].HasDirectives?
    case ReadSites(who) => who in c.reloads && c.reloads[who].Installed?
    case AddOne(who) => who in c.reloads && c.reloads[who].Building? && c.reloads[who].done < |c.reloads[who].sites|
    case Publish(who) => who in c.reloads && c.reloads[who].Building? && c.reloads[who].done == |c.reloads[who].sites|
    case GiveUp(who) => who in c.reloads
  }

  ghost function Next(setup: Setup, c: Config, step: Step): Config
    requires Enabled(c, step)
  {
    match step
    case Mutation(req, f) =>
      var m := Mutate(c.db, req, f);
      if m.Success? then c.(db := m.value) else c
    case Rollback(id) =>
      c.(db := c.db.(rules := RulesWithout(c.db.rules, id)))
    case ReadDirectives(who) =>
      c.(reloads := c.reloads[who := HasDirectives(EnabledDirectives(c.db.rules))])
    case Install(who) =>
      var directives := c.reloads[who].directives;
      if Compiles(setup.compiler, directives) then
        c.(engines := EnginePair(directives, c.generation + 1), generation := c.generation + 1, reloads := c.reloads[who := Installed])
      else c.(reloads := c.reloads - {who})
    case ReadSites(who) =>
      c.(reloads := c.reloads[who := Building(ByDomain(c.db.sites), 0, NO_TABLES)])
    case AddOne(who) =>
      var b := c.reloads[who];
      c.(reloads := c.reloads[who := b.(done := b.done + 1, partial := AddSite(setup.lib, c.engines, b.partial, b.sites[b.done]))])
    case Publish(who) =>
      c.(live := c.reloads[who].partial, reloads := c.reloads - {who})
    case GiveUp(who) =>
      c.(reloads := c.reloads - {who})
  }

  // The configurations of a run, the first included.
  ghost predicate IsRun(setup: Setup, run: seq<Config>, steps: seq<Step>) {
    && |run| == |steps| + 1
    && forall k :: 0 <= k < |steps| ==> Enabled(run[k], steps[k]) && run[k + 1] == Next(setup, run[k], steps[k])
  }

  // Runs begin where a successful startup ends, with no reload under way.
  ghost predicate Starts(setup: Setup, c: Config) {
    && DbCompiles(setup, c.db) && ModesValid(c.db.sites)
    && var w := Started(setup, c.db);
       c == Config(w.db, w.engines, w.generation, w.tables, map[])
  }

  // ----- When the things in force were read -----

  // The moment at which a reload last read the directives, and the sites.
  function DirectivesReadAt(steps: seq<Step>, who: nat, n: nat): (k: nat)
    requires n <= |steps|
    ensures k <= n
  {
    if n == 0 then 0 else if steps[n - 1] == ReadDirectives(who) then n - 1 else DirectivesReadAt(steps, who, n - 1)
  }

  function SitesReadAt(steps: seq<Step>, who: nat, n: nat): (k: nat)
    requires n <= |steps|
    ensures k <= n
  {
    if n == 0 then 0 else if steps[n - 1] == ReadSites(who) then n - 1 else SitesReadAt(steps, who, n - 1)
  }

  // The moment at which the reload that installed the engines in force at n had
  // read the directives.
  ghost function EnginesReadAt(run: seq<Config>, steps: seq<Step>, n: nat): (k: nat)
    requires |run| == |steps| + 1 && n <= |steps|
    ensures k <= n
  {
    if n == 0 then 0
    else if steps[n - 1].Install? && run[n].generation != run[n - 1].generation then DirectivesReadAt(steps, steps[n - 1].who, n - 1)
    else EnginesReadAt(run, steps, n - 1)
  }

  // The moment at which the reload that published the routes in force at n had
  // read the sites.
  function RoutesReadAt(steps: seq<Step>, n: nat): (k: nat)
    requires n <= |steps|
    ensures k <= n
  {
    if n == 0 then 0
    else if steps[n - 1].Publish? then SitesReadAt(steps, steps[n - 1].who, n - 1)
    else RoutesReadAt(steps, n - 1)
  }

  // ----- What every step keeps -----

  // A handler for a site, with the engine that was installed at some moment.
  ghost predicate HandlerOfThen(setup: Setup, run: seq<Config>, from: nat, to: nat, s: Site, h: Handler)
    requires to < |run|
  {
    Routable(setup.lib, s) && exists k :: from <= k <= to && h == HandlerOf(setup.lib, run[k].engines, s)
  }

  // What tables built between two moments over a list of sites say about one key.
  ghost predicate KeyBuilt(setup: Setup, run: seq<Config>, from: nat, to: nat, t: Tables, sites: seq<Site>, key: string)
    requires to < |run|
  {
    && (key in t.handlers <==> exists i :: IsLast(setup.lib, sites, key, i))
    && (forall i {:trigger IsLast(setup.lib, sites, key, i)} :: IsLast(setup.lib, sites, key, i) && key in t.handlers ==>
          HandlerOfThen(setup, run, from, to, sites[i], t.handlers[key]))
  }

  predicate SameFlags(t: Tables, u: Tables) {
    t.autoDomains == u.autoDomains && t.manualCerts == u.manualCerts
  }

  ghost predicate TablesBuilt(setup: Setup, run: seq<Config>, from: nat, to: nat, t: Tables, sites: seq<Site>)
    requires to < |run|
  {
    && (forall key :: KeyBuilt(setup, run, from, to, t, sites, key))
    && SameFlags(t, BuildTables(setup.lib, map[], sites))
  }

  ghost predicate EnginesKnown(setup: Setup, run: seq<Config>, steps: seq<Step>, n: nat)
    requires |run| == |steps| + 1 && n <= |steps|
  {
    var read := run[EnginesReadAt(run, steps, n)].db;
    DbCompiles(setup, read) && run[n].engines == EnginePair(EnabledDirectives(read.rules), run[n].generation)
  }

  ghost predicate PhaseKnown(setup: Setup, run: seq<Config>, steps: seq<Step>, n: nat, who: nat)
    requires |run| == |steps| + 1 && n <= |steps| && who in run[n].reloads
  {
    match run[n].reloads[who]
    case HasDirectives(directives) =>
      directives == EnabledDirectives(run[DirectivesReadAt(steps, who, n)].db.rules)
    case Installed => true
    case Building(sites, done, partial) =>
      var from := SitesReadAt(steps, who, n);
      sites == ByDomain(run[from].db.sites) && done <= |sites| && TablesBuilt(setup, run, from, n, partial, sites[..done])
  }

  ghost predicate RoutesKnown(setup: Setup, run: seq<Config>, steps: seq<Step>, n: nat)
    requires |run| == |steps| + 1 && n <= |steps|
  {
    var from := RoutesReadAt(steps, n);
    TablesBuilt(setup, run, from, n, run[n].live, ByDomain(run[from].db.sites))
  }

  ghost predicate Invariant(setup: Setup, run: seq<Config>, steps: seq<Step>, n: nat)
    requires |run| == |steps| + 1 && n <= |steps|
  {
    && EnginesKnown(setup, run, steps, n)
    && (forall who <- run[n].reloads :: PhaseKnown(setup, run, steps, n, who))
    && RoutesKnown(setup, run, steps, n)
  }

  lemma KeyBuiltLater(
    setup: Setup, run: seq<Config>, from: nat, to: nat, later: nat, t: Tables, sites: seq<Site>, key: string)
    requires to <= later < |run| && KeyBuilt(setup, run, from, to, t, sites, key)
    ensures KeyBuilt(setup, run, from, later, t, sites, key)
  {
    forall i | IsLast(setup.lib, sites, key, i) && key in t.handlers
      ensures HandlerOfThen(setup, run, from, later, sites[i], t.handlers[key])
    {
      assert HandlerOfThen(setup, run, from, to, sites[i], t.handlers[key]);
    }
  }

  lemma TablesBuiltLater(setup: Setup, run: seq<Config>, from: nat, to: nat, later: nat, t: Tables, sites: seq<Site>)
    requires to <= later < |run| && TablesBuilt(setup, run, from, to, t, sites)
    ensures TablesBuilt(setup, run, from, later, t, sites)
  {
    forall key: string
      ensures KeyBuilt(setup, run, from, later, t, sites, key)
    {
      KeyBuiltLater(setup, run, from, to, later, t, sites, key);
    }
  }

  // One more site, with the engines installed at its turn.
  lemma OneMoreAnswers(
    setup: Setup, run: seq<Config>, from: nat, to: nat, t: Tables, before: seq<Site>, s: Site, key: string)
    requires from <= to < |run| && Answers(setup.lib, s, key)
    ensures KeyBuilt(setup, run, from, to, AddSite(setup.lib, run[to].engines, t, s), before + [s], key)
  {
    var after := before + [s];
    assert after[|before|] == s && IsLast(setup.lib, after, key, |before|);
    assert forall i :: IsLast(setup.lib, after, key, i) ==> i == |before|;
    assert HandlerOfThen(setup, run, from, to, s, HandlerOf(setup.lib, run[to].engines, s));
  }

  lemma OneMoreSkips(
    setup: Setup, run: seq<Config>, from: nat, to: nat, t: Tables, before: seq<Site>, s: Site, key: string)
    requires from <= to < |run| && !Answers(setup.lib, s, key) && KeyBuilt(setup, run, from, to, t, before, key)
    ensures KeyBuilt(setup, run, from, to, AddSite(setup.lib, run[to].engines, t, s), before + [s], key)
  {
    var after := before + [s];
    assert after[|before|] == s && forall j :: 0 <= j < |before| ==> after[j] == before[j];
    forall i
      ensures IsLast(setup.lib, after, key, i) <==> IsLast(setup.lib, before, key, i)
    {
    }
  }

  lemma AddSiteExtends(setup: Setup, run: seq<Config>, from: nat, to: nat, t: Tables, before: seq<Site>, s: Site)
    requires from <= to < |run| && TablesBuilt(setup, run, from, to, t, before)
    ensures TablesBuilt(setup, run, from, to, AddSite(setup.lib, run[to].engines, t, s), before + [s])
  {
    forall key: string
      ensures KeyBuilt(setup, run, from, to, AddSite(setup.lib, run[to].engines, t, s), before + [s], key)
    {
      if Answers(setup.lib, s, key) {
        OneMoreAnswers(setup, run, from, to, t, before, s, key);
      } else {
        OneMoreSkips(setup, run, from, to, t, before, s, key);
      }
    }
    assert (before + [s])[..|before|] == before;
  }

  lemma {:induction false} BuiltAtOnce(setup: Setup, run: seq<Config>, n: nat, sites: seq<Site>)
    requires n < |run|
    ensures TablesBuilt(setup, run, n, n, BuildTables(setup.lib, run[n].engines, sites), sites)
  {
    if sites != [] {
      var init, last := sites[..|sites| - 1], sites[|sites| - 1];
      BuiltAtOnce(setup, run, n, init);
      AddSiteExtends(setup, run, n, n, BuildTables(setup.lib, run[n].engines, init), init, last);
      assert init + [last] == sites;
    }
  }

  lemma InstallKeepsEngines(setup: Setup, run: seq<Config>, steps: seq<Step>, n: nat)
    requires IsRun(setup, run, steps) && n < |steps| && steps[n].Install?
    requires EnginesKnown(setup, run, steps, n) && PhaseKnown(setup, run, steps, n, steps[n].who)
    ensures EnginesKnown(setup, run, steps, n + 1)
  {
    var directives := run[n].reloads[steps[n].who].directives;
    if Compiles(setup.compiler, directives) {
      assert run[n + 1].engines == EnginePair(directives, run[n].generation + 1);
    } else {
      assert run[n + 1].engines == run[n].engines && run[n + 1].generation == run[n].generation;
    }
  }

  lemma StepKeepsEngines(setup: Setup, run: seq<Config>, steps: seq<Step>, n: nat)
    requires IsRun(setup, run, steps) && n < |steps| && EnginesKnown(setup, run, steps, n)
    requires steps[n].Install? ==> PhaseKnown(setup, run, steps, n, steps[n].who)
    ensures EnginesKnown(setup, run, steps, n + 1)
  {
    if steps[n].Install? {
      InstallKeepsEngines(setup, run, steps, n);
    } else {
      assert run[n + 1].engines == run[n].engines && run[n + 1].generation == run[n].generation;
    }
  }

  lemma PhaseBegins(setup: Setup, run: seq<Config>, steps: seq<Step>, n: nat, who: nat)
    requires IsRun(setup, run, steps) && n < |steps| && steps[n] == ReadSites(who)
    ensures who in run[n + 1].reloads && PhaseKnown(setup, run, steps, n + 1, who)
  {
    var sites := ByDomain(run[n].db.sites);
    BuiltAtOnce(setup, run, n, []);
    TablesBuiltLater(setup, run, n, n, n + 1, NO_TABLES, []);
    assert sites[..0] == [];
    assert run[n + 1].reloads[who] == Building(sites, 0, NO_TABLES);
  }

  lemma PhaseAdvances(setup: Setup, run: seq<Config>, steps: seq<Step>, n: nat, who: nat)
    requires IsRun(setup, run, steps) && n < |steps| && steps[n] == AddOne(who)
    requires PhaseKnown(setup, run, steps, n, who)
    ensures who in run[n + 1].reloads && PhaseKnown(setup, run, steps, n + 1, who)
  {
    var from, b := SitesReadAt(steps, who, n), run[n].reloads[who];
    var t := AddSite(setup.lib, run[n].engines, b.partial, b.sites[b.done]);
    AddSiteExtends(setup, run, from, n, b.partial, b.sites[..b.done], b.sites[b.done]);
    assert b.sites[..b.done] + [b.sites[b.done]] == b.sites[..b.done + 1];
    TablesBuiltLater(setup, run, from, n, n + 1, t, b.sites[..b.done + 1]);
    assert run[n + 1].reloads[who] == Building(b.sites, b.done + 1, t);
  }

  // Steps of other reloads and of requests do not disturb a reload.
  lemma PhaseUndisturbed(setup: Setup, run: seq<Config>, steps: seq<Step>, n: nat, who: nat)
    requires IsRun(setup, run, steps) && n < |steps| && who in run[n].reloads && who in run[n + 1].reloads
    requires run[n + 1].reloads[who] == run[n].reloads[who] && PhaseKnown(setup, run, steps, n, who)
    requires steps[n] != ReadDirectives(who) && steps[n] != ReadSites(who)
    ensures PhaseKnown(setup, run, steps, n + 1, who)
  {
    match run[n].reloads[who]
    case Building(sites, done, partial) =>
      TablesBuiltLater(setup, run, SitesReadAt(steps, who, n), n, n + 1, partial, sites[..done]);
    case _ =>
  }

  lemma StepKeepsPhase(setup: Setup, run: seq<Config>, steps: seq<Step>, n: nat, who: nat)
    requires IsRun(setup, run, steps) && n < |steps| && who in run[n + 1].reloads
    requires who in run[n].reloads ==> PhaseKnown(setup, run, steps, n, who)
    ensures PhaseKnown(setup, run, steps, n + 1, who)
  {
    assert run[n + 1] == Next(setup, run[n], steps[n]) && Enabled(run[n], steps[n]);
    if steps[n] == ReadDirectives(who) {
      assert run[n + 1].reloads[who] == HasDirectives(EnabledDirectives(run[n].db.rules));
    } else if steps[n] == Install(who) {
      assert run[n + 1].reloads[who] == Installed;
    } else if steps[n] == ReadSites(who) {
      PhaseBegins(setup, run, steps, n, who);
    } else if steps[n] == AddOne(who) {
      PhaseAdvances(setup, run, steps, n, who);
    } else {
      assert who in run[n].reloads && run[n + 1].reloads[who] == run[n].reloads[who];
      PhaseUndisturbed(setup, run, steps, n, who);
    }
  }

  lemma PublishKeepsRoutes(setup: Setup, run: seq<Config>, steps: seq<Step>, n: nat)
    requires IsRun(setup, run, steps) && n < |steps| && steps[n].Publish?
    requires PhaseKnown(setup, run, steps, n, steps[n].who)
    ensures RoutesKnown(setup, run, steps, n + 1)
  {
    var from, b := SitesReadAt(steps, steps[n].who, n), run[n].reloads[steps[n].who];
    assert b.sites[..b.done] == b.sites;
    TablesBuiltLater(setup, run, from, n, n + 1, b.partial, b.sites);
  }

  lemma StepKeepsRoutes(setup: Setup, run: seq<Config>, steps: seq<Step>, n: nat)
    requires IsRun(setup, run, steps) && n < |steps| && Invariant(setup, run, steps, n)
    ensures RoutesKnown(setup, run, steps, n + 1)
  {
    if steps[n].Publish? {
      PublishKeepsRoutes(setup, run, steps, n);
    } else {
      var from := RoutesReadAt(steps, n);
      assert run[n + 1].live == run[n].live;
      TablesBuiltLater(setup, run, from, n, n + 1, run[n].live, ByDomain(run[from].db.sites));
    }
  }

  lemma StepKeepsInvariant(setup: Setup, run: seq<Config>, steps: seq<Step>, n: nat)
    requires IsRun(setup, run, steps) && n < |steps| && Invariant(setup, run, steps, n)
    ensures Invariant(setup, run, steps, n + 1)
  {
    var after := run[n + 1];
    StepKeepsEngines(setup, run, steps, n);
    forall who <- after.reloads
      ensures PhaseKnown(setup, run, steps, n + 1, who)
    {
      StepKeepsPhase(setup, run, steps, n, who);
    }
    StepKeepsRoutes(setup, run, steps, n);
  }

  lemma StartKeepsInvariant(setup: Setup, run: seq<Config>, steps: seq<Step>)
    requires |run| == |steps| + 1 && Starts(setup, run[0])
    ensures Invariant(setup, run, steps, 0)
  {
    BuiltAtOnce(setup, run, 0, ByDomain(run[0].db.sites));
    assert run[0].engines == EnginePair(EnabledDirectives(run[0].db.rules), 1) && run[0].generation == 1;
  }

  lemma RunKeepsInvariant(setup: Setup, run: seq<Config>, steps: seq<Step>, n: nat)
    requires IsRun(setup, run, steps) && Starts(setup, run[0]) && n < |run|
    ensures Invariant(setup, run, steps, n)
  {
    StartKeepsInvariant(setup, run, steps);
    for m := 0 to n
      invariant Invariant(setup, run, steps, m)
    {
      StepKeepsInvariant(setup, run, steps, m);
    }
  }

  lemma {:induction false} RunKeepsModes(setup: Setup, run: seq<Config>, steps: seq<Step>, n: nat)
    requires IsRun(setup, run, steps) && Starts(setup, run[0]) && n < |run|
    ensures ModesValid(run[n].db.sites)
    decreases n
  {
    if n > 0 {
      RunKeepsModes(setup, run, steps, n - 1);
      if steps[n - 1].Mutation? && Mutate(run[n - 1].db, steps[n - 1].request, steps[n - 1].faults).Success? {
        MutateKeepsModes(run[n - 1].db, steps[n - 1].request, steps[n - 1].faults);
      }
    }
  }

  // ----- What follows for every reachable configuration -----

  // The manager holds an on/detection pair compiled from one directive list: the
  // one the store had enabled when the reload that installed the pair read it.
  lemma EnginesHaveProvenance(setup: Setup, run: seq<Config>, steps: seq<Step>, n: nat)
    requires IsRun(setup, run, steps) && Starts(setup, run[0]) && n < |run|
    ensures var read := run[EnginesReadAt(run, steps, n)].db;
            DbCompiles(setup, read) && run[n].engines == EnginePair(EnabledDirectives(read.rules), run[n].generation)
  {
    RunKeepsInvariant(setup, run, steps, n);
  }

  // Where a live handler comes from: the last site with its key, and a moment.
  lemma LiveHandlerBuilt(setup: Setup, run: seq<Config>, steps: seq<Step>, n: nat, key: string) returns (i: int, k: nat)
    requires IsRun(setup, run, steps) && Starts(setup, run[0]) && n < |run| && key in run[n].live.handlers
    ensures RoutesReadAt(steps, n) <= k <= n
    ensures var sites := ByDomain(run[RoutesReadAt(steps, n)].db.sites);
            IsLast(setup.lib, sites, key, i) && run[n].live.handlers[key] == HandlerOf(setup.lib, run[k].engines, sites[i])
  {
    RunKeepsInvariant(setup, run, steps, n);
    var from := RoutesReadAt(steps, n);
    var sites := ByDomain(run[from].db.sites);
    assert KeyBuilt(setup, run, from, n, run[n].live, sites, key);
    i :| IsLast(setup.lib, sites, key, i);
    assert HandlerOfThen(setup, run, from, n, sites[i], run[n].live.handlers[key]);
    k :| from <= k <= n && run[n].live.handlers[key] == HandlerOf(setup.lib, run[k].engines, sites[i]);
  }

  // Every engine in the live routes was installed at some moment after the sites
  // were read, and so compiled from a list the store had enabled before that,
  // even if handlers of one table got their engines from different reloads.
  lemma HandlersHaveProvenance(setup: Setup, run: seq<Config>, steps: seq<Step>, n: nat, key: string)
    requires IsRun(setup, run, steps) && Starts(setup, run[0]) && n < |run|
    requires key in run[n].live.handlers && run[n].live.handlers[key].Inspected?
    ensures exists k :: RoutesReadAt(steps, n) <= k <= n
              && var read, engine := run[EnginesReadAt(run, steps, k)].db, run[n].live.handlers[key].engine;
              && DbCompiles(setup, read) && engine.source == EnabledDirectives(read.rules) && engine.generation == run[k].generation
  {
    var _, k := LiveHandlerBuilt(setup, run, steps, n, key);
    EnginesHaveProvenance(setup, run, steps, k);
  }

  lemma KnownHandlerProtects(setup: Setup, c: Config, directives: seq<string>, s: Site)
    requires c.engines == EnginePair(directives, c.generation) && Routable(setup.lib, s) && ValidMode(s.wafMode)
    ensures Protects(setup.lib, s, HandlerOf(setup.lib, c.engines, s))
  {
  }

  // Inspection is never silently lost: however mutations and reloads interleave,
  // the live routes serve exactly the routable sites that were in the store when
  // the reload that published them read the sites, each on or detection site
  // behind an engine of its mode.
  lemma InspectionNeverLost(setup: Setup, run: seq<Config>, steps: seq<Step>, n: nat)
    requires IsRun(setup, run, steps) && Starts(setup, run[0]) && n < |run|
    ensures ServesSites(setup, run[n].live, ByDomain(run[RoutesReadAt(steps, n)].db.sites))
  {
    RunKeepsInvariant(setup, run, steps, n);
    var from := RoutesReadAt(steps, n);
    var t, sites := run[n].live, ByDomain(run[from].db.sites);
    RunKeepsModes(setup, run, steps, from);
    ByDomainSameRows(run[from].db.sites);
    forall key: string
      ensures ServesKey(setup, t, sites, key)
    {
      assert KeyBuilt(setup, run, from, n, t, sites, key);
      if key in t.handlers {
        var i, k := LiveHandlerBuilt(setup, run, steps, n, key);
        EnginesHaveProvenance(setup, run, steps, k);
        assert sites[i] in sites;
        KnownHandlerProtects(setup, run[k], EnabledDirectives(run[EnginesReadAt(run, steps, k)].db.rules), sites[i]);
        assert forall j :: IsLast(setup.lib, sites, key, j) ==> j == i;
      }
    }
  }

  // In every reachable configuration too, a redirect to HTTPS leads to a host
  // that HTTPS serves, and so does an allowed certificate order.
  lemma LiveRedirectsAreServed(setup: Setup, run: seq<Config>, steps: seq<Step>, n: nat, host: string)
    requires IsRun(setup, run, steps) && Starts(setup, run[0]) && n < |run|
    ensures UsesTLS(setup.lib, run[n].live, host) ==> HandlerFor(setup.lib, run[n].live, host).Some?
    ensures HostAllowed(setup.lib, run[n].live, host) ==> setup.lib.lower(host) in run[n].live.handlers
  {
    RunKeepsInvariant(setup, run, steps, n);
    var from := RoutesReadAt(steps, n);
    var sites := ByDomain(run[from].db.sites);
    var bare := BuildTables(setup.lib, map[], sites);
    FlagsHaveHandlers(setup.lib, map[], sites);
    forall key | key in bare.handlers
      ensures key in run[n].live.handlers
    {
      LastSiteServes(setup.lib, map[], sites, key);
      assert KeyBuilt(setup, run, from, n, run[n].live, sites, key);
    }
  }

  // ----- When the live state is the one of the current tables -----

  lemma {:induction false} GenerationsGrow(setup: Setup, run: seq<Config>, steps: seq<Step>, i: nat, j: nat)
    requires IsRun(setup, run, steps) && i <= j < |run|
    ensures run[i].generation <= run[j].generation
    ensures run[i].generation == run[j].generation ==> run[i].engines == run[j].engines
    decreases j
  {
    if i < j {
      GenerationsGrow(setup, run, steps, i, j - 1);
    }
  }

  lemma {:induction false} FlagsIgnoreEngines(lib: Library, engines: Engines, sites: seq<Site>)
    ensures SameFlags(BuildTables(lib, engines, sites), BuildTables(lib, map[], sites))
  {
    if sites != [] {
      FlagsIgnoreEngines(lib, engines, sites[..|sites| - 1]);
    }
  }

  // The engines are those of the rules now stored exactly when the rules that the
  // last installing reload had read enable the same list.
  lemma EnginesCurrentIff(setup: Setup, run: seq<Config>, steps: seq<Step>, n: nat)
    requires IsRun(setup, run, steps) && Starts(setup, run[0]) && n < |run|
    ensures run[n].engines == EnginePair(EnabledDirectives(run[n].db.rules), run[n].generation)
            <==> EnabledDirectives(run[EnginesReadAt(run, steps, n)].db.rules) == EnabledDirectives(run[n].db.rules)
  {
    EnginesHaveProvenance(setup, run, steps, n);
    assert run[n].engines[MODE_ON].source == EnabledDirectives(run[EnginesReadAt(run, steps, n)].db.rules);
    assert EnginePair(EnabledDirectives(run[n].db.rules), run[n].generation)[MODE_ON].source == EnabledDirectives(run[n].db.rules);
  }

  // If no engines were installed since the sites were read, the routes are what
  // one undisturbed reload of those sites gives with the engines in force.
  lemma RoutesBuiltInOne(setup: Setup, run: seq<Config>, steps: seq<Step>, n: nat)
    requires IsRun(setup, run, steps) && Starts(setup, run[0]) && n < |run|
    requires run[RoutesReadAt(steps, n)].generation == run[n].generation
    ensures run[n].live == BuildTables(setup.lib, run[n].engines, ByDomain(run[RoutesReadAt(steps, n)].db.sites))
  {
    RunKeepsInvariant(setup, run, steps, n);
    var from := RoutesReadAt(steps, n);
    var t, sites := run[n].live, ByDomain(run[from].db.sites);
    var whole := BuildTables(setup.lib, run[n].engines, sites);
    FlagsIgnoreEngines(setup.lib, run[n].engines, sites);
    forall key: string
      ensures key in t.handlers <==> key in whole.handlers
      ensures key in t.handlers ==> t.handlers[key] == whole.handlers[key]
    {
      assert KeyBuilt(setup, run, from, n, t, sites, key);
      LastSiteServes(setup.lib, run[n].engines, sites, key);
      if key in t.handlers {
        var i, k := LiveHandlerBuilt(setup, run, steps, n, key);
        assert whole.handlers[key] == HandlerOf(setup.lib, run[n].engines, sites[i]);
        GenerationsGrow(setup, run, steps, from, k);
        GenerationsGrow(setup, run, steps, k, n);
      }
    }
    assert t.handlers == whole.handlers;
  }

  // The store has not changed since moment b.
  ghost predicate QuietSince(run: seq<Config>, b: nat, n: nat)
    requires b <= n < |run|
  {
    forall k :: b <= k <= n ==> run[k].db == run[n].db
  }

  // Engines and routes are those of the current tables once the reload that last
  // installed engines and the one that last published routes have read the store
  // after its last change, the latter after the last installation. Which reloads
  // those are, and what else is still under way, does not matter.
  lemma LiveIsCurrent(setup: Setup, run: seq<Config>, steps: seq<Step>, b: nat, n: nat)
    requires IsRun(setup, run, steps) && Starts(setup, run[0]) && b <= n < |run| && QuietSince(run, b, n)
    requires b <= EnginesReadAt(run, steps, n) && b <= RoutesReadAt(steps, n)
    requires run[RoutesReadAt(steps, n)].generation == run[n].generation
    ensures DerivedFrom(setup, run[n].db, World(run[n].db, run[n].engines, run[n].generation, run[n].live))
  {
    EnginesHaveProvenance(setup, run, steps, n);
    RoutesBuiltInOne(setup, run, steps, n);
  }

  // ----- Concurrent reloads may install an older list last -----

  // Reload 0 reads the directives, a rule is created, reload 1 runs to its end,
  // and then reload 0 goes on with what it read before.
  function OvertakenSteps(rule: Rule): seq<Step> {
    [ReadDirectives(0), Mutation(CreateRule(rule), NO_FAULTS), ReadDirectives(1), Install(1), ReadSites(1), Publish(1),
     Install(0), ReadSites(0), Publish(0)]
  }

  ghost function OvertakenRun(rule: Rule): seq<Config> {
    var before, after := Db([], 0, [], 0), Db([rule.(id := 1)], 1, [], 0);
    var stale, latest := HasDirectives([]), HasDirectives([rule.directive]);
    var building := Building([], 0, NO_TABLES);
    [Config(before, EnginePair([], 1), 1, NO_TABLES, map[]),
     Config(before, EnginePair([], 1), 1, NO_TABLES, map[0 := stale]),
     Config(after, EnginePair([], 1), 1, NO_TABLES, map[0 := stale]),
     Config(after, EnginePair([], 1), 1, NO_TABLES, map[0 := stale, 1 := latest]),
     Config(after, EnginePair([rule.directive], 2), 2, NO_TABLES, map[0 := stale, 1 := Installed]),
     Config(after, EnginePair([rule.directive], 2), 2, NO_TABLES, map[0 := stale, 1 := building]),
     Config(after, EnginePair([rule.directive], 2), 2, NO_TABLES, map[0 := stale]),
     Config(after, EnginePair([], 3), 3, NO_TABLES, map[0 := Installed]),
     Config(after, EnginePair([], 3), 3, NO_TABLES, map[0 := building]),
     Config(after, EnginePair([], 3), 3, NO_TABLES, map[])]
  }

  ghost predicate StepsTo(setup: Setup, c: Config, step: Step, c': Config) {
    Enabled(c, step) && c' == Next(setup, c, step)
  }

  lemma OvertakenBegins(setup: Setup, rule: Rule, k: nat)
    requires Compiles(setup.compiler, []) && Compiles(setup.compiler, [rule.directive]) && k < 4
    requires rule.name != "" && rule.directive != "" && rule.enabled
    ensures StepsTo(setup, OvertakenRun(rule)[k], OvertakenSteps(rule)[k], OvertakenRun(rule)[k + 1])
  {
    OneRuleDirectives(rule.(id := 1));
    var run := OvertakenRun(rule);
    assert k == 1 ==> Next(setup, run[1], OvertakenSteps(rule)[1]).db.rules == run[2].db.rules;
    assert Next(setup, run[k], OvertakenSteps(rule)[k]).reloads == run[k + 1].reloads;
  }

  lemma OvertakenEnds(setup: Setup, rule: Rule, k: nat)
    requires Compiles(setup.compiler, []) && Compiles(setup.compiler, [rule.directive]) && 4 <= k < 9
    ensures StepsTo(setup, OvertakenRun(rule)[k], OvertakenSteps(rule)[k], OvertakenRun(rule)[k + 1])
  {
    var run := OvertakenRun(rule);
    assert Next(setup, run[k], OvertakenSteps(rule)[k]).reloads == run[k + 1].reloads;
  }

  // Every reload in this run succeeds and has finished, the stored rule compiles,
  // and yet the engines are those of the empty list that reload 0 had read.
  lemma OlderReloadCanWin(setup: Setup, rule: Rule)
    requires Compiles(setup.compiler, []) && Compiles(setup.compiler, [rule.directive])
    requires rule.name != "" && rule.directive != "" && rule.enabled
    ensures IsRun(setup, OvertakenRun(rule), OvertakenSteps(rule)) && Starts(setup, OvertakenRun(rule)[0])
    ensures var last := OvertakenRun(rule)[9];
            && last.reloads == map[] && DbCompiles(setup, last.db)
            && EnabledDirectives(last.db.rules) == [rule.directive] && last.engines == EnginePair([], last.generation)
  {
    forall k | 0 <= k < 9
      ensures StepsTo(setup, OvertakenRun(rule)[k], OvertakenSteps(rule)[k], OvertakenRun(rule)[k + 1])
    {
      if k < 4 {
        OvertakenBegins(setup, rule, k);
      } else {
        OvertakenEnds(setup, rule, k);
      }
    }
    OneRuleDirectives(rule.(id := 1));
  }

  // ----- A request that nobody disturbs -----

  ghost function WorldOf(c: Config): World {
    World(c.db, c.engines, c.generation, c.live)
  }

  // The steps of one undisturbed handler whose refresh completes: its write, and
  // then the reload of `who` over n sites.
  function AloneSteps(req: Request, who: nat, n: nat): seq<Step> {
    [Mutation(req, NO_FAULTS), ReadDirectives(who), Install(who), ReadSites(who)] + seq(n, _ => AddOne(who)) + [Publish(who)]
  }

  lemma AloneStep(req: Request, who: nat, n: nat, k: nat)
    requires k < n + 5
    ensures |AloneSteps(req, who, n)| == n + 5
    ensures AloneSteps(req, who, n)[k]
            == if k == 0 then Mutation(req, NO_FAULTS) else if k == 1 then ReadDirectives(who) else if k == 2 then Install(who)
               else if k == 3 then ReadSites(who) else if k < n + 4 then AddOne(who) else Publish(who)
  {
  }

  // After i sites of the loop.
  ghost predicate AloneAt(setup: Setup, c: Config, db: Db, engines: Engines, generation: nat, live: Tables, who: nat, i: nat) {
    var sites := ByDomain(db.sites);
    && c.db == db && c.engines == engines && c.generation == generation && c.live == live
    && i <= |sites| && who in c.reloads
    && c.reloads[who] == Building(sites, i, BuildTables(setup.lib, engines, sites[..i]))
  }

  lemma AloneAddsOne(
    setup: Setup, c: Config, db: Db, engines: Engines, generation: nat, live: Tables, who: nat, i: nat)
    requires AloneAt(setup, c, db, engines, generation, live, who, i) && i < |ByDomain(db.sites)|
    ensures Enabled(c, AddOne(who)) && AloneAt(setup, Next(setup, c, AddOne(who)), db, engines, generation, live, who, i + 1)
  {
    var sites := ByDomain(db.sites);
    assert sites[..i + 1][..i] == sites[..i];
  }

  lemma AloneBegins(setup: Setup, run: seq<Config>, steps: seq<Step>, req: Request, who: nat, db: Db)
    requires IsRun(setup, run, steps) && |steps| >= 4 && steps[0] == Mutation(req, NO_FAULTS)
    requires steps[1] == ReadDirectives(who) && steps[2] == Install(who) && steps[3] == ReadSites(who)
    requires Mutate(run[0].db, req, NO_FAULTS) == Success(db) && DbCompiles(setup, db)
    ensures AloneAt(setup, run[4], db, EnginePair(EnabledDirectives(db.rules), run[0].generation + 1), run[0].generation + 1, run[0].live, who, 0)
  {
    assert run[1] == run[0].(db := db);
    assert run[2].reloads[who] == HasDirectives(EnabledDirectives(db.rules));
    assert run[3].engines == EnginePair(EnabledDirectives(db.rules), run[0].generation + 1);
    assert ByDomain(db.sites)[..0] == [];
    assert run[4].reloads[who] == Building(ByDomain(db.sites), 0, NO_TABLES);
  }

  lemma AloneBuilds(setup: Setup, run: seq<Config>, req: Request, who: nat, db: Db)
    requires run != [] && Mutate(run[0].db, req, NO_FAULTS) == Success(db) && DbCompiles(setup, db)
    requires IsRun(setup, run, AloneSteps(req, who, |ByDomain(db.sites)|))
    ensures var n, generation := |ByDomain(db.sites)|, run[0].generation + 1;
            && |run| == n + 6
            && AloneAt(setup, run[n + 4], db, EnginePair(EnabledDirectives(db.rules), generation), generation, run[0].live, who, n)
  {
    var n, generation := |ByDomain(db.sites)|, run[0].generation + 1;
    var engines := EnginePair(EnabledDirectives(db.rules), generation);
    AloneStep(req, who, n, 0);
    AloneBegins(setup, run, AloneSteps(req, who, n), req, who, db);
    for i := 0 to n
      invariant AloneAt(setup, run[i + 4], db, engines, generation, run[0].live, who, i)
    {
      AloneStep(req, who, n, i + 4);
      AloneAddsOne(setup, run[i + 4], db, engines, generation, run[0].live, who, i);
    }
  }

  lemma AloneHandles(setup: Setup, w: World, req: Request, db: Db)
    requires Mutate(w.db, req, NO_FAULTS) == Success(db) && DbCompiles(setup, db)
    ensures var engines := EnginePair(EnabledDirectives(db.rules), w.generation + 1);
            Handle(setup, w, req, NO_FAULTS).0
            == World(db, engines, w.generation + 1, BuildTables(setup.lib, engines, ByDomain(db.sites)))
  {
    if !req.CreateRule? {
      HandleIsRefresh(setup, w, req, NO_FAULTS);
    }
  }

  // The interleaved steps, when nothing comes in between, do what the serial
  // handler does: the same tables, engines and routes.
  lemma AloneIsSerial(setup: Setup, run: seq<Config>, req: Request, who: nat, db: Db)
    requires run != [] && Mutate(run[0].db, req, NO_FAULTS) == Success(db) && DbCompiles(setup, db)
    requires IsRun(setup, run, AloneSteps(req, who, |ByDomain(db.sites)|))
    ensures WorldOf(run[|run| - 1]) == Handle(setup, WorldOf(run[0]), req, NO_FAULTS).0 && who !in run[|run| - 1].reloads
  {
    var sites, n := ByDomain(db.sites), |ByDomain(db.sites)|;
    AloneBuilds(setup, run, req, who, db);
    AloneStep(req, who, n, n + 4);
    assert sites[..n] == sites;
    AloneHandles(setup, WorldOf(run[0]), req, db);
  }

  // So does the rollback of a created rule that does not compile.
  lemma AloneRollsBack(setup: Setup, run: seq<Config>, rule: Rule, who: nat)
    requires rule.name != "" && rule.directive != "" && run != [] && !DbCompiles(setup, InsertRule(run[0].db, rule))
    requires IsRun(setup, run, [Mutation(CreateRule(rule), NO_FAULTS), ReadDirectives(who), Install(who), Rollback(run[0].db.lastRuleId + 1)])
    ensures WorldOf(run[4]) == Handle(setup, WorldOf(run[0]), CreateRule(rule), NO_FAULTS).0 && who !in run[4].reloads
  {
    assert run[1] == run[0].(db := InsertRule(run[0].db, rule));
    assert run[2].reloads[who] == HasDirectives(EnabledDirectives(run[1].db.rules));
    assert WorldOf(run[3]) == WorldOf(run[1]);
  }
}
