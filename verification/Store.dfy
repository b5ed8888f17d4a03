// internal/store/store.go: the persistent tables behind the control plane. Each
// SQL statement is one atomic change of a table value; a statement may also fail
// for reasons of its own (`fail`), and then changes nothing.
module Store {
  import opened Wrappers

  datatype Rule = Rule(id: int, name: string, directive: string, description: string, enabled: bool)

  datatype Site = Site(
    id: int, domain: string, upstreamURL: string, wafMode: string, tlsMode: string,
    certFile: string, keyFile: string, enabled: bool)

  const MODE_ON := "on"
  const MODE_DETECTION := "detection"
  const MODE_OFF := "off"

  const TLS_AUTO := "auto"
  const TLS_MANUAL := "manual"
  const TLS_OFF := "off"

  // Rows in id order, and the highest id each table has ever handed out.
  datatype Db = Db(rules: seq<Rule>, lastRuleId: int, sites: seq<Site>, lastSiteId: int)

  // ----- Rules -----

  function InsertRule(db: Db, r: Rule): Db {
    db.(rules := db.rules + [r.(id := db.lastRuleId + 1)], lastRuleId := db.lastRuleId + 1)
  }

  function ReplaceRule(rules: seq<Rule>, r: Rule): seq<Rule> {
    seq(|rules|, i requires 0 <= i < |rules| => if rules[i].id == r.id then r else rules[i])
  }

  function RulesWithout(rules: seq<Rule>, id: int): seq<Rule> {
    if rules == [] then []
    else (if rules[0].id == id then [] else [rules[0]]) + RulesWithout(rules[1..], id)
  }

  // The directive text of every enabled rule, in id order.
  function EnabledDirectives(rules: seq<Rule>): seq<string> {
    if rules == [] then []
    else (if rules[0].enabled then [rules[0].directive] else []) + EnabledDirectives(rules[1..])
  }

  ghost predicate IdsIncrease(rules: seq<Rule>) {
    forall i, j :: 0 <= i < j < |rules| ==> rules[i].id < rules[j].id
  }

  // Ids increase along the table and stay below the counter.
  ghost predicate RuleIdsFresh(db: Db) {
    IdsIncrease(db.rules) && forall r <- db.rules :: r.id <= db.lastRuleId
  }

  lemma {:induction false} EnabledAppend(rules: seq<Rule>, r: Rule)
    ensures EnabledDirectives(rules + [r]) == EnabledDirectives(rules) + (if r.enabled then [r.directive] else [])
  {
    if rules == [] {
      assert rules + [r] == [r] && [r][1..] == [];
    } else {
      assert (rules + [r])[0] == rules[0] && (rules + [r])[1..] == rules[1..] + [r];
      EnabledAppend(rules[1..], r);
    }
  }

  // `picked` names the enabled rows, all of them, once each and in table order,
  // and `list` holds their directives.
  ghost predicate ListsEnabled(rules: seq<Rule>, list: seq<string>, picked: seq<nat>) {
    && |list| == |picked|
    && (forall i, j :: 0 <= i < j < |picked| ==> picked[i] < picked[j])
    && (forall k :: 0 <= k < |picked| ==> picked[k] < |rules| && rules[picked[k]].enabled && list[k] == rules[picked[k]].directive)
    && (forall i :: 0 <= i < |rules| && rules[i].enabled ==> i in picked)
  }

  lemma ListsOneMore(rules: seq<Rule>, list: seq<string>, picked: seq<nat>, r: Rule)
    requires ListsEnabled(rules, list, picked)
    ensures r.enabled ==> ListsEnabled(rules + [r], list + [r.directive], picked + [|rules|])
    ensures !r.enabled ==> ListsEnabled(rules + [r], list, picked)
  {
    var more := picked + [|rules|];
    assert forall i :: i in picked ==> i in more;
    assert more[|picked|] == |rules|;
  }

  // The list of directives is that of the enabled rows, in id order.
  lemma {:induction false} EnabledDirectivesMean(rules: seq<Rule>) returns (picked: seq<nat>)
    ensures ListsEnabled(rules, EnabledDirectives(rules), picked)
  {
    if rules == [] {
      picked := [];
    } else {
      var n := |rules| - 1;
      assert rules == rules[..n] + [rules[n]];
      EnabledAppend(rules[..n], rules[n]);
      picked := EnabledDirectivesMean(rules[..n]);
      ListsOneMore(rules[..n], EnabledDirectives(rules[..n]), picked, rules[n]);
      picked := if rules[n].enabled then picked + [n] else picked;
    }
  }

  lemma {:induction false} WithoutAbsent(rules: seq<Rule>, id: int)
    requires forall r <- rules :: r.id != id
    ensures RulesWithout(rules, id) == rules
  {
    if rules != [] {
      WithoutAbsent(rules[1..], id);
    }
  }

  lemma {:induction false} WithoutAppend(rules: seq<Rule>, r: Rule, id: int)
    ensures RulesWithout(rules + [r], id) == RulesWithout(rules, id) + (if r.id == id then [] else [r])
  {
    if rules == [] {
      assert rules + [r] == [r] && [r][1..] == [];
    } else {
      assert (rules + [r])[0] == rules[0] && (rules + [r])[1..] == rules[1..] + [r];
      WithoutAppend(rules[1..], r, id);
    }
  }

  // Deleting the row just inserted restores the table, because its id is fresh.
  lemma DeleteUndoesInsert(db: Db, r: Rule)
    requires RuleIdsFresh(db)
    ensures RulesWithout(InsertRule(db, r).rules, db.lastRuleId + 1) == db.rules
  {
    WithoutAppend(db.rules, r.(id := db.lastRuleId + 1), db.lastRuleId + 1);
    WithoutAbsent(db.rules, db.lastRuleId + 1);
  }

  lemma {:induction false} WithoutRows(rules: seq<Rule>, id: int)
    ensures forall r :: r in RulesWithout(rules, id) <==> r in rules && r.id != id
  {
    if rules != [] {
      WithoutRows(rules[1..], id);
      assert rules == [rules[0]] + rules[1..];
    }
  }

  lemma {:induction false} WithoutKeepsOrder(rules: seq<Rule>, id: int)
    requires IdsIncrease(rules)
    ensures IdsIncrease(RulesWithout(rules, id))
  {
    if rules != [] {
      var tail := rules[1..];
      WithoutKeepsOrder(tail, id);
      WithoutRows(tail, id);
      var rest := RulesWithout(tail, id);
      forall j | 0 <= j < |rest|
        ensures rules[0].id < rest[j].id
      {
        assert rest[j] in rest && rest[j] in tail;
        var k :| 0 <= k < |tail| && tail[k] == rest[j];
        assert rules[k + 1] == rest[j];
      }
    }
  }

  // Deleting an id takes out the row with that id and no other, and keeps the
  // rest in order. (Rows in id order are determined by which rows there are.)
  lemma DeleteRuleMeans(rules: seq<Rule>, id: int)
    requires IdsIncrease(rules)
    ensures IdsIncrease(RulesWithout(rules, id))
    ensures forall r :: r in RulesWithout(rules, id) <==> r in rules && r.id != id
  {
    WithoutKeepsOrder(rules, id);
    WithoutRows(rules, id);
  }

  // Updating a row puts the new row in the place of the one with its id, if
  // there is one, and touches no other.
  lemma UpdateRuleMeans(rules: seq<Rule>, r: Rule)
    requires IdsIncrease(rules)
    ensures IdsIncrease(ReplaceRule(rules, r))
    ensures forall t :: t in ReplaceRule(rules, r)
              <==> (t in rules && t.id != r.id) || (t == r && exists u <- rules :: u.id == r.id)
  {
    var out := ReplaceRule(rules, r);
    forall t
      ensures t in out <==> (t in rules && t.id != r.id) || (t == r && exists u <- rules :: u.id == r.id)
    {
      if t in out {
        var i :| 0 <= i < |out| && out[i] == t;
        assert rules[i] in rules;
      }
      if t in rules && t.id != r.id {
        var i :| 0 <= i < |rules| && rules[i] == t;
        assert out[i] == t;
      }
      if t == r && exists u <- rules :: u.id == r.id {
        var u :| u in rules && u.id == r.id;
        var i :| 0 <= i < |rules| && rules[i] == u;
        assert out[i] == r;
      }
    }
  }

  // Updating a row back to what it was restores the table.
  lemma UpdateRuleUndone(rules: seq<Rule>, before: Rule, r: Rule)
    requires IdsIncrease(rules) && before in rules && r.id == before.id
    ensures ReplaceRule(ReplaceRule(rules, r), before) == rules
  {
    var i :| 0 <= i < |rules| && rules[i] == before;
    assert forall j :: 0 <= j < |rules| && rules[j].id == before.id ==> j == i;
  }

  // ----- Sites -----

  function InsertSite(db: Db, s: Site): Db {
    db.(sites := db.sites + [s.(id := db.lastSiteId + 1)], lastSiteId := db.lastSiteId + 1)
  }

  function ReplaceSite(sites: seq<Site>, s: Site): seq<Site> {
    seq(|sites|, i requires 0 <= i < |sites| => if sites[i].id == s.id then s else sites[i])
  }

  function SitesWithout(sites: seq<Site>, id: int): seq<Site> {
    if sites == [] then []
    else (if sites[0].id == id then [] else [sites[0]]) + SitesWithout(sites[1..], id)
  }

  // The UNIQUE constraint on the domain column, as an insert or update meets it.
  predicate InsertConflicts(sites: seq<Site>, s: Site) {
    exists t <- sites :: t.domain == s.domain
  }

  predicate UpdateConflicts(sites: seq<Site>, s: Site) {
    (exists t <- sites :: t.id == s.id) && (exists t <- sites :: t.id != s.id && t.domain == s.domain)
  }

  ghost predicate SiteIdsIncrease(sites: seq<Site>) {
    forall i, j :: 0 <= i < j < |sites| ==> sites[i].id < sites[j].id
  }

  ghost predicate DomainsDistinct(sites: seq<Site>) {
    forall i, j :: 0 <= i < j < |sites| ==> sites[i].domain != sites[j].domain
  }

  // What the schema and the id counter keep of the sites table.
  ghost predicate SitesSound(db: Db) {
    SiteIdsIncrease(db.sites) && DomainsDistinct(db.sites) && forall s <- db.sites :: s.id <= db.lastSiteId
  }

  // An insert is refused exactly when its row would repeat a domain.
  lemma InsertConflictsIff(sites: seq<Site>, s: Site)
    requires DomainsDistinct(sites)
    ensures InsertConflicts(sites, s) <==> !DomainsDistinct(sites + [s])
  {
    var after := sites + [s];
    if InsertConflicts(sites, s) {
      var t :| t in sites && t.domain == s.domain;
      var i :| 0 <= i < |sites| && sites[i] == t;
      assert after[i].domain == after[|sites|].domain;
    } else {
      assert forall i :: 0 <= i < |sites| ==> sites[i] in sites;
    }
  }

  // An update is refused exactly when its row would repeat a domain.
  lemma UpdateConflictsIff(sites: seq<Site>, s: Site)
    requires DomainsDistinct(sites) && SiteIdsIncrease(sites)
    ensures UpdateConflicts(sites, s) <==> !DomainsDistinct(ReplaceSite(sites, s))
  {
    var after := ReplaceSite(sites, s);
    if UpdateConflicts(sites, s) {
      var t :| t in sites && t.id == s.id;
      var u :| u in sites && u.id != s.id && u.domain == s.domain;
      var i :| 0 <= i < |sites| && sites[i] == t;
      var j :| 0 <= j < |sites| && sites[j] == u;
      assert after[i].domain == after[j].domain && i != j;
    }
  }

  lemma {:induction false} WithoutSites(sites: seq<Site>, id: int)
    ensures forall s :: s in SitesWithout(sites, id) <==> s in sites && s.id != id
  {
    if sites != [] {
      WithoutSites(sites[1..], id);
      assert sites == [sites[0]] + sites[1..];
    }
  }

  lemma FirstDiffers(sites: seq<Site>, s: Site)
    requires SiteIdsIncrease(sites) && DomainsDistinct(sites) && sites != [] && s in sites[1..]
    ensures sites[0].id < s.id && sites[0].domain != s.domain
  {
    var k :| 0 <= k < |sites[1..]| && sites[1..][k] == s;
    assert sites[k + 1] == s;
  }

  lemma {:induction false} WithoutKeepsSites(sites: seq<Site>, id: int)
    requires SiteIdsIncrease(sites) && DomainsDistinct(sites)
    ensures SiteIdsIncrease(SitesWithout(sites, id)) && DomainsDistinct(SitesWithout(sites, id))
  {
    if sites != [] {
      var rest := SitesWithout(sites[1..], id);
      WithoutKeepsSites(sites[1..], id);
      forall j | 0 <= j < |rest|
        ensures sites[0].id < rest[j].id && sites[0].domain != rest[j].domain
      {
        WithoutSites(sites[1..], id);
        assert rest[j] in rest;
        FirstDiffers(sites, rest[j]);
      }
    }
  }

  // Deleting an id takes out the site with that id and no other, and keeps the
  // rest in order and their domains distinct.
  lemma DeleteSiteMeans(sites: seq<Site>, id: int)
    requires SiteIdsIncrease(sites) && DomainsDistinct(sites)
    ensures SiteIdsIncrease(SitesWithout(sites, id)) && DomainsDistinct(SitesWithout(sites, id))
    ensures forall s :: s in SitesWithout(sites, id) <==> s in sites && s.id != id
  {
    WithoutSites(sites, id);
    WithoutKeepsSites(sites, id);
  }

  // Code-point order on text, the order of an ORDER BY on the domain column.
  predicate AtMost(a: string, b: string) {
    a == [] || (b != [] && (a[0] < b[0] || (a[0] == b[0] && AtMost(a[1..], b[1..]))))
  }

  lemma {:induction false} AtMostTotal(a: string, b: string)
    ensures AtMost(a, b) || AtMost(b, a)
  {
    if a != [] && b != [] {
      AtMostTotal(a[1..], b[1..]);
    }
  }

  lemma {:induction false} AtMostAntisymmetric(a: string, b: string)
    requires AtMost(a, b) && AtMost(b, a)
    ensures a == b
  {
    if a != [] {
      AtMostAntisymmetric(a[1..], b[1..]);
      assert a == [a[0]] + a[1..] && b == [b[0]] + b[1..];
    }
  }

  lemma {:induction false} AtMostTransitive(a: string, b: string, c: string)
    requires AtMost(a, b) && AtMost(b, c)
    ensures AtMost(a, c)
  {
    if a != [] && a[0] == b[0] && b[0] == c[0] {
      AtMostTransitive(a[1..], b[1..], c[1..]);
    }
  }

  function InsertByDomain(s: Site, sorted: seq<Site>): seq<Site> {
    if sorted == [] then [s]
    else if AtMost(s.domain, sorted[0].domain) then [s] + sorted
    else [sorted[0]] + InsertByDomain(s, sorted[1..])
  }

  // The rows of the sites table in the order ListSites returns them.
  function ByDomain(sites: seq<Site>): seq<Site> {
    if sites == [] then [] else InsertByDomain(sites[0], ByDomain(sites[1..]))
  }

  ghost predicate SortedByDomain(sites: seq<Site>) {
    forall i, j :: 0 <= i < j < |sites| ==> AtMost(sites[i].domain, sites[j].domain)
  }

  lemma {:induction false} InsertByDomainAdds(s: Site, sorted: seq<Site>)
    ensures multiset(InsertByDomain(s, sorted)) == multiset(sorted) + multiset{s}
  {
    if sorted != [] {
      assert sorted == [sorted[0]] + sorted[1..];
      InsertByDomainAdds(s, sorted[1..]);
    }
  }

  // Every row of a table comes after a given domain.
  ghost predicate AllAfter(domain: string, sites: seq<Site>) {
    forall s <- sites :: AtMost(domain, s.domain)
  }

  lemma SortedCons(s: Site, rest: seq<Site>)
    requires SortedByDomain(rest) && AllAfter(s.domain, rest)
    ensures SortedByDomain([s] + rest)
  {
    assert forall j :: 0 <= j < |rest| ==> rest[j] in rest;
  }

  lemma SortedHead(sorted: seq<Site>, domain: string)
    requires SortedByDomain(sorted) && sorted != [] && AtMost(domain, sorted[0].domain)
    ensures AllAfter(domain, sorted)
  {
    forall s | s in sorted
      ensures AtMost(domain, s.domain)
    {
      var j :| 0 <= j < |sorted| && sorted[j] == s;
      if j > 0 {
        AtMostTransitive(domain, sorted[0].domain, s.domain);
      }
    }
  }

  lemma {:induction false} InsertByDomainSorts(s: Site, sorted: seq<Site>)
    requires SortedByDomain(sorted)
    ensures SortedByDomain(InsertByDomain(s, sorted))
  {
    if sorted == [] {
    } else if AtMost(s.domain, sorted[0].domain) {
      SortedHead(sorted, s.domain);
      SortedCons(s, sorted);
    } else {
      var tail := sorted[1..];
      AtMostTotal(s.domain, sorted[0].domain);
      AtMostTotal(sorted[0].domain, sorted[0].domain);
      SortedHead(sorted, sorted[0].domain);
      InsertByDomainSorts(s, tail);
      InsertKeepsAfter(s, tail, sorted[0].domain);
      SortedCons(sorted[0], InsertByDomain(s, tail));
    }
  }

  lemma InsertKeepsAfter(s: Site, sorted: seq<Site>, domain: string)
    requires AllAfter(domain, sorted) && AtMost(domain, s.domain)
    ensures AllAfter(domain, InsertByDomain(s, sorted))
  {
    InsertByDomainAdds(s, sorted);
    forall t | t in InsertByDomain(s, sorted)
      ensures AtMost(domain, t.domain)
    {
      assert t in multiset(InsertByDomain(s, sorted));
    }
  }

  lemma {:induction false} ByDomainSorts(sites: seq<Site>)
    ensures SortedByDomain(ByDomain(sites))
    ensures multiset(ByDomain(sites)) == multiset(sites)
  {
    if sites != [] {
      assert sites == [sites[0]] + sites[1..];
      ByDomainSorts(sites[1..]);
      InsertByDomainSorts(sites[0], ByDomain(sites[1..]));
      InsertByDomainAdds(sites[0], ByDomain(sites[1..]));
    }
  }

  lemma ByDomainSameRows(sites: seq<Site>)
    ensures forall s :: s in ByDomain(sites) <==> s in sites
  {
    ByDomainSorts(sites);
    forall s ensures s in ByDomain(sites) <==> s in sites {
      assert s in multiset(ByDomain(sites)) <==> s in multiset(sites);
    }
  }

  // ----- The store object -----

  class Database {
    var rules: seq<Rule>
    var lastRuleId: int
    var sites: seq<Site>
    var lastSiteId: int

    function Tables(): Db
      reads this
    {
      Db(rules, lastRuleId, sites, lastSiteId)
    }

    constructor (db: Db)
      ensures Tables() == db
    {
      rules, lastRuleId, sites, lastSiteId := db.rules, db.lastRuleId, db.sites, db.lastSiteId;
    }

    method CreateRule(r: Rule, fail: bool) returns (id: Option<int>)
      modifies this
      ensures id == if fail then None else Some(old(lastRuleId) + 1)
      ensures Tables() == if fail then old(Tables()) else InsertRule(old(Tables()), r)
    {
      if fail {
        return None;
      }
      lastRuleId := lastRuleId + 1;
      rules := rules + [r.(id := lastRuleId)];
      return Some(lastRuleId);
    }

    method UpdateRule(r: Rule, fail: bool) returns (ok: bool)
      modifies this`rules
      ensures ok == !fail
      ensures rules == if fail then old(rules) else ReplaceRule(old(rules), r)
    {
      if fail {
        return false;
      }
      rules := ReplaceRule(rules, r);
      return true;
    }

    method DeleteRule(id: int, fail: bool) returns (ok: bool)
      modifies this`rules
      ensures ok == !fail
      ensures rules == if fail then old(rules) else RulesWithout(old(rules), id)
    {
      if fail {
        return false;
      }
      rules := RulesWithout(rules, id);
      return true;
    }

    // Walks the rows in id order and collects the enabled ones.
    method EnabledRuleDirectives() returns (out: seq<string>)
      ensures out == EnabledDirectives(rules)
    {
      out := [];
      for i := 0 to |rules|
        invariant out == EnabledDirectives(rules[..i])
      {
        if rules[i].enabled {
          out := out + [rules[i].directive];
        }
        EnabledAppend(rules[..i], rules[i]);
        assert rules[..i + 1] == rules[..i] + [rules[i]];
      }
      assert rules[..|rules|] == rules;
    }

    method CreateSite(s: Site, fail: bool) returns (id: Option<int>)
      modifies this
      ensures var bad := fail || InsertConflicts(old(sites), s);
              && id == (if bad then None else Some(old(lastSiteId) + 1))
              && Tables() == if bad then old(Tables()) else InsertSite(old(Tables()), s)
    {
      if fail || InsertConflicts(sites, s) {
        return None;
      }
      lastSiteId := lastSiteId + 1;
      sites := sites + [s.(id := lastSiteId)];
      return Some(lastSiteId);
    }

    method UpdateSite(s: Site, fail: bool) returns (ok: bool)
      modifies this`sites
      ensures ok == !(fail || UpdateConflicts(old(sites), s))
      ensures sites == if ok then ReplaceSite(old(sites), s) else old(sites)
    {
      if fail || UpdateConflicts(sites, s) {
        return false;
      }
      sites := ReplaceSite(sites, s);
      return true;
    }

    method DeleteSite(id: int, fail: bool) returns (ok: bool)
      modifies this`sites
      ensures ok == !fail
      ensures sites == if fail then old(sites) else SitesWithout(old(sites), id)
    {
      if fail {
        return false;
      }
      sites := SitesWithout(sites, id);
      return true;
    }

    method ListSites() returns (out: seq<Site>)
      ensures out == ByDomain(sites)
      ensures SortedByDomain(out) && multiset(out) == multiset(sites)
    {
      ByDomainSorts(sites);
      return ByDomain(sites);
    }
  }
}
