/** The audit log is complete: folding it alone rebuilds the policy state. */
module Replay {
  import opened Text
  import opened Policy
  import opened Store
  import opened StoreInvariant

  /** What the log is claimed to determine: zones with name and default flag, zone rules,
      assignments, request statuses, and the outstanding grants without their expiry. */
  datatype View = View(
    zones: map<Id, ZoneRow>, zoneRules: set<(Id, Rule)>, assigns: map<Id, Id>,
    statuses: map<Id, Status>, grants: multiset<(Id, Rule)>)

  const NOTHING := View(map[], {}, map[], map[], multiset{})

  function RulesOfZone(rules: set<(Id, Rule)>, z: Id): set<Rule> {
    set p | p in rules && p.0 == z :: p.1
  }

  function UnderZone(rules: set<Rule>, z: Id): set<(Id, Rule)> {
    set r | r in rules :: (z, r)
  }

  function WithZone(v: View, z: Id, row: ZoneRow): View {
    v.(zones := v.zones[z := row])
  }

  function Renamed(v: View, z: Id, name: string): View {
    if z in v.zones then WithZone(v, z, v.zones[z].(name := name)) else v
  }

  function Dropped(v: View, z: Id): View {
    v.(zones := v.zones - {z}, zoneRules := v.zoneRules - UnderZone(RulesOfZone(v.zoneRules, z), z))
  }

  function Defaulted(v: View, z: Id): View {
    v.(zones := WithDefault(v.zones, z), assigns := Unassigned(v.assigns, z))
  }

  function WithRules(v: View, rules: set<(Id, Rule)>): View {
    v.(zoneRules := v.zoneRules + rules)
  }

  function WithoutRule(v: View, z: Id, r: Rule): View {
    v.(zoneRules := v.zoneRules - {(z, r)})
  }

  function Moved(v: View, w: Id, z: Id): View {
    v.(assigns := if z in v.zones && v.zones[z].isDefault then v.assigns - {w} else v.assigns[w := z])
  }

  function WithGrantFor(v: View, w: Id, r: Rule): View {
    v.(grants := v.grants + multiset{(w, r)})
  }

  function WithoutGrantFor(v: View, w: Id, r: Rule): View {
    v.(grants := v.grants - multiset{(w, r)})
  }

  function Marked(v: View, q: Id, st: Status): View {
    v.(statuses := v.statuses[q := st])
  }

  function ReplayEvent(v: View, e: Event): View {
    match e
    case Seeded(z) => WithRules(WithZone(v, z, ZoneRow("default", true)), UnderZone(Elements(SEED_RULES), z))
    case ZoneCreated(z, name) => WithZone(v, z, ZoneRow(name, false))
    case ZoneCloned(z, from, name) => WithRules(WithZone(v, z, ZoneRow(name, false)),
                                                UnderZone(RulesOfZone(v.zoneRules, from), z))
    case ZoneRenamed(z, name) => Renamed(v, z, name)
    case ZoneDeleted(z) => Dropped(v, z)
    case DefaultSet(z) => Defaulted(v, z)
    case RuleAdded(z, r) => WithRules(v, {(z, r)})
    case RuleDeleted(z, w, r) =>
      if z.Some? then WithoutRule(v, z.value, r) else if w.Some? then WithoutGrantFor(v, w.value, r) else v
    case Assigned(w, z) => Moved(v, w, z)
    case Granted(w, r, _) => WithGrantFor(v, w, r)
    case RequestApproved(q, _, w, r, _) => WithGrantFor(Marked(v, q, Approved), w, r)
    case RequestDenied(q, _) => Marked(v, q, Denied)
    case GrantExpired(w, r) => WithoutGrantFor(v, w, r)
    case Requested(q, _, _, _) => Marked(v, q, Pending)
    case SystemNote(_) => v
  }

  function ReplayLog(log: seq<AuditRow>): View {
    if log == [] then NOTHING else ReplayEvent(ReplayLog(log[..|log| - 1]), log[|log| - 1].event)
  }

  // ---- The same view, read off the tables ----------------------------------

  function ZoneRuleOf(r: RuleRow): set<(Id, Rule)> {
    if r.zone.Some? then {(r.zone.value, r.rule)} else {}
  }

  function ZoneRuleSet(rules: seq<RuleRow>): set<(Id, Rule)> {
    if rules == [] then {} else ZoneRuleSet(rules[..|rules| - 1]) + ZoneRuleOf(rules[|rules| - 1])
  }

  function GrantOf(r: RuleRow): multiset<(Id, Rule)> {
    if r.workspace.Some? then multiset{(r.workspace.value, r.rule)} else multiset{}
  }

  function GrantBag(rules: seq<RuleRow>): multiset<(Id, Rule)> {
    if rules == [] then multiset{} else GrantBag(rules[..|rules| - 1]) + GrantOf(rules[|rules| - 1])
  }

  function Statuses(requests: map<Id, RequestRow>): map<Id, Status> {
    map q | q in requests :: requests[q].status
  }

  function ViewOf(s: State): View {
    View(s.zones, ZoneRuleSet(s.rules), s.assigns, Statuses(s.requests), GrantBag(s.rules))
  }

  // ---- Bags and sets of rows -----------------------------------------------

  lemma {:induction false} ReplaySnoc(log: seq<AuditRow>, row: AuditRow)
    ensures ReplayLog(log + [row]) == ReplayEvent(ReplayLog(log), row.event)
  {
    assert (log + [row])[..|log|] == log;
  }

  lemma {:induction false} GrantBagConcat(a: seq<RuleRow>, b: seq<RuleRow>)
    ensures GrantBag(a + b) == GrantBag(a) + GrantBag(b)
  {
    if b == [] {
      assert a + b == a;
    } else {
      var init, last := b[..|b| - 1], b[|b| - 1];
      assert (a + b)[..|a + b| - 1] == a + init && (a + b)[|a + b| - 1] == last;
      GrantBagConcat(a, init);
    }
  }

  lemma {:induction false} NoGrants(rules: seq<RuleRow>)
    requires forall r :: r in rules ==> r.workspace.None?
    ensures GrantBag(rules) == multiset{}
  {
    if rules != [] { NoGrants(rules[..|rules| - 1]); }
  }

  lemma {:induction false} WithoutZoneBag(rules: seq<RuleRow>, z: Id)
    requires forall r :: r in rules && r.zone.Some? ==> r.workspace.None?
    ensures GrantBag(WithoutZone(rules, z)) == GrantBag(rules)
  {
    if rules != [] {
      var init, last := rules[..|rules| - 1], rules[|rules| - 1];
      WithoutZoneBag(init, z);
      AppendView(WithoutZone(init, z), last);
    }
  }

  /** Expiry splits the grants into those that stay and those that go. */
  lemma {:induction false} ExpirySplitsBag(rules: seq<RuleRow>, now: int)
    ensures GrantBag(rules) == GrantBag(WithoutExpired(rules, now)) + GrantBag(ExpiredRows(rules, now))
  {
    if rules != [] {
      var init, last := rules[..|rules| - 1], rules[|rules| - 1];
      ExpirySplitsBag(init, now);
      var kept, gone := WithoutExpired(init, now), ExpiredRows(init, now);
      BagShuffle(GrantBag(kept), GrantBag(gone), GrantOf(last));
      AppendView(if HasExpired(last, now) then gone else kept, last);
    }
  }

  lemma BagShuffle(a: multiset<(Id, Rule)>, b: multiset<(Id, Rule)>, x: multiset<(Id, Rule)>)
    ensures (a + b) + x == (a + x) + b == a + (b + x)
    ensures a - b - x == a - (b + x)
  {
  }

  /** What one more rule row adds to the view. */
  lemma {:induction false} AppendView(rules: seq<RuleRow>, r: RuleRow)
    ensures ZoneRuleSet(rules + [r]) == ZoneRuleSet(rules) + ZoneRuleOf(r)
    ensures GrantBag(rules + [r]) == GrantBag(rules) + GrantOf(r)
  {
    assert (rules + [r])[..|rules|] == rules;
  }

  ghost predicate ReplaysTo(log: seq<AuditRow>, v: View) {
    ReplayLog(log) == v
  }

  lemma ReplayOne(log: seq<AuditRow>, v: View, row: AuditRow)
    requires ReplaysTo(log, v)
    ensures ReplaysTo(log + [row], ReplayEvent(v, row.event))
  {
    ReplaySnoc(log, row);
  }

  /** The log replays to the view without these grants. */
  ghost predicate ReplaysWithout(log: seq<AuditRow>, v: View, bag: multiset<(Id, Rule)>) {
    ReplaysTo(log, v.(grants := v.grants - bag))
  }

  lemma {:induction false} WithoutNone(log: seq<AuditRow>, v: View)
    requires ReplaysTo(log, v)
    ensures ReplaysWithout(log, v, multiset{})
  {
    assert v.grants - multiset{} == v.grants;
  }

  lemma {:induction false} WithoutOneMore(log: seq<AuditRow>, v: View, bag: multiset<(Id, Rule)>, r: RuleRow, now: int)
    requires r.workspace.Some? && ReplaysWithout(log, v, bag)
    ensures ReplaysWithout(log + [ExpiryRow(r, now)], v, bag + GrantOf(r))
  {
    ReplayOne(log, v.(grants := v.grants - bag), ExpiryRow(r, now));
    BagShuffle(v.grants, bag, GrantOf(r));
  }

  lemma {:induction false} ReplayNoExpiry(log: seq<AuditRow>, v: View, now: int)
    requires ReplaysTo(log, v)
    ensures ReplaysWithout(log + ExpiryRows([], now), v, GrantBag([]))
  {
    assert log + ExpiryRows([], now) == log;
    WithoutNone(log, v);
  }

  lemma {:induction false} ReplayNextExpiry(log: seq<AuditRow>, v: View, rows: seq<RuleRow>, r: RuleRow, now: int)
    requires r.workspace.Some? && forall x :: x in rows ==> x.workspace.Some?
    requires ReplaysWithout(log + ExpiryRows(rows, now), v, GrantBag(rows))
    ensures ReplaysWithout(log + ExpiryRows(rows + [r], now), v, GrantBag(rows + [r]))
  {
    ExpiryRowsSnoc(log, rows, r, now);
    WithoutOneMore(log + ExpiryRows(rows, now), v, GrantBag(rows), r, now);
    AppendView(rows, r);
  }

  lemma {:induction false} ReplayExpiry(log: seq<AuditRow>, v: View, rows: seq<RuleRow>, now: int)
    requires ReplaysTo(log, v) && forall r :: r in rows ==> r.workspace.Some?
    ensures ReplaysWithout(log + ExpiryRows(rows, now), v, GrantBag(rows))
  {
    if rows == [] {
      ReplayNoExpiry(log, v, now);
    } else {
      var init, last := rows[..|rows| - 1], rows[|rows| - 1];
      ReplayExpiry(log, v, init, now);
      ReplayNextExpiry(log, v, init, last, now);
      assert rows == init + [last];
    }
  }

  lemma {:induction false} ZoneRuleSetConcat(a: seq<RuleRow>, b: seq<RuleRow>)
    ensures ZoneRuleSet(a + b) == ZoneRuleSet(a) + ZoneRuleSet(b)
  {
    if b == [] {
      assert a + b == a;
    } else {
      var init, last := b[..|b| - 1], b[|b| - 1];
      assert (a + b)[..|a + b| - 1] == a + init && (a + b)[|a + b| - 1] == last;
      ZoneRuleSetConcat(a, init);
    }
  }

  lemma {:induction false} ZoneRuleMember(rules: seq<RuleRow>, z: Id, rule: Rule)
    ensures (z, rule) in ZoneRuleSet(rules) <==> HasZoneRule(rules, z, rule)
  {
    if rules != [] {
      var init, last := rules[..|rules| - 1], rules[|rules| - 1];
      ZoneRuleMember(init, z, rule);
      assert rules == init + [last];
      if HasZoneRule(init, z, rule) {
        var r :| r in init && r.zone == Some(z) && r.rule == rule;
        assert r in rules;
      }
      if HasZoneRule(rules, z, rule) {
        var r :| r in rules && r.zone == Some(z) && r.rule == rule;
        assert r in init || r == last;
      }
    }
  }

  // ---- Each transaction logs what it does ----------------------------------

  /** The one new audit row accounts for the whole change of the view. */
  ghost predicate Explained(s: State, s': State) {
    && |s'.log| == |s.log| + 1 && s'.log[..|s.log|] == s.log
    && ViewOf(s') == ReplayEvent(ViewOf(s), s'.log[|s.log|].event)
  }

  ghost predicate Accounted(s: State, s': State) {
    s' == s || Explained(s, s')
  }

  lemma SeedExplains(s: State, now: int, id: Id)
    ensures Accounted(s, Seed(s, now, id).0)
  {
    if |s.zones| == 0 {
      var s' := Seed(s, now, id).0;
      assert s.zones == map[];
      SeededView(s, s', id);
      assert s'.log[|s.log|].event == Seeded(id);
    }
  }

  lemma SeededView(s: State, s': State, id: Id)
    requires s.zones == map[] && s'.zones == map[id := ZoneRow("default", true)] && s'.assigns == s.assigns &&
             s'.requests == s.requests
    requires s'.rules == s.rules + [RuleRow(s.nextRule, Some(id), None, SEED_RULES[0], None, "bootstrap"),
                                    RuleRow(s.nextRule + 1, Some(id), None, SEED_RULES[1], None, "bootstrap")]
    ensures ViewOf(s') == ReplayEvent(ViewOf(s), Seeded(id))
  {
    SeedView(s.rules, s'.rules[|s.rules|], s'.rules[|s.rules| + 1]);
    SeedZoneRules(id);
  }

  lemma SeedZoneRules(id: Id)
    ensures UnderZone(Elements(SEED_RULES), id) == {(id, SEED_RULES[0])} + {(id, SEED_RULES[1])}
  {
    assert Elements(SEED_RULES) == {SEED_RULES[0], SEED_RULES[1]};
  }

  lemma {:induction false} SeedView(rules: seq<RuleRow>, a: RuleRow, b: RuleRow)
    ensures ZoneRuleSet(rules + [a, b]) == ZoneRuleSet(rules) + (ZoneRuleOf(a) + ZoneRuleOf(b))
    ensures GrantBag(rules + [a, b]) == GrantBag(rules) + GrantOf(a) + GrantOf(b)
  {
    AppendView(rules, a);
    AppendView(rules + [a], b);
    assert rules + [a, b] == (rules + [a]) + [b];
  }

  lemma CreateZoneExplains(s: State, now: int, actor: string, id: Id, name: string)
    ensures Accounted(s, CreateZone(s, now, actor, id, name).0)
  {
  }

  lemma CloneZoneExplains(s: State, now: int, actor: string, src: Id, id: Id, name: string)
    ensures Accounted(s, CloneZone(s, now, actor, src, id, name).0)
  {
    var r := CloneZone(s, now, actor, src, id, name);
    if r.1.OkId? {
      CloneView(s, r.0, actor, src, id, name);
      assert r.0.log[|s.log|].event == ZoneCloned(id, src, name);
    }
  }

  lemma {:induction false} CloneView(s: State, s': State, actor: string, src: Id, id: Id, name: string)
    requires s'.zones == s.zones[id := ZoneRow(name, false)] && s'.assigns == s.assigns && s'.requests == s.requests
    requires s'.rules == s.rules + ZoneCopies(s.rules, src, id, actor, s.nextRule)
    ensures ViewOf(s') == ReplayEvent(ViewOf(s), ZoneCloned(id, src, name))
  {
    var copies := ZoneCopies(s.rules, src, id, actor, s.nextRule);
    CopiesAre(s.rules, src, id, actor, s.nextRule);
    NoGrants(copies);
    GrantBagConcat(s.rules, copies);
    ZoneRuleSetConcat(s.rules, copies);
    CopiedRules(s.rules, src, id, actor, s.nextRule);
  }

  lemma {:induction false} CopiedRules(rules: seq<RuleRow>, from: Id, to: Id, actor: string, next: nat)
    ensures ZoneRuleSet(ZoneCopies(rules, from, to, actor, next)) ==
            UnderZone(RulesOfZone(ZoneRuleSet(rules), from), to)
  {
    var copies := ZoneCopies(rules, from, to, actor, next);
    CopiesAre(rules, from, to, actor, next);
    forall z, r ensures (z, r) in ZoneRuleSet(copies) <==> z == to && (from, r) in ZoneRuleSet(rules) {
      ZoneRuleMember(copies, z, r);
      ZoneRuleMember(rules, from, r);
      if HasZoneRule(copies, z, r) {
        var c :| c in copies && c.zone == Some(z) && c.rule == r;
      }
      if HasZoneRule(rules, from, r) {
        var x :| x in rules && x.zone == Some(from) && x.rule == r;
      }
    }
    SetOfPairs(ZoneRuleSet(copies), ZoneRuleSet(rules), from, to);
  }

  lemma SetOfPairs(a: set<(Id, Rule)>, b: set<(Id, Rule)>, from: Id, to: Id)
    requires forall z, r :: (z, r) in a <==> z == to && (from, r) in b
    ensures a == UnderZone(RulesOfZone(b, from), to)
  {
    forall p ensures p in a <==> p in UnderZone(RulesOfZone(b, from), to) {
      assert p == (p.0, p.1);
    }
  }

  lemma {:induction false} DroppedRules(rules: seq<RuleRow>, z: Id)
    ensures ZoneRuleSet(WithoutZone(rules, z)) == ZoneRuleSet(rules) - UnderZone(RulesOfZone(ZoneRuleSet(rules), z), z)
  {
    var kept := WithoutZone(rules, z);
    var all := ZoneRuleSet(rules);
    forall p ensures p in ZoneRuleSet(kept) <==> p in all && p.0 != z {
      assert p == (p.0, p.1);
      ZoneRuleMember(kept, p.0, p.1);
      ZoneRuleMember(rules, p.0, p.1);
    }
    forall p | p in all ensures p in UnderZone(RulesOfZone(all, z), z) <==> p.0 == z {
      assert p == (p.0, p.1);
    }
  }

  lemma RenameZoneExplains(s: State, now: int, actor: string, id: Id, name: string)
    ensures Accounted(s, RenameZone(s, now, actor, id, name).0)
  {
  }

  lemma DeleteZoneExplains(s: State, now: int, actor: string, id: Id)
    requires Inv(s)
    ensures Accounted(s, DeleteZone(s, now, actor, id).0)
  {
    var s' := DeleteZone(s, now, actor, id).0;
    if s' != s {
      DroppedView(s, s', id);
      assert s'.log[|s.log|].event == ZoneDeleted(id);
    }
  }

  lemma {:induction false} DroppedView(s: State, s': State, id: Id)
    requires RulesOk(s) && s'.zones == s.zones - {id} && s'.rules == WithoutZone(s.rules, id)
    requires s'.assigns == s.assigns && s'.requests == s.requests
    ensures ViewOf(s') == ReplayEvent(ViewOf(s), ZoneDeleted(id))
  {
    DroppedTables(s, id);
    DroppedIs(ViewOf(s), ViewOf(s'), id);
  }

  lemma DroppedIs(v: View, v': View, z: Id)
    requires v' == v.(zones := v.zones - {z}, zoneRules := v.zoneRules - UnderZone(RulesOfZone(v.zoneRules, z), z))
    ensures v' == ReplayEvent(v, ZoneDeleted(z))
  {
  }

  lemma {:induction false} DroppedTables(s: State, z: Id)
    requires RulesOk(s)
    ensures GrantBag(WithoutZone(s.rules, z)) == GrantBag(s.rules)
    ensures ZoneRuleSet(WithoutZone(s.rules, z)) ==
            ZoneRuleSet(s.rules) - UnderZone(RulesOfZone(ZoneRuleSet(s.rules), z), z)
  {
    forall r | r in s.rules && r.zone.Some? ensures r.workspace.None? { assert RowOk(s.zones, s.nextRule, r); }
    WithoutZoneBag(s.rules, z);
    DroppedRules(s.rules, z);
  }

  lemma SetDefaultZoneExplains(s: State, now: int, actor: string, id: Id)
    ensures Accounted(s, SetDefaultZone(s, now, actor, id).0)
  {
  }

  lemma AddZoneRuleExplains(s: State, now: int, actor: string, zone: Id, rule: Rule)
    ensures Accounted(s, AddZoneRule(s, now, actor, zone, rule).0)
  {
    AppendView(s.rules, RuleRow(s.nextRule, Some(zone), None, rule, None, actor));
  }

  lemma DeleteRuleExplains(s: State, now: int, actor: string, ruleId: nat)
    requires Inv(s)
    ensures Accounted(s, DeleteRule(s, now, actor, ruleId).0)
  {
    var i := RowIndex(s.rules, ruleId);
    if i < |s.rules| {
      var s' := DeleteRule(s, now, actor, ruleId).0;
      DeletedView(s, s', i);
      assert s'.log[|s.log|].event == RuleDeleted(s.rules[i].zone, s.rules[i].workspace, s.rules[i].rule);
    }
  }

  lemma DeletedView(s: State, s': State, i: nat)
    requires RulesOk(s) && i < |s.rules| && s'.rules == s.rules[..i] + s.rules[i + 1..]
    requires s'.zones == s.zones && s'.assigns == s.assigns && s'.requests == s.requests
    ensures ViewOf(s') == ReplayEvent(ViewOf(s), RuleDeleted(s.rules[i].zone, s.rules[i].workspace, s.rules[i].rule))
  {
    RemovedRow(s, i);
    assert s.rules[i] in s.rules && RowOk(s.zones, s.nextRule, s.rules[i]);
    RemovalView(ViewOf(s), ViewOf(s'), s.rules[i]);
  }

  lemma RemovalView(v: View, v': View, r: RuleRow)
    requires r.zone.Some? != r.workspace.Some?
    requires v' == v.(grants := v.grants - GrantOf(r), zoneRules := v.zoneRules - ZoneRuleOf(r))
    ensures v' == ReplayEvent(v, RuleDeleted(r.zone, r.workspace, r.rule))
  {
    assert v.grants - multiset{} == v.grants && v.zoneRules - {} == v.zoneRules;
  }

  lemma RemovedRow(s: State, i: nat)
    requires RulesOk(s) && i < |s.rules|
    ensures var r, rest := s.rules[i], s.rules[..i] + s.rules[i + 1..];
            && GrantBag(rest) == GrantBag(s.rules) - GrantOf(r)
            && ZoneRuleSet(rest) == ZoneRuleSet(s.rules) - ZoneRuleOf(r)
  {
    var a, r, b := s.rules[..i], s.rules[i], s.rules[i + 1..];
    assert s.rules == (a + [r]) + b;
    AppendView(a, r);
    GrantBagConcat(a + [r], b);
    GrantBagConcat(a, b);
    BagCancel(GrantBag(a), GrantOf(r), GrantBag(b));
    ZoneRuleSetConcat(a + [r], b);
    ZoneRuleSetConcat(a, b);
    ForeignRow(s, i);
    SetCancel(ZoneRuleSet(a), ZoneRuleOf(r), ZoneRuleSet(b));
  }

  /** No other row holds the same rule of the same zone. */
  lemma ForeignRow(s: State, i: nat)
    requires RulesOk(s) && i < |s.rules|
    ensures ZoneRuleOf(s.rules[i]) !! ZoneRuleSet(s.rules[..i] + s.rules[i + 1..])
  {
    var r, rest := s.rules[i], s.rules[..i] + s.rules[i + 1..];
    if r.zone.Some? {
      forall k | 0 <= k < |rest| ensures Apart(rest[k], r) || Apart(r, rest[k]) {
        assert rest[k] == s.rules[if k < i then k else k + 1];
      }
      ZoneRuleMember(rest, r.zone.value, r.rule);
    }
  }

  lemma BagCancel(a: multiset<(Id, Rule)>, x: multiset<(Id, Rule)>, b: multiset<(Id, Rule)>)
    ensures (a + x) + b - x == a + b
  {
  }

  lemma SetCancel(a: set<(Id, Rule)>, x: set<(Id, Rule)>, b: set<(Id, Rule)>)
    requires x !! a + b
    ensures (a + x) + b - x == a + b
  {
  }

  lemma AssignExplains(s: State, now: int, actor: string, ws: Id, zone: Id)
    ensures Accounted(s, Assign(s, now, actor, ws, zone).0)
  {
  }

  lemma GrantExplains(s: State, now: int, actor: string, ws: Id, rule: Rule, ttl: int)
    ensures Accounted(s, Grant(s, now, actor, ws, rule, ttl).0)
  {
    AppendView(s.rules, GrantRow(s, now, actor, ws, rule, ttl));
  }

  lemma {:induction false} KeptZoneRules(s: State, now: int)
    requires RulesOk(s)
    ensures ZoneRuleSet(WithoutExpired(s.rules, now)) == ZoneRuleSet(s.rules)
  {
    var kept := WithoutExpired(s.rules, now);
    forall p ensures p in ZoneRuleSet(kept) <==> p in ZoneRuleSet(s.rules) {
      assert p == (p.0, p.1);
      ZoneRuleMember(kept, p.0, p.1);
      ZoneRuleMember(s.rules, p.0, p.1);
    }
  }

  /** Expiry writes one audit row per deleted grant; together they account for the change. */
  lemma {:induction false} ExpireGrantsView(s: State, now: int)
    requires Inv(s)
    ensures ViewOf(ExpireGrants(s, now).0) ==
            ViewOf(s).(grants := ViewOf(s).grants - GrantBag(ExpiredRows(s.rules, now)))
  {
    ExpirySplitsBag(s.rules, now);
    KeptZoneRules(s, now);
  }

  lemma FileRequestExplains(s: State, now: int, actor: string, id: Id, ws: Id, host: string, port: int, just: string)
    ensures Accounted(s, FileRequest(s, now, actor, id, ws, host, port, just).0)
  {
    StatusSet(s.requests, id, RequestRow(ws, host, port, just, actor, Pending, None, None, None));
  }

  lemma DecideExplains(s: State, now: int, actor: string, id: Id, approve: bool, ttl: int)
    ensures Accounted(s, Decide(s, now, actor, id, approve, ttl).0)
  {
    var r := Decide(s, now, actor, id, approve, ttl);
    if r.1.Ok? {
      StatusSet(s.requests, id, r.0.requests[id]);
      assert r.0.requests == s.requests[id := r.0.requests[id]];
      if approve {
        ApprovalView(s, r.0, id, r.0.requests[id], r.0.rules[|s.rules|]);
      }
    }
  }

  lemma ApprovalView(s: State, s': State, id: Id, q: RequestRow, row: RuleRow)
    requires s'.zones == s.zones && s'.assigns == s.assigns && s'.rules == s.rules + [row] &&
             s'.requests == s.requests[id := q]
    requires row.zone.None? && row.workspace.Some?
    ensures ViewOf(s') == WithGrantFor(Marked(ViewOf(s), id, q.status), row.workspace.value, row.rule)
  {
    AppendView(s.rules, row);
    StatusSet(s.requests, id, q);
  }

  lemma StatusSet(requests: map<Id, RequestRow>, id: Id, q: RequestRow)
    ensures Statuses(requests[id := q]) == Statuses(requests)[id := q.status]
  {
  }

  lemma ZoneStepExplains(s: State, op: Op, now: int)
    requires Inv(s) && OnZones(op)
    ensures Accounted(s, Step(s, op, now).0)
  {
    match op
    case OpSeed(id) => SeedExplains(s, now, id);
    case OpCreateZone(actor, id, name) => CreateZoneExplains(s, now, actor, id, name);
    case OpCloneZone(actor, src, id, name) => CloneZoneExplains(s, now, actor, src, id, name);
    case OpRenameZone(actor, id, name) => RenameZoneExplains(s, now, actor, id, name);
    case OpDeleteZone(actor, id) => DeleteZoneExplains(s, now, actor, id);
    case OpSetDefaultZone(actor, id) => SetDefaultZoneExplains(s, now, actor, id);
  }

  lemma RowStepExplains(s: State, op: Op, now: int)
    requires Inv(s) && !OnZones(op) && !op.OpExpireGrants?
    ensures Accounted(s, Step(s, op, now).0)
  {
    match op
    case OpAddZoneRule(actor, id, rule) => AddZoneRuleExplains(s, now, actor, id, rule);
    case OpDeleteRule(actor, ruleId) => DeleteRuleExplains(s, now, actor, ruleId);
    case OpAssign(actor, ws, id) => AssignExplains(s, now, actor, ws, id);
    case OpGrant(actor, ws, rule, ttl) => GrantExplains(s, now, actor, ws, rule, ttl);
    case OpFileRequest(actor, id, ws, host, port, just) => FileRequestExplains(s, now, actor, id, ws, host, port, just);
    case OpDecide(actor, id, approve, ttl) => DecideExplains(s, now, actor, id, approve, ttl);
    case OpAuditSystem(action) => NoteExplains(s, now, action);
  }

  lemma NoteExplains(s: State, now: int, action: string)
    ensures Accounted(s, AuditSystem(s, now, action).0)
  {
  }

  /** Every transaction but expiry writes one audit row, and it accounts for the change. */
  lemma StepExplains(s: State, op: Op, now: int)
    requires Inv(s) && !op.OpExpireGrants?
    ensures Accounted(s, Step(s, op, now).0)
  {
    if OnZones(op) { ZoneStepExplains(s, op, now); } else { RowStepExplains(s, op, now); }
  }

  ghost predicate Faithful(s: State) {
    ReplaysTo(s.log, ViewOf(s))
  }

  lemma AccountedIsFaithful(s: State, s': State)
    requires Faithful(s) && Accounted(s, s')
    ensures Faithful(s')
  {
    if s' != s {
      var row := s'.log[|s.log|];
      assert s'.log == s.log + [row];
      ReplayOne(s.log, ViewOf(s), row);
    }
  }

  lemma {:induction false} ExpiryFaithful(s: State, now: int)
    requires Inv(s) && Faithful(s)
    ensures Faithful(ExpireGrants(s, now).0)
  {
    ExpireGrantsView(s, now);
    ReplayExpiry(s.log, ViewOf(s), ExpiredRows(s.rules, now), now);
  }

  lemma StepFaithful(s: State, op: Op, now: int)
    requires Inv(s) && Faithful(s)
    ensures Faithful(Step(s, op, now).0)
  {
    if op.OpExpireGrants? {
      ExpiryFaithful(s, now);
    } else {
      StepExplains(s, op, now);
      AccountedIsFaithful(s, Step(s, op, now).0);
    }
  }

  lemma {:induction false} RunIsFaithful(run: seq<Tx>)
    ensures Faithful(After(EMPTY, run))
  {
    if run != [] {
      var init, last := run[..|run| - 1], run[|run| - 1];
      RunIsFaithful(init);
      RunKeeps(init);
      StepFaithful(After(EMPTY, init), last.op, last.at);
    }
  }

  /** Audit replay: in every run from the empty database, the log alone rebuilds the state. */
  lemma {:induction false} LogRebuildsState(run: seq<Tx>)
    ensures ReplayLog(After(EMPTY, run).log) == ViewOf(After(EMPTY, run))
  {
    RunIsFaithful(run);
  }
}
