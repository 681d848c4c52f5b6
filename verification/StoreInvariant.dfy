/** What every transaction keeps: the shape of the tables in every reachable state. */
module StoreInvariant {
  import opened Text
  import opened Names
  import opened Policy
  import opened Store

  /** A rule row is valid and belongs to exactly one of an existing zone and a workspace;
      grants expire and zone rules do not. */
  predicate RowOk(zones: map<Id, ZoneRow>, next: nat, r: RuleRow) {
    && ValidRule(r.rule) && r.id < next
    && r.zone.Some? != r.workspace.Some?
    && r.workspace.Some? == r.expires.Some?
    && (r.zone.Some? ==> r.zone.value in zones)
  }

  /** Row ids are unique, and so are rules within a zone. */
  predicate Apart(a: RuleRow, b: RuleRow) {
    a.id != b.id && !(a.zone.Some? && a.zone == b.zone && a.rule == b.rule)
  }

  predicate Pairwise(rules: seq<RuleRow>) {
    forall i, j :: 0 <= i < j < |rules| ==> Apart(rules[i], rules[j])
  }

  ghost predicate RulesOk(s: State) {
    Pairwise(s.rules) && forall r :: r in s.rules ==> RowOk(s.zones, s.nextRule, r)
  }

  ghost predicate IsDefault(zones: map<Id, ZoneRow>, z: Id) {
    z in zones && zones[z].isDefault
  }

  ghost predicate ZonesOk(zones: map<Id, ZoneRow>) {
    && (forall z :: z in zones ==> ZoneNameOk(zones[z].name))
    && (forall z, y :: z in zones && y in zones && zones[z].name == zones[y].name ==> z == y)
    && (forall z, y :: IsDefault(zones, z) && IsDefault(zones, y) ==> z == y)
  }

  ghost predicate AssignsOk(zones: map<Id, ZoneRow>, assigns: map<Id, Id>) {
    forall w :: w in assigns ==> assigns[w] in zones && !zones[assigns[w]].isDefault
  }

  predicate RequestOk(q: RequestRow) {
    ValidRule(HostRule(q.host, q.port)) && 1 <= |q.justification| <= 2000 &&
    (q.status == Approved ==> q.ttl.Some? && q.ttl.value > 0 && q.decidedAt.Some?)
  }

  /** At most one pending request per workspace, host and port. */
  ghost predicate RequestsOk(requests: map<Id, RequestRow>) {
    && (forall q :: q in requests ==> RequestOk(requests[q]))
    && (forall q, p :: q in requests && p in requests && SamePending(requests[q], requests[p]) ==> q == p)
  }

  predicate SamePending(q: RequestRow, p: RequestRow) {
    q.status == Pending && IsPending(p, q.workspace, q.host, q.port)
  }

  ghost predicate Inv(s: State) {
    RulesOk(s) && ZonesOk(s.zones) && AssignsOk(s.zones, s.assigns) && RequestsOk(s.requests)
  }

  /** Inv, and there is a default zone: together with ZonesOk, exactly one. */
  ghost predicate Ready(s: State) {
    Inv(s) && exists z :: IsDefault(s.zones, z)
  }

  // ---- Tables of rules -----------------------------------------------------

  lemma PairwiseSnoc(rules: seq<RuleRow>, r: RuleRow)
    ensures Pairwise(rules + [r]) <==> Pairwise(rules) && forall x :: x in rules ==> Apart(x, r)
  {
    var all := rules + [r];
    if Pairwise(all) {
      forall i, j | 0 <= i < j < |rules| ensures Apart(rules[i], rules[j]) { assert Apart(all[i], all[j]); }
      forall x | x in rules ensures Apart(x, r) {
        var i :| 0 <= i < |rules| && rules[i] == x;
        assert Apart(all[i], all[|rules|]);
      }
    }
  }

  lemma {:induction false} WithoutZonePairwise(rules: seq<RuleRow>, z: Id)
    requires Pairwise(rules)
    ensures Pairwise(WithoutZone(rules, z))
  {
    if rules != [] {
      var init, last := rules[..|rules| - 1], rules[|rules| - 1];
      assert rules == init + [last];
      PairwiseSnoc(init, last);
      WithoutZonePairwise(init, z);
      PairwiseSnoc(WithoutZone(init, z), last);
    }
  }

  lemma {:induction false} WithoutExpiredPairwise(rules: seq<RuleRow>, now: int)
    requires Pairwise(rules)
    ensures Pairwise(WithoutExpired(rules, now))
  {
    if rules != [] {
      var init, last := rules[..|rules| - 1], rules[|rules| - 1];
      assert rules == init + [last];
      PairwiseSnoc(init, last);
      WithoutExpiredPairwise(init, now);
      PairwiseSnoc(WithoutExpired(init, now), last);
    }
  }

  /** The copies are exactly the source zone's rules, under the new zone. */
  lemma {:induction false} CopiesAre(rules: seq<RuleRow>, from: Id, to: Id, actor: string, next: nat)
    ensures forall c :: c in ZoneCopies(rules, from, to, actor, next) ==>
              && c.zone == Some(to) && c.workspace.None? && c.expires.None? && HasZoneRule(rules, from, c.rule)
              && next <= c.id < next + |ZoneCopies(rules, from, to, actor, next)|
    ensures forall r :: r in rules && r.zone == Some(from) ==>
            HasZoneRule(ZoneCopies(rules, from, to, actor, next), to, r.rule)
  {
    if rules != [] {
      var init, last := rules[..|rules| - 1], rules[|rules| - 1];
      assert rules == init + [last];
      CopiesAre(init, from, to, actor, next);
      var earlier := ZoneCopies(init, from, to, actor, next);
      forall x | HasZoneRule(init, from, x) ensures HasZoneRule(rules, from, x) {
        var r :| r in init && r.zone == Some(from) && r.rule == x;
        assert r in rules;
      }
      var all := ZoneCopies(rules, from, to, actor, next);
      if last.zone == Some(from) {
        var c := RuleRow(next + |earlier|, Some(to), None, last.rule, None, actor);
        assert all == earlier + [c] && c in all && last in rules;
        forall r | r in rules && r.zone == Some(from) ensures HasZoneRule(all, to, r.rule) {
          if r != last {
            var x :| x in earlier && x.zone == Some(to) && x.rule == r.rule;
            assert x in all;
          }
        }
      }
    }
  }

  lemma {:induction false} CopiesPairwise(rules: seq<RuleRow>, from: Id, to: Id, actor: string, next: nat)
    requires Pairwise(rules)
    ensures Pairwise(ZoneCopies(rules, from, to, actor, next))
  {
    if rules != [] {
      var init, last := rules[..|rules| - 1], rules[|rules| - 1];
      assert rules == init + [last];
      PairwiseSnoc(init, last);
      CopiesPairwise(init, from, to, actor, next);
      CopiesAre(init, from, to, actor, next);
      var earlier := ZoneCopies(init, from, to, actor, next);
      if last.zone == Some(from) {
        var c := RuleRow(next + |earlier|, Some(to), None, last.rule, None, actor);
        forall x | x in earlier ensures Apart(x, c) {
          var r :| r in init && r.zone == Some(from) && r.rule == x.rule;
          assert Apart(r, last);
        }
        PairwiseSnoc(earlier, c);
      }
    }
  }

  lemma PairwiseConcat(a: seq<RuleRow>, b: seq<RuleRow>)
    requires Pairwise(a) && Pairwise(b) && forall x, y :: x in a && y in b ==> Apart(x, y)
    ensures Pairwise(a + b)
  {
  }

  // ---- Transactions keep the invariant -------------------------------------

  lemma AppendKeeps(s: State, r: RuleRow)
    requires RulesOk(s) && r.id == s.nextRule && RowOk(s.zones, s.nextRule + 1, r)
    requires r.zone.Some? ==> !HasZoneRule(s.rules, r.zone.value, r.rule)
    ensures RulesOk(s.(rules := s.rules + [r], nextRule := s.nextRule + 1))
  {
    PairwiseSnoc(s.rules, r);
  }

  lemma SeedRulesValid()
    ensures ValidRule(SEED_RULES[0]) && ValidRule(SEED_RULES[1])
  {
    TwoLabels("example", "com");
    assert "example.com" == "example" + "." + "com";
  }

  /** The zone that seeding inserts into a database without zones. */
  function SeedZone(id: Id): map<Id, ZoneRow> {
    map[id := ZoneRow("default", true)]
  }

  /** Without zones there are no zone rules and no assignments. */
  lemma FirstZoneKeeps(s: State, id: Id)
    requires Inv(s) && s.zones == map[]
    ensures Inv(s.(zones := SeedZone(id))) && forall r :: r in s.rules ==> r.zone.None?
  {
    forall r | r in s.rules ensures r.zone.None? && RowOk(SeedZone(id), s.nextRule, r) {
      assert RowOk(s.zones, s.nextRule, r);
    }
    assert ZonesOk(SeedZone(id));
  }

  function SeedRow(next: nat, id: Id, rule: Rule): RuleRow {
    RuleRow(next, Some(id), None, rule, None, "bootstrap")
  }

  lemma SeedRowsKeep(s: State, id: Id, one: Rule, two: Rule)
    requires RulesOk(s) && id in s.zones && ValidRule(one) && ValidRule(two) && one != two
    requires forall r :: r in s.rules ==> r.zone.None?
    ensures RulesOk(s.(rules := s.rules + [SeedRow(s.nextRule, id, one), SeedRow(s.nextRule + 1, id, two)],
                       nextRule := s.nextRule + 2))
  {
    var a, b := SeedRow(s.nextRule, id, one), SeedRow(s.nextRule + 1, id, two);
    AppendKeeps(s, a);
    var s' := s.(rules := s.rules + [a], nextRule := s.nextRule + 1);
    assert !HasZoneRule(s'.rules, id, two);
    AppendKeeps(s', b);
    assert s'.rules + [b] == s.rules + [a, b];
  }

  lemma SeedingKeeps(s: State, id: Id)
    requires Inv(s) && s.zones == map[]
    ensures var a, b := SeedRow(s.nextRule, id, SEED_RULES[0]), SeedRow(s.nextRule + 1, id, SEED_RULES[1]);
            Inv(s.(zones := SeedZone(id), rules := s.rules + [a, b], nextRule := s.nextRule + 2))
  {
    SeedRulesValid();
    FirstZoneKeeps(s, id);
    SeedRowsKeep(s.(zones := SeedZone(id)), id, SEED_RULES[0], SEED_RULES[1]);
  }

  lemma SeedKeeps(s: State, now: int, id: Id)
    requires Inv(s)
    ensures Inv(Seed(s, now, id).0)
  {
    if |s.zones| == 0 {
      assert s.zones == map[];
      SeedingKeeps(s, id);
    }
  }

  lemma SeededIsReady(s: State, now: int, id: Id)
    requires Inv(s) && s.zones == map[]
    ensures Ready(Seed(s, now, id).0)
  {
    SeedKeeps(s, now, id);
    assert IsDefault(Seed(s, now, id).0.zones, id);
  }

  lemma NewZoneKeeps(s: State, id: Id, name: string)
    requires Inv(s) && ZoneNameOk(name) && id !in s.zones && !NameTaken(s.zones, name)
    ensures Inv(s.(zones := s.zones[id := ZoneRow(name, false)]))
  {
    var zones := s.zones[id := ZoneRow(name, false)];
    forall z | IsDefault(zones, z) ensures IsDefault(s.zones, z) { }
  }

  lemma RenameZoneKeeps(s: State, now: int, actor: string, id: Id, name: string)
    requires Inv(s)
    ensures Inv(RenameZone(s, now, actor, id, name).0)
  {
    var zones := RenameZone(s, now, actor, id, name).0.zones;
    forall z | IsDefault(zones, z) ensures IsDefault(s.zones, z) { }
    if zones != s.zones {
      forall z | z in zones && z != id ensures zones[z].name != name {
        assert z in s.zones - {id};
      }
    }
  }

  lemma CloneZoneKeeps(s: State, now: int, actor: string, src: Id, id: Id, name: string)
    requires Inv(s)
    ensures Inv(CloneZone(s, now, actor, src, id, name).0)
  {
    if CloneZone(s, now, actor, src, id, name).1.OkId? {
      NewZoneKeeps(s, id, name);
      var copies := ZoneCopies(s.rules, src, id, actor, s.nextRule);
      CopiesAre(s.rules, src, id, actor, s.nextRule);
      CopiesPairwise(s.rules, src, id, actor, s.nextRule);
      PairwiseConcat(s.rules, copies);
    }
  }

  lemma DeleteZoneKeeps(s: State, now: int, actor: string, id: Id)
    requires Inv(s)
    ensures Inv(DeleteZone(s, now, actor, id).0)
  {
    WithoutZonePairwise(s.rules, id);
    var zones := DeleteZone(s, now, actor, id).0.zones;
    forall z | IsDefault(zones, z) ensures IsDefault(s.zones, z) { }
  }

  lemma SetDefaultZoneKeeps(s: State, now: int, actor: string, id: Id)
    requires Inv(s)
    ensures Inv(SetDefaultZone(s, now, actor, id).0)
    ensures id in s.zones ==> forall z :: IsDefault(SetDefaultZone(s, now, actor, id).0.zones, z) <==> z == id
  {
  }

  lemma AddZoneRuleKeeps(s: State, now: int, actor: string, id: Id, rule: Rule)
    requires Inv(s)
    ensures Inv(AddZoneRule(s, now, actor, id, rule).0)
  {
    if AddZoneRule(s, now, actor, id, rule).1.Ok? {
      AppendKeeps(s, RuleRow(s.nextRule, Some(id), None, rule, None, actor));
    }
  }

  lemma AssignKeeps(s: State, now: int, actor: string, ws: Id, id: Id)
    requires Inv(s)
    ensures Inv(Assign(s, now, actor, ws, id).0)
  {
  }

  lemma CreateZoneKeeps(s: State, now: int, actor: string, id: Id, name: string)
    requires Inv(s)
    ensures Inv(CreateZone(s, now, actor, id, name).0)
  {
    if CreateZone(s, now, actor, id, name).1.OkId? { NewZoneKeeps(s, id, name); }
  }

  lemma DeleteRuleKeeps(s: State, now: int, actor: string, ruleId: nat)
    requires Inv(s)
    ensures Inv(DeleteRule(s, now, actor, ruleId).0)
  {
    var i := RowIndex(s.rules, ruleId);
    if i < |s.rules| {
      var rest := s.rules[..i] + s.rules[i + 1..];
      forall a, b | 0 <= a < b < |rest| ensures Apart(rest[a], rest[b]) {
        var a', b' := if a < i then a else a + 1, if b < i then b else b + 1;
        assert rest[a] == s.rules[a'] && rest[b] == s.rules[b'];
      }
    }
  }

  lemma DeletedRow(s: State, now: int, actor: string, ruleId: nat, row: RuleRow)
    requires Pairwise(s.rules)
    ensures row in DeleteRule(s, now, actor, ruleId).0.rules <==> row in s.rules && ruleId != row.id
  {
    var i := RowIndex(s.rules, ruleId);
    if i < |s.rules| {
      assert s.rules == s.rules[..i] + [s.rules[i]] + s.rules[i + 1..];
      forall x | x in s.rules[i + 1..] ensures x.id != ruleId {
        var j :| i < j < |s.rules| && s.rules[j] == x;
        assert Apart(s.rules[i], s.rules[j]);
      }
    }
  }

  lemma GrantKeeps(s: State, now: int, actor: string, ws: Id, rule: Rule, ttl: int)
    requires Inv(s)
    ensures Inv(Grant(s, now, actor, ws, rule, ttl).0)
  {
    if ValidRule(rule) {
      AppendKeeps(s, GrantRow(s, now, actor, ws, rule, ttl));
    }
  }

  lemma ExpireGrantsKeeps(s: State, now: int)
    requires Inv(s)
    ensures Inv(ExpireGrants(s, now).0)
  {
    WithoutExpiredPairwise(s.rules, now);
  }

  lemma FileRequestKeeps(s: State, now: int, actor: string, id: Id, ws: Id, host: string, port: int, just: string)
    requires Inv(s)
    ensures Inv(FileRequest(s, now, actor, id, ws, host, port, just).0)
  {
    var s' := FileRequest(s, now, actor, id, ws, host, port, just).0;
    if s' != s {
      forall q, p | q in s'.requests && p in s'.requests && SamePending(s'.requests[q], s'.requests[p]) ensures q == p {
        if q == id && p != id { assert PendingAs(s, p, ws, host, port); }
        if p == id && q != id { assert PendingAs(s, q, ws, host, port); }
      }
    }
  }

  lemma DecidedKeeps(requests: map<Id, RequestRow>, id: Id, q: RequestRow)
    requires RequestsOk(requests) && id in requests && RequestOk(q) && q.status != Pending
    ensures RequestsOk(requests[id := q])
  {
  }

  lemma DecideKeeps(s: State, now: int, actor: string, id: Id, approve: bool, ttl: int)
    requires Inv(s)
    ensures Inv(Decide(s, now, actor, id, approve, ttl).0)
  {
    var r := Decide(s, now, actor, id, approve, ttl);
    if r.1.Ok? {
      var q := s.requests[id];
      DecidedKeeps(s.requests, id, r.0.requests[id]);
      if approve {
        AppendKeeps(s, GrantRow(s, now, actor, q.workspace, HostRule(q.host, q.port), ttl));
      }
    }
  }

  lemma ZoneStepKeeps(s: State, op: Op, now: int)
    requires Inv(s) && OnZones(op)
    ensures Inv(Step(s, op, now).0)
  {
    match op
    case OpSeed(id) => SeedKeeps(s, now, id);
    case OpCreateZone(actor, id, name) => CreateZoneKeeps(s, now, actor, id, name);
    case OpCloneZone(actor, src, id, name) => CloneZoneKeeps(s, now, actor, src, id, name);
    case OpRenameZone(actor, id, name) => RenameZoneKeeps(s, now, actor, id, name);
    case OpDeleteZone(actor, id) => DeleteZoneKeeps(s, now, actor, id);
    case OpSetDefaultZone(actor, id) => SetDefaultZoneKeeps(s, now, actor, id);
  }

  lemma RowStepKeeps(s: State, op: Op, now: int)
    requires Inv(s) && !OnZones(op)
    ensures Inv(Step(s, op, now).0)
  {
    match op
    case OpAddZoneRule(actor, id, rule) => AddZoneRuleKeeps(s, now, actor, id, rule);
    case OpDeleteRule(actor, ruleId) => DeleteRuleKeeps(s, now, actor, ruleId);
    case OpAssign(actor, ws, id) => AssignKeeps(s, now, actor, ws, id);
    case OpGrant(actor, ws, rule, ttl) => GrantKeeps(s, now, actor, ws, rule, ttl);
    case OpExpireGrants => ExpireGrantsKeeps(s, now);
    case OpFileRequest(actor, id, ws, host, port, just) => FileRequestKeeps(s, now, actor, id, ws, host, port, just);
    case OpDecide(actor, id, approve, ttl) => DecideKeeps(s, now, actor, id, approve, ttl);
    case OpAuditSystem(action) =>
  }

  /** The invariant is kept by every transaction, whatever its arguments. */
  lemma StepKeeps(s: State, op: Op, now: int)
    requires Inv(s)
    ensures Inv(Step(s, op, now).0)
  {
    if OnZones(op) { ZoneStepKeeps(s, op, now); } else { RowStepKeeps(s, op, now); }
  }

  predicate NamesDefault(s: State, op: Op) {
    op.OpSetDefaultZone? && op.id in s.zones
  }

  lemma DefaultStays(s: State, op: Op, now: int, z: Id)
    requires IsDefault(s.zones, z) && !NamesDefault(s, op)
    ensures IsDefault(Step(s, op, now).0.zones, z)
  {
  }

  /** A default zone, once there, is never lost. */
  lemma StepKeepsReady(s: State, op: Op, now: int)
    requires Ready(s)
    ensures Ready(Step(s, op, now).0)
  {
    StepKeeps(s, op, now);
    var s' := Step(s, op, now).0;
    if NamesDefault(s, op) {
      SetDefaultZoneKeeps(s, now, op.actor, op.id);
      assert IsDefault(s'.zones, op.id);
    } else {
      var z :| IsDefault(s.zones, z);
      DefaultStays(s, op, now, z);
      assert IsDefault(s'.zones, z);
    }
  }

  /** Every state reachable from the empty database satisfies the invariant. */
  lemma {:induction false} RunKeeps(run: seq<Tx>)
    ensures Inv(After(EMPTY, run))
  {
    if run != [] {
      RunKeeps(run[..|run| - 1]);
      StepKeeps(After(EMPTY, run[..|run| - 1]), run[|run| - 1].op, run[|run| - 1].at);
    }
  }

  /** After Seed on an empty database, every run has exactly one default zone, always. */
  lemma {:induction false} SeededRunIsReady(id: Id, at: int, run: seq<Tx>)
    ensures Ready(After(Seed(EMPTY, at, id).0, run))
  {
    if run == [] {
      SeededIsReady(EMPTY, at, id);
    } else {
      SeededRunIsReady(id, at, run[..|run| - 1]);
      StepKeepsReady(After(Seed(EMPTY, at, id).0, run[..|run| - 1]), run[|run| - 1].op, run[|run| - 1].at);
    }
  }
}
