/** What each transaction is for: exactly when it succeeds, and what it does to the zone and the
    effective rules of every workspace at every time. */
module Effects {
  import opened Text
  import opened Names
  import opened Policy
  import opened Store
  import opened StoreInvariant
  import opened Loading

  /** The rule is effective for the workspace in a load at that time. */
  ghost predicate Holds(s: State, at: int, pods: seq<Workspace>, w: Id, kind: string, x: Rule) {
    x in Effective(PolicyInput(s, at, pods), w, kind)
  }

  /** Nobody's zone and nobody's effective rules differ, at any time. */
  ghost predicate SameForAll(s: State, s': State) {
    forall at, pods, w ::
      && ZoneOf(PolicyInput(s', at, pods), w) == ZoneOf(PolicyInput(s, at, pods), w)
      && forall kind, x :: Holds(s', at, pods, w, kind, x) <==> Holds(s, at, pods, w, kind, x)
  }

  /** The form of a rule, spelled out: kind, port and name. */
  predicate RuleForm(r: Rule) {
    && ((r.kind == "host" && (r.port == 443 || r.port == 80)) || (r.kind == "dns" && r.port == 0))
    && IsPattern(r.value)
  }

  lemma RuleFormIsValid(r: Rule)
    ensures ValidRule(r) <==> RuleForm(r)
  {
    ValidNameIsPattern(r.value);
  }

  lemma ZoneForIs(s: State, at: int, pods: seq<Workspace>, w: Id)
    ensures ZoneOf(PolicyInput(s, at, pods), w) == ZoneFor(s, w)
  {
  }

  /** Equal zones and equal counting rows make equal effective rules. */
  lemma SameRows(s: State, s': State)
    requires Inv(s) && Inv(s') && forall w :: ZoneFor(s', w) == ZoneFor(s, w)
    requires forall at, w, r :: CountsFor(s', at, w, r) <==> CountsFor(s, at, w, r)
    ensures SameForAll(s, s')
  {
    forall at, pods, w
      ensures ZoneOf(PolicyInput(s', at, pods), w) == ZoneOf(PolicyInput(s, at, pods), w)
      ensures forall kind, x :: Holds(s', at, pods, w, kind, x) <==> Holds(s, at, pods, w, kind, x)
    {
      ZoneForIs(s, at, pods, w);
      ZoneForIs(s', at, pods, w);
      forall kind, x ensures Holds(s', at, pods, w, kind, x) <==> Holds(s, at, pods, w, kind, x) {
        EffectiveRows(s, at, pods, w, kind, x);
        EffectiveRows(s', at, pods, w, kind, x);
      }
    }
  }

  /** Equal tables give everybody the same. */
  lemma SameTablesSameForAll(s: State, s': State)
    requires SameTables(s, s')
    ensures SameForAll(s, s')
  {
    forall at, pods, w
      ensures ZoneOf(PolicyInput(s', at, pods), w) == ZoneOf(PolicyInput(s, at, pods), w)
      ensures forall kind, x :: Holds(s', at, pods, w, kind, x) <==> Holds(s, at, pods, w, kind, x)
    {
      InputDependsOnTables(s, s', at, pods);
    }
  }

  // ---- Zones ---------------------------------------------------------------

  /** Some zone, other than the exception, has this name. */
  ghost predicate NamedElsewhere(s: State, except: Option<Id>, name: string) {
    exists z :: z in s.zones && except != Some(z) && s.zones[z].name == name
  }

  /** A zone name, spelled out: a letter or digit, then up to 40 of these and hyphens. */
  predicate ZoneNameForm(name: string) {
    Matches(Cat(One(LetterDigit), Repeat(LetterDigitHyphen, 0, 40)), name)
  }

  lemma {:induction false} ZoneNameIs(name: string)
    ensures ZoneNameOk(name) <==> ZoneNameForm(name)
  {
    if ZoneNameForm(name) {
      var i :| && 0 <= i <= |name| && Matches(One(LetterDigit), name[..i])
               && Matches(Repeat(LetterDigitHyphen, 0, 40), name[i..]);
      OneIs(LetterDigit, name[..i]);
      assert name == name[..i] + name[i..];
    }
    if ZoneNameOk(name) {
      OneIs(LetterDigit, name[..1]);
      assert name[0] in name;
      forall c | c in name[1..] ensures InClass(LetterDigitHyphen, c) { assert c in name; }
      assert Matches(Repeat(LetterDigitHyphen, 0, 40), name[1..]);
    }
  }

  lemma CreateZoneEffect(s: State, now: int, actor: string, id: Id, name: string)
    requires Inv(s)
    ensures var (s', r) := CreateZone(s, now, actor, id, name);
            && (r == OkId(id) <==> ZoneNameForm(name) && id !in s.zones && !NamedElsewhere(s, None, name))
            && (r != OkId(id) ==> r == Err(if ZoneNameForm(name) then Conflict else Invalid))
            && (r == OkId(id) ==>
                s'.zones == s.zones[id := ZoneRow(name, false)] && s'.rules == s.rules && SameForAll(s, s'))
  {
    ZoneNameIs(name);
    var (s', r) := CreateZone(s, now, actor, id, name);
    if r == OkId(id) {
      CreateZoneKeeps(s, now, actor, id, name);
      assert forall z :: IsDefault(s'.zones, z) <==> IsDefault(s.zones, z);
      SameRows(s, s');
    }
  }

  lemma RenameZoneEffect(s: State, now: int, actor: string, id: Id, name: string)
    requires Inv(s)
    ensures var (s', r) := RenameZone(s, now, actor, id, name);
            && (r == Reply.Ok <==> id in s.zones && ZoneNameForm(name) && !NamedElsewhere(s, Some(id), name))
            && (r == Reply.Ok ==> s'.zones == s.zones[id := ZoneRow(name, s.zones[id].isDefault)] && SameForAll(s, s'))
  {
    ZoneNameIs(name);
    var (s', r) := RenameZone(s, now, actor, id, name);
    if NameTaken(s.zones - {id}, name) {
      var z :| z in s.zones - {id} && (s.zones - {id})[z].name == name;
      assert z in s.zones && s.zones[z].name == name;
    }
    if z :| z in s.zones && z != id && s.zones[z].name == name { assert z in s.zones - {id}; }
    if r == Reply.Ok {
      RenameZoneKeeps(s, now, actor, id, name);
      assert forall z :: IsDefault(s'.zones, z) <==> IsDefault(s.zones, z);
      SameRows(s, s');
    }
  }

  /** The clone has the rules of its source and changes nothing for anybody. */
  lemma CloneZoneEffect(s: State, now: int, actor: string, src: Id, id: Id, name: string)
    requires Ready(s)
    ensures var (s', r) := CloneZone(s, now, actor, src, id, name);
            && (r == OkId(id) <==>
                src in s.zones && ZoneNameForm(name) && id !in s.zones && !NamedElsewhere(s, None, name))
            && (r == OkId(id) ==>
                && s'.zones == s.zones[id := ZoneRow(name, false)] && SameForAll(s, s')
                && forall x :: HasZoneRule(s'.rules, id, x) <==> HasZoneRule(s.rules, src, x))
  {
    ZoneNameIs(name);
    var (s', r) := CloneZone(s, now, actor, src, id, name);
    if r == OkId(id) {
      CloneZoneKeeps(s, now, actor, src, id, name);
      assert forall z :: IsDefault(s'.zones, z) <==> IsDefault(s.zones, z);
      ClonedRows(s, s', actor, src, id);
      SameRows(s, s');
    }
  }

  lemma {:induction false} ClonedRows(s: State, s': State, actor: string, src: Id, id: Id)
    requires Ready(s) && src in s.zones && id !in s.zones && s'.assigns == s.assigns
    requires s'.rules == s.rules + ZoneCopies(s.rules, src, id, actor, s.nextRule)
    requires forall z :: IsDefault(s'.zones, z) <==> IsDefault(s.zones, z)
    ensures forall w :: ZoneFor(s', w) == ZoneFor(s, w) && ZoneFor(s, w) != id
    ensures forall at, w, r :: CountsFor(s', at, w, r) <==> CountsFor(s, at, w, r)
    ensures forall x :: HasZoneRule(s'.rules, id, x) <==> HasZoneRule(s.rules, src, x)
  {
    var copies := ZoneCopies(s.rules, src, id, actor, s.nextRule);
    CopiesAre(s.rules, src, id, actor, s.nextRule);
    forall r | r in s.rules ensures r.zone != Some(id) { assert RowOk(s.zones, s.nextRule, r); }
    forall x ensures HasZoneRule(s'.rules, id, x) <==> HasZoneRule(s.rules, src, x) {
      if HasZoneRule(s.rules, src, x) {
        var c :| c in copies && c.zone == Some(id) && c.rule == x;
        assert c in s'.rules;
      }
      if HasZoneRule(s'.rules, id, x) {
        var c :| c in s'.rules && c.zone == Some(id) && c.rule == x;
        assert c in copies;
      }
    }
  }

  /** Deleting a zone succeeds only where nobody can notice. */
  lemma DeleteZoneEffect(s: State, now: int, actor: string, id: Id)
    requires Ready(s)
    ensures var (s', r) := DeleteZone(s, now, actor, id);
            && (r == Reply.Ok <==>
                id in s.zones && !s.zones[id].isDefault && forall w :: w in s.assigns ==> s.assigns[w] != id)
            && (r == Reply.Ok ==>
                s'.zones == s.zones - {id} && (forall x :: !HasZoneRule(s'.rules, id, x)) && SameForAll(s, s'))
            && (r != Reply.Ok ==> r == Err(if id in s.zones then Conflict else NotFound))
  {
    var (s', r) := DeleteZone(s, now, actor, id);
    if r == Reply.Ok {
      DeleteZoneKeeps(s, now, actor, id);
      assert forall z :: IsDefault(s'.zones, z) <==> IsDefault(s.zones, z);
      SameRows(s, s');
    }
  }

  lemma AssignEffect(s: State, now: int, actor: string, ws: Id, zone: Id)
    requires Inv(s)
    ensures var (s', r) := Assign(s, now, actor, ws, zone);
            && (r == Reply.Ok <==> zone in s.zones) && (r != Reply.Ok ==> r == Err(NotFound))
            && (r == Reply.Ok ==> s'.rules == s.rules && s'.zones == s.zones && forall at, pods, w ::
                  ZoneOf(PolicyInput(s', at, pods), w) == if w == ws then zone else ZoneOf(PolicyInput(s, at, pods), w))
  {
    var (s', r) := Assign(s, now, actor, ws, zone);
    if r == Reply.Ok && s.zones[zone].isDefault { assert IsDefault(s.zones, zone); }
  }

  /** A new default zone takes in exactly the workspaces without an explicit row. */
  lemma SetDefaultZoneEffect(s: State, now: int, actor: string, id: Id, at: int, pods: seq<Workspace>, w: Id)
    requires Ready(s)
    ensures var (s', r) := SetDefaultZone(s, now, actor, id);
            && r == (if id in s.zones then Reply.Ok else Err(NotFound)) && s'.rules == s.rules
            && (id in s.zones ==> ZoneOf(PolicyInput(s', at, pods), w) ==
                                  if w in s.assigns then ZoneOf(PolicyInput(s, at, pods), w) else id)
  {
    if id in s.zones { SetDefaultMovesTheRest(s, now, actor, id, at, pods, w); }
  }

  // ---- Rules and grants ----------------------------------------------------

  lemma AddZoneRuleSucceeds(s: State, now: int, actor: string, zone: Id, rule: Rule)
    ensures AddZoneRule(s, now, actor, zone, rule).1 == Reply.Ok <==>
            RuleForm(rule) && zone in s.zones && !exists r :: r in s.rules && r.zone == Some(zone) && r.rule == rule
    ensures AddZoneRule(s, now, actor, zone, rule).1 != Reply.Ok ==>
            AddZoneRule(s, now, actor, zone, rule).1 == Err(if RuleForm(rule) then Conflict else Invalid)
  {
    RuleFormIsValid(rule);
  }

  /** A rule added to a zone becomes effective for exactly the workspaces in that zone. */
  lemma AddZoneRuleEffect(s: State, now: int, actor: string, zone: Id, rule: Rule,
                          at: int, pods: seq<Workspace>, w: Id, kind: string, x: Rule)
    requires Inv(s) && AddZoneRule(s, now, actor, zone, rule).1 == Reply.Ok
    ensures var s' := AddZoneRule(s, now, actor, zone, rule).0;
            Holds(s', at, pods, w, kind, x) <==>
            || Holds(s, at, pods, w, kind, x)
            || (ZoneOf(PolicyInput(s, at, pods), w) == zone && x == rule && x.kind == kind)
  {
    var s' := AddZoneRule(s, now, actor, zone, rule).0;
    AddZoneRuleKeeps(s, now, actor, zone, rule);
    var row := s'.rules[|s.rules|];
    OneMoreRow(s, s', row, at, pods, w, kind, x);
    ZoneForIs(s, at, pods, w);
  }

  lemma OneMoreRow(s: State, s': State, row: RuleRow, at: int, pods: seq<Workspace>, w: Id, kind: string, x: Rule)
    requires Inv(s) && Inv(s') && s'.zones == s.zones && s'.assigns == s.assigns && s'.rules == s.rules + [row]
    ensures Holds(s', at, pods, w, kind, x) <==>
            || Holds(s, at, pods, w, kind, x)
            || (&& x == row.rule && x.kind == kind && IsLive(row, at)
                && (OfWorkspace(row, w) || OfZone(row, ZoneFor(s, w))))
  {
    EffectiveRows(s, at, pods, w, kind, x);
    EffectiveRows(s', at, pods, w, kind, x);
    assert row in s'.rules;
    forall r ensures r in s'.rules <==> r in s.rules || r == row { }
    forall r ensures CountsFor(s', at, w, r) <==> CountsFor(s, at, w, r) || (r == row && CountsFor(s', at, w, row)) { }
  }

  lemma GrantSucceeds(s: State, now: int, actor: string, ws: Id, rule: Rule, ttl: int)
    ensures Grant(s, now, actor, ws, rule, ttl).1 == if RuleForm(rule) && ttl > 0 then Reply.Ok else Err(Invalid)
  {
    RuleFormIsValid(rule);
  }

  /** A grant makes the rule effective for that workspace alone, until its time has passed. */
  lemma GrantEffect(s: State, now: int, actor: string, ws: Id, rule: Rule, ttl: int,
                    at: int, pods: seq<Workspace>, w: Id, kind: string, x: Rule)
    requires Inv(s) && RuleForm(rule) && ttl > 0
    ensures var s' := Grant(s, now, actor, ws, rule, ttl).0;
            Holds(s', at, pods, w, kind, x) <==>
            Holds(s, at, pods, w, kind, x) || (w == ws && x == rule && x.kind == kind && at < now + ttl)
  {
    GrantSucceeds(s, now, actor, ws, rule, ttl);
    GrantKeeps(s, now, actor, ws, rule, ttl);
    var s' := Grant(s, now, actor, ws, rule, ttl).0;
    OneMoreRow(s, s', s'.rules[|s.rules|], at, pods, w, kind, x);
  }

  /** Deleting a rule takes away what only that row gave. */
  lemma DeleteRuleEffect(s: State, now: int, actor: string, ruleId: nat,
                         at: int, pods: seq<Workspace>, w: Id, kind: string, x: Rule)
    requires Inv(s)
    ensures var (s', r) := DeleteRule(s, now, actor, ruleId);
            && (r == Reply.Ok <==> exists row :: row in s.rules && row.id == ruleId)
            && (r != Reply.Ok ==> r == Err(NotFound))
            && (Holds(s', at, pods, w, kind, x) <==>
                x.kind == kind && exists row :: CountsFor(s, at, w, row) && row.id != ruleId && row.rule == x)
  {
    var (s', r) := DeleteRule(s, now, actor, ruleId);
    DeleteRuleKeeps(s, now, actor, ruleId);
    forall row ensures row in s'.rules <==> row in s.rules && row.id != ruleId {
      DeletedRow(s, now, actor, ruleId, row);
    }
    EffectiveRows(s', at, pods, w, kind, x);
    forall row ensures CountsFor(s', at, w, row) <==> CountsFor(s, at, w, row) && row.id != ruleId { }
    if row :| row in s.rules && row.id == ruleId {
      var i :| 0 <= i < |s.rules| && s.rules[i] == row;
    }
  }

  /** The expiry reports how many grants it deleted. */
  lemma {:induction false} ExpiryCount(rules: seq<RuleRow>, now: int)
    ensures |WithoutExpired(rules, now)| + |ExpiredRows(rules, now)| == |rules|
  {
    if rules != [] { ExpiryCount(rules[..|rules| - 1], now); }
  }

  lemma ExpireGrantsEffect(s: State, now: int)
    ensures var (s', r) := ExpireGrants(s, now);
            && r.OkCount? && |s'.rules| + r.n == |s.rules|
            && (forall row :: row in s'.rules <==>
                  row in s.rules && !(row.workspace.Some? && row.expires.Some? && row.expires.value <= now))
  {
    ExpiryCount(s.rules, now);
  }

  lemma NoZoneRows(s: State, r: RuleRow)
    requires Inv(s) && s.zones == map[]
    ensures s.assigns == map[] && (r in s.rules ==> r.zone.None?)
  {
    if r in s.rules { assert RowOk(s.zones, s.nextRule, r); }
    assert forall w :: w !in s.assigns;
  }

  /** Which rows count once there is a first zone with two rules. */
  lemma FirstZoneCounts(s: State, s': State, id: Id, a: RuleRow, b: RuleRow, at: int, w: Id, r: RuleRow)
    requires Inv(s) && s.zones == map[] && s'.zones == SeedZone(id) && s'.assigns == s.assigns
    requires s'.rules == s.rules + [a, b] && a.zone == b.zone == Some(id) && a.expires.None? && b.expires.None?
    ensures ZoneFor(s', w) == id
    ensures CountsFor(s', at, w, r) <==> CountsFor(s, at, w, r) || r == a || r == b
  {
    NoZoneRows(s, r);
    assert IsDefault(s'.zones, id);
    assert r in s'.rules <==> r in s.rules || r == a || r == b;
  }

  lemma SeedIs(s: State, now: int, id: Id)
    requires s.zones == map[]
    ensures var (s', r) := Seed(s, now, id);
            var a, b := SeedRow(s.nextRule, id, SEED_RULES[0]), SeedRow(s.nextRule + 1, id, SEED_RULES[1]);
            r == Reply.Ok && s'.zones == SeedZone(id) && s'.assigns == s.assigns && s'.rules == s.rules + [a, b]
  {
  }

  /** Some row that counts for the workspace at that time carries the rule. */
  ghost predicate Counted(s: State, at: int, w: Id, kind: string, x: Rule) {
    x.kind == kind && exists r :: CountsFor(s, at, w, r) && r.rule == x
  }

  lemma CountedIsEffective(s: State, at: int, pods: seq<Workspace>, w: Id, kind: string, x: Rule)
    requires Inv(s)
    ensures Counted(s, at, w, kind, x) <==> Holds(s, at, pods, w, kind, x)
  {
    EffectiveRows(s, at, pods, w, kind, x);
  }

  lemma FirstZoneCounted(s: State, s': State, id: Id, a: RuleRow, b: RuleRow, at: int, w: Id, kind: string, x: Rule)
    requires Inv(s) && s.zones == map[] && s'.zones == SeedZone(id) && s'.assigns == s.assigns
    requires s'.rules == s.rules + [a, b] && a.zone == b.zone == Some(id) && a.expires.None? && b.expires.None?
    ensures ZoneFor(s', w) == id
    ensures Counted(s', at, w, kind, x) <==>
            Counted(s, at, w, kind, x) || ((x == a.rule || x == b.rule) && x.kind == kind)
  {
    forall r
      ensures ZoneFor(s', w) == id && (CountsFor(s', at, w, r) <==> CountsFor(s, at, w, r) || r == a || r == b)
    {
      FirstZoneCounts(s, s', id, a, b, at, w, r);
    }
    assert CountsFor(s', at, w, a) && CountsFor(s', at, w, b);
  }

  lemma SeedRulesAre(kind: string, x: Rule)
    ensures (x == SEED_RULES[0] || x == SEED_RULES[1]) && x.kind == kind <==>
            kind == "host" && (x == Rule("host", "example.com", 443) || x == Rule("host", "example.com", 80))
  {
  }

  /** Seeding gives an empty database one zone for everybody, with these two rules. */
  lemma SeedEffect(s: State, now: int, id: Id, at: int, w: Id, kind: string, x: Rule)
    requires Inv(s) && s.zones == map[]
    ensures var (s', r) := Seed(s, now, id);
            && r == Reply.Ok && ZoneFor(s', w) == id
            && (Counted(s', at, w, kind, x) <==>
                || Counted(s, at, w, kind, x)
                || (kind == "host" && (x == Rule("host", "example.com", 443) || x == Rule("host", "example.com", 80))))
  {
    SeedIs(s, now, id);
    SeedRulesAre(kind, x);
    var a, b := SeedRow(s.nextRule, id, SEED_RULES[0]), SeedRow(s.nextRule + 1, id, SEED_RULES[1]);
    FirstZoneCounted(s, Seed(s, now, id).0, id, a, b, at, w, kind, x);
  }

  /** Seeding a database that has zones does nothing. */
  lemma SeedOnce(s: State, now: int, id: Id)
    requires s.zones != map[]
    ensures Seed(s, now, id) == (s, Reply.Ok)
  {
    assert s.zones.Keys != {};
  }

  // ---- Requests ------------------------------------------------------------

  /** A request for this very destination is waiting. */
  ghost predicate Waiting(s: State, id: Id, ws: Id, host: string, port: int) {
    && id in s.requests && s.requests[id].workspace == ws && s.requests[id].host == host
    && s.requests[id].port == port && s.requests[id].status == Pending
  }

  /** Filing succeeds exactly when the destination is a valid name on port 80 or 443, and it is
      waiting already or the justification is in bounds and the id is new. */
  lemma FilingSucceeds(s: State, now: int, actor: string, id: Id, ws: Id, host: string, port: int, just: string)
    ensures FileRequest(s, now, actor, id, ws, host, port, just).1.OkId? <==>
            && IsPattern(host) && (port == 80 || port == 443)
            && ((exists q :: Waiting(s, q, ws, host, port)) || (1 <= |just| <= 2000 && id !in s.requests))
  {
    RuleFormIsValid(HostRule(host, port));
    if q :| Waiting(s, q, ws, host, port) { assert PendingAs(s, q, ws, host, port); }
    if q :| PendingAs(s, q, ws, host, port) { assert Waiting(s, q, ws, host, port); }
  }

  /** The id it replies with is that of a waiting request for the destination: one that was
      waiting before, or a new one with the requester's words. Nothing else is touched. */
  lemma FilingEffect(s: State, now: int, actor: string, id: Id, ws: Id, host: string, port: int, just: string)
    requires FileRequest(s, now, actor, id, ws, host, port, just).1.OkId?
    ensures var (s', r) := FileRequest(s, now, actor, id, ws, host, port, just);
            && Waiting(s', r.id, ws, host, port) && SameForAll(s, s')
            && (if exists q :: Waiting(s, q, ws, host, port) then s' == s
                else r.id == id && s'.requests.Keys == s.requests.Keys + {id}
                     && s'.requests[id].requester == actor && s'.requests[id].justification == just
                     && s'.requests[id].decidedBy.None? && s'.requests[id].decidedAt.None? && s'.requests[id].ttl.None?
                     && forall q :: q in s.requests ==> s'.requests[q] == s.requests[q])
  {
    var (s', r) := FileRequest(s, now, actor, id, ws, host, port, just);
    if q :| Waiting(s, q, ws, host, port) { assert PendingAs(s, q, ws, host, port); }
    if q :| PendingAs(s, q, ws, host, port) { assert Waiting(s, q, ws, host, port); }
    SameTablesSameForAll(s, s');
  }

  /** What a decision writes into the request, and nothing into any other. */
  lemma DecisionEffect(s: State, now: int, actor: string, id: Id, approve: bool, ttl: int)
    requires Decide(s, now, actor, id, approve, ttl).1 == Reply.Ok
    ensures var q, s' := s.requests[id], Decide(s, now, actor, id, approve, ttl).0;
            && s'.requests.Keys == s.requests.Keys &&
               (forall p :: p in s.requests && p != id ==> s'.requests[p] == s.requests[p])
            && s'.requests[id].status == (if approve then Approved else Denied)
            && s'.requests[id].decidedBy == Some(actor) && s'.requests[id].decidedAt == Some(now)
            && s'.requests[id].ttl == (if approve then Some(ttl) else None)
            && Waiting(s, id, s'.requests[id].workspace, s'.requests[id].host, s'.requests[id].port)
            && s'.requests[id].requester == q.requester && s'.requests[id].justification == q.justification
  {
  }

  /** Approving a waiting request makes its host and port effective for its workspace alone, until
      the time granted has passed. */
  lemma ApprovalEffect(s: State, now: int, actor: string, id: Id, ttl: int,
                       at: int, pods: seq<Workspace>, w: Id, kind: string, x: Rule)
    requires Inv(s) && id in s.requests && s.requests[id].status == Pending && ttl > 0
    ensures var q, (s', r) := s.requests[id], Decide(s, now, actor, id, true, ttl);
            && r == Reply.Ok
            && (Holds(s', at, pods, w, kind, x) <==>
                || Holds(s, at, pods, w, kind, x)
                || (w == q.workspace && kind == "host" && x == Rule("host", q.host, q.port) && at < now + ttl))
  {
    assert RequestOk(s.requests[id]);
    DecideKeeps(s, now, actor, id, true, ttl);
    var s' := Decide(s, now, actor, id, true, ttl).0;
    OneMoreRow(s, s', s'.rules[|s.rules|], at, pods, w, kind, x);
  }

  /** Denying a request, and a note in the log, change nothing for anybody. */
  lemma NoEffect(s: State, now: int, actor: string, id: Id, ttl: int, action: string)
    ensures SameForAll(s, Decide(s, now, actor, id, false, ttl).0)
    ensures SameForAll(s, AuditSystem(s, now, action).0)
  {
    SameTablesSameForAll(s, Decide(s, now, actor, id, false, ttl).0);
    SameTablesSameForAll(s, AuditSystem(s, now, action).0);
  }

  // ---- Signatures ----------------------------------------------------------

  /** Every new rule row names the actor of its transaction as its creator. */
  lemma NewRulesAreSigned(s: State, op: Op, now: int, r: RuleRow)
    requires r in Step(s, op, now).0.rules && r !in s.rules
    ensures r.createdBy == Actor(op)
  {
    if op.OpCloneZone? { CopiesAreSigned(s.rules, op.src, op.id, op.actor, s.nextRule); }
  }

  lemma {:induction false} CopiesAreSigned(rules: seq<RuleRow>, from: Id, to: Id, actor: string, next: nat)
    ensures forall c :: c in ZoneCopies(rules, from, to, actor, next) ==> c.createdBy == actor
  {
    if rules != [] { CopiesAreSigned(rules[..|rules| - 1], from, to, actor, next); }
  }
}
