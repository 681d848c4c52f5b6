/** The schema: the constraints Postgres holds every statement to, as conditions on whole
    tables, and when each kind of write violates them. */
module Schema {
  import opened Text
  import opened Store
  import opened StoreInvariant

  predicate RuleCheck(r: RuleRow) {
    && ((r.rule.kind == "host" && (r.rule.port == 80 || r.rule.port == 443)) ||
        (r.rule.kind == "dns" && r.rule.port == 0))
    && r.zone.None? != r.workspace.None?
    && (r.workspace.None? || r.expires.Some?)
  }

  predicate RequestCheck(q: RequestRow) {
    (q.port == 80 || q.port == 443) && 1 <= |q.justification| <= 2000
  }

  /** The CHECK clauses. */
  predicate Checks(s: State) {
    && (forall z :: z in s.zones ==> ZoneNameOk(s.zones[z].name))
    && (forall r :: r in s.rules ==> RuleCheck(r))
    && (forall q :: q in s.requests ==> RequestCheck(s.requests[q]))
  }

  /** The UNIQUE constraint on names and the unique index on the default flag. */
  predicate ZonesUnique(zones: map<Id, ZoneRow>) {
    forall z, y :: z in zones && y in zones && z != y ==>
      zones[z].name != zones[y].name && !(zones[z].isDefault && zones[y].isDefault)
  }

  predicate RefersTo(zones: map<Id, ZoneRow>, r: RuleRow) {
    r.zone.Some? ==> r.zone.value in zones
  }

  /** The foreign keys into zones. */
  predicate References(s: State) {
    (forall r :: r in s.rules ==> RefersTo(s.zones, r)) && (forall w :: w in s.assigns ==> s.assigns[w] in s.zones)
  }

  datatype Outcome = Done | Raised(error: Error) {
    predicate IsFailure() {
      Raised?
    }

    function PropagateFailure(): Reply
      requires IsFailure()
    {
      Err(error)
    }
  }

  /** What a statement raises that leaves these tables behind. `duplicate` says that it
      inserted under an id that was taken, which a map cannot show. */
  function Verdict(s: State, duplicate: bool): Outcome {
    if !Checks(s) then Raised(Invalid)
    else if duplicate || !ZonesUnique(s.zones) || !Pairwise(s.rules) || !References(s) then Raised(Conflict)
    else Done
  }

  predicate Meets(s: State) {
    Verdict(s, false).Done?
  }

  // ---- When a write violates the schema ------------------------------------

  lemma InvMeets(s: State)
    requires Inv(s)
    ensures Meets(s)
  {
    forall r | r in s.rules ensures RuleCheck(r) && RefersTo(s.zones, r) { assert RowOk(s.zones, s.nextRule, r); }
    forall z, y | z in s.zones && y in s.zones && z != y ensures !(s.zones[z].isDefault && s.zones[y].isDefault) {
      if s.zones[z].isDefault && s.zones[y].isDefault { assert IsDefault(s.zones, z) && IsDefault(s.zones, y); }
    }
  }

  /** One zone row written, new or over an old one, without becoming a second default. */
  lemma ZoneWritten(s: State, id: Id, row: ZoneRow, duplicate: bool)
    requires Meets(s) && (row.isDefault ==> forall z :: z in s.zones && z != id ==> !s.zones[z].isDefault)
    ensures Verdict(s.(zones := s.zones[id := row]), duplicate) ==
            if !ZoneNameOk(row.name) then Raised(Invalid)
            else if duplicate || NameTaken(s.zones - {id}, row.name) then Raised(Conflict)
            else Done
  {
    var s' := s.(zones := s.zones[id := row]);
    assert s'.zones[id] == row;
    forall r | r in s.rules ensures RefersTo(s'.zones, r) { assert RefersTo(s.zones, r); }
    assert References(s');
    if NameTaken(s.zones - {id}, row.name) {
      var z :| z in s.zones - {id} && s.zones[z].name == row.name;
      assert s'.zones[z].name == s'.zones[id].name;
    } else {
      forall z | z in s.zones && z != id ensures s.zones[z].name != row.name { assert z in s.zones - {id}; }
      assert ZonesUnique(s'.zones);
    }
  }

  lemma RuleAppended(s: State, r: RuleRow)
    requires Meets(s) && RuleCheck(r) && forall x :: x in s.rules ==> x.id != r.id
    ensures Verdict(s.(rules := s.rules + [r], nextRule := s.nextRule + 1), false) ==
            if r.zone.Some? && (r.zone.value !in s.zones || HasZoneRule(s.rules, r.zone.value, r.rule))
            then Raised(Conflict)
            else Done
  {
    var s' := s.(rules := s.rules + [r], nextRule := s.nextRule + 1);
    assert r in s'.rules && forall x :: x in s.rules ==> x in s'.rules;
    PairwiseSnoc(s.rules, r);
    if r.zone.Some? && HasZoneRule(s.rules, r.zone.value, r.rule) {
      var x :| x in s.rules && x.zone == Some(r.zone.value) && x.rule == r.rule;
      assert !Apart(x, r);
    }
    if r.zone.Some? && r.zone.value !in s.zones { assert !RefersTo(s'.zones, r); }
  }

  lemma ZoneInserted(s: State, id: Id, name: string)
    requires Inv(s)
    ensures Verdict(s.(zones := s.zones[id := ZoneRow(name, false)]), id in s.zones) ==
            if !ZoneNameOk(name) then Raised(Invalid)
            else if id in s.zones || NameTaken(s.zones, name) then Raised(Conflict)
            else Done
  {
    InvMeets(s);
    ZoneWritten(s, id, ZoneRow(name, false), id in s.zones);
    if id !in s.zones { assert s.zones - {id} == s.zones; }
  }

  lemma RowInserted(s: State, r: RuleRow)
    requires Inv(s) && RuleCheck(r) && r.id == s.nextRule
    ensures Verdict(s.(rules := s.rules + [r], nextRule := s.nextRule + 1), false) ==
            if r.zone.Some? && (r.zone.value !in s.zones || HasZoneRule(s.rules, r.zone.value, r.rule))
            then Raised(Conflict)
            else Done
  {
    InvMeets(s);
    forall x | x in s.rules ensures x.id != r.id { assert RowOk(s.zones, s.nextRule, x); }
    RuleAppended(s, r);
  }

  /** A new zone with the copied rules violates nothing. */
  lemma {:induction false} CopiesFit(s: State, actor: string, src: Id, id: Id, name: string)
    requires Inv(s) && src in s.zones && id !in s.zones && ZoneNameOk(name) && !NameTaken(s.zones, name)
    ensures var copies := ZoneCopies(s.rules, src, id, actor, s.nextRule);
            Meets(s.(zones := s.zones[id := ZoneRow(name, false)], rules := s.rules + copies,
                     nextRule := s.nextRule + |copies|))
  {
    CloneZoneKeeps(s, 0, actor, src, id, name);
    InvMeets(CloneZone(s, 0, actor, src, id, name).0);
  }

  /** The tables after the first `i` of the seed rules. */
  function Seeding(s: State, id: Id, i: nat): State
    requires i <= 2
  {
    var one, two := SeedRow(s.nextRule, id, SEED_RULES[0]), SeedRow(s.nextRule + 1, id, SEED_RULES[1]);
    s.(rules := s.rules + [one, two][..i], nextRule := s.nextRule + i)
  }

  lemma SeedRuleIsNew(s: State, id: Id, i: nat)
    requires i < 2 && forall r :: r in s.rules ==> r.zone.None?
    ensures !HasZoneRule(Seeding(s, id, i).rules, id, SEED_RULES[i])
    ensures Seeding(s, id, i + 1).rules == Seeding(s, id, i).rules + [SeedRow(s.nextRule + i, id, SEED_RULES[i])]
  {
  }

  lemma SeedRuleFits(s: State, id: Id, i: nat)
    requires i < 2 && Inv(Seeding(s, id, i)) && id in s.zones && forall r :: r in s.rules ==> r.zone.None?
    ensures Inv(Seeding(s, id, i + 1)) && Meets(Seeding(s, id, i + 1))
    ensures Seeding(s, id, i + 1).rules == Seeding(s, id, i).rules + [SeedRow(s.nextRule + i, id, SEED_RULES[i])]
  {
    SeedRulesValid();
    SeedRuleIsNew(s, id, i);
    AppendKeeps(Seeding(s, id, i), SeedRow(s.nextRule + i, id, SEED_RULES[i]));
    InvMeets(Seeding(s, id, i + 1));
  }

  /** Seeding, as its statements: the zone, the two rules, the audit row. */
  lemma SeedingFits(s: State, now: int, id: Id)
    requires Inv(s) && |s.zones| == 0
    ensures var s1 := s.(zones := s.zones[id := ZoneRow("default", true)]);
            && Inv(s1) && Meets(s1) && id !in s.zones && (forall r :: r in s.rules ==> r.zone.None?)
            && Seed(s, now, id) == (Logged(Seeding(s1, id, 2), now, "bootstrap", Seeded(id)), Ok)
  {
    assert s.zones == map[] && s.zones[id := ZoneRow("default", true)] == SeedZone(id);
    FirstZoneKeeps(s, id);
    InvMeets(s.(zones := SeedZone(id)));
    SeedingEnds(s.(zones := SeedZone(id)), id);
  }

  lemma SeedingEnds(s: State, id: Id)
    ensures Seeding(s, id, 2).rules ==
            s.rules + [SeedRow(s.nextRule, id, SEED_RULES[0]), SeedRow(s.nextRule + 1, id, SEED_RULES[1])]
  {
  }

  function Undefaulted(zones: map<Id, ZoneRow>): map<Id, ZoneRow> {
    map z | z in zones :: zones[z].(isDefault := false)
  }

  lemma FlagsCleared(s: State)
    requires Meets(s)
    ensures Meets(s.(zones := Undefaulted(s.zones)))
  {
    var s' := s.(zones := Undefaulted(s.zones));
    forall r | r in s.rules ensures RefersTo(s'.zones, r) { assert RefersTo(s.zones, r); }
  }

  lemma FlagSet(s: State, id: Id)
    requires Meets(s) && id in s.zones && forall z :: z in s.zones ==> !s.zones[z].isDefault
    ensures Meets(s.(zones := s.zones[id := s.zones[id].(isDefault := true)]))
  {
    ZoneWritten(s, id, s.zones[id].(isDefault := true), false);
  }

  lemma FlagsMoved(zones: map<Id, ZoneRow>, id: Id)
    requires id in zones
    ensures Undefaulted(zones)[id := Undefaulted(zones)[id].(isDefault := true)] == WithDefault(zones, id)
  {
  }

  /** The three writes that make a zone the default: none of them violates the schema. */
  lemma DefaultMoved(s: State, id: Id)
    requires Inv(s)
    ensures Meets(s.(zones := Undefaulted(s.zones)))
    ensures id in s.zones ==>
            Undefaulted(s.zones)[id := Undefaulted(s.zones)[id].(isDefault := true)] == WithDefault(s.zones, id)
    ensures id in s.zones ==> Meets(s.(zones := WithDefault(s.zones, id)))
    ensures id in s.zones ==> Meets(s.(zones := WithDefault(s.zones, id), assigns := Unassigned(s.assigns, id)))
  {
    InvMeets(s);
    FlagsCleared(s);
    if id in s.zones {
      FlagsMoved(s.zones, id);
      FlagSet(s.(zones := Undefaulted(s.zones)), id);
      AssignsDeleted(s.(zones := WithDefault(s.zones, id)), Unassigned(s.assigns, id));
    }
  }

  lemma AssignsDeleted(s: State, assigns: map<Id, Id>)
    requires Meets(s) && forall w :: w in assigns ==> w in s.assigns && assigns[w] == s.assigns[w]
    ensures Meets(s.(assigns := assigns))
  {
    assert References(s.(assigns := assigns));
  }

  lemma RequestWritten(s: State, id: Id, q: RequestRow, duplicate: bool)
    requires Meets(s)
    ensures Verdict(s.(requests := s.requests[id := q]), duplicate) ==
            if !RequestCheck(q) then Raised(Invalid) else if duplicate then Raised(Conflict) else Done
  {
    var s' := s.(requests := s.requests[id := q]);
    assert s'.requests[id] == q;
    assert References(s');
  }
}
