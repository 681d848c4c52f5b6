/** `store.PolicyInput`: what the compilers see of the tables at a given time. */
module Loading {
  import opened Text
  import opened Policy
  import opened Store
  import opened StoreInvariant

  predicate IsLive(r: RuleRow, now: int) {
    r.expires.None? || r.expires.value > now
  }

  /** The rows that never expire or have not expired yet. */
  function Live(rules: seq<RuleRow>, now: int): (out: seq<RuleRow>)
    ensures forall r :: r in out <==> r in rules && IsLive(r, now)
  {
    if rules == [] then [] else
      var last, init := rules[|rules| - 1], Live(rules[..|rules| - 1], now);
      if IsLive(last, now) then init + [last] else init
  }

  /** The order of the query: by kind, then value, then port. */
  predicate RuleBefore(a: Rule, b: Rule) {
    if a.kind != b.kind then Less(a.kind, b.kind)
    else if a.value != b.value then Less(a.value, b.value)
    else a.port < b.port
  }

  predicate RowBefore(a: RuleRow, b: RuleRow) {
    RuleBefore(a.rule, b.rule)
  }

  function Selected(rules: seq<RuleRow>, now: int): (out: seq<RuleRow>)
    ensures forall r :: r in out <==> r in rules && IsLive(r, now)
  {
    var live := Live(rules, now);
    var out := Sort(live, RowBefore);
    assert forall r :: r in out <==> r in multiset(out);
    assert forall r :: r in live <==> r in multiset(live);
    out
  }

  predicate OfZone(r: RuleRow, z: Id) {
    r.zone == Some(z)
  }

  predicate OfWorkspace(r: RuleRow, ws: Id) {
    r.zone.None? && r.workspace == Some(ws)
  }

  function ZoneList(rows: seq<RuleRow>, z: Id): (out: seq<Rule>)
    ensures forall x :: x in out <==> exists r :: r in rows && OfZone(r, z) && r.rule == x
  {
    if rows == [] then [] else
      var last, init := rows[|rows| - 1], ZoneList(rows[..|rows| - 1], z);
      assert rows == rows[..|rows| - 1] + [last];
      if OfZone(last, z) then init + [last.rule] else init
  }

  function GrantList(rows: seq<RuleRow>, ws: Id): (out: seq<Rule>)
    ensures forall x :: x in out <==> exists r :: r in rows && OfWorkspace(r, ws) && r.rule == x
  {
    if rows == [] then [] else
      var last, init := rows[|rows| - 1], GrantList(rows[..|rows| - 1], ws);
      assert rows == rows[..|rows| - 1] + [last];
      if OfWorkspace(last, ws) then init + [last.rule] else init
  }

  function Holders(rows: seq<RuleRow>): set<Id> {
    set r | r in rows && r.zone.None? && r.workspace.Some? :: r.workspace.value
  }

  /** The zone marked as default; the empty id when there is none. */
  ghost function DefaultZone(zones: map<Id, ZoneRow>): Id {
    if exists z :: IsDefault(zones, z) then (var z :| IsDefault(zones, z); z) else ""
  }

  function ZoneTable(zones: map<Id, ZoneRow>, rows: seq<RuleRow>): map<Id, seq<Rule>> {
    map z | z in zones :: ZoneList(rows, z)
  }

  function GrantTable(rows: seq<RuleRow>): map<Id, seq<Rule>> {
    map w | w in Holders(rows) :: GrantList(rows, w)
  }

  ghost function PolicyInput(s: State, now: int, pods: seq<Workspace>): Input {
    var rows := Selected(s.rules, now);
    Input(DefaultZone(s.zones), ZoneTable(s.zones, rows), s.assigns, GrantTable(rows), pods)
  }

  /** What a load depends on. */
  predicate SameTables(a: State, b: State) {
    a.zones == b.zones && a.rules == b.rules && a.assigns == b.assigns
  }

  lemma InputDependsOnTables(a: State, b: State, now: int, pods: seq<Workspace>)
    requires SameTables(a, b)
    ensures PolicyInput(a, now, pods) == PolicyInput(b, now, pods)
  {
  }

  // ---- Facts about the loaded policy ---------------------------------------

  /** A row that is live now and counts for the workspace: its zone's, or its own grant. */
  ghost predicate CountsFor(s: State, now: int, ws: Id, r: RuleRow) {
    r in s.rules && IsLive(r, now) && (OfWorkspace(r, ws) || OfZone(r, ZoneFor(s, ws)))
  }

  ghost function ZoneFor(s: State, ws: Id): Id {
    if ws in s.assigns then s.assigns[ws] else DefaultZone(s.zones)
  }

  /** The effective rules are exactly the live rows of the workspace's zone and its grants. */
  lemma EffectiveRows(s: State, now: int, pods: seq<Workspace>, ws: Id, kind: string, x: Rule)
    requires Inv(s)
    ensures x in Effective(PolicyInput(s, now, pods), ws, kind) <==>
            x.kind == kind && exists r :: CountsFor(s, now, ws, r) && r.rule == x
  {
    var input := PolicyInput(s, now, pods);
    var z := ZoneOf(input, ws);
    var rows := Selected(s.rules, now);
    ZoneRows(s, now, pods, z, x);
    GrantRows(s, now, pods, ws, x);
    if r :| CountsFor(s, now, ws, r) && r.rule == x {
      assert RowOk(s.zones, s.nextRule, r);
      assert r in rows;
    }
    if x in Lookup(input.zoneRules, z) {
      var r :| r in rows && OfZone(r, z) && r.rule == x;
      assert RowOk(s.zones, s.nextRule, r) && CountsFor(s, now, ws, r);
    }
    if x in Lookup(input.grants, ws) {
      var r :| r in rows && OfWorkspace(r, ws) && r.rule == x;
      assert RowOk(s.zones, s.nextRule, r) && CountsFor(s, now, ws, r);
    }
  }

  lemma ZoneRows(s: State, now: int, pods: seq<Workspace>, z: Id, x: Rule)
    requires Inv(s)
    ensures x in Lookup(PolicyInput(s, now, pods).zoneRules, z) <==>
            exists r :: r in Selected(s.rules, now) && OfZone(r, z) && r.rule == x
  {
    if r :| r in Selected(s.rules, now) && OfZone(r, z) && r.rule == x {
      assert RowOk(s.zones, s.nextRule, r);
    }
  }

  lemma GrantRows(s: State, now: int, pods: seq<Workspace>, ws: Id, x: Rule)
    ensures x in Lookup(PolicyInput(s, now, pods).grants, ws) <==>
            exists r :: r in Selected(s.rules, now) && OfWorkspace(r, ws) && r.rule == x
  {
    if r :| r in Selected(s.rules, now) && OfWorkspace(r, ws) && r.rule == x {
      assert ws in Holders(Selected(s.rules, now));
    }
  }

  /** Deleting the grants that have expired by t is invisible to every load from t on. */
  lemma ExpiryIsInvisible(s: State, t: int, later: int, pods: seq<Workspace>)
    requires t <= later
    ensures PolicyInput(ExpireGrants(s, t).0, later, pods) == PolicyInput(s, later, pods)
  {
    LiveAfterExpiry(s.rules, t, later);
  }

  lemma {:induction false} LiveAfterExpiry(rules: seq<RuleRow>, t: int, later: int)
    requires t <= later
    ensures Live(WithoutExpired(rules, t), later) == Live(rules, later)
  {
    if rules != [] {
      var init, last := rules[..|rules| - 1], rules[|rules| - 1];
      LiveAfterExpiry(init, t, later);
      if !HasExpired(last, t) {
        var kept := WithoutExpired(init, t);
        assert (kept + [last])[..|kept|] == kept;
      }
    }
  }

  /** In every seeded database each workspace is in an existing zone. */
  lemma ZoneAlwaysExists(s: State, now: int, pods: seq<Workspace>, ws: Id)
    requires Ready(s)
    ensures ZoneOf(PolicyInput(s, now, pods), ws) in s.zones
  {
  }

  /** Changing the default zone moves exactly the workspaces without an explicit row. */
  lemma SetDefaultMovesTheRest(s: State, now: int, actor: string, id: Id, at: int, pods: seq<Workspace>, ws: Id)
    requires Ready(s) && id in s.zones
    ensures var s' := SetDefaultZone(s, now, actor, id).0;
            ZoneOf(PolicyInput(s', at, pods), ws) ==
            if ws in s.assigns then ZoneOf(PolicyInput(s, at, pods), ws) else id
  {
    SetDefaultZoneKeeps(s, now, actor, id);
    var s' := SetDefaultZone(s, now, actor, id).0;
    assert IsDefault(s'.zones, id);
  }
}
