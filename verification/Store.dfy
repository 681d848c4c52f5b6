/** Package store: the tables and what each transaction does to them, as one atomic step. Times are
    integers; identifiers are uuids that have already been parsed. */
module Store {
  import opened Text
  import opened Policy

  type Id = string

  // ---- Tables --------------------------------------------------------------

  datatype ZoneRow = ZoneRow(name: string, isDefault: bool)

  datatype RuleRow = RuleRow(id: nat, zone: Option<Id>, workspace: Option<Id>, rule: Rule, expires: Option<int>,
                             createdBy: string)

  datatype Status = Pending | Approved | Denied

  datatype RequestRow = RequestRow(
    workspace: Id, host: string, port: int, justification: string, requester: string,
    status: Status, decidedBy: Option<string>, ttl: Option<int>, decidedAt: Option<int>)

  /** The action of an audit row together with its detail. */
  datatype Event =
    | Seeded(zone: Id)
    | ZoneCreated(zone: Id, name: string)
    | ZoneCloned(zone: Id, from: Id, name: string)
    | ZoneRenamed(zone: Id, name: string)
    | ZoneDeleted(zone: Id)
    | DefaultSet(zone: Id)
    | RuleAdded(zone: Id, rule: Rule)
    | RuleDeleted(ofZone: Option<Id>, ofWorkspace: Option<Id>, rule: Rule)
    | Assigned(workspace: Id, zone: Id)
    | Granted(workspace: Id, rule: Rule, ttl: int)
    | RequestApproved(request: Id, selfApproved: bool, workspace: Id, rule: Rule, ttl: int)
    | RequestDenied(request: Id, selfApproved: bool)
    | GrantExpired(workspace: Id, rule: Rule)
    | Requested(request: Id, workspace: Id, host: string, port: int)
    | SystemNote(action: string)

  datatype AuditRow = AuditRow(at: int, actor: string, event: Event)

  datatype State = State(
    zones: map<Id, ZoneRow>, rules: seq<RuleRow>, nextRule: nat, assigns: map<Id, Id>,
    requests: map<Id, RequestRow>, log: seq<AuditRow>)

  const EMPTY := State(map[], [], 0, map[], map[], [])

  /** `Unavailable` is every error that is not one of the three the handlers tell apart. */
  datatype Error = Conflict | Invalid | NotFound | Unavailable
  datatype Reply = Ok | OkId(id: Id) | OkCount(n: nat) | Err(error: Error)

  // ---- Row operations ------------------------------------------------------

  /** The constraint on zone names: 1 to 41 letters, digits and hyphens, no leading hyphen. */
  predicate ZoneNameOk(name: string) {
    1 <= |name| <= 41 && name[0] != '-' && forall c :: c in name ==> 'a' <= c <= 'z' || '0' <= c <= '9' || c == '-'
  }

  predicate NameTaken(zones: map<Id, ZoneRow>, name: string) {
    exists z :: z in zones && zones[z].name == name
  }

  predicate HasZoneRule(rules: seq<RuleRow>, zone: Id, rule: Rule) {
    exists r :: r in rules && r.zone == Some(zone) && r.rule == rule
  }

  /** Drops a zone's rules, as deleting the zone does by cascade. */
  function WithoutZone(rules: seq<RuleRow>, z: Id): (out: seq<RuleRow>)
    ensures forall r :: r in out <==> r in rules && r.zone != Some(z)
  {
    if rules == [] then [] else
      var last, init := rules[|rules| - 1], WithoutZone(rules[..|rules| - 1], z);
      if last.zone == Some(z) then init else init + [last]
  }

  predicate HasExpired(r: RuleRow, now: int) {
    r.workspace.Some? && r.expires.Some? && r.expires.value <= now
  }

  function WithoutExpired(rules: seq<RuleRow>, now: int): (out: seq<RuleRow>)
    ensures forall r :: r in out <==> r in rules && !HasExpired(r, now)
  {
    if rules == [] then [] else
      var last, init := rules[|rules| - 1], WithoutExpired(rules[..|rules| - 1], now);
      if HasExpired(last, now) then init else init + [last]
  }

  function ExpiredRows(rules: seq<RuleRow>, now: int): (out: seq<RuleRow>)
    ensures forall r :: r in out <==> r in rules && HasExpired(r, now)
  {
    if rules == [] then [] else
      var last, init := rules[|rules| - 1], ExpiredRows(rules[..|rules| - 1], now);
      if HasExpired(last, now) then init + [last] else init
  }

  /** A zone's rules copied under another zone, with fresh row ids. */
  function ZoneCopies(rules: seq<RuleRow>, from: Id, to: Id, actor: string, next: nat): seq<RuleRow> {
    if rules == [] then [] else
      var last, init := rules[|rules| - 1], ZoneCopies(rules[..|rules| - 1], from, to, actor, next);
      if last.zone == Some(from) then init + [RuleRow(next + |init|, Some(to), None, last.rule, None, actor)] else init
  }

  /** The position of the row with this id, or the length of the table. */
  function RowIndex(rules: seq<RuleRow>, id: nat): (i: nat)
    ensures i <= |rules|
    ensures i < |rules| ==> rules[i].id == id
    ensures forall j :: 0 <= j < i ==> rules[j].id != id
  {
    if rules == [] then 0
    else if rules[0].id == id then 0
    else
      assert forall j :: 1 <= j < |rules| ==> rules[1..][j - 1] == rules[j];
      1 + RowIndex(rules[1..], id)
  }

  predicate IsPending(q: RequestRow, workspace: Id, host: string, port: int) {
    q.workspace == workspace && q.host == host && q.port == port && q.status == Pending
  }

  function Logged(s: State, now: int, actor: string, e: Event): State {
    s.(log := s.log + [AuditRow(now, actor, e)])
  }

  // ---- Transactions --------------------------------------------------------

  const SEED_RULES := [Rule("host", "example.com", 443), Rule("host", "example.com", 80)]

  function Seed(s: State, now: int, id: Id): (State, Reply) {
    if |s.zones| > 0 then (s, Ok) else
      var a := RuleRow(s.nextRule, Some(id), None, SEED_RULES[0], None, "bootstrap");
      var b := RuleRow(s.nextRule + 1, Some(id), None, SEED_RULES[1], None, "bootstrap");
      (Logged(s.(zones := map[id := ZoneRow("default", true)], rules := s.rules + [a, b], nextRule := s.nextRule + 2),
              now, "bootstrap", Seeded(id)), Ok)
  }

  function CreateZone(s: State, now: int, actor: string, id: Id, name: string): (State, Reply) {
    if !ZoneNameOk(name) then (s, Err(Invalid))
    else if id in s.zones || NameTaken(s.zones, name) then (s, Err(Conflict))
    else (Logged(s.(zones := s.zones[id := ZoneRow(name, false)]), now, actor, ZoneCreated(id, name)), OkId(id))
  }

  function CloneZone(s: State, now: int, actor: string, src: Id, id: Id, name: string): (State, Reply) {
    if src !in s.zones then (s, Err(NotFound))
    else if !ZoneNameOk(name) then (s, Err(Invalid))
    else if id in s.zones || NameTaken(s.zones, name) then (s, Err(Conflict))
    else
      var copies := ZoneCopies(s.rules, src, id, actor, s.nextRule);
      (Logged(s.(zones := s.zones[id := ZoneRow(name, false)], rules := s.rules + copies,
                 nextRule := s.nextRule + |copies|),
              now, actor, ZoneCloned(id, src, name)), OkId(id))
  }

  function RenameZone(s: State, now: int, actor: string, id: Id, name: string): (State, Reply) {
    if id !in s.zones then (s, Err(NotFound))
    else if !ZoneNameOk(name) then (s, Err(Invalid))
    else if NameTaken(s.zones - {id}, name) then (s, Err(Conflict))
    else (Logged(s.(zones := s.zones[id := s.zones[id].(name := name)]), now, actor, ZoneRenamed(id, name)), Ok)
  }

  function DeleteZone(s: State, now: int, actor: string, id: Id): (State, Reply) {
    if id !in s.zones then (s, Err(NotFound))
    else if s.zones[id].isDefault || id in s.assigns.Values then (s, Err(Conflict))
    else (Logged(s.(zones := s.zones - {id}, rules := WithoutZone(s.rules, id)), now, actor, ZoneDeleted(id)), Ok)
  }

  function Unassigned(assigns: map<Id, Id>, zone: Id): map<Id, Id> {
    map w | w in assigns && assigns[w] != zone :: assigns[w]
  }

  function WithDefault(zones: map<Id, ZoneRow>, id: Id): map<Id, ZoneRow> {
    map z | z in zones :: zones[z].(isDefault := z == id)
  }

  function SetDefaultZone(s: State, now: int, actor: string, id: Id): (State, Reply) {
    if id !in s.zones then (s, Err(NotFound))
    else (Logged(s.(zones := WithDefault(s.zones, id), assigns := Unassigned(s.assigns, id)), now, actor,
                 DefaultSet(id)), Ok)
  }

  function AddZoneRule(s: State, now: int, actor: string, zone: Id, rule: Rule): (State, Reply) {
    if !ValidRule(rule) then (s, Err(Invalid))
    else if zone !in s.zones || HasZoneRule(s.rules, zone, rule) then (s, Err(Conflict))
    else
      var row := RuleRow(s.nextRule, Some(zone), None, rule, None, actor);
      (Logged(s.(rules := s.rules + [row], nextRule := s.nextRule + 1), now, actor, RuleAdded(zone, rule)), Ok)
  }

  function DeleteRule(s: State, now: int, actor: string, ruleId: nat): (State, Reply) {
    var i := RowIndex(s.rules, ruleId);
    if i == |s.rules| then (s, Err(NotFound)) else
      var r := s.rules[i];
      (Logged(s.(rules := s.rules[..i] + s.rules[i + 1..]), now, actor, RuleDeleted(r.zone, r.workspace, r.rule)), Ok)
  }

  function Assign(s: State, now: int, actor: string, ws: Id, zone: Id): (State, Reply) {
    if zone !in s.zones then (s, Err(NotFound)) else
      var assigns := if s.zones[zone].isDefault then s.assigns - {ws} else s.assigns[ws := zone];
      (Logged(s.(assigns := assigns), now, actor, Assigned(ws, zone)), Ok)
  }

  /** The row that a grant inserts. */
  function GrantRow(s: State, now: int, actor: string, ws: Id, rule: Rule, ttl: int): RuleRow {
    RuleRow(s.nextRule, None, Some(ws), rule, Some(now + ttl), actor)
  }

  function WithGrant(s: State, now: int, actor: string, ws: Id, rule: Rule, ttl: int, e: Event): State {
    Logged(s.(rules := s.rules + [GrantRow(s, now, actor, ws, rule, ttl)], nextRule := s.nextRule + 1), now, actor, e)
  }

  function Grant(s: State, now: int, actor: string, ws: Id, rule: Rule, ttl: int): (State, Reply) {
    if !ValidRule(rule) || ttl <= 0 then (s, Err(Invalid))
    else (WithGrant(s, now, actor, ws, rule, ttl, Granted(ws, rule, ttl)), Ok)
  }

  function ExpiryRows(rows: seq<RuleRow>, now: int): seq<AuditRow>
    requires forall r :: r in rows ==> r.workspace.Some?
  {
    if rows == [] then [] else
      var last := rows[|rows| - 1];
      ExpiryRows(rows[..|rows| - 1], now) + [AuditRow(now, "system", GrantExpired(last.workspace.value, last.rule))]
  }

  function ExpireGrants(s: State, now: int): (State, Reply) {
    var gone := ExpiredRows(s.rules, now);
    (s.(rules := WithoutExpired(s.rules, now), log := s.log + ExpiryRows(gone, now)), OkCount(|gone|))
  }

  function HostRule(host: string, port: int): Rule {
    Rule("host", host, port)
  }

  /** The pending request for this destination, if there is one. */
  ghost predicate PendingAs(s: State, id: Id, ws: Id, host: string, port: int) {
    id in s.requests && IsPending(s.requests[id], ws, host, port)
  }

  ghost predicate AlreadyPending(s: State, ws: Id, host: string, port: int) {
    exists id :: PendingAs(s, id, ws, host, port)
  }

  ghost function FileRequest(s: State, now: int, actor: string, id: Id, ws: Id, host: string, port: int,
                             justification: string): (State, Reply) {
    if !ValidRule(HostRule(host, port)) then (s, Err(Invalid))
    else if AlreadyPending(s, ws, host, port) then
      var found :| PendingAs(s, found, ws, host, port);
      (s, OkId(found))
    else if !(1 <= |justification| <= 2000) then (s, Err(Invalid))
    else if id in s.requests then (s, Err(Conflict))
    else
      var q := RequestRow(ws, host, port, justification, actor, Pending, None, None, None);
      (Logged(s.(requests := s.requests[id := q]), now, actor, Requested(id, ws, host, port)), OkId(id))
  }

  function Decide(s: State, now: int, actor: string, id: Id, approve: bool, ttl: int): (State, Reply) {
    if id !in s.requests || s.requests[id].status != Pending then (s, Err(Conflict)) else
      var q := s.requests[id];
      var rule := HostRule(q.host, q.port);
      var decided := q.(status := if approve then Approved else Denied, decidedBy := Some(actor),
                        decidedAt := Some(now), ttl := if approve then Some(ttl) else None);
      var s' := s.(requests := s.requests[id := decided]);
      if !approve then (Logged(s', now, actor, RequestDenied(id, actor == q.requester)), Ok)
      else if !ValidRule(rule) || ttl <= 0 then (s, Err(Invalid))
      else (WithGrant(s', now, actor, q.workspace, rule, ttl,
                      RequestApproved(id, actor == q.requester, q.workspace, rule, ttl)), Ok)
  }

  function AuditSystem(s: State, now: int, action: string): (State, Reply) {
    (Logged(s, now, "system", SystemNote(action)), Ok)
  }

  // ---- Runs ----------------------------------------------------------------

  datatype Op =
    | OpSeed(id: Id)
    | OpCreateZone(actor: string, id: Id, name: string)
    | OpCloneZone(actor: string, src: Id, id: Id, name: string)
    | OpRenameZone(actor: string, id: Id, name: string)
    | OpDeleteZone(actor: string, id: Id)
    | OpSetDefaultZone(actor: string, id: Id)
    | OpAddZoneRule(actor: string, id: Id, rule: Rule)
    | OpDeleteRule(actor: string, ruleId: nat)
    | OpAssign(actor: string, ws: Id, id: Id)
    | OpGrant(actor: string, ws: Id, rule: Rule, ttl: int)
    | OpExpireGrants
    | OpFileRequest(actor: string, id: Id, ws: Id, host: string, port: int, justification: string)
    | OpDecide(actor: string, id: Id, approve: bool, ttl: int)
    | OpAuditSystem(action: string)

  ghost function Step(s: State, op: Op, now: int): (State, Reply) {
    match op
    case OpSeed(id) => Seed(s, now, id)
    case OpCreateZone(actor, id, name) => CreateZone(s, now, actor, id, name)
    case OpCloneZone(actor, src, id, name) => CloneZone(s, now, actor, src, id, name)
    case OpRenameZone(actor, id, name) => RenameZone(s, now, actor, id, name)
    case OpDeleteZone(actor, id) => DeleteZone(s, now, actor, id)
    case OpSetDefaultZone(actor, id) => SetDefaultZone(s, now, actor, id)
    case OpAddZoneRule(actor, id, rule) => AddZoneRule(s, now, actor, id, rule)
    case OpDeleteRule(actor, ruleId) => DeleteRule(s, now, actor, ruleId)
    case OpAssign(actor, ws, id) => Assign(s, now, actor, ws, id)
    case OpGrant(actor, ws, rule, ttl) => Grant(s, now, actor, ws, rule, ttl)
    case OpExpireGrants => ExpireGrants(s, now)
    case OpFileRequest(actor, id, ws, host, port, just) => FileRequest(s, now, actor, id, ws, host, port, just)
    case OpDecide(actor, id, approve, ttl) => Decide(s, now, actor, id, approve, ttl)
    case OpAuditSystem(action) => AuditSystem(s, now, action)
  }

  /** The transactions on zones. */
  predicate OnZones(op: Op) {
    op.OpSeed? || op.OpCreateZone? || op.OpCloneZone? || op.OpRenameZone? || op.OpDeleteZone? || op.OpSetDefaultZone?
  }

  /** One transaction and the clock reading it ran at. */
  datatype Tx = Tx(op: Op, at: int)

  ghost function After(s: State, run: seq<Tx>): State {
    if run == [] then s else
      var last := run[|run| - 1];
      Step(After(s, run[..|run| - 1]), last.op, last.at).0
  }

  /** A step that errs changes nothing, the audit log included, and errs for a reason of its
      own. */
  lemma ErringStep(s: State, op: Op, now: int)
    requires Step(s, op, now).1.Err?
    ensures Step(s, op, now).0 == s && Step(s, op, now).1.error != Unavailable
  {
  }

  /** Every transaction only ever appends to the audit log, and one that changes a table
      appends at least one row. */
  lemma LogOnlyGrows(s: State, op: Op, now: int)
    ensures s.log <= Step(s, op, now).0.log
    ensures Step(s, op, now).0 != s ==> |s.log| < |Step(s, op, now).0.log|
  {
    if op.OpExpireGrants? {
      ExpiryLogged(s.rules, now);
    }
  }

  /** On whose behalf a transaction runs. */
  function Actor(op: Op): string {
    match op
    case OpSeed(_) => "bootstrap"
    case OpExpireGrants => "system"
    case OpAuditSystem(_) => "system"
    case _ => op.actor
  }

  /** Every audit row a transaction writes carries its actor and its clock reading. */
  lemma NewRowsAreSigned(s: State, op: Op, now: int)
    ensures forall i :: |s.log| <= i < |Step(s, op, now).0.log| ==>
              Step(s, op, now).0.log[i].at == now && Step(s, op, now).0.log[i].actor == Actor(op)
  {
    if op.OpExpireGrants? {
      ExpiryRowsSigned(ExpiredRows(s.rules, now), now);
    }
  }

  lemma {:induction false} ExpiryRowsSigned(rows: seq<RuleRow>, now: int)
    requires forall r :: r in rows ==> r.workspace.Some?
    ensures forall i :: 0 <= i < |ExpiryRows(rows, now)| ==>
            ExpiryRows(rows, now)[i].at == now && ExpiryRows(rows, now)[i].actor == "system"
  {
    if rows != [] { ExpiryRowsSigned(rows[..|rows| - 1], now); }
  }

  lemma {:induction false} ExpiryLogged(rules: seq<RuleRow>, now: int)
    ensures |ExpiryRows(ExpiredRows(rules, now), now)| == |ExpiredRows(rules, now)|
    ensures ExpiredRows(rules, now) == [] ==> WithoutExpired(rules, now) == rules
  {
    if rules != [] {
      var init := rules[..|rules| - 1];
      ExpiryLogged(init, now);
      assert rules == init + [rules[|rules| - 1]];
      ExpiryRowsLength(ExpiredRows(rules, now), now);
    }
  }

  /** The audit row of one expired grant. */
  function ExpiryRow(r: RuleRow, now: int): AuditRow
    requires r.workspace.Some?
  {
    AuditRow(now, "system", GrantExpired(r.workspace.value, r.rule))
  }

  lemma {:induction false} ExpiryRowsSnoc(log: seq<AuditRow>, rows: seq<RuleRow>, r: RuleRow, now: int)
    requires r.workspace.Some? && forall x :: x in rows ==> x.workspace.Some?
    ensures log + ExpiryRows(rows + [r], now) == (log + ExpiryRows(rows, now)) + [ExpiryRow(r, now)]
  {
    assert (rows + [r])[..|rows|] == rows;
  }

  lemma {:induction false} ExpiryRowsLength(rows: seq<RuleRow>, now: int)
    requires forall r :: r in rows ==> r.workspace.Some?
    ensures |ExpiryRows(rows, now)| == |rows|
  {
    if rows != [] { ExpiryRowsLength(rows[..|rows| - 1], now); }
  }
}
