/** Requests and grants: how a refused request becomes access, to what exactly, and for how
    long; and what becomes of every grant. */
module Access {
  import opened Text
  import opened Names
  import opened Policy
  import opened Xds
  import opened Enforcement
  import opened Authority
  import opened Store
  import opened StoreInvariant
  import opened Loading
  import opened Effects
  import opened Replay

  // ---- Request lifecycle ---------------------------------------------------

  /** A decision goes through exactly when the request is pending and, for an approval, the
      time is positive: validation never refuses one, because only valid hosts are filed. */
  lemma DecisionSucceeds(s: State, now: int, actor: string, id: Id, approve: bool, ttl: int)
    requires Inv(s)
    ensures Decide(s, now, actor, id, approve, ttl).1 == Reply.Ok <==>
            id in s.requests && s.requests[id].status == Pending && (approve ==> ttl > 0)
  {
    if id in s.requests { assert RequestOk(s.requests[id]); }
  }

  predicate DecidedOn(e: Event, id: Id) {
    (e.RequestApproved? && e.request == id) || (e.RequestDenied? && e.request == id)
  }

  /** How often the log records a decision on a request. */
  function Decisions(log: seq<AuditRow>, id: Id): nat {
    if log == [] then 0 else
      Decisions(log[..|log| - 1], id) + if DecidedOn(log[|log| - 1].event, id) then 1 else 0
  }

  lemma {:induction false} DecisionsSnoc(log: seq<AuditRow>, row: AuditRow, id: Id)
    ensures Decisions(log + [row], id) == Decisions(log, id) + if DecidedOn(row.event, id) then 1 else 0
  {
    assert (log + [row])[..|log|] == log;
  }

  lemma {:induction false} ExpiryDecidesNothing(log: seq<AuditRow>, rows: seq<RuleRow>, now: int, id: Id)
    requires forall r :: r in rows ==> r.workspace.Some?
    ensures Decisions(log + ExpiryRows(rows, now), id) == Decisions(log, id)
  {
    if rows == [] {
      assert log + ExpiryRows(rows, now) == log;
    } else {
      var init, last := rows[..|rows| - 1], rows[|rows| - 1];
      ExpiryDecidesNothing(log, init, now, id);
      var row := AuditRow(now, "system", GrantExpired(last.workspace.value, last.rule));
      assert log + ExpiryRows(rows, now) == (log + ExpiryRows(init, now)) + [row];
      DecisionsSnoc(log + ExpiryRows(init, now), row, id);
    }
  }

  function Decided(s: State, id: Id): nat {
    if id in s.requests && s.requests[id].status != Pending then 1 else 0
  }

  /** A step that is not an expiry logs nothing or one row. */
  ghost predicate OneRow(s: State, s': State) {
    s' == s || (|s'.log| == |s.log| + 1 && s'.log == s.log + [s'.log[|s.log|]])
  }

  lemma StepLogsOneRow(s: State, op: Op, now: int)
    requires !op.OpExpireGrants?
    ensures OneRow(s, Step(s, op, now).0)
  {
  }

  /** Only filing and deciding touch requests, and only deciding logs a decision. */
  lemma OtherStepsKeepRequests(s: State, op: Op, now: int)
    requires !op.OpFileRequest? && !op.OpDecide? && !op.OpExpireGrants?
    ensures Step(s, op, now).0.requests == s.requests
    ensures Step(s, op, now).0 != s ==>
            OneRow(s, Step(s, op, now).0) && forall id :: !DecidedOn(Step(s, op, now).0.log[|s.log|].event, id)
  {
  }

  lemma {:induction false} StepDecides(s: State, op: Op, now: int, id: Id)
    requires Decisions(s.log, id) == Decided(s, id)
    ensures Decisions(Step(s, op, now).0.log, id) == Decided(Step(s, op, now).0, id)
  {
    if op.OpExpireGrants? {
      ExpiryDecidesNothing(s.log, ExpiredRows(s.rules, now), now, id);
    } else {
      StepLogsOneRow(s, op, now);
      RowDecides(s, op, now, id);
      var s' := Step(s, op, now).0;
      if s' != s { DecisionsSnoc(s.log, s'.log[|s.log|], id); }
    }
  }

  lemma RowDecides(s: State, op: Op, now: int, id: Id)
    requires !op.OpExpireGrants? && OneRow(s, Step(s, op, now).0)
    ensures var s' := Step(s, op, now).0;
            s' != s ==> Decided(s', id) == Decided(s, id) + if DecidedOn(s'.log[|s.log|].event, id) then 1 else 0
  {
    if !op.OpFileRequest? && !op.OpDecide? { OtherStepsKeepRequests(s, op, now); }
  }

  /** In every run each request is decided at most once: the log holds exactly one decision
      for a request that is no longer pending, and none for one that is. */
  lemma {:induction false} DecidedAtMostOnce(run: seq<Tx>, id: Id)
    ensures Decisions(After(EMPTY, run).log, id) == Decided(After(EMPTY, run), id)
  {
    if run != [] {
      var init, last := run[..|run| - 1], run[|run| - 1];
      DecidedAtMostOnce(init, id);
      StepDecides(After(EMPTY, init), last.op, last.at, id);
    }
  }

  /** A decided request never changes again, whatever is done later. */
  lemma {:induction false} DecisionIsFinal(s: State, run: seq<Tx>, id: Id)
    requires id in s.requests && s.requests[id].status != Pending
    ensures id in After(s, run).requests && After(s, run).requests[id] == s.requests[id]
  {
    if run != [] {
      var init, last := run[..|run| - 1], run[|run| - 1];
      DecisionIsFinal(s, init, id);
      DecisionStays(After(s, init), last.op, last.at, id);
    }
  }

  lemma DecisionStays(s: State, op: Op, now: int, id: Id)
    requires id in s.requests && s.requests[id].status != Pending
    ensures id in Step(s, op, now).0.requests && Step(s, op, now).0.requests[id] == s.requests[id]
  {
    if !op.OpFileRequest? && !op.OpDecide? && !op.OpExpireGrants? { OtherStepsKeepRequests(s, op, now); }
  }

  // ---- The log documents every request ----------------------------------------

  predicate FiledAs(row: AuditRow, id: Id, q: RequestRow) {
    row.actor == q.requester && row.event == Requested(id, q.workspace, q.host, q.port)
  }

  /** The row says who decided what, when, and whether it was the requester's own request. */
  predicate DecidedAs(row: AuditRow, id: Id, q: RequestRow) {
    && q.decidedAt == Some(row.at) && q.decidedBy == Some(row.actor)
    && (q.status == Approved ==> q.ttl.Some?)
    && (q.status == Approved ==>
        row.event == RequestApproved(id, row.actor == q.requester, q.workspace, HostRule(q.host, q.port), q.ttl.value))
    && (q.status == Denied ==> row.event == RequestDenied(id, row.actor == q.requester))
  }

  ghost predicate Documented(s: State, id: Id) {
    id in s.requests ==>
      && (exists i :: 0 <= i < |s.log| && FiledAs(s.log[i], id, s.requests[id]))
      && (s.requests[id].status != Pending ==> exists i :: 0 <= i < |s.log| && DecidedAs(s.log[i], id, s.requests[id]))
  }

  lemma DocumentedStays(s: State, s': State, id: Id)
    requires Documented(s, id) && s.log <= s'.log
    requires id in s.requests <==> id in s'.requests
    requires id in s.requests ==> s'.requests[id] == s.requests[id]
    ensures Documented(s', id)
  {
    if id in s.requests {
      var i :| 0 <= i < |s.log| && FiledAs(s.log[i], id, s.requests[id]);
      assert FiledAs(s'.log[i], id, s'.requests[id]);
      if s.requests[id].status != Pending {
        var j :| 0 <= j < |s.log| && DecidedAs(s.log[j], id, s.requests[id]);
        assert DecidedAs(s'.log[j], id, s'.requests[id]);
      }
    }
  }

  lemma DecideDocuments(s: State, now: int, actor: string, rid: Id, approve: bool, ttl: int, id: Id)
    requires Documented(s, id)
    ensures Documented(Decide(s, now, actor, rid, approve, ttl).0, id)
  {
    var (s', r) := Decide(s, now, actor, rid, approve, ttl);
    if s' == s || id != rid {
      DocumentedStays(s, s', id);
    } else {
      var i :| 0 <= i < |s.log| && FiledAs(s.log[i], id, s.requests[id]);
      assert FiledAs(s'.log[i], id, s'.requests[id]);
      assert DecidedAs(s'.log[|s.log|], id, s'.requests[id]);
    }
  }

  lemma FileDocuments(s: State, now: int, actor: string, rid: Id, ws: Id, host: string, port: int, just: string, id: Id)
    requires Documented(s, id)
    ensures Documented(FileRequest(s, now, actor, rid, ws, host, port, just).0, id)
  {
    var s' := FileRequest(s, now, actor, rid, ws, host, port, just).0;
    if s' == s || id != rid {
      DocumentedStays(s, s', id);
    } else {
      assert FiledAs(s'.log[|s.log|], id, s'.requests[id]);
    }
  }

  lemma StepDocuments(s: State, op: Op, now: int, id: Id)
    requires Documented(s, id)
    ensures Documented(Step(s, op, now).0, id)
  {
    if op.OpDecide? {
      DecideDocuments(s, now, op.actor, op.id, op.approve, op.ttl, id);
    } else if op.OpFileRequest? {
      FileDocuments(s, now, op.actor, op.id, op.ws, op.host, op.port, op.justification, id);
    } else {
      LogOnlyGrows(s, op, now);
      if !op.OpExpireGrants? { OtherStepsKeepRequests(s, op, now); }
      DocumentedStays(s, Step(s, op, now).0, id);
    }
  }

  /** In every run the log names, for every request, who filed it for what; and for every
      decision who made it, when, for how long, and whether it was on their own request. */
  lemma {:induction false} RequestsAreDocumented(run: seq<Tx>, id: Id)
    ensures Documented(After(EMPTY, run), id)
  {
    if run != [] {
      var init, last := run[..|run| - 1], run[|run| - 1];
      RequestsAreDocumented(init, id);
      StepDocuments(After(EMPTY, init), last.op, last.at, id);
    }
  }

  // ---- The log documents every grant ---------------------------------------

  /** The row says to whom which rule was granted, by whom, and for how long from then. */
  predicate GrantedAs(row: AuditRow, r: RuleRow) {
    && (row.event.Granted? || row.event.RequestApproved?)
    && r.workspace == Some(row.event.workspace) && r.rule == row.event.rule
    && r.expires == Some(row.at + row.event.ttl) && r.createdBy == row.actor
  }

  ghost predicate HasOrigin(log: seq<AuditRow>, r: RuleRow) {
    exists i :: 0 <= i < |log| && GrantedAs(log[i], r)
  }

  ghost predicate GrantsDocumented(s: State) {
    forall r :: r in s.rules && r.workspace.Some? ==> HasOrigin(s.log, r)
  }

  lemma OriginStays(log: seq<AuditRow>, log': seq<AuditRow>, r: RuleRow)
    requires HasOrigin(log, r) && log <= log'
    ensures HasOrigin(log', r)
  {
    var i :| 0 <= i < |log| && GrantedAs(log[i], r);
    assert GrantedAs(log'[i], r);
  }

  lemma {:induction false} CopiesAreNoGrants(s: State, now: int, actor: string, src: Id, id: Id, name: string,
                                             r: RuleRow)
    requires r in CloneZone(s, now, actor, src, id, name).0.rules && r !in s.rules
    ensures r.workspace.None?
  {
    CopiesAre(s.rules, src, id, actor, s.nextRule);
  }

  /** A new grant row is told by the audit row beside it. */
  lemma NewGrantIsTold(s: State, op: Op, now: int, r: RuleRow)
    requires r in Step(s, op, now).0.rules && r !in s.rules && r.workspace.Some?
    ensures HasOrigin(Step(s, op, now).0.log, r)
  {
    if op.OpCloneZone? { CopiesAreNoGrants(s, now, op.actor, op.src, op.id, op.name, r); }
    var s' := Step(s, op, now).0;
    assert GrantedAs(s'.log[|s.log|], r);
  }

  lemma StepDocumentsGrants(s: State, op: Op, now: int)
    requires GrantsDocumented(s)
    ensures GrantsDocumented(Step(s, op, now).0)
  {
    LogOnlyGrows(s, op, now);
    var s' := Step(s, op, now).0;
    forall r | r in s'.rules && r.workspace.Some? ensures HasOrigin(s'.log, r) {
      if r in s.rules { OriginStays(s.log, s'.log, r); } else { NewGrantIsTold(s, op, now, r); }
    }
  }

  /** In every run each stored grant has its row in the log: same workspace and rule, made by the
      creator it names, and expiring that row's time to live after that row's time. */
  lemma {:induction false} GrantsAreDocumented(run: seq<Tx>)
    ensures GrantsDocumented(After(EMPTY, run))
  {
    if run != [] {
      var init, last := run[..|run| - 1], run[|run| - 1];
      GrantsAreDocumented(init);
      StepDocumentsGrants(After(EMPTY, init), last.op, last.at);
    }
  }

  // ---- Conservation of grants ----------------------------------------------

  function CreatedBy(e: Event): multiset<(Id, Rule)> {
    if e.Granted? then multiset{(e.workspace, e.rule)}
    else if e.RequestApproved? then multiset{(e.workspace, e.rule)}
    else multiset{}
  }

  function RemovedBy(e: Event): multiset<(Id, Rule)> {
    if e.GrantExpired? then multiset{(e.workspace, e.rule)}
    else if e.RuleDeleted? && e.ofZone.None? && e.ofWorkspace.Some? then multiset{(e.ofWorkspace.value, e.rule)}
    else multiset{}
  }

  function Created(log: seq<AuditRow>): multiset<(Id, Rule)> {
    if log == [] then multiset{} else Created(log[..|log| - 1]) + CreatedBy(log[|log| - 1].event)
  }

  function Removed(log: seq<AuditRow>): multiset<(Id, Rule)> {
    if log == [] then multiset{} else Removed(log[..|log| - 1]) + RemovedBy(log[|log| - 1].event)
  }

  ghost predicate Balanced(s: State) {
    Created(s.log) == GrantBag(s.rules) + Removed(s.log)
  }

  lemma {:induction false} LedgerSnoc(log: seq<AuditRow>, row: AuditRow)
    ensures Created(log + [row]) == Created(log) + CreatedBy(row.event)
    ensures Removed(log + [row]) == Removed(log) + RemovedBy(row.event)
  {
    assert (log + [row])[..|log|] == log;
  }

  /** From `start` to `log` nothing was created, and exactly these grants were removed. */
  ghost predicate OnlyRemoves(start: seq<AuditRow>, log: seq<AuditRow>, rows: seq<RuleRow>) {
    Created(log) == Created(start) && Removed(log) == Removed(start) + GrantBag(rows)
  }

  lemma {:induction false} NothingRemoved(log: seq<AuditRow>)
    ensures OnlyRemoves(log, log, [])
  {
  }

  /** One more expired grant in both books. */
  lemma {:induction false} OneMoreRemoved(start: seq<AuditRow>, log: seq<AuditRow>, rows: seq<RuleRow>, r: RuleRow,
                                          now: int)
    requires r.workspace.Some? && OnlyRemoves(start, log, rows)
    ensures OnlyRemoves(start, log + [ExpiryRow(r, now)], rows + [r])
  {
    LedgerSnoc(log, ExpiryRow(r, now));
    AppendView(rows, r);
    BagShuffle(Removed(start), GrantBag(rows), GrantOf(r));
  }

  lemma {:induction false} ExpiryLedger(log: seq<AuditRow>, rows: seq<RuleRow>, now: int)
    requires forall r :: r in rows ==> r.workspace.Some?
    ensures OnlyRemoves(log, log + ExpiryRows(rows, now), rows)
  {
    if rows == [] {
      assert log + ExpiryRows(rows, now) == log;
      NothingRemoved(log);
    } else {
      var init, last := rows[..|rows| - 1], rows[|rows| - 1];
      ExpiryLedger(log, init, now);
      assert rows == init + [last];
      ExpiryRowsSnoc(log, init, last, now);
      OneMoreRemoved(log, log + ExpiryRows(init, now), init, last, now);
    }
  }

  /** The change of the outstanding grants is what the new audit row says. */
  ghost predicate Booked(s: State, s': State, e: Event) {
    GrantBag(s'.rules) + RemovedBy(e) == GrantBag(s.rules) + CreatedBy(e)
  }

  lemma EventGrants(v: View, e: Event)
    requires !e.GrantExpired? && !e.RuleDeleted?
    ensures RemovedBy(e) == multiset{} && ReplayEvent(v, e).grants == v.grants + CreatedBy(e)
  {
  }

  lemma OnlyDeletionRemoves(s: State, op: Op, now: int)
    requires !op.OpExpireGrants? && !op.OpDeleteRule? && OneRow(s, Step(s, op, now).0)
    ensures var s' := Step(s, op, now).0;
            s' != s ==> !s'.log[|s.log|].event.GrantExpired? && !s'.log[|s.log|].event.RuleDeleted?
  {
  }

  lemma StepBooked(s: State, op: Op, now: int)
    requires Inv(s) && !op.OpExpireGrants? && OneRow(s, Step(s, op, now).0)
    ensures var s' := Step(s, op, now).0; s' != s ==> Booked(s, s', s'.log[|s.log|].event)
  {
    if op.OpDeleteRule? {
      DeletionBooked(s, now, op.actor, op.ruleId);
    } else {
      StepExplains(s, op, now);
      OnlyDeletionRemoves(s, op, now);
      var s' := Step(s, op, now).0;
      if s' != s { BookedByView(s, s', s'.log[|s.log|].event); }
    }
  }

  lemma BookedByView(s: State, s': State, e: Event)
    requires ViewOf(s') == ReplayEvent(ViewOf(s), e) && !e.GrantExpired? && !e.RuleDeleted?
    ensures Booked(s, s', e)
  {
    EventGrants(ViewOf(s), e);
  }

  lemma DeletionBooked(s: State, now: int, actor: string, ruleId: nat)
    requires Inv(s)
    ensures var s' := DeleteRule(s, now, actor, ruleId).0; s' != s ==> Booked(s, s', s'.log[|s.log|].event)
  {
    var i := RowIndex(s.rules, ruleId);
    if i < |s.rules| {
      assert s.rules[i] in s.rules && RowOk(s.zones, s.nextRule, s.rules[i]);
      RemovalBooked(s, DeleteRule(s, now, actor, ruleId).0, i);
    }
  }

  lemma RemovalBooked(s: State, s': State, i: nat)
    requires RulesOk(s) && i < |s.rules| && s'.rules == s.rules[..i] + s.rules[i + 1..]
    requires s.rules[i].zone.Some? != s.rules[i].workspace.Some?
    ensures Booked(s, s', RuleDeleted(s.rules[i].zone, s.rules[i].workspace, s.rules[i].rule))
  {
    var a, r, b := s.rules[..i], s.rules[i], s.rules[i + 1..];
    assert s.rules == (a + [r]) + b;
    AppendView(a, r);
    GrantBagConcat(a + [r], b);
    GrantBagConcat(a, b);
  }

  lemma StepBalances(s: State, op: Op, now: int)
    requires Inv(s) && Balanced(s)
    ensures Balanced(Step(s, op, now).0)
  {
    if op.OpExpireGrants? {
      ExpirySplitsBag(s.rules, now);
      ExpiryLedger(s.log, ExpiredRows(s.rules, now), now);
    } else {
      StepLogsOneRow(s, op, now);
      StepBooked(s, op, now);
      BookedIsBalanced(s, Step(s, op, now).0);
    }
  }

  lemma BookedIsBalanced(s: State, s': State)
    requires Balanced(s) && OneRow(s, s') && (s' != s ==> Booked(s, s', s'.log[|s.log|].event))
    ensures Balanced(s')
  {
    if s' != s {
      var e := s'.log[|s.log|].event;
      LedgerSnoc(s.log, s'.log[|s.log|]);
      assert s'.log == s.log + [s'.log[|s.log|]];
      BagBalance(GrantBag(s.rules), Removed(s.log), GrantBag(s'.rules), CreatedBy(e), RemovedBy(e));
    }
  }

  lemma BagBalance(g: multiset<(Id, Rule)>, r: multiset<(Id, Rule)>, g': multiset<(Id, Rule)>,
                   made: multiset<(Id, Rule)>, gone: multiset<(Id, Rule)>)
    requires g' + gone == g + made
    ensures (g + r) + made == g' + (r + gone)
  {
    forall x ensures ((g + r) + made)[x] == (g' + (r + gone))[x] {
      assert (g' + gone)[x] == (g + made)[x];
    }
  }

  /** Conservation: in every run, the grants ever made (directly or by approval) are exactly
      the outstanding ones together with those revoked or expired, counted with multiplicity. */
  lemma {:induction false} GrantsAreConserved(run: seq<Tx>)
    ensures Balanced(After(EMPTY, run))
  {
    if run != [] {
      var init, last := run[..|run| - 1], run[|run| - 1];
      GrantsAreConserved(init);
      RunKeeps(init);
      StepBalances(After(EMPTY, init), last.op, last.at);
    }
  }

  // ---- From denial to access -----------------------------------------------

  /** The request is waiting already, or it can be filed with these words and this id. */
  ghost predicate CanFile(s: State, newId: Id, ws: Id, host: string, port: int, just: string) {
    (exists q :: Waiting(s, q, ws, host, port)) || (1 <= |just| <= 2000 && newId !in s.requests)
  }

  /** Filing and approving in an intact database succeed and add one row, nothing else. */
  lemma FileThenApprove(s: State, t1: int, user: string, newId: Id, ws: Id, host: string, port: int, just: string,
                        t2: int, admin: string, ttl: int)
    requires Inv(s) && IsPattern(host) && (port == 80 || port == 443) && ttl > 0
    requires CanFile(s, newId, ws, host, port, just)
    ensures var (s1, filed) := FileRequest(s, t1, user, newId, ws, host, port, just);
            filed.OkId? &&
            var (s2, decided) := Decide(s1, t2, admin, filed.id, true, ttl);
            && decided == Reply.Ok && Inv(s2) && s2.zones == s.zones && s2.assigns == s.assigns
            && s2.rules == s.rules + [GrantRow(s, t2, admin, ws, HostRule(host, port), ttl)]
  {
    FilingSucceeds(s, t1, user, newId, ws, host, port, just);
    var (s1, filed) := FileRequest(s, t1, user, newId, ws, host, port, just);
    FileRequestKeeps(s, t1, user, newId, ws, host, port, just);
    assert PendingAs(s1, filed.id, ws, host, port);
    DecisionSucceeds(s1, t2, admin, filed.id, true, ttl);
    DecideKeeps(s1, t2, admin, filed.id, true, ttl);
  }

  /** One more live grant row adds exactly that rule, for exactly that workspace. */
  lemma GrantAddsOneRule(s: State, s': State, row: RuleRow, ws: Id, now: int, pods: seq<Workspace>, p: Workspace,
                         x: Rule)
    requires Inv(s) && Inv(s') && s'.zones == s.zones && s'.assigns == s.assigns && s'.rules == s.rules + [row]
    requires row.zone.None? && row.workspace == Some(ws) && IsLive(row, now) && row.rule.kind == "host"
    ensures HasHostRule(PolicyInput(s', now, pods), p, x) <==>
            HasHostRule(PolicyInput(s, now, pods), p, x) || (p in pods && p.ip != "" && p.id == ws && x == row.rule)
  {
    EffectiveRows(s, now, pods, p.id, "host", x);
    EffectiveRows(s', now, pods, p.id, "host", x);
    assert row in s'.rules;
    forall r ensures CountsFor(s', now, p.id, r) <==> CountsFor(s, now, p.id, r) || (r == row && p.id == ws) {
      assert r in s'.rules <==> r in s.rules || r == row;
    }
  }

  /** Adding one rule for one workspace adds exactly what that rule serves. */
  lemma OneMoreRule(input: Input, input': Input, ws: Id, rule: Rule, ip: string, connect: bool, a: string)
    requires forall p, x :: HasHostRule(input', p, x) <==>
                HasHostRule(input, p, x) || (p in input.pods && p.ip != "" && p.id == ws && x == rule)
    ensures Permitted(input', ip, connect, a) <==>
            Permitted(input, ip, connect, a) || (Serves(rule, connect, a) && PodAt(input.pods, ip, ws))
  {
    if PodAt(input.pods, ip, ws) {
      var p :| p in input.pods && p.ip == ip && p.id == ws;
      assert ip != "" ==> HasHostRule(input', p, rule);
    }
  }

  /** A running pod of the workspace has this address. */
  ghost predicate PodAt(pods: seq<Workspace>, ip: string, ws: Id) {
    ip != "" && exists p :: p in pods && p.ip == ip && p.id == ws
  }

  lemma GrantAddsAccess(s: State, s': State, row: RuleRow, ws: Id, now: int, pods: seq<Workspace>, ip: string,
                        connect: bool, a: string)
    requires Inv(s) && Inv(s') && s'.zones == s.zones && s'.assigns == s.assigns && s'.rules == s.rules + [row]
    requires row.zone.None? && row.workspace == Some(ws) && IsLive(row, now) && row.rule.kind == "host"
    ensures Permitted(PolicyInput(s', now, pods), ip, connect, a) <==>
            Permitted(PolicyInput(s, now, pods), ip, connect, a) ||
            (Serves(row.rule, connect, a) && PodAt(pods, ip, ws))
  {
    var input, input' := PolicyInput(s, now, pods), PolicyInput(s', now, pods);
    forall p, x ensures HasHostRule(input', p, x) <==>
        HasHostRule(input, p, x) || (p in input.pods && p.ip != "" && p.id == ws && x == row.rule) {
      GrantAddsOneRule(s, s', row, ws, now, pods, p, x);
    }
    OneMoreRule(input, input', ws, row.rule, ip, connect, a);
  }

  /** An exact host rule serves just the authorities that spell that host and port. */
  lemma ExactRuleServes(host: string, port: int, connect: bool, a: string)
    requires ConcreteName(host) && (port == 80 || port == 443)
    ensures Serves(HostRule(host, port), connect, a) <==>
            connect == (port == 443) && exists t :: PortOf(t) == port && a == Domain(host, t)
  {
    var k := KeyOf(HostRule(host, port));
    forall t ensures TailOf(k, t) && Fit(Domain(host, t), a) >= 0 <==> PortOf(t) == port && a == Domain(host, t) {
      FitOfDomain(host, t, a);
    }
  }

  /** An expired row changes nothing that is loaded. */
  lemma DeadRowIsInvisible(s: State, s': State, row: RuleRow, now: int, pods: seq<Workspace>)
    requires s'.zones == s.zones && s'.assigns == s.assigns && s'.rules == s.rules + [row] && !IsLive(row, now)
    ensures PolicyInput(s', now, pods) == PolicyInput(s, now, pods)
  {
    assert (s.rules + [row])[..|s.rules|] == s.rules;
  }

  /** The database after filing a request and approving it. */
  ghost function Approve(s: State, t1: int, user: string, newId: Id, ws: Id, host: string, port: int, just: string,
                         t2: int, admin: string, ttl: int): State {
    var (s1, filed) := FileRequest(s, t1, user, newId, ws, host, port, just);
    if filed.OkId? then Decide(s1, t2, admin, filed.id, true, ttl).0 else s
  }

  lemma ApprovedAccess(s: State, s': State, row: RuleRow, ws: Id, host: string, port: int, now: int,
                       pods: seq<Workspace>, ip: string, connect: bool, a: string)
    requires Inv(s) && Inv(s') && s'.zones == s.zones && s'.assigns == s.assigns && s'.rules == s.rules + [row]
    requires row.zone.None? && row.workspace == Some(ws) && row.rule == HostRule(host, port)
    requires ConcreteName(host) && (port == 80 || port == 443)
    ensures Permitted(PolicyInput(s', now, pods), ip, connect, a) <==>
            Permitted(PolicyInput(s, now, pods), ip, connect, a) ||
            (&& IsLive(row, now) && PodAt(pods, ip, ws) && connect == (port == 443)
             && exists t :: PortOf(t) == port && a == Domain(host, t))
  {
    ExactRuleServes(host, port, connect, a);
    if IsLive(row, now) {
      GrantAddsAccess(s, s', row, ws, now, pods, ip, connect, a);
    } else {
      DeadRowIsInvisible(s, s', row, now, pods);
    }
  }

  /** Denial to access. A refused request of a running pod for an exact name, name:80 or
      name:443 is recorded and offered as that host and port. Once it is filed and approved,
      a build from the tables as the approval left them, at any time, differs from the build
      without it in exactly this: until the decision time plus the TTL, and no longer, the
      addresses of that workspace's pods reach that host on that port. */
  lemma DenialToAccess(s: State, t1: int, user: string, newId: Id, ws: Id, host: string, tail: Tail, just: string,
                       t2: int, admin: string, ttl: int, now: int, pods: seq<Workspace>, h: Hash,
                       before: Hosts, after: Hosts, url: string, src: string, ip: string, connect: bool, a: string)
    requires src != "" && Inv(s) && ConcreteName(host) && ttl > 0
    ensures Classify(403, src, Domain(host, tail)) == Some(Denial(src, host, PortOf(tail)))
    ensures HostPort(Domain(host, tail)) == (host, PortOf(tail))
    ensures CanFile(s, newId, ws, host, PortOf(tail), just) &&
            IsHostIPs(PolicyInput(s, now, pods), before) &&
            IsHostIPs(PolicyInput(Approve(s, t1, user, newId, ws, host, PortOf(tail), just, t2, admin, ttl), now, pods),
                      after) ==>
              (Stage1(Built(h, after, url), ip, connect, a).Some? <==>
                Stage1(Built(h, before, url), ip, connect, a).Some? ||
                (now < t2 + ttl && PodAt(pods, ip, ws) && connect == tail.Port443? &&
                 exists t :: PortOf(t) == PortOf(tail) && a == Domain(host, t)))
  {
    var port := PortOf(tail);
    CanonicalAuthority(host, tail, src);
    ValidNameIsPattern(host);
    if CanFile(s, newId, ws, host, port, just) {
      FileThenApprove(s, t1, user, newId, ws, host, port, just, t2, admin, ttl);
      var s2 := Approve(s, t1, user, newId, ws, host, port, just, t2, admin, ttl);
      var row := GrantRow(s, t2, admin, ws, HostRule(host, port), ttl);
      ApprovedAccess(s, s2, row, ws, host, port, now, pods, ip, connect, a);
      if IsHostIPs(PolicyInput(s, now, pods), before) && IsHostIPs(PolicyInput(s2, now, pods), after) {
        Stage1IsPolicy(h, PolicyInput(s, now, pods), before, url, ip, connect, a);
        Stage1IsPolicy(h, PolicyInput(s2, now, pods), after, url, ip, connect, a);
      }
    }
  }

  // ---- How long a grant lasts ----------------------------------------------

  /** The transaction neither deletes this grant by its id nor finds it expired. */
  predicate Spares(tx: Tx, row: RuleRow) {
    (tx.op.OpDeleteRule? ==> tx.op.ruleId != row.id) && (tx.op.OpExpireGrants? ==> !HasExpired(row, tx.at))
  }

  lemma CloneZoneSpares(s: State, now: int, actor: string, src: Id, id: Id, name: string, row: RuleRow)
    requires row.id < s.nextRule
    ensures row in CloneZone(s, now, actor, src, id, name).0.rules <==> row in s.rules
  {
    CopiesAre(s.rules, src, id, actor, s.nextRule);
  }

  /** Every other transaction only appends rules under new ids, or deletes those of a zone. */
  lemma OthersSpare(s: State, op: Op, now: int, row: RuleRow)
    requires !op.OpDeleteRule? && !op.OpCloneZone? && !op.OpExpireGrants? && row.id < s.nextRule && row.zone.None?
    ensures row in Step(s, op, now).0.rules <==> row in s.rules
  {
  }

  lemma RuleIdsGrow(s: State, op: Op, now: int)
    ensures s.nextRule <= Step(s, op, now).0.nextRule
  {
  }

  /** A grant row leaves the table in exactly two ways, and a row that is gone stays gone. */
  lemma StepSpares(s: State, tx: Tx, row: RuleRow)
    requires Inv(s) && row.id < s.nextRule && row.zone.None?
    ensures row in Step(s, tx.op, tx.at).0.rules <==> row in s.rules && Spares(tx, row)
  {
    match tx.op
    case OpDeleteRule(actor, ruleId) => DeletedRow(s, tx.at, actor, ruleId, row);
    case OpCloneZone(actor, src, id, name) => CloneZoneSpares(s, tx.at, actor, src, id, name, row);
    case OpExpireGrants =>
    case _ => OthersSpare(s, tx.op, tx.at, row);
  }

  ghost predicate AllSpare(run: seq<Tx>, row: RuleRow) {
    forall i :: 0 <= i < |run| ==> Spares(run[i], row)
  }

  /** After `run` the row is still there iff every transaction of it spared the row. */
  ghost predicate SparedBy(s: State, run: seq<Tx>, row: RuleRow) {
    Inv(s) && row.id < s.nextRule && (row in s.rules <==> AllSpare(run, row))
  }

  lemma SparedSnoc(s: State, s': State, run: seq<Tx>, tx: Tx, row: RuleRow)
    requires SparedBy(s, run, row) && row.zone.None? && s' == Step(s, tx.op, tx.at).0
    ensures SparedBy(s', run + [tx], row)
  {
    StepKeeps(s, tx.op, tx.at);
    StepSpares(s, tx, row);
    RuleIdsGrow(s, tx.op, tx.at);
    AllSpareSnoc(run, tx, row);
  }

  lemma AllSpareSnoc(run: seq<Tx>, tx: Tx, row: RuleRow)
    ensures AllSpare(run + [tx], row) <==> AllSpare(run, row) && Spares(tx, row)
  {
    var all := run + [tx];
    assert all[|run|] == tx && forall i :: 0 <= i < |run| ==> all[i] == run[i];
  }

  lemma SparedByNone(s: State, row: RuleRow)
    requires Inv(s) && row in s.rules
    ensures SparedBy(s, [], row)
  {
    assert RowOk(s.zones, s.nextRule, row);
  }

  /** Through every later run of transactions a grant row is there iff every one spared it. */
  lemma {:induction false} RunSpares(s: State, run: seq<Tx>, row: RuleRow)
    requires SparedBy(s, [], row) && row.zone.None?
    ensures SparedBy(After(s, run), run, row)
  {
    if run != [] {
      var init, last := run[..|run| - 1], run[|run| - 1];
      RunSpares(s, init, row);
      assert run == init + [last];
      SparedSnoc(After(s, init), After(s, run), init, last, row);
    }
  }

  /** A row that counts makes Envoy allow what its rule serves. */
  lemma RowGivesAccess(s: State, row: RuleRow, ws: Id, now: int, pods: seq<Workspace>, h: Hash, hosts: Hosts,
                       url: string, ip: string, connect: bool, a: string)
    requires Inv(s) && row in s.rules && OfWorkspace(row, ws) && IsLive(row, now) && row.rule.kind == "host"
    requires IsHostIPs(PolicyInput(s, now, pods), hosts) && PodAt(pods, ip, ws) && Serves(row.rule, connect, a)
    ensures Stage1(Built(h, hosts, url), ip, connect, a).Some?
  {
    var p :| p in pods && p.ip == ip && p.id == ws;
    EffectiveRows(s, now, pods, ws, "host", row.rule);
    assert CountsFor(s, now, ws, row);
    assert HasHostRule(PolicyInput(s, now, pods), p, row.rule);
    Stage1IsPolicy(h, PolicyInput(s, now, pods), hosts, url, ip, connect, a);
  }

  /** The transaction deletes this row by its id. */
  predicate Revokes(tx: Tx, row: RuleRow) {
    tx.op.OpDeleteRule? && tx.op.ruleId == row.id
  }

  /** Approved access lasts. Whatever else happens to the database after the approval, as long
      as nobody deletes that grant and until the decision time plus the TTL, every build lets
      the workspace's pods reach the approved host and port. */
  lemma {:induction false} AccessLasts(s: State, t1: int, user: string, newId: Id, ws: Id, host: string, port: int,
                                       just: string, t2: int, admin: string, ttl: int, run: seq<Tx>, now: int,
                                       pods: seq<Workspace>, h: Hash, hosts: Hosts, url: string,
                                       ip: string, connect: bool, a: string)
    requires Inv(s) && ConcreteName(host) && (port == 80 || port == 443) && ttl > 0
    requires CanFile(s, newId, ws, host, port, just)
    requires now < t2 + ttl && PodAt(pods, ip, ws) && Serves(HostRule(host, port), connect, a)
    requires var row := GrantRow(s, t2, admin, ws, HostRule(host, port), ttl);
             forall i :: 0 <= i < |run| ==> run[i].at <= now && !Revokes(run[i], row)
    requires var s2 := Approve(s, t1, user, newId, ws, host, port, just, t2, admin, ttl);
             IsHostIPs(PolicyInput(After(s2, run), now, pods), hosts)
    ensures Stage1(Built(h, hosts, url), ip, connect, a).Some?
  {
    ValidNameIsPattern(host);
    FileThenApprove(s, t1, user, newId, ws, host, port, just, t2, admin, ttl);
    var s2 := Approve(s, t1, user, newId, ws, host, port, just, t2, admin, ttl);
    var row := GrantRow(s, t2, admin, ws, HostRule(host, port), ttl);
    forall i | 0 <= i < |run| ensures Spares(run[i], row) { assert !Revokes(run[i], row); }
    SparedByNone(s2, row);
    RunSpares(s2, run, row);
    RowGivesAccess(After(s2, run), row, ws, now, pods, h, hosts, url, ip, connect, a);
  }
}
