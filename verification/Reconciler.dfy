/** The main loop of sandcastle-admin against everything that runs beside it: handlers that
    commit and then notify, pod events, the clock, and calls that fail. */
module Reconciler {
  import opened Text
  import opened Policy
  import opened Xds
  import opened Enforcement
  import C = Cilium
  import opened Store
  import opened StoreInvariant
  import opened Loading

  /** What one reconcile works from: the tables and time of its load, and the pods it read. */
  datatype Snap = Snap(db: State, at: int, pods: seq<Workspace>)

  /** Where the loop is. `Woken` has taken a token and is sleeping before it drains a second. */
  datatype Phase =
    | Idle | Woken | BeforeLoad | BeforePods(db: State, at: int) | BeforePush(snap: Snap) | BeforeCilium(snap: Snap)
    | BeforeExpiryNotify

  /** `token` is the one-slot channel; `owing` counts handlers that committed and pod events
      that happened but whose call of notify is still to come; `failed` is lastErr != "". */
  datatype Sys = Sys(
    store: State, now: int, pods: seq<Workspace>, token: bool, owing: nat,
    phase: Phase, envoy: Option<Snap>, cilium: Option<Snap>, failed: bool)

  datatype Action =
    | Tick(dt: nat)
    | Commit(op: Op)
    | PodChange(pods: seq<Workspace>)
    | Notify
    | Receive | Drain | ResyncTick
    | Load(ok: bool) | ReadPods | Push(ok: bool, stored: bool) | ApplyCilium(ok: bool)
    | ExpiryTick(ok: bool) | ExpiryNotify
    | NoteFailure(message: string)

  /** The transactions that web handlers run; each ends in `done`. */
  predicate HandlerOp(op: Op) {
    !op.OpSeed? && !op.OpExpireGrants? && !op.OpAuditSystem?
  }

  predicate Enabled(l: Sys, a: Action) {
    match a
    case Tick(_) => true
    case Commit(op) => HandlerOp(op)
    case PodChange(_) => true
    case Notify => l.owing > 0
    case Receive => l.phase.Idle? && l.token
    case Drain => l.phase.Woken?
    case ResyncTick => l.phase.Idle?
    case Load(_) => l.phase.BeforeLoad?
    case ReadPods => l.phase.BeforePods?
    case Push(_, _) => l.phase.BeforePush?
    case ApplyCilium(_) => l.phase.BeforeCilium?
    case ExpiryTick(_) => l.phase.Idle?
    case ExpiryNotify => l.phase.BeforeExpiryNotify?
    case NoteFailure(_) => true
  }

  function Failing(l: Sys): Sys {
    l.(phase := Idle, failed := true)
  }

  ghost function Committed(l: Sys, op: Op): Sys {
    var (s, r) := Step(l.store, op, l.now);
    if r.Err? then l else l.(store := s, owing := l.owing + 1)
  }

  function Expiring(l: Sys): Sys {
    var gone := ExpiredRows(l.store.rules, l.now);
    l.(store := ExpireGrants(l.store, l.now).0, phase := if |gone| > 0 then BeforeExpiryNotify else Idle)
  }

  /** A push that fails may have replaced Envoy's snapshot all the same. */
  function Pushed(l: Sys, s: Snap, ok: bool, stored: bool): Sys {
    if ok then l.(phase := BeforeCilium(s), envoy := Some(s))
    else if stored then Failing(l.(envoy := Some(s)))
    else Failing(l)
  }

  ghost function Act(l: Sys, a: Action): Sys
    requires Enabled(l, a)
  {
    match a
    case Tick(dt) => l.(now := l.now + dt)
    case Commit(op) => Committed(l, op)
    case PodChange(pods) => l.(pods := pods, owing := l.owing + 1)
    case Notify => l.(token := true, owing := l.owing - 1)
    case Receive => l.(token := false, phase := Woken)
    case Drain => l.(token := false, phase := BeforeLoad)
    case ResyncTick => l.(phase := BeforeLoad)
    case Load(ok) => if ok then l.(phase := BeforePods(l.store, l.now)) else Failing(l)
    case ReadPods => l.(phase := BeforePush(Snap(l.phase.db, l.phase.at, l.pods)))
    case Push(ok, stored) => Pushed(l, l.phase.snap, ok, stored)
    case ApplyCilium(ok) => if ok then l.(phase := Idle, cilium := Some(l.phase.snap), failed := false) else Failing(l)
    case ExpiryTick(ok) => if ok then Expiring(l) else l
    case ExpiryNotify => l.(token := true, phase := Idle)
    case NoteFailure(message) => l.(store := AuditSystem(l.store, l.now, message).0)
  }

  /** serve() has seeded the database and called notify once. */
  ghost predicate Init(l: Sys) {
    Ready(l.store) && l.token && l.owing == 0 && l.phase.Idle? && l.envoy.None? && l.cilium.None? && !l.failed
  }

  ghost predicate Runs(l: Sys, actions: seq<Action>)
    decreases actions
  {
    actions == [] || (Enabled(l, actions[0]) && Runs(Act(l, actions[0]), actions[1..]))
  }

  ghost function Final(l: Sys, actions: seq<Action>): Sys
    requires Runs(l, actions)
    decreases actions
  {
    if actions == [] then l else Final(Act(l, actions[0]), actions[1..])
  }

  // ---- The invariant -------------------------------------------------------

  predicate Current(l: Sys, s: Snap) {
    SameTables(s.db, l.store) && s.pods == l.pods
  }

  /** A wake-up is on its way. */
  predicate Pending(l: Sys) {
    l.token || l.owing > 0
  }

  /** Both enforcement points hold the present tables and pods. */
  predicate UpToDate(l: Sys) {
    l.envoy.Some? && l.cilium == l.envoy && Current(l, l.envoy.value)
  }

  ghost predicate SnapOk(l: Sys, s: Snap) {
    s.at <= l.now && Inv(s.db)
  }

  ghost predicate Good(l: Sys) {
    && Ready(l.store)
    && (l.envoy.Some? ==> SnapOk(l, l.envoy.value))
    && match l.phase
       case Idle => Pending(l) || l.failed || UpToDate(l)
       case BeforePods(db, at) => SnapOk(l, Snap(db, at, [])) && (Pending(l) || SameTables(db, l.store))
       case BeforePush(s) => SnapOk(l, s) && (Pending(l) || Current(l, s))
       case BeforeCilium(s) => l.envoy == Some(s) && (Pending(l) || Current(l, s))
       case _ => true
  }

  lemma InitIsGood(l: Sys)
    requires Init(l)
    ensures Good(l)
  {
  }

  lemma NoteKeepsTables(s: State, now: int, message: string)
    requires Ready(s)
    ensures Ready(AuditSystem(s, now, message).0) && SameTables(s, AuditSystem(s, now, message).0)
  {
    StepKeepsReady(s, OpAuditSystem(message), now);
  }

  lemma {:induction false} ExpiryWithoutLoss(s: State, now: int)
    requires Ready(s)
    ensures Ready(ExpireGrants(s, now).0)
    ensures ExpiredRows(s.rules, now) == [] ==> SameTables(s, ExpireGrants(s, now).0)
  {
    StepKeepsReady(s, OpExpireGrants, now);
    ExpiryLogged(s.rules, now);
  }

  lemma CommitKeeps(l: Sys, op: Op)
    requires Good(l)
    ensures Good(Committed(l, op))
  {
    StepKeepsReady(l.store, op, l.now);
  }

  lemma ExpiryKeeps(l: Sys)
    requires Good(l) && l.phase.Idle?
    ensures Good(Expiring(l))
  {
    ExpiryWithoutLoss(l.store, l.now);
  }

  lemma NoteKeeps(l: Sys, message: string)
    requires Good(l)
    ensures Good(l.(store := AuditSystem(l.store, l.now, message).0))
  {
    NoteKeepsTables(l.store, l.now, message);
  }

  lemma TickKeeps(l: Sys, dt: nat)
    requires Good(l)
    ensures Good(l.(now := l.now + dt))
  {
  }

  lemma PushKeeps(l: Sys, ok: bool, stored: bool)
    requires Good(l) && l.phase.BeforePush?
    ensures Good(Pushed(l, l.phase.snap, ok, stored))
  {
  }

  lemma PodsKeep(l: Sys, pods: seq<Workspace>)
    requires Good(l)
    ensures Good(l.(pods := pods, owing := l.owing + 1))
  {
  }

  /** The steps of the loop itself and of notify. */
  predicate OfLoop(a: Action) {
    a.Notify? || a.Receive? || a.Drain? || a.ResyncTick? || a.Load? || a.ReadPods? || a.ApplyCilium? || a.ExpiryNotify?
  }

  lemma LoopKeeps(l: Sys, a: Action)
    requires Good(l) && Enabled(l, a) && OfLoop(a)
    ensures Good(Act(l, a))
  {
  }

  /** Every step of loop, handlers, pods, clock and failures keeps the invariant. */
  lemma ActKeeps(l: Sys, a: Action)
    requires Good(l) && Enabled(l, a)
    ensures Good(Act(l, a))
  {
    match a
    case Tick(dt) => TickKeeps(l, dt);
    case Commit(op) => CommitKeeps(l, op);
    case ExpiryTick(ok) => ExpiryKeeps(l);
    case NoteFailure(message) => NoteKeeps(l, message);
    case Push(ok, stored) => PushKeeps(l, ok, stored);
    case PodChange(pods) => PodsKeep(l, pods);
    case _ => LoopKeeps(l, a);
  }

  lemma {:induction false} RunKeepsGood(l: Sys, actions: seq<Action>)
    requires Good(l) && Runs(l, actions)
    ensures Good(Final(l, actions))
    decreases actions
  {
    if actions != [] {
      ActKeeps(l, actions[0]);
      RunKeepsGood(Act(l, actions[0]), actions[1..]);
    }
  }

  // ---- No lost wake-up -----------------------------------------------------

  /** The loop has still to read what changed, or holds a read of the present state that it
      has still to push. */
  predicate StillToCome(l: Sys) {
    match l.phase
    case Idle => false
    case Woken => true
    case BeforeLoad => true
    case BeforePods(db, _) => SameTables(db, l.store)
    case BeforePush(s) => Current(l, s)
    case BeforeCilium(_) => false
    case BeforeExpiryNotify => true
  }

  /** In every interleaving: if Envoy's snapshot does not reflect the present tables and pods,
      a wake-up is queued or owed, or the loop will still read or push the present state, or
      the last reconcile failed and the resync tick will retry. */
  lemma {:induction false} NoLostWakeUp(start: Sys, actions: seq<Action>)
    requires Init(start) && Runs(start, actions)
    ensures var l := Final(start, actions);
            l.envoy.None? || !Current(l, l.envoy.value) ==> Pending(l) || StillToCome(l) || l.failed
  {
    InitIsGood(start);
    RunKeepsGood(start, actions);
  }

  /** Nothing queued, nothing owed, nothing failed, loop idle: both enforcement points are
      exactly up to date. In particular draining a second token before the load lost nothing. */
  lemma {:induction false} QuietMeansUpToDate(start: Sys, actions: seq<Action>)
    requires Init(start) && Runs(start, actions)
    ensures var l := Final(start, actions); l.phase.Idle? && !Pending(l) && !l.failed ==> UpToDate(l)
  {
    InitIsGood(start);
    RunKeepsGood(start, actions);
  }

  // ---- Convergence ---------------------------------------------------------

  /** Steps of the loop and of notifiers only: no new change, no failure, no tick of the clock. */
  predicate Settling(a: Action) {
    a.Notify? || a.Receive? || a.Drain? || a.ResyncTick? || a.ReadPods? || a.ExpiryNotify? ||
    (a.Load? && a.ok) || (a.Push? && a.ok) || (a.ApplyCilium? && a.ok)
  }

  function PhaseRank(l: Sys): nat {
    match l.phase
    case Idle => if l.failed && !l.token then 7 else 0
    case Woken => 6
    case BeforeLoad => 5
    case BeforePods(_, _) => 4
    case BeforePush(_) => 3
    case BeforeCilium(_) => 2
    case BeforeExpiryNotify => 1
  }

  function Rank(l: Sys): nat {
    (if l.token || l.phase.BeforeExpiryNotify? then 10 else 0) + PhaseRank(l)
  }

  /** The step the system takes next when everybody finishes what they have begun. */
  function NextStep(l: Sys): Action {
    if l.owing > 0 then Notify else
    match l.phase
    case Idle => if l.token then Receive else ResyncTick
    case Woken => Drain
    case BeforeLoad => Load(true)
    case BeforePods(_, _) => ReadPods
    case BeforePush(_) => Push(true, true)
    case BeforeCilium(_) => ApplyCilium(true)
    case BeforeExpiryNotify => ExpiryNotify
  }

  predicate Quiet(l: Sys) {
    l.phase.Idle? && !Pending(l) && !l.failed
  }

  /** Wake-ups that arrive one after the other, and then the loop drains the channel. */
  function Burst(n: nat): seq<Action> {
    if n == 0 then [Drain] else [Notify] + Burst(n - 1)
  }

  /** However many wake-ups arrive while the loop sleeps, one pass answers them all. */
  lemma {:induction false} BurstIsCoalesced(l: Sys, n: nat)
    requires l.phase.Woken? && n <= l.owing
    ensures Runs(l, Burst(n))
    ensures Final(l, Burst(n)) == l.(token := false, owing := l.owing - n, phase := BeforeLoad)
    decreases n
  {
    if n == 0 {
      assert Burst(n)[1..] == [];
    } else {
      assert Burst(n)[1..] == Burst(n - 1);
      BurstIsCoalesced(Act(l, Notify), n - 1);
    }
  }

  /** The tables, time and pods of this moment. */
  function Fresh(l: Sys): Snap {
    Snap(l.store, l.now, l.pods)
  }

  /** A step of the loop or of a notifier that gets on with what has begun. The resync tick
      counts as one when it retries a failed reconcile. */
  predicate Progress(l: Sys, a: Action) {
    Enabled(l, a) && Settling(a) && (a.ResyncTick? ==> l.failed && !l.token)
  }

  /** How many such steps there can be at most. */
  function Work(l: Sys): nat {
    20 * l.owing + Rank(l)
  }

  /** Whichever of them comes next, there is less left to do. */
  lemma ProgressDescends(l: Sys, a: Action)
    requires Progress(l, a)
    ensures Fresh(Act(l, a)) == Fresh(l) && Work(Act(l, a)) < Work(l)
  {
  }

  lemma SettlingStep(l: Sys)
    requires !Quiet(l)
    ensures Progress(l, NextStep(l))
  {
  }

  /** Nobody has anything left to do. */
  ghost predicate Stopped(l: Sys) {
    forall a :: !Progress(l, a)
  }

  ghost predicate Progresses(l: Sys, actions: seq<Action>)
    decreases actions
  {
    actions == [] || (Progress(l, actions[0]) && Progresses(Act(l, actions[0]), actions[1..]))
  }

  /** Every schedule settles. Whatever order the loop and the notifiers take their steps in, as
      long as none fails and nothing new happens, they stop within a bound known beforehand,
      and where they stop both enforcement points are up to date. */
  lemma {:induction false} EveryScheduleSettles(l: Sys, actions: seq<Action>)
    requires Good(l) && Progresses(l, actions)
    ensures Runs(l, actions) && |actions| + Work(Final(l, actions)) <= Work(l)
    ensures Good(Final(l, actions)) && Fresh(Final(l, actions)) == Fresh(l)
    ensures Stopped(Final(l, actions)) ==> Quiet(Final(l, actions)) && UpToDate(Final(l, actions))
    decreases actions
  {
    if actions == [] {
      if !Quiet(l) { SettlingStep(l); }
    } else {
      ProgressDescends(l, actions[0]);
      ActKeeps(l, actions[0]);
      EveryScheduleSettles(Act(l, actions[0]), actions[1..]);
    }
  }

  /** From every reachable state the system can settle: some such schedule runs to its end. */
  lemma {:induction false} Settles(l: Sys) returns (actions: seq<Action>)
    requires Good(l)
    ensures Runs(l, actions) && (forall i :: 0 <= i < |actions| ==> Settling(actions[i]))
    ensures Quiet(Final(l, actions)) && UpToDate(Final(l, actions)) && Fresh(Final(l, actions)) == Fresh(l)
    decreases Work(l)
  {
    if Quiet(l) {
      actions := [];
    } else {
      var a := NextStep(l);
      SettlingStep(l);
      ProgressDescends(l, a);
      ActKeeps(l, a);
      var rest := Settles(Act(l, a));
      actions := [a] + rest;
      assert actions[1..] == rest;
    }
  }

  const PASS := [ResyncTick, Load(true), ReadPods, Push(true, true), ApplyCilium(true)]

  /** One undisturbed pass of the loop, started by the resync tick. */
  lemma {:induction false} UndisturbedPass(l: Sys)
    requires l.phase.Idle?
    ensures Runs(l, PASS)
    ensures Final(l, PASS) == l.(envoy := Some(Fresh(l)), cilium := Some(Fresh(l)), failed := false)
  {
    var l1 := Act(l, ResyncTick);
    var l2 := Act(l1, Load(true));
    var l3 := Act(l2, ReadPods);
    var l4 := Act(l3, Push(true, true));
    var l5 := Act(l4, ApplyCilium(true));
    assert PASS[4..][1..] == [] && Runs(l5, []);
    assert Runs(l4, PASS[4..]) && Final(l4, PASS[4..]) == l5;
    assert PASS[3..][1..] == PASS[4..] && Runs(l3, PASS[3..]);
    assert PASS[2..][1..] == PASS[3..] && Runs(l2, PASS[2..]);
    assert PASS[1..][1..] == PASS[2..] && Runs(l1, PASS[1..]);
  }

  /** From every reachable state finitely many steps without failures bring both enforcement
      points to the tables, pods and time of this moment. */
  lemma Refreshes(l: Sys) returns (actions: seq<Action>)
    requires Good(l)
    ensures Runs(l, actions) && (forall i :: 0 <= i < |actions| ==> Settling(actions[i]))
    ensures var end := Final(l, actions);
            end.envoy == Some(Fresh(l)) && end.cilium == Some(Fresh(l)) && Fresh(end) == Fresh(l)
    decreases Work(l)
  {
    if Quiet(l) {
      UndisturbedPass(l);
      actions := PASS;
    } else {
      var a := NextStep(l);
      SettlingStep(l);
      ProgressDescends(l, a);
      ActKeeps(l, a);
      var rest := Refreshes(Act(l, a));
      actions := [a] + rest;
      assert actions[1..] == rest;
    }
  }

  // ---- Expiry --------------------------------------------------------------

  /** Time only takes rules away: what counts later counted earlier, and what stops counting
      in between is a grant of this workspace that has expired. */
  lemma {:induction false} CountsEarlier(s: State, at: int, now: int, ws: Id, r: RuleRow)
    requires Inv(s) && at <= now
    ensures CountsFor(s, now, ws, r) ==> CountsFor(s, at, ws, r)
    ensures CountsFor(s, at, ws, r) && !CountsFor(s, now, ws, r) ==>
            r in ExpiredRows(s.rules, now) && r.workspace == Some(ws)
  {
    if r in s.rules { assert RowOk(s.zones, s.nextRule, r); }
  }

  /** An expired grant that is still stored and once served this request from this address. */
  ghost predicate Lapsed(s: State, now: int, pods: seq<Workspace>, ip: string, connect: bool, a: string) {
    exists p, r :: LapsedFor(s, now, pods, ip, connect, a, p, r)
  }

  ghost predicate LapsedFor(s: State, now: int, pods: seq<Workspace>, ip: string, connect: bool, a: string,
                            p: Workspace, r: RuleRow) {
    p in pods && p.ip == ip && r in ExpiredRows(s.rules, now) && r.workspace == Some(p.id) && Serves(r.rule, connect, a)
  }

  lemma HasRuleRow(s: State, now: int, pods: seq<Workspace>, p: Workspace, x: Rule)
    requires Inv(s)
    ensures HasHostRule(PolicyInput(s, now, pods), p, x) <==>
            p in pods && p.ip != "" && x.kind == "host" && exists r :: CountsFor(s, now, p.id, r) && r.rule == x
  {
    EffectiveRows(s, now, pods, p.id, "host", x);
  }

  /** A host rule of a pod, later and earlier. */
  lemma {:induction false} HostRuleEarlier(s: State, at: int, now: int, pods: seq<Workspace>, p: Workspace, x: Rule)
    requires Inv(s) && at <= now
    ensures HasHostRule(PolicyInput(s, now, pods), p, x) ==> HasHostRule(PolicyInput(s, at, pods), p, x)
    ensures HasHostRule(PolicyInput(s, at, pods), p, x) && !HasHostRule(PolicyInput(s, now, pods), p, x) ==>
            exists r :: r in ExpiredRows(s.rules, now) && r.workspace == Some(p.id) && r.rule == x
  {
    HasRuleRow(s, at, pods, p, x);
    HasRuleRow(s, now, pods, p, x);
    forall r ensures CountsFor(s, now, p.id, r) ==> CountsFor(s, at, p.id, r)
             ensures CountsFor(s, at, p.id, r) && !CountsFor(s, now, p.id, r) ==>
                     r in ExpiredRows(s.rules, now) && r.workspace == Some(p.id)
    {
      CountsEarlier(s, at, now, p.id, r);
    }
  }

  /** A permission held earlier and not now was given by a grant that has expired since, to the
      workspace at that address, and is still stored. */
  lemma PermittedEarlier(s: State, at: int, now: int, pods: seq<Workspace>, ip: string, connect: bool, a: string)
    requires Inv(s) && at <= now
    ensures Permitted(PolicyInput(s, now, pods), ip, connect, a) ==> Permitted(PolicyInput(s, at, pods), ip, connect, a)
    ensures Permitted(PolicyInput(s, at, pods), ip, connect, a) &&
            !Permitted(PolicyInput(s, now, pods), ip, connect, a) ==>
            Lapsed(s, now, pods, ip, connect, a)
  {
    var early, late := PolicyInput(s, at, pods), PolicyInput(s, now, pods);
    if p, x :| HasHostRule(late, p, x) && p.ip == ip && Serves(x, connect, a) {
      HostRuleEarlier(s, at, now, pods, p, x);
      assert HasHostRule(early, p, x);
    } else if p, x :| HasHostRule(early, p, x) && p.ip == ip && Serves(x, connect, a) {
      HostRuleEarlier(s, at, now, pods, p, x);
      var r :| r in ExpiredRows(s.rules, now) && r.workspace == Some(p.id) && r.rule == x;
      assert LapsedFor(s, now, pods, ip, connect, a, p, r);
    }
  }

  lemma PermittedSince(db: State, store: State, at: int, now: int, pods: seq<Workspace>, ip: string, connect: bool,
                       a: string)
    requires Inv(db) && SameTables(db, store) && at <= now
    ensures Permitted(PolicyInput(store, now, pods), ip, connect, a) ==>
            Permitted(PolicyInput(db, at, pods), ip, connect, a)
    ensures Permitted(PolicyInput(db, at, pods), ip, connect, a) &&
            !Permitted(PolicyInput(store, now, pods), ip, connect, a) ==>
            Lapsed(store, now, pods, ip, connect, a)
  {
    InputDependsOnTables(db, store, now, pods);
    PermittedEarlier(db, at, now, pods, ip, connect, a);
    if p, r :| LapsedFor(db, now, pods, ip, connect, a, p, r) {
      assert LapsedFor(store, now, pods, ip, connect, a, p, r);
    }
  }

  /** Envoy, when it was built from the present tables and pods, against the policy of this
      moment. */
  lemma EnvoyAgainstPolicy(db: State, store: State, at: int, now: int, pods: seq<Workspace>, h: Hash, hosts: Hosts,
                           url: string, ip: string, connect: bool, a: string)
    requires Inv(db) && SameTables(db, store) && at <= now && IsHostIPs(PolicyInput(db, at, pods), hosts)
    ensures Permitted(PolicyInput(store, now, pods), ip, connect, a) ==>
            Stage1(Built(h, hosts, url), ip, connect, a).Some?
    ensures Stage1(Built(h, hosts, url), ip, connect, a).Some? &&
            !Permitted(PolicyInput(store, now, pods), ip, connect, a) ==>
            Lapsed(store, now, pods, ip, connect, a)
  {
    Stage1IsPolicy(h, PolicyInput(db, at, pods), hosts, url, ip, connect, a);
    PermittedSince(db, store, at, now, pods, ip, connect, a);
  }

  /** An expired grant among the tables that Envoy was built from is still stored, for the next
      expiry tick to find, or Envoy is about to be rebuilt. In every interleaving. */
  lemma {:induction false} ExpiredRowIsStored(start: Sys, actions: seq<Action>, r: RuleRow)
    requires Init(start) && Runs(start, actions)
    ensures var l := Final(start, actions);
            l.envoy.Some? && r in l.envoy.value.db.rules && HasExpired(r, l.now) ==>
              r in ExpiredRows(l.store.rules, l.now) || Pending(l) || StillToCome(l) || l.failed
  {
    NoLostWakeUp(start, actions);
  }

  /** The expiry tick deletes exactly the expired grants, and wakes the loop if there are any. */
  lemma ExpiryTickNotifies(l: Sys, r: RuleRow)
    requires l.phase.Idle? && r in ExpiredRows(l.store.rules, l.now)
    ensures var l' := Act(l, ExpiryTick(true));
            && l'.phase.BeforeExpiryNotify?
            && forall x :: x in l'.store.rules <==> x in l.store.rules && !HasExpired(x, l.now)
  {
  }

  /** No stranded expired grant. In every state of every interleaving, unless a wake-up is
      queued or owed, a rebuild is under way or a failed one is to be retried: Envoy allows
      whatever the policy permits right now, and if it allows anything beyond that, the very
      grant that gave the access is still stored as expired, where the next expiry tick will
      find it. */
  lemma {:induction false} NoStrandedGrant(start: Sys, actions: seq<Action>, h: Hash, hosts: Hosts, url: string,
                                           ip: string, connect: bool, a: string)
    requires Init(start) && Runs(start, actions)
    requires
      var envoy := Final(start, actions).envoy;
      envoy.Some? ==> IsHostIPs(PolicyInput(envoy.value.db, envoy.value.at, envoy.value.pods), hosts)
    ensures
      var l := Final(start, actions);
      var allowed := Stage1(Built(h, hosts, url), ip, connect, a).Some?;
      var permitted := Permitted(PolicyInput(l.store, l.now, l.pods), ip, connect, a);
      || Pending(l) || StillToCome(l) || l.failed
      || ((permitted ==> allowed) && (allowed && !permitted ==> Lapsed(l.store, l.now, l.pods, ip, connect, a)))
  {
    NoLostWakeUp(start, actions);
    InitIsGood(start);
    RunKeepsGood(start, actions);
    var l := Final(start, actions);
    if l.envoy.Some? && Current(l, l.envoy.value) {
      var s := l.envoy.value;
      EnvoyAgainstPolicy(s.db, l.store, s.at, l.now, s.pods, h, hosts, url, ip, connect, a);
    }
  }

  // ---- The same for DNS ----------------------------------------------------

  /** An expired grant of this very rule to the workspace is still stored. */
  ghost predicate LapsedDns(s: State, now: int, ws: Id, x: Rule) {
    exists r :: r in ExpiredRows(s.rules, now) && r.workspace == Some(ws) && r.rule == x
  }

  ghost predicate EffectiveNow(s: State, now: int, pods: seq<Workspace>, ws: Id, x: Rule) {
    x in Effective(PolicyInput(s, now, pods), ws, "dns")
  }

  lemma EffectiveEarlier(s: State, at: int, now: int, pods: seq<Workspace>, ws: Id, x: Rule)
    requires Inv(s) && at <= now
    ensures EffectiveNow(s, now, pods, ws, x) ==> EffectiveNow(s, at, pods, ws, x)
    ensures EffectiveNow(s, at, pods, ws, x) && !EffectiveNow(s, now, pods, ws, x) ==> LapsedDns(s, now, ws, x)
  {
    EffectiveRows(s, at, pods, ws, "dns", x);
    EffectiveRows(s, now, pods, ws, "dns", x);
    if r :| CountsFor(s, now, ws, r) && r.rule == x {
      CountsEarlier(s, at, now, ws, r);
    } else if r :| CountsFor(s, at, ws, r) && r.rule == x {
      CountsEarlier(s, at, now, ws, r);
    }
  }

  /** The policies let the workspace resolve what this rule stands for. */
  ghost predicate Resolvable(out: seq<C.CNP>, ws: Id, x: Rule) {
    C.Allowed(out, Some(ws)).Only? && C.ToDns(x) in C.Allowed(out, Some(ws)).rules
  }

  /** Cilium's policies, when they were rendered from the present tables, against the policy of
      this moment. */
  lemma CiliumAgainstPolicy(db: State, store: State, at: int, now: int, pods: seq<Workspace>,
                            out: seq<C.CNP>, ws: Id, x: Rule)
    requires Inv(db) && SameTables(db, store) && at <= now && C.IsRender(PolicyInput(db, at, pods), out)
    requires x.kind == "dns" && ValidRule(x)
    ensures EffectiveNow(store, now, pods, ws, x) ==> Resolvable(out, ws, x)
    ensures Resolvable(out, ws, x) && !EffectiveNow(store, now, pods, ws, x) ==> LapsedDns(store, now, ws, x)
  {
    C.RuleResolvesIffEffective(PolicyInput(db, at, pods), out, ws, x);
    InputDependsOnTables(db, store, now, pods);
    EffectiveEarlier(db, at, now, pods, ws, x);
  }

  /** Cilium is one step behind Envoy, and otherwise as much up to date. */
  predicate CiliumToCome(l: Sys) {
    StillToCome(l) || l.phase.BeforeCilium?
  }

  lemma {:induction false} CiliumIsCurrent(start: Sys, actions: seq<Action>)
    requires Init(start) && Runs(start, actions)
    ensures var l := Final(start, actions);
            || Pending(l) || CiliumToCome(l) || l.failed
            || (l.cilium.Some? && SnapOk(l, l.cilium.value) && Current(l, l.cilium.value))
  {
    InitIsGood(start);
    RunKeepsGood(start, actions);
  }

  /** No stranded DNS grant, in every state of every interleaving: unless an update of Cilium is
      to come, a workspace may resolve every DNS rule that is effective right now, and any rule
      beyond that was given by a grant that is still stored as expired. */
  lemma {:induction false} NoStrandedDns(start: Sys, actions: seq<Action>, out: seq<C.CNP>, ws: Id, x: Rule)
    requires Init(start) && Runs(start, actions) && x.kind == "dns" && ValidRule(x)
    requires
      var cilium := Final(start, actions).cilium;
      cilium.Some? ==> C.IsRender(PolicyInput(cilium.value.db, cilium.value.at, cilium.value.pods), out)
    ensures
      var l := Final(start, actions);
      var resolvable, effective := Resolvable(out, ws, x), EffectiveNow(l.store, l.now, l.pods, ws, x);
      || Pending(l) || CiliumToCome(l) || l.failed
      || ((effective ==> resolvable) && (resolvable && !effective ==> LapsedDns(l.store, l.now, ws, x)))
  {
    CiliumIsCurrent(start, actions);
    var l := Final(start, actions);
    if l.cilium.Some? && SnapOk(l, l.cilium.value) && Current(l, l.cilium.value) {
      var s := l.cilium.value;
      CiliumAgainstPolicy(s.db, l.store, s.at, l.now, s.pods, out, ws, x);
    }
  }

  // ---- Enforcement in the end ----------------------------------------------

  /** Envoy built from this input allows exactly what it permits. */
  ghost predicate EnvoyEnforces(input: Input, h: Hash, url: string) {
    forall hosts, ip, connect, a :: IsHostIPs(input, hosts) ==>
      (Stage1(Built(h, hosts, url), ip, connect, a).Some? <==> Permitted(input, ip, connect, a))
  }

  /** Policies rendered from this input let each pod resolve exactly its effective names. */
  ghost predicate CiliumEnforces(input: Input) {
    forall out, pod: Option<string> :: C.IsRender(input, out) ==>
      C.Allowed(out, pod) == C.Only(if pod.Some? then C.EffectiveDns(input, pod.value) else {})
  }

  lemma InputIsEnforced(input: Input, h: Hash, url: string)
    ensures EnvoyEnforces(input, h, url) && CiliumEnforces(input)
  {
    forall hosts, ip, connect, a | IsHostIPs(input, hosts)
      ensures Stage1(Built(h, hosts, url), ip, connect, a).Some? <==> Permitted(input, ip, connect, a)
    {
      Stage1IsPolicy(h, input, hosts, url, ip, connect, a);
    }
    forall out, pod: Option<string> | C.IsRender(input, out)
      ensures C.Allowed(out, pod) == C.Only(if pod.Some? then C.EffectiveDns(input, pod.value) else {})
    {
      C.RenderIsPolicy(input, out, pod);
    }
  }

  /** Every revocation and every expiry is enforced: from every reachable state finitely many
      steps without failures lead to a state in which Envoy and Cilium hold what was built from
      the policy of this moment, and so allow exactly what it permits. */
  lemma PolicyIsEnforced(l: Sys, h: Hash, url: string) returns (actions: seq<Action>)
    requires Good(l)
    ensures Runs(l, actions) && (forall i :: 0 <= i < |actions| ==> Settling(actions[i]))
    ensures var end, input := Final(l, actions), PolicyInput(l.store, l.now, l.pods);
            && Fresh(end) == Fresh(l) && end.envoy.Some? && end.cilium.Some?
            && PolicyInput(end.envoy.value.db, end.envoy.value.at, end.envoy.value.pods) == input
            && PolicyInput(end.cilium.value.db, end.cilium.value.at, end.cilium.value.pods) == input
            && EnvoyEnforces(input, h, url) && CiliumEnforces(input)
  {
    actions := Refreshes(l);
    InputIsEnforced(PolicyInput(l.store, l.now, l.pods), h, url);
  }
}
