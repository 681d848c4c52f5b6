/** The store's methods as they run: SQL statements one after the other inside a transaction.
    A statement writes first; then a constraint may raise, and any statement, the audit insert
    included, may break off. The transaction that wraps them is proved to be one atomic step of
    Store, or nothing. */
module Database {
  import opened Text
  import opened Policy
  import opened Store
  import opened StoreInvariant
  import opened Schema
  import opened Loading
  import Replay

  // ---- What a call may do --------------------------------------------------

  /** How a transaction's body ends, against the step it is meant to carry out. On an error the
      tables `s'` it leaves behind may be anything. */
  ghost predicate Carries(s': State, r: Reply, step: (State, Reply)) {
    r == Err(Unavailable) || (r == step.1 && (!r.Err? ==> s' == step.0))
  }

  /** A call is its step, or it fails and leaves everything as it was. */
  ghost predicate Transacts(s: State, s': State, tx: Tx, r: Reply) {
    (s', r) == Step(s, tx.op, tx.at) || (s' == s && r == Err(Unavailable))
  }

  class Database {
    var zones: map<Id, ZoneRow>
    var rules: seq<RuleRow>
    var nextRule: nat
    var assigns: map<Id, Id>
    var requests: map<Id, RequestRow>
    var log: seq<AuditRow>

    /** How many statements and commits have broken off so far. */
    ghost var faults: nat

    function View(): State
      reads this
    {
      State(zones, rules, nextRule, assigns, requests, log)
    }

    /** Something broke off since `before`, or nothing did. */
    ghost predicate Tallied(before: nat, broke: bool)
      reads this
    {
      if broke then faults > before else faults == before
    }

    constructor ()
      ensures View() == EMPTY && faults == 0
    {
      faults := 0;
      zones, rules, nextRule, assigns, requests, log := map[], [], 0, map[], map[], [];
    }

    // ---- Transactions ------------------------------------------------------

    /** Begin, run the body, then commit; or roll back on the first error, that of a failing
        commit included. If nothing breaks off, the call is exactly its step. */
    method Transact(tx: Tx) returns (r: Reply)
      requires Inv(View())
      modifies this
      ensures Transacts(old(View()), View(), tx, r) && Inv(View())
      ensures r.Err? ==> View() == old(View())
      ensures Tallied(old(faults), r == Err(Unavailable))
    {
      var saved := View();
      :- Query();
      r := Run(tx.op, tx.at);
      if !r.Err? {
        var o := Query();
        if o.Raised? {
          r := Err(Unavailable);
        }
      }
      if r.Err? {
        Rollback(saved);
        if r.error != Unavailable { ErringStep(saved, tx.op, tx.at); }
      } else {
        StepKeeps(saved, tx.op, tx.at);
      }
    }

    method Rollback(saved: State)
      modifies this
      ensures View() == saved && faults == old(faults)
    {
      zones, rules, nextRule := saved.zones, saved.rules, saved.nextRule;
      assigns, requests, log := saved.assigns, saved.requests, saved.log;
    }

    method Run(op: Op, now: int) returns (r: Reply)
      requires Inv(View())
      modifies this
      ensures Carries(View(), r, Step(old(View()), op, now))
      ensures Tallied(old(faults), r == Err(Unavailable))
    {
      match op
      case OpSeed(id) => r := SeedDefault(now, id);
      case OpCreateZone(actor, id, name) => r := AddZone(now, actor, id, name);
      case OpCloneZone(actor, src, id, name) => r := CopyZone(now, actor, src, id, name);
      case OpRenameZone(actor, id, name) => r := SetZoneName(now, actor, id, name);
      case OpDeleteZone(actor, id) => r := RemoveZone(now, actor, id);
      case OpSetDefaultZone(actor, id) => r := MakeDefault(now, actor, id);
      case OpAddZoneRule(actor, id, rule) => r := AddRule(now, actor, id, rule);
      case OpDeleteRule(actor, ruleId) => r := RemoveRule(now, actor, ruleId);
      case OpAssign(actor, ws, id) => r := AssignZone(now, actor, ws, id);
      case OpGrant(actor, ws, rule, ttl) => r := AddGrant(now, actor, ws, rule, ttl);
      case OpExpireGrants => r := ExpireDue(now);
      case OpFileRequest(actor, id, ws, host, port, just) => r := File(now, actor, id, ws, host, port, just);
      case OpDecide(actor, id, approve, ttl) => r := Settle(now, actor, id, approve, ttl);
      case OpAuditSystem(action) => r := Note(now, action);
    }

    // ---- Statements --------------------------------------------------------

    /** The end of a statement: it breaks off, or the schema decides on what it wrote. */
    method Finish(duplicate: bool) returns (o: Outcome)
      modifies this`faults
      ensures o == Raised(Unavailable) || o == Verdict(View(), duplicate)
      ensures Tallied(old(faults), o == Raised(Unavailable))
    {
      var broken: bool := *;
      o := if broken then Raised(Unavailable) else Verdict(View(), duplicate);
      if broken { faults := faults + 1; }
    }

    /** A statement that changes nothing: a query, and the begin and the commit themselves. */
    method Query() returns (o: Outcome)
      modifies this`faults
      ensures o == Raised(Unavailable) || o == Done
      ensures Tallied(old(faults), o == Raised(Unavailable))
    {
      var broken: bool := *;
      o := if broken then Raised(Unavailable) else Done;
      if broken { faults := faults + 1; }
    }

    method Audit(now: int, actor: string, e: Event) returns (o: Outcome)
      modifies this`log, this`faults
      ensures o == Raised(Unavailable) || o == Done
      ensures o.Done? ==> View() == Logged(old(View()), now, actor, e)
      ensures Tallied(old(faults), o == Raised(Unavailable))
    {
      log := log + [AuditRow(now, actor, e)];
      o := Query();
    }

    method InsertZone(id: Id, row: ZoneRow) returns (o: Outcome)
      modifies this`zones, this`faults
      ensures o == Raised(Unavailable) ||
              (zones == old(zones)[id := row] && o == Verdict(View(), id in old(zones)))
      ensures Tallied(old(faults), o == Raised(Unavailable))
    {
      var duplicate := id in zones;
      zones := zones[id := row];
      o := Finish(duplicate);
    }

    method UpdateZoneName(id: Id, name: string) returns (o: Outcome, n: nat)
      modifies this`zones, this`faults
      ensures o == Raised(Unavailable) ||
              (&& o == Verdict(View(), false)
               && if id in old(zones) then n == 1 && zones == old(zones)[id := old(zones)[id].(name := name)]
                  else n == 0 && zones == old(zones))
      ensures Tallied(old(faults), o == Raised(Unavailable))
    {
      n := 0;
      if id in zones {
        zones := zones[id := zones[id].(name := name)];
        n := 1;
      }
      o := Finish(false);
    }

    /** Deletes the zone, and its rules by cascade, row by row. */
    method DeleteZoneRow(id: Id) returns (o: Outcome)
      modifies this`zones, this`rules, this`faults
      ensures o == Raised(Unavailable) ||
              (zones == old(zones) - {id} && rules == WithoutZone(old(rules), id) && o == Verdict(View(), false))
      ensures Tallied(old(faults), o == Raised(Unavailable))
    {
      zones := zones - {id};
      var all := rules;
      rules := [];
      for i := 0 to |all|
        invariant faults == old(faults)
        invariant rules == WithoutZone(all[..i], id) && zones == old(zones) - {id}
      {
        assert all[..i + 1][..i] == all[..i];
        if all[i].zone != Some(id) {
          rules := rules + [all[i]];
        }
      }
      assert all[..|all|] == all;
      o := Finish(false);
    }

    method ClearDefault() returns (o: Outcome)
      modifies this`zones, this`faults
      ensures o == Raised(Unavailable) || (zones == Undefaulted(old(zones)) && o == Verdict(View(), false))
      ensures Tallied(old(faults), o == Raised(Unavailable))
    {
      zones := Undefaulted(zones);
      o := Finish(false);
    }

    method SetDefaultFlag(id: Id) returns (o: Outcome, n: nat)
      modifies this`zones, this`faults
      ensures o == Raised(Unavailable) ||
              (&& o == Verdict(View(), false)
               && if id in old(zones) then n == 1 && zones == old(zones)[id := old(zones)[id].(isDefault := true)]
                  else n == 0 && zones == old(zones))
      ensures Tallied(old(faults), o == Raised(Unavailable))
    {
      n := 0;
      if id in zones {
        zones := zones[id := zones[id].(isDefault := true)];
        n := 1;
      }
      o := Finish(false);
    }

    method DeleteAssignmentsTo(zone: Id) returns (o: Outcome)
      modifies this`assigns, this`faults
      ensures o == Raised(Unavailable) || (assigns == Unassigned(old(assigns), zone) && o == Verdict(View(), false))
      ensures Tallied(old(faults), o == Raised(Unavailable))
    {
      assigns := map w | w in assigns && assigns[w] != zone :: assigns[w];
      o := Finish(false);
    }

    method DeleteAssignment(ws: Id) returns (o: Outcome)
      modifies this`assigns, this`faults
      ensures o == Raised(Unavailable) || (assigns == old(assigns) - {ws} && o == Verdict(View(), false))
      ensures Tallied(old(faults), o == Raised(Unavailable))
    {
      assigns := assigns - {ws};
      o := Finish(false);
    }

    method UpsertAssignment(ws: Id, zone: Id) returns (o: Outcome)
      modifies this`assigns, this`faults
      ensures o == Raised(Unavailable) || (assigns == old(assigns)[ws := zone] && o == Verdict(View(), false))
      ensures Tallied(old(faults), o == Raised(Unavailable))
    {
      assigns := assigns[ws := zone];
      o := Finish(false);
    }

    method InsertRule(zone: Option<Id>, workspace: Option<Id>, rule: Rule, expires: Option<int>, createdBy: string)
      returns (o: Outcome)
      modifies this`rules, this`nextRule, this`faults
      ensures o == Raised(Unavailable) ||
              (&& rules == old(rules) + [RuleRow(old(nextRule), zone, workspace, rule, expires, createdBy)]
               && nextRule == old(nextRule) + 1 && o == Verdict(View(), false))
      ensures Tallied(old(faults), o == Raised(Unavailable))
    {
      rules := rules + [RuleRow(nextRule, zone, workspace, rule, expires, createdBy)];
      nextRule := nextRule + 1;
      o := Finish(false);
    }

    /** INSERT ... SELECT: the rows selected before the first insert, each copied under `to`. */
    method CopyRules(from: Id, to: Id, actor: string) returns (o: Outcome)
      modifies this`rules, this`nextRule, this`faults
      ensures o == Raised(Unavailable) ||
              var copies := ZoneCopies(old(rules), from, to, actor, old(nextRule));
              rules == old(rules) + copies && nextRule == old(nextRule) + |copies| && o == Verdict(View(), false)
      ensures Tallied(old(faults), o == Raised(Unavailable))
    {
      var selected := rules;
      for i := 0 to |selected|
        invariant faults == old(faults)
        invariant var copies := ZoneCopies(selected[..i], from, to, actor, old(nextRule));
                  rules == selected + copies && nextRule == old(nextRule) + |copies|
      {
        assert selected[..i + 1][..i] == selected[..i];
        if selected[i].zone == Some(from) {
          rules := rules + [RuleRow(nextRule, Some(to), None, selected[i].rule, None, actor)];
          nextRule := nextRule + 1;
        }
      }
      assert selected[..|selected|] == selected;
      o := Finish(false);
    }

    /** Deletes every row with this id and returns the last of them. */
    method DeleteRuleRow(ruleId: nat) returns (o: Outcome, row: Option<RuleRow>)
      requires Pairwise(rules)
      modifies this`rules, this`faults
      ensures o == Raised(Unavailable) ||
              (&& o == Verdict(View(), false)
               && var i := RowIndex(old(rules), ruleId);
                  if i == |old(rules)| then row == None && rules == old(rules)
                  else row == Some(old(rules)[i]) && rules == old(rules)[..i] + old(rules)[i + 1..])
      ensures Tallied(old(faults), o == Raised(Unavailable))
    {
      var kept;
      kept, row := ScanFor(rules, ruleId);
      rules := kept;
      o := Finish(false);
    }

    /** The scan; ids being unique, the row it finds is the first with this id. */
    static method ScanFor(all: seq<RuleRow>, ruleId: nat) returns (kept: seq<RuleRow>, row: Option<RuleRow>)
      requires Pairwise(all)
      ensures var at := RowIndex(all, ruleId);
              if at == |all| then kept == all && row == None
              else kept == all[..at] + all[at + 1..] && row == Some(all[at])
    {
      ghost var at := RowIndex(all, ruleId);
      assert forall k :: at < k < |all| ==> Apart(all[at], all[k]);
      kept, row := [], None;
      for i := 0 to |all|
        invariant if i <= at then kept == all[..i] && row == None
                  else kept == all[..at] + all[at + 1..i] && row == Some(all[at])
      {
        assert i < at ==> all[..i + 1] == all[..i] + [all[i]];
        assert i > at ==> all[at + 1..i + 1] == all[at + 1..i] + [all[i]];
        if all[i].id == ruleId {
          row := Some(all[i]);
        } else {
          kept := kept + [all[i]];
        }
      }
    }

    /** Deletes the grants that are due and returns them, in one scan. */
    method DeleteExpired(now: int) returns (o: Outcome, gone: seq<RuleRow>)
      modifies this`rules, this`faults
      ensures o == Raised(Unavailable) ||
              (rules == WithoutExpired(old(rules), now) && gone == ExpiredRows(old(rules), now) &&
               o == Verdict(View(), false))
      ensures Tallied(old(faults), o == Raised(Unavailable))
    {
      var all := rules;
      rules, gone := [], [];
      for i := 0 to |all|
        invariant faults == old(faults)
        invariant rules == WithoutExpired(all[..i], now) && gone == ExpiredRows(all[..i], now)
      {
        assert all[..i + 1][..i] == all[..i];
        if HasExpired(all[i], now) {
          gone := gone + [all[i]];
        } else {
          rules := rules + [all[i]];
        }
      }
      assert all[..|all|] == all;
      o := Finish(false);
    }

    method InsertRequest(id: Id, q: RequestRow) returns (o: Outcome)
      modifies this`requests, this`faults
      ensures o == Raised(Unavailable) ||
              (requests == old(requests)[id := q] && o == Verdict(View(), id in old(requests)))
      ensures Tallied(old(faults), o == Raised(Unavailable))
    {
      var duplicate := id in requests;
      requests := requests[id := q];
      o := Finish(duplicate);
    }

    /** Updates the request if it is pending, and returns it as it then is. */
    method UpdateRequest(now: int, actor: string, id: Id, status: Status, ttl: Option<int>)
      returns (o: Outcome, q: Option<RequestRow>)
      modifies this`requests, this`faults
      ensures o == Raised(Unavailable) ||
              (&& o == Verdict(View(), false)
               && if id in old(requests) && old(requests)[id].status == Pending then
                    && q == Some(old(requests)[id].(status := status, decidedBy := Some(actor), decidedAt := Some(now),
                                                    ttl := ttl))
                    && requests == old(requests)[id := q.value]
                  else q == None && requests == old(requests))
      ensures Tallied(old(faults), o == Raised(Unavailable))
    {
      q := None;
      if id in requests && requests[id].status == Pending {
        q := Some(requests[id].(status := status, decidedBy := Some(actor), decidedAt := Some(now), ttl := ttl));
        requests := requests[id := q.value];
      }
      o := Finish(false);
    }

    // ---- Zones -------------------------------------------------------------

    method SeedDefault(now: int, id: Id) returns (r: Reply)
      requires Inv(View())
      modifies this
      ensures Carries(View(), r, Seed(old(View()), now, id))
      ensures Tallied(old(faults), r == Err(Unavailable))
    {
      r := Ok;
      :- Query();
      if |zones| > 0 {
        return;
      }
      SeedingFits(View(), now, id);
      :- InsertZone(id, ZoneRow("default", true));
      :- InsertSeedRules(id);
      :- Audit(now, "bootstrap", Seeded(id));
    }

    method InsertSeedRules(id: Id) returns (o: Outcome)
      requires Inv(View()) && id in zones && forall r :: r in rules ==> r.zone.None?
      modifies this`rules, this`nextRule, this`faults
      ensures o == Raised(Unavailable) || o == Done
      ensures o.Done? ==> View() == Seeding(old(View()), id, 2)
      ensures Tallied(old(faults), o == Raised(Unavailable))
    {
      o := Done;
      ghost var before := View();
      for i := 0 to |SEED_RULES|
        invariant faults == old(faults)
        invariant o == Done && View() == Seeding(before, id, i) && Inv(View())
      {
        SeedRuleFits(before, id, i);
        o := InsertRule(Some(id), None, SEED_RULES[i], None, "bootstrap");
        if o.Raised? {
          return;
        }
      }
    }

    method AddZone(now: int, actor: string, id: Id, name: string) returns (r: Reply)
      requires Inv(View())
      modifies this
      ensures Carries(View(), r, CreateZone(old(View()), now, actor, id, name))
      ensures Tallied(old(faults), r == Err(Unavailable))
    {
      ZoneInserted(View(), id, name);
      :- InsertZone(id, ZoneRow(name, false));
      :- Audit(now, actor, ZoneCreated(id, name));
      r := OkId(id);
    }

    method CopyZone(now: int, actor: string, src: Id, id: Id, name: string) returns (r: Reply)
      requires Inv(View())
      modifies this
      ensures Carries(View(), r, CloneZone(old(View()), now, actor, src, id, name))
      ensures Tallied(old(faults), r == Err(Unavailable))
    {
      ghost var s := View();
      ZoneInserted(s, id, name);
      :- Query();
      if src !in zones {
        return Err(NotFound);
      }
      :- InsertZone(id, ZoneRow(name, false));
      CopiesFit(s, actor, src, id, name);
      :- CopyRules(src, id, actor);
      :- Audit(now, actor, ZoneCloned(id, src, name));
      r := OkId(id);
    }

    method SetZoneName(now: int, actor: string, id: Id, name: string) returns (r: Reply)
      requires Inv(View())
      modifies this
      ensures Carries(View(), r, RenameZone(old(View()), now, actor, id, name))
      ensures Tallied(old(faults), r == Err(Unavailable))
    {
      InvMeets(View());
      if id in zones { ZoneWritten(View(), id, zones[id].(name := name), false); }
      var n :- UpdateZoneName(id, name);
      if n == 0 {
        return Err(NotFound);
      }
      :- Audit(now, actor, ZoneRenamed(id, name));
      r := Ok;
    }

    method RemoveZone(now: int, actor: string, id: Id) returns (r: Reply)
      requires Inv(View())
      modifies this
      ensures Carries(View(), r, DeleteZone(old(View()), now, actor, id))
      ensures Tallied(old(faults), r == Err(Unavailable))
    {
      DeleteZoneKeeps(View(), now, actor, id);
      InvMeets(DeleteZone(View(), now, actor, id).0);
      :- Query();
      if id !in zones {
        return Err(NotFound);
      }
      var isDefault, inUse := zones[id].isDefault, id in assigns.Values;
      if isDefault || inUse {
        return Err(Conflict);
      }
      :- DeleteZoneRow(id);
      :- Audit(now, actor, ZoneDeleted(id));
      r := Ok;
    }

    /** Clears every flag before it knows whether the new default exists. */
    method MakeDefault(now: int, actor: string, id: Id) returns (r: Reply)
      requires Inv(View())
      modifies this
      ensures Carries(View(), r, SetDefaultZone(old(View()), now, actor, id))
      ensures Tallied(old(faults), r == Err(Unavailable))
    {
      DefaultMoved(View(), id);
      :- ClearDefault();
      var n :- SetDefaultFlag(id);
      if n == 0 {
        return Err(NotFound);
      }
      :- DeleteAssignmentsTo(id);
      :- Audit(now, actor, DefaultSet(id));
      r := Ok;
    }

    // ---- Rules, assignments, grants ----------------------------------------

    method AddRule(now: int, actor: string, zone: Id, rule: Rule) returns (r: Reply)
      requires Inv(View())
      modifies this
      ensures Carries(View(), r, AddZoneRule(old(View()), now, actor, zone, rule))
      ensures Tallied(old(faults), r == Err(Unavailable))
    {
      if !ValidRule(rule) {
        return Err(Invalid);
      }
      RowInserted(View(), RuleRow(nextRule, Some(zone), None, rule, None, actor));
      :- InsertRule(Some(zone), None, rule, None, actor);
      :- Audit(now, actor, RuleAdded(zone, rule));
      r := Ok;
    }

    method RemoveRule(now: int, actor: string, ruleId: nat) returns (r: Reply)
      requires Inv(View())
      modifies this
      ensures Carries(View(), r, DeleteRule(old(View()), now, actor, ruleId))
      ensures Tallied(old(faults), r == Err(Unavailable))
    {
      DeleteRuleKeeps(View(), now, actor, ruleId);
      InvMeets(DeleteRule(View(), now, actor, ruleId).0);
      var row :- DeleteRuleRow(ruleId);
      if row.None? {
        return Err(NotFound);
      }
      :- Audit(now, actor, RuleDeleted(row.value.zone, row.value.workspace, row.value.rule));
      r := Ok;
    }

    method AssignZone(now: int, actor: string, ws: Id, zone: Id) returns (r: Reply)
      requires Inv(View())
      modifies this
      ensures Carries(View(), r, Assign(old(View()), now, actor, ws, zone))
      ensures Tallied(old(faults), r == Err(Unavailable))
    {
      AssignKeeps(View(), now, actor, ws, zone);
      InvMeets(Assign(View(), now, actor, ws, zone).0);
      :- Query();
      if zone !in zones {
        return Err(NotFound);
      }
      var o;
      if zones[zone].isDefault {
        o := DeleteAssignment(ws);
      } else {
        o := UpsertAssignment(ws, zone);
      }
      :- o;
      :- Audit(now, actor, Assigned(ws, zone));
      r := Ok;
    }

    method AddGrant(now: int, actor: string, ws: Id, rule: Rule, ttl: int) returns (r: Reply)
      requires Inv(View())
      modifies this
      ensures Carries(View(), r, Grant(old(View()), now, actor, ws, rule, ttl))
      ensures Tallied(old(faults), r == Err(Unavailable))
    {
      InvMeets(View());
      r := InsertGrant(now, actor, ws, rule, ttl, Granted(ws, rule, ttl));
    }

    /** What a grant by hand and an approval share. */
    method InsertGrant(now: int, actor: string, ws: Id, rule: Rule, ttl: int, e: Event) returns (r: Reply)
      requires Meets(View()) && forall x :: x in rules ==> x.id < nextRule
      modifies this
      ensures r == Err(Unavailable) ||
              if !ValidRule(rule) || ttl <= 0 then r == Err(Invalid)
              else r == Ok && View() == WithGrant(old(View()), now, actor, ws, rule, ttl, e)
      ensures Tallied(old(faults), r == Err(Unavailable))
    {
      if !ValidRule(rule) || ttl <= 0 {
        return Err(Invalid);
      }
      RuleAppended(View(), GrantRow(View(), now, actor, ws, rule, ttl));
      :- InsertRule(None, Some(ws), rule, Some(now + ttl), actor);
      :- Audit(now, actor, e);
      r := Ok;
    }

    method ExpireDue(now: int) returns (r: Reply)
      requires Inv(View())
      modifies this
      ensures Carries(View(), r, ExpireGrants(old(View()), now))
      ensures Tallied(old(faults), r == Err(Unavailable))
    {
      ExpireGrantsKeeps(View(), now);
      InvMeets(ExpireGrants(View(), now).0);
      var gone :- DeleteExpired(now);
      :- AuditExpired(now, gone);
      r := OkCount(|gone|);
    }

    method AuditExpired(now: int, gone: seq<RuleRow>) returns (o: Outcome)
      requires forall r :: r in gone ==> r.workspace.Some?
      modifies this`log, this`faults
      ensures o == Raised(Unavailable) || o == Done
      ensures o.Done? ==> log == old(log) + ExpiryRows(gone, now)
      ensures Tallied(old(faults), o == Raised(Unavailable))
    {
      o := Done;
      for i := 0 to |gone|
        invariant faults == old(faults)
        invariant o == Done && log == old(log) + ExpiryRows(gone[..i], now)
      {
        assert gone[..i + 1][..i] == gone[..i];
        o := Audit(now, "system", GrantExpired(gone[i].workspace.value, gone[i].rule));
        if o.Raised? {
          return;
        }
      }
      assert gone[..|gone|] == gone;
    }

    method Note(now: int, action: string) returns (r: Reply)
      modifies this
      ensures Carries(View(), r, AuditSystem(old(View()), now, action))
      ensures Tallied(old(faults), r == Err(Unavailable))
    {
      r := Ok;
      :- Audit(now, "system", SystemNote(action));
    }

    // ---- Requests ----------------------------------------------------------

    /** The SELECT may pick any matching row; in a valid database there is at most one. */
    method File(now: int, actor: string, id: Id, ws: Id, host: string, port: int, justification: string)
      returns (r: Reply)
      requires Inv(View())
      modifies this
      ensures Carries(View(), r, FileRequest(old(View()), now, actor, id, ws, host, port, justification))
      ensures Tallied(old(faults), r == Err(Unavailable))
    {
      if !ValidRule(HostRule(host, port)) {
        return Err(Invalid);
      }
      :- Query();
      var same := set q | q in requests && IsPending(requests[q], ws, host, port);
      if same != {} {
        var q :| q in same;
        assert PendingAs(View(), q, ws, host, port);
        assert forall p :: PendingAs(View(), p, ws, host, port) ==> SamePending(requests[p], requests[q]);
        return OkId(q);
      }
      assert forall p :: PendingAs(View(), p, ws, host, port) ==> p in same;
      var row := RequestRow(ws, host, port, justification, actor, Pending, None, None, None);
      InvMeets(View());
      RequestWritten(View(), id, row, id in requests);
      :- InsertRequest(id, row);
      :- Audit(now, actor, Requested(id, ws, host, port));
      r := OkId(id);
    }

    /** The status is updated before the grant is validated. */
    method Settle(now: int, actor: string, id: Id, approve: bool, ttl: int) returns (r: Reply)
      requires Inv(View())
      modifies this
      ensures Carries(View(), r, Decide(old(View()), now, actor, id, approve, ttl))
      ensures Tallied(old(faults), r == Err(Unavailable))
    {
      InvMeets(View());
      var status, time := if approve then Approved else Denied, if approve then Some(ttl) else None;
      if id in requests {
        RequestWritten(View(), id,
                       requests[id].(status := status, decidedBy := Some(actor), decidedAt := Some(now), ttl := time),
                       false);
      }
      var q :- UpdateRequest(now, actor, id, status, time);
      if q.None? {
        return Err(Conflict);
      }
      var self := actor == q.value.requester;
      if !approve {
        r := Ok;
        :- Audit(now, actor, RequestDenied(id, self));
        return;
      }
      var rule := HostRule(q.value.host, q.value.port);
      r := InsertGrant(now, actor, q.value.workspace, rule, ttl,
                       RequestApproved(id, self, q.value.workspace, rule, ttl));
    }

    // ---- Loading -----------------------------------------------------------

    /** Three queries, each of which may break off before its last row. */
    method Load(now: int, pods: seq<Workspace>) returns (input: Option<Input>)
      requires Inv(View())
      modifies this`faults
      ensures Tallied(old(faults), input.None?)
      ensures input.Some? ==> input.value == PolicyInput(View(), now, pods)
    {
      var o := Query();
      if o.Raised? {
        return None;
      }
      var def := FindDefault();
      o := Query();
      if o.Raised? {
        return None;
      }
      var rows := Selected(rules, now);
      forall r | r in rows ensures RowOk(zones, nextRule, r) { assert r in rules; }
      var zoneRules, grants := Distribute(rows);
      o := Query();
      if o.Raised? {
        return None;
      }
      input := Some(Input(def, zoneRules, assigns, grants, pods));
    }

    method FindDefault() returns (def: Id)
      requires Inv(View())
      ensures def == DefaultZone(zones)
    {
      def := "";
      var todo := zones.Keys;
      while todo != {}
        invariant todo <= zones.Keys
        invariant forall z :: IsDefault(zones, z) && z !in todo ==> def == z
        invariant def == "" || IsDefault(zones, def)
        decreases |todo|
      {
        var z :| z in todo;
        todo := todo - {z};
        if zones[z].isDefault {
          assert IsDefault(zones, z);
          def := z;
        }
      }
    }

    /** The loop over the rule rows: each is appended to its zone's or its workspace's list. */
    method Distribute(rows: seq<RuleRow>) returns (zoneRules: map<Id, seq<Rule>>, grants: map<Id, seq<Rule>>)
      requires forall r :: r in rows ==> RowOk(zones, nextRule, r)
      ensures zoneRules == ZoneTable(zones, rows) && grants == GrantTable(rows)
    {
      zoneRules := map z | z in zones :: [];
      grants := map[];
      for i := 0 to |rows|
        invariant zoneRules == ZoneTable(zones, rows[..i]) && grants == GrantTable(rows[..i])
      {
        var r := rows[i];
        assert RowOk(zones, nextRule, r) && rows[..i + 1] == rows[..i] + [r];
        ZoneTableGrows(zones, rows[..i], r);
        GrantTableGrows(rows[..i], r);
        if r.zone.Some? {
          zoneRules := zoneRules[r.zone.value := zoneRules[r.zone.value] + [r.rule]];
        } else {
          var w := r.workspace.value;
          grants := grants[w := Lookup(grants, w) + [r.rule]];
        }
      }
      assert rows[..|rows|] == rows;
    }
  }

  lemma {:induction false} ListsGrow(rows: seq<RuleRow>, r: RuleRow)
    ensures forall z :: ZoneList(rows + [r], z) == ZoneList(rows, z) + if OfZone(r, z) then [r.rule] else []
    ensures forall w :: GrantList(rows + [r], w) == GrantList(rows, w) + if OfWorkspace(r, w) then [r.rule] else []
    ensures Holders(rows + [r]) == Holders(rows) + if r.zone.None? && r.workspace.Some? then {r.workspace.value} else {}
    ensures forall w :: w !in Holders(rows) ==> GrantList(rows, w) == []
  {
    assert (rows + [r])[..|rows|] == rows;
    forall w | w !in Holders(rows) ensures GrantList(rows, w) == [] {
      assert Elements(GrantList(rows, w)) == {};
      NoElements(GrantList(rows, w));
    }
  }

  lemma ZoneTableGrows(zones: map<Id, ZoneRow>, rows: seq<RuleRow>, r: RuleRow)
    requires r.zone.Some? ==> r.zone.value in zones
    ensures ZoneTable(zones, rows + [r]) ==
            if r.zone.None? then ZoneTable(zones, rows)
            else ZoneTable(zones, rows)[r.zone.value := ZoneTable(zones, rows)[r.zone.value] + [r.rule]]
  {
    ListsGrow(rows, r);
  }

  lemma GrantTableGrows(rows: seq<RuleRow>, r: RuleRow)
    requires r.zone.Some? != r.workspace.Some?
    ensures GrantTable(rows + [r]) ==
            if r.zone.Some? then GrantTable(rows)
            else GrantTable(rows)[r.workspace.value := Lookup(GrantTable(rows), r.workspace.value) + [r.rule]]
  {
    ListsGrow(rows, r);
  }

  // ---- Every run under failures --------------------------------------------

  /** A run of calls: each does what a call may do. */
  ghost predicate IsRun(states: seq<State>, txs: seq<Tx>, replies: seq<Reply>) {
    && |states| == |txs| + 1 && |replies| == |txs|
    && forall i :: 0 <= i < |txs| ==> Transacts(states[i], states[i + 1], txs[i], replies[i])
  }

  function Keep(kept: seq<Tx>, tx: Tx, r: Reply): seq<Tx> {
    if r == Err(Unavailable) then kept else kept + [tx]
  }

  /** The calls among the first `n` that did not break off. */
  function Kept(txs: seq<Tx>, replies: seq<Reply>, n: nat): seq<Tx>
    requires n <= |txs| == |replies|
  {
    if n == 0 then [] else Keep(Kept(txs, replies, n - 1), txs[n - 1], replies[n - 1])
  }

  lemma {:induction false} CallExtends(start: State, kept: seq<Tx>, s: State, s': State, tx: Tx, r: Reply)
    requires s == After(start, kept) && Transacts(s, s', tx, r)
    ensures s' == After(start, Keep(kept, tx, r))
  {
    if Step(s, tx.op, tx.at).1.Err? { ErringStep(s, tx.op, tx.at); }
    assert (kept + [tx])[..|kept|] == kept;
  }

  /** Whatever breaks, and whenever: the database is where the calls that did not break off,
      run one after the other without any failure, would have taken it. */
  lemma {:induction false} FailuresLeaveNoTrace(states: seq<State>, txs: seq<Tx>, replies: seq<Reply>, n: nat)
    requires IsRun(states, txs, replies) && n <= |txs|
    ensures states[n] == After(states[0], Kept(txs, replies, n))
  {
    if n > 0 {
      FailuresLeaveNoTrace(states, txs, replies, n - 1);
      CallExtends(states[0], Kept(txs, replies, n - 1), states[n - 1], states[n], txs[n - 1], replies[n - 1]);
    }
  }

  /** In every run from the empty database, under arbitrary failures, the tables keep their
      invariant and the log alone rebuilds them. */
  lemma FaultyRunKeeps(states: seq<State>, txs: seq<Tx>, replies: seq<Reply>, n: nat)
    requires IsRun(states, txs, replies) && states[0] == EMPTY && n <= |txs|
    ensures Inv(states[n]) && Replay.ReplayLog(states[n].log) == Replay.ViewOf(states[n])
  {
    FailuresLeaveNoTrace(states, txs, replies, n);
    RunKeeps(Kept(txs, replies, n));
    Replay.LogRebuildsState(Kept(txs, replies, n));
  }
}
