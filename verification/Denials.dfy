/** The denials table: a throttled upsert and a cap of 200 rows per workspace. */
module Denials {
  import opened Text
  import opened Names

  /** Times are microseconds. */
  const SECOND := 1000000
  const CAP := 200

  datatype Key = Key(workspace: string, host: string, port: int)
  datatype Row = Row(count: int, first: int, last: int)
  type Table = map<Key, Row>

  function KeysOf(t: Table, ws: string): set<Key> {
    set k | k in t && k.workspace == ws
  }

  /** The order of the capping query: last seen first, then by host; rows equal in both come
      in any order. */
  predicate Ahead(t: Table, a: Key, b: Key)
    requires a in t && b in t
  {
    t[a].last > t[b].last || (t[a].last == t[b].last && Less(a.host, b.host))
  }

  lemma AheadTransitive(t: Table, a: Key, b: Key, c: Key)
    requires a in t && b in t && c in t && Ahead(t, a, b) && Ahead(t, b, c)
    ensures Ahead(t, a, c)
  {
    if t[a].last == t[b].last == t[c].last { LessTransitive(a.host, b.host, c.host); }
  }

  /** `t'` is `t` without the rows of `ws` that come after the first 200 in that order. */
  ghost predicate Capped(t: Table, t': Table, ws: string) {
    && (forall k :: k in t' ==> k in t && t'[k] == t[k])
    && (forall k :: k in t && k.workspace != ws ==> k in t')
    && |KeysOf(t', ws)| == (if |KeysOf(t, ws)| <= CAP then |KeysOf(t, ws)| else CAP)
    && (forall k, g :: k in t' && k.workspace == ws && g in t && g !in t' ==> !Ahead(t, g, k))
  }

  function Inserted(t: Table, k: Key, now: int): Table {
    t[k := Row(1, now, now)]
  }

  /** What RecordDenial may do to the table; ties leave the capping a choice. */
  ghost predicate Recorded(t: Table, t': Table, k: Key, now: int) {
    if k in t then
      t' == if t[k].last < now - SECOND then t[k := t[k].(count := t[k].count + 1, last := now)] else t
    else
      Capped(Inserted(t, k, now), t', k.workspace)
  }

  class Denials {
    var table: Table

    method RecordDenial(k: Key, now: int)
      modifies this
      ensures Recorded(old(table), table, k, now)
    {
      if k in table {
        if table[k].last < now - SECOND {
          table := table[k := table[k].(count := table[k].count + 1, last := now)];
        }
        return;
      }
      table := table[k := Row(1, now, now)];
      EnforceCap(k.workspace);
    }

    method EnforceCap(ws: string)
      modifies this
      ensures Capped(old(table), table, ws)
    {
      ghost var t0 := table;
      var keys := KeysOf(table, ws);
      while |keys| > CAP
        invariant keys == KeysOf(table, ws) <= KeysOf(t0, ws)
        invariant |keys| >= (if |KeysOf(t0, ws)| <= CAP then |KeysOf(t0, ws)| else CAP)
        invariant |KeysOf(t0, ws)| <= CAP ==> keys == KeysOf(t0, ws)
        invariant forall k :: k in table ==> k in t0 && table[k] == t0[k]
        invariant forall k :: k in t0 && k.workspace != ws ==> k in table
        invariant forall k, g :: k in table && k.workspace == ws && g in t0 && g !in table ==> !Ahead(t0, g, k)
        decreases |keys|
      {
        var g := Hindmost(table, keys);
        forall k | k in keys ensures !Ahead(t0, g, k) { assert !Ahead(table, g, k); }
        table := table - {g};
        keys := keys - {g};
      }
    }
  }

  /** A row that is ahead of none of the others. */
  method Hindmost(t: Table, keys: set<Key>) returns (g: Key)
    requires keys != {} && forall k :: k in keys ==> k in t
    ensures g in keys && forall k :: k in keys ==> !Ahead(t, g, k)
  {
    g :| g in keys;
    var todo := keys - {g};
    LessIrreflexive(g.host);
    while todo != {}
      invariant todo <= keys && g in keys
      invariant forall k :: k in keys && k !in todo ==> !Ahead(t, g, k)
      decreases |todo|
    {
      var x :| x in todo;
      todo := todo - {x};
      if Ahead(t, g, x) {
        forall k | k in keys && k !in todo ensures !Ahead(t, x, k) {
          if Ahead(t, x, k) {
            if k == x { LessIrreflexive(x.host); } else { AheadTransitive(t, g, x, k); }
          }
        }
        g := x;
      }
    }
  }

  // ---- Every run -----------------------------------------------------------

  predicate RowOk(r: Row, now: int) {
    r.count >= 1 && r.first <= r.last <= now && r.last - r.first >= (r.count - 1) * SECOND
  }

  ghost predicate TableOk(t: Table, now: int) {
    (forall ws :: |KeysOf(t, ws)| <= CAP) && forall k :: k in t ==> RowOk(t[k], now)
  }

  lemma RecordKeeps(t: Table, t': Table, k: Key, before: int, now: int)
    requires TableOk(t, before) && before <= now && Recorded(t, t', k, now)
    ensures TableOk(t', now)
  {
    if k in t {
      forall ws ensures |KeysOf(t', ws)| <= CAP { assert KeysOf(t', ws) == KeysOf(t, ws); }
      forall x | x in t' ensures RowOk(t'[x], now) { assert RowOk(t[x], before); }
    } else {
      var t1 := Inserted(t, k, now);
      forall ws ensures |KeysOf(t', ws)| <= CAP {
        if ws != k.workspace { assert KeysOf(t', ws) == KeysOf(t1, ws) == KeysOf(t, ws); }
      }
      forall x | x in t' ensures RowOk(t'[x], now) {
        if x != k { assert RowOk(t[x], before); }
      }
    }
  }

  datatype Call = Call(key: Key, at: int)

  /** A run: tables[i + 1] results from calls[i], and the clock never goes back. */
  ghost predicate IsRun(tables: seq<Table>, calls: seq<Call>) {
    && |tables| == |calls| + 1 && tables[0] == map[]
    && (forall i :: 0 <= i < |calls| ==> CallAt(tables, calls, i))
  }

  ghost predicate CallAt(tables: seq<Table>, calls: seq<Call>, i: nat)
    requires i < |calls| < |tables|
  {
    && Recorded(tables[i], tables[i + 1], calls[i].key, calls[i].at)
    && (i > 0 ==> calls[i - 1].at <= calls[i].at)
  }

  lemma EmptyOk(now: int)
    ensures TableOk(map[], now)
  {
    forall ws ensures |KeysOf(map[], ws)| <= CAP { assert KeysOf(map[], ws) == {}; }
  }

  /** In every run each workspace holds at most 200 rows, and a row's count never outruns the
      seconds between its first and last sighting. */
  lemma {:induction false} RunBounds(tables: seq<Table>, calls: seq<Call>, n: nat)
    requires IsRun(tables, calls) && 0 < n <= |calls|
    ensures TableOk(tables[n], calls[n - 1].at)
    ensures forall ws :: |KeysOf(tables[n], ws)| <= 200
    ensures forall k :: k in tables[n] ==> (tables[n][k].count - 1) * 1000000 <= tables[n][k].last - tables[n][k].first
  {
    var c := calls[n - 1];
    if n == 1 {
      EmptyOk(c.at);
      CallKeeps(tables, calls, 0, c.at);
    } else {
      RunBounds(tables, calls, n - 1);
      assert CallAt(tables, calls, n - 1);
      CallKeeps(tables, calls, n - 1, calls[n - 2].at);
    }
  }

  lemma CallKeeps(tables: seq<Table>, calls: seq<Call>, i: nat, before: int)
    requires IsRun(tables, calls) && i < |calls| && TableOk(tables[i], before) && before <= calls[i].at
    ensures TableOk(tables[i + 1], calls[i].at)
  {
    assert CallAt(tables, calls, i);
    RecordKeeps(tables[i], tables[i + 1], calls[i].key, before, calls[i].at);
  }

  /** What a repeated denial does: more than a second after the last one it is counted, and
      before that it is not. Nothing else changes. */
  lemma RepeatIsCounted(t: Table, t': Table, k: Key, now: int)
    requires k in t && Recorded(t, t', k, now)
    ensures now - t[k].last > 1000000 ==> t' == t[k := Row(t[k].count + 1, t[k].first, now)]
    ensures now - t[k].last <= 1000000 ==> t' == t
  {
  }

  /** One workspace's flood never touches another's rows, and no row, the one being recorded
      included, is dropped for the sake of an older one: what stays are the newest. */
  lemma EvictionIsFair(t: Table, t': Table, k: Key, now: int, gone: Key)
    requires Recorded(t, t', k, now) && gone in Inserted(t, k, now) && gone !in t'
    ensures k !in t && gone.workspace == k.workspace
    ensures forall x :: x in t' && x.workspace == k.workspace ==> t'[x].last >= Inserted(t, k, now)[gone].last
  {
    var t1 := Inserted(t, k, now);
    assert k !in t;
    forall x | x in t' && x.workspace == k.workspace ensures t'[x].last >= t1[gone].last {
      assert !Ahead(t1, gone, x);
    }
  }

  /** Inserting adds one row; capping takes at most one away again. */
  lemma RowCounts(t: Table, t': Table, k: Key, now: int)
    requires k !in t && |KeysOf(t, k.workspace)| <= CAP && Recorded(t, t', k, now)
    ensures var all, kept := KeysOf(Inserted(t, k, now), k.workspace), KeysOf(t', k.workspace);
            && all == KeysOf(t, k.workspace) + {k} && kept <= all
            && |all - kept| == if |KeysOf(t, k.workspace)| == CAP then 1 else 0
  {
    var ws, t1 := k.workspace, Inserted(t, k, now);
    var all, kept := KeysOf(t1, ws), KeysOf(t', ws);
    assert all == KeysOf(t, ws) + {k};
    assert kept <= all;
    assert |all - kept| == |all| - |kept|;
  }

  /** No row of the workspace comes after the one being recorded. */
  predicate ComesLast(t: Table, k: Key, now: int) {
    forall x :: x in KeysOf(t, k.workspace) ==> !Ahead(Inserted(t, k, now), k, x)
  }

  /** The capping may drop the very row being recorded: exactly when the workspace is at its
      cap and no row of it comes after the new one in the query's order. */
  lemma NewRowMayGo(t: Table, k: Key, now: int)
    requires k !in t && |KeysOf(t, k.workspace)| <= 200
    ensures (exists t' :: Recorded(t, t', k, now) && k !in t') <==>
            |KeysOf(t, k.workspace)| == 200 && ComesLast(t, k, now)
  {
    var ws, t1 := k.workspace, Inserted(t, k, now);
    if t' :| Recorded(t, t', k, now) && k !in t' {
      RowCounts(t, t', k, now);
      var gone := KeysOf(t1, ws) - KeysOf(t', ws);
      assert k in gone;
      forall x | x in KeysOf(t, ws) ensures !Ahead(t1, k, x) {
        Singleton(gone, k, x);
        assert x in KeysOf(t1, ws);
      }
    }
    if |KeysOf(t, ws)| == CAP && ComesLast(t, k, now) {
      assert KeysOf(t1, ws) == KeysOf(t, ws) + {k};
      forall x | x in t && x.workspace == ws ensures !Ahead(t1, k, x) { assert x in KeysOf(t, ws); }
      assert Recorded(t, t, k, now);
    }
  }

  // ---- A run that drops the row it records ---------------------------------

  function PortKey(port: int): Key {
    Key("w", "a.io", port)
  }

  function PortKeys(n: nat): set<Key> {
    set i | 0 <= i < n :: PortKey(i)
  }

  /** The table after one denial at time 0 on each of the ports below n. */
  function Filled(n: nat): Table {
    map x | x in PortKeys(n) :: Row(1, 0, 0)
  }

  const LATE := Key("w", "b.io", 80)

  lemma {:induction false} FilledKeys(n: nat)
    ensures KeysOf(Filled(n), "w") == PortKeys(n) && |PortKeys(n)| == n
  {
    if n > 0 {
      FilledKeys(n - 1);
      assert PortKeys(n) == PortKeys(n - 1) + {PortKey(n - 1)};
    }
  }

  lemma {:induction false} FillStep(n: nat)
    requires n < CAP
    ensures Recorded(Filled(n), Filled(n + 1), PortKey(n), 0)
  {
    FilledKeys(n + 1);
    assert PortKeys(n + 1) == PortKeys(n) + {PortKey(n)};
    assert Filled(n + 1) == Inserted(Filled(n), PortKey(n), 0);
  }

  lemma FullDropsLate()
    ensures Recorded(Filled(CAP), Filled(CAP), LATE, 0) && LATE !in Filled(CAP)
  {
    FilledKeys(CAP);
    var t1 := Inserted(Filled(CAP), LATE, 0);
    assert KeysOf(t1, "w") == PortKeys(CAP) + {LATE};
    assert !Less("b.io", "a.io") by { assert "b.io"[0] > "a.io"[0]; }
  }

  lemma LateHostsAreValid()
    ensures ValidName("a.io") && ValidName("b.io")
  {
    TwoLabels("a", "io");
    TwoLabels("b", "io");
    assert "a.io" == "a" + "." + "io" && "b.io" == "b" + "." + "io";
  }

  /** From the empty table: 200 refused requests for valid names of one workspace, and one more
      in the same instant for a host that sorts later. That last one is not kept. */
  lemma NewRowGoes() returns (tables: seq<Table>, calls: seq<Call>)
    ensures IsRun(tables, calls) && |calls| == 201 && calls[200].key !in tables[201]
    ensures forall c :: c in calls ==> ValidName(c.key.host)
  {
    tables := seq(CAP + 1, i requires 0 <= i => Filled(i)) + [Filled(CAP)];
    calls := seq(CAP, i => Call(PortKey(i), 0)) + [Call(LATE, 0)];
    LateHostsAreValid();
    FullDropsLate();
    assert tables[0] == map[];
    forall i | 0 <= i < |calls| ensures CallAt(tables, calls, i) {
      if i < CAP { FillStep(i); }
    }
  }

  /** At most one row goes per call, and never the new one while another comes after it. */
  lemma NewestStays(t: Table, t': Table, k: Key, now: int)
    requires k !in t && |KeysOf(t, k.workspace)| <= 200 && Recorded(t, t', k, now)
    ensures |KeysOf(t, k.workspace) - KeysOf(t', k.workspace)| <= 1
    ensures |KeysOf(t, k.workspace)| < 200 || !ComesLast(t, k, now) ==> k in t' && t'[k] == Row(1, now, now)
  {
    NewRowMayGo(t, k, now);
    RowCounts(t, t', k, now);
    var ws := k.workspace;
    Smaller(KeysOf(t, ws) - KeysOf(t', ws), KeysOf(Inserted(t, k, now), ws) - KeysOf(t', ws));
  }

  lemma Singleton(s: set<Key>, a: Key, b: Key)
    requires |s| <= 1 && a in s && a != b
    ensures b !in s
  {
    assert |s - {a}| == 0;
    assert b !in s - {a};
  }

  lemma Smaller(a: set<Key>, b: set<Key>)
    requires a <= b
    ensures |a| <= |b|
  {
    assert b == a + (b - a);
  }
}
