/** Why PolicyInput orders its rows: a load does not depend on where the database happens to
    keep them, although the order leaves ties. */
module LoadOrder {
  import opened Text
  import opened Policy
  import opened Store
  import opened Loading

  // On rules, as opposed to rows, the order of the query is total.

  lemma RuleBeforeTransitive(a: Rule, b: Rule, c: Rule)
    requires RuleBefore(a, b) && RuleBefore(b, c)
    ensures RuleBefore(a, c)
  {
    if a.kind != b.kind && b.kind != c.kind {
      LessTransitive(a.kind, b.kind, c.kind);
      LessIrreflexive(a.kind);
    } else if a.kind == b.kind == c.kind && a.value != b.value && b.value != c.value {
      LessTransitive(a.value, b.value, c.value);
      LessIrreflexive(a.value);
    }
  }

  lemma RuleBeforeTotal(a: Rule, b: Rule)
    ensures a != b ==> RuleBefore(a, b) || RuleBefore(b, a)
    ensures !(RuleBefore(a, b) && RuleBefore(b, a)) && !RuleBefore(a, a)
  {
    if a.kind != b.kind {
      LessConnected(a.kind, b.kind);
    } else if a.value != b.value {
      LessConnected(a.value, b.value);
    }
    if RuleBefore(a, b) && RuleBefore(b, a) { RuleBeforeTransitive(a, b, a); }
    LessIrreflexive(a.kind);
    LessIrreflexive(a.value);
  }

  predicate AtMost(a: Rule, b: Rule) {
    a == b || RuleBefore(a, b)
  }

  lemma AtMostTransitive(a: Rule, b: Rule, c: Rule)
    requires AtMost(a, b) && AtMost(b, c)
    ensures AtMost(a, c)
  {
    if a != b && b != c { RuleBeforeTransitive(a, b, c); }
  }

  ghost predicate InOrder(rules: seq<Rule>) {
    forall i, j :: 0 <= i < j < |rules| ==> AtMost(rules[i], rules[j])
  }

  ghost predicate RowsInOrder(rows: seq<RuleRow>) {
    forall i, j :: 0 <= i < j < |rows| ==> AtMost(rows[i].rule, rows[j].rule)
  }

  // ---- Sorting -------------------------------------------------------------

  lemma {:induction false} InsertInOrder(x: RuleRow, rows: seq<RuleRow>)
    requires RowsInOrder(rows)
    ensures RowsInOrder(Insert(x, rows, RowBefore))
    ensures forall r :: r in Insert(x, rows, RowBefore) ==> r == x || r in rows
  {
    var out := Insert(x, rows, RowBefore);
    forall r | r in out ensures r == x || r in rows {
      assert r in multiset(out);
    }
    if rows == [] {
    } else if RowBefore(x, rows[0]) {
      forall j | 1 <= j < |out| ensures AtMost(x.rule, out[j].rule) {
        if j > 1 { AtMostTransitive(x.rule, rows[0].rule, rows[j - 1].rule); }
      }
    } else {
      var rest := rows[1..];
      InsertInOrder(x, rest);
      RuleBeforeTotal(x.rule, rows[0].rule);
      var t := Insert(x, rest, RowBefore);
      forall j | 0 <= j < |t| ensures AtMost(rows[0].rule, t[j].rule) {
        assert t[j] == x || t[j] in rest;
      }
      assert out == [rows[0]] + t;
    }
  }

  lemma {:induction false} SortInOrder(rows: seq<RuleRow>)
    ensures RowsInOrder(Sort(rows, RowBefore))
  {
    if rows != [] {
      SortInOrder(rows[1..]);
      InsertInOrder(rows[0], Sort(rows[1..], RowBefore));
    }
  }

  lemma SmallestFirst(a: seq<Rule>, b: seq<Rule>)
    requires InOrder(a) && InOrder(b) && multiset(a) == multiset(b) && a != [] && b != []
    ensures a[0] == b[0]
  {
    assert a[0] in multiset(b) && b[0] in multiset(a);
    var i :| 0 <= i < |b| && b[i] == a[0];
    var j :| 0 <= j < |a| && a[j] == b[0];
    assert AtMost(b[0], a[0]) && AtMost(a[0], b[0]);
    RuleBeforeTotal(a[0], b[0]);
  }

  /** A weakly ordered list is determined by its elements with multiplicity. */
  lemma {:induction false} OrderedUnique(a: seq<Rule>, b: seq<Rule>)
    requires InOrder(a) && InOrder(b) && multiset(a) == multiset(b)
    ensures a == b
  {
    assert |multiset(a)| == |a| && |multiset(b)| == |b|;
    if a != [] {
      SmallestFirst(a, b);
      assert a == [a[0]] + a[1..] && b == [b[0]] + b[1..];
      assert multiset(a[1..]) == multiset(a) - multiset{a[0]} == multiset(b[1..]);
      OrderedUnique(a[1..], b[1..]);
    }
  }

  // ---- Lists of one owner --------------------------------------------------

  lemma {:induction false} ListConcat(a: seq<RuleRow>, b: seq<RuleRow>, id: Id)
    ensures ZoneList(a + b, id) == ZoneList(a, id) + ZoneList(b, id)
    ensures GrantList(a + b, id) == GrantList(a, id) + GrantList(b, id)
  {
    if b == [] {
      assert a + b == a;
    } else {
      var init := b[..|b| - 1];
      assert (a + b)[..|a + b| - 1] == a + init;
      ListConcat(a, init, id);
    }
  }

  function Drop(rows: seq<RuleRow>, j: nat): seq<RuleRow>
    requires j < |rows|
  {
    rows[..j] + rows[j + 1..]
  }

  lemma DropBag(rows: seq<RuleRow>, j: nat)
    requires j < |rows|
    ensures multiset(Drop(rows, j)) == multiset(rows) - multiset{rows[j]}
  {
    assert rows == rows[..j] + [rows[j]] + rows[j + 1..];
  }

  /** Taking one row out of the middle takes its rule out of the lists. */
  lemma {:induction false} ListsWithout(rows: seq<RuleRow>, j: nat, id: Id)
    requires j < |rows|
    ensures multiset(ZoneList(rows, id)) == multiset(ZoneList(Drop(rows, j), id)) + multiset(ZoneList([rows[j]], id))
    ensures multiset(GrantList(rows, id)) == multiset(GrantList(Drop(rows, j), id)) + multiset(GrantList([rows[j]], id))
  {
    var p, one, q := rows[..j], [rows[j]], rows[j + 1..];
    assert rows == (p + one) + q;
    ListConcat(p + one, q, id);
    ListConcat(p, one, id);
    ListConcat(p, q, id);
  }

  lemma SameRowIn(a: seq<RuleRow>, b: seq<RuleRow>) returns (j: nat)
    requires multiset(a) == multiset(b) && a != []
    ensures j < |b| && b[j] == a[0]
  {
    assert a[0] in multiset(b);
    j :| 0 <= j < |b| && b[j] == a[0];
  }

  lemma NoRows(b: seq<RuleRow>)
    requires multiset(b) == multiset{}
    ensures b == []
  {
    assert |multiset(b)| == |b|;
  }

  /** Permuting the rows permutes the lists. */
  lemma {:induction false} ListsPermute(a: seq<RuleRow>, b: seq<RuleRow>, id: Id)
    requires multiset(a) == multiset(b)
    ensures multiset(ZoneList(a, id)) == multiset(ZoneList(b, id))
    ensures multiset(GrantList(a, id)) == multiset(GrantList(b, id))
    decreases |a|
  {
    if a == [] {
      NoRows(b);
    } else {
      var j := SameRowIn(a, b);
      DropBag(a, 0);
      DropBag(b, j);
      ListsPermute(Drop(a, 0), Drop(b, j), id);
      ListsWithout(a, 0, id);
      ListsWithout(b, j, id);
    }
  }

  lemma {:induction false} ZoneListInOrder(rows: seq<RuleRow>, z: Id)
    requires RowsInOrder(rows)
    ensures InOrder(ZoneList(rows, z))
  {
    if rows != [] {
      var init, last := rows[..|rows| - 1], rows[|rows| - 1];
      ZoneListInOrder(init, z);
      forall x | x in ZoneList(init, z) ensures AtMost(x, last.rule) {
        var r :| r in init && OfZone(r, z) && r.rule == x;
        var i :| 0 <= i < |init| && init[i] == r;
        assert rows[i] == r;
      }
    }
  }

  lemma {:induction false} GrantListInOrder(rows: seq<RuleRow>, w: Id)
    requires RowsInOrder(rows)
    ensures InOrder(GrantList(rows, w))
  {
    if rows != [] {
      var init, last := rows[..|rows| - 1], rows[|rows| - 1];
      GrantListInOrder(init, w);
      forall x | x in GrantList(init, w) ensures AtMost(x, last.rule) {
        var r :| r in init && OfWorkspace(r, w) && r.rule == x;
        var i :| 0 <= i < |init| && init[i] == r;
        assert rows[i] == r;
      }
    }
  }

  // ---- The theorem ---------------------------------------------------------

  lemma {:induction false} LiveBag(a: seq<RuleRow>, now: int, x: RuleRow)
    ensures multiset(Live(a, now))[x] == if IsLive(x, now) then multiset(a)[x] else 0
  {
    if a != [] {
      var init, last := a[..|a| - 1], a[|a| - 1];
      LiveBag(init, now, x);
      assert a == init + [last];
    }
  }

  lemma SameSelection(a: seq<RuleRow>, b: seq<RuleRow>, now: int)
    requires multiset(a) == multiset(b)
    ensures multiset(Selected(a, now)) == multiset(Selected(b, now))
    ensures RowsInOrder(Selected(a, now)) && RowsInOrder(Selected(b, now))
  {
    SortInOrder(Live(a, now));
    SortInOrder(Live(b, now));
    forall x ensures multiset(Live(a, now))[x] == multiset(Live(b, now))[x] {
      LiveBag(a, now, x);
      LiveBag(b, now, x);
    }
    assert multiset(Live(a, now)) == multiset(Live(b, now));
  }

  lemma {:induction false} SameLists(a: seq<RuleRow>, b: seq<RuleRow>, id: Id)
    requires multiset(a) == multiset(b) && RowsInOrder(a) && RowsInOrder(b)
    ensures ZoneList(a, id) == ZoneList(b, id) && GrantList(a, id) == GrantList(b, id)
  {
    ListsPermute(a, b, id);
    ZoneListInOrder(a, id);
    ZoneListInOrder(b, id);
    OrderedUnique(ZoneList(a, id), ZoneList(b, id));
    GrantListInOrder(a, id);
    GrantListInOrder(b, id);
    OrderedUnique(GrantList(a, id), GrantList(b, id));
  }

  lemma SameTablesOfLists(zones: map<Id, ZoneRow>, a: seq<RuleRow>, b: seq<RuleRow>)
    requires multiset(a) == multiset(b) && RowsInOrder(a) && RowsInOrder(b)
    ensures ZoneTable(zones, a) == ZoneTable(zones, b) && GrantTable(a) == GrantTable(b)
  {
    forall id ensures ZoneList(a, id) == ZoneList(b, id) && GrantList(a, id) == GrantList(b, id) {
      SameLists(a, b, id);
    }
    forall r ensures r in a <==> r in b {
      assert r in a <==> r in multiset(a);
      assert r in b <==> r in multiset(b);
    }
    assert Holders(a) == Holders(b);
  }

  /** Two databases with the same rows, stored in whatever order, load the same policy, down
      to the order of every rule list; so both compilers emit the same resources and an
      unchanged policy is never rewritten. */
  lemma LoadIgnoresRowOrder(s: State, s': State, now: int, pods: seq<Workspace>)
    requires s'.zones == s.zones && s'.assigns == s.assigns && multiset(s'.rules) == multiset(s.rules)
    ensures PolicyInput(s', now, pods) == PolicyInput(s, now, pods)
  {
    SameSelection(s.rules, s'.rules, now);
    SameTablesOfLists(s.zones, Selected(s.rules, now), Selected(s'.rules, now));
  }
}
