/** Package policy: zones, grants and running pods become "who may reach what". */
module Policy {
  import opened Text
  import opened Names

  datatype Rule = Rule(kind: string, value: string, port: int)

  datatype Workspace = Workspace(id: string, name: string, ownerId: string, ip: string)

  datatype Input = Input(
    defaultZone: string,
    zoneRules: map<string, seq<Rule>>,
    assign: map<string, string>,
    grants: map<string, seq<Rule>>,
    pods: seq<Workspace>)

  datatype HostKey = HostKey(host: string, port: int)

  predicate ValidRule(r: Rule) {
    if r.kind == "host" then (r.port == 443 || r.port == 80) && ValidName(r.value)
    else r.kind == "dns" && r.port == 0 && ValidName(r.value)
  }

  function ZoneOf(input: Input, ws: string): string {
    if ws in input.assign then input.assign[ws] else input.defaultZone
  }

  /** A Go map lookup of a slice: absent keys read as the empty list. */
  function Lookup(m: map<string, seq<Rule>>, k: string): seq<Rule> {
    if k in m then m[k] else []
  }

  function OfKind(rules: seq<Rule>, kind: string): (out: seq<Rule>)
    ensures forall r :: r in out <==> r in rules && r.kind == kind && ValidRule(r)
  {
    if rules == [] then [] else
      var rest := OfKind(rules[1..], kind);
      if rules[0].kind == kind && ValidRule(rules[0]) then [rules[0]] + rest else rest
  }

  /** The workspace's zone rules, then its grants, of one kind; invalid rows are dropped. */
  function Effective(input: Input, ws: string, kind: string): seq<Rule> {
    OfKind(Lookup(input.zoneRules, ZoneOf(input, ws)), kind) + OfKind(Lookup(input.grants, ws), kind)
  }

  lemma {:induction false} OfKindSnoc(rules: seq<Rule>, r: Rule, kind: string)
    ensures OfKind(rules + [r], kind) == OfKind(rules, kind) + (if r.kind == kind && ValidRule(r) then [r] else [])
  {
    if rules == [] {
      assert rules + [r] == [r] && [r][1..] == [];
    } else {
      assert (rules + [r])[1..] == rules[1..] + [r];
      OfKindSnoc(rules[1..], r, kind);
    }
  }

  method ComputeEffective(input: Input, ws: string, kind: string) returns (out: seq<Rule>)
    ensures out == Effective(input, ws, kind)
  {
    out := AppendOfKind([], Lookup(input.zoneRules, ZoneOf(input, ws)), kind);
    out := AppendOfKind(out, Lookup(input.grants, ws), kind);
  }

  method AppendOfKind(start: seq<Rule>, rules: seq<Rule>, kind: string) returns (out: seq<Rule>)
    ensures out == start + OfKind(rules, kind)
  {
    out := start;
    for i := 0 to |rules|
      invariant out == start + OfKind(rules[..i], kind)
    {
      assert rules[..i + 1] == rules[..i] + [rules[i]];
      OfKindSnoc(rules[..i], rules[i], kind);
      if rules[i].kind == kind && ValidRule(rules[i]) {
        out := out + [rules[i]];
      }
    }
    assert rules[..|rules|] == rules;
  }

  // ---- Coverage ------------------------------------------------------------

  /** Does the pattern admit this exact name? */
  predicate Covers(pattern: string, host: string) {
    pattern == host || (IsWildcard(pattern) && HasSuffix(host, pattern[1..]))
  }

  /** May whoever is admitted under `w` also use the more specific key `k`? */
  predicate Admits(w: HostKey, k: HostKey) {
    w == k || (w.port == k.port && HasPrefix(w.host, "*") && HasSuffix(k.host, w.host[1..]))
  }

  predicate ValidKey(k: HostKey) {
    (k.port == 443 || k.port == 80) && ValidName(k.host)
  }

  /** Fails for a host such as "**.a.com", which is why only valid rules may reach the merge. */
  lemma AdmitsTransitive(a: HostKey, b: HostKey, c: HostKey)
    requires ValidKey(a) && ValidKey(b)
    requires Admits(a, b) && Admits(b, c)
    ensures Admits(a, c)
  {
    if a != b && b != c {
      ValidNameShape(a.host);
      ValidNameShape(b.host);
      assert a.host[1..][0] == '.' && b.host[0] == '*';
      assert b.host[|b.host| - (|a.host| - 1)] == '.';
      assert HasSuffix(b.host, b.host[1..]);
      SuffixesComparable(b.host, a.host[1..], b.host[1..]);
      SuffixTransitive(c.host, b.host[1..], a.host[1..]);
    }
  }

  lemma AdmitsCounterexample()
    ensures var a, b, c := HostKey("**.a.io", 443), HostKey("*.a.io", 443), HostKey("x.a.io", 443);
            Admits(a, b) && Admits(b, c) && !Admits(a, c)
  {
    assert "**.a.io"[1..] == "*.a.io" && "*.a.io"[0..] == "*.a.io" && "*.a.io"[1..] == ".a.io";
    assert "x.a.io"[1..] == ".a.io" && "x.a.io"[0..] == "x.a.io";
    assert "x.a.io"[0] != "*.a.io"[0];
  }

  // ---- HostIPs -------------------------------------------------------------

  type IPSets = map<HostKey, set<string>>

  /** Pod `p` is running with an address and has the effective host rule `r`. */
  predicate HasHostRule(input: Input, p: Workspace, r: Rule) {
    p in input.pods && p.ip != "" && r in Effective(input, p.id, "host")
  }

  function KeyOf(r: Rule): HostKey {
    HostKey(r.value, r.port)
  }

  lemma EffectiveValid(input: Input, ws: string, kind: string, r: Rule)
    requires r in Effective(input, ws, kind)
    ensures r.kind == kind && ValidRule(r)
  {
  }

  /** Somebody has an effective rule with this very key. */
  ghost predicate Ruled(input: Input, k: HostKey) {
    exists p, r :: HasHostRule(input, p, r) && KeyOf(r) == k
  }

  /** Some pod at this address has an effective rule that admits the key. */
  ghost predicate Reaches(input: Input, ip: string, k: HostKey) {
    exists p, r :: HasHostRule(input, p, r) && p.ip == ip && Admits(KeyOf(r), k)
  }

  /** The meaning of HostIPs, free of maps being enlarged and of iteration order: a key for
      every effective rule, and under it, ascending and without repetition, the addresses
      of exactly the pods with a rule that admits the key. */
  ghost predicate IsHostIPs(input: Input, out: map<HostKey, seq<string>>) {
    && (forall k :: k in out <==> Ruled(input, k))
    && (forall k :: k in out ==> Ascending(out[k], Less))
    && (forall k, ip :: k in out ==> (ip in out[k] <==> Reaches(input, ip, k)))
  }

  /** A Go map lookup of a set: absent keys read as empty. */
  function At(m: IPSets, k: HostKey): set<string> {
    if k in m then m[k] else {}
  }

  function KeysOf(rules: seq<Rule>): set<HostKey> {
    set r | r in rules :: KeyOf(r)
  }

  ghost predicate Contributes(input: Input, p: Workspace, ip: string, k: HostKey) {
    p.ip == ip != "" && k in KeysOf(Effective(input, p.id, "host"))
  }

  /** The first loop's result: rules inverted, nothing merged yet. */
  ghost predicate Inverted(input: Input, pods: seq<Workspace>, m: IPSets) {
    && (forall k :: k in m ==> m[k] != {} && ValidKey(k))
    && (forall k, ip :: ip in At(m, k) <==> exists p :: p in pods && Contributes(input, p, ip, k))
  }

  method Invert(input: Input) returns (m: IPSets)
    ensures Inverted(input, input.pods, m)
  {
    m := map[];
    for i := 0 to |input.pods|
      invariant Inverted(input, input.pods[..i], m)
    {
      var p := input.pods[i];
      var rules := ComputeEffective(input, p.id, "host");
      ghost var m0 := m;
      if p.ip != "" {
        m := AddPod(m, p.ip, rules);
      }
      InvertStep(input, input.pods[..i], p, m0, m);
      assert input.pods[..i + 1] == input.pods[..i] + [p];
    }
    assert input.pods[..|input.pods|] == input.pods;
  }

  /** `m` is `m0` with the address added under these keys. */
  ghost predicate AddedUnder(m0: IPSets, m: IPSets, ip: string, ks: set<HostKey>) {
    m.Keys == m0.Keys + ks && forall k :: At(m, k) == At(m0, k) + if k in ks then {ip} else {}
  }

  method AddPod(m0: IPSets, ip: string, rules: seq<Rule>) returns (m: IPSets)
    ensures AddedUnder(m0, m, ip, KeysOf(rules))
  {
    m := m0;
    for j := 0 to |rules|
      invariant AddedUnder(m0, m, ip, KeysOf(rules[..j]))
    {
      var k := KeyOf(rules[j]);
      KeysSnoc(rules, j);
      AddUnder(m0, m, ip, KeysOf(rules[..j]), k);
      m := m[k := At(m, k) + {ip}];
    }
    assert rules[..|rules|] == rules;
  }

  lemma KeysSnoc(rules: seq<Rule>, j: nat)
    requires j < |rules|
    ensures KeysOf(rules[..j + 1]) == KeysOf(rules[..j]) + {KeyOf(rules[j])}
  {
    assert rules[..j + 1] == rules[..j] + [rules[j]];
  }

  lemma AddUnder(m0: IPSets, m: IPSets, ip: string, ks: set<HostKey>, k: HostKey)
    requires AddedUnder(m0, m, ip, ks)
    ensures AddedUnder(m0, m[k := At(m, k) + {ip}], ip, ks + {k})
  {
    var m' := m[k := At(m, k) + {ip}];
    forall x ensures At(m', x) == At(m0, x) + if x in ks + {k} then {ip} else {} {
      if x != k { assert At(m', x) == At(m, x); }
    }
  }

  lemma InvertStep(input: Input, pods: seq<Workspace>, p: Workspace, m0: IPSets, m: IPSets)
    requires Inverted(input, pods, m0)
    requires p.ip == "" ==> m == m0
    requires p.ip != "" ==> AddedUnder(m0, m, p.ip, KeysOf(Effective(input, p.id, "host")))
    ensures Inverted(input, pods + [p], m)
  {
    forall k | k in m ensures m[k] != {} && ValidKey(k) {
      assert m[k] == At(m, k);
      if k !in m0 {
        var r :| r in Effective(input, p.id, "host") && KeyOf(r) == k;
      } else {
        assert m0[k] == At(m0, k);
      }
    }
    forall k, ip ensures ip in At(m, k) <==> exists q :: q in pods + [p] && Contributes(input, q, ip, k) {
      assert ip in At(m, k) <==> ip in At(m0, k) || Contributes(input, p, ip, k);
      if q :| q in pods + [p] && Contributes(input, q, ip, k) { assert q in pods || q == p; }
      if q :| q in pods && Contributes(input, q, ip, k) { assert q in pods + [p]; }
      assert p in pods + [p];
    }
  }

  /** The addresses that `k` must end up with: those of every key that admits it. */
  ghost function Union(m: IPSets, k: HostKey): set<string> {
    set w, ip | w in m && Admits(w, k) && ip in m[w] :: ip
  }

  ghost predicate AllValid(m: IPSets) {
    forall k :: k in m ==> ValidKey(k)
  }

  ghost predicate Between(m0: IPSets, m: IPSets, done: set<HostKey>) {
    && m.Keys == m0.Keys && done <= m.Keys
    && (forall k :: k in m ==> m0[k] <= m[k] <= Union(m0, k))
    && (forall w, k :: w in done && k in m && Admits(w, k) ==> m0[w] <= m[k])
  }

  /** The second loop: both ranges visit the keys in an arbitrary order and read sets that
      earlier iterations may already have enlarged. */
  method MergeWildcards(m0: IPSets) returns (m: IPSets)
    requires AllValid(m0)
    ensures m.Keys == m0.Keys && forall k :: k in m ==> m[k] == Union(m0, k)
  {
    m := m0;
    var todo := m0.Keys;
    while todo != {}
      invariant todo <= m0.Keys && Between(m0, m, m0.Keys - todo)
      decreases |todo|
    {
      var wk :| wk in todo;
      todo := todo - {wk};
      ghost var done := m0.Keys - todo - {wk};
      assert m0.Keys - todo == done + {wk};
      if HasPrefix(wk.host, "*") {
        m := MergeOne(m0, m, wk, done);
      }
    }
  }

  /** `wk` has been merged into every key of `ks` that it admits. */
  ghost predicate MergedInto(m0: IPSets, m: IPSets, wk: HostKey, ks: set<HostKey>) {
    wk in m0 && forall k :: k in ks && k in m && Admits(wk, k) ==> m0[wk] <= m[k]
  }

  /** The body of the inner range: the addresses of `wk`, as they stand now, go into `k`. */
  function MergeInto(m: IPSets, wk: HostKey, k: HostKey): IPSets {
    if wk in m && k in m && k != wk && Admits(wk, k) then m[k := m[k] + m[wk]] else m
  }

  /** Two full merges of the same sets, the wildcards taken in either order. */
  lemma MergeOrderMatters(one: string, two: string, three: string)
    requires one != two && one != three
    ensures var a, b, c := HostKey("**.a.io", 443), HostKey("*.a.io", 443), HostKey("x.a.io", 443);
            var m := map[a := {one}, b := {two}, c := {three}];
            var outerFirst := MergeInto(MergeInto(MergeInto(MergeInto(m, a, b), a, c), b, a), b, c);
            var innerFirst := MergeInto(MergeInto(MergeInto(MergeInto(m, b, a), b, c), a, b), a, c);
            outerFirst[c] == {one, two, three} && innerFirst[c] == {two, three}
  {
    AdmitsCounterexample();
    assert "**.a.io"[2..] == "*.a.io"[1..];
  }

  method MergeOne(ghost m0: IPSets, start: IPSets, wk: HostKey, ghost done: set<HostKey>) returns (m: IPSets)
    requires AllValid(m0) && wk in m0 && Between(m0, start, done)
    ensures Between(m0, m, done + {wk})
  {
    m := start;
    var todo := m.Keys;
    ghost var visited := {};
    while todo != {}
      invariant Between(m0, m, done) && MergedInto(m0, m, wk, visited) && visited + todo == m0.Keys
      decreases |todo|
    {
      var k :| k in todo;
      MergeStep(m0, m, wk, k, done, visited);
      m := MergeInto(m, wk, k);
      todo, visited := todo - {k}, visited + {k};
    }
  }

  lemma MergeStep(m0: IPSets, m: IPSets, wk: HostKey, k: HostKey, done: set<HostKey>, ks: set<HostKey>)
    requires AllValid(m0) && Between(m0, m, done) && MergedInto(m0, m, wk, ks)
    ensures Between(m0, MergeInto(m, wk, k), done) && MergedInto(m0, MergeInto(m, wk, k), wk, ks + {k})
  {
    if wk in m && k in m && k != wk && Admits(wk, k) {
      UnionMonotone(m0, wk, k);
      SubsetJoin(m[k], m[wk], Union(m0, wk), Union(m0, k));
      GrownBetween(m0, m, done, k, m[k] + m[wk]);
      GrownDelivers(m0, m, wk, k, ks);
    } else {
      NothingToDeliver(m0, m, wk, k, ks);
    }
  }

  /** Enlarging one set, not beyond the union, keeps every set between its bounds. */
  lemma GrownBetween(m0: IPSets, m: IPSets, done: set<HostKey>, k: HostKey, ips: set<string>)
    requires Between(m0, m, done) && k in m && m[k] <= ips <= Union(m0, k)
    ensures Between(m0, m[k := ips], done)
  {
    var m' := m[k := ips];
    forall x | x in m' ensures m0[x] <= m'[x] <= Union(m0, x) { if x != k { assert m'[x] == m[x]; } }
    forall w, x | w in done && x in m' && Admits(w, x) ensures m0[w] <= m'[x] { assert m0[w] <= m[x] <= m'[x]; }
  }

  lemma GrownDelivers(m0: IPSets, m: IPSets, wk: HostKey, k: HostKey, ks: set<HostKey>)
    requires MergedInto(m0, m, wk, ks) && k in m && wk in m && m0[wk] <= m[wk]
    ensures MergedInto(m0, m[k := m[k] + m[wk]], wk, ks + {k})
  {
    var m' := m[k := m[k] + m[wk]];
    forall x | x in ks + {k} && x in m' && Admits(wk, x) ensures m0[wk] <= m'[x] {
      if x != k { assert m0[wk] <= m[x] == m'[x]; }
    }
  }

  lemma NothingToDeliver(m0: IPSets, m: IPSets, wk: HostKey, k: HostKey, ks: set<HostKey>)
    requires MergedInto(m0, m, wk, ks) && (wk in m ==> m0[wk] <= m[wk])
    requires !(wk in m && k in m && k != wk && Admits(wk, k))
    requires m.Keys == m0.Keys
    ensures MergedInto(m0, m, wk, ks + {k})
  {
  }

  lemma SubsetJoin(a: set<string>, b: set<string>, v: set<string>, u: set<string>)
    requires a <= u && b <= v <= u
    ensures a + b <= u
  {
  }

  lemma UnionMonotone(m: IPSets, w: HostKey, k: HostKey)
    requires AllValid(m)
    requires w in m && Admits(w, k)
    ensures Union(m, w) <= Union(m, k)
  {
    forall x, ip | x in m && Admits(x, w) && ip in m[x] ensures ip in Union(m, k) {
      AdmitsTransitive(x, w, k);
    }
  }

  method ComputeHostIPs(input: Input) returns (out: map<HostKey, seq<string>>)
    ensures IsHostIPs(input, out)
  {
    var inverted := Invert(input);
    var merged := MergeWildcards(inverted);
    out := SortAll(merged);
    MergedMeaning(input, inverted, out);
  }

  method SortAll(m: IPSets) returns (out: map<HostKey, seq<string>>)
    ensures out.Keys == m.Keys && forall k :: k in out ==> out[k] == Listing(m[k])
  {
    out := map[];
    var todo := m.Keys;
    while todo != {}
      invariant todo <= m.Keys && out.Keys == m.Keys - todo
      invariant forall k :: k in out ==> out[k] == Listing(m[k])
      decreases |todo|
    {
      var k :| k in todo;
      todo := todo - {k};
      var ips := SortedStrings(m[k]);
      out := out[k := ips];
    }
  }

  lemma MergedMeaning(input: Input, m: IPSets, out: map<HostKey, seq<string>>)
    requires Inverted(input, input.pods, m)
    requires out.Keys == m.Keys && forall k :: k in out ==> out[k] == Listing(Union(m, k))
    ensures IsHostIPs(input, out)
  {
    forall k ensures k in out <==> Ruled(input, k) {
      KeyMeaning(input, m, k);
    }
    forall k, ip | k in out
      ensures ip in out[k] <==> Reaches(input, ip, k)
    {
      assert ip in out[k] <==> ip in Elements(out[k]);
      UnionMeaning(input, m, k, ip);
    }
  }

  lemma KeyMeaning(input: Input, m: IPSets, k: HostKey)
    requires Inverted(input, input.pods, m)
    ensures k in m <==> Ruled(input, k)
  {
    if k in m {
      var ip :| ip in m[k];
      var p, r := Contributor(input, m, k, ip);
    }
    if p, r :| HasHostRule(input, p, r) && KeyOf(r) == k {
      assert Contributes(input, p, p.ip, k);
      assert p.ip in At(m, k);
    }
  }

  lemma UnionMeaning(input: Input, m: IPSets, k: HostKey, ip: string)
    requires Inverted(input, input.pods, m)
    ensures ip in Union(m, k) <==> Reaches(input, ip, k)
  {
    if ip in Union(m, k) {
      var w :| w in m && Admits(w, k) && ip in m[w];
      var p, r := Contributor(input, m, w, ip);
    }
    if p, r :| HasHostRule(input, p, r) && p.ip == ip && Admits(KeyOf(r), k) {
      assert Contributes(input, p, ip, KeyOf(r));
      assert ip in At(m, KeyOf(r));
    }
  }

  lemma Contributor(input: Input, m: IPSets, k: HostKey, ip: string) returns (p: Workspace, r: Rule)
    requires Inverted(input, input.pods, m) && k in m && ip in m[k]
    ensures HasHostRule(input, p, r) && p.ip == ip && KeyOf(r) == k
  {
    assert ip in At(m, k);
    p :| p in input.pods && Contributes(input, p, ip, k);
    r :| r in Effective(input, p.id, "host") && KeyOf(r) == k;
  }

  /** Whatever order Go's maps were visited in, the result is the same map. */
  lemma HostIPsUnique(input: Input, a: map<HostKey, seq<string>>, b: map<HostKey, seq<string>>)
    requires IsHostIPs(input, a) && IsHostIPs(input, b)
    ensures a == b
  {
    assert a.Keys == b.Keys;
    forall k | k in a ensures a[k] == b[k] {
      SameList(a[k], b[k]);
    }
  }

  lemma SameList(a: seq<string>, b: seq<string>)
    requires Ascending(a, Less) && Ascending(b, Less) && forall x :: x in a <==> x in b
    ensures a == b
  {
    assert Elements(a) == Elements(b);
    StringOrder({});
    AscendingUnique(a, b, Less);
  }

  lemma HostIPsValid(input: Input, out: map<HostKey, seq<string>>, k: HostKey)
    requires IsHostIPs(input, out) && k in out
    ensures ValidKey(k) && out[k] != [] && "" !in out[k]
  {
    var p, r :| HasHostRule(input, p, r) && KeyOf(r) == k;
    EffectiveValid(input, p.id, "host", r);
    assert Reaches(input, p.ip, k);
    assert p.ip in out[k];
    assert !Reaches(input, "", k);
  }
}
