/** Package cilium, Render: DNS rules become label-selected Cilium network policies. */
module Cilium {
  import opened Text
  import opened Names
  import opened Policy

  /** A match expression on the workspace label. */
  datatype Expr = In(values: seq<string>) | Exists | NotIn(values: seq<string>)
  datatype DnsRule = MatchName(name: string) | MatchPattern(pattern: string)
  datatype CNP = CNP(name: string, exprs: seq<Expr>, dns: seq<DnsRule>)

  // ---- What Cilium does with a policy --------------------------------------

  /** Kubernetes selector semantics; `pod` is the pod's workspace label, if it has one.
      A NotIn expression also matches pods without the label. */
  predicate Holds(e: Expr, pod: Option<string>) {
    match e
    case In(vs) => pod.Some? && pod.value in vs
    case Exists => pod.Some?
    case NotIn(vs) => pod.None? || pod.value !in vs
  }

  predicate Selects(p: CNP, pod: Option<string>) {
    forall e :: e in p.exprs ==> Holds(e, pod)
  }

  /** An empty DNS rule list allows every name. */
  datatype Resolvable = AllNames | Only(rules: set<DnsRule>)

  function Allowed(policies: seq<CNP>, pod: Option<string>): Resolvable {
    if exists p :: p in policies && Selects(p, pod) && p.dns == [] then AllNames
    else Only(set p, d | p in policies && Selects(p, pod) && d in p.dns :: d)
  }

  /** The API server refuses In and NotIn expressions without values. */
  predicate WellFormed(p: CNP) {
    p.exprs != [] && forall e :: e in p.exprs ==> e.Exists? || e.values != []
  }

  // ---- The desired policies ------------------------------------------------

  function ToDns(r: Rule): DnsRule {
    if IsWildcard(r.value) then MatchPattern(r.value) else MatchName(r.value)
  }

  function DnsRules(rules: seq<Rule>): (out: seq<DnsRule>)
    ensures forall d :: d in out <==> exists r :: r in OfKind(rules, "dns") && ToDns(r) == d
  {
    if rules == [] then [] else
      var rest := DnsRules(rules[1..]);
      if rules[0].kind == "dns" && ValidRule(rules[0]) then [ToDns(rules[0])] + rest else rest
  }

  lemma {:induction false} DnsRulesSnoc(rules: seq<Rule>, r: Rule)
    ensures DnsRules(rules + [r]) == DnsRules(rules) + if r.kind == "dns" && ValidRule(r) then [ToDns(r)] else []
  {
    if rules == [] {
      assert rules + [r] == [r] && [r][1..] == [];
    } else {
      assert (rules + [r])[1..] == rules[1..] + [r];
      DnsRulesSnoc(rules[1..], r);
    }
  }

  method ComputeDnsRules(rules: seq<Rule>) returns (out: seq<DnsRule>)
    ensures out == DnsRules(rules)
  {
    out := [];
    for i := 0 to |rules|
      invariant out == DnsRules(rules[..i])
    {
      var r := rules[i];
      assert rules[..i + 1] == rules[..i] + [r];
      DnsRulesSnoc(rules[..i], r);
      if r.kind != "dns" || !ValidRule(r) {
        continue;
      }
      out := out + [ToDns(r)];
    }
    assert rules[..|rules|] == rules;
  }

  function Elsewhere(input: Input): set<string> {
    set ws | ws in input.assign && input.assign[ws] != input.defaultZone
  }

  function Members(input: Input, z: string): set<string> {
    set ws | ws in input.assign && input.assign[ws] != input.defaultZone && input.assign[ws] == z
  }

  ghost function ZoneSelector(input: Input, z: string): seq<Expr> {
    if z == input.defaultZone then
      [Exists] + if Elsewhere(input) == {} then [] else [NotIn(Listing(Elsewhere(input)))]
    else
      [In(Listing(Members(input, z)))]
  }

  ghost predicate ZoneEmits(input: Input, z: string) {
    z in input.zoneRules && DnsRules(input.zoneRules[z]) != [] && (z == input.defaultZone || Members(input, z) != {})
  }

  ghost function ZonePolicy(input: Input, z: string): CNP
    requires z in input.zoneRules
  {
    CNP(ZoneName(z), ZoneSelector(input, z), DnsRules(input.zoneRules[z]))
  }

  ghost predicate GrantEmits(input: Input, ws: string) {
    ws in input.grants && DnsRules(input.grants[ws]) != []
  }

  function GrantPolicy(input: Input, ws: string): CNP
    requires ws in input.grants
  {
    CNP(GrantName(ws), [In([ws])], DnsRules(input.grants[ws]))
  }

  function ZoneName(z: string): string {
    "ws-dns-zone-" + z
  }

  function GrantName(ws: string): string {
    "ws-dns-grant-" + ws
  }

  ghost function ZonePolicies(input: Input, zs: set<string>): set<CNP> {
    set z | z in zs && ZoneEmits(input, z) :: ZonePolicy(input, z)
  }

  ghost function GrantPolicies(input: Input, wss: set<string>): set<CNP> {
    set ws | ws in wss && GrantEmits(input, ws) :: GrantPolicy(input, ws)
  }

  predicate NameBefore(a: CNP, b: CNP) {
    Less(a.name, b.name)
  }

  /** The result of Render: the emitted policies, strictly ascending by name. */
  ghost predicate IsRender(input: Input, out: seq<CNP>) {
    && Ascending(out, NameBefore)
    && Elements(out) == ZonePolicies(input, input.zoneRules.Keys) + GrantPolicies(input, input.grants.Keys)
  }

  ghost predicate DistinctPolicyNames(s: seq<CNP>) {
    forall i, j :: 0 <= i < j < |s| ==> s[i].name != s[j].name
  }

  lemma NameOrder(s: seq<CNP>)
    requires DistinctPolicyNames(s)
    ensures Transitive(NameBefore) && Irreflexive(NameBefore) && ConnectedOn(NameBefore, Elements(s)) && Distinct(s)
  {
    forall x, y, z | NameBefore(x, y) && NameBefore(y, z) ensures NameBefore(x, z) {
      LessTransitive(x.name, y.name, z.name);
    }
    forall x ensures !NameBefore(x, x) { LessIrreflexive(x.name); }
    forall x, y | x in s && y in s && x != y ensures NameBefore(x, y) || NameBefore(y, x) {
      LessConnected(x.name, y.name);
    }
  }

  lemma NamesApart(z: string, z': string, ws: string, ws': string)
    ensures ZoneName(z) == ZoneName(z') <==> z == z'
    ensures GrantName(ws) == GrantName(ws') <==> ws == ws'
    ensures ZoneName(z) != GrantName(ws)
  {
    assert ZoneName(z)[12..] == z && ZoneName(z')[12..] == z';
    assert GrantName(ws)[13..] == ws && GrantName(ws')[13..] == ws';
    assert ZoneName(z)[7] == 'z' && GrantName(ws)[7] == 'g';
  }

  // ---- Render --------------------------------------------------------------

  method Render(input: Input) returns (out: seq<CNP>)
    ensures IsRender(input, out)
  {
    var members, elsewhere := SplitAssignments(input);
    var zones := RenderZones(input, members, elsewhere);
    var all := RenderGrants(input, zones);
    NameOrder(all);
    SortAscending(all, NameBefore);
    out := Sort(all, NameBefore);
  }

  function Ids(members: map<string, seq<string>>, z: string): seq<string> {
    if z in members then members[z] else []
  }

  /** `ids` lists the members of `s` that were seen so far, each once. */
  ghost predicate Collects(ids: seq<string>, s: set<string>, seen: set<string>) {
    Distinct(ids) && Elements(ids) == s * seen
  }

  ghost predicate Grouped(input: Input, members: map<string, seq<string>>, seen: set<string>) {
    && (forall z :: Collects(Ids(members, z), Members(input, z), seen))
    && (forall z :: z in members ==> members[z] != [])
  }

  lemma CollectOne(ids: seq<string>, s: set<string>, seen: set<string>, ws: string)
    requires Collects(ids, s, seen) && ws !in seen
    ensures ws in s ==> Collects(ids + [ws], s, seen + {ws})
    ensures ws !in s ==> Collects(ids, s, seen + {ws})
  {
    assert ws !in Elements(ids);
    assert Elements(ids + [ws]) == Elements(ids) + {ws};
  }

  lemma GroupOne(input: Input, members: map<string, seq<string>>, seen: set<string>, ws: string)
    requires Grouped(input, members, seen) && ws in input.assign && ws !in seen
    ensures var z := input.assign[ws];
            Grouped(input,
                    if z == input.defaultZone then members else members[z := Ids(members, z) + [ws]],
                    seen + {ws})
  {
    var z := input.assign[ws];
    var m := if z == input.defaultZone then members else members[z := Ids(members, z) + [ws]];
    forall y ensures Collects(Ids(m, y), Members(input, y), seen + {ws}) {
      CollectOne(Ids(members, y), Members(input, y), seen, ws);
    }
  }

  /** The first loop: explicit members per zone, and everybody who is not in the default zone. */
  method SplitAssignments(input: Input) returns (members: map<string, seq<string>>, elsewhere: seq<string>)
    ensures Grouped(input, members, input.assign.Keys) && elsewhere == Listing(Elsewhere(input))
  {
    members := map[];
    var others := [];
    var todo := input.assign.Keys;
    ghost var seen := {};
    while todo != {}
      invariant todo !! seen && todo + seen == input.assign.Keys
      invariant Collects(others, Elsewhere(input), seen) && Grouped(input, members, seen)
      decreases |todo|
    {
      var ws :| ws in todo;
      var z := input.assign[ws];
      GroupOne(input, members, seen, ws);
      CollectOne(others, Elsewhere(input), seen, ws);
      todo, seen := todo - {ws}, seen + {ws};
      if z != input.defaultZone {
        members := members[z := Ids(members, z) + [ws]];
        others := others + [ws];
      }
    }
    assert Elsewhere(input) * seen == Elsewhere(input);
    assert seen == input.assign.Keys;
    elsewhere := SortDistinct(others);
  }

  method SortDistinct(s: seq<string>) returns (r: seq<string>)
    requires Distinct(s)
    ensures r == Listing(Elements(s))
  {
    StringOrder(Elements(s));
    SortAscending(s, Less);
    r := Sort(s, Less);
    ListingUnique(Elements(s), r);
  }

  method RenderZones(input: Input, members: map<string, seq<string>>, elsewhere: seq<string>) returns (out: seq<CNP>)
    requires Grouped(input, members, input.assign.Keys) && elsewhere == Listing(Elsewhere(input))
    ensures DistinctPolicyNames(out) && Elements(out) == ZonePolicies(input, input.zoneRules.Keys)
  {
    out := [];
    var todo := input.zoneRules.Keys;
    ghost var done := {};
    while todo != {}
      invariant done !! todo && done + todo == input.zoneRules.Keys
      invariant DistinctPolicyNames(out) && Elements(out) == ZonePolicies(input, done)
      decreases |todo|
    {
      var z :| z in todo;
      todo, done := todo - {z}, done + {z};
      var p := RenderZone(input, z, members, elsewhere);
      ZoneAdded(input, done - {z}, z, out);
      assert done - {z} + {z} == done;
      if p.Some? {
        out := out + [p.value];
      }
    }
    assert done == input.zoneRules.Keys;
  }

  /** One round of the zone loop. */
  method RenderZone(input: Input, z: string, members: map<string, seq<string>>, elsewhere: seq<string>)
    returns (p: Option<CNP>)
    requires z in input.zoneRules && elsewhere == Listing(Elsewhere(input))
    requires Grouped(input, members, input.assign.Keys)
    ensures p == if ZoneEmits(input, z) then Some(ZonePolicy(input, z)) else None
  {
    var dns := ComputeDnsRules(input.zoneRules[z]);
    if dns == [] {
      return None;
    }
    var exprs: seq<Expr>;
    assert Collects(Ids(members, z), Members(input, z), input.assign.Keys);
    assert Members(input, z) * input.assign.Keys == Members(input, z);
    NoElements(Ids(members, z));
    NoElements(elsewhere);
    if z == input.defaultZone {
      exprs := [Exists];
      assert [Exists] + [] == exprs;
      if |elsewhere| > 0 {
        exprs := exprs + [NotIn(elsewhere)];
      }
    } else {
      if z !in members {
        return None;
      }
      var ids := SortDistinct(members[z]);
      exprs := [In(ids)];
    }
    p := Some(CNP(ZoneName(z), exprs, dns));
  }

  lemma ZoneAdded(input: Input, done: set<string>, z: string, out: seq<CNP>)
    requires z in input.zoneRules && z !in done && Elements(out) == ZonePolicies(input, done) &&
             DistinctPolicyNames(out)
    ensures !ZoneEmits(input, z) ==> ZonePolicies(input, done + {z}) == ZonePolicies(input, done)
    ensures ZoneEmits(input, z) ==> DistinctPolicyNames(out + [ZonePolicy(input, z)])
    ensures ZoneEmits(input, z) ==> Elements(out + [ZonePolicy(input, z)]) == ZonePolicies(input, done + {z})
  {
    var p := ZonePolicy(input, z);
    assert ZoneEmits(input, z) ==> ZonePolicies(input, done + {z}) == ZonePolicies(input, done) + {p};
    assert Elements(out + [p]) == Elements(out) + {p};
    forall i | 0 <= i < |out| ensures out[i].name != p.name {
      assert out[i] in Elements(out);
      var z' :| z' in done && ZoneEmits(input, z') && out[i] == ZonePolicy(input, z');
      NamesApart(z, z', "", "");
    }
  }

  method RenderGrants(input: Input, zones: seq<CNP>) returns (out: seq<CNP>)
    requires DistinctPolicyNames(zones) && Elements(zones) == ZonePolicies(input, input.zoneRules.Keys)
    ensures DistinctPolicyNames(out)
    ensures Elements(out) == ZonePolicies(input, input.zoneRules.Keys) + GrantPolicies(input, input.grants.Keys)
  {
    out := zones;
    var todo := input.grants.Keys;
    ghost var done := {};
    while todo != {}
      invariant done !! todo && done + todo == input.grants.Keys
      invariant DistinctPolicyNames(out) && Elements(out) == Elements(zones) + GrantPolicies(input, done)
      decreases |todo|
    {
      var ws :| ws in todo;
      todo, done := todo - {ws}, done + {ws};
      GrantAdded(input, done - {ws}, ws, zones, out);
      assert done - {ws} + {ws} == done;
      var dns := ComputeDnsRules(input.grants[ws]);
      if |dns| > 0 {
        out := out + [CNP(GrantName(ws), [In([ws])], dns)];
      }
    }
    assert done == input.grants.Keys;
  }

  lemma GrantAdded(input: Input, done: set<string>, ws: string, zones: seq<CNP>, out: seq<CNP>)
    requires ws in input.grants && ws !in done && Elements(zones) == ZonePolicies(input, input.zoneRules.Keys)
    requires DistinctPolicyNames(out) && Elements(out) == Elements(zones) + GrantPolicies(input, done)
    ensures !GrantEmits(input, ws) ==> GrantPolicies(input, done + {ws}) == GrantPolicies(input, done)
    ensures GrantEmits(input, ws) ==> DistinctPolicyNames(out + [GrantPolicy(input, ws)])
    ensures GrantEmits(input, ws) ==>
            Elements(out + [GrantPolicy(input, ws)]) == Elements(zones) + GrantPolicies(input, done + {ws})
  {
    var p := GrantPolicy(input, ws);
    assert GrantEmits(input, ws) ==> GrantPolicies(input, done + {ws}) == GrantPolicies(input, done) + {p};
    assert Elements(out + [p]) == Elements(out) + {p};
    forall i | 0 <= i < |out| ensures out[i].name != p.name {
      assert out[i] in Elements(out);
      if out[i] in ZonePolicies(input, input.zoneRules.Keys) {
        var z :| z in input.zoneRules && ZoneEmits(input, z) && out[i] == ZonePolicy(input, z);
        NamesApart(z, z, ws, ws);
      } else {
        var ws' :| ws' in done && GrantEmits(input, ws') && out[i] == GrantPolicy(input, ws');
        NamesApart("", "", ws, ws');
      }
    }
  }

  // ---- Theorems ------------------------------------------------------------

  /** The output does not depend on the order in which Go's maps were visited. */
  lemma RenderUnique(input: Input, a: seq<CNP>, b: seq<CNP>)
    requires IsRender(input, a) && IsRender(input, b)
    ensures a == b
  {
    NameOrder([]);
    AscendingUnique(a, b, NameBefore);
  }

  lemma RenderNamesDistinct(input: Input, out: seq<CNP>)
    requires IsRender(input, out)
    ensures DistinctPolicyNames(out)
  {
    forall i, j | 0 <= i < j < |out| ensures out[i].name != out[j].name {
      assert NameBefore(out[i], out[j]);
      LessIrreflexive(out[i].name);
    }
  }

  lemma RenderMembers(input: Input, out: seq<CNP>, p: CNP)
    requires IsRender(input, out)
    ensures p in out <==> (exists z :: ZoneEmits(input, z) && p == ZonePolicy(input, z)) ||
                          (exists ws :: GrantEmits(input, ws) && p == GrantPolicy(input, ws))
  {
    assert p in out <==> p in Elements(out);
  }

  /** Selecting a pod by a zone's policy means: labelled, and that zone is its zone. */
  lemma ZoneSelectsItsWorkspaces(input: Input, z: string, pod: Option<string>)
    requires ZoneEmits(input, z)
    ensures Selects(ZonePolicy(input, z), pod) <==> pod.Some? && ZoneOf(input, pod.value) == z
  {
    var es := ZonePolicy(input, z).exprs;
    if z == input.defaultZone {
      assert es[0] == Exists;
      assert pod.Some? ==> (pod.value in Elsewhere(input) <==> ZoneOf(input, pod.value) != z);
      var l := Listing(Elsewhere(input));
      if Elsewhere(input) == {} {
        assert es == [Exists] && es[0] in es;
      } else {
        assert es == [Exists, NotIn(l)] && es[0] in es && es[1] in es;
        assert Selects(ZonePolicy(input, z), pod) <==> Holds(Exists, pod) && Holds(NotIn(l), pod);
        assert pod.Some? ==> (pod.value in l <==> pod.value in Elements(l));
      }
    } else {
      var l := Listing(Members(input, z));
      assert es == [In(l)] && es[0] in es;
      assert pod.Some? ==> (pod.value in l <==> pod.value in Elements(l));
    }
  }

  lemma GrantSelectsItsWorkspace(input: Input, ws: string, pod: Option<string>)
    requires GrantEmits(input, ws)
    ensures Selects(GrantPolicy(input, ws), pod) <==> pod == Some(ws)
  {
    var es := GrantPolicy(input, ws).exprs;
    assert es == [In([ws])] && es[0] in es;
  }

  /** No emitted policy opens everything, the API server accepts each one, and stars occur
      in patterns only. */
  lemma RenderedPoliciesAreSafe(input: Input, out: seq<CNP>, p: CNP)
    requires IsRender(input, out) && p in out
    ensures p.dns != [] && WellFormed(p) && WellTyped(p.dns)
  {
    RenderMembers(input, out, p);
    if z :| ZoneEmits(input, z) && p == ZonePolicy(input, z) {
      ZonePolicyIsSafe(input, z);
    } else {
      var ws :| GrantEmits(input, ws) && p == GrantPolicy(input, ws);
      DnsRulesWellTyped(input.grants[ws]);
    }
  }

  lemma ZonePolicyIsSafe(input: Input, z: string)
    requires ZoneEmits(input, z)
    ensures ZonePolicy(input, z).dns != [] && WellFormed(ZonePolicy(input, z)) && WellTyped(ZonePolicy(input, z).dns)
  {
    NoElements(Listing(Elsewhere(input)));
    NoElements(Listing(Members(input, z)));
    DnsRulesWellTyped(input.zoneRules[z]);
  }

  /** Plain names are valid and hold no star; patterns hold one. */
  predicate WellTyped(dns: seq<DnsRule>) {
    forall d :: d in dns ==> if d.MatchName? then ConcreteName(d.name) else ValidName(d.pattern) && '*' in d.pattern
  }

  lemma {:induction false} DnsRulesWellTyped(rules: seq<Rule>)
    ensures WellTyped(DnsRules(rules))
  {
    forall d | d in DnsRules(rules)
      ensures if d.MatchName? then ConcreteName(d.name) else ValidName(d.pattern) && '*' in d.pattern
    {
      var r :| r in OfKind(rules, "dns") && ToDns(r) == d;
      if IsWildcard(r.value) { assert r.value[0] in r.value; }
    }
  }

  ghost function EffectiveDns(input: Input, ws: string): set<DnsRule> {
    set r | r in Effective(input, ws, "dns") :: ToDns(r)
  }

  lemma EffectiveDnsParts(input: Input, ws: string, d: DnsRule)
    ensures d in EffectiveDns(input, ws) <==>
            d in DnsRules(Lookup(input.zoneRules, ZoneOf(input, ws))) || d in DnsRules(Lookup(input.grants, ws))
  {
  }

  /** Render refinement: a labelled workspace may resolve exactly its effective DNS rules,
      an unlabelled pod none of them. */
  lemma RenderIsPolicy(input: Input, out: seq<CNP>, pod: Option<string>)
    requires IsRender(input, out)
    ensures Allowed(out, pod) == Only(if pod.Some? then EffectiveDns(input, pod.value) else {})
  {
    forall p | p in out ensures p.dns != [] { RenderedPoliciesAreSafe(input, out, p); }
    var want := if pod.Some? then EffectiveDns(input, pod.value) else {};
    var got := set p, d | p in out && Selects(p, pod) && d in p.dns :: d;
    assert Allowed(out, pod) == Only(got);
    forall d ensures d in got <==> d in want {
      if d in got {
        var p :| p in out && Selects(p, pod) && d in p.dns;
        SelectedRuleIsEffective(input, out, pod, p, d);
      }
      if d in want {
        var p := EffectiveRuleIsSelected(input, out, pod.value, d);
      }
    }
  }

  lemma SelectedRuleIsEffective(input: Input, out: seq<CNP>, pod: Option<string>, p: CNP, d: DnsRule)
    requires IsRender(input, out) && p in out && Selects(p, pod) && d in p.dns
    ensures pod.Some? && d in EffectiveDns(input, pod.value)
  {
    RenderMembers(input, out, p);
    if z :| ZoneEmits(input, z) && p == ZonePolicy(input, z) {
      ZoneSelectsItsWorkspaces(input, z, pod);
    } else {
      var ws :| GrantEmits(input, ws) && p == GrantPolicy(input, ws);
      GrantSelectsItsWorkspace(input, ws, pod);
    }
    EffectiveDnsParts(input, pod.value, d);
  }

  lemma EffectiveRuleIsSelected(input: Input, out: seq<CNP>, ws: string, d: DnsRule) returns (p: CNP)
    requires IsRender(input, out) && d in EffectiveDns(input, ws)
    ensures p in out && Selects(p, Some(ws)) && d in p.dns
  {
    var z := ZoneOf(input, ws);
    EffectiveDnsParts(input, ws, d);
    if d in DnsRules(Lookup(input.zoneRules, z)) {
      assert z != input.defaultZone ==> ws in Members(input, z);
      p := ZonePolicy(input, z);
      ZoneSelectsItsWorkspaces(input, z, Some(ws));
      RenderMembers(input, out, p);
    } else {
      p := GrantPolicy(input, ws);
      GrantSelectsItsWorkspace(input, ws, Some(ws));
      RenderMembers(input, out, p);
    }
  }

  /** Patterns and names never blur: equal DNS rules come from equal values. */
  lemma ToDnsInjective(r: Rule, r': Rule)
    requires ValidRule(r) && ValidRule(r') && r.kind == "dns" && r'.kind == "dns" && ToDns(r) == ToDns(r')
    ensures r == r'
  {
  }

  /** The same on rules: what stands in a selecting policy for a rule stands for no other. */
  lemma RuleResolvesIffEffective(input: Input, out: seq<CNP>, ws: string, x: Rule)
    requires IsRender(input, out) && x.kind == "dns" && ValidRule(x)
    ensures Allowed(out, Some(ws)).Only? &&
            (ToDns(x) in Allowed(out, Some(ws)).rules <==> x in Effective(input, ws, "dns"))
  {
    RenderIsPolicy(input, out, Some(ws));
    if ToDns(x) in EffectiveDns(input, ws) {
      var r :| r in Effective(input, ws, "dns") && ToDns(r) == ToDns(x);
      EffectiveValid(input, ws, "dns", r);
      ToDnsInjective(r, x);
    }
  }
}
