/** What Envoy enforces when it runs a built snapshot: exactly the effective host rules. */
module Enforcement {
  import opened Text
  import opened Names
  import opened Policy
  import opened Xds

  /** The port part of the authority under which a key's domain is listed. */
  datatype Tail = Bare | Port80 | Port443

  function TailText(t: Tail): string {
    match t case Bare => "" case Port80 => ":80" case Port443 => ":443"
  }

  predicate TailOf(k: HostKey, t: Tail) {
    if IsTls(k) then t.Port443? else !t.Port443?
  }

  function Domain(host: string, t: Tail): string {
    host + TailText(t)
  }

  lemma DomainsOf(k: HostKey, d: string)
    ensures d in Domains(k) <==> exists t :: TailOf(k, t) && d == Domain(k.host, t)
  {
    assert Domain(k.host, Bare) == k.host;
    assert Domain(k.host, Port80) == k.host + ":80" && Domain(k.host, Port443) == k.host + ":443";
    if d in Domains(k) {
      var t := if IsTls(k) then Port443 else if d == k.host then Bare else Port80;
      assert TailOf(k, t) && d == Domain(k.host, t);
    }
    if t :| TailOf(k, t) && d == Domain(k.host, t) {
      assert t == Bare || t == Port80 || t == Port443;
    }
  }

  /** A valid name's domain fits either exactly or as a suffix wildcard, never as catch-all. */
  lemma FitOfDomain(host: string, t: Tail, a: string)
    requires ValidName(host)
    ensures var d := Domain(host, t);
            && (IsWildcard(host) ==>
                Fit(d, a) == if |a| >= |d| && HasSuffix(a, host[1..] + TailText(t)) then |d| - 1 else -1)
            && (!IsWildcard(host) ==> Fit(d, a) == if d == a then |a| + 1 else -1)
  {
    ValidNameShape(host);
    var d := Domain(host, t);
    assert d[0] == host[0] && |d| >= 2;
    assert d[1..] == host[1..] + TailText(t);
  }

  /** The last character of the authority tells which tail a fitting domain has. */
  lemma FitFixesTail(host: string, t: Tail, a: string)
    requires ValidName(host) && Fit(Domain(host, t), a) >= 0
    ensures a != []
    ensures var c := a[|a| - 1]; match t case Bare => 'a' <= c <= 'z' case Port80 => c == '0' case Port443 => c == '3'
  {
    ValidNameShape(host);
    FitOfDomain(host, t, a);
    var d := Domain(host, t);
    assert d[|d| - 1] == if t.Bare? then host[|host| - 1] else TailText(t)[|TailText(t)| - 1];
    if IsWildcard(host) {
      var e := host[1..] + TailText(t);
      assert e[|e| - 1] == d[|d| - 1];
      assert a[|a| - |e|..][|e| - 1] == a[|a| - 1];
    }
  }

  /** Of two domains that fit one authority, the looser one's key admits the tighter one's. */
  lemma LooserAdmitsTighter(k0: HostKey, t0: Tail, k: HostKey, t: Tail, a: string)
    requires ValidKey(k0) && ValidKey(k) && TailOf(k0, t0) && TailOf(k, t)
    requires 0 <= Fit(Domain(k0.host, t0), a) <= Fit(Domain(k.host, t), a)
    ensures Admits(k0, k)
  {
    FitFixesTail(k0.host, t0, a);
    FitFixesTail(k.host, t, a);
    FitOfDomain(k0.host, t0, a);
    FitOfDomain(k.host, t, a);
    ValidNameShape(k0.host);
    assert t0 == t && k0.port == k.port;
    var tail := TailText(t);
    if !IsWildcard(k0.host) {
      assert !IsWildcard(k.host);
      assert k0.host == Domain(k0.host, t)[..|k0.host|] && k.host == Domain(k.host, t)[..|k.host|];
    } else if !IsWildcard(k.host) {
      SuffixAppend(k.host, k0.host[1..], tail);
    } else {
      SuffixesComparable(a, k0.host[1..] + tail, k.host[1..] + tail);
      SuffixAppend(k.host[1..], k0.host[1..], tail);
      SuffixTransitive(k.host, k.host[1..], k0.host[1..]);
    }
  }

  /** Whatever reaches a key's domain is also served by any key that admits it. */
  lemma AdmittingFits(k0: HostKey, k: HostKey, t: Tail, a: string)
    requires ValidKey(k0) && ValidKey(k) && TailOf(k, t) && Admits(k0, k)
    requires Fit(Domain(k.host, t), a) >= 0
    ensures TailOf(k0, t) && Fit(Domain(k0.host, t), a) >= 0
  {
    if k0 != k {
      FitOfDomain(k0.host, t, a);
      FitOfDomain(k.host, t, a);
      ValidNameShape(k0.host);
      ValidNameShape(k.host);
      var s0, tail := k0.host[1..], TailText(t);
      assert s0[0] == '.';
      assert k.host[|k.host| - |s0|] == '.';
      if IsWildcard(k.host) {
        assert HasSuffix(k.host, k.host[1..]);
        SuffixesComparable(k.host, s0, k.host[1..]);
        SuffixAppend(k.host[1..], s0, tail);
        SuffixTransitive(a, k.host[1..] + tail, s0 + tail);
      } else {
        SuffixAppend(k.host, s0, tail);
      }
    }
  }

  // ---- Stage 1 -------------------------------------------------------------

  /** The rule alone serves this request: tunnels for port 443, plain requests for port 80. */
  ghost predicate Serves(r: Rule, connect: bool, a: string) {
    connect == IsTls(KeyOf(r)) && exists t :: TailOf(KeyOf(r), t) && Fit(Domain(r.value, t), a) >= 0
  }

  /** The simple meaning of the policy: some running pod with this source address has an
      effective host rule that serves the request. */
  ghost predicate Permitted(input: Input, ip: string, connect: bool, a: string) {
    exists p, r :: HasHostRule(input, p, r) && p.ip == ip && Serves(r, connect, a)
  }

  predicate ValidHosts(hosts: Hosts) {
    forall k :: k in hosts ==> ValidKey(k)
  }

  /** `keys` lists the keys of `hosts`, each once; `tls` those with port 443. */
  ghost predicate Lists(keys: seq<HostKey>, hosts: Hosts) {
    Within(keys, hosts) && Distinct(keys) && forall k :: k in hosts ==> k in keys
  }

  lemma KeyListingLists(hosts: Hosts)
    ensures Lists(KeyListing(hosts.Keys), hosts)
  {
    var keys := KeyListing(hosts.Keys);
    KeyOrder(hosts.Keys);
    AscendingDistinct(keys, KeyBefore);
    assert forall k :: k in keys <==> k in Elements(keys);
  }

  lemma VHostMembers(h: Hash, hosts: Hosts, keys: seq<HostKey>, v: VHost)
    requires Within(keys, hosts)
    ensures v in AllVHosts(h, hosts, keys) <==> v == DENY || exists k :: k in keys && v == VHostFor(h, k, hosts[k])
  {
    var vs := AllVHosts(h, hosts, keys);
    if v in vs && v != DENY {
      var i :| 0 <= i < |keys| && vs[i] == v;
      assert keys[i] in keys;
    }
    if k :| k in keys && v == VHostFor(h, k, hosts[k]) {
      var i :| 0 <= i < |keys| && keys[i] == k;
      assert vs[i] == v;
    }
    assert vs[|keys|] == DENY;
  }

  /** The key of the virtual host that Envoy picks is the tightest one that fits. */
  ghost predicate Selected(hosts: Hosts, a: string, k: HostKey, t: Tail) {
    && k in hosts && TailOf(k, t) && Fit(Domain(k.host, t), a) >= 0
    && forall k0, t0 :: k0 in hosts && TailOf(k0, t0) ==> Fit(Domain(k0.host, t0), a) <= Fit(Domain(k.host, t), a)
  }

  lemma {:induction false} BestFitOfKey(k: HostKey, t: Tail, a: string)
    requires TailOf(k, t)
    ensures Fit(Domain(k.host, t), a) <= BestFit(Domains(k), a)
  {
    DomainsOf(k, Domain(k.host, t));
  }

  /** Envoy's choice of virtual host, in terms of keys. */
  lemma PickIsTightest(h: Hash, hosts: Hosts, keys: seq<HostKey>, a: string) returns (found: bool, k: HostKey, t: Tail)
    requires ValidHosts(hosts) && Lists(keys, hosts)
    ensures found ==>
            Selected(hosts, a, k, t) && PickVHost(AllVHosts(h, hosts, keys), a) == Some(VHostFor(h, k, hosts[k]))
    ensures !found ==> PickVHost(AllVHosts(h, hosts, keys), a) == Some(DENY)
    ensures !found ==> forall k0, t0 :: k0 in hosts && TailOf(k0, t0) ==> Fit(Domain(k0.host, t0), a) < 0
  {
    var vs := AllVHosts(h, hosts, keys);
    var v := PickVHost(vs, a);
    VHostMembers(h, hosts, keys, DENY);
    assert "*" in DENY.domains && Fit("*", a) == 0;
    assert v.Some?;
    VHostMembers(h, hosts, keys, v.value);
    found := v.value != DENY;
    k, t := HostKey("", 0), Bare;
    if found {
      k :| k in keys && v.value == VHostFor(h, k, hosts[k]);
      var d :| d in Domains(k) && Fit(d, a) == BestFit(Domains(k), a);
      DomainsOf(k, d);
      t :| TailOf(k, t) && d == Domain(k.host, t);
    }
    forall k0, t0 | k0 in hosts && TailOf(k0, t0)
      ensures Fit(Domain(k0.host, t0), a) <= BestFit(v.value.domains, a)
      ensures !found ==> Fit(Domain(k0.host, t0), a) < 0
    {
      VHostMembers(h, hosts, keys, VHostFor(h, k0, hosts[k0]));
      BestFitOfKey(k0, t0, a);
      FitOfDomain(k0.host, t0, a);
      assert BestFit(DENY.domains, a) == 0;
    }
  }

  /** Compile correctness: the built configuration allows a request, for any authority text,
      exactly when the policy permits it. */
  lemma Stage1IsPolicy(h: Hash, input: Input, hosts: Hosts, url: string, ip: string, connect: bool, a: string)
    requires IsHostIPs(input, hosts)
    ensures Stage1(Built(h, hosts, url), ip, connect, a).Some? <==> Permitted(input, ip, connect, a)
  {
    HostsAreValid(input, hosts);
    KeyListingLists(hosts);
    var found, k, t := PickIsTightest(h, hosts, KeyListing(hosts.Keys), a);
    if found {
      Stage1OfKey(h, Built(h, hosts, url), k, hosts[k], ip, connect, a);
      SelectedMeansPermitted(input, hosts, ip, connect, a, k, t);
    } else {
      UnfitMeansRefused(input, hosts, ip, connect, a);
    }
  }

  lemma {:induction false} Stage1OfKey(h: Hash, s: Snapshot, k: HostKey, ips: seq<string>, ip: string, connect: bool,
                                       a: string)
    requires PickVHost(s.vhosts, a) == Some(VHostFor(h, k, ips))
    ensures Stage1(s, ip, connect, a).Some? <==> ip in ips && connect == IsTls(k)
  {
    FirstRouteFor(h, k, ips, connect);
  }

  lemma UnfitMeansRefused(input: Input, hosts: Hosts, ip: string, connect: bool, a: string)
    requires IsHostIPs(input, hosts)
    requires forall k, t :: k in hosts && TailOf(k, t) ==> Fit(Domain(k.host, t), a) < 0
    ensures !Permitted(input, ip, connect, a)
  {
    forall p, r | HasHostRule(input, p, r) ensures !Serves(r, connect, a) {
      assert Ruled(input, KeyOf(r));
      assert KeyOf(r) in hosts;
    }
  }

  lemma HostsAreValid(input: Input, hosts: Hosts)
    requires IsHostIPs(input, hosts)
    ensures ValidHosts(hosts)
  {
    forall k | k in hosts ensures ValidKey(k) { HostIPsValid(input, hosts, k); }
  }

  lemma {:induction false} FirstRouteFor(h: Hash, k: HostKey, ips: seq<string>, connect: bool)
    ensures FirstRoute([RouteFor(h, k, ips)], connect) ==
            if connect == IsTls(k) then Some(RouteFor(h, k, ips)) else None
  {
    assert [RouteFor(h, k, ips)][1..] == [];
  }

  lemma SelectedMeansPermitted(input: Input, hosts: Hosts, ip: string, connect: bool, a: string, k: HostKey, t: Tail)
    requires IsHostIPs(input, hosts) && ValidHosts(hosts) && Selected(hosts, a, k, t)
    ensures ip in hosts[k] && connect == IsTls(k) <==> Permitted(input, ip, connect, a)
  {
    assert ip in hosts[k] <==> Reaches(input, ip, k);
    if Reaches(input, ip, k) && connect == IsTls(k) {
      var p, r :| HasHostRule(input, p, r) && p.ip == ip && Admits(KeyOf(r), k);
      EffectiveValid(input, p.id, "host", r);
      AdmittingFits(KeyOf(r), k, t, a);
      assert Serves(r, connect, a);
    }
    if Permitted(input, ip, connect, a) {
      var p, r :| HasHostRule(input, p, r) && p.ip == ip && Serves(r, connect, a);
      EffectiveValid(input, p.id, "host", r);
      assert Ruled(input, KeyOf(r));
      assert KeyOf(r) in hosts;
      var t0 :| TailOf(KeyOf(r), t0) && Fit(Domain(r.value, t0), a) >= 0;
      LooserAdmitsTighter(KeyOf(r), t0, k, t, a);
      assert Reaches(input, ip, k);
    }
  }

  lemma FitIsCovers(pattern: string, t: Tail, host: string)
    requires ValidName(pattern) && ConcreteName(host)
    ensures Fit(Domain(pattern, t), Domain(host, t)) >= 0 <==> Covers(pattern, host)
  {
    ValidNameShape(host);
    ValidNameShape(pattern);
    FitOfDomain(pattern, t, Domain(host, t));
    if IsWildcard(pattern) {
      SuffixAppend(host, pattern[1..], TailText(t));
      assert HasSuffix(host, pattern[1..]) ==> host[|host| - (|pattern| - 1)] == '.';
    } else {
      assert pattern == Domain(pattern, t)[..|pattern|] && host == Domain(host, t)[..|host|];
    }
  }

  lemma FitSharesTail(pattern: string, t0: Tail, t: Tail, host: string)
    requires ValidName(pattern) && ConcreteName(host) && Fit(Domain(pattern, t0), Domain(host, t)) >= 0
    ensures t0 == t
  {
    FitOfDomain(host, t, Domain(host, t));
    FitFixesTail(host, t, Domain(host, t));
    FitFixesTail(pattern, t0, Domain(host, t));
  }

  /** For an exact host name the request is served by exactly the rules that cover it. */
  lemma ServesIsCovers(r: Rule, t: Tail, connect: bool, host: string)
    requires ValidRule(r) && r.kind == "host" && ConcreteName(host)
    ensures Serves(r, connect, Domain(host, t)) <==>
            connect == IsTls(KeyOf(r)) && TailOf(KeyOf(r), t) && Covers(r.value, host)
  {
    if t0 :| TailOf(KeyOf(r), t0) && Fit(Domain(r.value, t0), Domain(host, t)) >= 0 {
      FitSharesTail(r.value, t0, t, host);
    }
    FitIsCovers(r.value, t, host);
  }

  /** The same theorem in the documentation's words: a pod address may reach an exact host on
      port 443 (by tunnel) or port 80 (plainly) iff an effective rule of that port covers it. */
  lemma HostAccessIsPolicy(h: Hash, input: Input, hosts: Hosts, url: string, ip: string, t: Tail, host: string)
    requires IsHostIPs(input, hosts) && ConcreteName(host)
    ensures Stage1(Built(h, hosts, url), ip, t.Port443?, Domain(host, t)).Some? <==>
            exists p, r ::
              && HasHostRule(input, p, r) && p.ip == ip
              && r.port == (if t.Port443? then 443 else 80) && Covers(r.value, host)
    // A tunnel to the plain port and a plain request to the TLS port are always refused.
    ensures Stage1(Built(h, hosts, url), ip, !t.Port443?, Domain(host, t)).None?
  {
    Stage1IsPolicy(h, input, hosts, url, ip, t.Port443?, Domain(host, t));
    Stage1IsPolicy(h, input, hosts, url, ip, !t.Port443?, Domain(host, t));
    forall p, r, c | HasHostRule(input, p, r)
      ensures Serves(r, c, Domain(host, t)) <==>
              c == t.Port443? && r.port == (if t.Port443? then 443 else 80) && Covers(r.value, host)
    {
      EffectiveValid(input, p.id, "host", r);
      ServesIsCovers(r, t, c, host);
    }
  }

  // ---- Names ---------------------------------------------------------------

  /** No two of these preimages share a truncated hash. */
  ghost predicate CollisionFree(h: Hash, preimages: set<string>) {
    forall x, y :: x in preimages && y in preimages && h(x) == h(y) ==> x == y
  }

  ghost function Preimages(hosts: Hosts): set<string> {
    set k | k in hosts :: Preimage(k, hosts[k])
  }

  predicate CommaFree(ips: seq<string>) {
    forall i :: 0 <= i < |ips| ==> ips[i] != "" && ',' !in ips[i]
  }

  lemma FirstCut(a: string, c: char, x: string)
    requires c !in a
    ensures var s := a + [c] + x;
            s[|a|] == c && (forall i :: 0 <= i < |a| ==> s[i] != c) && s[..|a|] == a && s[|a| + 1..] == x
  {
    var s := a + [c] + x;
    forall i | 0 <= i < |a| ensures s[i] != c { assert s[i] == a[i]; }
  }

  /** Cutting at the first separator recovers both halves. */
  lemma CutUnique(a: string, x: string, b: string, y: string, c: char)
    requires c !in a && c !in b && a + [c] + x == b + [c] + y
    ensures a == b && x == y
  {
    FirstCut(a, c, x);
    FirstCut(b, c, y);
    assert |a| == |b|;
  }

  lemma {:induction false} JoinShape(a: seq<string>)
    requires CommaFree(a)
    ensures Join(a, ",") == "" <==> a == []
    ensures ',' in Join(a, ",") <==> |a| > 1
  {
    if |a| > 1 {
      var s := Join(a, ",");
      assert s == a[0] + "," + Join(a[1..], ",");
      assert s[|a[0]|] == ',';
    }
  }

  lemma {:induction false} JoinInjective(a: seq<string>, b: seq<string>)
    requires CommaFree(a) && CommaFree(b) && Join(a, ",") == Join(b, ",")
    ensures a == b
  {
    JoinShape(a);
    JoinShape(b);
    if |a| == 1 {
      assert a == [a[0]] && b == [b[0]];
    } else if |a| > 1 {
      CutUnique(a[0], Join(a[1..], ","), b[0], Join(b[1..], ","), ',');
      JoinInjective(a[1..], b[1..]);
      assert a == [a[0]] + a[1..] && b == [b[0]] + b[1..];
    }
  }

  lemma PortTexts()
    ensures Decimal(443) == "443" && Decimal(80) == "80"
  {
    assert Digits(4) == "4" && Digits(44) == "44" && Digits(8) == "8";
  }

  /** What follows the host in the hashed text. */
  function AfterHost(k: HostKey, ips: seq<string>): string {
    Decimal(k.port) + "|" + Join(ips, ",")
  }

  lemma {:induction false} PreimageSplits(k: HostKey, ips: seq<string>)
    ensures Preimage(k, ips) == k.host + "|" + AfterHost(k, ips)
  {
  }

  lemma PreimageHost(host: string, x: string, host': string, x': string)
    requires ValidName(host) && ValidName(host') && host + "|" + x == host' + "|" + x'
    ensures host == host' && x == x'
  {
    ValidNameShape(host);
    ValidNameShape(host');
    CutUnique(host, x, host', x', '|');
  }

  lemma {:induction false} PreimagePort(k: HostKey, ips: seq<string>, k': HostKey, ips': seq<string>)
    requires (k.port == 443 || k.port == 80) && (k'.port == 443 || k'.port == 80) &&
             AfterHost(k, ips) == AfterHost(k', ips')
    ensures k.port == k'.port && Join(ips, ",") == Join(ips', ",")
  {
    PortTexts();
    CutUnique(Decimal(k.port), Join(ips, ","), Decimal(k'.port), Join(ips', ","), '|');
  }

  lemma {:induction false} PreimageKey(k: HostKey, ips: seq<string>, k': HostKey, ips': seq<string>)
    requires ValidKey(k) && ValidKey(k') && Preimage(k, ips) == Preimage(k', ips')
    ensures k == k' && Join(ips, ",") == Join(ips', ",")
  {
    PreimageSplits(k, ips);
    PreimageSplits(k', ips');
    PreimageHost(k.host, AfterHost(k, ips), k'.host, AfterHost(k', ips'));
    PreimagePort(k, ips, k', ips');
  }

  /** The text that is hashed determines the key and the address list. */
  lemma PreimageInjective(k: HostKey, ips: seq<string>, k': HostKey, ips': seq<string>)
    requires ValidKey(k) && ValidKey(k') && CommaFree(ips) && CommaFree(ips')
    ensures Preimage(k, ips) == Preimage(k', ips') <==> k == k' && ips == ips'
  {
    if Preimage(k, ips) == Preimage(k', ips') {
      PreimageKey(k, ips, k', ips');
      JoinInjective(ips, ips');
    }
  }

  lemma NamesDistinguishKeys(h: Hash, hosts: Hosts, k: HostKey, k': HostKey)
    requires ValidHosts(hosts) && CollisionFree(h, Preimages(hosts)) && k in hosts && k' in hosts
    requires HashName(h, k, hosts[k]) == HashName(h, k', hosts[k'])
    ensures k == k'
  {
    PreimageKey(k, hosts[k], k', hosts[k']);
  }

  lemma SniNameIs(h: Hash, k: HostKey, ips: seq<string>)
    ensures SniName(h, k, ips)[0] == 's' && SniName(h, k, ips)[4..] == HashName(h, k, ips)
  {
  }

  // ---- Snapshot closure ----------------------------------------------------

  lemma {:induction false} FindClusterIs(clusters: seq<Cluster>, i: nat)
    requires i < |clusters| && forall j :: 0 <= j < i ==> clusters[j].id != clusters[i].id
    ensures FindCluster(clusters, clusters[i].id) == Some(clusters[i])
  {
    if i > 0 { FindClusterIs(clusters[1..], i - 1); }
  }

  lemma {:induction false} FindListenerIs(listeners: seq<Listener>, i: nat)
    requires i < |listeners| && forall j :: 0 <= j < i ==> ListenerName(listeners[j]) != ListenerName(listeners[i])
    ensures FindListener(listeners, ListenerName(listeners[i])) == Some(listeners[i])
  {
    if i > 0 { FindListenerIs(listeners[1..], i - 1); }
  }

  ghost predicate DistinctNames(s: Snapshot) {
    && (forall i, j :: 0 <= i < j < |s.listeners| ==> ListenerName(s.listeners[i]) != ListenerName(s.listeners[j]))
    && (forall i, j :: 0 <= i < j < |s.clusters| ==> s.clusters[i].id != s.clusters[j].id)
    && (forall i, j :: 0 <= i < j < |s.vhosts| ==> s.vhosts[i].name != s.vhosts[j].name)
  }

  lemma {:induction false} TlsLists(keys: seq<HostKey>, hosts: Hosts)
    requires Lists(keys, hosts)
    ensures var tls := TlsKeys(keys);
            Within(tls, hosts) && Distinct(tls) && forall k :: k in tls <==> k in hosts && IsTls(k)
  {
    TlsKeysDistinct(keys);
  }

  lemma ResourceNamesDistinct(h: Hash, hosts: Hosts, url: string)
    requires ValidHosts(hosts) && CollisionFree(h, Preimages(hosts))
    ensures DistinctNames(Built(h, hosts, url))
  {
    var keys := KeyListing(hosts.Keys);
    KeyListingLists(hosts);
    TlsLists(keys, hosts);
    var s, tls := Built(h, hosts, url), TlsKeys(keys);
    TlsSniNamesDiffer(h, hosts, tls);
    forall i, j | 0 <= i < j < |s.listeners| ensures ListenerName(s.listeners[i]) != ListenerName(s.listeners[j]) {
      ListenerNamesDiffer(h, hosts, tls, url, i, j);
    }
    forall i, j | 0 <= i < j < |s.clusters| ensures s.clusters[i].id != s.clusters[j].id {
      ClusterNamesDiffer(h, hosts, tls, i, j);
    }
    forall i, j | 0 <= i < j < |s.vhosts| ensures s.vhosts[i].name != s.vhosts[j].name {
      VHostNamesDiffer(h, hosts, keys, i, j);
    }
  }

  ghost predicate SniNamesDiffer(h: Hash, hosts: Hosts, tls: seq<HostKey>) {
    && Within(tls, hosts)
    && forall i, j :: 0 <= i < j < |tls| ==> SniName(h, tls[i], hosts[tls[i]]) != SniName(h, tls[j], hosts[tls[j]])
  }

  lemma TlsSniNamesDiffer(h: Hash, hosts: Hosts, tls: seq<HostKey>)
    requires ValidHosts(hosts) && CollisionFree(h, Preimages(hosts)) && Within(tls, hosts) && Distinct(tls)
    ensures SniNamesDiffer(h, hosts, tls)
  {
    forall i, j | 0 <= i < j < |tls| ensures SniName(h, tls[i], hosts[tls[i]]) != SniName(h, tls[j], hosts[tls[j]]) {
      TlsNamesDiffer(h, hosts, tls[i], tls[j]);
    }
  }

  lemma ListenerNamesDiffer(h: Hash, hosts: Hosts, tls: seq<HostKey>, url: string, i: nat, j: nat)
    requires SniNamesDiffer(h, hosts, tls) && i < j <= |tls|
    ensures ListenerName(AllListeners(h, hosts, tls, url)[i]) != ListenerName(AllListeners(h, hosts, tls, url)[j])
  {
    SniNameIs(h, tls[j - 1], hosts[tls[j - 1]]);
    assert "proxy"[0] == 'p';
  }

  lemma ClusterNamesDiffer(h: Hash, hosts: Hosts, tls: seq<HostKey>, i: nat, j: nat)
    requires SniNamesDiffer(h, hosts, tls) && i < j < |tls| + 2
    ensures AllClusters(h, hosts, tls)[i].id != AllClusters(h, hosts, tls)[j].id
  {
    assert "dfp_http"[0] == 'd' && "dfp_sni"[0] == 'd' && |"dfp_http"| != |"dfp_sni"|;
    if j >= 2 { SniNameIs(h, tls[j - 2], hosts[tls[j - 2]]); }
  }

  lemma VHostNamesDiffer(h: Hash, hosts: Hosts, keys: seq<HostKey>, i: nat, j: nat)
    requires ValidHosts(hosts) && CollisionFree(h, Preimages(hosts)) && Within(keys, hosts) && Distinct(keys) &&
             i < j <= |keys|
    ensures AllVHosts(h, hosts, keys)[i].name != AllVHosts(h, hosts, keys)[j].name
  {
    var n := "h_" + HashName(h, keys[i], hosts[keys[i]]);
    assert n[0] == 'h' && DENY.name[0] == 'd' && n[2..] == HashName(h, keys[i], hosts[keys[i]]);
    if j < |keys| {
      var n' := "h_" + HashName(h, keys[j], hosts[keys[j]]);
      assert n'[2..] == HashName(h, keys[j], hosts[keys[j]]);
      if n == n' { NamesDistinguishKeys(h, hosts, keys[i], keys[j]); }
    }
  }

  lemma TlsNamesDiffer(h: Hash, hosts: Hosts, k: HostKey, k': HostKey)
    requires ValidHosts(hosts) && CollisionFree(h, Preimages(hosts)) && k in hosts && k' in hosts && k != k'
    ensures SniName(h, k, hosts[k]) != SniName(h, k', hosts[k'])
  {
    SniNameIs(h, k, hosts[k]);
    SniNameIs(h, k', hosts[k']);
    if SniName(h, k, hosts[k]) == SniName(h, k', hosts[k']) { NamesDistinguishKeys(h, hosts, k, k'); }
  }

  /** Every tunnel route leads to its own cluster and on to the listener built for its key. */
  lemma TunnelChain(h: Hash, hosts: Hosts, url: string, k: HostKey)
    requires ValidHosts(hosts) && CollisionFree(h, Preimages(hosts)) && k in hosts && IsTls(k)
    ensures FindCluster(Built(h, hosts, url).clusters, SniName(h, k, hosts[k])) == Some(ClusterFor(h, k, hosts[k]))
    ensures FindListener(Built(h, hosts, url).listeners, SniName(h, k, hosts[k])) == Some(ListenerFor(h, k, hosts[k]))
  {
    KeyListingLists(hosts);
    TlsLists(KeyListing(hosts.Keys), hosts);
    TlsSniNamesDiffer(h, hosts, TlsKeys(KeyListing(hosts.Keys)));
    ChainOf(h, hosts, TlsKeys(KeyListing(hosts.Keys)), url, k);
  }

  lemma ChainOf(h: Hash, hosts: Hosts, tls: seq<HostKey>, url: string, k: HostKey)
    requires SniNamesDiffer(h, hosts, tls) && k in tls
    ensures FindCluster(AllClusters(h, hosts, tls), SniName(h, k, hosts[k])) == Some(ClusterFor(h, k, hosts[k]))
    ensures FindListener(AllListeners(h, hosts, tls, url), SniName(h, k, hosts[k])) == Some(ListenerFor(h, k, hosts[k]))
  {
    var i :| 0 <= i < |tls| && tls[i] == k;
    ClusterFound(h, hosts, tls, i);
    ListenerFound(h, hosts, tls, url, i);
  }

  lemma ClusterFound(h: Hash, hosts: Hosts, tls: seq<HostKey>, i: nat)
    requires SniNamesDiffer(h, hosts, tls) && i < |tls|
    ensures FindCluster(AllClusters(h, hosts, tls), SniName(h, tls[i], hosts[tls[i]])) ==
            Some(ClusterFor(h, tls[i], hosts[tls[i]]))
  {
    var cs := AllClusters(h, hosts, tls);
    forall j | 0 <= j < i + 2 ensures cs[j].id != cs[i + 2].id { ClusterNamesDiffer(h, hosts, tls, j, i + 2); }
    assert cs[i + 2] == ClusterFor(h, tls[i], hosts[tls[i]]);
    FindClusterIs(cs, i + 2);
  }

  lemma ListenerFound(h: Hash, hosts: Hosts, tls: seq<HostKey>, url: string, i: nat)
    requires SniNamesDiffer(h, hosts, tls) && i < |tls|
    ensures FindListener(AllListeners(h, hosts, tls, url), SniName(h, tls[i], hosts[tls[i]])) ==
            Some(ListenerFor(h, tls[i], hosts[tls[i]]))
  {
    var ls := AllListeners(h, hosts, tls, url);
    forall j | 0 <= j < i + 1 ensures ListenerName(ls[j]) != ListenerName(ls[i + 1]) {
      ListenerNamesDiffer(h, hosts, tls, url, j, i + 1);
    }
    assert ls[i + 1] == ListenerFor(h, tls[i], hosts[tls[i]]);
    FindListenerIs(ls, i + 1);
  }

  lemma DynamicClusters(h: Hash, hosts: Hosts, tls: seq<HostKey>)
    requires Within(tls, hosts)
    ensures FindCluster(AllClusters(h, hosts, tls), "dfp_http") == Some(DynamicForward("dfp_http"))
    ensures FindCluster(AllClusters(h, hosts, tls), "dfp_sni") == Some(DynamicForward("dfp_sni"))
  {
    var cs := AllClusters(h, hosts, tls);
    assert cs[0] == DynamicForward("dfp_http") && cs[1] == DynamicForward("dfp_sni") && |"dfp_http"| != |"dfp_sni"|;
    FindClusterIs(cs, 0);
    FindClusterIs(cs, 1);
  }

  /** Where a request that is let through goes, and on from there. */
  predicate Resolves(s: Snapshot, connect: bool, cluster: string) {
    if !connect then FindCluster(s.clusters, cluster) == Some(DynamicForward(cluster))
    else
      && FindCluster(s.clusters, cluster) == Some(Internal(cluster, cluster))
      && var l := FindListener(s.listeners, cluster);
         l.Some? && l.value.Stage2? && l.value.port == 443 &&
         FindCluster(s.clusters, l.value.upstream) == Some(DynamicForward(l.value.upstream))
  }

  lemma {:induction false} KeyResolves(h: Hash, s: Snapshot, k: HostKey, ips: seq<string>, ip: string, connect: bool,
                                       a: string)
    requires PickVHost(s.vhosts, a) == Some(VHostFor(h, k, ips))
    requires FindCluster(s.clusters, "dfp_http") == Some(DynamicForward("dfp_http"))
    requires FindCluster(s.clusters, "dfp_sni") == Some(DynamicForward("dfp_sni"))
    requires IsTls(k) ==> FindCluster(s.clusters, SniName(h, k, ips)) == Some(ClusterFor(h, k, ips))
    requires IsTls(k) ==> FindListener(s.listeners, SniName(h, k, ips)) == Some(ListenerFor(h, k, ips))
    ensures var c := Stage1(s, ip, connect, a); c.Some? ==> Resolves(s, connect, c.value)
  {
    FirstRouteFor(h, k, ips, connect);
  }

  /** Every request that is let through has somewhere to go: a plain one to the dynamic
      forward proxy; a tunnel to the cluster of its own stage 2 listener, which dials port 443
      through a cluster that exists as well. */
  lemma RoutesResolve(h: Hash, hosts: Hosts, url: string, ip: string, connect: bool, a: string)
    requires ValidHosts(hosts) && CollisionFree(h, Preimages(hosts))
    ensures var c := Stage1(Built(h, hosts, url), ip, connect, a);
            c.Some? ==> Resolves(Built(h, hosts, url), connect, c.value)
  {
    var keys := KeyListing(hosts.Keys);
    KeyListingLists(hosts);
    TlsLists(keys, hosts);
    var found, k, t := PickIsTightest(h, hosts, keys, a);
    if found {
      DynamicClusters(h, hosts, TlsKeys(keys));
      if IsTls(k) { TunnelChain(h, hosts, url, k); }
      KeyResolves(h, Built(h, hosts, url), k, hosts[k], ip, connect, a);
    }
  }

  /** No virtual-host domain is listed twice, so Envoy accepts the route table and the choice
      of virtual host is never ambiguous. */
  lemma DomainsDisjoint(h: Hash, hosts: Hosts, url: string, i: nat, j: nat, d: string)
    requires ValidHosts(hosts)
    requires i < |Built(h, hosts, url).vhosts| && j < |Built(h, hosts, url).vhosts|
    requires d in Built(h, hosts, url).vhosts[i].domains && d in Built(h, hosts, url).vhosts[j].domains
    ensures i == j
  {
    KeyListingLists(hosts);
    VHostDomainsDisjoint(h, hosts, KeyListing(hosts.Keys), i, j, d);
  }

  lemma VHostDomainsDisjoint(h: Hash, hosts: Hosts, keys: seq<HostKey>, i: nat, j: nat, d: string)
    requires ValidHosts(hosts) && Within(keys, hosts) && Distinct(keys) && i <= |keys| && j <= |keys|
    requires d in AllVHosts(h, hosts, keys)[i].domains && d in AllVHosts(h, hosts, keys)[j].domains
    ensures i == j
  {
    if i < |keys| { KeyDomain(keys[i], d); }
    if j < |keys| { KeyDomain(keys[j], d); }
    if i < |keys| && j < |keys| { DomainFixesKey(keys[i], keys[j], d); }
  }

  lemma KeyDomain(k: HostKey, d: string)
    requires ValidKey(k) && d in Domains(k)
    ensures d != "*"
  {
    ValidNameShape(k.host);
    assert |d| >= 2;
  }

  lemma DomainFixesKey(k: HostKey, k': HostKey, d: string)
    requires ValidKey(k) && ValidKey(k') && d in Domains(k) && d in Domains(k')
    ensures k == k'
  {
    DomainsOf(k, d);
    DomainsOf(k', d);
    var t :| TailOf(k, t) && d == Domain(k.host, t);
    var t' :| TailOf(k', t') && d == Domain(k'.host, t');
    ValidNameShape(k.host);
    ValidNameShape(k'.host);
    assert d[|d| - 1] == if t.Bare? then k.host[|k.host| - 1] else TailText(t)[|TailText(t)| - 1];
    assert d[|d| - 1] == if t'.Bare? then k'.host[|k'.host| - 1] else TailText(t')[|TailText(t')| - 1];
    assert t == t';
    assert k.host == d[..|k.host|] && k'.host == d[..|k'.host|];
  }

  // ---- Stage 2 -------------------------------------------------------------

  /** Once the virtual host is picked, the rest of the way is fixed by its key. */
  lemma {:induction false} TunnelKey(h: Hash, s: Snapshot, k: HostKey, ips: seq<string>, ip: string, a: string,
                                     sni: string)
    requires PickVHost(s.vhosts, a) == Some(VHostFor(h, k, ips))
    requires IsTls(k) ==> FindCluster(s.clusters, SniName(h, k, ips)) == Some(ClusterFor(h, k, ips))
    requires IsTls(k) ==> FindListener(s.listeners, SniName(h, k, ips)) == Some(ListenerFor(h, k, ips))
    ensures TunnelAccepts(s, ip, a, sni) <==> ip in ips && IsTls(k) && ServerNameMatches(k.host, sni)
  {
    FirstRouteFor(h, k, ips, true);
  }

  lemma ServerNameComposes(w: HostKey, k: HostKey, sni: string)
    requires ValidKey(w) && ValidKey(k) && Admits(w, k) && ServerNameMatches(k.host, sni)
    ensures ServerNameMatches(w.host, sni)
  {
    if w != k {
      ValidNameShape(w.host);
      ValidNameShape(k.host);
      var s := w.host[1..];
      assert s[0] == '.' && k.host[|k.host| - |s|] == '.';
      if k.host != sni {
        assert HasSuffix(k.host, k.host[1..]);
        SuffixesComparable(k.host, s, k.host[1..]);
        SuffixTransitive(sni, k.host[1..], s);
      }
    }
  }

  /** SNI binding: whatever authority a tunnel was opened for, the handshake behind it goes
      through only for a server name that an effective port 443 rule of that address covers. */
  lemma TunnelSound(h: Hash, input: Input, hosts: Hosts, url: string, ip: string, a: string, sni: string)
    requires IsHostIPs(input, hosts) && CollisionFree(h, Preimages(hosts))
    ensures TunnelAccepts(Built(h, hosts, url), ip, a, sni) ==>
            exists p, r :: HasHostRule(input, p, r) && p.ip == ip && r.port == 443 && ServerNameMatches(r.value, sni)
  {
    HostsAreValid(input, hosts);
    KeyListingLists(hosts);
    var found, k, t := PickIsTightest(h, hosts, KeyListing(hosts.Keys), a);
    if found {
      if IsTls(k) { TunnelChain(h, hosts, url, k); }
      TunnelKey(h, Built(h, hosts, url), k, hosts[k], ip, a, sni);
      if ip in hosts[k] && IsTls(k) && ServerNameMatches(k.host, sni) {
        assert Reaches(input, ip, k);
        var p, r :| HasHostRule(input, p, r) && p.ip == ip && Admits(KeyOf(r), k);
        EffectiveValid(input, p.id, "host", r);
        ServerNameComposes(KeyOf(r), k, sni);
      }
    }
  }

  /** A tunnel to an exact host whose handshake names that host passes both stages exactly
      when an effective port 443 rule covers the host. */
  lemma TunnelComplete(h: Hash, input: Input, hosts: Hosts, url: string, ip: string, host: string)
    requires IsHostIPs(input, hosts) && CollisionFree(h, Preimages(hosts)) && ConcreteName(host)
    ensures TunnelAccepts(Built(h, hosts, url), ip, Domain(host, Port443), host) <==>
            exists p, r :: HasHostRule(input, p, r) && p.ip == ip && r.port == 443 && Covers(r.value, host)
  {
    var a := Domain(host, Port443);
    HostsAreValid(input, hosts);
    HostAccessIsPolicy(h, input, hosts, url, ip, Port443, host);
    KeyListingLists(hosts);
    var found, k, t := PickIsTightest(h, hosts, KeyListing(hosts.Keys), a);
    if found {
      SelectedServesName(hosts, k, t, host);
      TunnelChain(h, hosts, url, k);
      TunnelKey(h, Built(h, hosts, url), k, hosts[k], ip, a, host);
      FirstRouteFor(h, k, hosts[k], true);
    }
  }

  lemma SelectedServesName(hosts: Hosts, k: HostKey, t: Tail, host: string)
    requires ValidHosts(hosts) && ConcreteName(host) && Selected(hosts, Domain(host, Port443), k, t)
    ensures IsTls(k) && ServerNameMatches(k.host, host)
  {
    FitSharesTail(k.host, t, Port443, host);
    FitIsCovers(k.host, t, host);
    FitOfDomain(k.host, t, Domain(host, Port443));
  }

  // ---- Naming across two builds --------------------------------------------

  ghost predicate HasListener(listeners: seq<Listener>, name: string) {
    exists l :: l in listeners && ListenerName(l) == name
  }

  ghost predicate HasCluster(clusters: seq<Cluster>, name: string) {
    exists c :: c in clusters && c.id == name
  }

  ghost predicate NamesKey(h: Hash, hosts: Hosts, keys: seq<HostKey>, name: string)
    requires Within(keys, hosts)
  {
    exists k :: k in keys && SniName(h, k, hosts[k]) == name
  }

  lemma ListenersNameKeys(h: Hash, hosts: Hosts, tls: seq<HostKey>, name: string)
    requires Within(tls, hosts)
    ensures HasListener(ListenersOf(h, hosts, tls), name) <==> NamesKey(h, hosts, tls, name)
  {
    var ls := ListenersOf(h, hosts, tls);
    if l :| l in ls && ListenerName(l) == name {
      var i :| 0 <= i < |ls| && ls[i] == l;
      assert tls[i] in tls;
    }
    if k :| k in tls && SniName(h, k, hosts[k]) == name {
      var i :| 0 <= i < |tls| && tls[i] == k;
      assert ls[i] in ls;
    }
  }

  lemma ClustersNameKeys(h: Hash, hosts: Hosts, tls: seq<HostKey>, name: string)
    requires Within(tls, hosts)
    ensures HasCluster(ClustersOf(h, hosts, tls), name) <==> NamesKey(h, hosts, tls, name)
  {
    var cs := ClustersOf(h, hosts, tls);
    if c :| c in cs && c.id == name {
      var i :| 0 <= i < |cs| && cs[i] == c;
      assert tls[i] in tls;
    }
    if k :| k in tls && SniName(h, k, hosts[k]) == name {
      var i :| 0 <= i < |tls| && tls[i] == k;
      assert cs[i] in cs;
    }
  }

  /** Nothing but the stage 2 resources has a name that starts like theirs. */
  lemma Stage2Names(h: Hash, hosts: Hosts, tls: seq<HostKey>, url: string, name: string)
    requires Within(tls, hosts) && name != [] && name[0] == 's'
    ensures HasListener(AllListeners(h, hosts, tls, url), name) <==> NamesKey(h, hosts, tls, name)
    ensures HasCluster(AllClusters(h, hosts, tls), name) <==> NamesKey(h, hosts, tls, name)
  {
    ListenersNameKeys(h, hosts, tls, name);
    ClustersNameKeys(h, hosts, tls, name);
    assert "proxy"[0] == 'p' && "dfp_http"[0] == 'd' && "dfp_sni"[0] == 'd';
    assert forall l :: l in AllListeners(h, hosts, tls, url) <==> l == Proxy(url) || l in ListenersOf(h, hosts, tls);
    assert forall c :: c in AllClusters(h, hosts, tls) <==> c in DYNAMIC || c in ClustersOf(h, hosts, tls);
  }

  /** A listener of the first build survives into the second exactly when its key is still
      there with the same addresses: any gain or loss of access renames it, so Envoy drains
      the old one; everything unchanged keeps its name, and so does the proxy listener. */
  lemma ListenerSurvivesIffUnchanged(h: Hash, a: Hosts, b: Hosts, url: string, k: HostKey)
    requires ValidHosts(a) && ValidHosts(b) && k in a && IsTls(k)
    requires CommaFree(a[k]) && forall x :: x in b ==> CommaFree(b[x])
    requires CollisionFree(h, Preimages(a) + Preimages(b))
    ensures HasListener(Built(h, b, url).listeners, SniName(h, k, a[k])) <==> k in b && b[k] == a[k]
    ensures HasCluster(Built(h, b, url).clusters, SniName(h, k, a[k])) <==> k in b && b[k] == a[k]
    ensures Built(h, a, url).listeners[0] == Built(h, b, url).listeners[0] == Proxy(url)
  {
    var n := SniName(h, k, a[k]);
    assert n[0] == 's';
    var tls := TlsKeys(KeyListing(b.Keys));
    KeyListingLists(b);
    TlsLists(KeyListing(b.Keys), b);
    Stage2Names(h, b, tls, url, n);
    if NamesKey(h, b, tls, n) {
      var k' :| k' in tls && SniName(h, k', b[k']) == n;
      SameNameSameKey(h, a, b, k, k');
    }
  }

  lemma SameNameSameKey(h: Hash, a: Hosts, b: Hosts, k: HostKey, k': HostKey)
    requires ValidHosts(a) && ValidHosts(b) && k in a && k' in b && CommaFree(a[k]) && CommaFree(b[k'])
    requires CollisionFree(h, Preimages(a) + Preimages(b))
    requires SniName(h, k, a[k]) == SniName(h, k', b[k'])
    ensures k == k' && a[k] == b[k']
  {
    SniNameIs(h, k, a[k]);
    SniNameIs(h, k', b[k']);
    assert Preimage(k, a[k]) in Preimages(a) && Preimage(k', b[k']) in Preimages(b);
    PreimageInjective(k, a[k], k', b[k']);
  }
}
