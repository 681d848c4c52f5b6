/** Package xds: the resource set built for Envoy, as plain records, and how Envoy reads it. */
module Xds {
  import opened Text
  import opened Names
  import opened Policy

  datatype Result<+T> = Ok(value: T) | Err

  datatype Matcher = ConnectOnly | AnyPath
  datatype Action = ToCluster(cluster: string) | Respond(status: int)
  datatype Route = Route(matcher: Matcher, action: Action)

  /** `principals` is the per-route RBAC override: the source addresses it allows. Without
      one the base RBAC filter, which has no policies, denies everybody. */
  datatype VHost = VHost(name: string, domains: seq<string>, principals: Option<seq<string>>, routes: seq<Route>)
  /** A stage 2 listener dials the server name it accepted, on `port`, through `upstream`. */
  datatype Listener =
    | Proxy(requestURL: string)
    | Stage2(sni: string, serverNames: seq<string>, upstream: string, port: int)
  datatype Cluster = DynamicForward(id: string) | Internal(id: string, listener: string)
  datatype Snapshot = Snapshot(listeners: seq<Listener>, clusters: seq<Cluster>, vhosts: seq<VHost>)

  type Hosts = map<HostKey, seq<string>>

  /** The truncated SHA-256, left uninterpreted: callers pass it in. */
  type Hash = string -> string

  function ListenerName(l: Listener): string {
    if l.Proxy? then "proxy" else l.sni
  }

  // ---- Build ---------------------------------------------------------------

  function Join(parts: seq<string>, sep: string): string {
    if parts == [] then "" else if |parts| == 1 then parts[0] else parts[0] + sep + Join(parts[1..], sep)
  }

  function Digits(n: nat): string {
    if n < 10 then ['0' + n as char] else Digits(n / 10) + ['0' + (n % 10) as char]
  }

  function Decimal(n: int): string {
    if n < 0 then "-" + Digits(-n) else Digits(n)
  }

  function Preimage(k: HostKey, ips: seq<string>): string {
    k.host + "|" + Decimal(k.port) + "|" + Join(ips, ",")
  }

  function HashName(h: Hash, k: HostKey, ips: seq<string>): string {
    h(Preimage(k, ips))
  }

  function SniName(h: Hash, k: HostKey, ips: seq<string>): string {
    "sni_" + HashName(h, k, ips)
  }

  predicate IsTls(k: HostKey) {
    k.port == 443
  }

  function Domains(k: HostKey): seq<string> {
    if IsTls(k) then [k.host + ":443"] else [k.host, k.host + ":80"]
  }

  function RouteFor(h: Hash, k: HostKey, ips: seq<string>): Route {
    if IsTls(k) then Route(ConnectOnly, ToCluster(SniName(h, k, ips))) else Route(AnyPath, ToCluster("dfp_http"))
  }

  function VHostFor(h: Hash, k: HostKey, ips: seq<string>): VHost {
    VHost("h_" + HashName(h, k, ips), Domains(k), Some(ips), [RouteFor(h, k, ips)])
  }

  function ListenerFor(h: Hash, k: HostKey, ips: seq<string>): Listener {
    Stage2(SniName(h, k, ips), [k.host], "dfp_sni", 443)
  }

  function ClusterFor(h: Hash, k: HostKey, ips: seq<string>): Cluster {
    Internal(SniName(h, k, ips), SniName(h, k, ips))
  }

  const DENY := VHost("deny", ["*"], None, [Route(ConnectOnly, Respond(403)), Route(AnyPath, Respond(403))])

  predicate KeyBefore(a: HostKey, b: HostKey) {
    if a.host != b.host then Less(a.host, b.host) else a.port < b.port
  }

  lemma KeyOrder(s: set<HostKey>)
    ensures Transitive(KeyBefore) && Irreflexive(KeyBefore) && ConnectedOn(KeyBefore, s)
  {
    forall x, y, z | KeyBefore(x, y) && KeyBefore(y, z) ensures KeyBefore(x, z) {
      if x.host != y.host && y.host != z.host {
        LessTransitive(x.host, y.host, z.host);
        LessIrreflexive(x.host);
      }
    }
    forall x, y | x in s && y in s && x != y ensures KeyBefore(x, y) || KeyBefore(y, x) {
      if x.host != y.host { LessConnected(x.host, y.host); }
    }
  }

  /** The keys in the order the resources are emitted. */
  ghost function KeyListing(s: set<HostKey>): (r: seq<HostKey>)
    ensures Ascending(r, KeyBefore) && Elements(r) == s
  {
    if s == {} then [] else
      var x :| x in s;
      var r := KeyListing(s - {x});
      KeyOrder(s);
      assert x !in Elements(r);
      assert Elements(r) + {x} == s;
      InsertAscending(x, r, KeyBefore);
      Insert(x, r, KeyBefore)
  }

  /** The port 443 keys, in the same order. */
  function TlsKeys(keys: seq<HostKey>): (r: seq<HostKey>)
    ensures forall k :: k in r <==> k in keys && IsTls(k)
  {
    if keys == [] then [] else
      var last := keys[|keys| - 1];
      TlsKeys(keys[..|keys| - 1]) + if IsTls(last) then [last] else []
  }

  ghost predicate Within(keys: seq<HostKey>, hosts: Hosts) {
    forall k :: k in keys ==> k in hosts
  }

  function VHostsOf(h: Hash, hosts: Hosts, keys: seq<HostKey>): seq<VHost>
    requires Within(keys, hosts)
  {
    seq(|keys|, i requires 0 <= i < |keys| => VHostFor(h, keys[i], hosts[keys[i]]))
  }

  function ListenersOf(h: Hash, hosts: Hosts, tls: seq<HostKey>): seq<Listener>
    requires Within(tls, hosts)
  {
    seq(|tls|, i requires 0 <= i < |tls| => ListenerFor(h, tls[i], hosts[tls[i]]))
  }

  function ClustersOf(h: Hash, hosts: Hosts, tls: seq<HostKey>): seq<Cluster>
    requires Within(tls, hosts)
  {
    seq(|tls|, i requires 0 <= i < |tls| => ClusterFor(h, tls[i], hosts[tls[i]]))
  }

  const DYNAMIC := [DynamicForward("dfp_http"), DynamicForward("dfp_sni")]

  function AllListeners(h: Hash, hosts: Hosts, tls: seq<HostKey>, requestURL: string): seq<Listener>
    requires Within(tls, hosts)
  {
    [Proxy(requestURL)] + ListenersOf(h, hosts, tls)
  }

  function AllClusters(h: Hash, hosts: Hosts, tls: seq<HostKey>): seq<Cluster>
    requires Within(tls, hosts)
  {
    DYNAMIC + ClustersOf(h, hosts, tls)
  }

  function AllVHosts(h: Hash, hosts: Hosts, keys: seq<HostKey>): seq<VHost>
    requires Within(keys, hosts)
  {
    VHostsOf(h, hosts, keys) + [DENY]
  }

  function Config(h: Hash, hosts: Hosts, keys: seq<HostKey>, requestURL: string): Snapshot
    requires Within(keys, hosts)
  {
    var tls := TlsKeys(keys);
    Snapshot(AllListeners(h, hosts, tls, requestURL), AllClusters(h, hosts, tls), AllVHosts(h, hosts, keys))
  }

  ghost function Built(h: Hash, hosts: Hosts, requestURL: string): Snapshot {
    var keys := KeyListing(hosts.Keys);
    assert forall k :: k in keys ==> k in Elements(keys);
    Config(h, hosts, keys, requestURL)
  }

  method Build(h: Hash, hosts: Hosts, requestURL: string) returns (r: Result<Snapshot>)
    ensures r == if '%' in requestURL then Err else Ok(Built(h, hosts, requestURL))
  {
    if '%' in requestURL {
      return Err;
    }
    KeyOrder(hosts.Keys);
    var keys := Sorted(hosts.Keys, KeyBefore);
    AscendingUnique(keys, KeyListing(hosts.Keys), KeyBefore);
    assert forall k :: k in keys ==> k in Elements(keys);
    var snapshot := Emit(h, hosts, keys, requestURL);
    r := Ok(snapshot);
  }

  /** The loop over the sorted keys. */
  method Emit(h: Hash, hosts: Hosts, keys: seq<HostKey>, requestURL: string) returns (s: Snapshot)
    requires Within(keys, hosts)
    ensures s == Config(h, hosts, keys, requestURL)
  {
    var listeners := [Proxy(requestURL)];
    var clusters := DYNAMIC;
    var vhosts := [];
    ghost var tls := [];
    for i := 0 to |keys|
      invariant tls == TlsKeys(keys[..i])
      invariant vhosts == VHostsOf(h, hosts, keys[..i])
      invariant listeners == [Proxy(requestURL)] + ListenersOf(h, hosts, tls)
      invariant clusters == DYNAMIC + ClustersOf(h, hosts, tls)
    {
      var k := keys[i];
      var ips := hosts[k];
      assert keys[..i + 1] == keys[..i] + [k];
      TlsKeysSnoc(keys[..i], k);
      VHostsSnoc(h, hosts, keys[..i], k);
      Stage2Snoc(h, hosts, tls, k);
      vhosts := vhosts + [VHostFor(h, k, ips)];
      if IsTls(k) {
        tls := tls + [k];
        clusters := clusters + [ClusterFor(h, k, ips)];
        listeners := listeners + [ListenerFor(h, k, ips)];
      }
    }
    assert keys[..|keys|] == keys;
    s := Snapshot(listeners, clusters, vhosts + [DENY]);
  }

  lemma {:induction false} TlsKeysSnoc(keys: seq<HostKey>, k: HostKey)
    ensures TlsKeys(keys + [k]) == TlsKeys(keys) + if IsTls(k) then [k] else []
  {
    assert (keys + [k])[..|keys|] == keys;
  }

  lemma VHostsSnoc(h: Hash, hosts: Hosts, keys: seq<HostKey>, k: HostKey)
    requires k in hosts && Within(keys, hosts)
    ensures Within(keys + [k], hosts)
    ensures VHostsOf(h, hosts, keys + [k]) == VHostsOf(h, hosts, keys) + [VHostFor(h, k, hosts[k])]
  {
  }

  lemma Stage2Snoc(h: Hash, hosts: Hosts, tls: seq<HostKey>, k: HostKey)
    requires k in hosts && Within(tls, hosts)
    ensures Within(tls + [k], hosts)
    ensures ListenersOf(h, hosts, tls + [k]) == ListenersOf(h, hosts, tls) + [ListenerFor(h, k, hosts[k])]
    ensures ClustersOf(h, hosts, tls + [k]) == ClustersOf(h, hosts, tls) + [ClusterFor(h, k, hosts[k])]
  {
  }

  lemma {:induction false} TlsKeysDistinct(keys: seq<HostKey>)
    requires Distinct(keys)
    ensures Distinct(TlsKeys(keys))
  {
    if keys != [] {
      var init := keys[..|keys| - 1];
      TlsKeysDistinct(init);
      assert keys[|keys| - 1] !in init;
    }
  }

  // ---- Envoy reads the snapshot --------------------------------------------

  /** How well a virtual-host domain fits an authority: -1 for no match, 0 for the catch-all,
      the length of the fixed part for a suffix wildcard (whose star never matches the
      empty text), and more than any wildcard for the exact domain. */
  function Fit(d: string, authority: string): int {
    if d == "*" then 0
    else if HasPrefix(d, "*") then
      if |authority| >= |d| && HasSuffix(authority, d[1..]) then |d| - 1 else -1
    else if d == authority then |authority| + 1 else -1
  }

  function BestFit(domains: seq<string>, authority: string): (n: int)
    ensures n >= -1
    ensures forall d :: d in domains ==> Fit(d, authority) <= n
    ensures n >= 0 ==> exists d :: d in domains && Fit(d, authority) == n
  {
    if domains == [] then -1 else
      var f, rest := Fit(domains[0], authority), BestFit(domains[1..], authority);
      if f >= rest then f else rest
  }

  /** Envoy routes a request to the virtual host with the best-fitting domain only. */
  function PickVHost(vhosts: seq<VHost>, authority: string): (v: Option<VHost>)
    ensures v.Some? ==> v.value in vhosts && BestFit(v.value.domains, authority) >= 0
    ensures v.Some? ==> forall w :: w in vhosts ==> BestFit(w.domains, authority) <= BestFit(v.value.domains, authority)
    ensures v.None? ==> forall w :: w in vhosts ==> BestFit(w.domains, authority) < 0
  {
    if vhosts == [] then None else
      var rest := PickVHost(vhosts[1..], authority);
      var n := BestFit(vhosts[0].domains, authority);
      if n >= 0 && (rest.None? || n >= BestFit(rest.value.domains, authority)) then Some(vhosts[0]) else rest
  }

  predicate RouteMatches(m: Matcher, connect: bool) {
    m.ConnectOnly? == connect
  }

  function FirstRoute(routes: seq<Route>, connect: bool): Option<Route> {
    if routes == [] then None
    else if RouteMatches(routes[0].matcher, connect) then Some(routes[0])
    else FirstRoute(routes[1..], connect)
  }

  /** Stage 1 on the proxy listener: virtual host, then RBAC on the source address, then the
      route. The result is the upstream cluster, or None when the request is refused. */
  function Stage1(s: Snapshot, ip: string, connect: bool, authority: string): Option<string> {
    var v := PickVHost(s.vhosts, authority);
    if v.None? || v.value.principals.None? || ip !in v.value.principals.value then None
    else
      var rt := FirstRoute(v.value.routes, connect);
      if rt.Some? && rt.value.action.ToCluster? then Some(rt.value.action.cluster) else None
  }

  function FindCluster(clusters: seq<Cluster>, id: string): Option<Cluster> {
    if clusters == [] then None
    else if clusters[0].id == id then Some(clusters[0])
    else FindCluster(clusters[1..], id)
  }

  function FindListener(listeners: seq<Listener>, name: string): Option<Listener> {
    if listeners == [] then None
    else if ListenerName(listeners[0]) == name then Some(listeners[0])
    else FindListener(listeners[1..], name)
  }

  /** A filter chain's server_names entry: exact, or a suffix wildcard. */
  predicate ServerNameMatches(pattern: string, sni: string) {
    pattern == sni || (IsWildcard(pattern) && |sni| >= |pattern| && HasSuffix(sni, pattern[1..]))
  }

  /** Stage 2: the cluster's internal listener accepts only a handshake for its server name. */
  predicate Stage2Accepts(s: Snapshot, cluster: string, sni: string) {
    var c := FindCluster(s.clusters, cluster);
    c.Some? && c.value.Internal? &&
    var l := FindListener(s.listeners, c.value.listener);
    l.Some? && l.value.Stage2? && exists n :: n in l.value.serverNames && ServerNameMatches(n, sni)
  }

  predicate TunnelAccepts(s: Snapshot, ip: string, authority: string, sni: string) {
    var c := Stage1(s, ip, true, authority);
    c.Some? && Stage2Accepts(s, c.value, sni)
  }
}
