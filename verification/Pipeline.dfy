/** `apply` of main.go: load, compile for Envoy, push, then compile and apply for Cilium. */
module Pipeline {
  import opened Text
  import opened Policy
  import opened Xds
  import opened Enforcement
  import opened Cilium
  import A = Apply
  import opened StoreInvariant
  import opened Loading
  import D = Database

  /** The snapshot cache that Envoy is served from. A push that reports an error may have
      replaced the snapshot all the same. */
  class Server {
    var version: nat
    var snapshot: Option<Snapshot>

    /** How many pushes have reported an error so far. */
    ghost var failures: nat

    method Push(snap: Snapshot) returns (ok: bool)
      modifies this
      ensures version == old(version) + 1
      ensures failures == old(failures) + if ok then 0 else 1
      ensures ok ==> snapshot == Some(snap)
      ensures snapshot == old(snapshot) || snapshot == Some(snap)
    {
      var lost: bool := *;
      ok := *;
      version := version + 1;
      if ok || !lost {
        snapshot := Some(snap);
      }
      if !ok { failures := failures + 1; }
    }
  }

  /** How far a pass came. */
  datatype Pass = LoadFailed | BuildFailed | PushFailed | Applied(errs: seq<A.Failure>)

  /** The snapshot lets through exactly what the policy permits. */
  ghost predicate Enforces(snap: Snapshot, input: Input) {
    forall ip, connect, a :: Stage1(snap, ip, connect, a).Some? <==> Permitted(input, ip, connect, a)
  }

  /** The policies let each labelled pod resolve exactly its effective names, and no other pod
      any. */
  ghost predicate Resolves(policies: seq<CNP>, input: Input) {
    forall pod: Option<string> ::
      Allowed(policies, pod) == Only(if pod.Some? then EffectiveDns(input, pod.value) else {})
  }

  /** One pass over a database in good order, with every remote call free to fail. Envoy's
      snapshot is the old one or one that enforces the stored policy of this moment, and it is
      the latter once the push succeeds; the cluster is touched only after that. When Apply
      reports no error its managed objects are the policies for the same moment. */
  method ApplyOnce(db: D.Database, now: int, pods: seq<Workspace>, server: Server, cluster: A.Cluster, h: Hash,
                   url: string)
    returns (r: Pass, ghost policies: seq<CNP>)
    requires Inv(db.View())
    modifies db`faults, server, cluster
    ensures r.LoadFailed? <==> db.faults > old(db.faults)
    ensures r.PushFailed? <==> server.failures > old(server.failures)
    ensures r.BuildFailed? ==> '%' in url
    ensures '%' in url ==> r.LoadFailed? || r.BuildFailed?
    ensures r.LoadFailed? || r.BuildFailed? ==> server.snapshot == old(server.snapshot)
    ensures server.snapshot == old(server.snapshot) ||
            (server.snapshot.Some? && Enforces(server.snapshot.value, PolicyInput(old(db.View()), now, pods)))
    ensures server.version == old(server.version) + if r.PushFailed? || r.Applied? then 1 else 0
    ensures !r.Applied? ==> cluster.objects == old(cluster.objects)
    ensures r.Applied? ==>
              server.snapshot.Some? && Enforces(server.snapshot.value, PolicyInput(old(db.View()), now, pods))
    ensures r.Applied? ==> Resolves(policies, PolicyInput(old(db.View()), now, pods))
    ensures r == Applied([]) ==> A.Managed(cluster.objects) == A.Want(policies)
    ensures r.Applied? ==> cluster.failed == old(cluster.failed) + A.CallErrors(r.errs)
    ensures r.Applied? && cluster.failed == old(cluster.failed) &&
            A.Free(old(A.Unmanaged(cluster.objects)), policies) ==>
              r == Applied([])
    ensures A.Unmanaged(cluster.objects) == old(A.Unmanaged(cluster.objects))
  {
    policies := [];
    var loaded := db.Load(now, pods);
    if loaded.None? {
      return LoadFailed, [];
    }
    var input := loaded.value;
    var hosts := ComputeHostIPs(input);
    var built := Build(h, hosts, url);
    if built.Err? {
      return BuildFailed, [];
    }
    forall ip, connect, a ensures Stage1(built.value, ip, connect, a).Some? <==> Permitted(input, ip, connect, a) {
      Stage1IsPolicy(h, input, hosts, url, ip, connect, a);
    }
    assert Enforces(built.value, input);
    var pushed := server.Push(built.value);
    if !pushed {
      return PushFailed, [];
    }
    var desired := Render(input);
    policies := desired;
    forall pod: Option<string>
      ensures Allowed(desired, pod) == Only(if pod.Some? then EffectiveDns(input, pod.value) else {})
    {
      RenderIsPolicy(input, desired, pod);
    }
    var errs := A.Reconcile(cluster, desired);
    r := Applied(errs);
  }
}
