/** Package cilium, Apply: the create, update and prune loop against a cluster whose calls
    may fail at any point. */
module Apply {
  import opened Text
  import opened Policy
  import opened Cilium

  datatype Spec = Spec(exprs: seq<Expr>, dns: seq<DnsRule>)

  /** A stored policy object; `managed` says that it carries the managed-by label. */
  datatype Object = Object(managed: bool, spec: Spec)

  type Objects = map<string, Object>

  function SpecOf(d: CNP): Spec {
    Spec(d.exprs, d.dns)
  }

  datatype Got = Missing | Found(item: Object) | Unreadable

  datatype Step = Reading | Creating | NotOurs | Updating
  datatype Failure = Upserting(step: Step, name: string) | Deleting(name: string) | Unlisted

  /** The API server's view of the namespace. Any call may report an error. A write that
      reports an error may have taken effect all the same. */
  class Cluster {
    var objects: Objects
    var writes: nat

    /** The calls that reported an error so far, in order. */
    ghost var failed: seq<Failure>

    /** The call reported an error, or it did not. */
    twostate predicate Failed(f: Failure, broke: bool)
      reads this
    {
      failed == old(failed) + if broke then [f] else []
    }

    method Get(name: string) returns (r: Got)
      modifies this`failed
      ensures r.Missing? ==> name !in objects
      ensures r.Found? ==> name in objects && objects[name] == r.item
      ensures Failed(Upserting(Reading, name), r.Unreadable?)
    {
      var broken: bool := *;
      if broken {
        failed := failed + [Upserting(Reading, name)];
        return Unreadable;
      }
      r := if name in objects then Found(objects[name]) else Missing;
    }

    method Create(name: string, item: Object) returns (ok: bool)
      modifies this
      ensures writes == old(writes) + 1
      ensures ok ==> name !in old(objects) && objects == old(objects)[name := item]
      ensures !ok ==> objects == old(objects) || (name !in old(objects) && objects == old(objects)[name := item])
      ensures Failed(Upserting(Creating, name), !ok)
    {
      var lost: bool, broken: bool := *, *;
      writes := writes + 1;
      ok := name !in objects && !broken;
      if name !in objects && (ok || !lost) {
        objects := objects[name := item];
      }
      if !ok { failed := failed + [Upserting(Creating, name)]; }
    }

    method Update(name: string, item: Object) returns (ok: bool)
      modifies this
      ensures writes == old(writes) + 1
      ensures ok ==> name in old(objects) && objects == old(objects)[name := item]
      ensures !ok ==> objects == old(objects) || (name in old(objects) && objects == old(objects)[name := item])
      ensures Failed(Upserting(Updating, name), !ok)
    {
      var lost: bool, broken: bool := *, *;
      writes := writes + 1;
      ok := name in objects && !broken;
      if name in objects && (ok || !lost) {
        objects := objects[name := item];
      }
      if !ok { failed := failed + [Upserting(Updating, name)]; }
    }

    /** `r` is Some(true) when the object was deleted, Some(false) when it was not there. */
    method Delete(name: string) returns (r: Option<bool>)
      modifies this
      ensures writes == old(writes) + 1
      ensures r.Some? ==> r.value == (name in old(objects)) && objects == old(objects) - {name}
      ensures r.None? ==> objects == old(objects) || objects == old(objects) - {name}
      ensures Failed(Deleting(name), r.None?)
    {
      var lost: bool, broken: bool := *, *;
      writes := writes + 1;
      r := if broken then None else Some(name in objects);
      if !broken || !lost {
        objects := objects - {name};
      }
      if broken { failed := failed + [Deleting(name)]; }
    }

    /** The names of the managed objects. */
    method List() returns (r: Option<set<string>>)
      modifies this`failed
      ensures r.Some? ==> r.value == Managed(objects).Keys
      ensures Failed(Unlisted, r.None?)
    {
      var broken: bool := *;
      r := if broken then None else Some(Managed(objects).Keys);
      if broken { failed := failed + [Unlisted]; }
    }
  }

  /** The errors that are about a call, leaving out objects that turn out to be somebody else's. */
  function CallErrors(errs: seq<Failure>): seq<Failure> {
    if errs == [] then [] else
      var last, init := errs[|errs| - 1], CallErrors(errs[..|errs| - 1]);
      if last.Upserting? && last.step == NotOurs then init else init + [last]
  }

  lemma {:induction false} CallErrorsConcat(a: seq<Failure>, b: seq<Failure>)
    ensures CallErrors(a + b) == CallErrors(a) + CallErrors(b)
  {
    if b == [] {
      assert a + b == a;
    } else {
      var init, last := b[..|b| - 1], b[|b| - 1];
      CallErrorsConcat(a, init);
      assert (a + b)[..|a + b| - 1] == a + init && (a + b)[|a + b| - 1] == last;
    }
  }

  lemma {:induction false} AllCallErrors(errs: seq<Failure>)
    requires forall n :: Upserting(NotOurs, n) !in errs
    ensures CallErrors(errs) == errs
  {
    if errs != [] {
      var init, last := errs[..|errs| - 1], errs[|errs| - 1];
      AllCallErrors(init);
      assert errs == init + [last] && last in errs;
      assert last.Upserting? ==> last == Upserting(last.step, last.name);
    }
  }

  /** None of the desired names is taken by an object of another owner. */
  ghost predicate Free(others: Objects, desired: seq<CNP>) {
    forall d :: d in desired ==> d.name !in others
  }

  /** Errors that blame somebody else's object name one that was there under a desired name. */
  ghost predicate BlamesOthers(errs: seq<Failure>, others: Objects, desired: seq<CNP>) {
    forall n :: Upserting(NotOurs, n) in errs ==> n in others && exists d :: d in desired && d.name == n
  }

  function Managed(objects: Objects): map<string, Spec> {
    map n | n in objects && objects[n].managed :: objects[n].spec
  }

  function Unmanaged(objects: Objects): Objects {
    map n | n in objects && !objects[n].managed :: objects[n]
  }

  /** The managed objects that Apply is asked for; a later entry of one name wins. */
  function Want(desired: seq<CNP>): map<string, Spec> {
    if desired == [] then map[] else
      var last := desired[|desired| - 1];
      Want(desired[..|desired| - 1])[last.name := SpecOf(last)]
  }

  lemma {:induction false} WantSnoc(desired: seq<CNP>, d: CNP)
    ensures Want(desired + [d]) == Want(desired)[d.name := SpecOf(d)]
  {
    assert (desired + [d])[..|desired|] == desired;
  }

  /** No two desired objects of one name ask for different specs. */
  predicate Agreeing(desired: seq<CNP>) {
    forall d :: d in desired ==> InForce(Want(desired), d)
  }

  predicate InForce(managed: map<string, Spec>, d: CNP) {
    d.name in managed && managed[d.name] == SpecOf(d)
  }

  /** The managed objects are already the desired ones. */
  predicate Settled(objects: Objects, desired: seq<CNP>) {
    Managed(objects) == Want(desired) && Agreeing(desired)
  }

  /** The desired names that some error is about. */
  function Blamed(errs: seq<Failure>): set<string> {
    set f | f in errs && f.Upserting? :: f.name
  }

  /** Every wanted object is in place, or it is blamed. */
  predicate InPlace(managed: map<string, Spec>, want: map<string, Spec>, blamed: set<string>) {
    forall n :: n in want ==> n in blamed || (n in managed && managed[n] == want[n])
  }

  method Reconcile(c: Cluster, desired: seq<CNP>) returns (errs: seq<Failure>)
    modifies c
    // Objects of other owners are never touched.
    ensures Unmanaged(c.objects) == old(Unmanaged(c.objects))
    // Success means success.
    ensures errs == [] ==> Managed(c.objects) == Want(desired)
    // One bad object never blocks the rest: each desired object is in place or blamed, ...
    ensures InPlace(Managed(c.objects), Want(desired), Blamed(errs))
    // ... and unless listing failed, each object no longer desired is gone or reported.
    ensures Unlisted !in errs ==> StaleReported(Managed(c.objects), Want(desired), errs)
    // In a settled cluster nothing is written, whatever reads fail; and a successful pass
    // that wrote nothing found the cluster settled.
    ensures old(Settled(c.objects, desired)) ==> c.objects == old(c.objects) && c.writes == old(c.writes)
    ensures errs == [] && c.writes == old(c.writes) ==> old(Settled(c.objects, desired))
    // The errors are the calls that failed, each once and in order, and objects of other owners
    // under desired names.
    ensures c.failed == old(c.failed) + CallErrors(errs)
    ensures BlamesOthers(errs, old(Unmanaged(c.objects)), desired)
    // So with neither, the pass succeeds.
    ensures c.failed == old(c.failed) && Free(old(Unmanaged(c.objects)), desired) ==> errs == []
  {
    var upserting := Upsert(c, desired);
    var deleting := PruneStale(c, desired);
    errs := upserting + deleting;
    BlamedAll(upserting, deleting);
    NoneBlamed(upserting);
    CallErrorsConcat(upserting, deleting);
    Succeeds(c.failed, old(c.failed), errs, old(Unmanaged(c.objects)), desired);
  }

  /** The managed objects that are wanted are untouched. */
  predicate KeepsWanted(before: map<string, Spec>, after: map<string, Spec>, want: map<string, Spec>) {
    forall n :: n in want ==> (n in after <==> n in before) && (n in after ==> after[n] == before[n])
  }

  /** Each managed object that is not wanted is reported. */
  predicate StaleReported(managed: map<string, Spec>, want: map<string, Spec>, errs: seq<Failure>) {
    forall n :: n in managed && n !in want ==> Deleting(n) in errs
  }

  /** Lists the managed objects and deletes the stale ones. */
  method PruneStale(c: Cluster, desired: seq<CNP>) returns (errs: seq<Failure>)
    modifies c
    ensures Unmanaged(c.objects) == old(Unmanaged(c.objects))
    ensures KeepsWanted(old(Managed(c.objects)), Managed(c.objects), Want(desired))
    ensures Unlisted !in errs ==> StaleReported(Managed(c.objects), Want(desired), errs)
    ensures forall f :: f in errs ==> !f.Upserting?
    ensures old(Managed(c.objects)).Keys <= Want(desired).Keys ==>
            c.objects == old(c.objects) && c.writes == old(c.writes)
    ensures Silent(old(c.objects), old(c.writes), c.objects, c.writes)
    ensures c.failed == old(c.failed) + CallErrors(errs)
  {
    var listed := c.List();
    if listed.None? {
      errs := [Unlisted];
      return;
    }
    errs := Prune(c, desired, listed.value);
  }

  lemma {:induction false} Succeeds(failed: seq<Failure>, before: seq<Failure>, errs: seq<Failure>, others: Objects,
                                    desired: seq<CNP>)
    requires failed == before + CallErrors(errs) && BlamesOthers(errs, others, desired)
    ensures failed == before && Free(others, desired) ==> errs == []
  {
    if failed == before && Free(others, desired) {
      assert |failed| == |before| + |CallErrors(errs)|;
      AllCallErrors(errs);
    }
  }

  lemma BlamedAll(a: seq<Failure>, b: seq<Failure>)
    ensures Blamed(a + b) == Blamed(a) + Blamed(b)
  {
    assert forall f :: f in a + b <==> f in a || f in b;
  }

  lemma NoneBlamed(errs: seq<Failure>)
    ensures errs == [] ==> Blamed(errs) == {}
  {
  }

  /** Writes are counted, and nothing changes without one. */
  predicate Silent(before: Objects, w: nat, after: Objects, w': nat) {
    w <= w' && (w == w' ==> before == after)
  }

  /** The errors of upserting tell of exactly the calls that failed since `before`, and of
      objects of others under desired names. */
  ghost predicate Told(errs: seq<Failure>, before: seq<Failure>, failed: seq<Failure>, others: Objects,
                       desired: seq<CNP>) {
    && failed == before + CallErrors(errs) && BlamesOthers(errs, others, desired)
    && forall f :: f in errs ==> f.Upserting?
  }

  lemma {:induction false} ToldConcat(errs: seq<Failure>, e: seq<Failure>, before: seq<Failure>, mid: seq<Failure>,
                                      failed: seq<Failure>, others: Objects, desired: seq<CNP>, d: CNP)
    requires Told(errs, before, mid, others, desired) && Told(e, mid, failed, others, [d]) && d in desired
    ensures Told(errs + e, before, failed, others, desired)
  {
    CallErrorsConcat(errs, e);
    forall n | Upserting(NotOurs, n) in errs + e ensures n in others && exists x :: x in desired && x.name == n {
      if Upserting(NotOurs, n) !in errs { assert Upserting(NotOurs, n) in e; }
    }
  }

  ghost predicate AllInForce(managed: map<string, Spec>, done: seq<CNP>) {
    forall d :: d in done ==> InForce(managed, d)
  }

  method Upsert(c: Cluster, desired: seq<CNP>) returns (errs: seq<Failure>)
    modifies c
    ensures Unmanaged(c.objects) == old(Unmanaged(c.objects))
    ensures InPlace(Managed(c.objects), Want(desired), Blamed(errs))
    ensures old(Settled(c.objects, desired)) ==> c.objects == old(c.objects) && c.writes == old(c.writes)
    ensures Silent(old(c.objects), old(c.writes), c.objects, c.writes)
    ensures errs == [] && c.writes == old(c.writes) ==> AllInForce(Managed(c.objects), desired)
    ensures Told(errs, old(c.failed), c.failed, old(Unmanaged(c.objects)), desired)
  {
    errs := [];
    ghost var settled := Settled(c.objects, desired);
    for i := 0 to |desired|
      invariant Unmanaged(c.objects) == old(Unmanaged(c.objects))
      invariant InPlace(Managed(c.objects), Want(desired[..i]), Blamed(errs))
      invariant settled ==> c.objects == old(c.objects) && c.writes == old(c.writes)
      invariant Silent(old(c.objects), old(c.writes), c.objects, c.writes)
      invariant errs == [] && c.writes == old(c.writes) ==> AllInForce(Managed(c.objects), desired[..i])
      invariant Told(errs, old(c.failed), c.failed, old(Unmanaged(c.objects)), desired)
    {
      var d := desired[i];
      assert desired[..i + 1] == desired[..i] + [d];
      assert settled ==> InForce(Managed(c.objects), d);
      ghost var managed, failed := Managed(c.objects), c.failed;
      var e := UpsertOne(c, d);
      InPlaceStep(managed, Managed(c.objects), desired[..i], d, errs, e);
      ToldConcat(errs, e, old(c.failed), failed, c.failed, old(Unmanaged(c.objects)), desired, d);
      errs := errs + e;
    }
    assert desired[..|desired|] == desired;
  }

  /** What one round may do to the managed objects. */
  ghost predicate UpsertEffect(m: map<string, Spec>, m': map<string, Spec>, d: CNP, e: seq<Failure>) {
    && (m' == m || m' == m[d.name := SpecOf(d)])
    && (e == [] ==> InForce(m', d))
    && (e != [] ==> |e| == 1 && e[0].Upserting? && e[0].name == d.name)
  }

  lemma {:induction false} InPlaceStep(m: map<string, Spec>, m': map<string, Spec>, done: seq<CNP>, d: CNP,
                                       errs: seq<Failure>, e: seq<Failure>)
    requires InPlace(m, Want(done), Blamed(errs)) && UpsertEffect(m, m', d, e)
    ensures InPlace(m', Want(done + [d]), Blamed(errs + e))
  {
    WantSnoc(done, d);
    BlamedAll(errs, e);
    if e != [] { assert e[0] in e; }
  }

  method UpsertOne(c: Cluster, d: CNP) returns (e: seq<Failure>)
    modifies c
    ensures Unmanaged(c.objects) == old(Unmanaged(c.objects))
    ensures UpsertEffect(old(Managed(c.objects)), Managed(c.objects), d, e)
    ensures old(InForce(Managed(c.objects), d)) ==> c.objects == old(c.objects) && c.writes == old(c.writes)
    ensures Silent(old(c.objects), old(c.writes), c.objects, c.writes)
    ensures Told(e, old(c.failed), c.failed, old(Unmanaged(c.objects)), [d])
  {
    e := [];
    var cur := c.Get(d.name);
    match cur {
      case Missing =>
        var ok := c.Create(d.name, Object(true, SpecOf(d)));
        if !ok { e := [Upserting(Creating, d.name)]; }
      case Unreadable =>
        e := [Upserting(Reading, d.name)];
      case Found(o) =>
        if !o.managed {
          e := [Upserting(NotOurs, d.name)];
        } else if o.spec != SpecOf(d) {
          var ok := c.Update(d.name, Object(true, SpecOf(d)));
          if !ok { e := [Upserting(Updating, d.name)]; }
        }
    }
  }

  method Prune(c: Cluster, desired: seq<CNP>, listed: set<string>) returns (errs: seq<Failure>)
    requires listed == Managed(c.objects).Keys
    modifies c
    ensures Unmanaged(c.objects) == old(Unmanaged(c.objects))
    ensures KeepsWanted(old(Managed(c.objects)), Managed(c.objects), Want(desired))
    ensures StaleReported(Managed(c.objects), Want(desired), errs)
    ensures forall f :: f in errs ==> f.Deleting?
    ensures listed <= Want(desired).Keys ==> c.objects == old(c.objects) && c.writes == old(c.writes)
    ensures Silent(old(c.objects), old(c.writes), c.objects, c.writes)
    ensures c.failed == old(c.failed) + CallErrors(errs)
  {
    errs := [];
    var todo := listed;
    while todo != {}
      invariant todo <= listed
      invariant forall n :: n in c.objects ==> n in old(c.objects) && c.objects[n] == old(c.objects)[n]
      invariant forall n :: n in old(c.objects) && (!old(c.objects)[n].managed || n in Want(desired)) ==> n in c.objects
      invariant forall n :: n in c.objects && c.objects[n].managed && n !in Want(desired) ==>
                n in todo || Deleting(n) in errs
      invariant forall f :: f in errs ==> f.Deleting?
      invariant listed <= Want(desired).Keys ==> c.objects == old(c.objects) && c.writes == old(c.writes)
      invariant Silent(old(c.objects), old(c.writes), c.objects, c.writes)
      invariant c.failed == old(c.failed) + errs
      decreases |todo|
    {
      var n :| n in todo;
      todo := todo - {n};
      if n in Want(desired) {
        continue;
      }
      var r := c.Delete(n);
      if r.None? {
        errs := errs + [Deleting(n)];
      }
    }
    AllCallErrors(errs);
  }

  // ---- With Render ---------------------------------------------------------

  /** Render never asks for one name twice, so a second Apply after success is a no-op. */
  lemma {:induction false} DistinctNamesAgree(desired: seq<CNP>)
    requires DistinctPolicyNames(desired)
    ensures Agreeing(desired)
  {
    if desired != [] {
      var init, last := desired[..|desired| - 1], desired[|desired| - 1];
      DistinctNamesAgree(init);
      forall d | d in desired ensures InForce(Want(desired), d) {
        if d != last {
          var i :| 0 <= i < |desired| && desired[i] == d;
          assert init[i] in init && init[i] == d;
          assert InForce(Want(init), d);
        }
      }
    }
  }

  lemma RenderedPoliciesAgree(input: Input, desired: seq<CNP>)
    requires IsRender(input, desired)
    ensures Agreeing(desired)
  {
    RenderNamesDistinct(input, desired);
    DistinctNamesAgree(desired);
  }
}
