/** The object transform the declarative engine runs on every pass
    (`handleKnativeLifecycle`): register the operator finalizer on a live
    Knative resource, and on a deleting one tear down the dependents before
    releasing it. */
module Lifecycle {
  import opened Wrappers
  import opened KnativeTypes
  import opened Client
  import opened Registry
  import opened Teardown

  /** An object rendered from the manifest; the hook only ever clears the list. */
  datatype ManifestObject = ManifestObject(kind: string, namespace: string, name: string)

  /** The candidate objects the engine will apply after the hook. */
  datatype Manifest = Manifest(items: seq<ManifestObject>)

  /** The cluster after the hook, the calls it issued, the engine's object as
      the hook left it in memory, the manifest, and the error returned. */
  datatype HookOutcome = HookOutcome(
    cluster: Cluster,
    calls: seq<Call>,
    obj: DeclarativeObject,
    manifest: Manifest,
    err: Option<Error>)

  /** The distinct elements of `fs` that are not in `seen`, in first-occurrence
      order. It stands for building a string set and listing it: the set's
      listing order is unspecified, so only the elements are promised. */
  function Dedupe(fs: seq<string>, seen: set<string>): (r: seq<string>)
    ensures Elems(r) == Elems(fs) - seen
    ensures NoDuplicates(r)
    decreases |fs|
  {
    if fs == [] then []
    else if fs[0] in seen then
      assert Elems(fs) == {fs[0]} + Elems(fs[1..]);
      Dedupe(fs[1..], seen)
    else
      var rest := Dedupe(fs[1..], seen + {fs[0]});
      assert Elems(fs) == {fs[0]} + Elems(fs[1..]);
      assert Elems([fs[0]] + rest) == {fs[0]} + Elems(rest);
      assert fs[0] !in rest;
      [fs[0]] + rest
  }

  /** The finalizer list after removing `token` from the set of finalizers. */
  function Without(fs: seq<string>, token: string): (r: seq<string>)
    ensures Elems(r) == Elems(fs) - {token}
    ensures NoDuplicates(r)
  {
    Dedupe(fs, {token})
  }

  function HandleKnativeLifecycle(c: Cluster, o: DeclarativeObject, m: Manifest): (r: HookOutcome)
    // Anything but a Knative resource is rejected before any call.
    ensures o.OtherObject? ==> r == HookOutcome(c, [], o, m, Some(WrongKind(o.typeName)))
    // The hook only ever changes the finalizer list of the resource.
    ensures o.KnativeObject? ==>
              r.obj.KnativeObject? && r.obj.k == SetFinalizers(o.k, r.obj.k.meta.finalizers)
    // At most one Update, and it writes the object the hook leaves behind.
    ensures |Updates(r.calls)| <= 1
    ensures forall u :: u in Updates(r.calls) ==> r.obj == KnativeObject(u)
  {
    match o
    case OtherObject(t) => HookOutcome(c, [], o, m, Some(WrongKind(t)))
    case KnativeObject(k) =>
      var fs := k.meta.finalizers;
      if IsDeleting(k) then
        var td := DeleteCrossNamespace(c, Entries);
        if td.err.Some? then
          HookOutcome(td.cluster, td.calls, o, m, Some(Api(td.err.value)))
        else
          var k' := SetFinalizers(k, Without(fs, OperatorFinalizer));
          var calls := td.calls + [UpdateCall(k')];
          UpdatesAppend(td.calls, [UpdateCall(k')]);
          match Update(td.cluster, k')
          case Some(e) => HookOutcome(td.cluster, calls, KnativeObject(k'), m, Some(CouldNotFinalize(e)))
          case None => HookOutcome(td.cluster, calls, KnativeObject(k'), Manifest([]), None)
      else if OperatorFinalizer in fs then
        HookOutcome(c, [], o, m, None)
      else
        var k' := SetFinalizers(k, fs + [OperatorFinalizer]);
        match Update(c, k')
        case Some(e) => HookOutcome(c, [UpdateCall(k')], KnativeObject(k'), m, Some(CouldNotAddFinalizer(e)))
        case None => HookOutcome(c, [UpdateCall(k')], KnativeObject(k'), m, None)
  }

  /** A live resource without the operator finalizer gets it appended after
      the existing finalizers, in their order, and one Update is issued. */
  lemma LiveAddsFinalizer(c: Cluster, k: Knative, m: Manifest)
    requires !IsDeleting(k) && OperatorFinalizer !in k.meta.finalizers
    ensures var r := HandleKnativeLifecycle(c, KnativeObject(k), m);
      var k' := SetFinalizers(k, k.meta.finalizers + [OperatorFinalizer]);
      && r.obj == KnativeObject(k')
      && r.calls == [UpdateCall(k')]
      && r.cluster == c && r.manifest == m
      && (r.err.None? <==> c.updateFault.None?)
      && (r.err.Some? ==> r.err == Some(CouldNotAddFinalizer(Failure(c.updateFault.value))))
  {
  }

  /** A live resource that already carries the operator finalizer is left
      alone: no call, no change, no error. */
  lemma LiveWithFinalizerIsNoop(c: Cluster, k: Knative, m: Manifest)
    requires !IsDeleting(k) && OperatorFinalizer in k.meta.finalizers
    ensures HandleKnativeLifecycle(c, KnativeObject(k), m) == HookOutcome(c, [], KnativeObject(k), m, None)
  {
  }

  /** Finalizer registration is idempotent: after a successful pass, a second
      pass on the written object issues nothing, so two passes write at most
      once between them. */
  lemma LiveRegistrationIdempotent(c: Cluster, k: Knative, m: Manifest)
    requires !IsDeleting(k)
    requires HandleKnativeLifecycle(c, KnativeObject(k), m).err.None?
    ensures var r1 := HandleKnativeLifecycle(c, KnativeObject(k), m);
      var r2 := HandleKnativeLifecycle(r1.cluster, r1.obj, r1.manifest);
      && r2 == HookOutcome(r1.cluster, [], r1.obj, r1.manifest, None)
      && |Updates(r1.calls) + Updates(r2.calls)| <= 1
  {
    if OperatorFinalizer !in k.meta.finalizers {
      LiveAddsFinalizer(c, k, m);
      var k' := SetFinalizers(k, k.meta.finalizers + [OperatorFinalizer]);
      assert OperatorFinalizer in k'.meta.finalizers;
      LiveWithFinalizerIsNoop(c, k', m);
    }
  }

  /** When teardown fails on a deleting resource, its error is returned
      unchanged; the finalizers, the object and the manifest are untouched,
      and the resource is never written. */
  lemma DeletingTeardownFails(c: Cluster, k: Knative, m: Manifest)
    requires IsDeleting(k) && DeleteCrossNamespace(c, Entries).err.Some?
    ensures var td := DeleteCrossNamespace(c, Entries);
      var r := HandleKnativeLifecycle(c, KnativeObject(k), m);
      && r == HookOutcome(td.cluster, td.calls, KnativeObject(k), m, Some(Api(td.err.value)))
      && Updates(r.calls) == []
  {
  }

  /** When teardown succeeds on a deleting resource, exactly the operator
      finalizer is removed (every other finalizer survives, as a set), the
      result is written once, and after a successful write the manifest is
      emptied so nothing more is applied. */
  lemma DeletingTeardownSucceeds(c: Cluster, k: Knative, m: Manifest)
    requires IsDeleting(k) && DeleteCrossNamespace(c, Entries).err.None?
    ensures var r := HandleKnativeLifecycle(c, KnativeObject(k), m);
      && r.obj.KnativeObject?
      && Elems(r.obj.k.meta.finalizers) == Elems(k.meta.finalizers) - {OperatorFinalizer}
      && OperatorFinalizer !in r.obj.k.meta.finalizers
      && (forall f :: f in k.meta.finalizers && f != OperatorFinalizer ==> f in r.obj.k.meta.finalizers)
      && r.calls == DeleteCrossNamespace(c, Entries).calls + [UpdateCall(r.obj.k)]
      && r.cluster == DeleteCrossNamespace(c, Entries).cluster
      && Updates(r.calls) == [r.obj.k]
      && (r.err.None? <==> c.updateFault.None?)
      && (r.err.None? ==> r.manifest.items == [])
      && (r.err.Some? ==> r.manifest == m && r.err == Some(CouldNotFinalize(Failure(c.updateFault.value))))
  {
    var td := DeleteCrossNamespace(c, Entries);
    var fs := k.meta.finalizers;
    var k' := SetFinalizers(k, Without(fs, OperatorFinalizer));
    var r := HandleKnativeLifecycle(c, KnativeObject(k), m);
    assert r.obj == KnativeObject(k') && r.calls == td.calls + [UpdateCall(k')];
    UpdatesAppend(td.calls, [UpdateCall(k')]);
    assert Updates(r.calls) == [k'];
    ElemsWithout(fs, k'.meta.finalizers, OperatorFinalizer);
  }

  lemma ElemsWithout(fs: seq<string>, fs': seq<string>, token: string)
    requires Elems(fs') == Elems(fs) - {token}
    ensures token !in fs'
    ensures forall f :: f in fs && f != token ==> f in fs'
  {
    assert forall f :: f in fs' <==> f in Elems(fs');
    assert forall f :: f in fs <==> f in Elems(fs);
  }

  /** The operator finalizer is released (a write of the resource without it
      is issued) if and only if teardown completed without error on the same
      pass. */
  lemma FinalizerReleasedIffTeardownSucceeds(c: Cluster, k: Knative, m: Manifest)
    requires IsDeleting(k)
    ensures var r := HandleKnativeLifecycle(c, KnativeObject(k), m);
      && (Updates(r.calls) != [] <==> DeleteCrossNamespace(c, Entries).err.None?)
      && (forall u :: u in Updates(r.calls) ==> OperatorFinalizer !in u.meta.finalizers)
  {
    if DeleteCrossNamespace(c, Entries).err.None? {
      DeletingTeardownSucceeds(c, k, m);
    } else {
      DeletingTeardownFails(c, k, m);
    }
  }

  /** While the deletion timestamp is set, no finalizer is ever added. */
  lemma DeletingNeverAddsFinalizers(c: Cluster, k: Knative, m: Manifest)
    requires IsDeleting(k)
    ensures var r := HandleKnativeLifecycle(c, KnativeObject(k), m);
      Elems(r.obj.k.meta.finalizers) <= Elems(k.meta.finalizers)
  {
  }
}
