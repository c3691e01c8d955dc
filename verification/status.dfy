/** The status hooks of the Knative controller (`knativeStatus`): the health
    rollup after apply (`Reconciled`) and the Istio gate before it
    (`Preflight`). */
module Status {
  import opened Wrappers
  import opened KnativeTypes
  import opened Client
  import opened Registry

  /** The object as the hook left it in memory, the calls it issued, and the
      error returned. */
  datatype StatusOutcome = StatusOutcome(obj: DeclarativeObject, calls: seq<Call>, err: Option<Error>)

  /** The status error recorded for a dependent that could not be fetched. */
  function CanNotFind(t: ObjectRef): string
  {
    "can not find " + KeyString(t.key)
  }

  /** One "can not find" string per target that cannot be fetched, in target
      order; fetchable targets add nothing. */
  function StatusErrors(c: Cluster, targets: seq<ObjectRef>): (r: seq<string>)
    ensures |r| <= |targets|
    ensures r == [] <==> forall t :: t in targets ==> Fetchable(c, t)
    decreases |targets|
  {
    if targets == [] then []
    else
      var rest := StatusErrors(c, targets[1..]);
      assert forall t :: t in targets <==> t == targets[0] || t in targets[1..];
      if Fetchable(c, targets[0]) then rest else [CanNotFind(targets[0])] + rest
  }

  /** The error list of a concatenation is the concatenation of the error
      lists: errors appear in target order. */
  lemma {:induction false} StatusErrorsAppend(c: Cluster, a: seq<ObjectRef>, b: seq<ObjectRef>)
    ensures StatusErrors(c, a + b) == StatusErrors(c, a) + StatusErrors(c, b)
    decreases |a|
  {
    if a == [] {
      assert a + b == b;
    } else {
      var ab := a + b;
      assert ab[0] == a[0];
      assert ab[1..] == a[1..] + b;
      StatusErrorsAppend(c, a[1..], b);
    }
  }

  /** A single target contributes one error exactly when it cannot be fetched. */
  lemma StatusErrorsSingle(c: Cluster, t: ObjectRef)
    ensures StatusErrors(c, [t]) == if Fetchable(c, t) then [] else [CanNotFind(t)]
  {
    assert [t][1..] == [];
  }

  /** The loop of `Reconciled`: fetch every target, recording a "can not
      find" string for each failure and carrying on. */
  method CollectStatusErrors(c: Cluster, targets: seq<ObjectRef>) returns (errs: seq<string>)
    ensures errs == StatusErrors(c, targets)
    ensures forall i :: 0 <= i < |errs| ==> exists t :: t in targets && !Fetchable(c, t) && errs[i] == CanNotFind(t)
  {
    errs := [];
    var i := 0;
    while i < |targets|
      invariant 0 <= i <= |targets|
      invariant errs == StatusErrors(c, targets[..i])
      invariant forall j :: 0 <= j < |errs| ==> exists t :: t in targets[..i] && !Fetchable(c, t) && errs[j] == CanNotFind(t)
    {
      var t := targets[i];
      assert targets[..i + 1] == targets[..i] + [t];
      StatusErrorsAppend(c, targets[..i], [t]);
      StatusErrorsSingle(c, t);
      if Get(c, t).Some? {
        errs := errs + [CanNotFind(t)];
      }
      i := i + 1;
    }
    assert targets[..i] == targets;
  }

  /** The composite status: healthy exactly when no dependent is missing. */
  function Aggregate(c: Cluster, targets: seq<ObjectRef>): (r: CommonStatus)
    ensures r.errors == StatusErrors(c, targets)
    ensures r.healthy <==> r.errors == []
    ensures r.healthy <==> forall t :: t in targets ==> Fetchable(c, t)
  {
    var errs := StatusErrors(c, targets);
    CommonStatus(errs == [], errs)
  }

  /** `Reconciled`: recompute the composite status from the dependent table
      and write it only when it differs from the stored status. */
  function Reconciled(c: Cluster, o: DeclarativeObject): (r: StatusOutcome)
    ensures o.OtherObject? ==> r == StatusOutcome(o, [], Some(WrongKind(o.typeName)))
    ensures o.KnativeObject? ==>
              && r.obj.KnativeObject?
              && r.obj.k == SetCommonStatus(o.k, Aggregate(c, Entries))
              && Gets(r.calls) == Entries
              && (Updates(r.calls) != [] <==> Aggregate(c, Entries) != GetCommonStatus(o.k))
              && (r.err.Some? ==> Updates(r.calls) != [] && c.updateFault.Some?)
    // Exactly the fetches in table order, then, when the status changed, one
    // write carrying the recomputed object.
    ensures o.KnativeObject? ==>
              r.calls == GetCalls(Entries) + (if Aggregate(c, Entries) != GetCommonStatus(o.k) then [UpdateCall(r.obj.k)] else [])
  {
    match o
    case OtherObject(t) => StatusOutcome(o, [], Some(WrongKind(t)))
    case KnativeObject(k) =>
      var cs := Aggregate(c, Entries);
      var fetches := GetCalls(Entries);
      if cs == GetCommonStatus(k) then
        SetWhatWasRead(k);
        StatusOutcome(o, fetches, None)
      else
        var k' := SetCommonStatus(k, cs);
        GetsAppend(fetches, [UpdateCall(k')]);
        UpdatesAppend(fetches, [UpdateCall(k')]);
        match Update(c, k')
        case Some(e) => StatusOutcome(KnativeObject(k'), fetches + [UpdateCall(k')], Some(Api(e)))
        case None => StatusOutcome(KnativeObject(k'), fetches + [UpdateCall(k')], None)
  }

  /** The status line Preflight records when the Istio lookup fails. */
  function PreflightMessage(e: ApiError): string
  {
    match e
    case NotFound(_) => "istio-system/istio-pilot not found"
    case Failure(msg) => "fetching istio-pilot: " + msg
  }

  /** `Preflight`: block installation until the Istio control plane exists.
      Skipped while the resource is being deleted. */
  function Preflight(c: Cluster, o: DeclarativeObject): (r: StatusOutcome)
    ensures o.OtherObject? ==> r == StatusOutcome(o, [], Some(WrongKind(o.typeName)))
    ensures o.KnativeObject? && IsDeleting(o.k) ==> r == StatusOutcome(o, [], None)
    ensures o.KnativeObject? && !IsDeleting(o.k) ==> Gets(r.calls) == [PilotRef]
    ensures o.KnativeObject? ==> (r.err.None? <==> IsDeleting(o.k) || Fetchable(c, PilotRef))
  {
    match o
    case OtherObject(t) => StatusOutcome(o, [], Some(WrongKind(t)))
    case KnativeObject(k) =>
      if IsDeleting(k) then StatusOutcome(o, [], None)
      else
        match Get(c, PilotRef)
        case None => StatusOutcome(o, [GetCall(PilotRef)], None)
        case Some(e) =>
          var cs := CommonStatus(false, [PreflightMessage(e)]);
          if cs == GetCommonStatus(k) then
            StatusOutcome(o, [GetCall(PilotRef)], Some(Api(e)))
          else
            var k' := SetCommonStatus(k, cs);
            GetsAppend([GetCall(PilotRef)], [UpdateCall(k')]);
            match Update(c, k')
            case Some(ue) => StatusOutcome(KnativeObject(k'), [GetCall(PilotRef), UpdateCall(k')], Some(Api(ue)))
            case None => StatusOutcome(KnativeObject(k'), [GetCall(PilotRef), UpdateCall(k')], Some(Api(e)))
  }

  /** Reconciled reports an error only when its own status write fails;
      missing dependents never make it fail. */
  lemma ReconciledFailsOnlyOnWrite(c: Cluster, k: Knative)
    ensures var r := Reconciled(c, KnativeObject(k));
      && (r.err.Some? <==> Aggregate(c, Entries) != GetCommonStatus(k) && c.updateFault.Some?)
      && (r.err.Some? ==> r.err == Some(Api(Failure(c.updateFault.value))))
  {
  }

  /** When the stored status already equals the computed one, Reconciled
      only fetches: no write, no change, no error. */
  lemma ReconciledSuppressesEqualWrite(c: Cluster, k: Knative)
    requires GetCommonStatus(k) == Aggregate(c, Entries)
    ensures Reconciled(c, KnativeObject(k)) == StatusOutcome(KnativeObject(k), GetCalls(Entries), None)
  {
  }

  /** After a Reconciled whose write (if any) succeeded, a second Reconciled
      on an unchanged cluster, given the object the first one stored, issues
      no write. */
  lemma ReconciledIdempotent(c: Cluster, k: Knative)
    requires Reconciled(c, KnativeObject(k)).err.None?
    ensures var r1 := Reconciled(c, KnativeObject(k));
      Reconciled(c, r1.obj) == StatusOutcome(r1.obj, GetCalls(Entries), None)
  {
    var r1 := Reconciled(c, KnativeObject(k));
    GetAfterSet(k, Aggregate(c, Entries));
    ReconciledSuppressesEqualWrite(c, r1.obj.k);
  }

  /** With every dependent present the composite status is healthy with no
      errors. */
  lemma AllPresentIsHealthy(c: Cluster)
    requires forall t :: t in Entries ==> Fetchable(c, t)
    ensures Aggregate(c, Entries) == CommonStatus(true, [])
  {
  }

  /** With only the Istio dependent missing, the status names exactly it. */
  lemma OneMissingExample()
    ensures var c := Cluster({Entries[0], Entries[2], Entries[3]}, map[], map[], None);
      Aggregate(c, Entries) == CommonStatus(false, ["can not find istio-system/default"])
  {
    var c := Cluster({Entries[0], Entries[2], Entries[3]}, map[], map[], None);
    assert !Fetchable(c, Entries[1]);
    assert StatusErrors(c, Entries[3..]) == [];
    assert StatusErrors(c, Entries[2..]) == [];
    assert Entries[1..][1..] == Entries[2..];
    assert CanNotFind(Entries[1]) == "can not find istio-system/default";
    assert StatusErrors(c, Entries[1..]) == ["can not find istio-system/default"];
  }

  /** When the Istio lookup fails, Preflight records exactly one error naming
      the cause, writes only if that status differs from the stored one, and
      returns the lookup error unless the write itself failed. Nothing but
      the status changes, and the only calls are the lookup and that write,
      which carries the recorded status. */
  lemma PreflightLookupFails(c: Cluster, k: Knative)
    requires !IsDeleting(k) && !Fetchable(c, PilotRef)
    ensures var e := Get(c, PilotRef).value;
      var cs := CommonStatus(false, [PreflightMessage(e)]);
      var r := Preflight(c, KnativeObject(k));
      && r.obj == KnativeObject(SetCommonStatus(k, cs))
      && r.calls == [GetCall(PilotRef)] + (if cs != GetCommonStatus(k) then [UpdateCall(SetCommonStatus(k, cs))] else [])
      && (IsNotFound(e) ==> cs.errors == ["istio-system/istio-pilot not found"])
      && (Updates(r.calls) != [] <==> cs != GetCommonStatus(k))
      && r.err == (if cs != GetCommonStatus(k) && c.updateFault.Some?
                   then Some(Api(Failure(c.updateFault.value)))
                   else Some(Api(e)))
  {
    var e := Get(c, PilotRef).value;
    var cs := CommonStatus(false, [PreflightMessage(e)]);
    if cs == GetCommonStatus(k) {
      SetWhatWasRead(k);
    } else {
      UpdatesAppend([GetCall(PilotRef)], [UpdateCall(SetCommonStatus(k, cs))]);
    }
  }

  /** When the Istio Deployment is found, Preflight passes and leaves the
      status alone. */
  lemma PreflightLookupSucceeds(c: Cluster, k: Knative)
    requires !IsDeleting(k) && Fetchable(c, PilotRef)
    ensures Preflight(c, KnativeObject(k)) == StatusOutcome(KnativeObject(k), [GetCall(PilotRef)], None)
  {
  }

  /** Preflight's status record is written at most once: when its write
      succeeds, a second Preflight on an unchanged cluster, given the object
      the first one stored, issues no write and returns the same result. */
  lemma PreflightRecordsOnce(c: Cluster, k: Knative)
    requires c.updateFault.None?
    ensures var r1 := Preflight(c, KnativeObject(k));
      var r2 := Preflight(c, r1.obj);
      && Updates(r2.calls) == []
      && r2.err == r1.err
      && r2.obj == r1.obj
  {
    if !IsDeleting(k) && !Fetchable(c, PilotRef) {
      PreflightLookupFails(c, k);
      var e := Get(c, PilotRef).value;
      var k1 := SetCommonStatus(k, CommonStatus(false, [PreflightMessage(e)]));
      PreflightLookupFails(c, k1);
      SetTwice(k, CommonStatus(false, [PreflightMessage(e)]), CommonStatus(false, [PreflightMessage(e)]));
    }
  }
}
