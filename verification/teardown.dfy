/** Cross-namespace teardown of the dependent resources (`deleteCrossNamespace`).
    Owner references cannot cross namespaces, so the controller deletes the
    dependents itself before it releases its finalizer. */
module Teardown {
  import opened Wrappers
  import opened Client

  /** The cluster after the pass, every call issued, and the error returned
      (None for nil). */
  datatype TeardownOutcome = TeardownOutcome(cluster: Cluster, calls: seq<Call>, err: Option<ApiError>)

  /** The outcome `r` with `calls` issued before it. */
  function Prepend(calls: seq<Call>, r: TeardownOutcome): TeardownOutcome
  {
    r.(calls := calls + r.calls)
  }

  /** Visit `targets` in order: fetch each one; skip it when it is not found;
      delete it when it is found. Any other Get error, and any Delete error,
      ends the walk and is returned. */
  function DeleteCrossNamespace(c: Cluster, targets: seq<ObjectRef>): (r: TeardownOutcome)
    decreases |targets|
    // Only the set of present objects changes, and only by deletion.
    ensures r.cluster.getFaults == c.getFaults && r.cluster.deleteFaults == c.deleteFaults
    ensures r.cluster.updateFault == c.updateFault
    ensures r.cluster.present <= c.present
    // The Knative resource is never written. A NotFound from a Get is
    // skipped, so a returned NotFound can only come from the last call, a Delete.
    ensures Updates(r.calls) == []
    ensures r.err.Some? && IsNotFound(r.err.value) ==> |r.calls| > 0 && r.calls[|r.calls| - 1].DeleteCall?
  {
    if targets == [] then TeardownOutcome(c, [], None)
    else
      var t := targets[0];
      match Get(c, t)
      case Some(e) =>
        if IsNotFound(e) then
          var rest := DeleteCrossNamespace(c, targets[1..]);
          assert ([GetCall(t)] + rest.calls)[1..] == rest.calls;
          Prepend([GetCall(t)], rest)
        else TeardownOutcome(c, [GetCall(t)], Some(e))
      case None =>
        match DeleteError(c, t)
        case Some(e) =>
          assert [GetCall(t), DeleteCall(t)][1..] == [DeleteCall(t)] && [DeleteCall(t)][1..] == [];
          assert Updates([DeleteCall(t)]) == [];
          TeardownOutcome(c, [GetCall(t), DeleteCall(t)], Some(e))
        case None =>
          var rest := DeleteCrossNamespace(Remove(c, t), targets[1..]);
          assert ([GetCall(t), DeleteCall(t)] + rest.calls)[1..][1..] == rest.calls;
          Prepend([GetCall(t), DeleteCall(t)], rest)
  }

  /** The Gets follow the table order and stop at the failing entry: they
      are a prefix of the table, the whole table on success, and not empty on
      failure. */
  lemma {:induction false} TeardownFollowsTableOrder(c: Cluster, targets: seq<ObjectRef>)
    ensures var r := DeleteCrossNamespace(c, targets);
      && Gets(r.calls) <= targets
      && (r.err.None? ==> Gets(r.calls) == targets)
      && (r.err.Some? ==> |Gets(r.calls)| > 0)
    decreases |targets|
  {
    if targets != [] {
      var t := targets[0];
      GetsAppend([GetCall(t)], [DeleteCall(t)]);
      assert targets == [t] + targets[1..];
      match Get(c, t)
      case Some(e) =>
        if IsNotFound(e) {
          TeardownFollowsTableOrder(c, targets[1..]);
          FirstEntryThenRest([GetCall(t)], targets, DeleteCrossNamespace(c, targets[1..]));
        }
      case None =>
        if DeleteError(c, t).None? {
          TeardownFollowsTableOrder(Remove(c, t), targets[1..]);
          FirstEntryThenRest([GetCall(t), DeleteCall(t)], targets, DeleteCrossNamespace(Remove(c, t), targets[1..]));
        }
    }
  }

  /** The inductive step of `TeardownFollowsTableOrder`: the calls for the
      first entry fetch exactly that entry. */
  lemma FirstEntryThenRest(pre: seq<Call>, targets: seq<ObjectRef>, rest: TeardownOutcome)
    requires targets != [] && Gets(pre) == [targets[0]]
    requires Gets(rest.calls) <= targets[1..]
    requires rest.err.None? ==> Gets(rest.calls) == targets[1..]
    ensures var r := Prepend(pre, rest);
      && Gets(r.calls) <= targets
      && (r.err.None? ==> Gets(r.calls) == targets)
      && (r.err.Some? ==> |Gets(r.calls)| > 0)
  {
    GetsAppend(pre, rest.calls);
    var g := Gets(rest.calls);
    assert g == targets[1..][..|g|];
    assert [targets[0]] + g == targets[..|g| + 1];
  }

  /** Every object that disappeared was the subject of a Delete call, and
      every Delete call was for a target that was present; so a target that
      was not found is never deleted, and nothing outside the table is. */
  lemma {:induction false} TeardownDeletesOnlyFoundTargets(c: Cluster, targets: seq<ObjectRef>)
    ensures var r := DeleteCrossNamespace(c, targets);
      && (forall t :: t in c.present && t !in r.cluster.present ==> DeleteCall(t) in r.calls)
      && (forall t :: DeleteCall(t) in r.calls ==> t in c.present && t in targets)
    decreases |targets|
  {
    if targets != [] {
      var t := targets[0];
      match Get(c, t)
      case Some(e) =>
        if IsNotFound(e) {
          TeardownDeletesOnlyFoundTargets(c, targets[1..]);
        }
      case None =>
        if DeleteError(c, t).None? {
          TeardownDeletesOnlyFoundTargets(Remove(c, t), targets[1..]);
        }
    }
  }

  /** Every Delete in a trace comes right after the Get of the same object:
      the walk deletes only what it has just fetched. */
  ghost predicate DeletesFollowGets(calls: seq<Call>)
  {
    forall i :: 0 <= i < |calls| && calls[i].DeleteCall? ==> 0 < i && calls[i - 1] == GetCall(calls[i].ref)
  }

  /** Each entry's Delete is issued immediately after that entry's Get. */
  lemma {:induction false} DeleteFollowsItsGet(c: Cluster, targets: seq<ObjectRef>)
    ensures DeletesFollowGets(DeleteCrossNamespace(c, targets).calls)
    decreases |targets|
  {
    if targets != [] {
      var t := targets[0];
      match Get(c, t)
      case Some(e) =>
        if IsNotFound(e) {
          DeleteFollowsItsGet(c, targets[1..]);
          PrependKeepsDeletesFollowGets(t, [GetCall(t)], DeleteCrossNamespace(c, targets[1..]).calls);
        }
      case None =>
        if DeleteError(c, t).None? {
          DeleteFollowsItsGet(Remove(c, t), targets[1..]);
          PrependKeepsDeletesFollowGets(t, [GetCall(t), DeleteCall(t)], DeleteCrossNamespace(Remove(c, t), targets[1..]).calls);
        }
    }
  }

  /** The inductive step of `DeleteFollowsItsGet`: prefixing a trace with
      the calls for one entry keeps every Delete behind its Get. */
  lemma PrependKeepsDeletesFollowGets(t: ObjectRef, pre: seq<Call>, rest: seq<Call>)
    requires pre == [GetCall(t)] || pre == [GetCall(t), DeleteCall(t)]
    requires DeletesFollowGets(rest)
    ensures DeletesFollowGets(pre + rest)
  {
    var calls := pre + rest;
    forall i | 0 <= i < |calls| && calls[i].DeleteCall?
      ensures 0 < i && calls[i - 1] == GetCall(calls[i].ref)
    {
      if i >= |pre| {
        assert calls[i] == rest[i - |pre|];
        if i - |pre| > 0 {
          assert calls[i - 1] == rest[i - |pre| - 1];
        }
      }
    }
  }

  /** After a clean walk no target is left, and none had a Get fault. */
  lemma {:induction false} TeardownClearsTargets(c: Cluster, targets: seq<ObjectRef>)
    requires DeleteCrossNamespace(c, targets).err.None?
    ensures var r := DeleteCrossNamespace(c, targets);
      forall t :: t in targets ==> t !in r.cluster.present && t !in c.getFaults
    decreases |targets|
  {
    if targets != [] {
      var t := targets[0];
      match Get(c, t)
      case Some(e) =>
        TeardownClearsTargets(c, targets[1..]);
      case None =>
        TeardownClearsTargets(Remove(c, t), targets[1..]);
    }
  }

  /** `r` is a walk of `targets` from cluster `c` that stopped at its first
      error. With `n` entries fetched, the n-th entry `t` is the one that
      failed, judged on the cluster the walk had reached (a failure changes
      nothing, so that is `r.cluster`): either its Get failed with an error
      other than NotFound, or its Delete failed. That error is the one
      returned, those calls are the last ones issued, and every earlier entry
      had been not found or deleted. */
  ghost predicate StoppedAtFailingEntry(c: Cluster, targets: seq<ObjectRef>, r: TeardownOutcome)
  {
    var n := |Gets(r.calls)|;
    && 1 <= n <= |targets|
    && var t := targets[n - 1];
       && (forall u :: u in targets[..n - 1] ==> u !in r.cluster.present && u !in c.getFaults)
       && (if Get(r.cluster, t).Some? then
             && !IsNotFound(Get(r.cluster, t).value)
             && r.err == Get(r.cluster, t)
             && r.calls[|r.calls| - 1] == GetCall(t)
           else
             && r.err == DeleteError(r.cluster, t)
             && |r.calls| >= 2
             && r.calls[|r.calls| - 2..] == [GetCall(t), DeleteCall(t)])
  }

  /** A failing teardown stopped at its first failing entry and returned that
      entry's error. */
  lemma {:induction false} TeardownFailsAtEntry(c: Cluster, targets: seq<ObjectRef>)
    requires DeleteCrossNamespace(c, targets).err.Some?
    ensures StoppedAtFailingEntry(c, targets, DeleteCrossNamespace(c, targets))
    decreases |targets|
  {
    var r := DeleteCrossNamespace(c, targets);
    var t := targets[0];
    GetsAppend([GetCall(t)], [DeleteCall(t)]);
    match Get(c, t)
    case Some(e) =>
      if IsNotFound(e) {
        var rest := DeleteCrossNamespace(c, targets[1..]);
        TeardownFailsAtEntry(c, targets[1..]);
        StepThenFailure(c, c, [GetCall(t)], targets, rest, r);
      } else {
        assert targets[..0] == [];
      }
    case None =>
      if DeleteError(c, t).None? {
        var c1 := Remove(c, t);
        var rest := DeleteCrossNamespace(c1, targets[1..]);
        TeardownFailsAtEntry(c1, targets[1..]);
        StepThenFailure(c, c1, [GetCall(t), DeleteCall(t)], targets, rest, r);
      } else {
        assert targets[..0] == [];
      }
  }

  /** The inductive step of `TeardownFailsAtEntry`: an entry handled without
      error, then a failing walk over the rest. */
  lemma StepThenFailure(c: Cluster, c1: Cluster, pre: seq<Call>, targets: seq<ObjectRef>,
                        rest: TeardownOutcome, r: TeardownOutcome)
    requires targets != [] && Gets(pre) == [targets[0]]
    requires targets[0] !in c1.present && targets[0] !in c.getFaults
    requires c1.getFaults == c.getFaults && rest.cluster.present <= c1.present
    requires r == Prepend(pre, rest)
    requires StoppedAtFailingEntry(c1, targets[1..], rest)
    ensures StoppedAtFailingEntry(c, targets, r)
  {
    var n' := |Gets(rest.calls)|;
    GetsAppend(pre, rest.calls);
    assert |Gets(r.calls)| == n' + 1;
    assert targets[n'] == targets[1..][n' - 1];
    assert forall u :: u in targets[..n'] ==> u == targets[0] || u in targets[1..][..n' - 1] by {
      assert targets[..n'] == [targets[0]] + targets[1..][..n' - 1];
    }
    assert r.calls[|r.calls| - 1] == rest.calls[|rest.calls| - 1];
    if |rest.calls| >= 2 {
      assert r.calls[|r.calls| - 2..] == rest.calls[|rest.calls| - 2..];
    }
  }

  /** Teardown succeeds exactly when no entry has a Get fault and no present
      entry has a Delete fault; in particular it succeeds whether none, some
      or all of the dependents are already gone. */
  lemma {:induction false} TeardownSucceedsIff(c: Cluster, targets: seq<ObjectRef>)
    ensures DeleteCrossNamespace(c, targets).err.None? <==>
      forall t :: t in targets ==> t !in c.getFaults && (t in c.present ==> t !in c.deleteFaults)
    decreases |targets|
  {
    if targets != [] {
      var t := targets[0];
      assert forall u :: u in targets <==> u == t || u in targets[1..];
      if Get(c, t).Some? && IsNotFound(Get(c, t).value) {
        TeardownSucceedsIff(c, targets[1..]);
      } else if Get(c, t).None? && DeleteError(c, t).None? {
        TeardownSucceedsIff(Remove(c, t), targets[1..]);
      }
    }
  }

  /** No target is ever deleted twice: a Delete is only issued for a present
      object, and a deleted object is no longer present. */
  lemma {:induction false} TeardownDeletesAtMostOnce(c: Cluster, targets: seq<ObjectRef>)
    ensures NoDuplicates(Deletes(DeleteCrossNamespace(c, targets).calls))
    decreases |targets|
  {
    if targets != [] {
      var t := targets[0];
      match Get(c, t)
      case Some(e) =>
        if IsNotFound(e) {
          var rest := DeleteCrossNamespace(c, targets[1..]);
          TeardownDeletesAtMostOnce(c, targets[1..]);
          DeletesAppend([GetCall(t)], rest.calls);
        }
      case None =>
        DeletesAppend([GetCall(t)], [DeleteCall(t)]);
        if DeleteError(c, t).None? {
          var c1 := Remove(c, t);
          var rest := DeleteCrossNamespace(c1, targets[1..]);
          TeardownDeletesAtMostOnce(c1, targets[1..]);
          TeardownDeletesOnlyFoundTargets(c1, targets[1..]);
          DeletesAppend([GetCall(t), DeleteCall(t)], rest.calls);
          assert t !in Deletes(rest.calls);
        }
    }
  }

  /** Running over `a + b` is running over `a` and, if that finished cleanly,
      continuing over `b` from where it left the cluster. So the table is
      walked in order, and a failure in `a` means `b` is never touched. */
  lemma {:induction false} TeardownAppend(c: Cluster, a: seq<ObjectRef>, b: seq<ObjectRef>)
    ensures DeleteCrossNamespace(c, a + b) ==
      (var ra := DeleteCrossNamespace(c, a);
       if ra.err.Some? then ra else Prepend(ra.calls, DeleteCrossNamespace(ra.cluster, b)))
    decreases |a|, 1
  {
    if a == [] {
      assert a + b == b;
      assert Prepend([], DeleteCrossNamespace(c, b)) == DeleteCrossNamespace(c, b);
    } else {
      var t := a[0];
      var ab := a + b;
      assert ab[0] == t;
      assert ab[1..] == a[1..] + b;
      match Get(c, t)
      case Some(e) =>
        if IsNotFound(e) {
          PrependStep(c, c, [GetCall(t)], a[1..], b);
        }
      case None =>
        if DeleteError(c, t).None? {
          PrependStep(c, Remove(c, t), [GetCall(t), DeleteCall(t)], a[1..], b);
        }
    }
  }

  /** One inductive step of `TeardownAppend`: the calls issued for the first
      entry are prepended on both sides. */
  lemma {:induction false} PrependStep(c: Cluster, c1: Cluster, pre: seq<Call>, a: seq<ObjectRef>, b: seq<ObjectRef>)
    ensures
      (var ra := Prepend(pre, DeleteCrossNamespace(c1, a));
       Prepend(pre, DeleteCrossNamespace(c1, a + b)) ==
       if ra.err.Some? then ra else Prepend(ra.calls, DeleteCrossNamespace(ra.cluster, b)))
    decreases |a| + 1, 0
  {
    TeardownAppend(c1, a, b);
    var ra1 := DeleteCrossNamespace(c1, a);
    if ra1.err.None? {
      var rb := DeleteCrossNamespace(ra1.cluster, b);
      assert pre + (ra1.calls + rb.calls) == (pre + ra1.calls) + rb.calls;
    }
  }

  /** Once a prefix of the table fails, whatever follows it is irrelevant:
      the same error is returned and nothing later is fetched or deleted. */
  lemma StopsAtFirstFailure(c: Cluster, a: seq<ObjectRef>, b: seq<ObjectRef>)
    requires DeleteCrossNamespace(c, a).err.Some?
    ensures DeleteCrossNamespace(c, a + b) == DeleteCrossNamespace(c, a)
  {
    TeardownAppend(c, a, b);
  }

  /** When no target is present and none has a Get fault, the walk only
      fetches: it returns nil, issues no Delete and changes nothing. */
  lemma {:induction false} TeardownOfAbsentTargets(c: Cluster, targets: seq<ObjectRef>)
    requires forall t :: t in targets ==> t !in c.present && t !in c.getFaults
    ensures DeleteCrossNamespace(c, targets) == TeardownOutcome(c, GetCalls(targets), None)
    decreases |targets|
  {
    if targets != [] {
      assert Get(c, targets[0]) == Some(NotFound(targets[0]));
      TeardownOfAbsentTargets(c, targets[1..]);
    }
  }

  /** Teardown is re-entrant: after a clean run, running it again on the
      resulting cluster returns nil, issues no Delete, and changes nothing. */
  lemma TeardownReentrant(c: Cluster, targets: seq<ObjectRef>)
    requires DeleteCrossNamespace(c, targets).err.None?
    ensures var c' := DeleteCrossNamespace(c, targets).cluster;
      DeleteCrossNamespace(c', targets) == TeardownOutcome(c', GetCalls(targets), None)
  {
    TeardownClearsTargets(c, targets);
    TeardownOfAbsentTargets(DeleteCrossNamespace(c, targets).cluster, targets);
  }
}
