# Knative operator lifecycle — a Dafny model

This project models the decision logic of the Knative add-on operator's root
controller. The operator installs Knative through a declarative manifest engine
and hooks three procedures into it. It also holds a fixed table of dependent
custom resources that live in other namespaces:

- **Lifecycle transform** (`handleKnativeLifecycle`). On a live `Knative`
  resource it registers the operator finalizer `operator.knative.sig.addons.k8s.io`.
  On a resource being deleted it first tears down the dependents, then drops
  that finalizer, writes the resource back and empties the manifest.
- **Cross-namespace teardown** (`deleteCrossNamespace`). It walks the table
  (`knative-build`, `istio-system`, `knative-monitoring`, `knative-serving`,
  each named `default`) in order. An entry whose Get reports NotFound is
  skipped. Any other Get error, and any Delete error (NotFound included),
  ends the walk.
- **Status rollup** (`Reconciled`). Every dependent that cannot be fetched adds
  `can not find <namespace>/<name>`. The resource is healthy iff the list is
  empty. The status is written only when it differs from the stored one.
- **Preflight gate** (`Preflight`). It is skipped while deleting. Otherwise it
  requires the `istio-system/istio-pilot` Deployment to exist. If the lookup
  fails, it records a one-error unhealthy status. It returns the lookup error,
  or the write's error when that status write fails.

The Kubernetes client is abstracted as a `Client.Cluster`. This is the set of
objects present (by kind and key) together with injected failures: Gets that
fail for reasons other than absence, Deletes that fail (a NotFound included),
and a failing Update. Every operation is a pure function. Each returns the
trace of client calls issued (`Client.Call`) and the error handed back to the
engine. The outcomes differ in the rest:

- `Teardown.TeardownOutcome` also carries the cluster after the walk.
- `Lifecycle.HookOutcome` also carries the cluster after the hook, the object
  as left in memory, and the manifest.
- `Status.StatusOutcome` also carries the object as left in memory. The status
  hooks' only write is to the Knative resource. The model keeps that resource
  out of `Cluster` and records the write as an `UpdateCall`, so this outcome
  carries no cluster.

Modules, one per source concern:

- `Wrappers`: `Option`, sequence elements, no-duplicates.
- `KnativeTypes`: the `Knative` record and its accessors (knative_types.go).
- `Client`: keys, kinds, API errors, the abstract cluster and call trace.
- `Registry`: the finalizer token, the dependent table, the Istio Deployment key.
- `Teardown`: `deleteCrossNamespace`.
- `Lifecycle`: `handleKnativeLifecycle`.
- `Status`: `Reconciled` and `Preflight`.

Three things the controller does not do, and the model does not either
(paths relative to `operators/knative-operator/pkg/controller/knative/`):

- `Reconciled` never reads a dependent's own `Healthy` flag. That check is
  commented out at knative_controller.go:189-198, so there is no
  "is not healthy" error.
- `Preflight` tests only that the Deployment can be fetched
  (knative_controller.go:232). It does not test an `Available` condition.
- The controller adds no custom event routing or watch filter. At
  knative_controller.go:61 and :67 it uses only the generic watches of
  controller-runtime and the declarative engine.

## Model

| member | source | states |
|---|---|---|
| KnativeTypes.ComponentName | operators/knative-operator/pkg/apis/addons/v1alpha1/knative_types.go:43-45 | the component name is always "knative", whatever the object |
| KnativeTypes.CommonSpecUnaffectedByWrites | operators/knative-operator/pkg/apis/addons/v1alpha1/knative_types.go:47-49 | the common spec handed to the engine is the resource's own spec, and neither a finalizer change nor a status write alters it |
| KnativeTypes.StatusUnaffectedByFinalizers | operators/knative-operator/pkg/apis/addons/v1alpha1/knative_types.go:51-53 | the stored status is read from the status alone, so a finalizer change leaves it as it was |
| KnativeTypes.SetCommonStatus | operators/knative-operator/pkg/apis/addons/v1alpha1/knative_types.go:55-57 | the status read back is the one written; metadata (finalizers, deletion timestamp) and spec, including the common spec, are unchanged |
| KnativeTypes.GetAfterSet | operators/knative-operator/pkg/apis/addons/v1alpha1/knative_types.go:51-57 | GetCommonStatus after SetCommonStatus(s) returns s |
| KnativeTypes.SetWhatWasRead | operators/knative-operator/pkg/apis/addons/v1alpha1/knative_types.go:51-57 | writing back the status just read leaves the object identical |
| KnativeTypes.SetTwice | operators/knative-operator/pkg/apis/addons/v1alpha1/knative_types.go:55-57 | a second status write fully overrides the first |
| KnativeTypes.StatusWriteKeepsSpecAndMeta | operators/knative-operator/pkg/apis/addons/v1alpha1/knative_types.go:47-57 | CommonSpec, the finalizers and the deleting state are unaffected by status writes |
| KnativeTypes.SetFinalizers | operators/knative-operator/pkg/controller/knative/knative_controller.go:121 | replacing the finalizer list changes nothing else: name, namespace, deletion timestamp, spec and status are kept |
| Registry.EntriesWellFormed | operators/knative-operator/pkg/controller/knative/knative_controller.go:131-151 | the dependent table has four distinct entries, none of them the Istio Deployment |
| Teardown.DeleteCrossNamespace | operators/knative-operator/pkg/controller/knative/knative_controller.go:153-168 | the walk only deletes: fault settings are kept, the present set can only shrink, the Knative resource is never written, and a returned NotFound can only come from a Delete (the last call issued), since a NotFound from a Get is skipped |
| Teardown.TeardownFollowsTableOrder | operators/knative-operator/pkg/controller/knative/knative_controller.go:154-161 | the Gets follow table order as a prefix of it: the whole table on success, not empty on failure |
| Teardown.TeardownFailsAtEntry | operators/knative-operator/pkg/controller/knative/knative_controller.go:155-164 | on failure, with n entries fetched, the n-th entry failed on the cluster the walk had reached: its Get failed with a non-NotFound error, or its Delete failed; that error is returned, those calls are the last ones, and every earlier entry was not found or deleted |
| Teardown.TeardownDeletesOnlyFoundTargets | operators/knative-operator/pkg/controller/knative/knative_controller.go:155-164 | every vanished object had a Delete call and every Delete was for a table entry that was present, so not-found entries are skipped without a Delete |
| Teardown.TeardownClearsTargets | operators/knative-operator/pkg/controller/knative/knative_controller.go:153-168 | after a successful run no table entry is present and none hit a Get fault |
| Teardown.TeardownSucceedsIff | operators/knative-operator/pkg/controller/knative/knative_controller.go:153-168 | teardown returns nil iff no entry has a Get fault and no present entry has a Delete fault, so it succeeds whether none, some or all dependents are already gone |
| Teardown.DeleteFollowsItsGet | operators/knative-operator/pkg/controller/knative/knative_controller.go:155-164 | every Delete is issued immediately after the Get of the same object, so the walk deletes only what it has just fetched |
| Teardown.TeardownDeletesAtMostOnce | operators/knative-operator/pkg/controller/knative/knative_controller.go:155-164 | no entry is ever the subject of two Delete calls |
| Teardown.TeardownAppend | operators/knative-operator/pkg/controller/knative/knative_controller.go:154-165 | walking a+b is walking a, then, only if a succeeded, continuing over b from the cluster a left |
| Teardown.StopsAtFirstFailure | operators/knative-operator/pkg/controller/knative/knative_controller.go:155-164 | once a prefix of the table fails, the result (error, calls, cluster) is the same whatever follows; later entries are never touched |
| Teardown.TeardownOfAbsentTargets | operators/knative-operator/pkg/controller/knative/knative_controller.go:155-158 | with every target absent and no Get fault, teardown only fetches, returns nil and changes nothing |
| Teardown.TeardownReentrant | operators/knative-operator/pkg/controller/knative/knative_controller.go:153-168 | after a successful run, a rerun on the resulting cluster issues no Delete, returns nil and changes nothing |
| Lifecycle.Dedupe | operators/knative-operator/pkg/controller/knative/knative_controller.go:103-112 | listing a string set built from the finalizers yields exactly their distinct elements minus the removed ones, with no repeats |
| Lifecycle.Without | operators/knative-operator/pkg/controller/knative/knative_controller.go:111-112 | removing the operator finalizer from the set leaves exactly the other finalizers, with no repeats |
| Lifecycle.HandleKnativeLifecycle | operators/knative-operator/pkg/controller/knative/knative_controller.go:95-128 | a non-Knative object is rejected with no call; otherwise only the finalizer list can change; at most one Update is issued, and it writes the object left in memory |
| Lifecycle.LiveAddsFinalizer | operators/knative-operator/pkg/controller/knative/knative_controller.go:119-125 | on a live resource without the finalizer, it is appended after the existing ones in order; exactly one Update; the error is set iff the write failed, and then wraps that write's failure |
| Lifecycle.LiveWithFinalizerIsNoop | operators/knative-operator/pkg/controller/knative/knative_controller.go:119-126 | on a live resource that already has the finalizer, no call is issued and nothing changes |
| Lifecycle.LiveRegistrationIdempotent | operators/knative-operator/pkg/controller/knative/knative_controller.go:119-126 | after a successful pass a second pass is a no-op, so two passes write at most once |
| Lifecycle.DeletingTeardownFails | operators/knative-operator/pkg/controller/knative/knative_controller.go:104-108 | when teardown fails, its error is returned unchanged; the finalizers and the manifest are untouched and no Update is issued |
| Lifecycle.DeletingTeardownSucceeds | operators/knative-operator/pkg/controller/knative/knative_controller.go:110-117 | when teardown succeeds, the hook reports the cluster teardown left; exactly the operator finalizer is removed and every other survives as a set; the one Update comes after all the teardown calls; after a successful Update the manifest is empty; on a failed Update the manifest is kept and the error wraps the Update's failure |
| Lifecycle.FinalizerReleasedIffTeardownSucceeds | operators/knative-operator/pkg/controller/knative/knative_controller.go:104-117 | on a deleting resource, a write is issued iff teardown succeeded on that pass, and any write lacks the operator finalizer |
| Lifecycle.DeletingNeverAddsFinalizers | operators/knative-operator/pkg/controller/knative/knative_controller.go:104-117 | while the deletion timestamp is set, the finalizer set can only shrink |
| Status.StatusErrors | operators/knative-operator/pkg/controller/knative/knative_controller.go:182-199 | at most one error per target, and the list is empty iff every target can be fetched |
| Status.StatusErrorsAppend | operators/knative-operator/pkg/controller/knative/knative_controller.go:183-187 | the error list of a+b is the list of a followed by the list of b, so errors appear in table order |
| Status.CollectStatusErrors | operators/knative-operator/pkg/controller/knative/knative_controller.go:182-199 | the loop computes exactly the ordered error list, and every entry is "can not find <ns>/<name>" for a target that could not be fetched |
| Status.Aggregate | operators/knative-operator/pkg/controller/knative/knative_controller.go:201-204 | the composite status lists the table's errors; healthy iff there are none, iff every dependent can be fetched |
| Status.Reconciled | operators/knative-operator/pkg/controller/knative/knative_controller.go:174-215 | a non-Knative object is rejected; otherwise every table entry is fetched in order, the in-memory status becomes the computed one, and an error only ever comes from the write; the calls are exactly the fetches followed, iff the computed status differs from the stored one, by one write carrying the recomputed object |
| Status.ReconciledFailsOnlyOnWrite | operators/knative-operator/pkg/controller/knative/knative_controller.go:206-214 | the result is an error iff the status changed and its write failed, and then it is that write's error; missing dependents never cause one |
| Status.ReconciledSuppressesEqualWrite | operators/knative-operator/pkg/controller/knative/knative_controller.go:206-212 | when the stored status equals the computed one, only the fetches are issued and the object is unchanged |
| Status.ReconciledIdempotent | operators/knative-operator/pkg/controller/knative/knative_controller.go:206-212 | after a pass whose write (if any) succeeded, a second pass over an unchanged cluster on the stored object issues no write |
| Status.AllPresentIsHealthy | operators/knative-operator/pkg/controller/knative/knative_controller.go:182-204 | with every dependent fetchable, the status is healthy with no errors |
| Status.OneMissingExample | operators/knative-operator/pkg/controller/knative/knative_controller.go:182-204 | with only istio-system/default missing, the status is unhealthy with the single error "can not find istio-system/default" |
| Status.Preflight | operators/knative-operator/pkg/controller/knative/knative_controller.go:216-253 | a non-Knative object is rejected; while deleting, it returns nil with no lookup; otherwise it issues exactly one Get, for istio-system/istio-pilot; it passes iff deleting or that Deployment can be fetched |
| Status.PreflightLookupFails | operators/knative-operator/pkg/controller/knative/knative_controller.go:232-250 | on a failed lookup the status becomes unhealthy with one error ("istio-system/istio-pilot not found" for NotFound, "fetching istio-pilot: …" otherwise); the calls are exactly the lookup followed, iff that status differs from the stored one, by one write carrying the object with that status; the lookup error is returned unless the write failed |
| Status.PreflightLookupSucceeds | operators/knative-operator/pkg/controller/knative/knative_controller.go:232-252 | when the Deployment is found, it returns nil after one Get and leaves the status untouched |
| Status.PreflightRecordsOnce | operators/knative-operator/pkg/controller/knative/knative_controller.go:241-249 | when status writes succeed, a second Preflight on an unchanged cluster, given the stored object, issues no write and returns the same object and error |

## Left out

- Controller wiring (`Add`, the watch registrations and the engine's `Init`) is pure registration with controller-runtime and the declarative engine. It has no logic of its own.
- The KnativeServing and StorageClass controllers and the other `*_types.go` files are scaffolding. The dependent kinds appear only as the tags in `Client.Kind`. Scheme registration (`init`) is not modelled.
- The Kubernetes client, API server and manifest render/apply engine are abstracted. A call's outcome comes from `Client.Cluster`: objects present, per-object Get and Delete faults, and one Update fault. An optimistic-concurrency conflict is one such Update fault.
- Faults are fixed per object for the duration of one hook call. Within one call each object is fetched at most once, so this matches per-call outcomes. Each hook call is given its own `Cluster`. The teardown and the status rollup of the same pass may therefore see different clusters.
- A Delete fault may be NotFound. It stands for the object vanishing between the Get and the Delete. The cluster reported after such a failure (`DeleteCrossNamespace`'s, and through `DeletingTeardownFails` the lifecycle hook's) still lists the object as present. Every Delete fault leaves the cluster unchanged.
- A successful Delete removes the object at once. On a real cluster a dependent that carries another controller's finalizer stays visible, with its deletion timestamp set, until that finalizer is released. `TeardownClearsTargets` and `TeardownReentrant` rely on the immediate removal. A rerun against such a lingering object would Get it and Delete it again.
- An Update does not return the server's copy of the object (resourceVersion and similar). The Knative resource is not stored in the cluster. Writes appear only as `UpdateCall` entries in the trace.
- Error values are structured (`Client.Error`) rather than formatted strings. The only strings modelled are the ones that end up in the status.
- The message text of a NotFound API error is not modelled. No status string depends on it.
- Object contents of dependents and the Deployment are not modelled, because the code only tests their existence. The same goes for `TypeMeta`.
- Reusing the global table's objects as fetch buffers is a Go aliasing detail with no effect on the logic.
- Logging and RBAC markers are not modelled.
- Go's `reflect.DeepEqual` tells a nil `Errors` slice from an empty one. Here both are the empty sequence, so a stored nil versus a computed empty list (or the reverse) is treated as equal.
- `CommonSpec` is the addon library's record, which this model does not contain. Its fields (version, channel) are carried through unread.
- Lifecycle.Without: states only the resulting set of finalizers and that none repeats. Go's string-set listing order is unspecified. The model fixes first-occurrence order but promises nothing about it.
