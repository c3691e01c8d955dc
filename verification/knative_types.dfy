/** The `Knative` root resource and its accessors (the addons/v1alpha1 API
    group). `CommonSpec` and `CommonStatus` are the addon library's shared
    spec and status records, embedded in the Knative spec and status. */
module KnativeTypes {
  import opened Wrappers

  /** The addon library's common spec: the version and channel of the
      manifest to install. The controller only passes it through. */
  datatype CommonSpec = CommonSpec(version: string, channel: string)

  /** The addon library's common status. A nil and an empty `Errors` slice are
      both the empty sequence here. */
  datatype CommonStatus = CommonStatus(healthy: bool, errors: seq<string>)

  /** A deletion timestamp; its value is never inspected, only its presence. */
  type Time = int

  /** The part of Kubernetes object metadata the controller reads or writes. */
  datatype ObjectMeta = ObjectMeta(
    namespace: string,
    name: string,
    finalizers: seq<string>,
    deletionTimestamp: Option<Time>)

  datatype KnativeSpec = KnativeSpec(common: CommonSpec)

  datatype KnativeStatus = KnativeStatus(common: CommonStatus)

  /** The Knative root resource. */
  datatype Knative = Knative(meta: ObjectMeta, spec: KnativeSpec, status: KnativeStatus)

  /** The component name the declarative engine registers this kind under. */
  function ComponentName(o: Knative): (r: string)
    ensures r == "knative"
  {
    "knative"
  }

  function CommonSpecOf(o: Knative): CommonSpec
  {
    o.spec.common
  }

  function GetCommonStatus(o: Knative): CommonStatus
  {
    o.status.common
  }

  /** Replaces the common status and nothing else. */
  function SetCommonStatus(o: Knative, s: CommonStatus): (r: Knative)
    ensures GetCommonStatus(r) == s
    ensures r.meta == o.meta && r.spec == o.spec
    ensures CommonSpecOf(r) == CommonSpecOf(o)
  {
    o.(status := o.status.(common := s))
  }

  /** Replaces the finalizer list and nothing else. */
  function SetFinalizers(o: Knative, fs: seq<string>): (r: Knative)
    ensures r.meta.finalizers == fs
    ensures r.meta.deletionTimestamp == o.meta.deletionTimestamp
    ensures r.meta.namespace == o.meta.namespace && r.meta.name == o.meta.name
    ensures r.spec == o.spec && r.status == o.status
  {
    o.(meta := o.meta.(finalizers := fs))
  }

  /** A resource whose deletion timestamp is set is being deleted. */
  predicate IsDeleting(o: Knative)
  {
    o.meta.deletionTimestamp.Some?
  }

  /** The common spec handed to the engine is the resource's own: neither of
      the controller's writes (the finalizer list, the status) changes it. */
  lemma CommonSpecUnaffectedByWrites(o: Knative, fs: seq<string>, s: CommonStatus)
    ensures CommonSpecOf(SetFinalizers(o, fs)) == CommonSpecOf(o)
    ensures CommonSpecOf(SetCommonStatus(o, s)) == CommonSpecOf(o)
  {
  }

  /** The stored status is read from the status alone: a finalizer change
      leaves it as it was. */
  lemma StatusUnaffectedByFinalizers(o: Knative, fs: seq<string>)
    ensures GetCommonStatus(SetFinalizers(o, fs)) == GetCommonStatus(o)
  {
  }

  /** The status read back after a write is the status written. */
  lemma GetAfterSet(o: Knative, s: CommonStatus)
    ensures GetCommonStatus(SetCommonStatus(o, s)) == s
  {
  }

  /** Writing back the status just read leaves the object as it was. */
  lemma SetWhatWasRead(o: Knative)
    ensures SetCommonStatus(o, GetCommonStatus(o)) == o
  {
  }

  /** A second status write overrides the first. */
  lemma SetTwice(o: Knative, s1: CommonStatus, s2: CommonStatus)
    ensures SetCommonStatus(SetCommonStatus(o, s1), s2) == SetCommonStatus(o, s2)
  {
  }

  /** Status writes never change the finalizers, the deletion timestamp or
      the common spec. */
  lemma StatusWriteKeepsSpecAndMeta(o: Knative, s: CommonStatus)
    ensures CommonSpecOf(SetCommonStatus(o, s)) == CommonSpecOf(o)
    ensures SetCommonStatus(o, s).meta.finalizers == o.meta.finalizers
    ensures IsDeleting(SetCommonStatus(o, s)) == IsDeleting(o)
  {
  }
}
