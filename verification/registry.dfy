/** The controller's constants: its finalizer token, the fixed table of
    dependent resources in other namespaces, and the prerequisite Deployment. */
module Registry {
  import opened Wrappers
  import opened Client

  /** The finalizer token this controller owns on the Knative resource. */
  const OperatorFinalizer: string := "operator.knative.sig.addons.k8s.io"

  /** The dependent custom resources, in table order. Each is named
      `default` in its own namespace. */
  const Entries: seq<ObjectRef> := [
    ObjectRef(KnativeBuild, ObjectKey("knative-build", "default")),
    ObjectRef(KnativeIstio, ObjectKey("istio-system", "default")),
    ObjectRef(KnativeMonitoring, ObjectKey("knative-monitoring", "default")),
    ObjectRef(KnativeServing, ObjectKey("knative-serving", "default"))
  ]

  /** The Istio control-plane Deployment the preflight check looks for. */
  const PilotRef: ObjectRef := ObjectRef(Deployment, ObjectKey("istio-system", "istio-pilot"))

  /** The table names four distinct objects, none of them the Deployment. */
  lemma EntriesWellFormed()
    ensures |Entries| == 4
    ensures NoDuplicates(Entries)
    ensures PilotRef !in Entries
  {
  }
}
