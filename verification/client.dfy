/** An abstract Kubernetes client: the cluster the controller talks to, the
    outcome of each call it issues, and the error values it hands back to the
    declarative engine. */
module Client {
  import opened Wrappers
  import opened KnativeTypes

  /** client.ObjectKey: a namespace and a name. */
  datatype ObjectKey = ObjectKey(namespace: string, name: string)

  /** An ObjectKey prints as `namespace/name`. */
  function KeyString(k: ObjectKey): string
  {
    k.namespace + "/" + k.name
  }

  /** The kinds the controller fetches by key. A typed Get only finds an
      object of the requested kind. */
  datatype Kind = KnativeBuild | KnativeIstio | KnativeMonitoring | KnativeServing | Deployment

  /** One object identity: a kind and a key. */
  datatype ObjectRef = ObjectRef(kind: Kind, key: ObjectKey)

  /** An error returned by the API server: NotFound (what `errors.IsNotFound`
      recognises) or any other failure, with its message. */
  datatype ApiError = NotFound(ref: ObjectRef) | Failure(message: string)

  predicate IsNotFound(e: ApiError)
  {
    e.NotFound?
  }

  /** The cluster as one hook call sees it: which objects exist, which Gets
      fail for reasons other than absence, and which Deletes fail. A Delete
      fault may itself be NotFound: the object vanished between the Get and
      the Delete. Each hook call is given its own `Cluster`. */
  datatype Cluster = Cluster(
    present: set<ObjectRef>,
    getFaults: map<ObjectRef, string>,
    deleteFaults: map<ObjectRef, ApiError>,
    updateFault: Option<string>)

  /** Outcome of `c.Get(ctx, key, obj)`: None when the object was fetched. */
  function Get(c: Cluster, ref: ObjectRef): Option<ApiError>
  {
    if ref in c.getFaults then Some(Failure(c.getFaults[ref]))
    else if ref in c.present then None
    else Some(NotFound(ref))
  }

  predicate Fetchable(c: Cluster, ref: ObjectRef)
  {
    Get(c, ref).None?
  }

  /** Outcome of `c.Delete(ctx, obj)`: None when the object was deleted. */
  function DeleteError(c: Cluster, ref: ObjectRef): Option<ApiError>
  {
    if ref in c.deleteFaults then Some(c.deleteFaults[ref])
    else if ref in c.present then None
    else Some(NotFound(ref))
  }

  /** The cluster after a successful delete of `ref`. */
  function Remove(c: Cluster, ref: ObjectRef): (r: Cluster)
    ensures r.present == c.present - {ref}
    ensures r.getFaults == c.getFaults && r.deleteFaults == c.deleteFaults
    ensures r.updateFault == c.updateFault
  {
    c.(present := c.present - {ref})
  }

  /** Outcome of `c.Update(ctx, obj)` for the Knative resource. */
  function Update(c: Cluster, o: Knative): Option<ApiError>
  {
    match c.updateFault
    case Some(m) => Some(Failure(m))
    case None => None
  }

  /** One client call, in the order the controller issues them. */
  datatype Call = GetCall(ref: ObjectRef) | DeleteCall(ref: ObjectRef) | UpdateCall(obj: Knative)

  /** The refs of the Get calls in a trace, in order. */
  function Gets(calls: seq<Call>): seq<ObjectRef>
  {
    if calls == [] then []
    else (if calls[0].GetCall? then [calls[0].ref] else []) + Gets(calls[1..])
  }

  /** The refs of the Delete calls in a trace, in order. */
  function Deletes(calls: seq<Call>): (r: seq<ObjectRef>)
    ensures forall x :: x in r ==> DeleteCall(x) in calls
  {
    if calls == [] then []
    else (if calls[0].DeleteCall? then [calls[0].ref] else []) + Deletes(calls[1..])
  }

  /** The objects written by the Update calls in a trace, in order. */
  function Updates(calls: seq<Call>): seq<Knative>
  {
    if calls == [] then []
    else (if calls[0].UpdateCall? then [calls[0].obj] else []) + Updates(calls[1..])
  }

  /** A trace of one Get per ref, in order. */
  function GetCalls(refs: seq<ObjectRef>): (r: seq<Call>)
    ensures |r| == |refs|
    ensures forall i :: 0 <= i < |refs| ==> r[i] == GetCall(refs[i])
    ensures Gets(r) == refs
    ensures Updates(r) == []
    decreases |refs|
  {
    if refs == [] then []
    else
      var rest := GetCalls(refs[1..]);
      assert ([GetCall(refs[0])] + rest)[1..] == rest;
      [GetCall(refs[0])] + rest
  }

  lemma {:induction false} GetsAppend(a: seq<Call>, b: seq<Call>)
    ensures Gets(a + b) == Gets(a) + Gets(b)
  {
    if a == [] {
      assert a + b == b;
    } else {
      var ab := a + b;
      assert ab[0] == a[0];
      assert ab[1..] == a[1..] + b;
      GetsAppend(a[1..], b);
      assert Gets(ab) == Gets([a[0]]) + Gets(a[1..] + b);
    }
  }

  lemma {:induction false} DeletesAppend(a: seq<Call>, b: seq<Call>)
    ensures Deletes(a + b) == Deletes(a) + Deletes(b)
  {
    if a == [] {
      assert a + b == b;
    } else {
      var ab := a + b;
      assert ab[0] == a[0];
      assert ab[1..] == a[1..] + b;
      DeletesAppend(a[1..], b);
      assert Deletes(ab) == Deletes([a[0]]) + Deletes(a[1..] + b);
    }
  }

  lemma {:induction false} UpdatesAppend(a: seq<Call>, b: seq<Call>)
    ensures Updates(a + b) == Updates(a) + Updates(b)
  {
    if a == [] {
      assert a + b == b;
    } else {
      var ab := a + b;
      assert ab[0] == a[0];
      assert ab[1..] == a[1..] + b;
      UpdatesAppend(a[1..], b);
      assert Updates(ab) == Updates([a[0]]) + Updates(a[1..] + b);
    }
  }

  /** What the declarative engine hands to the hooks: a Knative resource or
      an object of some other Go type. */
  datatype DeclarativeObject = KnativeObject(k: Knative) | OtherObject(typeName: string)

  /** An error a hook returns to the engine. Each constructor names the Go
      error it stands for. */
  datatype Error =
    | Api(cause: ApiError)                   // a client error, returned unchanged
    | WrongKind(typeName: string)            // "expected resource to be Knative but was: %T"
    | CouldNotFinalize(cause: ApiError)      // "could not finalize Knative: %v"
    | CouldNotAddFinalizer(cause: ApiError)  // "could not add finalizer to Knative: %v"
}
