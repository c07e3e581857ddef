/** The cluster objects the library reads, the owner-reference check shared
    by the ReplicaSet and Pod lookups, and the kinds of error it reports. */
module Objects {

  type Name = string

  /** A back-link recorded on a child object, naming its owner's kind and name. */
  datatype OwnerReference = OwnerReference(kind: string, name: Name)

  /** A Deployment, of which only the name takes part in the lookups. */
  datatype Deployment = Deployment(name: Name)

  /** A ReplicaSet snapshot: its name, its owner references in the order the
      API returns them, and its annotations. */
  datatype ReplicaSet = ReplicaSet(
    name: Name,
    ownerReferences: seq<OwnerReference>,
    annotations: map<string, string>)

  /** A Pod snapshot: its name and its owner references. */
  datatype Pod = Pod(name: Name, ownerReferences: seq<OwnerReference>)

  const DeploymentKind: string := "Deployment"
  const ReplicaSetKind: string := "ReplicaSet"

  /** The annotation in which the deployment controller records a ReplicaSet's revision. */
  const RevisionAnnotation: string := "deployment.kubernetes.io/revision"

  /** Why a call to the cluster API failed (the cause the library wraps). */
  datatype ApiError = ApiNotFound | Transport

  /** The errors the library returns, one per kind of failure. */
  datatype Error =
    | CouldNotGetDeployment(cause: ApiError)
    | CouldNotListReplicaSets(cause: ApiError)
    | CouldNotListPods(cause: ApiError)
      /** The revision annotation (the empty string when it is missing) did not parse. */
    | RevisionParseFailed(annotation: string)
    | ReplicaSetNotFound

  /** The check done on each owner reference: same kind and same name. */
  predicate Refers(ref: OwnerReference, kind: string, name: Name)
  {
    ref.kind == kind && ref.name == name
  }

  /** Some owner reference in `refs` points at the owner `kind`/`name`. */
  predicate OwnedBy(refs: seq<OwnerReference>, kind: string, name: Name)
  {
    exists i :: 0 <= i < |refs| && Refers(refs[i], kind, name)
  }

  /** How many owner references in `refs` point at the owner `kind`/`name`:
      the number of times a loop without `break` over `refs` finds a match. */
  function MatchCount(refs: seq<OwnerReference>, kind: string, name: Name): (n: nat)
    ensures n <= |refs|
  {
    if refs == [] then 0
    else (if Refers(refs[0], kind, name) then 1 else 0) + MatchCount(refs[1..], kind, name)
  }

  /** A loop over the owner references finds a match at least once exactly
      when the object is owned by `kind`/`name`. */
  lemma {:induction false} MatchCountPositive(refs: seq<OwnerReference>, kind: string, name: Name)
    ensures MatchCount(refs, kind, name) > 0 <==> OwnedBy(refs, kind, name)
  {
    if refs != [] {
      var tail := refs[1..];
      MatchCountPositive(tail, kind, name);
      if OwnedBy(tail, kind, name) {
        var i :| 0 <= i < |tail| && Refers(tail[i], kind, name);
        assert refs[i + 1] == tail[i];
      }
      if OwnedBy(refs, kind, name) && !Refers(refs[0], kind, name) {
        var i :| 0 <= i < |refs| && Refers(refs[i], kind, name);
        assert i > 0 && tail[i - 1] == refs[i];
      }
    }
  }
}
