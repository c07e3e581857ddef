/** Finding the Pods that a ReplicaSet owns. */
module Pods {
  import opened Wrappers
  import opened Objects

  /** The listed Pods with an owner reference naming the ReplicaSet, in list
      order, each as many times as it is listed. */
  function OwnedPods(pods: seq<Pod>, replicaSetName: Name): (r: seq<Pod>)
    ensures |r| <= |pods|
  {
    if pods == [] then []
    else
      var last := pods[|pods| - 1];
      OwnedPods(pods[..|pods| - 1], replicaSetName)
      + (if OwnedBy(last.ownerReferences, ReplicaSetKind, replicaSetName) then [last] else [])
  }

  /** A Pod is returned exactly when it is listed and has an owner reference
      of kind ReplicaSet with the ReplicaSet's name; Pods without owner
      references, or owned by something else, are left out. */
  lemma {:induction false} OwnedPodsMembership(pods: seq<Pod>, replicaSetName: Name, pod: Pod)
    ensures pod in OwnedPods(pods, replicaSetName) <==>
            pod in pods && OwnedBy(pod.ownerReferences, ReplicaSetKind, replicaSetName)
  {
    if pods != [] {
      var prefix := pods[..|pods| - 1];
      OwnedPodsMembership(prefix, replicaSetName, pod);
      assert pods == prefix + [pods[|pods| - 1]];
    }
  }

  /** Each listed Pod is returned once per time it is listed, however many of
      its owner references name the ReplicaSet. */
  lemma {:induction false} OwnedPodsMultiplicity(pods: seq<Pod>, replicaSetName: Name, pod: Pod)
    ensures multiset(OwnedPods(pods, replicaSetName))[pod] ==
            if OwnedBy(pod.ownerReferences, ReplicaSetKind, replicaSetName) then multiset(pods)[pod] else 0
  {
    if pods != [] {
      var prefix := pods[..|pods| - 1];
      OwnedPodsMultiplicity(prefix, replicaSetName, pod);
      assert pods == prefix + [pods[|pods| - 1]];
    }
  }

  /** The filter keeps list order: filtering a concatenation concatenates the
      filtered parts, so the result is a subsequence of the listed Pods. */
  lemma {:induction false} OwnedPodsAppend(a: seq<Pod>, b: seq<Pod>, replicaSetName: Name)
    ensures OwnedPods(a + b, replicaSetName) == OwnedPods(a, replicaSetName) + OwnedPods(b, replicaSetName)
    decreases |b|
  {
    if b == [] {
      assert a + b == a;
    } else {
      var prefix := b[..|b| - 1];
      var last := b[|b| - 1];
      var ab := a + b;
      assert ab[..|ab| - 1] == a + prefix && ab[|ab| - 1] == last;
      OwnedPodsAppend(a, prefix, replicaSetName);
      var keep := if OwnedBy(last.ownerReferences, ReplicaSetKind, replicaSetName) then [last] else [];
      assert OwnedPods(ab, replicaSetName) ==
             (OwnedPods(a, replicaSetName) + OwnedPods(prefix, replicaSetName)) + keep;
    }
  }

  /** No listed Pod owned by the ReplicaSet: the result is empty, and only then. */
  lemma OwnedPodsEmpty(pods: seq<Pod>, replicaSetName: Name)
    ensures OwnedPods(pods, replicaSetName) == [] <==>
            forall pod :: pod in pods ==> !OwnedBy(pod.ownerReferences, ReplicaSetKind, replicaSetName)
  {
  }

  /** `FindPods`: lists the Pods of the ReplicaSet's namespace (`listed` is
      what the list call returned) and keeps, in order, each Pod that has an
      owner reference naming the ReplicaSet; the scan of a Pod's owner
      references stops at the first match. */
  method FindPods(replicaSet: ReplicaSet, listed: Result<seq<Pod>, ApiError>)
    returns (r: Result<seq<Pod>, Error>)
    ensures listed.Err? ==> r == Err(CouldNotListPods(listed.error))
    ensures listed.Ok? ==> r == Ok(OwnedPods(listed.value, replicaSet.name))
  {
    if listed.Err? {
      return Err(CouldNotListPods(listed.error));
    }
    var pods := listed.value;
    var result: seq<Pod> := [];
    var i := 0;
    while i < |pods|
      invariant 0 <= i <= |pods|
      invariant result == OwnedPods(pods[..i], replicaSet.name)
    {
      var pod := pods[i];
      var refs := pod.ownerReferences;
      assert pods[..i + 1][..i] == pods[..i] && pods[..i + 1][i] == pod;
      var j := 0;
      while j < |refs|
        invariant 0 <= j <= |refs|
        invariant result == OwnedPods(pods[..i], replicaSet.name)
        invariant forall k :: 0 <= k < j ==> !Refers(refs[k], ReplicaSetKind, replicaSet.name)
      {
        if refs[j].kind == ReplicaSetKind && refs[j].name == replicaSet.name {
          assert Refers(refs[j], ReplicaSetKind, replicaSet.name);
          result := result + [pod];
          break;
        }
        j := j + 1;
      }
      i := i + 1;
    }
    assert pods[..i] == pods;
    return Ok(result);
  }
}
