/** Resolving the most recent ReplicaSet of a Deployment: the owner-reference
    scan, the pairwise revision comparison, and the composition with the
    Deployment lookup. */
module ReplicaSets {
  import opened Wrappers
  import opened Objects
  import Strconv

  /** The revision annotation's text; a missing key reads as the empty string. */
  function AnnotationText(rs: ReplicaSet): string
  {
    if RevisionAnnotation in rs.annotations then rs.annotations[RevisionAnnotation] else ""
  }

  /** `getReplicaSetRevision`: the annotation parsed with `strconv.Atoi`;
      `None` is the parse error. */
  function Revision(rs: ReplicaSet): (r: Option<int>)
    ensures RevisionAnnotation !in rs.annotations ==> r == None
    ensures r.Some? ==> Strconv.InIntRange(r.value)
  {
    Strconv.Atoi(AnnotationText(rs))
  }

  predicate Parses(rs: ReplicaSet)
  {
    Revision(rs).Some?
  }

  function Rev(rs: ReplicaSet): int
    requires Parses(rs)
  {
    Revision(rs).value
  }

  /** `getMostRecentRS`: `None` (nil) is the identity and is returned without
      parsing anything; otherwise the first argument's revision is parsed
      first, then the second's, and the first wins ties (see
      `MostRecentOfTwo`). */
  function MostRecent(rs1: Option<ReplicaSet>, rs2: Option<ReplicaSet>): (r: Result<Option<ReplicaSet>, Error>)
    ensures rs1.None? ==> r == Ok(rs2)
    ensures rs2.None? ==> r == Ok(rs1)
    ensures r.Ok? ==> r.value == rs1 || r.value == rs2
    ensures r.Err? ==> r.error.RevisionParseFailed?
  {
    match (rs1, rs2)
    case (None, _) => Ok(rs2)
    case (_, None) => Ok(rs1)
    case (Some(a), Some(b)) =>
      match Revision(a)
      case None => Err(RevisionParseFailed(AnnotationText(a)))
      case Some(ra) =>
        match Revision(b)
        case None => Err(RevisionParseFailed(AnnotationText(b)))
        case Some(rb) => if ra >= rb then Ok(rs1) else Ok(rs2)
  }

  /** Comparing two ReplicaSets: a parse error names the first one whose
      revision does not parse; otherwise the one with the greater revision is
      kept, and on equal revisions the first. */
  lemma MostRecentOfTwo(a: ReplicaSet, b: ReplicaSet)
    ensures !Parses(a) ==> MostRecent(Some(a), Some(b)) == Err(RevisionParseFailed(AnnotationText(a)))
    ensures Parses(a) && !Parses(b) ==> MostRecent(Some(a), Some(b)) == Err(RevisionParseFailed(AnnotationText(b)))
    ensures Parses(a) && Parses(b) ==>
              var r := MostRecent(Some(a), Some(b));
              && r.Ok? && r.value.Some? && Parses(r.value.value)
              && Rev(r.value.value) >= Rev(a) && Rev(r.value.value) >= Rev(b)
              && (Rev(a) == Rev(b) ==> r.value == Some(a))
  {
  }

  /** `n` copies of `x`. */
  function Repeat<T>(x: T, n: nat): (r: seq<T>)
    ensures |r| == n && forall i :: 0 <= i < n ==> r[i] == x
  {
    if n == 0 then [] else [x] + Repeat(x, n - 1)
  }

  /** The ReplicaSets the scan hands to the comparison, in list order: each
      listed ReplicaSet once per owner reference naming the Deployment. */
  function Candidates(items: seq<ReplicaSet>, deploymentName: Name): seq<ReplicaSet>
  {
    if items == [] then []
    else Repeat(items[0], MatchCount(items[0].ownerReferences, DeploymentKind, deploymentName))
         + Candidates(items[1..], deploymentName)
  }

  /** The accumulation `best = MostRecent(best, candidate)` over `candidates`,
      stopping at the first error. */
  function FoldMostRecent(best: Option<ReplicaSet>, candidates: seq<ReplicaSet>): (r: Result<Option<ReplicaSet>, Error>)
    ensures r.Ok? ==> (r.value.None? <==> best.None? && candidates == [])
    ensures r.Ok? && r.value.Some? ==> r.value == best || r.value.value in candidates
    ensures r.Err? ==> r.error.RevisionParseFailed?
    decreases |candidates|
  {
    if candidates == [] then Ok(best)
    else
      match MostRecent(best, Some(candidates[0]))
      case Err(e) => Err(e)
      case Ok(next) => FoldMostRecent(next, candidates[1..])
  }

  /** What `GetReplicaSet` returns once the list call has succeeded. */
  function SelectMostRecent(items: seq<ReplicaSet>, deploymentName: Name): Result<ReplicaSet, Error>
  {
    match FoldMostRecent(None, Candidates(items, deploymentName))
    case Err(e) => Err(e)
    case Ok(None) => Err(ReplicaSetNotFound)
    case Ok(Some(rs)) => Ok(rs)
  }

  /** Candidates are exactly the listed ReplicaSets owned by the Deployment. */
  lemma {:induction false} CandidatesMembership(items: seq<ReplicaSet>, deploymentName: Name, rs: ReplicaSet)
    ensures rs in Candidates(items, deploymentName) <==>
            rs in items && OwnedBy(rs.ownerReferences, DeploymentKind, deploymentName)
  {
    if items != [] {
      var head := items[0];
      CandidatesMembership(items[1..], deploymentName, rs);
      MatchCountPositive(head.ownerReferences, DeploymentKind, deploymentName);
      var count := MatchCount(head.ownerReferences, DeploymentKind, deploymentName);
      assert rs in Repeat(head, count) <==> rs == head && count > 0 by {
        if count > 0 { assert Repeat(head, count)[0] == head; }
      }
      assert items == [head] + items[1..];
    }
  }

  /** The scan keeps list order and repeats a ReplicaSet once per matching
      owner reference: it maps each listed ReplicaSet to its own run of
      copies, and the runs follow one another in list order. */
  lemma {:induction false} CandidatesAppend(a: seq<ReplicaSet>, b: seq<ReplicaSet>, deploymentName: Name)
    ensures Candidates(a + b, deploymentName) == Candidates(a, deploymentName) + Candidates(b, deploymentName)
  {
    if a == [] {
      assert a + b == b;
    } else {
      var ab := a + b;
      assert ab[0] == a[0] && ab[1..] == a[1..] + b;
      var run := Repeat(a[0], MatchCount(a[0].ownerReferences, DeploymentKind, deploymentName));
      var restA, restB := Candidates(a[1..], deploymentName), Candidates(b, deploymentName);
      assert Candidates(ab, deploymentName) == run + Candidates(a[1..] + b, deploymentName);
      CandidatesAppend(a[1..], b, deploymentName);
      assert Candidates(ab, deploymentName) == run + (restA + restB);
      assert run + (restA + restB) == (run + restA) + restB;
    }
  }

  /** A listed ReplicaSet contributes one copy per owner reference naming the
      Deployment. */
  lemma CandidatesOfOne(rs: ReplicaSet, deploymentName: Name)
    ensures Candidates([rs], deploymentName) == Repeat(rs, MatchCount(rs.ownerReferences, DeploymentKind, deploymentName))
  {
    assert [rs][1..] == [];
  }

  /** `Repeat(x, n)` holds `x` exactly `n` times and nothing else. */
  lemma {:induction false} RepeatCount<T>(x: T, n: nat, y: T)
    ensures multiset(Repeat(x, n))[y] == if y == x then n else 0
  {
    if n > 0 {
      RepeatCount(x, n - 1, y);
      assert multiset(Repeat(x, n)) == multiset([x]) + multiset(Repeat(x, n - 1));
    }
  }

  /** The owner-reference loop has no `break`: each listed ReplicaSet is a
      candidate once per owner reference naming the Deployment, for every
      time it is listed. */
  lemma {:induction false} CandidatesMultiplicity(items: seq<ReplicaSet>, deploymentName: Name, rs: ReplicaSet)
    ensures multiset(Candidates(items, deploymentName))[rs] ==
            multiset(items)[rs] * MatchCount(rs.ownerReferences, DeploymentKind, deploymentName)
  {
    if items != [] {
      var head := items[0];
      var tail := items[1..];
      var count := MatchCount(rs.ownerReferences, DeploymentKind, deploymentName);
      var run := Repeat(head, MatchCount(head.ownerReferences, DeploymentKind, deploymentName));
      assert Candidates(items, deploymentName) == run + Candidates(tail, deploymentName);
      CandidatesMultiplicity(tail, deploymentName, rs);
      RepeatCount(head, |run|, rs);
      assert items == [head] + tail;
      var rest := multiset(tail)[rs];
      assert multiset(items)[rs] == (if head == rs then 1 else 0) + rest;
      MultiplyOneMore(rest, count);
    }
  }

  /** One more copy of the list adds `count` more candidates. */
  lemma MultiplyOneMore(rest: nat, count: nat)
    ensures (1 + rest) * count == count + rest * count
  {
  }

  /** Every element of `cs` parses. */
  predicate AllParse(cs: seq<ReplicaSet>)
  {
    cs == [] || (Parses(cs[0]) && AllParse(cs[1..]))
  }

  /** The parsed revisions of `cs`, position by position. */
  function Revisions(cs: seq<ReplicaSet>): (revs: seq<int>)
    requires AllParse(cs)
    ensures |revs| == |cs|
  {
    if cs == [] then [] else [Rev(cs[0])] + Revisions(cs[1..])
  }

  /** `AllParse` is the element-wise statement, and `Revisions` lines up with
      the candidates position by position. */
  lemma {:induction false} AllParseAt(cs: seq<ReplicaSet>)
    ensures AllParse(cs) <==> forall k :: 0 <= k < |cs| ==> Parses(cs[k])
    ensures AllParse(cs) ==> forall k :: 0 <= k < |cs| ==> Revisions(cs)[k] == Rev(cs[k])
  {
    if cs != [] {
      AllParseAt(cs[1..]);
      assert forall k :: 0 < k < |cs| ==> cs[k] == cs[1..][k - 1];
    }
  }

  /** `revs[i]` is the greatest value in `revs`, and every earlier value is
      strictly smaller: position `i` is where a maximum first occurs. */
  predicate IsFirstMaximum(revs: seq<int>, i: int)
  {
    && 0 <= i < |revs|
    && (forall k :: 0 <= k < |revs| ==> revs[k] <= revs[i])
    && (forall k :: 0 <= k < i ==> revs[k] < revs[i])
  }

  /** One comparison step keeps the first maximum: if `rm` is the revision
      kept by comparing `ra` with `rc` (`>=`, the first wins ties), a first
      maximum of `[rm] + rest` at `i'` is one of `[ra] + ([rc] + rest)` at `i`. */
  lemma FirstMaximumStep(ra: int, rc: int, rm: int, rest: seq<int>, i': nat) returns (i: nat)
    requires rm == if ra >= rc then ra else rc
    requires IsFirstMaximum([rm] + rest, i')
    ensures IsFirstMaximum([ra] + ([rc] + rest), i)
    ensures i == if i' > 0 then i' + 1 else if ra >= rc then 0 else 1
  {
    var all := [ra] + ([rc] + rest);
    var all' := [rm] + rest;
    assert forall k :: 2 <= k < |all| ==> all[k] == all'[k - 1];
    i := if i' > 0 then i' + 1 else if ra >= rc then 0 else 1;
    assert all[i] == all'[i'];
    assert all'[0] == rm && all[0] == ra && all[1] == rc;
  }

  /** A fold step between two ReplicaSets that both parse keeps the one with
      the greater revision, the accumulated one on a tie. */
  lemma FoldParsedStep(acc: ReplicaSet, candidates: seq<ReplicaSet>)
    requires candidates != [] && Parses(acc) && Parses(candidates[0])
    ensures FoldMostRecent(Some(acc), candidates) ==
            FoldMostRecent(Some(if Rev(acc) >= Rev(candidates[0]) then acc else candidates[0]), candidates[1..])
  {
  }

  /** Folding from a parsed ReplicaSet over candidates that all parse gives the
      first element, in the order `[acc] + candidates`, of maximum revision. */
  lemma {:induction false} FoldArgMax(acc: ReplicaSet, candidates: seq<ReplicaSet>)
    returns (i: nat)
    requires Parses(acc)
    requires AllParse(candidates)
    ensures var r := FoldMostRecent(Some(acc), candidates);
            && IsFirstMaximum([Rev(acc)] + Revisions(candidates), i)
            && r == Ok(Some(([acc] + candidates)[i]))
    decreases |candidates|
  {
    if candidates == [] {
      i := 0;
    } else {
      var c := candidates[0];
      var m := if Rev(acc) >= Rev(c) then acc else c;
      var rest := candidates[1..];
      FoldParsedStep(acc, candidates);
      var i' := FoldArgMax(m, rest);
      assert Revisions(candidates) == [Rev(c)] + Revisions(rest);
      i := FirstMaximumStep(Rev(acc), Rev(c), Rev(m), Revisions(rest), i');
      if i' > 0 {
        assert ([acc] + candidates)[i] == rest[i' - 1] == ([m] + rest)[i'];
      }
    }
  }

  /** Folding from a ReplicaSet over at least one candidate stops at the first
      element of `[acc] + candidates` whose revision does not parse. */
  lemma {:induction false} FoldFirstParseError(acc: ReplicaSet, candidates: seq<ReplicaSet>, k: nat)
    requires |candidates| >= 1
    requires k < |candidates| + 1 && !Parses(([acc] + candidates)[k])
    requires forall j :: 0 <= j < k ==> Parses(([acc] + candidates)[j])
    ensures FoldMostRecent(Some(acc), candidates) == Err(RevisionParseFailed(AnnotationText(([acc] + candidates)[k])))
    decreases |candidates|
  {
    var all := [acc] + candidates;
    var c := candidates[0];
    if k == 0 {
      assert all[0] == acc;
    } else if k == 1 {
      assert all[0] == acc && all[1] == c;
    } else {
      assert all[0] == acc && all[1] == c;
      var m := if Rev(acc) >= Rev(c) then acc else c;
      var rest := candidates[1..];
      assert MostRecent(Some(acc), Some(c)) == Ok(Some(m));
      var all' := [m] + rest;
      assert forall j :: 1 <= j < |all'| ==> all'[j] == all[j + 1];
      FoldFirstParseError(m, rest, k - 1);
    }
  }

  /** A ReplicaSet compared with itself `n` more times: kept if `n == 0` or if
      its revision parses, a parse error otherwise. */
  lemma {:induction false} FoldSelf(rs: ReplicaSet, n: nat)
    ensures FoldMostRecent(Some(rs), Repeat(rs, n)) ==
            if n == 0 || Parses(rs) then Ok(Some(rs)) else Err(RevisionParseFailed(AnnotationText(rs)))
  {
    if n > 0 {
      assert Repeat(rs, n)[1..] == Repeat(rs, n - 1);
      FoldSelf(rs, n - 1);
    }
  }

  /** The first candidate is taken without parsing: `FoldMostRecent(None, cs)`
      is the fold from `cs[0]` over the rest. */
  lemma FoldFromFirst(candidates: seq<ReplicaSet>)
    requires candidates != []
    ensures FoldMostRecent(None, candidates) == FoldMostRecent(Some(candidates[0]), candidates[1..])
  {
  }

  /** No ReplicaSet owned by the Deployment: a not-found error, and only then. */
  lemma SelectNotFound(items: seq<ReplicaSet>, deploymentName: Name)
    ensures SelectMostRecent(items, deploymentName) == Err(ReplicaSetNotFound) <==>
            forall rs :: rs in items ==> !OwnedBy(rs.ownerReferences, DeploymentKind, deploymentName)
  {
    var cs := Candidates(items, deploymentName);
    forall rs | true
      ensures rs in cs <==> rs in items && OwnedBy(rs.ownerReferences, DeploymentKind, deploymentName)
    {
      CandidatesMembership(items, deploymentName, rs);
    }
    if cs != [] {
      assert cs[0] in cs;
    }
  }

  /** Exactly one candidate: it is returned, whatever its annotation holds. */
  lemma SelectOneCandidate(items: seq<ReplicaSet>, deploymentName: Name)
    requires |Candidates(items, deploymentName)| == 1
    ensures SelectMostRecent(items, deploymentName) == Ok(Candidates(items, deploymentName)[0])
  {
    FoldFromFirst(Candidates(items, deploymentName));
  }

  /** Two or more candidates: the first one in list order whose revision does
      not parse makes the whole lookup fail, whatever comes after it. */
  lemma SelectParseError(items: seq<ReplicaSet>, deploymentName: Name, k: nat)
    requires |Candidates(items, deploymentName)| >= 2
    requires k < |Candidates(items, deploymentName)| && !Parses(Candidates(items, deploymentName)[k])
    requires forall j :: 0 <= j < k ==> Parses(Candidates(items, deploymentName)[j])
    ensures SelectMostRecent(items, deploymentName) ==
            Err(RevisionParseFailed(AnnotationText(Candidates(items, deploymentName)[k])))
  {
    var cs := Candidates(items, deploymentName);
    FoldFromFirst(cs);
    assert [cs[0]] + cs[1..] == cs;
    FoldFirstParseError(cs[0], cs[1..], k);
  }

  /** When not every element parses, there is a first one that does not. */
  lemma {:induction false} FirstUnparsable(cs: seq<ReplicaSet>) returns (k: nat)
    requires !AllParse(cs)
    ensures k < |cs| && !Parses(cs[k])
    ensures forall j :: 0 <= j < k ==> Parses(cs[j])
  {
    if Parses(cs[0]) {
      var k' := FirstUnparsable(cs[1..]);
      k := k' + 1;
      assert forall j :: 1 <= j < k ==> cs[j] == cs[1..][j - 1];
    } else {
      k := 0;
    }
  }

  /** Two or more candidates: the lookup fails exactly when some candidate's
      revision does not parse, and then with a parse error. */
  lemma SelectFailsIff(items: seq<ReplicaSet>, deploymentName: Name)
    requires |Candidates(items, deploymentName)| >= 2
    ensures var r := SelectMostRecent(items, deploymentName);
            && (r.Err? <==> !AllParse(Candidates(items, deploymentName)))
            && (r.Err? ==> r.error.RevisionParseFailed?)
  {
    var cs := Candidates(items, deploymentName);
    if AllParse(cs) {
      var i := SelectArgMax(items, deploymentName);
    } else {
      var k := FirstUnparsable(cs);
      SelectParseError(items, deploymentName, k);
    }
  }

  /** Candidates that all parse: the result is the candidate of greatest
      revision, and among several with that revision the first in list order. */
  lemma SelectArgMax(items: seq<ReplicaSet>, deploymentName: Name) returns (i: nat)
    requires Candidates(items, deploymentName) != []
    requires AllParse(Candidates(items, deploymentName))
    ensures var cs := Candidates(items, deploymentName);
            && IsFirstMaximum(Revisions(cs), i)
            && SelectMostRecent(items, deploymentName) == Ok(cs[i])
  {
    var cs := Candidates(items, deploymentName);
    FoldFromFirst(cs);
    assert [cs[0]] + cs[1..] == cs;
    i := FoldArgMax(cs[0], cs[1..]);
  }

  /** With a candidate whose revision is strictly greater than every other
      candidate's, that candidate is the answer, wherever it is listed. */
  lemma SelectUniqueMaximum(items: seq<ReplicaSet>, deploymentName: Name, winner: ReplicaSet)
    requires winner in Candidates(items, deploymentName) && Parses(winner)
    requires forall rs :: rs in Candidates(items, deploymentName) && rs != winner ==>
               Parses(rs) && Rev(rs) < Rev(winner)
    ensures SelectMostRecent(items, deploymentName) == Ok(winner)
  {
    var cs := Candidates(items, deploymentName);
    AllParseAt(cs);
    assert forall k :: 0 <= k < |cs| ==> cs[k] in cs;
    var i := SelectArgMax(items, deploymentName);
    var w :| 0 <= w < |cs| && cs[w] == winner;
    assert Revisions(cs)[w] <= Revisions(cs)[i];
  }

  /** A single listed ReplicaSet: not found without a matching owner
      reference; returned unparsed with one; with several, it is compared with
      itself, so its revision must parse. */
  lemma SelectSingleReplicaSet(rs: ReplicaSet, deploymentName: Name)
    ensures var count := MatchCount(rs.ownerReferences, DeploymentKind, deploymentName);
            SelectMostRecent([rs], deploymentName) ==
              if count == 0 then Err(ReplicaSetNotFound)
              else if count == 1 || Parses(rs) then Ok(rs)
              else Err(RevisionParseFailed(AnnotationText(rs)))
  {
    var count := MatchCount(rs.ownerReferences, DeploymentKind, deploymentName);
    CandidatesOfOne(rs, deploymentName);
    var cs := Candidates([rs], deploymentName);
    assert cs == Repeat(rs, count);
    if count > 0 {
      FoldFromFirst(cs);
      assert cs[1..] == Repeat(rs, count - 1);
      FoldSelf(rs, count - 1);
    }
  }

  /** The candidates from position `i` on: the run of `items[i]`, then the rest. */
  lemma CandidatesFrom(items: seq<ReplicaSet>, i: nat, deploymentName: Name)
    requires i < |items|
    ensures Candidates(items[i..], deploymentName) ==
            Repeat(items[i], MatchCount(items[i].ownerReferences, DeploymentKind, deploymentName))
            + Candidates(items[i + 1..], deploymentName)
  {
  }

  /** One pass of the owner-reference loop: a matching reference hands one
      more copy of `rs` to the comparison, any other reference nothing. */
  lemma FoldOwnerReference(best: Option<ReplicaSet>, rs: ReplicaSet, j: nat, later: seq<ReplicaSet>, deploymentName: Name)
    requires j < |rs.ownerReferences|
    ensures var refs := rs.ownerReferences;
            var before := Repeat(rs, MatchCount(refs[j..], DeploymentKind, deploymentName)) + later;
            var after := Repeat(rs, MatchCount(refs[j + 1..], DeploymentKind, deploymentName)) + later;
            if Refers(refs[j], DeploymentKind, deploymentName) then
              FoldMostRecent(best, before) ==
                match MostRecent(best, Some(rs))
                case Err(e) => Err(e)
                case Ok(next) => FoldMostRecent(next, after)
            else
              FoldMostRecent(best, before) == FoldMostRecent(best, after)
  {
    var refs := rs.ownerReferences;
    assert refs[j..][0] == refs[j] && refs[j..][1..] == refs[j + 1..];
    var count := MatchCount(refs[j + 1..], DeploymentKind, deploymentName);
    var after := Repeat(rs, count) + later;
    if Refers(refs[j], DeploymentKind, deploymentName) {
      assert Repeat(rs, count + 1) + later == [rs] + after;
      assert ([rs] + after)[0] == rs && ([rs] + after)[1..] == after;
    }
  }

  /** `GetReplicaSet`: lists the ReplicaSets of the Deployment's namespace
      (`listed` is what the list call returned), feeds every owner reference
      that names the Deployment to the comparison, and returns the winner. */
  method GetReplicaSet(deployment: Deployment, listed: Result<seq<ReplicaSet>, ApiError>)
    returns (r: Result<ReplicaSet, Error>)
    ensures listed.Err? ==> r == Err(CouldNotListReplicaSets(listed.error))
    ensures listed.Ok? ==> r == SelectMostRecent(listed.value, deployment.name)
  {
    if listed.Err? {
      return Err(CouldNotListReplicaSets(listed.error));
    }
    var items := listed.value;
    ghost var target := FoldMostRecent(None, Candidates(items, deployment.name));
    var mostRecent: Option<ReplicaSet> := None;
    var i := 0;
    while i < |items|
      invariant 0 <= i <= |items|
      invariant FoldMostRecent(mostRecent, Candidates(items[i..], deployment.name)) == target
    {
      var replicaSet := items[i];
      var refs := replicaSet.ownerReferences;
      ghost var later := Candidates(items[i + 1..], deployment.name);
      CandidatesFrom(items, i, deployment.name);
      assert refs[0..] == refs;
      var j := 0;
      while j < |refs|
        invariant 0 <= j <= |refs|
        invariant FoldMostRecent(mostRecent,
                    Repeat(replicaSet, MatchCount(refs[j..], DeploymentKind, deployment.name)) + later) == target
      {
        FoldOwnerReference(mostRecent, replicaSet, j, later, deployment.name);
        var ownerRef := refs[j];
        if ownerRef.kind == DeploymentKind && ownerRef.name == deployment.name {
          var step := MostRecent(mostRecent, Some(replicaSet));
          if step.Err? {
            return Err(step.error);
          }
          mostRecent := step.value;
        }
        j := j + 1;
      }
      assert refs[j..] == [];
      assert [] + later == later;
      i := i + 1;
    }
    assert items[i..] == [];
    if mostRecent.None? {
      return Err(ReplicaSetNotFound);
    }
    return Ok(mostRecent.value);
  }

  /** `GetReplicaSetByName`: a failed Deployment lookup is returned as such,
      before any ReplicaSet is listed; otherwise the result is that of
      `GetReplicaSet` on the Deployment found. */
  method GetReplicaSetByName(lookup: Result<Deployment, ApiError>, listed: Result<seq<ReplicaSet>, ApiError>)
    returns (r: Result<ReplicaSet, Error>)
    ensures lookup.Err? ==> r == Err(CouldNotGetDeployment(lookup.error))
    ensures lookup.Ok? && listed.Err? ==> r == Err(CouldNotListReplicaSets(listed.error))
    ensures lookup.Ok? && listed.Ok? ==> r == SelectMostRecent(listed.value, lookup.value.name)
  {
    if lookup.Err? {
      return Err(CouldNotGetDeployment(lookup.error));
    }
    r := GetReplicaSet(lookup.value, listed);
  }
}
