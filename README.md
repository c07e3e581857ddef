# kubecli: ReplicaSet resolution and Pod ownership, in Dafny

This project models the client-side logic of the Go library `kubecli`. The
library wraps a Kubernetes API client. Two pieces of its logic decide what
it returns:

- **Most-recent ReplicaSet of a Deployment** (`GetReplicaSet`). The method
  lists the ReplicaSets of the namespace. It scans each one's owner
  references and hands (a copy of) the ReplicaSet to `getMostRecentRS`
  once for every reference of kind `Deployment` with the Deployment's
  name. That function folds the candidates pairwise:
  - `nil` is the identity;
  - otherwise both revisions are parsed from the
    `deployment.kubernetes.io/revision` annotation with `strconv.Atoi`;
  - the one with the greater revision wins, and the accumulated one wins
    ties (`>=`).

  A parse error aborts the scan. No candidate gives a not-found error.
  `GetReplicaSetByName` first looks up the Deployment and propagates that
  lookup's error.
- **Pods of a ReplicaSet** (`FindPods`). The method lists the Pods of the
  namespace. It keeps, in order, each Pod that has an owner reference of
  kind `ReplicaSet` with the ReplicaSet's name. The `break` adds each Pod
  at most once.

Modelling choices:

- Each API call is a parameter: the list calls and the Deployment lookup
  become `Result<…, ApiError>` values. There is no client, no context and
  no network.
- Objects are values: `Objects.ReplicaSet`, `Objects.Pod` and
  `Objects.Deployment` hold only the fields the logic reads.
- Errors are modelled by kind (`Objects.Error`), not by message text. The
  parse error carries the annotation text that failed. This makes it
  observable which candidate failed first.
- Go's `int` is taken to be 64-bit. `Strconv.Atoi` is `strconv.Atoi` for that
  width:
  - an optional sign, then one or more decimal digits;
  - a value in [-2^63, 2^63-1].
- Each imperative Go function is an imperative method with the same loops
  (`ReplicaSets.GetReplicaSet`, `Pods.FindPods`). Each is proved equal to a
  specification function (`ReplicaSets.SelectMostRecent`,
  `Pods.OwnedPods`), and the properties of the lookup are proved as lemmas
  about that function.

One might expect any candidate with a missing or malformed revision to make
the lookup fail. In the code, the first candidate is absorbed against `nil`
without being parsed, so a lone candidate entry is returned even when its
annotation is malformed (`ReplicaSets.SelectOneCandidate`). With two or more
candidate entries, every one of them is parsed (`ReplicaSets.SelectFailsIff`).
The owner-reference loop in `GetReplicaSet` has no `break`. A ReplicaSet with
two matching owner references is therefore compared with itself, so its
revision must parse (`ReplicaSets.SelectSingleReplicaSet`).

## Model

| member | source | states |
|---|---|---|
| Objects.MatchCountPositive | replica_set.go:26-27 | The owner-reference loop matches at least once exactly when some reference has the given kind and name |
| Strconv.ParseDigitsAccepts | replica_set.go:47 | The digit scan under `Atoi` succeeds exactly on strings made only of decimal digits |
| Strconv.DecimalRoundTrip | replica_set.go:47 | Reading back the decimal spelling of a natural number gives that number |
| Strconv.Atoi | replica_set.go:47 | The empty string (a missing annotation) is rejected; every accepted value lies in the 64-bit `int` range |
| Strconv.AtoiAcceptedForm | replica_set.go:47 | Every accepted string is an optional sign followed by one or more digits |
| Strconv.AtoiSignedDigits | replica_set.go:47 | Any sign-plus-digits string parses to its signed value exactly when that value fits in `int`, and is rejected otherwise |
| Strconv.AtoiFormatInt | replica_set.go:47 | Every `int` revision written in decimal is read back unchanged |
| Strconv.AtoiRangeBoundary | replica_set.go:47 | 2^63 is rejected, -2^63 and 2^63-1 are accepted |
| ReplicaSets.Revision | replica_set.go:45-51 | A ReplicaSet without the revision annotation has no revision; a parsed revision lies in the `int` range |
| ReplicaSets.MostRecent | replica_set.go:63-87 | `nil` on either side returns the other argument unparsed; a success is one of the two arguments; a failure is a revision-parse error |
| ReplicaSets.MostRecentOfTwo | replica_set.go:72-85 | The first argument's revision is checked first and its parse error reported; then the second's; when both parse, the result has a revision at least both, and equal revisions keep the first argument |
| ReplicaSets.CandidatesMembership | replica_set.go:25-29 | A ReplicaSet is a candidate exactly when it is listed and has an owner reference of kind `Deployment` with the Deployment's name |
| ReplicaSets.CandidatesAppend | replica_set.go:25-29 | Candidates are produced in list order: those of a concatenation are those of the first part, then those of the second |
| ReplicaSets.CandidatesMultiplicity | replica_set.go:25-34 | The owner-reference loop has no `break`: each ReplicaSet is a candidate as many times as it is listed times the number of its owner references naming the Deployment |
| ReplicaSets.FoldMostRecent | replica_set.go:24-35 | The fold yields nothing only when it starts from nothing and has no candidates; a success is the start value or one of the candidates; a failure is a revision-parse error |
| ReplicaSets.FoldArgMax | replica_set.go:63-87 | Folding ReplicaSets whose revisions all parse yields the earliest one of maximum revision |
| ReplicaSets.FoldFirstParseError | replica_set.go:29-32 | Folding fails with the annotation of the first ReplicaSet, in order, whose revision does not parse, whatever follows it |
| ReplicaSets.FoldSelf | replica_set.go:26-32 | A ReplicaSet compared with itself one or more times is kept if its revision parses and causes a parse error otherwise |
| ReplicaSets.FoldFromFirst | replica_set.go:65-68 | The first candidate is taken without parsing: the fold from nothing is the fold from the first candidate over the rest |
| ReplicaSets.SelectNotFound | replica_set.go:36-41 | The lookup fails with not-found exactly when no listed ReplicaSet is owned by the Deployment |
| ReplicaSets.SelectOneCandidate | replica_set.go:65-68 | With exactly one candidate entry, that ReplicaSet is returned whatever its annotation holds |
| ReplicaSets.SelectParseError | replica_set.go:72-80 | With two or more candidate entries, the first one whose revision does not parse makes the lookup fail with its annotation |
| ReplicaSets.SelectFailsIff | replica_set.go:72-80 | With two or more candidate entries, the lookup fails exactly when some candidate's revision does not parse, and then with a parse error |
| ReplicaSets.SelectArgMax | replica_set.go:24-35 | When all candidates parse, the result is the candidate of maximum revision that comes first in list order |
| ReplicaSets.SelectUniqueMaximum | replica_set.go:24-35 | A candidate whose revision is strictly greater than every other candidate's is returned, wherever it is listed |
| ReplicaSets.SelectSingleReplicaSet | replica_set.go:25-41 | For a single listed ReplicaSet: not found with no matching reference; returned with one; with several, returned only if its revision parses |
| ReplicaSets.GetReplicaSet | replica_set.go:16-43 | A failed list call gives a list error; otherwise the nested owner-reference loops with early return compute exactly `SelectMostRecent` of the listed ReplicaSets |
| ReplicaSets.GetReplicaSetByName | replica_set.go:55-61 | A failed Deployment lookup gives a lookup error before anything is listed; otherwise the result is that of `GetReplicaSet` for the Deployment found |
| Pods.OwnedPodsMembership | pods.go:19-26 | A Pod is returned exactly when it is listed and has an owner reference of kind `ReplicaSet` with the ReplicaSet's name |
| Pods.OwnedPodsMultiplicity | pods.go:19-26 | Each owned Pod appears as many times as it is listed, however many of its references match; others do not appear |
| Pods.OwnedPodsAppend | pods.go:19-22 | The filter keeps list order: filtering a concatenation concatenates the filtered parts |
| Pods.OwnedPodsEmpty | pods.go:18-27 | The result is empty exactly when no listed Pod is owned by the ReplicaSet |
| Pods.FindPods | pods.go:13-28 | A failed list call gives a list error; otherwise the nested loops with `break` compute exactly the order-preserving ownership filter |

## Left out

- kubecli.go is not part of this model. It covers loading the kubeconfig and environment variables, the in-cluster fallback, building the clients, and the `float32` QPS/Burst settings. All of it is configuration and I/O.
- `GetDeployment` and `GetStatefulSet` are single API reads with no logic of their own. `GetReplicaSetByName` receives the Deployment lookup's outcome as a parameter.
- The list calls, `context.Background()`, namespaces and the network are left out. Each list call's outcome is a parameter, taken to be the namespace's objects in the order the API returns them.
- Error message text, `fmt.Errorf` wrapping, and the group/resource inside the not-found error are left out. Only the error kind and, for parse errors, the annotation text are kept.
- Pointer identity of the `rs := replicaSet` copy is left out. ReplicaSets are values, so the returned ReplicaSet is equal to the listed one, not the same object.
- Strconv.Atoi: models Go's `int` as 64-bit only. On a 32-bit platform the accepted range would be [-2^31, 2^31-1].
