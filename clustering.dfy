/**
 * What the two `ClusterHunks` snapshots (split/cluster.go and semantics/cluster.go) share: the
 * group record, the calls made to the model provider, the errors, the similarity threshold, and
 * the specification of the loop that asks for one commit message per group.
 *
 * The provider is an oracle: `embed` maps the batch of texts to vectors or an error, `generate`
 * maps a patch to a message or an error. The model records every request it makes, in order,
 * as a `Call`, so that the contracts can say which requests happen and which do not.
 */
module Clustering {
  import opened Results
  import opened Diff
  import Grouping

  /** An embedding vector (`[]float32`; the model uses exact reals). */
  type Vector = seq<real>

  /** `similarityThreshold` (split/cluster.go) and `threshold` (semantics/cluster.go). */
  const SimilarityThreshold: real := 0.85

  /** A group of hunks meant for one commit, and that commit's message. */
  datatype HunkGroup = HunkGroup(hunks: seq<Hunk>, message: string)

  /** A request to the provider: one embedding batch, or one commit message for a patch. */
  datatype Call = Embed(texts: seq<string>) | Generate(patch: string)

  /** Why `ClusterHunks` returned no groups. */
  datatype ClusterError =
    | EmbeddingFailed(cause: string)
    | CountMismatch(got: nat, want: nat)
    | MessageFailed(ordinal: nat, cause: string)

  /** The sum of squares of the first `k` components, accumulated front to back as the loop does. */
  function NormSquared(a: Vector, k: nat): real
    requires k <= |a|
  {
    if k == 0 then 0.0 else NormSquared(a, k - 1) + a[k - 1] * a[k - 1]
  }

  /** A vector whose first `k` components are all zero has a zero norm over them. */
  lemma {:induction false} ZeroNorm(a: Vector, k: nat)
    requires k <= |a|
    requires forall i :: 0 <= i < k ==> a[i] == 0.0
    ensures NormSquared(a, k) == 0.0
  {
    if k > 0 {
      ZeroNorm(a, k - 1);
    }
  }

  /** The hunks at `indices`, in that order. */
  function Pick(hunks: seq<Hunk>, indices: seq<nat>): (picked: seq<Hunk>)
    requires forall k :: 0 <= k < |indices| ==> indices[k] < |hunks|
    ensures |picked| == |indices|
    ensures forall k :: 0 <= k < |indices| ==> picked[k] == hunks[indices[k]]
  {
    seq(|indices|, k requires 0 <= k < |indices| => hunks[indices[k]])
  }

  /**
   * The groups of the greedy pass over `hunks`, before any message is asked for: group `k`
   * holds the hunks of the `k`-th index group, and its message is still empty.
   */
  function Unnamed(hunks: seq<Hunk>, joins: (nat, nat) -> bool): (groups: seq<HunkGroup>)
    ensures var gs := Grouping.Greedy(|hunks|, joins);
      |groups| == |gs| &&
      forall k :: 0 <= k < |gs| ==>
        groups[k].message == "" && |groups[k].hunks| == |gs[k]| &&
        forall m :: 0 <= m < |gs[k]| ==> gs[k][m] < |hunks| && groups[k].hunks[m] == hunks[gs[k][m]]
  {
    var gs := Grouping.Greedy(|hunks|, joins);
    Grouping.GreedyBounded(|hunks|, joins);
    seq(|gs|, k requires 0 <= k < |gs| => HunkGroup(Pick(hunks, gs[k]), ""))
  }

  /**
   * What the message loop promises, given `patches[k]` the patch of group `k`:
   * it succeeds exactly when every request succeeds, and then group `k` carries the message
   * returned for `patches[k]`; otherwise it fails at the first failing group, with that group's
   * ordinal (counted from 1) and the provider's error. One request is made per group, in group
   * order, and none after the first failure.
   */
  predicate DescribedBy(groups: seq<HunkGroup>, patches: seq<string>,
                        generate: string -> Result<string, string>,
                        result: Result<seq<HunkGroup>, ClusterError>, calls: seq<Call>)
    requires |patches| == |groups|
  {
    (result.Ok? <==> forall k :: 0 <= k < |patches| ==> generate(patches[k]).Ok?) &&
    (result.Ok? ==>
      |result.value| == |groups| &&
      (forall k :: 0 <= k < |groups| ==>
        result.value[k] == groups[k].(message := generate(patches[k]).value)) &&
      calls == Requests(patches, |groups|)) &&
    (result.Err? ==>
      result.error.MessageFailed? &&
      1 <= result.error.ordinal <= |groups| &&
      generate(patches[result.error.ordinal - 1]) == Err(result.error.cause) &&
      (forall k :: 0 <= k < result.error.ordinal - 1 ==> generate(patches[k]).Ok?) &&
      calls == Requests(patches, result.error.ordinal))
  }

  /** The requests of the first `count` groups, in order. */
  function Requests(patches: seq<string>, count: nat): (calls: seq<Call>)
    requires count <= |patches|
    ensures |calls| == count
  {
    seq(count, k requires 0 <= k < count => Generate(patches[k]))
  }

  /** The message loop ran to the end: every request succeeded and each group got its reply. */
  lemma DescribedAll(groups: seq<HunkGroup>, patches: seq<string>,
                     generate: string -> Result<string, string>, named: seq<HunkGroup>, calls: seq<Call>)
    requires |patches| == |groups| == |named|
    requires forall k :: 0 <= k < |groups| ==>
      generate(patches[k]).Ok? && named[k] == groups[k].(message := generate(patches[k]).value)
    requires calls == Requests(patches, |groups|)
    ensures DescribedBy(groups, patches, generate, Ok(named), calls)
  {
  }

  /** The message loop stopped at group `i`, whose request failed after all earlier ones succeeded. */
  lemma DescribedUpTo(groups: seq<HunkGroup>, patches: seq<string>,
                      generate: string -> Result<string, string>, i: nat, calls: seq<Call>)
    requires |patches| == |groups| && i < |groups|
    requires forall k :: 0 <= k < i ==> generate(patches[k]).Ok?
    requires generate(patches[i]).Err?
    requires calls == Requests(patches, i + 1)
    ensures DescribedBy(groups, patches, generate, Err(MessageFailed(i + 1, generate(patches[i]).error)), calls)
  {
  }
}
