/**
 * `ClusterHunks`, `joinPatch` and the discrete part of `cosineSimilarity` in the current snapshot
 * (split/cluster.go). The provider's `GetEmbeddings` and `GenerateCommitMessage` are the oracles
 * `embed` and `generate`; the floating-point cosine of two non-degenerate vectors is the oracle
 * `cosine`.
 */
module SplitCluster {
  import opened Results
  import opened Diff
  import opened Strings
  import Grouping
  import opened Clustering

  /** Text `i` of the embedding batch: the hunk's path, header and body on their own lines. */
  function EmbeddingText(h: Hunk): string
  {
    h.filePath + "\n" + h.header + "\n" + h.body
  }

  /** The whole embedding batch, one text per hunk, in hunk order. */
  function Texts(hunks: seq<Hunk>): seq<string>
  {
    seq(|hunks|, i requires 0 <= i < |hunks| => EmbeddingText(hunks[i]))
  }

  /** The loop filling `texts := make([]string, len(hunks))`. */
  method EmbeddingTexts(hunks: seq<Hunk>) returns (texts: seq<string>)
    ensures |texts| == |hunks|
    ensures forall i :: 0 <= i < |hunks| ==>
      texts[i] == hunks[i].filePath + "\n" + hunks[i].header + "\n" + hunks[i].body
  {
    var buffer := new string[|hunks|];
    for i := 0 to |hunks|
      invariant forall k :: 0 <= k < i ==> buffer[k] == EmbeddingText(hunks[k])
    {
      buffer[i] := EmbeddingText(hunks[i]);
    }
    texts := buffer[..];
  }

  /** What `joinPatch` builds: every body followed by a blank line, in hunk order. */
  function Patch(hunks: seq<Hunk>): (patch: string)
    ensures |patch| >= 2 * |hunks|
    ensures patch == "" <==> hunks == []
  {
    if hunks == [] then "" else Patch(hunks[..|hunks| - 1]) + hunks[|hunks| - 1].body + "\n\n"
  }

  /** `joinPatch`: the builder loop over the group's hunks. */
  method JoinPatch(hunks: seq<Hunk>) returns (patch: string)
    ensures patch == Patch(hunks)
  {
    patch := "";
    for i := 0 to |hunks|
      invariant patch == Patch(hunks[..i])
    {
      assert hunks[..i + 1][..i] == hunks[..i];
      patch := patch + hunks[i].body + "\n\n";
    }
    assert hunks[..|hunks|] == hunks;
  }

  /** The patch of two runs of hunks is the two patches one after the other. */
  lemma {:induction false} PatchAppend(a: seq<Hunk>, b: seq<Hunk>)
    ensures Patch(a + b) == Patch(a) + Patch(b)
  {
    if b == [] {
      assert a + b == a;
    } else {
      var last := b[|b| - 1];
      var front := b[..|b| - 1];
      assert (a + b)[..|a + b| - 1] == a + front;
      assert (a + b)[|a + b| - 1] == last;
      PatchAppend(a, front);
    }
  }

  /** The bodies of `hunks`, in order. */
  function Bodies(hunks: seq<Hunk>): (bodies: seq<string>)
    ensures |bodies| == |hunks|
  {
    seq(|hunks|, i requires 0 <= i < |hunks| => hunks[i].body)
  }

  /** A non-empty group's patch is its bodies joined by blank lines, with a blank line after the last. */
  lemma {:induction false} PatchIsJoin(hunks: seq<Hunk>)
    requires hunks != []
    ensures Patch(hunks) == Join(Bodies(hunks), "\n\n") + "\n\n"
  {
    var h := hunks[0];
    var rest := hunks[1..];
    assert hunks == [h] + rest;
    PatchAppend([h], rest);
    assert Patch([h]) == h.body + "\n\n" by {
      assert [h][..0] == [];
    }
    if rest != [] {
      PatchIsJoin(rest);
      assert Bodies(hunks)[1..] == Bodies(rest);
    }
  }

  /**
   * `cosineSimilarity`: zero when the vectors differ in length, are empty, or either has a zero
   * norm; otherwise the cosine of the angle between them, which is left to the oracle.
   */
  function Similarity(a: Vector, b: Vector, cosine: (Vector, Vector) -> real): (s: real)
    ensures |a| != |b| || |a| == 0 ==> s == 0.0
    ensures NormSquared(a, |a|) == 0.0 || NormSquared(b, |b|) == 0.0 ==> s == 0.0
    ensures s != 0.0 ==> s == cosine(a, b)
  {
    if |a| != |b| || |a| == 0 then 0.0
    else if NormSquared(a, |a|) == 0.0 || NormSquared(b, |b|) == 0.0 then 0.0
    else cosine(a, b)
  }

  /** Whether hunk `j` may join the group seeded by hunk `i`: their similarity reaches the threshold. */
  function Joins(e: seq<Vector>, cosine: (Vector, Vector) -> real): (nat, nat) -> bool
  {
    (i: nat, j: nat) => i < |e| && j < |e| && Similarity(e[i], e[j], cosine) >= SimilarityThreshold
  }

  /** A hunk whose embedding is all zeros is joined by no hunk and joins none. */
  lemma ZeroEmbeddingJoinsNothing(e: seq<Vector>, cosine: (Vector, Vector) -> real, x: nat, y: nat)
    requires x < |e| && forall c :: 0 <= c < |e[x]| ==> e[x][c] == 0.0
    ensures !Joins(e, cosine)(x, y) && !Joins(e, cosine)(y, x)
  {
    ZeroNorm(e[x], |e[x]|);
  }

  /** A hunk whose embedding is all zeros ends up alone in its group. */
  lemma ZeroEmbeddingAlone(e: seq<Vector>, cosine: (Vector, Vector) -> real, n: nat, k: nat, x: nat)
    requires x < |e| && forall c :: 0 <= c < |e[x]| ==> e[x][c] == 0.0
    requires k < |Grouping.Greedy(n, Joins(e, cosine))|
    requires x in Grouping.Greedy(n, Joins(e, cosine))[k]
    ensures Grouping.Greedy(n, Joins(e, cosine))[k] == [x]
  {
    var joins := Joins(e, cosine);
    var g := Grouping.Greedy(n, joins)[k];
    Grouping.GreedyOrder(n, joins);
    Grouping.GreedyMembers(n, joins, k, x);
    ZeroEmbeddingJoinsNothing(e, cosine, x, g[0]);
    assert x == g[0];
    if |g| > 1 {
      Grouping.GreedyMembers(n, joins, k, g[1]);
      ZeroEmbeddingJoinsNothing(e, cosine, x, g[1]);
      assert false;
    }
  }

  /** The patch of every group, in group order. */
  function Patches(groups: seq<HunkGroup>): (patches: seq<string>)
    ensures |patches| == |groups|
  {
    seq(|groups|, k requires 0 <= k < |groups| => Patch(groups[k].hunks))
  }

  /** The message loop: one `GenerateCommitMessage` per group, stopping at the first failure. */
  method Describe(groups: seq<HunkGroup>, generate: string -> Result<string, string>)
    returns (result: Result<seq<HunkGroup>, ClusterError>, calls: seq<Call>)
    ensures DescribedBy(groups, Patches(groups), generate, result, calls)
  {
    var patches := Patches(groups);
    var named := groups;
    calls := [];
    for i := 0 to |groups|
      invariant |named| == |groups|
      invariant forall k :: 0 <= k < i ==>
        generate(patches[k]).Ok? && named[k] == groups[k].(message := generate(patches[k]).value)
      invariant forall k :: i <= k < |groups| ==> named[k] == groups[k]
      invariant calls == Requests(patches, i)
    {
      var patch := JoinPatch(named[i].hunks);
      assert patch == patches[i];
      calls := calls + [Generate(patch)];
      assert calls == Requests(patches, i + 1);
      var reply := generate(patch);
      if reply.Err? {
        result := Err(MessageFailed(i + 1, reply.error));
        DescribedUpTo(groups, patches, generate, i, calls);
        return;
      }
      named := named[i := named[i].(message := reply.value)];
    }
    result := Ok(named);
    DescribedAll(groups, patches, generate, named, calls);
  }

  /**
   * `ClusterHunks`: nothing is asked of the provider for no hunks; otherwise one embedding batch,
   * the count check, the greedy grouping, and the message loop.
   */
  method ClusterHunks(hunks: seq<Hunk>, embed: seq<string> -> Result<seq<Vector>, string>,
                      cosine: (Vector, Vector) -> real, generate: string -> Result<string, string>)
    returns (result: Result<seq<HunkGroup>, ClusterError>, calls: seq<Call>)
    ensures hunks == [] ==> result == Ok([]) && calls == []
    ensures hunks != [] ==> |calls| >= 1 && calls[0] == Embed(Texts(hunks))
    ensures hunks != [] && embed(Texts(hunks)).Err? ==>
      result == Err(EmbeddingFailed(embed(Texts(hunks)).error)) && calls == [Embed(Texts(hunks))]
    ensures hunks != [] && embed(Texts(hunks)).Ok? && |embed(Texts(hunks)).value| != |hunks| ==>
      result == Err(CountMismatch(|embed(Texts(hunks)).value|, |hunks|)) && calls == [Embed(Texts(hunks))]
    ensures hunks != [] && embed(Texts(hunks)).Ok? && |embed(Texts(hunks)).value| == |hunks| ==>
      var groups := Unnamed(hunks, Joins(embed(Texts(hunks)).value, cosine));
      DescribedBy(groups, Patches(groups), generate, result, calls[1..])
  {
    if hunks == [] {
      return Ok([]), [];
    }
    var texts := EmbeddingTexts(hunks);
    assert texts == Texts(hunks);
    calls := [Embed(texts)];
    var embeddings := embed(texts);
    if embeddings.Err? {
      return Err(EmbeddingFailed(embeddings.error)), calls;
    }
    var e := embeddings.value;
    if |e| != |hunks| {
      return Err(CountMismatch(|e|, |hunks|)), calls;
    }
    var indices := Grouping.Partition(|hunks|, Joins(e, cosine));
    Grouping.GreedyBounded(|hunks|, Joins(e, cosine));
    var groups := seq(|indices|, k requires 0 <= k < |indices| => HunkGroup(Pick(hunks, indices[k]), ""));
    assert groups == Unnamed(hunks, Joins(e, cosine));
    var described;
    result, described := Describe(groups, generate);
    calls := calls + described;
  }
}
