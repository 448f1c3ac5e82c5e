/**
 * The older `ClusterHunks`, `joinGroupPatch` and the discrete part of `cosineSimilarity`
 * (semantics/cluster.go). `openai.GetEmbeddings` and `openai.GenerateCommitMessage` are the
 * oracles `embed` and `generate` (the API key they take is part of the oracle); the
 * floating-point cosine of two non-degenerate vectors is the oracle `cosine`.
 */
module SemanticsCluster {
  import opened Results
  import opened Diff
  import opened Strings
  import Grouping
  import opened Clustering
  import Hunks
  import LegacyHunks

  /** Text `i` of the embedding batch: the hunk's header and body, without its path. */
  function EmbeddingText(h: Hunk): string
  {
    h.header + "\n" + h.body
  }

  /** The whole embedding batch, one text per hunk, in hunk order. */
  function Texts(hunks: seq<Hunk>): seq<string>
  {
    seq(|hunks|, i requires 0 <= i < |hunks| => EmbeddingText(hunks[i]))
  }

  /** The loop appending one `"%s\n%s"` text per hunk. */
  method EmbeddingTexts(hunks: seq<Hunk>) returns (texts: seq<string>)
    ensures |texts| == |hunks|
    ensures forall i :: 0 <= i < |hunks| ==> texts[i] == hunks[i].header + "\n" + hunks[i].body
  {
    texts := [];
    for i := 0 to |hunks|
      invariant |texts| == i
      invariant forall k :: 0 <= k < i ==> texts[k] == EmbeddingText(hunks[k])
    {
      texts := texts + [EmbeddingText(hunks[i])];
    }
  }

  /** The section `joinGroupPatch` writes for one hunk: a `diff --git` line, the body, a blank line. */
  function Section(h: Hunk): string
  {
    "diff --git a/" + h.filePath + " b/" + h.filePath + "\n" + h.body + "\n\n"
  }

  /** What `joinGroupPatch` builds: the sections of the hunks, in hunk order. */
  function GroupPatch(hunks: seq<Hunk>): (patch: string)
    ensures |patch| >= 2 * |hunks|
    ensures patch == "" <==> hunks == []
  {
    if hunks == [] then "" else GroupPatch(hunks[..|hunks| - 1]) + Section(hunks[|hunks| - 1])
  }

  /** `joinGroupPatch`: the builder loop over the group's hunks. */
  method JoinGroupPatch(hunks: seq<Hunk>) returns (patch: string)
    ensures patch == GroupPatch(hunks)
  {
    patch := "";
    for i := 0 to |hunks|
      invariant patch == GroupPatch(hunks[..i])
    {
      assert hunks[..i + 1][..i] == hunks[..i];
      patch := patch + ("diff --git a/" + hunks[i].filePath + " b/" + hunks[i].filePath + "\n");
      patch := patch + (hunks[i].body + "\n\n");
    }
    assert hunks[..|hunks|] == hunks;
  }

  /** The patch of two runs of hunks is the two patches one after the other. */
  lemma {:induction false} GroupPatchAppend(a: seq<Hunk>, b: seq<Hunk>)
    ensures GroupPatch(a + b) == GroupPatch(a) + GroupPatch(b)
  {
    if b == [] {
      assert a + b == a;
    } else {
      var front := b[..|b| - 1];
      var last := Section(b[|b| - 1]);
      assert (a + b)[..|a + b| - 1] == a + front;
      assert (a + b)[|a + b| - 1] == b[|b| - 1];
      assert GroupPatch(a + b) == GroupPatch(a + front) + last;
      assert GroupPatch(b) == GroupPatch(front) + last;
      GroupPatchAppend(a, front);
    }
  }

  /**
   * A section opens with the `diff --git` line of its hunk's file, and the current hunk parser
   * reads that file's path back from it when the path holds no white space.
   */
  lemma SectionNamesFile(h: Hunk)
    requires NoSpace(h.filePath)
    ensures var first := Split(Section(h), '\n')[0];
      first == LegacyHunks.DiffLine(h.filePath) && Hunks.ParseFilePath(first) == h.filePath
  {
    var line := LegacyHunks.DiffLine(h.filePath);
    var rest := "\n" + h.body + "\n\n";
    assert Section(h) == line + rest;
    assert '\n' !in line by {
      assert line == "diff --git a/" + h.filePath + " b/" + h.filePath;
      forall i | 0 <= i < |line| ensures line[i] != '\n' {
        if 13 <= i < 13 + |h.filePath| {
          assert line[i] == h.filePath[i - 13];
        } else if i >= 16 + |h.filePath| {
          assert line[i] == h.filePath[i - 16 - |h.filePath|];
        }
      }
    }
    SplitAfter(line, rest, '\n');
    assert rest[0] == '\n';
    assert Split(rest, '\n')[0] == "";
    assert line + "" == line;
    LegacyHunks.DiffLineFacts(h.filePath);
  }

  /**
   * `cosineSimilarity` with the summing loop over `a`'s length: zero when either norm (of `a`,
   * and of `b` over `a`'s length) is zero, which includes an empty `a`; otherwise the cosine of
   * `a` and the front of `b`, which is left to the oracle.
   */
  function Similarity(a: Vector, b: Vector, cosine: (Vector, Vector) -> real): (s: real)
    requires |a| <= |b|
    ensures NormSquared(a, |a|) == 0.0 || NormSquared(b, |a|) == 0.0 ==> s == 0.0
    ensures s != 0.0 ==> s == cosine(a, b[..|a|])
  {
    if NormSquared(a, |a|) == 0.0 || NormSquared(b, |a|) == 0.0 then 0.0
    else cosine(a, b[..|a|])
  }

  /** Whether hunk `j` may join the group seeded by hunk `i`: their similarity reaches the threshold. */
  function Joins(e: seq<Vector>, cosine: (Vector, Vector) -> real): (nat, nat) -> bool
  {
    (i: nat, j: nat) =>
      i < |e| && j < |e| && |e[i]| <= |e[j]| && Similarity(e[i], e[j], cosine) >= SimilarityThreshold
  }

  /** An empty embedding is joined by no hunk and joins none. */
  lemma EmptyEmbeddingJoinsNothing(e: seq<Vector>, cosine: (Vector, Vector) -> real, x: nat, y: nat)
    requires x < |e| && e[x] == []
    ensures !Joins(e, cosine)(x, y)
    ensures y < |e| ==> !Joins(e, cosine)(y, x)
  {
    if y < |e| && |e[y]| <= |e[x]| {
      assert |e[y]| == 0;
    }
  }

  /**
   * The embeddings the loops read without going out of range. With two hunks or more, the first
   * seed is compared with every other hunk, so there is a vector per hunk; and each seed's
   * vector is read over its own length in the vector of every hunk the pass compares it with.
   * A single hunk is compared with nothing. A pair the pass never compares may have any lengths.
   */
  predicate InRange(n: nat, e: seq<Vector>, cosine: (Vector, Vector) -> real)
  {
    n >= 2 ==>
      |e| >= n &&
      var gs := Grouping.Greedy(n, Joins(e, cosine));
      forall k, j :: 0 <= k < |gs| && 0 <= j < n && Grouping.Candidate(gs, n, k, j) ==>
        |e[gs[k][0]]| <= |e[j]|
  }

  /** Vectors whose lengths never decrease along the hunks can always be read. */
  lemma NondecreasingInRange(n: nat, e: seq<Vector>, cosine: (Vector, Vector) -> real)
    requires |e| >= n && forall i, j :: 0 <= i < j < n ==> |e[i]| <= |e[j]|
    ensures InRange(n, e, cosine)
  {
  }

  /**
   * When the first hunk joins every other one, only its vector is compared, so the others may
   * have any lengths at least its own, in any order.
   */
  lemma FirstSeedInRange(n: nat, e: seq<Vector>, cosine: (Vector, Vector) -> real)
    requires n >= 2 && |e| >= n
    requires forall j :: 0 < j < n ==> Joins(e, cosine)(0, j)
    ensures InRange(n, e, cosine)
  {
    var gs := Grouping.Greedy(n, Joins(e, cosine));
    forall k, j | 0 <= k < |gs| && 0 <= j < n && Grouping.Candidate(gs, n, k, j) ensures |e[gs[k][0]]| <= |e[j]| {
      Grouping.FirstSeedTakesAll(n, Joins(e, cosine), k, j);
      assert Joins(e, cosine)(0, j);
    }
  }

  /**
   * Three hunks with vectors of lengths 1, 2 and 1 whose first vector reaches the threshold
   * with both others: the source groups them without going out of range, and `InRange` admits
   * them although a longer vector comes before a shorter one.
   */
  lemma MixedLengthsInRange(cosine: (Vector, Vector) -> real)
    requires cosine([1.0], [1.0]) >= SimilarityThreshold
    ensures InRange(3, [[1.0], [1.0, 0.0], [1.0]], cosine)
  {
    var e: seq<Vector> := [[1.0], [1.0, 0.0], [1.0]];
    assert NormSquared(e[0], 1) == 1.0 by {
      assert NormSquared(e[0], 0) == 0.0;
    }
    assert e[1][..1] == [1.0] && e[2][..1] == [1.0];
    assert NormSquared(e[1], 1) == 1.0 by {
      assert NormSquared(e[1], 0) == 0.0;
    }
    assert NormSquared(e[2], 1) == 1.0 by {
      assert NormSquared(e[2], 0) == 0.0;
    }
    assert Joins(e, cosine)(0, 1) && Joins(e, cosine)(0, 2);
    FirstSeedInRange(3, e, cosine);
  }

  /** The patch of every group, in group order. */
  function Patches(groups: seq<HunkGroup>): (patches: seq<string>)
    ensures |patches| == |groups|
  {
    seq(|groups|, k requires 0 <= k < |groups| => GroupPatch(groups[k].hunks))
  }

  /** The message loop: one `GenerateCommitMessage` per group, stopping at the first failure. */
  method Describe(groups: seq<HunkGroup>, generate: string -> Result<string, string>)
    returns (result: Result<seq<HunkGroup>, ClusterError>, calls: seq<Call>)
    ensures DescribedBy(groups, Patches(groups), generate, result, calls)
  {
    var patches := Patches(groups);
    var named := groups;
    calls := [];
    for i := 0 to |groups|
      invariant |named| == |groups|
      invariant forall k :: 0 <= k < i ==>
        generate(patches[k]).Ok? && named[k] == groups[k].(message := generate(patches[k]).value)
      invariant forall k :: i <= k < |groups| ==> named[k] == groups[k]
      invariant calls == Requests(patches, i)
    {
      var diff := JoinGroupPatch(named[i].hunks);
      assert diff == patches[i];
      calls := calls + [Generate(diff)];
      assert calls == Requests(patches, i + 1);
      var reply := generate(diff);
      if reply.Err? {
        result := Err(MessageFailed(i + 1, reply.error));
        DescribedUpTo(groups, patches, generate, i, calls);
        return;
      }
      named := named[i := named[i].(message := reply.value)];
    }
    result := Ok(named);
    DescribedAll(groups, patches, generate, named, calls);
  }

  /**
   * The older `ClusterHunks`: nothing is asked of the provider for no hunks; otherwise one
   * embedding batch, the greedy grouping with no count check, and the message loop.
   */
  method ClusterHunks(hunks: seq<Hunk>, embed: seq<string> -> Result<seq<Vector>, string>,
                      cosine: (Vector, Vector) -> real, generate: string -> Result<string, string>)
    returns (result: Result<seq<HunkGroup>, ClusterError>, calls: seq<Call>)
    requires embed(Texts(hunks)).Ok? ==> InRange(|hunks|, embed(Texts(hunks)).value, cosine)
    ensures hunks == [] ==> result == Ok([]) && calls == []
    ensures hunks != [] ==> |calls| >= 1 && calls[0] == Embed(Texts(hunks))
    ensures hunks != [] && embed(Texts(hunks)).Err? ==>
      result == Err(EmbeddingFailed(embed(Texts(hunks)).error)) && calls == [Embed(Texts(hunks))]
    ensures hunks != [] && embed(Texts(hunks)).Ok? ==>
      var groups := Unnamed(hunks, Joins(embed(Texts(hunks)).value, cosine));
      DescribedBy(groups, Patches(groups), generate, result, calls[1..])
  {
    if hunks == [] {
      return Ok([]), [];
    }
    var texts := EmbeddingTexts(hunks);
    assert texts == Texts(hunks);
    calls := [Embed(texts)];
    var embeddings := embed(texts);
    if embeddings.Err? {
      return Err(EmbeddingFailed(embeddings.error)), calls;
    }
    var e := embeddings.value;
    var indices := Grouping.Partition(|hunks|, Joins(e, cosine));
    Grouping.GreedyBounded(|hunks|, Joins(e, cosine));
    var groups := seq(|indices|, k requires 0 <= k < |indices| => HunkGroup(Pick(hunks, indices[k]), ""));
    assert groups == Unnamed(hunks, Joins(e, cosine));
    var described;
    result, described := Describe(groups, generate);
    calls := calls + described;
  }
}
