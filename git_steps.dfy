/**
 * What the two `ApplyGroups` snapshots (split/apply.go and semantics/apply.go) have in common:
 * the side effects they issue, recorded in order as a trace of `Command`s, and the outcome
 * oracle that decides whether a command succeeds. The oracle sees the commands issued before
 * and the command itself, so a step may fail or succeed depending on everything that happened
 * so far, as a real repository and file system would.
 */
module GitSteps {
  import opened Strings

  /** One side effect: a `git` invocation (its arguments after `git`), a file written, a file removed. */
  datatype Command =
    | Git(args: seq<string>)
    | WriteFile(path: string, data: string)
    | Remove(path: string)

  /** Whether a command succeeds after the commands already issued. */
  type Outcomes = (seq<Command>, Command) -> bool

  /** The four steps run for every group, in this order. */
  datatype Step = Reset | WritePatch | ApplyPatch | Commit

  /** Step number `s` (0 to 3) of a group. */
  function StepAt(s: nat): Step
    requires s < 4
  {
    if s == 0 then Reset else if s == 1 then WritePatch else if s == 2 then ApplyPatch else Commit
  }

  /** The position of `step` among the four steps of a group. */
  function Ordinal(step: Step): (s: nat)
    ensures s < 4 && StepAt(s) == step
  {
    match step
    case Reset => 0
    case WritePatch => 1
    case ApplyPatch => 2
    case Commit => 3
  }

  /**
   * How many of `cmds` succeed in a row when they are issued one after the other after `done`:
   * the index of the first one that fails, or `|cmds|` when none does.
   */
  function FirstFailure(ok: Outcomes, done: seq<Command>, cmds: seq<Command>): (f: nat)
    ensures f <= |cmds|
    decreases |cmds|
  {
    if cmds == [] then 0
    else if !ok(done, cmds[0]) then 0
    else 1 + FirstFailure(ok, done + [cmds[0]], cmds[1..])
  }

  /**
   * `FirstFailure` is what it claims: every command before it succeeds after the ones before
   * it, and the one at it fails.
   */
  lemma {:induction false} FirstFailureMeans(ok: Outcomes, done: seq<Command>, cmds: seq<Command>)
    ensures var f := FirstFailure(ok, done, cmds);
      (forall j :: 0 <= j < f ==> ok(done + cmds[..j], cmds[j])) &&
      (f < |cmds| ==> !ok(done + cmds[..f], cmds[f]))
    decreases |cmds|
  {
    if cmds != [] && ok(done, cmds[0]) {
      var c := cmds[0];
      var rest := cmds[1..];
      FirstFailureMeans(ok, done + [c], rest);
      var f := FirstFailure(ok, done, cmds);
      assert done + cmds[..0] == done;
      forall j | 1 <= j <= f
        ensures done + cmds[..j] == (done + [c]) + rest[..j - 1]
      {
        assert cmds[..j] == [c] + rest[..j - 1];
      }
    } else {
      assert cmds != [] ==> done + cmds[..0] == done;
    }
  }

  /**
   * Conversely, when every command before `f` succeeds and the one at `f` fails (or `f` is the
   * end), the first failure is at `f`.
   */
  lemma {:induction false} FirstFailureAt(ok: Outcomes, done: seq<Command>, cmds: seq<Command>, f: nat)
    requires f <= |cmds|
    requires forall j :: 0 <= j < f ==> ok(done + cmds[..j], cmds[j])
    requires f < |cmds| ==> !ok(done + cmds[..f], cmds[f])
    ensures FirstFailure(ok, done, cmds) == f
    decreases |cmds|
  {
    if cmds != [] {
      assert done + cmds[..0] == done;
      if f > 0 {
        var c := cmds[0];
        var rest := cmds[1..];
        forall j | 0 <= j < f - 1 ensures ok((done + [c]) + rest[..j], rest[j]) {
          assert cmds[..j + 1] == [c] + rest[..j];
          assert done + cmds[..j + 1] == (done + [c]) + rest[..j];
        }
        if f < |cmds| {
          assert cmds[..f] == [c] + rest[..f - 1];
          assert done + cmds[..f] == (done + [c]) + rest[..f - 1];
        }
        FirstFailureAt(ok, done + [c], rest, f - 1);
      }
    }
  }

  /** The first `p` commands of `cmds`, issued from the start, all succeed. */
  predicate Succeeded(ok: Outcomes, cmds: seq<Command>, p: nat)
    requires p <= |cmds|
  {
    forall j :: 0 <= j < p ==> ok(cmds[..j], cmds[j])
  }

  /** Every command of `trace` succeeded after the ones before it. */
  predicate AllSucceeded(ok: Outcomes, trace: seq<Command>)
    decreases |trace|
  {
    trace == [] ||
    (AllSucceeded(ok, trace[..|trace| - 1]) && ok(trace[..|trace| - 1], trace[|trace| - 1]))
  }

  /** One more command that succeeds after a trace of successes. */
  lemma AllSucceededOneMore(ok: Outcomes, trace: seq<Command>, c: Command)
    requires AllSucceeded(ok, trace) && ok(trace, c)
    ensures AllSucceeded(ok, trace + [c])
  {
    assert (trace + [c])[..|trace|] == trace;
  }

  /**
   * A trace of successes issued as the front of `cmds`: its commands are the first `|trace|`
   * commands of `cmds`, and they all succeed.
   */
  lemma {:induction false} AllSucceededFront(ok: Outcomes, trace: seq<Command>, cmds: seq<Command>)
    requires AllSucceeded(ok, trace)
    requires |trace| <= |cmds| && cmds[..|trace|] == trace
    ensures Succeeded(ok, cmds, |trace|)
    decreases |trace|
  {
    if trace != [] {
      var k := |trace| - 1;
      assert cmds[..k] == trace[..k];
      AllSucceededFront(ok, trace[..k], cmds);
      assert cmds[k] == trace[k];
    }
  }

  /** `FirstFailureAt` for commands issued from the start. */
  lemma FirstFailureFromStart(ok: Outcomes, cmds: seq<Command>, f: nat)
    requires f <= |cmds|
    requires Succeeded(ok, cmds, f)
    requires f < |cmds| ==> !ok(cmds[..f], cmds[f])
    ensures FirstFailure(ok, [], cmds) == f
  {
    forall j | 0 <= j <= f ensures [] + cmds[..j] == cmds[..j] {
    }
    FirstFailureAt(ok, [], cmds, f);
  }

  /** `FirstFailureMeans` for commands issued from the start. */
  lemma FirstFailureFromStartMeans(ok: Outcomes, cmds: seq<Command>)
    ensures var f := FirstFailure(ok, [], cmds);
      Succeeded(ok, cmds, f) && (f < |cmds| ==> !ok(cmds[..f], cmds[f]))
  {
    FirstFailureMeans(ok, [], cmds);
    forall j | 0 <= j <= |cmds| ensures [] + cmds[..j] == cmds[..j] {
    }
  }

  /**
   * A trace made of `cmds` up to and including its first failure `f`, then `rest`: the commands
   * before `f` succeeded in it, the one at `f` failed, and `rest` follows.
   */
  lemma FailedTrace(ok: Outcomes, cmds: seq<Command>, trace: seq<Command>, f: nat, rest: seq<Command>)
    requires f < |cmds| && FirstFailure(ok, [], cmds) == f
    requires trace == cmds[..f + 1] + rest
    ensures f < |trace| && trace[..f] == cmds[..f] && trace[f] == cmds[f] && trace[f + 1..] == rest
    ensures Succeeded(ok, trace, f) && !ok(trace[..f], trace[f])
  {
    FirstFailureFromStartMeans(ok, cmds);
    forall j | 0 <= j <= f ensures trace[..j] == cmds[..j] {
      assert trace[..j] == cmds[..f + 1][..j];
    }
    assert trace[f] == cmds[..f + 1][f];
  }

  /** The first failure depends only on what the oracle says about the commands themselves. */
  lemma {:induction false} FirstFailureAgree(ok: Outcomes, ok': Outcomes, done: seq<Command>, cmds: seq<Command>)
    requires forall j :: 0 <= j < |cmds| ==> ok(done + cmds[..j], cmds[j]) == ok'(done + cmds[..j], cmds[j])
    ensures FirstFailure(ok, done, cmds) == FirstFailure(ok', done, cmds)
    decreases |cmds|
  {
    if cmds != [] {
      assert done + cmds[..0] == done;
      var c := cmds[0];
      var rest := cmds[1..];
      forall j | 0 <= j < |rest|
        ensures ok((done + [c]) + rest[..j], rest[j]) == ok'((done + [c]) + rest[..j], rest[j])
      {
        assert cmds[..j + 1] == [c] + rest[..j];
        assert done + cmds[..j + 1] == (done + [c]) + rest[..j];
      }
      FirstFailureAgree(ok, ok', done + [c], rest);
    }
  }

  /** The front of a concatenation that reaches into its second part. */
  lemma FrontOfAppend<T>(a: seq<T>, b: seq<T>, m: nat)
    requires |a| <= m <= |a| + |b|
    ensures (a + b)[..m] == a + b[..m - |a|]
  {
  }

  /** The front of a front. */
  lemma FrontOfFront<T>(a: seq<T>, k: nat, m: nat)
    requires m <= k <= |a|
    ensures a[..k][..m] == a[..m]
  {
  }

  // ---------------------------------------------------------------------------------------------
  // Scripts: one opening command, then a block of four steps per group

  /** The blocks `blocks[..m]` one after the other. */
  function Flatten(blocks: seq<seq<Command>>, m: nat): seq<Command>
    requires m <= |blocks|
  {
    if m == 0 then [] else Flatten(blocks, m - 1) + blocks[m - 1]
  }

  /** Every block has four commands. */
  predicate Fours(blocks: seq<seq<Command>>) {
    forall k :: 0 <= k < |blocks| ==> |blocks[k]| == 4
  }

  /** The script: the opening command, then every block. */
  function ScriptOf(first: Command, blocks: seq<seq<Command>>): seq<Command>
  {
    [first] + Flatten(blocks, |blocks|)
  }

  lemma {:induction false} FlattenLength(blocks: seq<seq<Command>>, m: nat)
    requires Fours(blocks) && m <= |blocks|
    ensures |Flatten(blocks, m)| == 4 * m
  {
    if m > 0 {
      FlattenLength(blocks, m - 1);
    }
  }

  /** The first `m` blocks are the front of the first `n`. */
  lemma {:induction false} FlattenFront(blocks: seq<seq<Command>>, m: nat, n: nat)
    requires Fours(blocks) && m <= n <= |blocks|
    ensures |Flatten(blocks, n)| == 4 * n
    ensures Flatten(blocks, n)[..4 * m] == Flatten(blocks, m)
    decreases n
  {
    FlattenLength(blocks, n);
    if m < n {
      FlattenFront(blocks, m, n - 1);
      FrontOfFront(Flatten(blocks, n), 4 * (n - 1), 4 * m);
    }
  }

  /** The blocks up to step `s` of block `i`. */
  lemma BlocksFront(blocks: seq<seq<Command>>, i: nat, s: nat)
    requires Fours(blocks) && i < |blocks| && s <= 4
    ensures |Flatten(blocks, i)| == 4 * i && |Flatten(blocks, |blocks|)| == 4 * |blocks|
    ensures Flatten(blocks, |blocks|)[..4 * i + s] == Flatten(blocks, i) + blocks[i][..s]
  {
    var all := Flatten(blocks, |blocks|);
    var done := Flatten(blocks, i);
    FlattenFront(blocks, i + 1, |blocks|);
    FlattenLength(blocks, i);
    assert all[..4 * i + 4] == done + blocks[i];
    FrontOfFront(all, 4 * i + 4, 4 * i + s);
    FrontOfAppend(done, blocks[i], 4 * i + s);
  }

  /** The script up to step `s` of block `i`. */
  lemma ScriptFront(first: Command, blocks: seq<seq<Command>>, i: nat, s: nat)
    requires Fours(blocks) && i < |blocks| && s <= 4
    ensures |ScriptOf(first, blocks)| == 1 + 4 * |blocks|
    ensures ScriptOf(first, blocks)[..1 + 4 * i + s] == [first] + Flatten(blocks, i) + blocks[i][..s]
  {
    var all := Flatten(blocks, |blocks|);
    BlocksFront(blocks, i, s);
    FrontOfAppend([first], all, 1 + 4 * i + s);
    assert [first] + (Flatten(blocks, i) + blocks[i][..s]) == [first] + Flatten(blocks, i) + blocks[i][..s];
  }

  /**
   * When the opening command and every step before step `s` of block `i` succeeded and that
   * step fails, the script first fails there.
   */
  lemma FailsInBlock(ok: Outcomes, first: Command, blocks: seq<seq<Command>>, i: nat, s: nat, before: seq<Command>)
    requires Fours(blocks) && i < |blocks| && s < 4
    requires before == [first] + Flatten(blocks, i) + blocks[i][..s]
    requires AllSucceeded(ok, before) && !ok(before, blocks[i][s])
    ensures |ScriptOf(first, blocks)| == 1 + 4 * |blocks|
    ensures ScriptOf(first, blocks)[..2 + 4 * i + s] == before + [blocks[i][s]]
    ensures FirstFailure(ok, [], ScriptOf(first, blocks)) == 1 + 4 * i + s
  {
    var script := ScriptOf(first, blocks);
    var c := blocks[i][s];
    var f := 1 + 4 * i + s;
    ScriptFront(first, blocks, i, s);
    ScriptFront(first, blocks, i, s + 1);
    assert blocks[i][..s + 1] == blocks[i][..s] + [c];
    assert script[..f + 1][f] == script[f];
    AllSucceededFront(ok, before, script);
    FirstFailureFromStart(ok, script, f);
  }

  /** When the whole script succeeded, it has no failure. */
  lemma NeverFails(ok: Outcomes, first: Command, blocks: seq<seq<Command>>, trace: seq<Command>)
    requires trace == ScriptOf(first, blocks) && AllSucceeded(ok, trace)
    ensures FirstFailure(ok, [], trace) == |trace|
  {
    assert trace[..|trace|] == trace;
    AllSucceededFront(ok, trace, trace);
    FirstFailureFromStart(ok, trace, |trace|);
  }

  /** When the opening command fails, nothing after it runs. */
  lemma FailsFirst(ok: Outcomes, first: Command, blocks: seq<seq<Command>>)
    requires !ok([], first)
    ensures FirstFailure(ok, [], ScriptOf(first, blocks)) == 0
  {
  }

  /** How many times `c` occurs in `trace`. */
  function Occurrences(trace: seq<Command>, c: Command): nat
  {
    if trace == [] then 0 else (if trace[0] == c then 1 else 0) + Occurrences(trace[1..], c)
  }

  lemma {:induction false} OccurrencesAppend(a: seq<Command>, b: seq<Command>, c: Command)
    ensures Occurrences(a + b, c) == Occurrences(a, c) + Occurrences(b, c)
  {
    if a == [] {
      assert a + b == b;
    } else {
      assert (a + b)[1..] == a[1..] + b;
      OccurrencesAppend(a[1..], b, c);
    }
  }

  /** A command that is not in a trace occurs in it zero times. */
  lemma {:induction false} NoOccurrences(trace: seq<Command>, c: Command)
    requires forall i :: 0 <= i < |trace| ==> trace[i] != c
    ensures Occurrences(trace, c) == 0
  {
    if trace != [] {
      NoOccurrences(trace[1..], c);
    }
  }

  /** A prefix of a trace holds no more occurrences of `c` than the trace. */
  lemma OccurrencesFront(trace: seq<Command>, k: nat, c: Command)
    requires k <= |trace|
    ensures Occurrences(trace[..k], c) <= Occurrences(trace, c)
  {
    assert trace == trace[..k] + trace[k..];
    OccurrencesAppend(trace[..k], trace[k..], c);
  }

  /** A command that no block holds does not occur in the blocks flattened. */
  lemma {:induction false} FlattenAvoids(blocks: seq<seq<Command>>, m: nat, c: Command)
    requires m <= |blocks|
    requires forall j, t :: 0 <= j < |blocks| && 0 <= t < |blocks[j]| ==> blocks[j][t] != c
    ensures Occurrences(Flatten(blocks, m), c) == 0
  {
    if m > 0 {
      FlattenAvoids(blocks, m - 1, c);
      NoOccurrences(blocks[m - 1], c);
      OccurrencesAppend(Flatten(blocks, m - 1), blocks[m - 1], c);
    }
  }

  /** Block `j` sits at commands `4 * j` to `4 * j + 4` of the flattened blocks. */
  lemma FlattenBlock(blocks: seq<seq<Command>>, m: nat, j: nat)
    requires Fours(blocks) && j < m <= |blocks|
    ensures |Flatten(blocks, m)| == 4 * m
    ensures Flatten(blocks, m)[4 * j..4 * j + 4] == blocks[j]
  {
    FlattenFront(blocks, j + 1, m);
    FlattenLength(blocks, j);
    var all := Flatten(blocks, m);
    assert all[..4 * j + 4] == Flatten(blocks, j) + blocks[j];
    assert all[4 * j..4 * j + 4] == all[..4 * j + 4][4 * j..];
  }

  /** Equal strings with a common prefix and a common suffix have equal middles. */
  lemma Framed(prefix: string, a: string, b: string, suffix: string)
    requires prefix + a + suffix == prefix + b + suffix
    ensures a == b
  {
    var s := prefix + a + suffix;
    assert |a| == |b|;
    assert s[|prefix|..|prefix| + |a|] == a;
    assert (prefix + b + suffix)[|prefix|..|prefix| + |b|] == b;
  }

  /** A file name `prefix + "%d" + suffix` names one index only. */
  lemma NumberedNames(prefix: string, suffix: string, i: nat, j: nat)
    requires prefix + Itoa(i) + suffix == prefix + Itoa(j) + suffix
    ensures i == j
  {
    Framed(prefix, Itoa(i), Itoa(j), suffix);
    ItoaInjective(i, j);
  }
}
