/**
 * `ApplyGroups` in the older snapshot (semantics/apply.go): stash what is not staged, then for
 * every group reset the index, write the group's patch to a numbered file, apply it to the index
 * and commit it with the group's message. The stash is popped by a deferred call that always
 * runs once the stash succeeded, on the way out of a failure as after the last group, and whose
 * own outcome is ignored. No patch file is removed, and the errors name the failing step but not
 * the group.
 *
 * The patch builder the loop calls, `JoinGroupPatch`, is not defined in this snapshot (only the
 * lower-case `joinGroupPatch` of semantics/cluster.go is), so it is a parameter `patchOf`.
 */
module SemanticsApply {
  import opened Results
  import opened Strings
  import opened Diff
  import opened GitSteps
  import opened Clustering

  /** Why `ApplyGroups` returned an error; a failed step does not say which group it failed in. */
  datatype ApplyError = NoGroups | StashFailed | StepFailed(step: Step)

  const StashPush: Command :=
    Git(["stash", "push", "--include-untracked", "--keep-index", "-m", "gix-temp"])

  const StashPop: Command := Git(["stash", "pop"])

  const ResetIndex: Command := Git(["reset"])

  function ApplyCached(path: string): Command
  {
    Git(["apply", "--cached", path])
  }

  function CommitWith(message: string): Command
  {
    Git(["commit", "-m", message])
  }

  /** The name of group `i`'s patch file in the temporary directory. */
  function PatchName(i: nat): string
  {
    "gix_group_" + Itoa(i) + ".patch"
  }

  /** The four commands run for group `i` when they all succeed: reset, write, apply, commit. */
  function GroupSteps(groups: seq<HunkGroup>, patchOf: seq<Hunk> -> string, i: nat): (steps: seq<Command>)
    requires i < |groups|
    ensures |steps| == 4
  {
    [ResetIndex, WriteFile(PatchName(i), patchOf(groups[i].hunks)),
     ApplyCached(PatchName(i)), CommitWith(groups[i].message)]
  }

  /** The steps of every group, one block per group. */
  function Blocks(groups: seq<HunkGroup>, patchOf: seq<Hunk> -> string): (blocks: seq<seq<Command>>)
    ensures |blocks| == |groups| && Fours(blocks)
    ensures forall i :: 0 <= i < |groups| ==> blocks[i] == GroupSteps(groups, patchOf, i)
  {
    seq(|groups|, i requires 0 <= i < |groups| => GroupSteps(groups, patchOf, i))
  }

  /** Every command issued when nothing fails, before the deferred pop: the stash, then four steps per group. */
  function Script(groups: seq<HunkGroup>, patchOf: seq<Hunk> -> string): (script: seq<Command>)
    ensures |script| == 1 + 4 * |groups|
  {
    FlattenLength(Blocks(groups, patchOf), |groups|);
    ScriptOf(StashPush, Blocks(groups, patchOf))
  }

  /**
   * What `ApplyGroups` returns and issues. With `f` the first command of the script that fails:
   * the stash fails, and nothing else happens; a step fails, and the deferred pop follows it; or
   * none fails, and the pop follows the last commit.
   */
  function Outcome(groups: seq<HunkGroup>, patchOf: seq<Hunk> -> string, ok: Outcomes): (Option<ApplyError>, seq<Command>)
  {
    if groups == [] then (Some(NoGroups), [])
    else Verdict(Script(groups, patchOf), FirstFailure(ok, [], Script(groups, patchOf)))
  }

  /** The outcome for a script of `1 + 4 * n` commands that first fails at command `f`. */
  function Verdict(script: seq<Command>, f: nat): (Option<ApplyError>, seq<Command>)
    requires |script| % 4 == 1 && f <= |script|
  {
    if f == 0 then (Some(StashFailed), [StashPush])
    else if f < |script| then (Some(StepFailed(StepAt((f - 1) % 4))), script[..f + 1] + [StashPop])
    else (None, script + [StashPop])
  }

  /** The script up to step `s` of group `i`. */
  function Before(groups: seq<HunkGroup>, patchOf: seq<Hunk> -> string, i: nat, s: nat): seq<Command>
    requires i < |groups| && s <= 4
  {
    [StashPush] + Flatten(Blocks(groups, patchOf), i) + GroupSteps(groups, patchOf, i)[..s]
  }

  /**
   * `after` ends with step `s` of group `i`, which failed, and every command before it
   * succeeded.
   */
  predicate FailedAt(groups: seq<HunkGroup>, patchOf: seq<Hunk> -> string, ok: Outcomes, i: nat, s: nat, after: seq<Command>)
    requires i < |groups| && s < 4
  {
    var before := Before(groups, patchOf, i, s);
    AllSucceeded(ok, before) && !ok(before, GroupSteps(groups, patchOf, i)[s]) &&
    after == before + [GroupSteps(groups, patchOf, i)[s]]
  }

  /** The outcome when step `s` of group `i` is the first command that fails. */
  lemma FailsAt(groups: seq<HunkGroup>, patchOf: seq<Hunk> -> string, ok: Outcomes, i: nat, s: nat, after: seq<Command>)
    requires i < |groups| && s < 4
    requires FailedAt(groups, patchOf, ok, i, s, after)
    ensures Outcome(groups, patchOf, ok) == (Some(StepFailed(StepAt(s))), after + [StashPop])
  {
    var script := Script(groups, patchOf);
    FailsInBlock(ok, StashPush, Blocks(groups, patchOf), i, s, Before(groups, patchOf, i, s));
    var f := 1 + 4 * i + s;
    assert (f - 1) % 4 == s;
    assert script[..f + 1] == after;
  }

  /** The outcome when no command of the script fails. */
  lemma Completes(groups: seq<HunkGroup>, patchOf: seq<Hunk> -> string, ok: Outcomes, trace: seq<Command>)
    requires groups != []
    requires trace == Script(groups, patchOf) && AllSucceeded(ok, trace)
    ensures Outcome(groups, patchOf, ok) == (None, trace + [StashPop])
  {
    NeverFails(ok, StashPush, Blocks(groups, patchOf), trace);
  }

  /** Issue `c` after `trace`, and say whether it succeeded. */
  method Issue(trace: seq<Command>, c: Command, ok: Outcomes) returns (succeeded: bool, after: seq<Command>)
    ensures succeeded == ok(trace, c) && after == trace + [c]
  {
    succeeded := ok(trace, c);
    after := trace + [c];
  }

  /** `ApplyGroups`, with the oracle `ok` deciding which command fails. */
  method ApplyGroups(groups: seq<HunkGroup>, patchOf: seq<Hunk> -> string, ok: Outcomes)
    returns (err: Option<ApplyError>, trace: seq<Command>)
    ensures groups == [] ==> err == Some(NoGroups) && trace == []
    ensures (err, trace) == Outcome(groups, patchOf, ok)
  {
    if |groups| == 0 {
      return Some(NoGroups), [];
    }
    var stashed;
    stashed, trace := Issue([], StashPush, ok);
    if !stashed {
      FailsFirst(ok, StashPush, Blocks(groups, patchOf));
      assert trace == [StashPush];
      return Some(StashFailed), trace;
    }
    assert AllSucceeded(ok, trace) by {
      AllSucceededOneMore(ok, [], StashPush);
    }
    // From here on the deferred pop runs on every way out; its result is discarded.
    for i := 0 to |groups|
      invariant trace == [StashPush] + Flatten(Blocks(groups, patchOf), i) && AllSucceeded(ok, trace)
    {
      var failed;
      BeforeGroup(groups, patchOf, i);
      failed, trace := CommitGroup(groups, patchOf, ok, i, trace);
      if failed.Some? {
        FailsAt(groups, patchOf, ok, i, Ordinal(failed.value), trace);
        return Some(StepFailed(failed.value)), trace + [StashPop];
      }
    }
    Completes(groups, patchOf, ok, trace);
    return None, trace + [StashPop];
  }

  /**
   * The body of the loop for group `i`: reset, write the patch file, apply it to the index,
   * commit. It stops at the first step that fails and names it.
   */
  method CommitGroup(groups: seq<HunkGroup>, patchOf: seq<Hunk> -> string, ok: Outcomes, i: nat, trace: seq<Command>)
    returns (failed: Option<Step>, after: seq<Command>)
    requires i < |groups|
    requires trace == Before(groups, patchOf, i, 0) && AllSucceeded(ok, trace)
    ensures failed.None? ==> after == Before(groups, patchOf, i, 4) && AllSucceeded(ok, after)
    ensures failed.Some? ==> FailedAt(groups, patchOf, ok, i, Ordinal(failed.value), after)
  {
    var fine;
    fine, after := RunStep(groups, patchOf, ok, i, 0, trace, ResetIndex);
    if !fine {
      return Some(Reset), after;
    }
    var patch := patchOf(groups[i].hunks);
    var tmpPath := PatchName(i);
    fine, after := RunStep(groups, patchOf, ok, i, 1, after, WriteFile(tmpPath, patch));
    if !fine {
      return Some(WritePatch), after;
    }
    fine, after := RunStep(groups, patchOf, ok, i, 2, after, ApplyCached(tmpPath));
    if !fine {
      return Some(ApplyPatch), after;
    }
    fine, after := RunStep(groups, patchOf, ok, i, 3, after, CommitWith(groups[i].message));
    if !fine {
      return Some(Commit), after;
    }
    failed := None;
  }

  /** Group `i`'s steps start after the earlier groups' steps, and end where group `i + 1`'s start. */
  lemma BeforeGroup(groups: seq<HunkGroup>, patchOf: seq<Hunk> -> string, i: nat)
    requires i < |groups|
    ensures Before(groups, patchOf, i, 0) == [StashPush] + Flatten(Blocks(groups, patchOf), i)
    ensures Before(groups, patchOf, i, 4) == [StashPush] + Flatten(Blocks(groups, patchOf), i + 1)
  {
    assert GroupSteps(groups, patchOf, i)[..0] == [];
    assert GroupSteps(groups, patchOf, i)[..4] == Blocks(groups, patchOf)[i];
  }

  /** Issue `c`, step `s` of group `i`, after every earlier command of the script succeeded. */
  method RunStep(groups: seq<HunkGroup>, patchOf: seq<Hunk> -> string, ok: Outcomes, i: nat, s: nat,
                 trace: seq<Command>, c: Command)
    returns (fine: bool, after: seq<Command>)
    requires i < |groups| && s < 4 && c == GroupSteps(groups, patchOf, i)[s]
    requires trace == Before(groups, patchOf, i, s) && AllSucceeded(ok, trace)
    ensures fine ==> after == Before(groups, patchOf, i, s + 1) && AllSucceeded(ok, after)
    ensures !fine ==> FailedAt(groups, patchOf, ok, i, s, after)
  {
    fine, after := Issue(trace, c, ok);
    if fine {
      AllSucceededOneMore(ok, trace, c);
      assert GroupSteps(groups, patchOf, i)[..s + 1] == GroupSteps(groups, patchOf, i)[..s] + [c];
    }
  }

  // ---------------------------------------------------------------------------------------------
  // What the outcome promises

  /** Group `i`'s patch file has a name of its own: no two indices share one. */
  lemma PatchNamesDistinct(i: nat, j: nat)
    requires PatchName(i) == PatchName(j)
    ensures i == j
  {
    NumberedNames("gix_group_", ".patch", i, j);
  }

  /** None of the steps of a group is the stash pop. */
  lemma StepsAreNotPop(groups: seq<HunkGroup>, patchOf: seq<Hunk> -> string, i: nat)
    requires i < |groups|
    ensures forall t :: 0 <= t < 4 ==> GroupSteps(groups, patchOf, i)[t] != StashPop
  {
    assert StashPop.args[0] == "stash" && "stash"[0] == 's';
    assert |ResetIndex.args| != |StashPop.args|;
    assert ApplyCached(PatchName(i)).args[0] == "apply" && "apply"[0] == 'a';
    assert CommitWith(groups[i].message).args[0] == "commit" && "commit"[0] == 'c';
  }

  /** The script never pops the stash: only the deferred call does. */
  lemma ScriptHasNoPop(groups: seq<HunkGroup>, patchOf: seq<Hunk> -> string)
    ensures Occurrences(Script(groups, patchOf), StashPop) == 0
  {
    var blocks := Blocks(groups, patchOf);
    forall j, t | 0 <= j < |blocks| && 0 <= t < |blocks[j]| ensures blocks[j][t] != StashPop {
      StepsAreNotPop(groups, patchOf, j);
    }
    FlattenAvoids(blocks, |blocks|, StashPop);
    assert |StashPush.args| != |StashPop.args|;
    OccurrencesAppend([StashPush], Flatten(blocks, |blocks|), StashPop);
  }

  /**
   * After a stash push that succeeds the deferred pop runs exactly once, whichever way the
   * groups fare; after one that fails it never runs.
   */
  lemma PopsOnce(groups: seq<HunkGroup>, patchOf: seq<Hunk> -> string, ok: Outcomes)
    requires groups != []
    ensures Occurrences(Outcome(groups, patchOf, ok).1, StashPop) == if ok([], StashPush) then 1 else 0
  {
    var script := Script(groups, patchOf);
    ScriptHasNoPop(groups, patchOf);
    VerdictPops(script, FirstFailure(ok, [], script));
  }

  /** Every verdict but the stash failure pops the stash once, when the script itself never does. */
  lemma VerdictPops(script: seq<Command>, f: nat)
    requires |script| % 4 == 1 && f <= |script|
    requires Occurrences(script, StashPop) == 0
    ensures Occurrences(Verdict(script, f).1, StashPop) == if f == 0 then 0 else 1
  {
    assert Occurrences([StashPop][1..], StashPop) == 0;
    if f == 0 {
      assert |StashPush.args| != |StashPop.args|;
      assert [StashPush][1..] == [];
    } else if f < |script| {
      OccurrencesFront(script, f + 1, StashPop);
      OccurrencesAppend(script[..f + 1], [StashPop], StashPop);
    } else {
      OccurrencesAppend(script, [StashPop], StashPop);
    }
  }

  /** The stash push fails exactly when the result says so; then only the push was issued. */
  lemma StashFailureAlone(groups: seq<HunkGroup>, patchOf: seq<Hunk> -> string, ok: Outcomes)
    ensures Outcome(groups, patchOf, ok).0 == Some(StashFailed) <==> groups != [] && !ok([], StashPush)
    ensures Outcome(groups, patchOf, ok).0 == Some(StashFailed) ==> Outcome(groups, patchOf, ok).1 == [StashPush]
  {
    if groups != [] {
      FirstFailureFromStartMeans(ok, Script(groups, patchOf));
      assert Script(groups, patchOf)[..0] == [];
    }
  }

  /**
   * `ApplyGroups` succeeds exactly when every command of the script succeeds, and then it has
   * issued the whole script, every group's four steps in group order, then the pop.
   */
  lemma SucceedsIff(groups: seq<HunkGroup>, patchOf: seq<Hunk> -> string, ok: Outcomes)
    ensures Outcome(groups, patchOf, ok).0 == None <==>
      groups != [] && Succeeded(ok, Script(groups, patchOf), |Script(groups, patchOf)|)
    ensures Outcome(groups, patchOf, ok).0 == None ==>
      Outcome(groups, patchOf, ok).1 == Script(groups, patchOf) + [StashPop]
  {
    if groups != [] {
      var script := Script(groups, patchOf);
      FirstFailureFromStartMeans(ok, script);
      if Succeeded(ok, script, |script|) {
        FirstFailureFromStart(ok, script, |script|);
      }
    }
  }

  /** The script holds group `k`'s four steps at commands `4 * k + 1` to `4 * k + 4`. */
  lemma CommitsInOrder(groups: seq<HunkGroup>, patchOf: seq<Hunk> -> string, k: nat)
    requires k < |groups|
    ensures Script(groups, patchOf)[4 * k + 1..4 * k + 5] == GroupSteps(groups, patchOf, k)
  {
    var all := Flatten(Blocks(groups, patchOf), |groups|);
    FlattenBlock(Blocks(groups, patchOf), |groups|, k);
    assert Script(groups, patchOf)[4 * k + 1..4 * k + 5] == all[4 * k..4 * k + 4];
  }

  /**
   * When a step fails: it is the first command of the script that fails, at position `f`, and
   * the trace is the script up to and including it, then the pop, so no later step or group is
   * touched. The error names the step only.
   */
  lemma StopsAtFirstFailure(groups: seq<HunkGroup>, patchOf: seq<Hunk> -> string, ok: Outcomes,
                            step: Step, trace: seq<Command>)
    requires Outcome(groups, patchOf, ok) == (Some(StepFailed(step)), trace)
    ensures var script := Script(groups, patchOf);
      var f := FirstFailure(ok, [], script);
      0 < f < |script| && (f - 1) % 4 == Ordinal(step) &&
      f < |trace| && trace[..f] == script[..f] && trace[f] == script[f] &&
      Succeeded(ok, trace, f) && !ok(trace[..f], trace[f]) &&
      trace[f + 1..] == [StashPop]
  {
    var script := Script(groups, patchOf);
    var f := FirstFailure(ok, [], script);
    assert step == StepAt((f - 1) % 4);
    FailedTrace(ok, script, trace, f, [StashPop]);
  }

  /**
   * The position of a failure in the script determines its group: a failure at command `f`
   * falls in group `(f - 1) / 4`, which the error does not report. Two different groups can
   * fail at the same step and give the same error.
   */
  lemma ErrorsCarryNoOrdinal(groups: seq<HunkGroup>, patchOf: seq<Hunk> -> string, ok: Outcomes, ok': Outcomes)
    requires |groups| >= 2
    requires ok([], StashPush) && !ok([StashPush], ResetIndex)
    requires forall j :: 0 < j < 5 ==> ok'(Script(groups, patchOf)[..j], Script(groups, patchOf)[j])
    requires ok'([], StashPush)
    requires !ok'(Script(groups, patchOf)[..5], Script(groups, patchOf)[5])
    ensures Outcome(groups, patchOf, ok).0 == Outcome(groups, patchOf, ok').0 == Some(StepFailed(Reset))
  {
    var script := Script(groups, patchOf);
    var blocks := Blocks(groups, patchOf);
    ScriptAt(groups, patchOf, 0, 0);
    assert script[..1] == [StashPush];
    FirstFailureFromStart(ok, script, 1);
    ScriptAt(groups, patchOf, 1, 0);
    FirstFailureFromStart(ok', script, 5);
  }

  /** Command `4 * i + s + 1` of the script is step `s` of group `i`, after the commands before it. */
  lemma ScriptAt(groups: seq<HunkGroup>, patchOf: seq<Hunk> -> string, i: nat, s: nat)
    requires i < |groups| && s < 4
    ensures var f := 4 * i + s + 1;
      f < |Script(groups, patchOf)| &&
      Script(groups, patchOf)[..f] == Before(groups, patchOf, i, s) &&
      Script(groups, patchOf)[f] == GroupSteps(groups, patchOf, i)[s]
  {
    var script := Script(groups, patchOf);
    var f := 4 * i + s + 1;
    ScriptFront(StashPush, Blocks(groups, patchOf), i, s);
    ScriptFront(StashPush, Blocks(groups, patchOf), i, s + 1);
    assert script[f] == script[..f + 1][f];
    assert GroupSteps(groups, patchOf, i)[..s + 1][s] == GroupSteps(groups, patchOf, i)[s];
  }
}
