/**
 * `ApplyGroups` in the current snapshot (split/apply.go): stash what is not staged, then for
 * every group reset the index, write the group's patch to a numbered file, apply it to the index
 * and commit it with the group's message, and finally pop the stash. The `success` flag and the
 * deferred calls decide what runs on the way out: the patch files written so far are removed
 * (their removals were deferred one per group, so they run newest first), and the stash is
 * popped by the deferred closure only when the loop did not finish.
 */
module SplitApply {
  import opened Results
  import opened Strings
  import opened GitSteps
  import opened Clustering
  import SplitCluster

  /** Why `ApplyGroups` returned an error; a failed step names the 1-based group it failed in. */
  datatype ApplyError = NoGroups | StashFailed | StepFailed(step: Step, ordinal: nat)

  const StashPush: Command :=
    Git(["stash", "push", "--include-untracked", "--keep-index", "--quiet", "-m", "gix-split-temp"])

  const StashPop: Command := Git(["stash", "pop", "--quiet"])

  const ResetIndex: Command := Git(["reset", "--quiet"])

  function ApplyCached(path: string): Command
  {
    Git(["apply", "--cached", path])
  }

  function CommitWith(message: string): Command
  {
    Git(["commit", "-m", message])
  }

  /** The name of group `i`'s patch file in the temporary directory. */
  function PatchName(i: nat): string
  {
    "gix_split_" + Itoa(i) + ".patch"
  }

  /** The four commands run for group `i` when they all succeed: reset, write, apply, commit. */
  function GroupSteps(groups: seq<HunkGroup>, i: nat): (steps: seq<Command>)
    requires i < |groups|
    ensures |steps| == 4
  {
    [ResetIndex, WriteFile(PatchName(i), SplitCluster.Patch(groups[i].hunks)),
     ApplyCached(PatchName(i)), CommitWith(groups[i].message)]
  }

  /** The steps of every group, one block per group. */
  function Blocks(groups: seq<HunkGroup>): (blocks: seq<seq<Command>>)
    ensures |blocks| == |groups| && Fours(blocks)
    ensures forall i :: 0 <= i < |groups| ==> blocks[i] == GroupSteps(groups, i)
  {
    seq(|groups|, i requires 0 <= i < |groups| => GroupSteps(groups, i))
  }

  /** Every command the function issues when nothing fails, before the final pop: the stash, then four steps per group. */
  function Script(groups: seq<HunkGroup>): (script: seq<Command>)
    ensures |script| == 1 + 4 * |groups|
  {
    FlattenLength(Blocks(groups), |groups|);
    ScriptOf(StashPush, Blocks(groups))
  }

  /** The deferred removals of the first `m` patch files, newest first. */
  function Removals(m: nat): (removals: seq<Command>)
    ensures |removals| == m
  {
    seq(m, j requires 0 <= j < m => Remove(PatchName(m - 1 - j)))
  }

  /**
   * What the deferred calls issue on the way out, with `written` patch files registered for
   * removal: the removals, newest first, then the closure's pop unless `success` was set.
   */
  function Deferred(written: nat, success: bool): seq<Command>
  {
    Removals(written) + (if success then [] else [StashPop])
  }

  /**
   * What `ApplyGroups` returns and issues. With `f` the first command of the script that fails:
   * none fails, and the stash is popped and the patch files removed; the stash fails, and
   * nothing else happens; or a step of group `i` fails, the patch files written so far are
   * removed and the stash is popped.
   */
  function Outcome(groups: seq<HunkGroup>, ok: Outcomes): (Option<ApplyError>, seq<Command>)
  {
    if groups == [] then (Some(NoGroups), [])
    else Verdict(groups, Script(groups), FirstFailure(ok, [], Script(groups)))
  }

  /** The outcome for a non-empty list of groups whose script first fails at command `f`. */
  function Verdict(groups: seq<HunkGroup>, script: seq<Command>, f: nat): (Option<ApplyError>, seq<Command>)
    requires |script| == 1 + 4 * |groups| && f <= |script|
  {
    if f == 0 then (Some(StashFailed), [StashPush])
    else if f < |script| then
      var i, s := (f - 1) / 4, (f - 1) % 4;
      (Some(StepFailed(StepAt(s), i + 1)), script[..f + 1] + Deferred(if s < 2 then i else i + 1, false))
    else (None, script + [StashPop] + Deferred(|groups|, true))
  }

  /** The script up to step `s` of group `i`. */
  function Before(groups: seq<HunkGroup>, i: nat, s: nat): seq<Command>
    requires i < |groups| && s <= 4
  {
    [StashPush] + Flatten(Blocks(groups), i) + GroupSteps(groups, i)[..s]
  }

  /**
   * `after` ends with step `s` of group `i`, which failed, and every command before it
   * succeeded.
   */
  predicate FailedAt(groups: seq<HunkGroup>, ok: Outcomes, i: nat, s: nat, after: seq<Command>)
    requires i < |groups| && s < 4
  {
    AllSucceeded(ok, Before(groups, i, s)) && !ok(Before(groups, i, s), GroupSteps(groups, i)[s]) &&
    after == Before(groups, i, s) + [GroupSteps(groups, i)[s]]
  }

  /** The outcome when step `s` of group `i` is the first command that fails. */
  lemma FailsAt(groups: seq<HunkGroup>, ok: Outcomes, i: nat, s: nat, after: seq<Command>)
    requires i < |groups| && s < 4
    requires FailedAt(groups, ok, i, s, after)
    ensures Outcome(groups, ok) ==
      (Some(StepFailed(StepAt(s), i + 1)), after + Deferred(if s < 2 then i else i + 1, false))
  {
    FailsInBlock(ok, StashPush, Blocks(groups), i, s, Before(groups, i, s));
    OutcomeAt(groups, ok, i, s, after);
  }

  /** The outcome when command `1 + 4 * i + s` is the first that fails, and `done` the script up to it. */
  lemma OutcomeAt(groups: seq<HunkGroup>, ok: Outcomes, i: nat, s: nat, done: seq<Command>)
    requires i < |groups| && s < 4
    requires FirstFailure(ok, [], Script(groups)) == 1 + 4 * i + s
    requires Script(groups)[..2 + 4 * i + s] == done
    ensures Outcome(groups, ok) == (Some(StepFailed(StepAt(s), i + 1)), done + Deferred(if s < 2 then i else i + 1, false))
  {
    VerdictAt(groups, Script(groups), i, s, done);
  }

  /** The verdict for a failure at step `s` of group `i`, when the script up to it is `done`. */
  lemma VerdictAt(groups: seq<HunkGroup>, script: seq<Command>, i: nat, s: nat, done: seq<Command>)
    requires i < |groups| && s < 4 && |script| == 1 + 4 * |groups|
    requires script[..2 + 4 * i + s] == done
    ensures Verdict(groups, script, 1 + 4 * i + s) ==
      (Some(StepFailed(StepAt(s), i + 1)), done + Deferred(if s < 2 then i else i + 1, false))
  {
    var f := 1 + 4 * i + s;
    assert (f - 1) / 4 == i && (f - 1) % 4 == s;
  }

  /** The outcome when no command of the script fails. */
  lemma Completes(groups: seq<HunkGroup>, ok: Outcomes, trace: seq<Command>)
    requires groups != []
    requires trace == Script(groups) && AllSucceeded(ok, trace)
    ensures Outcome(groups, ok) == (None, trace + [StashPop] + Deferred(|groups|, true))
  {
    NeverFails(ok, StashPush, Blocks(groups), trace);
    FlattenLength(Blocks(groups), |groups|);
  }

  /**
   * Issue `c` after `trace`, and say whether it succeeded. Together with the loop below this is
   * the sequence of `exec.Command(...).Run()` and `os.WriteFile` calls.
   */
  method Issue(trace: seq<Command>, c: Command, ok: Outcomes) returns (succeeded: bool, after: seq<Command>)
    ensures succeeded == ok(trace, c) && after == trace + [c]
  {
    succeeded := ok(trace, c);
    after := trace + [c];
  }

  /** `ApplyGroups`, with the oracle `ok` deciding which command fails. */
  method ApplyGroups(groups: seq<HunkGroup>, ok: Outcomes) returns (err: Option<ApplyError>, trace: seq<Command>)
    ensures groups == [] ==> err == Some(NoGroups) && trace == []
    ensures (err, trace) == Outcome(groups, ok)
  {
    if |groups| == 0 {
      return Some(NoGroups), [];
    }
    var stashed;
    stashed, trace := Issue([], StashPush, ok);
    if !stashed {
      FailsFirst(ok, StashPush, Blocks(groups));
      assert trace == [StashPush];
      return Some(StashFailed), trace;
    }
    assert AllSucceeded(ok, trace) by {
      AllSucceededOneMore(ok, [], StashPush);
    }
    var success := false;
    var written: nat := 0;
    for i := 0 to |groups|
      invariant trace == [StashPush] + Flatten(Blocks(groups), i) && AllSucceeded(ok, trace)
      invariant written == i && !success
    {
      var failed;
      BeforeGroup(groups, i);
      failed, trace, written := CommitGroup(groups, ok, i, trace, written);
      if failed.Some? {
        FailsAt(groups, ok, i, Ordinal(failed.value), trace);
        return Some(StepFailed(failed.value, i + 1)), trace + Deferred(written, success);
      }
    }
    success := true;
    Completes(groups, ok, trace);
    // The pop's own outcome is only reported as a warning.
    trace := trace + [StashPop];
    return None, trace + Deferred(written, success);
  }

  /**
   * The body of the loop for group `i`: reset, write the patch file (and defer its removal),
   * apply it to the index, commit. It stops at the first step that fails and names it.
   */
  method CommitGroup(groups: seq<HunkGroup>, ok: Outcomes, i: nat, trace: seq<Command>, written: nat)
    returns (failed: Option<Step>, after: seq<Command>, registered: nat)
    requires i < |groups| && written == i
    requires trace == Before(groups, i, 0) && AllSucceeded(ok, trace)
    ensures failed.None? ==> after == Before(groups, i, 4) && AllSucceeded(ok, after) && registered == i + 1
    ensures failed.Some? ==>
      var s := Ordinal(failed.value);
      FailedAt(groups, ok, i, s, after) && registered == if s < 2 then i else i + 1
  {
    registered := written;
    var fine;
    fine, after := RunStep(groups, ok, i, 0, trace, ResetIndex);
    if !fine {
      return Some(Reset), after, registered;
    }
    var patch := SplitCluster.JoinPatch(groups[i].hunks);
    var tmpPath := PatchName(i);
    fine, after := RunStep(groups, ok, i, 1, after, WriteFile(tmpPath, patch));
    if !fine {
      return Some(WritePatch), after, registered;
    }
    registered := registered + 1;
    fine, after := RunStep(groups, ok, i, 2, after, ApplyCached(tmpPath));
    if !fine {
      return Some(ApplyPatch), after, registered;
    }
    fine, after := RunStep(groups, ok, i, 3, after, CommitWith(groups[i].message));
    if !fine {
      return Some(Commit), after, registered;
    }
    failed := None;
  }

  /** Group `i`'s steps start after the earlier groups' steps, and end where group `i + 1`'s start. */
  lemma BeforeGroup(groups: seq<HunkGroup>, i: nat)
    requires i < |groups|
    ensures Before(groups, i, 0) == [StashPush] + Flatten(Blocks(groups), i)
    ensures Before(groups, i, 4) == [StashPush] + Flatten(Blocks(groups), i + 1)
  {
    assert GroupSteps(groups, i)[..0] == [];
    assert GroupSteps(groups, i)[..4] == Blocks(groups)[i];
  }

  /** Issue `c`, step `s` of group `i`, after every earlier command of the script succeeded. */
  method RunStep(groups: seq<HunkGroup>, ok: Outcomes, i: nat, s: nat, trace: seq<Command>, c: Command)
    returns (fine: bool, after: seq<Command>)
    requires i < |groups| && s < 4 && c == GroupSteps(groups, i)[s]
    requires trace == Before(groups, i, s) && AllSucceeded(ok, trace)
    ensures fine ==> after == Before(groups, i, s + 1) && AllSucceeded(ok, after)
    ensures !fine ==> FailedAt(groups, ok, i, s, after)
  {
    fine, after := Issue(trace, c, ok);
    if fine {
      AllSucceededOneMore(ok, trace, c);
      assert GroupSteps(groups, i)[..s + 1] == GroupSteps(groups, i)[..s] + [c];
    }
  }

  // ---------------------------------------------------------------------------------------------
  // What the outcome promises

  /** Group `i`'s patch file has a name of its own: no two indices share one. */
  lemma PatchNamesDistinct(i: nat, j: nat)
    requires PatchName(i) == PatchName(j)
    ensures i == j
  {
    NumberedNames("gix_split_", ".patch", i, j);
  }

  /** None of the steps of a group is the stash pop. */
  lemma StepsAreNotPop(groups: seq<HunkGroup>, i: nat)
    requires i < |groups|
    ensures forall t :: 0 <= t < 4 ==> GroupSteps(groups, i)[t] != StashPop
  {
    var pop := StashPop.args;
    assert pop[0] == "stash" && "stash"[0] == 's';
    assert |ResetIndex.args| != |pop|;
    assert ApplyCached(PatchName(i)).args[0] == "apply" && "apply"[0] == 'a';
    assert CommitWith(groups[i].message).args[0] == "commit" && "commit"[0] == 'c';
  }

  /** The script never pops the stash: only the calls on the way out do. */
  lemma ScriptHasNoPop(groups: seq<HunkGroup>)
    ensures Occurrences(Script(groups), StashPop) == 0
  {
    var blocks := Blocks(groups);
    forall j, t | 0 <= j < |blocks| && 0 <= t < |blocks[j]| ensures blocks[j][t] != StashPop {
      StepsAreNotPop(groups, j);
    }
    FlattenAvoids(blocks, |blocks|, StashPop);
    assert |StashPush.args| != |StashPop.args|;
    OccurrencesAppend([StashPush], Flatten(blocks, |blocks|), StashPop);
  }

  /** The deferred calls pop the stash once unless `success` was set, and never otherwise. */
  lemma DeferredPops(written: nat, success: bool)
    ensures Occurrences(Deferred(written, success), StashPop) == if success then 0 else 1
  {
    NoOccurrences(Removals(written), StashPop);
    OccurrencesAppend(Removals(written), if success then [] else [StashPop], StashPop);
    assert Occurrences([StashPop][1..], StashPop) == 0;
  }

  /**
   * After a stash push that succeeds the stash is popped exactly once, whichever way the groups
   * fare; after one that fails it is never popped.
   */
  lemma PopsOnce(groups: seq<HunkGroup>, ok: Outcomes)
    requires groups != []
    ensures Occurrences(Outcome(groups, ok).1, StashPop) == if ok([], StashPush) then 1 else 0
  {
    var script := Script(groups);
    ScriptHasNoPop(groups);
    VerdictPops(groups, script, FirstFailure(ok, [], script));
  }

  /** A failed stash push is not a pop. */
  lemma PushAlone()
    ensures Occurrences([StashPush], StashPop) == 0
  {
    assert |StashPush.args| != |StashPop.args|;
    assert [StashPush][1..] == [];
  }

  /** A pop-free script cut after its failing command, then the failure's deferred calls, pops once. */
  lemma FailurePops(script: seq<Command>, f: nat, written: nat)
    requires f < |script| && Occurrences(script, StashPop) == 0
    ensures Occurrences(script[..f + 1] + Deferred(written, false), StashPop) == 1
  {
    OccurrencesFront(script, f + 1, StashPop);
    DeferredPops(written, false);
    OccurrencesAppend(script[..f + 1], Deferred(written, false), StashPop);
  }

  /** A pop-free script, then the final pop and the removals, pops once. */
  lemma FinishPops(script: seq<Command>, written: nat)
    requires Occurrences(script, StashPop) == 0
    ensures Occurrences(script + [StashPop] + Deferred(written, true), StashPop) == 1
  {
    var tail := [StashPop] + Deferred(written, true);
    DeferredPops(written, true);
    assert tail[1..] == Deferred(written, true);
    OccurrencesAppend(script, tail, StashPop);
    assert script + [StashPop] + Deferred(written, true) == script + tail;
  }

  /** The verdict for a step that fails pops the stash once. */
  lemma StepVerdictPops(groups: seq<HunkGroup>, script: seq<Command>, f: nat)
    requires |script| == 1 + 4 * |groups| && 0 < f < |script|
    requires Occurrences(script, StashPop) == 0
    ensures Occurrences(Verdict(groups, script, f).1, StashPop) == 1
  {
    var i, s := (f - 1) / 4, (f - 1) % 4;
    FailurePops(script, f, if s < 2 then i else i + 1);
  }

  /** Every verdict but the stash failure pops the stash once, when the script itself never does. */
  lemma VerdictPops(groups: seq<HunkGroup>, script: seq<Command>, f: nat)
    requires |script| == 1 + 4 * |groups| && f <= |script|
    requires Occurrences(script, StashPop) == 0
    ensures Occurrences(Verdict(groups, script, f).1, StashPop) == if f == 0 then 0 else 1
  {
    if f == 0 {
      PushAlone();
    } else if f < |script| {
      StepVerdictPops(groups, script, f);
    } else {
      FinishPops(script, |groups|);
    }
  }

  /** The stash push fails exactly when the result says so; then only the push was issued. */
  lemma StashFailureAlone(groups: seq<HunkGroup>, ok: Outcomes)
    ensures Outcome(groups, ok).0 == Some(StashFailed) <==> groups != [] && !ok([], StashPush)
    ensures Outcome(groups, ok).0 == Some(StashFailed) ==> Outcome(groups, ok).1 == [StashPush]
  {
    if groups != [] {
      FirstFailureFromStartMeans(ok, Script(groups));
      assert Script(groups)[..0] == [];
    }
  }

  /**
   * `ApplyGroups` succeeds exactly when every command of the script succeeds, and then it has
   * issued the whole script, every group's four steps in group order, then the pop and the
   * removal of every patch file.
   */
  lemma SucceedsIff(groups: seq<HunkGroup>, ok: Outcomes)
    ensures Outcome(groups, ok).0 == None <==>
      groups != [] && Succeeded(ok, Script(groups), |Script(groups)|)
    ensures Outcome(groups, ok).0 == None ==>
      Outcome(groups, ok).1 == Script(groups) + [StashPop] + Removals(|groups|)
  {
    if groups != [] {
      var script := Script(groups);
      FirstFailureFromStartMeans(ok, script);
      if Succeeded(ok, script, |script|) {
        FirstFailureFromStart(ok, script, |script|);
      }
      assert Removals(|groups|) + [] == Removals(|groups|);
    }
  }

  /** The script holds group `k`'s four steps at commands `4 * k + 1` to `4 * k + 4`. */
  lemma CommitsInOrder(groups: seq<HunkGroup>, k: nat)
    requires k < |groups|
    ensures Script(groups)[4 * k + 1..4 * k + 5] == GroupSteps(groups, k)
  {
    var all := Flatten(Blocks(groups), |groups|);
    FlattenBlock(Blocks(groups), |groups|, k);
    assert Script(groups)[4 * k + 1..4 * k + 5] == all[4 * k..4 * k + 4];
  }

  /** Where a failing step sits in the script: command `4 * (k - 1) + s + 1`, the first that fails. */
  lemma FailurePosition(groups: seq<HunkGroup>, ok: Outcomes, step: Step, k: nat, trace: seq<Command>)
    requires Outcome(groups, ok) == (Some(StepFailed(step, k)), trace)
    ensures 1 <= k <= |groups|
    ensures var s := Ordinal(step);
      var f := 4 * (k - 1) + s + 1;
      f < |Script(groups)| && FirstFailure(ok, [], Script(groups)) == f &&
      trace == Script(groups)[..f + 1] + Deferred(if s < 2 then k - 1 else k, false)
  {
    var f := FirstFailure(ok, [], Script(groups));
    var i, s := (f - 1) / 4, (f - 1) % 4;
    assert f == 4 * i + s + 1 && k == i + 1 && step == StepAt(s);
    assert Ordinal(step) == s;
  }

  /**
   * When a step of group `k` fails: every command before it succeeded, and they are the stash
   * push, the four steps of each of groups 1 to `k - 1`, and the steps of group `k` before the
   * failing one; the failing command is that step; after it come only the removals of the patch
   * files written and the pop, so no later group is touched.
   */
  lemma StopsAtFirstFailure(groups: seq<HunkGroup>, ok: Outcomes, step: Step, k: nat, trace: seq<Command>)
    requires Outcome(groups, ok) == (Some(StepFailed(step, k)), trace)
    ensures 1 <= k <= |groups|
    ensures var s := Ordinal(step);
      var f := 4 * (k - 1) + s + 1;
      f < |trace| &&
      trace[..f] == Before(groups, k - 1, s) && trace[f] == GroupSteps(groups, k - 1)[s] &&
      Succeeded(ok, trace, f) && !ok(trace[..f], trace[f]) &&
      trace[f + 1..] == Deferred(if s < 2 then k - 1 else k, false)
  {
    FailurePosition(groups, ok, step, k, trace);
    FailedGroup(groups, ok, k - 1, Ordinal(step), trace);
  }

  /** `StopsAtFirstFailure` once the failure is placed: step `s` of group `i` fails first. */
  lemma FailedGroup(groups: seq<HunkGroup>, ok: Outcomes, i: nat, s: nat, trace: seq<Command>)
    requires i < |groups| && s < 4
    requires var f := 4 * i + s + 1;
      f < |Script(groups)| && FirstFailure(ok, [], Script(groups)) == f &&
      trace == Script(groups)[..f + 1] + Deferred(if s < 2 then i else i + 1, false)
    ensures var f := 4 * i + s + 1;
      f < |trace| &&
      trace[..f] == Before(groups, i, s) && trace[f] == GroupSteps(groups, i)[s] &&
      Succeeded(ok, trace, f) && !ok(trace[..f], trace[f]) &&
      trace[f + 1..] == Deferred(if s < 2 then i else i + 1, false)
  {
    var f := 4 * i + s + 1;
    FailedTrace(ok, Script(groups), trace, f, Deferred(if s < 2 then i else i + 1, false));
    ScriptAt(groups, i, s);
  }

  /** Command `4 * i + s + 1` of the script is step `s` of group `i`, after the commands before it. */
  lemma ScriptAt(groups: seq<HunkGroup>, i: nat, s: nat)
    requires i < |groups| && s < 4
    ensures var f := 4 * i + s + 1;
      f < |Script(groups)| &&
      Script(groups)[..f] == Before(groups, i, s) && Script(groups)[f] == GroupSteps(groups, i)[s]
  {
    var script := Script(groups);
    var f := 4 * i + s + 1;
    ScriptFront(StashPush, Blocks(groups), i, s);
    ScriptFront(StashPush, Blocks(groups), i, s + 1);
    assert script[f] == script[..f + 1][f];
    assert GroupSteps(groups, i)[..s + 1][s] == GroupSteps(groups, i)[s];
  }

  /**
   * The outcome depends only on what the oracle says about the script's own commands: the pop
   * after the last group, and the removals, are issued whatever becomes of them.
   */
  lemma PopIgnored(groups: seq<HunkGroup>, ok: Outcomes, ok': Outcomes)
    requires forall j :: 0 <= j < |Script(groups)| ==>
      ok(Script(groups)[..j], Script(groups)[j]) == ok'(Script(groups)[..j], Script(groups)[j])
    ensures Outcome(groups, ok) == Outcome(groups, ok')
  {
    var script := Script(groups);
    forall j | 0 <= j < |script| ensures [] + script[..j] == script[..j] {
    }
    FirstFailureAgree(ok, ok', [], script);
  }
}
