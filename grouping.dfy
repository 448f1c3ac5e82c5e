/**
 * The greedy grouping both `ClusterHunks` snapshots run over their hunks (split/cluster.go and
 * semantics/cluster.go): a pass over the indices with a `used` array, where every index not yet
 * used becomes the seed of a new group and absorbs every later unused index that `joins` it.
 * Which pairs join (a similarity at or above the threshold) is a parameter; the two cluster
 * modules supply it.
 */
module Grouping {

  /** What one seed's inner loop produces: the indices it absorbed, in order, and the new `used`. */
  datatype Pass = Pass(group: seq<nat>, used: seq<bool>)

  /** The inner loop for seed `i` from candidate `j` on, with `used` the marks so far. */
  function AbsorbFrom(n: nat, joins: (nat, nat) -> bool, used: seq<bool>, i: nat, j: nat): (p: Pass)
    requires |used| == n
    ensures |p.used| == n
    decreases n - j
  {
    if j >= n then Pass([], used)
    else if !used[j] && joins(i, j) then
      var p := AbsorbFrom(n, joins, used[j := true], i, j + 1);
      Pass([j] + p.group, p.used)
    else AbsorbFrom(n, joins, used, i, j + 1)
  }

  /** The groups the outer loop builds from seed candidate `i` on, with `used` the marks so far. */
  function Groups(n: nat, joins: (nat, nat) -> bool, used: seq<bool>, i: nat): seq<seq<nat>>
    requires |used| == n
    decreases n - i
  {
    if i >= n then []
    else if used[i] then Groups(n, joins, used, i + 1)
    else
      var p := AbsorbFrom(n, joins, used[i := true], i, i + 1);
      [[i] + p.group] + Groups(n, joins, p.used, i + 1)
  }

  /** `n` marks, none set: `make([]bool, n)`. */
  function NoneUsed(n: nat): (used: seq<bool>)
    ensures |used| == n && forall k :: 0 <= k < n ==> !used[k]
  {
    seq(n, _ => false)
  }

  /** The groups of `n` hunks: the outer loop from index 0 with nothing used. */
  function Greedy(n: nat, joins: (nat, nat) -> bool): seq<seq<nat>>
  {
    Groups(n, joins, NoneUsed(n), 0)
  }

  /**
   * The two loops of `ClusterHunks` over the indices, with `used` an array written in place.
   * `Greedy` and the lemmas below say which groups they build.
   */
  method Partition(n: nat, joins: (nat, nat) -> bool) returns (groups: seq<seq<nat>>)
    ensures groups == Greedy(n, joins)
  {
    var used := new bool[n](_ => false);
    assert used[..] == NoneUsed(n);
    groups := [];
    var i := 0;
    while i < n
      invariant 0 <= i <= n
      invariant groups + Groups(n, joins, used[..], i) == Greedy(n, joins)
    {
      if !used[i] {
        ghost var before := used[..];
        used[i] := true;
        assert used[..] == before[i := true];
        var absorbed := Absorb(used, joins, i);
        var group := [i] + absorbed;
        assert Groups(n, joins, before, i) == [group] + Groups(n, joins, used[..], i + 1);
        groups := groups + [group];
      }
      i := i + 1;
    }
  }

  /** The inner loop for the seed `i`: marks and returns the later unused indices that join it. */
  method Absorb(used: array<bool>, joins: (nat, nat) -> bool, i: nat) returns (group: seq<nat>)
    modifies used
    ensures AbsorbFrom(used.Length, joins, old(used[..]), i, i + 1) == Pass(group, used[..])
  {
    var n := used.Length;
    ghost var start := used[..];
    group := [];
    var j := i + 1;
    while j < n
      invariant j >= i + 1
      invariant AbsorbFrom(n, joins, start, i, i + 1) ==
        var p := AbsorbFrom(n, joins, used[..], i, j); Pass(group + p.group, p.used)
    {
      if !used[j] && joins(i, j) {
        ghost var u := used[..];
        group := group + [j];
        used[j] := true;
        assert used[..] == u[j := true];
      }
      j := j + 1;
    }
  }

  // ---------------------------------------------------------------------------------------------
  // What one seed absorbs

  /** The elements of `s` in order, strictly increasing. */
  predicate Increasing(s: seq<nat>) {
    forall a, b :: 0 <= a < b < |s| ==> s[a] < s[b]
  }

  /** Seed `i` absorbs exactly the candidates from `j` on that are unused and join it. */
  lemma {:induction false} AbsorbMembers(n: nat, joins: (nat, nat) -> bool, used: seq<bool>, i: nat, j: nat)
    requires |used| == n
    ensures forall x :: x in AbsorbFrom(n, joins, used, i, j).group <==> j <= x < n && !used[x] && joins(i, x)
    decreases n - j
  {
    if j < n {
      if !used[j] && joins(i, j) {
        AbsorbMembers(n, joins, used[j := true], i, j + 1);
      } else {
        AbsorbMembers(n, joins, used, i, j + 1);
      }
    }
  }

  /** What seed `i` absorbs comes in increasing order, from `j` on. */
  lemma {:induction false} AbsorbIncreasing(n: nat, joins: (nat, nat) -> bool, used: seq<bool>, i: nat, j: nat)
    requires |used| == n
    ensures Increasing(AbsorbFrom(n, joins, used, i, j).group)
    ensures forall x :: x in AbsorbFrom(n, joins, used, i, j).group ==> j <= x
    decreases n - j
  {
    if j < n {
      if !used[j] && joins(i, j) {
        var g := AbsorbFrom(n, joins, used[j := true], i, j + 1).group;
        AbsorbIncreasing(n, joins, used[j := true], i, j + 1);
        var s := [j] + g;
        assert AbsorbFrom(n, joins, used, i, j).group == s;
        assert Increasing(s) by {
          forall a, b | 0 <= a < b < |s| ensures s[a] < s[b] {
            assert s[b] == g[b - 1] && g[b - 1] in g;
            if a > 0 {
              assert s[a] == g[a - 1];
            }
          }
        }
      } else {
        AbsorbIncreasing(n, joins, used, i, j + 1);
      }
    }
  }

  /** After the pass, exactly the indices used before and the absorbed ones are used. */
  lemma {:induction false} AbsorbMarks(n: nat, joins: (nat, nat) -> bool, used: seq<bool>, i: nat, j: nat)
    requires |used| == n
    ensures var p := AbsorbFrom(n, joins, used, i, j);
      forall k :: 0 <= k < n ==> p.used[k] == (used[k] || k in p.group)
    decreases n - j
  {
    if j < n {
      if !used[j] && joins(i, j) {
        AbsorbMarks(n, joins, used[j := true], i, j + 1);
      } else {
        AbsorbMarks(n, joins, used, i, j + 1);
      }
    }
  }

  // ---------------------------------------------------------------------------------------------
  // Every index in exactly one group

  /** The unused indices from `j` on, in order. */
  function Unused(n: nat, used: seq<bool>, j: nat): seq<nat>
    requires |used| == n
    decreases n - j
  {
    if j >= n then []
    else if used[j] then Unused(n, used, j + 1)
    else [j] + Unused(n, used, j + 1)
  }

  /** The groups one after another. */
  function Flatten(groups: seq<seq<nat>>): seq<nat>
  {
    if groups == [] then [] else groups[0] + Flatten(groups[1..])
  }

  lemma {:induction false} UnusedCount(n: nat, used: seq<bool>, j: nat, x: nat)
    requires |used| == n
    ensures multiset(Unused(n, used, j))[x] == if j <= x < n && !used[x] then 1 else 0
    decreases n - j, 1
  {
    if j < n {
      if used[j] {
        UsedSkipped(n, used, j, x);
      } else {
        FreeListed(n, used, j, x);
      }
    }
  }

  lemma {:induction false} UsedSkipped(n: nat, used: seq<bool>, j: nat, x: nat)
    requires |used| == n && j < n && used[j]
    ensures multiset(Unused(n, used, j))[x] == if j <= x < n && !used[x] then 1 else 0
    decreases n - j, 0
  {
    UnusedCount(n, used, j + 1, x);
    assert Unused(n, used, j) == Unused(n, used, j + 1);
  }

  lemma {:induction false} FreeListed(n: nat, used: seq<bool>, j: nat, x: nat)
    requires |used| == n && j < n && !used[j]
    ensures multiset(Unused(n, used, j))[x] == if j <= x < n && !used[x] then 1 else 0
    decreases n - j, 0
  {
    var more := Unused(n, used, j + 1);
    UnusedCount(n, used, j + 1, x);
    assert Unused(n, used, j) == [j] + more;
    CountAppend([j], more, x);
    assert multiset([j])[x] == if x == j then 1 else 0;
  }

  lemma CountAppend(a: seq<nat>, b: seq<nat>, x: nat)
    ensures multiset(a + b)[x] == multiset(a)[x] + multiset(b)[x]
  {
  }

  /** The unused indices are split between the absorbed ones and those still unused afterwards. */
  lemma AbsorbSplits(n: nat, joins: (nat, nat) -> bool, used: seq<bool>, i: nat, j: nat, x: nat)
    requires |used| == n
    ensures var p := AbsorbFrom(n, joins, used, i, j);
      multiset(Unused(n, used, j))[x] == multiset(p.group)[x] + multiset(Unused(n, p.used, j))[x]
  {
    var p := AbsorbFrom(n, joins, used, i, j);
    UnusedCount(n, used, j, x);
    UnusedCount(n, p.used, j, x);
    AbsorbMembers(n, joins, used, i, j);
    AbsorbIncreasing(n, joins, used, i, j);
    AbsorbMarks(n, joins, used, i, j);
    OnceIfIncreasing(p.group, x);
  }

  /** An element of an increasing sequence occurs in it once. */
  lemma {:induction false} OnceIfIncreasing(s: seq<nat>, x: nat)
    requires Increasing(s)
    ensures multiset(s)[x] == if x in s then 1 else 0
  {
    if s != [] {
      assert Increasing(s[1..]) by {
        forall a, b | 0 <= a < b < |s[1..]| ensures s[1..][a] < s[1..][b] {
          assert s[1..][a] == s[a + 1] && s[1..][b] == s[b + 1];
        }
      }
      OnceIfIncreasing(s[1..], x);
      assert s == [s[0]] + s[1..];
      if x == s[0] {
        assert x !in s[1..] by {
          forall b | 0 <= b < |s[1..]| ensures s[1..][b] != x {
            assert s[1..][b] == s[b + 1];
          }
        }
      }
    }
  }

  lemma FlattenCons(g: seq<nat>, rest: seq<seq<nat>>)
    ensures Flatten([g] + rest) == g + Flatten(rest)
  {
    assert ([g] + rest)[1..] == rest;
  }

  /** Seed `i` is unused: it and what it absorbs are the unused indices it takes. */
  lemma SeedSplits(n: nat, joins: (nat, nat) -> bool, used: seq<bool>, i: nat, x: nat)
    requires |used| == n && i < n && !used[i]
    ensures var p := AbsorbFrom(n, joins, used[i := true], i, i + 1);
      multiset(Unused(n, used, i))[x] == multiset([i] + p.group)[x] + multiset(Unused(n, p.used, i + 1))[x]
  {
    var u := used[i := true];
    var p := AbsorbFrom(n, joins, u, i, i + 1);
    AbsorbSplits(n, joins, u, i, i + 1, x);
    UnusedCount(n, used, i, x);
    UnusedCount(n, u, i + 1, x);
    CountAppend([i], p.group, x);
  }

  /** The step of `FlattenCount` at an unused seed, given the count for the groups after it. */
  lemma SeedCount(n: nat, joins: (nat, nat) -> bool, used: seq<bool>, i: nat, x: nat)
    requires |used| == n && i < n && !used[i]
    requires var p := AbsorbFrom(n, joins, used[i := true], i, i + 1);
      multiset(Flatten(Groups(n, joins, p.used, i + 1)))[x] == multiset(Unused(n, p.used, i + 1))[x]
    ensures multiset(Flatten(Groups(n, joins, used, i)))[x] == multiset(Unused(n, used, i))[x]
  {
    var p := AbsorbFrom(n, joins, used[i := true], i, i + 1);
    var g: seq<nat> := [i] + p.group;
    var rest := Groups(n, joins, p.used, i + 1);
    assert multiset(Flatten(Groups(n, joins, used, i)))[x] == multiset(g)[x] + multiset(Flatten(rest))[x] by {
      assert Groups(n, joins, used, i) == [g] + rest;
      FlattenCons(g, rest);
      CountAppend(g, Flatten(rest), x);
    }
    SeedSplits(n, joins, used, i, x);
  }

  /** The step of `FlattenCount` at a used index: it is skipped. */
  lemma UsedCount(n: nat, joins: (nat, nat) -> bool, used: seq<bool>, i: nat, x: nat)
    requires |used| == n && i < n && used[i]
    requires multiset(Flatten(Groups(n, joins, used, i + 1)))[x] == multiset(Unused(n, used, i + 1))[x]
    ensures multiset(Flatten(Groups(n, joins, used, i)))[x] == multiset(Unused(n, used, i))[x]
  {
    assert Groups(n, joins, used, i) == Groups(n, joins, used, i + 1);
    assert Unused(n, used, i) == Unused(n, used, i + 1);
  }

  lemma {:induction false} FlattenCount(n: nat, joins: (nat, nat) -> bool, used: seq<bool>, i: nat, x: nat)
    requires |used| == n
    ensures multiset(Flatten(Groups(n, joins, used, i)))[x] == multiset(Unused(n, used, i))[x]
    decreases n - i, 1
  {
    if i < n {
      if used[i] {
        UsedStep(n, joins, used, i, x);
      } else {
        SeedStep(n, joins, used, i, x);
      }
    }
  }

  lemma {:induction false} UsedStep(n: nat, joins: (nat, nat) -> bool, used: seq<bool>, i: nat, x: nat)
    requires |used| == n && i < n && used[i]
    ensures multiset(Flatten(Groups(n, joins, used, i)))[x] == multiset(Unused(n, used, i))[x]
    decreases n - i, 0
  {
    FlattenCount(n, joins, used, i + 1, x);
    UsedCount(n, joins, used, i, x);
  }

  lemma {:induction false} SeedStep(n: nat, joins: (nat, nat) -> bool, used: seq<bool>, i: nat, x: nat)
    requires |used| == n && i < n && !used[i]
    ensures multiset(Flatten(Groups(n, joins, used, i)))[x] == multiset(Unused(n, used, i))[x]
    decreases n - i, 0
  {
    var p := AbsorbFrom(n, joins, used[i := true], i, i + 1);
    FlattenCount(n, joins, p.used, i + 1, x);
    SeedCount(n, joins, used, i, x);
  }

  /** The groups partition the indices: each index below `n` is in exactly one group, once. */
  lemma GreedyPartition(n: nat, joins: (nat, nat) -> bool, x: nat)
    ensures multiset(Flatten(Greedy(n, joins)))[x] == if x < n then 1 else 0
  {
    FlattenCount(n, joins, NoneUsed(n), 0, x);
    UnusedCount(n, NoneUsed(n), 0, x);
  }

  // ---------------------------------------------------------------------------------------------
  // Order and membership

  /**
   * Every group is non-empty and increasing with its seed in `[lo, n)`, and the seeds increase
   * from group to group.
   */
  predicate Ordered(gs: seq<seq<nat>>, lo: nat, n: nat) {
    (forall a :: 0 <= a < |gs| ==> gs[a] != [] && Increasing(gs[a]) && lo <= gs[a][0] < n) &&
    (forall a, b :: 0 <= a < b < |gs| ==> gs[a][0] < gs[b][0])
  }

  lemma OrderedCons(g: seq<nat>, rest: seq<seq<nat>>, lo: nat, n: nat)
    requires g != [] && Increasing(g) && g[0] == lo < n
    requires Ordered(rest, lo + 1, n)
    ensures Ordered([g] + rest, lo, n)
  {
    var gs := [g] + rest;
    assert forall a :: 0 < a < |gs| ==> gs[a] == rest[a - 1];
  }

  lemma OrderedWeaker(gs: seq<seq<nat>>, lo: nat, n: nat)
    requires Ordered(gs, lo + 1, n)
    ensures Ordered(gs, lo, n)
  {
  }

  lemma SeedGroupIncreasing(n: nat, joins: (nat, nat) -> bool, used: seq<bool>, i: nat)
    requires |used| == n
    ensures Increasing([i] + AbsorbFrom(n, joins, used, i, i + 1).group)
  {
    var h := AbsorbFrom(n, joins, used, i, i + 1).group;
    var g := [i] + h;
    AbsorbIncreasing(n, joins, used, i, i + 1);
    forall a, b | 0 <= a < b < |g| ensures g[a] < g[b] {
      assert g[b] == h[b - 1] && h[b - 1] in h;
      if a > 0 {
        assert g[a] == h[a - 1];
      }
    }
  }

  lemma {:induction false} GroupsOrder(n: nat, joins: (nat, nat) -> bool, used: seq<bool>, i: nat)
    requires |used| == n
    ensures Ordered(Groups(n, joins, used, i), i, n)
    decreases n - i
  {
    if i < n {
      if used[i] {
        GroupsOrder(n, joins, used, i + 1);
        OrderedWeaker(Groups(n, joins, used, i + 1), i, n);
      } else {
        var p := AbsorbFrom(n, joins, used[i := true], i, i + 1);
        var rest := Groups(n, joins, p.used, i + 1);
        GroupsOrder(n, joins, p.used, i + 1);
        SeedGroupIncreasing(n, joins, used[i := true], i);
        OrderedCons([i] + p.group, rest, i, n);
      }
    }
  }

  /**
   * Membership of the group seeded by `s`: `s` itself, and every later index that joins `s` and
   * that no earlier group took.
   */
  lemma {:induction false} GroupsMembers(n: nat, joins: (nat, nat) -> bool, used: seq<bool>, i: nat, k: nat, x: nat)
    requires |used| == n
    requires k < |Groups(n, joins, used, i)|
    ensures Groups(n, joins, used, i)[k] != []
    ensures var gs := Groups(n, joins, used, i);
      x in gs[k] <==>
        x == gs[k][0] ||
        (gs[k][0] < x < n && !used[x] && joins(gs[k][0], x) && forall m :: 0 <= m < k ==> x !in gs[m])
    decreases n - i
  {
    var gs := Groups(n, joins, used, i);
    assert i < n;
    if used[i] {
      GroupsMembers(n, joins, used, i + 1, k, x);
    } else {
      var u := used[i := true];
      var p := AbsorbFrom(n, joins, u, i, i + 1);
      var g: seq<nat> := [i] + p.group;
      var rest := Groups(n, joins, p.used, i + 1);
      assert gs == [g] + rest;
      AbsorbMembers(n, joins, u, i, i + 1);
      if k > 0 {
        GroupsMembers(n, joins, p.used, i + 1, k - 1, x);
        assert gs[k] == rest[k - 1];
        var s := gs[k][0];
        if forall m :: 0 <= m < k ==> x !in gs[m] {
          assert x !in gs[0];
          forall m | 0 <= m < k - 1 ensures x !in rest[m] {
            assert rest[m] == gs[m + 1];
          }
        }
        if x !in g && forall m :: 0 <= m < k - 1 ==> x !in rest[m] {
          forall m | 0 <= m < k ensures x !in gs[m] {
            if m > 0 {
              assert gs[m] == rest[m - 1];
            }
          }
        }
        if s < x < n {
          AbsorbMarks(n, joins, u, i, i + 1);
          assert p.used[x] == (used[x] || x in g);
        }
      }
    }
  }

  /**
   * The groups of `Greedy`: hunk `x` is in the group seeded by `s` iff `x` is `s`, or `x` comes
   * after `s`, joins `s` and is in no earlier group.
   */
  lemma GreedyMembers(n: nat, joins: (nat, nat) -> bool, k: nat, x: nat)
    requires k < |Greedy(n, joins)|
    ensures var gs := Greedy(n, joins);
      gs[k] != [] &&
      (x in gs[k] <==>
        x == gs[k][0] || (gs[k][0] < x < n && joins(gs[k][0], x) && forall m :: 0 <= m < k ==> x !in gs[m]))
  {
    GroupsMembers(n, joins, NoneUsed(n), 0, k, x);
  }

  /** Within a group the indices increase, and across groups the seeds increase. */
  lemma GreedyOrder(n: nat, joins: (nat, nat) -> bool)
    ensures Ordered(Greedy(n, joins), 0, n)
  {
    GroupsOrder(n, joins, NoneUsed(n), 0);
  }

  /** Every index in a group is below `n`. */
  lemma GreedyBounded(n: nat, joins: (nat, nat) -> bool)
    ensures var gs := Greedy(n, joins);
      forall a, k :: 0 <= a < |gs| && 0 <= k < |gs[a]| ==> gs[a][k] < n
  {
    var gs := Greedy(n, joins);
    GreedyOrder(n, joins);
    forall a, k | 0 <= a < |gs| && 0 <= k < |gs[a]| ensures gs[a][k] < n {
      GreedyMembers(n, joins, a, gs[a][k]);
    }
  }
  /**
   * Whether the pass compares hunk `j` with the seed of group `k`: `j` comes after that seed and
   * no earlier group took it, so it is still unused when the seed's inner loop reaches it.
   */
  predicate Candidate(gs: seq<seq<nat>>, n: nat, k: nat, j: nat) {
    k < |gs| && gs[k] != [] && gs[k][0] < j < n && forall m :: 0 <= m < k ==> j !in gs[m]
  }

  /** With at least one hunk, index 0 seeds the first group. */
  lemma GreedyFirstSeed(n: nat, joins: (nat, nat) -> bool)
    requires n > 0
    ensures |Greedy(n, joins)| > 0 && Greedy(n, joins)[0] != [] && Greedy(n, joins)[0][0] == 0
  {
    var used := NoneUsed(n);
    assert !used[0];
    var p := AbsorbFrom(n, joins, used[0 := true], 0, 1);
    assert Greedy(n, joins) == [[0] + p.group] + Groups(n, joins, p.used, 1);
  }

  /**
   * When index 0 joins every later index, the first seed's pass takes them all, so it is the
   * only seed compared with anything.
   */
  lemma FirstSeedTakesAll(n: nat, joins: (nat, nat) -> bool, k: nat, j: nat)
    requires n > 0 && forall x :: 0 < x < n ==> joins(0, x)
    requires Candidate(Greedy(n, joins), n, k, j)
    ensures k == 0 && Greedy(n, joins)[0][0] == 0
  {
    var gs := Greedy(n, joins);
    GreedyFirstSeed(n, joins);
    GreedyOrder(n, joins);
    if k > 0 {
      assert gs[0][0] < gs[k][0] < j;
      GreedyMembers(n, joins, 0, j);
      assert false;
    }
  }
}
