/**
  `solve_ucs` and `solve_astar`: best-first search over a `heapq` priority
  queue of entries, with a `cost_so_far` dictionary that lets a state be
  pushed again whenever a cheaper path to it turns up. The two solvers run
  the same loop; they differ only in the estimate added to the cost of an
  entry (none for UCS, the heuristic for A*), so they share it here and
  `informed` selects the estimate.
 */
module BestFirst {
  import opened Wrappers
  import opened StateSpace
  import opened Paths
  import opened Frontier

  /** What is added to the cost so far to order the heap: the heuristic for A*, nothing for UCS. */
  function Estimate(informed: bool, st: State): (h: nat)
    ensures h <= 4
    ensures st == Goal ==> h == 0
  {
    if informed then Heuristic(st) else 0
  }

  // ---------------------------------------------------------------------------
  // The invariant

  /**
    An entry as pushed: its path reaches its state with `g` crossings, its
    priority is `g` plus the estimate, and the cost recorded for its state is
    no more than `g`.
   */
  ghost predicate Sound(e: Entry, cost: map<State, nat>, informed: bool)
  {
    && Reaches(e.path, e.st) && |e.path| == e.g + 1
    && e.f == e.g + Estimate(informed, e.st)
    && e.st in cost && cost[e.st] <= e.g
  }

  ghost predicate AllSound(pq: seq<Entry>, cost: map<State, nat>, informed: bool)
  {
    forall i :: 0 <= i < |pq| ==> Sound(pq[i], cost, informed)
  }

  /** An entry for `x` at exactly its recorded cost is waiting in the heap. */
  ghost predicate Open(pq: seq<Entry>, cost: map<State, nat>, x: State)
  {
    x in cost && exists i :: 0 <= i < |pq| && pq[i].st == x && pq[i].g == cost[x]
  }

  /** Every successor of `x` has a recorded cost at most one more than that of `x`. */
  ghost predicate Settled(cost: map<State, nat>, x: State)
  {
    x in cost && forall t :: t in Successors(x) ==> t in cost && cost[t] <= cost[x] + 1
  }

  /**
    A state with a recorded cost is either still to be expanded at that
    cost, or was expanded at that cost (it is in `settled`).
   */
  ghost predicate Accounted(pq: seq<Entry>, cost: map<State, nat>, settled: set<State>, x: State)
  {
    Open(pq, cost, x) || (x in settled && Settled(cost, x))
  }

  /** What holds each time the `while pq` loop is about to pop. */
  ghost predicate Invariant(pq: seq<Entry>, cost: map<State, nat>, settled: set<State>, informed: bool)
  {
    && AllSound(pq, cost, informed)
    && Initial in cost && cost[Initial] == 0
    && (forall x :: x in cost ==> Accounted(pq, cost, settled, x))
    && Goal !in settled
  }

  /**
    What holds while the successors of the popped entry `node` are being
    relaxed; the first `done` of `succs` have been handled.
   */
  ghost predicate Expanding(pq: seq<Entry>, cost: map<State, nat>, settled: set<State>, informed: bool,
                            node: Entry, succs: seq<State>, done: int)
  {
    && 0 <= done <= |succs|
    && AllSound(pq, cost, informed) && Sound(node, cost, informed)
    && Initial in cost && cost[Initial] == 0
    && (forall x :: x in cost && x != node.st ==> Accounted(pq, cost, settled, x))
    && (Accounted(pq, cost, settled, node.st) || cost[node.st] == node.g)
    && (forall j :: 0 <= j < done ==> succs[j] in cost && cost[succs[j]] <= node.g + 1)
    && Goal !in settled && node.st != Goal
  }

  // ---------------------------------------------------------------------------
  // Popping

  lemma Start(informed: bool)
    ensures Invariant([Entry(Estimate(informed, Initial), 0, Initial, [Initial])], map[Initial := 0], {}, informed)
  {
    var pq := [Entry(Estimate(informed, Initial), 0, Initial, [Initial])];
    assert IsPath([Initial]);
    assert pq[0].st == Initial;
  }

  lemma AllSoundWithout(pq: seq<Entry>, cost: map<State, nat>, informed: bool, k: int)
    requires AllSound(pq, cost, informed) && 0 <= k < |pq|
    ensures AllSound(Without(pq, k), cost, informed)
  {
    var rest := Without(pq, k);
    forall i | 0 <= i < |rest|
      ensures Sound(rest[i], cost, informed)
    {
      WithoutKeeps(pq, k, if i < k then i else i + 1);
    }
  }

  /** An entry other than the popped one still witnesses `Open`. */
  lemma OpenWithout(pq: seq<Entry>, cost: map<State, nat>, x: State, k: int)
    requires Open(pq, cost, x) && 0 <= k < |pq|
    requires pq[k].st != x || pq[k].g != cost[x]
    ensures Open(Without(pq, k), cost, x)
  {
    var w :| 0 <= w < |pq| && pq[w].st == x && pq[w].g == cost[x];
    WithoutKeeps(pq, k, w);
  }

  /** Popping an entry other than the goal starts its expansion. */
  lemma Popped(pq: seq<Entry>, cost: map<State, nat>, settled: set<State>, informed: bool, k: int,
               succs: seq<State>)
    requires Invariant(pq, cost, settled, informed) && 0 <= k < |pq| && pq[k].st != Goal
    ensures Expanding(Without(pq, k), cost, settled, informed, pq[k], succs, 0)
  {
    var node := pq[k];
    AllSoundWithout(pq, cost, informed, k);
    forall x | x in cost && x != node.st
      ensures Accounted(Without(pq, k), cost, settled, x)
    {
      if Open(pq, cost, x) {
        OpenWithout(pq, cost, x, k);
      }
    }
    if Open(pq, cost, node.st) && cost[node.st] != node.g {
      OpenWithout(pq, cost, node.st, k);
    }
  }

  // ---------------------------------------------------------------------------
  // Relaxing one successor

  /** The entry pushed for `succ` from `node`: one crossing dearer, with `succ` appended to the path. */
  function Child(informed: bool, node: Entry, succ: State): (e: Entry)
    ensures e.st == succ && e.g == node.g + 1 && e.path == node.path + [succ]
    ensures e.f == e.g + Estimate(informed, succ)
  {
    var newG := node.g + 1;
    Entry(newG + Estimate(informed, succ), newG, succ, node.path + [succ])
  }

  /** The old entries stay sound when the cost of `y` is recorded or lowered to `v`. */
  lemma AllSoundPush(pq: seq<Entry>, cost: map<State, nat>, informed: bool, y: State, v: nat, n: Entry)
    requires AllSound(pq, cost, informed) && (y !in cost || v < cost[y])
    requires Sound(n, cost[y := v], informed)
    ensures AllSound(pq + [n], cost[y := v], informed)
  {
    forall i | 0 <= i < |pq| + 1
      ensures Sound((pq + [n])[i], cost[y := v], informed)
    {
      if i < |pq| {
        assert (pq + [n])[i] == pq[i];
      }
    }
  }

  /** A state other than `y` stays accounted for when `y` gets a new cost and a new entry. */
  lemma AccountedPush(pq: seq<Entry>, cost: map<State, nat>, settled: set<State>, y: State, v: nat,
                      n: Entry, x: State)
    requires Accounted(pq, cost, settled, x) && x != y && (y !in cost || v < cost[y])
    ensures Accounted(pq + [n], cost[y := v], settled, x)
  {
    if Open(pq, cost, x) {
      var w :| 0 <= w < |pq| && pq[w].st == x && pq[w].g == cost[x];
      assert (pq + [n])[w] == pq[w];
    } else {
      var cost' := cost[y := v];
      forall t | t in Successors(x)
        ensures t in cost' && cost'[t] <= cost'[x] + 1
      {
      }
    }
  }

  /** After relaxing `y`, every recorded state other than the popped one is still accounted for. */
  lemma RelaxAccounted(pq: seq<Entry>, cost: map<State, nat>, settled: set<State>, except: State,
                       y: State, v: nat, n: Entry, cost': map<State, nat>)
    requires forall x :: x in cost && x != except ==> Accounted(pq, cost, settled, x)
    requires y !in cost || v < cost[y]
    requires n.st == y && n.g == v && y != except && cost' == cost[y := v]
    ensures forall x :: x in cost' && x != except ==> Accounted(pq + [n], cost', settled, x)
  {
    forall x | x in cost' && x != except
      ensures Accounted(pq + [n], cost', settled, x)
    {
      if x == y {
        assert (pq + [n])[|pq|] == n;
      } else {
        AccountedPush(pq, cost, settled, y, v, n, x);
      }
    }
  }

  /** After relaxing `succs[done]`, the first `done + 1` successors are recorded cheaply enough. */
  lemma RelaxHandled(cost: map<State, nat>, succs: seq<State>, done: int, bound: nat)
    requires 0 <= done < |succs|
    requires forall j :: 0 <= j < done ==> succs[j] in cost && cost[succs[j]] <= bound
    requires succs[done] !in cost || bound < cost[succs[done]]
    ensures var c := cost[succs[done] := bound];
      forall j :: 0 <= j < done + 1 ==> succs[j] in c && c[succs[j]] <= bound
  {
  }

  /** The new entry and the old ones are sound under the lowered cost. */
  lemma RelaxSound(pq: seq<Entry>, cost: map<State, nat>, informed: bool, node: Entry, succ: State)
    requires AllSound(pq, cost, informed) && Sound(node, cost, informed)
    requires succ in Successors(node.st) && (succ !in cost || node.g + 1 < cost[succ])
    ensures AllSound(pq + [Child(informed, node, succ)], cost[succ := node.g + 1], informed)
    ensures Sound(node, cost[succ := node.g + 1], informed)
  {
    SuccessorCrosses(node.st, succ);
    ReachesExtend(node.path, node.st, succ);
    AllSoundPush(pq, cost, informed, succ, node.g + 1, Child(informed, node, succ));
  }

  /** Every recorded state stays accounted for, the popped one possibly by its own pending expansion. */
  lemma RelaxKeepsAccounted(pq: seq<Entry>, cost: map<State, nat>, settled: set<State>, informed: bool,
                            node: Entry, succ: State)
    requires forall x :: x in cost && x != node.st ==> Accounted(pq, cost, settled, x)
    requires node.st in cost
    requires Accounted(pq, cost, settled, node.st) || cost[node.st] == node.g
    requires succ in Successors(node.st) && (succ !in cost || node.g + 1 < cost[succ])
    ensures var cost' := cost[succ := node.g + 1];
      forall x :: x in cost' && x != node.st ==> Accounted(pq + [Child(informed, node, succ)], cost', settled, x)
    ensures var cost' := cost[succ := node.g + 1];
      Accounted(pq + [Child(informed, node, succ)], cost', settled, node.st) || cost'[node.st] == node.g
  {
    var v := node.g + 1;
    var n := Child(informed, node, succ);
    SuccessorCrosses(node.st, succ);
    RelaxAccounted(pq, cost, settled, node.st, succ, v, n, cost[succ := v]);
    if Accounted(pq, cost, settled, node.st) {
      AccountedPush(pq, cost, settled, succ, v, n, node.st);
    }
  }

  /** A successor reached more cheaply than before gets its new cost and a new entry. */
  lemma Relax(pq: seq<Entry>, cost: map<State, nat>, settled: set<State>, informed: bool,
              node: Entry, succs: seq<State>, done: int)
    requires Expanding(pq, cost, settled, informed, node, succs, done) && done < |succs|
    requires succs[done] in Successors(node.st)
    requires succs[done] !in cost || node.g + 1 < cost[succs[done]]
    ensures Expanding(pq + [Child(informed, node, succs[done])], cost[succs[done] := node.g + 1],
                      settled, informed, node, succs, done + 1)
  {
    var succ := succs[done];
    RelaxSound(pq, cost, informed, node, succ);
    RelaxKeepsAccounted(pq, cost, settled, informed, node, succ);
    RelaxHandled(cost, succs, done, node.g + 1);
    assert succ != Initial;
  }

  /** A successor already recorded at no more than the new cost is left alone. */
  lemma Skip(pq: seq<Entry>, cost: map<State, nat>, settled: set<State>, informed: bool,
             node: Entry, succs: seq<State>, done: int)
    requires Expanding(pq, cost, settled, informed, node, succs, done) && done < |succs|
    requires succs[done] in cost && cost[succs[done]] <= node.g + 1
    ensures Expanding(pq, cost, settled, informed, node, succs, done + 1)
  {
  }

  /**
    Once every successor is relaxed, the popped state is settled if it was
    popped at its recorded cost; otherwise a cheaper entry accounts for it.
   */
  lemma Expanded(pq: seq<Entry>, cost: map<State, nat>, settled: set<State>, informed: bool, node: Entry)
    requires Expanding(pq, cost, settled, informed, node, Successors(node.st), |Successors(node.st)|)
    ensures Invariant(pq, cost, if cost[node.st] == node.g then settled + {node.st} else settled, informed)
  {
    var succs := Successors(node.st);
    if cost[node.st] == node.g {
      forall t | t in succs
        ensures t in cost && cost[t] <= cost[node.st] + 1
      {
        var j :| 0 <= j < |succs| && succs[j] == t;
      }
    }
  }

  // ---------------------------------------------------------------------------
  // Termination

  /**
    The inner loop recorded a new state, or lowered a recorded cost without
    recording a new state, or changed nothing.
   */
  ghost predicate Progress(cost0: map<State, nat>, pq0: seq<Entry>, cost: map<State, nat>, pq: seq<Entry>)
  {
    || Unseen(cost.Keys) < Unseen(cost0.Keys)
    || (cost.Keys == cost0.Keys && CostSum(cost) < CostSum(cost0))
    || (cost == cost0 && pq == pq0)
  }

  lemma ProgressStep(cost0: map<State, nat>, pq0: seq<Entry>, cost: map<State, nat>, pq: seq<Entry>,
                     y: State, v: nat, n: Entry)
    requires Progress(cost0, pq0, cost, pq) && (y !in cost || v < cost[y])
    ensures Progress(cost0, pq0, cost[y := v], pq + [n])
  {
    if y in cost {
      assert cost[y := v].Keys == cost.Keys;
      CostSumLowered(cost, y, v);
    } else {
      assert cost[y := v].Keys == cost.Keys + {y};
      UnseenShrinks(cost.Keys, y);
    }
  }

  // ---------------------------------------------------------------------------
  // What the heap holds when an entry is popped

  /**
    Walking a path from the initial state, the first state that is not
    settled has an entry in the heap costing no more than its index on the
    path. Every settled state on the way has a successor recorded at most one
    crossing dearer, and the walk must stop before the goal, which is never
    settled.
   */
  lemma Walk(pq: seq<Entry>, cost: map<State, nat>, settled: set<State>, informed: bool, q: seq<State>)
    returns (w: int, i: int)
    requires Invariant(pq, cost, settled, informed) && IsSolution(q)
    ensures 0 <= w < |pq| && 0 <= i < |q| && pq[w].st == q[i] && pq[w].g <= i
  {
    i := 0;
    while !Open(pq, cost, q[i])
      invariant 0 <= i < |q| && q[i] in cost && cost[q[i]] <= i
      decreases |q| - i
    {
      assert q[i] in settled;
      assert q[i + 1] in Successors(q[i]);
      i := i + 1;
    }
    w :| 0 <= w < |pq| && pq[w].st == q[i] && pq[w].g == cost[q[i]];
  }

  /** The heap never runs dry: some entry lies on the known solution. */
  lemma NotExhausted(pq: seq<Entry>, cost: map<State, nat>, settled: set<State>, informed: bool)
    requires Invariant(pq, cost, settled, informed)
    ensures pq != []
  {
    KnownSolutionIsSolution();
    var w, i := Walk(pq, cost, settled, informed, KnownSolution);
  }

  /**
    UCS: when the goal is popped at the least cost in the heap, its path is
    a shortest solution, since every solution passes a heap entry that costs
    no more than that solution's length.
   */
  lemma UcsGoal(pq: seq<Entry>, cost: map<State, nat>, settled: set<State>, k: int)
    requires Invariant(pq, cost, settled, false) && 0 <= k < |pq| && pq[k].st == Goal
    requires forall j :: 0 <= j < |pq| ==> !LexLess(Key(pq[j]), Key(pq[k]))
    ensures Shortest(pq[k].path, Goal)
  {
    forall q | Reaches(q, Goal)
      ensures |pq[k].path| <= |q|
    {
      var w, i := Walk(pq, cost, settled, false, q);
      MinimalHasLeastF(pq[w], pq[k]);
    }
  }

  /**
    A*: when the goal is popped at the least priority in the heap, its path
    is a shortest solution, even though the heuristic can overestimate. The
    heap holds an entry on the known solution whose priority is at most 8,
    so the goal's cost is at most 8 and its path has at most 9 states;
    `ShortSolution` does the rest.
   */
  lemma AstarGoal(pq: seq<Entry>, cost: map<State, nat>, settled: set<State>, k: int)
    requires Invariant(pq, cost, settled, true) && 0 <= k < |pq| && pq[k].st == Goal
    requires forall j :: 0 <= j < |pq| ==> !LexLess(Key(pq[j]), Key(pq[k]))
    ensures Shortest(pq[k].path, Goal) && |pq[k].path| == 8
  {
    KnownSolutionIsSolution();
    var w, i := Walk(pq, cost, settled, true, KnownSolution);
    MinimalHasLeastF(pq[w], pq[k]);
    KnownEstimate(i);
    ShortSolution(pq[k].path);
  }

  // ---------------------------------------------------------------------------
  // What the inner loop pushes and records

  /**
    The entries the inner loop pushes for `succs`, in successor order: the
    `Child` of each successor reached more cheaply than recorded so far.
   */
  function Pushes(informed: bool, node: Entry, succs: seq<State>, cost: map<State, nat>): seq<Entry>
    decreases |succs|
  {
    if succs == [] then []
    else if succs[0] !in cost || node.g + 1 < cost[succs[0]] then
      [Child(informed, node, succs[0])] + Pushes(informed, node, succs[1..], cost[succs[0] := node.g + 1])
    else Pushes(informed, node, succs[1..], cost)
  }

  /** The cost map the inner loop leaves: each successor's cost lowered to `g` where that is cheaper. */
  function Lowered(g: nat, succs: seq<State>, cost: map<State, nat>): map<State, nat>
    decreases |succs|
  {
    if succs == [] then cost
    else Lowered(g, succs[1..], if succs[0] !in cost || g < cost[succs[0]] then cost[succs[0] := g] else cost)
  }

  /**
    After the loop every successor costs the lesser of its old cost and `g`,
    and every other state keeps its cost: no state is added or dropped
    besides the successors.
   */
  lemma {:induction false} LoweredIsLeast(g: nat, succs: seq<State>, cost: map<State, nat>)
    ensures Lowered(g, succs, cost).Keys == cost.Keys + (set t | t in succs)
    ensures forall x :: x in succs ==>
      Lowered(g, succs, cost)[x] == if x in cost && cost[x] < g then cost[x] else g
    ensures forall x :: x in cost && x !in succs ==> Lowered(g, succs, cost)[x] == cost[x]
    decreases |succs|
  {
    if succs != [] {
      var s := succs[0];
      var c := if s !in cost || g < cost[s] then cost[s := g] else cost;
      LoweredIsLeast(g, succs[1..], c);
      assert (set t | t in succs) == {s} + (set t | t in succs[1..]);
      forall x | x in succs
        ensures Lowered(g, succs, cost)[x] == if x in cost && cost[x] < g then cost[x] else g
      {
        if x != s {
          assert x in succs[1..];
        }
      }
    }
  }

  /**
    Every pushed entry is the `Child` of a successor that was not recorded
    or recorded at more than `node.g + 1`.
   */
  lemma {:induction false} PushesAreChildren(informed: bool, node: Entry, succs: seq<State>, cost: map<State, nat>)
    ensures forall k :: 0 <= k < |Pushes(informed, node, succs, cost)| ==>
      var e := Pushes(informed, node, succs, cost)[k];
      e == Child(informed, node, e.st) && e.st in succs && (e.st !in cost || node.g + 1 < cost[e.st])
    decreases |succs|
  {
    if succs != [] {
      var s := succs[0];
      if s !in cost || node.g + 1 < cost[s] {
        var c := cost[s := node.g + 1];
        PushesAreChildren(informed, node, succs[1..], c);
        var rest := Pushes(informed, node, succs[1..], c);
        var q := Pushes(informed, node, succs, cost);
        assert q == [Child(informed, node, s)] + rest;
        forall k | 0 < k < |q|
          ensures q[k].st in succs && (q[k].st !in cost || node.g + 1 < cost[q[k].st])
        {
          assert q[k] == rest[k - 1];
        }
      } else {
        PushesAreChildren(informed, node, succs[1..], cost);
      }
    }
  }

  /** Every successor not recorded, or recorded at more than `node.g + 1`, gets an entry pushed. */
  lemma {:induction false} PushesCover(informed: bool, node: Entry, succs: seq<State>, cost: map<State, nat>,
                                       t: State)
    requires t in succs && (t !in cost || node.g + 1 < cost[t])
    ensures exists k :: 0 <= k < |Pushes(informed, node, succs, cost)| && Pushes(informed, node, succs, cost)[k].st == t
    decreases |succs|
  {
    var s := succs[0];
    var q := Pushes(informed, node, succs, cost);
    if s == t {
      assert q[0].st == t;
    } else if s !in cost || node.g + 1 < cost[s] {
      var c := cost[s := node.g + 1];
      PushesCover(informed, node, succs[1..], c, t);
      var rest := Pushes(informed, node, succs[1..], c);
      var k :| 0 <= k < |rest| && rest[k].st == t;
      assert q == [Child(informed, node, s)] + rest;
      assert q[k + 1] == rest[k];
    } else {
      assert q == Pushes(informed, node, succs[1..], cost);
      PushesCover(informed, node, succs[1..], cost, t);
    }
  }

  /** No successor is pushed twice: once pushed, it is recorded at `node.g + 1`. */
  lemma {:induction false} PushesDistinct(informed: bool, node: Entry, succs: seq<State>, cost: map<State, nat>)
    ensures forall i, j :: 0 <= i < j < |Pushes(informed, node, succs, cost)| ==>
      Pushes(informed, node, succs, cost)[i].st != Pushes(informed, node, succs, cost)[j].st
    decreases |succs|
  {
    if succs != [] {
      var s := succs[0];
      if s !in cost || node.g + 1 < cost[s] {
        var c := cost[s := node.g + 1];
        PushesDistinct(informed, node, succs[1..], c);
        PushesAreChildren(informed, node, succs[1..], c);
        var rest := Pushes(informed, node, succs[1..], c);
        var q := Pushes(informed, node, succs, cost);
        assert q == [Child(informed, node, s)] + rest;
        forall i, j | 0 <= i < j < |q|
          ensures q[i].st != q[j].st
        {
          assert q[j] == rest[j - 1];
          if i > 0 {
            assert q[i] == rest[i - 1];
          }
        }
      } else {
        PushesDistinct(informed, node, succs[1..], cost);
      }
    }
  }

  /**
    The first `i` successors are handled: the heap and the cost map are what
    `Pushes` and `Lowered` say once the rest are handled too.
   */
  ghost predicate Follows(pq: seq<Entry>, cost: map<State, nat>, pq0: seq<Entry>, cost0: map<State, nat>,
                          informed: bool, node: Entry, succs: seq<State>, i: int)
  {
    && 0 <= i <= |succs|
    && pq + Pushes(informed, node, succs[i..], cost) == pq0 + Pushes(informed, node, succs, cost0)
    && Lowered(node.g + 1, succs[i..], cost) == Lowered(node.g + 1, succs, cost0)
  }

  lemma FollowsStep(pq: seq<Entry>, cost: map<State, nat>, pq0: seq<Entry>, cost0: map<State, nat>,
                    informed: bool, node: Entry, succs: seq<State>, i: int)
    requires Follows(pq, cost, pq0, cost0, informed, node, succs, i) && i < |succs|
    ensures var succ := succs[i];
      succ !in cost || node.g + 1 < cost[succ] ==>
        Follows(pq + [Child(informed, node, succ)], cost[succ := node.g + 1], pq0, cost0, informed, node, succs, i + 1)
    ensures var succ := succs[i];
      !(succ !in cost || node.g + 1 < cost[succ]) ==> Follows(pq, cost, pq0, cost0, informed, node, succs, i + 1)
  {
    assert succs[i..][0] == succs[i] && succs[i..][1..] == succs[i + 1..];
  }

  /** With every successor handled, the heap and cost map are the ones `Pushes` and `Lowered` give. */
  lemma FollowsDone(pq: seq<Entry>, cost: map<State, nat>, pq0: seq<Entry>, cost0: map<State, nat>,
                    informed: bool, node: Entry, succs: seq<State>)
    requires Follows(pq, cost, pq0, cost0, informed, node, succs, |succs|)
    ensures pq == pq0 + Pushes(informed, node, succs, cost0)
    ensures cost == Lowered(node.g + 1, succs, cost0)
  {
    assert succs[|succs|..] == [];
  }

  /** Everything the inner loop keeps after handling the first `i` successors. */
  ghost predicate Looping(pq: seq<Entry>, cost: map<State, nat>, pq0: seq<Entry>, cost0: map<State, nat>,
                          settled: set<State>, informed: bool, node: Entry, succs: seq<State>, i: int)
  {
    && Expanding(pq, cost, settled, informed, node, succs, i)
    && Progress(cost0, pq0, cost, pq)
    && Follows(pq, cost, pq0, cost0, informed, node, succs, i)
  }

  /** A successor reached more cheaply gets its cost recorded and its entry pushed. */
  lemma LoopRelax(pq: seq<Entry>, cost: map<State, nat>, pq0: seq<Entry>, cost0: map<State, nat>,
                  settled: set<State>, informed: bool, node: Entry, succs: seq<State>, i: int)
    requires Looping(pq, cost, pq0, cost0, settled, informed, node, succs, i) && i < |succs|
    requires succs[i] in Successors(node.st)
    requires succs[i] !in cost || node.g + 1 < cost[succs[i]]
    ensures Looping(pq + [Child(informed, node, succs[i])], cost[succs[i] := node.g + 1], pq0, cost0,
                    settled, informed, node, succs, i + 1)
  {
    Relax(pq, cost, settled, informed, node, succs, i);
    ProgressStep(cost0, pq0, cost, pq, succs[i], node.g + 1, Child(informed, node, succs[i]));
    FollowsStep(pq, cost, pq0, cost0, informed, node, succs, i);
  }

  /** A successor already recorded at no more than `node.g + 1` is passed over. */
  lemma LoopSkip(pq: seq<Entry>, cost: map<State, nat>, pq0: seq<Entry>, cost0: map<State, nat>,
                 settled: set<State>, informed: bool, node: Entry, succs: seq<State>, i: int)
    requires Looping(pq, cost, pq0, cost0, settled, informed, node, succs, i) && i < |succs|
    requires succs[i] in cost && cost[succs[i]] <= node.g + 1
    ensures Looping(pq, cost, pq0, cost0, settled, informed, node, succs, i + 1)
  {
    Skip(pq, cost, settled, informed, node, succs, i);
    FollowsStep(pq, cost, pq0, cost0, informed, node, succs, i);
  }

  /**
    The inner `for succ in ...` loop: a successor not yet recorded, or now
    reached more cheaply, gets the new cost recorded and is pushed with its
    path. The old entries stay as they were and the new ones follow in
    successor order.
   */
  method RelaxSuccessors(pq0: seq<Entry>, cost0: map<State, nat>, ghost settled: set<State>, informed: bool,
                         node: Entry, succs: seq<State>)
    returns (pq: seq<Entry>, cost: map<State, nat>)
    requires Expanding(pq0, cost0, settled, informed, node, succs, 0)
    requires forall t :: t in succs ==> t in Successors(node.st)
    ensures Expanding(pq, cost, settled, informed, node, succs, |succs|)
    ensures Progress(cost0, pq0, cost, pq)
    ensures pq == pq0 + Pushes(informed, node, succs, cost0)
    ensures cost == Lowered(node.g + 1, succs, cost0)
  {
    pq, cost := pq0, cost0;
    assert succs[0..] == succs;
    for i := 0 to |succs|
      invariant Looping(pq, cost, pq0, cost0, settled, informed, node, succs, i)
    {
      var succ := succs[i];
      var newG := node.g + 1;
      if succ !in cost || newG < cost[succ] {
        var entry := Child(informed, node, succ);
        LoopRelax(pq, cost, pq0, cost0, settled, informed, node, succs, i);
        cost := cost[succ := newG];
        pq := pq + [entry];
      } else {
        LoopSkip(pq, cost, pq0, cost0, settled, informed, node, succs, i);
      }
    }
    FollowsDone(pq, cost, pq0, cost0, informed, node, succs);
  }

  // ---------------------------------------------------------------------------
  // The search

  /**
    The loop `solve_ucs` (`informed == false`) and `solve_astar`
    (`informed == true`) share: it never gives up, and it returns a
    shortest solution.
   */
  method BestFirstSearch(informed: bool) returns (r: Option<seq<State>>)
    ensures r.Some? && Shortest(r.value, Goal)
  {
    var pq := [Entry(Estimate(informed, Initial), 0, Initial, [Initial])];
    var cost := map[Initial := 0];
    ghost var settled: set<State> := {};
    Start(informed);
    while pq != []
      invariant Invariant(pq, cost, settled, informed)
      decreases Unseen(cost.Keys), CostSum(cost), |pq|
    {
      var k := PopMin(pq);
      var node := pq[k];
      ghost var before := pq;
      pq := Without(pq, k);
      if node.st == Goal {
        if informed {
          AstarGoal(before, cost, settled, k);
        } else {
          UcsGoal(before, cost, settled, k);
        }
        return Some(node.path);
      }
      var succs := GetSuccessors(node.st);
      Popped(before, cost, settled, informed, k, succs);
      pq, cost := RelaxSuccessors(pq, cost, settled, informed, node, succs);
      Expanded(pq, cost, settled, informed, node);
      if cost[node.st] == node.g {
        settled := settled + {node.st};
      }
    }
    NotExhausted(pq, cost, settled, informed);
    assert false;
    return None;
  }

  /** `solve_ucs`: a shortest solution, of exactly 7 crossings. */
  method SolveUcs() returns (r: Option<seq<State>>)
    ensures r.Some? && Shortest(r.value, Goal) && |r.value| == 8
  {
    r := BestFirstSearch(false);
    ShortestSolutionLength(r.value);
  }

  /** `solve_astar`: a shortest solution, of exactly 7 crossings. */
  method SolveAstar() returns (r: Option<seq<State>>)
    ensures r.Some? && Shortest(r.value, Goal) && |r.value| == 8
  {
    r := BestFirstSearch(true);
    ShortestSolutionLength(r.value);
  }
}
