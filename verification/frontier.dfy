/**
  The frontiers the solvers keep: the `(state, path)` pairs of the BFS
  queue and the DFS stack, the entries of the UCS and A* heaps with the
  order `heapq` pops them in, and the measures that bound how long a
  search can run over the 16 states.
 */
module Frontier {
  import opened StateSpace

  // ---------------------------------------------------------------------------
  // Queue and stack pairs

  /** A frontier pair `(state, path)`: a state and the path that led to it. */
  datatype Node = Node(st: State, path: seq<State>)

  /** The states a queue or stack holds. */
  function NodeStates(q: seq<Node>): set<State>
  {
    set i | 0 <= i < |q| :: q[i].st
  }

  lemma NodeStatesMember(q: seq<Node>, i: int)
    requires 0 <= i < |q|
    ensures q[i].st in NodeStates(q)
  {
  }

  /** Appending a pair adds its state; nothing else changes. */
  lemma NodeStatesPush(q: seq<Node>, n: Node)
    ensures NodeStates(q + [n]) == NodeStates(q) + {n.st}
  {
    var q' := q + [n];
    forall x | x in NodeStates(q')
      ensures x in NodeStates(q) + {n.st}
    {
      var i :| 0 <= i < |q'| && q'[i].st == x;
      if i < |q| {
        assert q'[i] == q[i];
      }
    }
    forall x | x in NodeStates(q)
      ensures x in NodeStates(q')
    {
      var i :| 0 <= i < |q| && q[i].st == x;
      assert q'[i] == q[i];
    }
    assert q'[|q|] == n;
  }

  /** `popleft`: the states of the rest, plus the state taken off the front. */
  lemma NodeStatesPopFront(q: seq<Node>)
    requires |q| > 0
    ensures NodeStates(q) == {q[0].st} + NodeStates(q[1..])
  {
    var r := q[1..];
    forall x | x in NodeStates(q)
      ensures x in {q[0].st} + NodeStates(r)
    {
      var i :| 0 <= i < |q| && q[i].st == x;
      if i > 0 {
        assert r[i - 1] == q[i];
      }
    }
    forall x | x in NodeStates(r)
      ensures x in NodeStates(q)
    {
      var i :| 0 <= i < |r| && r[i].st == x;
      assert q[i + 1] == r[i];
    }
  }

  /** `pop`: the states of the rest, plus the state taken off the top. */
  lemma NodeStatesPopBack(q: seq<Node>)
    requires |q| > 0
    ensures NodeStates(q) == NodeStates(q[..|q| - 1]) + {q[|q| - 1].st}
  {
    assert q == q[..|q| - 1] + [q[|q| - 1]];
    NodeStatesPush(q[..|q| - 1], q[|q| - 1]);
  }

  // ---------------------------------------------------------------------------
  // Heap entries and the order `heapq` pops them in

  /**
    A heap entry. A* pushes `(f, g, state, path)`; UCS pushes `(cost, state,
    path)`, modelled with `f == g == cost`: the repeated `g` never decides
    between two entries whose `f` already ties, so the order is the same.
   */
  datatype Entry = Entry(f: int, g: nat, st: State, path: seq<State>)

  /** The states of a path, each as its 4 fields, one after the other. */
  function Flatten(p: seq<State>): (xs: seq<int>)
    ensures |xs| == 4 * |p|
  {
    if p == [] then [] else Fields(p[0]) + Flatten(p[1..])
  }

  /**
    The entry as Python compares it: a tuple of numbers, a state tuple and a
    list of state tuples, spelled out as one list of integers. Every state
    has exactly four fields, so comparing the flattened lists compares the
    tuples component by component.
   */
  function Key(e: Entry): (k: seq<int>)
    ensures |k| >= 2 && k[0] == e.f
  {
    [e.f, e.g] + Fields(e.st) + Flatten(e.path)
  }

  /**
    Python's `<` on lists: the first difference decides, and a proper prefix
    is smaller than the list it starts.
   */
  predicate LexLess(a: seq<int>, b: seq<int>)
  {
    if |a| == 0 then |b| > 0
    else if |b| == 0 then false
    else if a[0] != b[0] then a[0] < b[0]
    else LexLess(a[1..], b[1..])
  }

  lemma {:induction false} LexLessIrreflexive(a: seq<int>)
    ensures !LexLess(a, a)
  {
    if |a| > 0 {
      LexLessIrreflexive(a[1..]);
    }
  }

  lemma {:induction false} LexLessTransitive(a: seq<int>, b: seq<int>, c: seq<int>)
    requires LexLess(a, b) && LexLess(b, c)
    ensures LexLess(a, c)
  {
    if |a| > 0 && |b| > 0 && |c| > 0 && a[0] == b[0] && b[0] == c[0] {
      LexLessTransitive(a[1..], b[1..], c[1..]);
    }
  }

  /** The first component dominates: a smaller `f` (or cost) pops first. */
  lemma MinimalHasLeastF(e: Entry, m: Entry)
    requires !LexLess(Key(e), Key(m))
    ensures m.f <= e.f
  {
  }

  /**
    `heapq.heappop`: the index of an entry no other entry is smaller than.
    The heap's array layout is not modelled, only which entry comes out.
   */
  method PopMin(pq: seq<Entry>) returns (k: int)
    requires |pq| > 0
    ensures 0 <= k < |pq|
    ensures forall j :: 0 <= j < |pq| ==> !LexLess(Key(pq[j]), Key(pq[k]))
  {
    k := 0;
    LexLessIrreflexive(Key(pq[0]));
    for i := 1 to |pq|
      invariant 0 <= k < i
      invariant forall j :: 0 <= j < i ==> !LexLess(Key(pq[j]), Key(pq[k]))
    {
      if LexLess(Key(pq[i]), Key(pq[k])) {
        forall j | 0 <= j < i
          ensures !LexLess(Key(pq[j]), Key(pq[i]))
        {
          if LexLess(Key(pq[j]), Key(pq[i])) {
            LexLessTransitive(Key(pq[j]), Key(pq[i]), Key(pq[k]));
          }
        }
        LexLessIrreflexive(Key(pq[i]));
        k := i;
      }
    }
  }

  /** The heap with entry `k` taken out. */
  function Without(pq: seq<Entry>, k: int): (r: seq<Entry>)
    requires 0 <= k < |pq|
    ensures |r| == |pq| - 1
    ensures multiset(r) + multiset{pq[k]} == multiset(pq)
  {
    assert pq == pq[..k] + [pq[k]] + pq[k + 1..];
    pq[..k] + pq[k + 1..]
  }

  /** Every entry but the one taken out is still in the heap. */
  lemma WithoutKeeps(pq: seq<Entry>, k: int, j: int)
    requires 0 <= k < |pq| && 0 <= j < |pq| && j != k
    ensures pq[j] == Without(pq, k)[if j < k then j else j - 1]
  {
  }

  // ---------------------------------------------------------------------------
  // Termination measures

  /** How many entries of `xs` are not in `s`. */
  function Missing(xs: seq<State>, s: set<State>): nat
  {
    if xs == [] then 0 else (if xs[0] in s then 0 else 1) + Missing(xs[1..], s)
  }

  /** How many of the 16 states are not in `s`. */
  function Unseen(s: set<State>): nat
  {
    Missing(StateList, s)
  }

  lemma {:induction false} MissingShrinks(xs: seq<State>, s: set<State>, x: State)
    requires x !in s
    ensures Missing(xs, s + {x}) <= Missing(xs, s)
    ensures x in xs ==> Missing(xs, s + {x}) < Missing(xs, s)
  {
    if xs != [] {
      MissingShrinks(xs[1..], s, x);
      if x in xs && xs[0] != x {
        assert x in xs[1..];
      }
    }
  }

  /** Adding a state not seen before leaves fewer unseen. */
  lemma UnseenShrinks(s: set<State>, x: State)
    requires x !in s
    ensures Unseen(s + {x}) < Unseen(s)
  {
    InStateList(x);
    MissingShrinks(StateList, s, x);
  }

  /** The recorded costs, summed over the states in `xs`. */
  function CostOver(xs: seq<State>, cost: map<State, nat>): nat
  {
    if xs == [] then 0
    else (if xs[0] in cost then cost[xs[0]] else 0) + CostOver(xs[1..], cost)
  }

  /** The sum of every recorded cost: it falls whenever a recorded cost is lowered. */
  function CostSum(cost: map<State, nat>): nat
  {
    CostOver(StateList, cost)
  }

  lemma {:induction false} CostOverLowered(xs: seq<State>, cost: map<State, nat>, y: State, v: nat)
    requires y in cost && v < cost[y]
    ensures CostOver(xs, cost[y := v]) <= CostOver(xs, cost)
    ensures y in xs ==> CostOver(xs, cost[y := v]) < CostOver(xs, cost)
  {
    if xs != [] {
      CostOverLowered(xs[1..], cost, y, v);
      if y in xs && xs[0] != y {
        assert y in xs[1..];
      }
    }
  }

  /** Lowering a recorded cost lowers `CostSum`. */
  lemma CostSumLowered(cost: map<State, nat>, y: State, v: nat)
    requires y in cost && v < cost[y]
    ensures CostSum(cost[y := v]) < CostSum(cost)
  {
    InStateList(y);
    CostOverLowered(StateList, cost, y, v);
  }
}
