/**
  `solve_dfs`: depth-first search with a LIFO stack of `(state, path)`
  pairs. A state is marked visited when it is popped and expanded, and the
  goal test comes before the visited test.
 */
module Dfs {
  import opened Wrappers
  import opened StateSpace
  import opened Paths
  import opened Frontier

  /**
    A stacked pair: its path reaches its state, and every earlier state of
    the path was visited, each once.
   */
  ghost predicate Tracked(n: Node, visited: set<State>)
  {
    && Reaches(n.path, n.st)
    && (forall k :: 0 <= k < |n.path| - 1 ==> n.path[k] in visited)
    && (forall i, j :: 0 <= i < j < |n.path| - 1 ==> n.path[i] != n.path[j])
  }

  ghost predicate AllTracked(stack: seq<Node>, visited: set<State>)
  {
    forall i :: 0 <= i < |stack| ==> Tracked(stack[i], visited)
  }

  /** What holds each time the `while stack` loop is about to pop. */
  ghost predicate Invariant(stack: seq<Node>, visited: set<State>)
  {
    && AllTracked(stack, visited)
    && ClosedInto(visited, visited + NodeStates(stack))
    && Initial in visited + NodeStates(stack)
    && Goal !in visited
  }

  /**
    What holds while the successors of `node`, just popped and newly marked
    visited on top of `visited0`, are pushed; the first `done` of `succs`
    have been pushed.
   */
  ghost predicate Pushing(stack: seq<Node>, visited0: set<State>, node: Node, succs: seq<State>, done: int)
  {
    && 0 <= done <= |succs|
    && Tracked(node, visited0) && node.st !in visited0
    && AllTracked(stack, visited0 + {node.st})
    && ClosedInto(visited0, visited0 + {node.st} + NodeStates(stack))
    && (forall j :: 0 <= j < done ==> succs[j] in NodeStates(stack))
    && Initial in visited0 + {node.st} + NodeStates(stack)
    && Goal !in visited0 && node.st != Goal
  }

  // ---------------------------------------------------------------------------
  // One pair

  lemma TrackedGrow(n: Node, visited: set<State>, more: set<State>)
    requires Tracked(n, visited) && visited <= more
    ensures Tracked(n, more)
  {
  }

  /** A tracked pair whose state is not yet visited has a path without repeats. */
  lemma TrackedDistinct(n: Node, visited: set<State>)
    requires Tracked(n, visited) && n.st !in visited
    ensures Distinct(n.path)
  {
  }

  /** Expanding a tracked, unvisited pair gives tracked children. */
  lemma TrackedChild(n: Node, visited: set<State>, succ: State)
    requires Tracked(n, visited) && n.st !in visited && succ in Successors(n.st)
    ensures Tracked(Node(succ, n.path + [succ]), visited + {n.st})
  {
    ReachesExtend(n.path, n.st, succ);
    TrackedDistinct(n, visited);
    var p := n.path + [succ];
    forall k | 0 <= k < |p| - 1
      ensures p[k] in visited + {n.st}
    {
      assert p[k] == n.path[k];
    }
    forall i, j | 0 <= i < j < |p| - 1
      ensures p[i] != p[j]
    {
      assert p[i] == n.path[i] && p[j] == n.path[j];
    }
  }

  // ---------------------------------------------------------------------------
  // The stack

  lemma AllTrackedPop(stack: seq<Node>, visited: set<State>)
    requires AllTracked(stack, visited) && stack != []
    ensures AllTracked(stack[..|stack| - 1], visited)
  {
    var rest := stack[..|stack| - 1];
    forall i | 0 <= i < |rest|
      ensures Tracked(rest[i], visited)
    {
      assert rest[i] == stack[i];
    }
  }

  lemma AllTrackedGrow(stack: seq<Node>, visited: set<State>, more: set<State>)
    requires AllTracked(stack, visited) && visited <= more
    ensures AllTracked(stack, more)
  {
    forall i | 0 <= i < |stack|
      ensures Tracked(stack[i], more)
    {
      TrackedGrow(stack[i], visited, more);
    }
  }

  lemma AllTrackedPush(stack: seq<Node>, visited: set<State>, n: Node)
    requires AllTracked(stack, visited) && Tracked(n, visited)
    ensures AllTracked(stack + [n], visited)
  {
    forall i | 0 <= i < |stack| + 1
      ensures Tracked((stack + [n])[i], visited)
    {
      if i < |stack| {
        assert (stack + [n])[i] == stack[i];
      }
    }
  }

  // ---------------------------------------------------------------------------
  // The steps of the loop

  lemma Start()
    ensures Invariant([Node(Initial, [Initial])], {})
  {
    NodeStatesMember([Node(Initial, [Initial])], 0);
    assert IsPath([Initial]);
  }

  /** The goal on top of the stack comes with a solution that repeats no state. */
  lemma PoppedGoal(stack: seq<Node>, visited: set<State>)
    requires Invariant(stack, visited) && stack != [] && stack[|stack| - 1].st == Goal
    ensures IsSolution(stack[|stack| - 1].path) && Distinct(stack[|stack| - 1].path)
  {
    TrackedDistinct(stack[|stack| - 1], visited);
  }

  /** Popping a state already visited drops it and keeps the invariant. */
  lemma PoppedVisited(stack: seq<Node>, visited: set<State>)
    requires Invariant(stack, visited) && stack != [] && stack[|stack| - 1].st in visited
    ensures Invariant(stack[..|stack| - 1], visited)
  {
    NodeStatesPopBack(stack);
    AllTrackedPop(stack, visited);
    assert visited + NodeStates(stack) == visited + NodeStates(stack[..|stack| - 1]);
  }

  /** Popping a new state, not the goal, starts pushing its successors. */
  lemma PoppedNew(stack: seq<Node>, visited: set<State>, succs: seq<State>)
    requires Invariant(stack, visited) && stack != []
    requires stack[|stack| - 1].st !in visited && stack[|stack| - 1].st != Goal
    ensures Pushing(stack[..|stack| - 1], visited, stack[|stack| - 1], succs, 0)
  {
    var node := stack[|stack| - 1];
    NodeStatesPopBack(stack);
    AllTrackedPop(stack, visited);
    AllTrackedGrow(stack[..|stack| - 1], visited, visited + {node.st});
    assert visited + NodeStates(stack) == visited + {node.st} + NodeStates(stack[..|stack| - 1]);
  }

  lemma Push(stack: seq<Node>, visited0: set<State>, node: Node, succs: seq<State>, done: int)
    requires Pushing(stack, visited0, node, succs, done) && done < |succs|
    requires succs[done] in Successors(node.st)
    ensures Pushing(stack + [Node(succs[done], node.path + [succs[done]])], visited0, node, succs, done + 1)
  {
    var n := Node(succs[done], node.path + [succs[done]]);
    TrackedChild(node, visited0, succs[done]);
    AllTrackedPush(stack, visited0 + {node.st}, n);
    NodeStatesPush(stack, n);
    ClosedIntoGrow(visited0, visited0 + {node.st} + NodeStates(stack), visited0 + {node.st} + NodeStates(stack + [n]));
  }

  /** Once every successor is pushed, the popped state counts as visited. */
  lemma Pushed(stack: seq<Node>, visited0: set<State>, node: Node)
    requires Pushing(stack, visited0, node, Successors(node.st), |Successors(node.st)|)
    ensures Invariant(stack, visited0 + {node.st})
  {
  }

  /** The pairs the inner loop pushes for `succs`, in successor order; the last one ends on top. */
  function Children(path: seq<State>, succs: seq<State>): seq<Node>
    decreases |succs|
  {
    if succs == [] then [] else [Node(succs[0], path + [succs[0]])] + Children(path, succs[1..])
  }

  /** One pair per successor, at the successor's own position, each with its path extended by it. */
  lemma {:induction false} ChildrenAt(path: seq<State>, succs: seq<State>)
    ensures |Children(path, succs)| == |succs|
    ensures forall i :: 0 <= i < |succs| ==> Children(path, succs)[i] == Node(succs[i], path + [succs[i]])
    decreases |succs|
  {
    if succs != [] {
      ChildrenAt(path, succs[1..]);
      forall i | 0 < i < |succs|
        ensures Children(path, succs)[i] == Node(succs[i], path + [succs[i]])
      {
        assert Children(path, succs)[i] == Children(path, succs[1..])[i - 1];
      }
    }
  }

  /** Pushing one more pair moves it from the pairs still to push onto the stack. */
  lemma ChildrenStep(stack: seq<Node>, path: seq<State>, succs: seq<State>, i: int)
    requires 0 <= i < |succs|
    ensures stack + Children(path, succs[i..]) == stack + [Node(succs[i], path + [succs[i]])] + Children(path, succs[i + 1..])
  {
    assert succs[i..][0] == succs[i] && succs[i..][1..] == succs[i + 1..];
  }

  /**
    The inner `for succ in ...` loop of `solve_dfs`: push every successor with
    its path, in successor order, on top of what was already stacked.
   */
  method PushSuccessors(stack0: seq<Node>, ghost visited0: set<State>, node: Node, succs: seq<State>)
    returns (stack: seq<Node>)
    requires Pushing(stack0, visited0, node, succs, 0)
    requires forall t :: t in succs ==> t in Successors(node.st)
    ensures Pushing(stack, visited0, node, succs, |succs|)
    ensures stack == stack0 + Children(node.path, succs)
    ensures |stack| == |stack0| + |succs|
  {
    stack := stack0;
    for i := 0 to |succs|
      invariant Pushing(stack, visited0, node, succs, i)
      invariant stack + Children(node.path, succs[i..]) == stack0 + Children(node.path, succs)
    {
      Push(stack, visited0, node, succs, i);
      ChildrenStep(stack, node.path, succs, i);
      stack := stack + [Node(succs[i], node.path + [succs[i]])];
    }
    assert succs[|succs|..] == [];
    ChildrenAt(node.path, succs);
  }

  /**
    `solve_dfs`: it never gives up, and the path it returns is a solution
    that visits no state twice.
   */
  method SolveDfs() returns (r: Option<seq<State>>)
    ensures r.Some? && IsSolution(r.value) && Distinct(r.value)
  {
    var stack := [Node(Initial, [Initial])];
    var visited: set<State> := {};
    Start();
    while stack != []
      invariant Invariant(stack, visited)
      decreases Unseen(visited), |stack|
    {
      var node := stack[|stack| - 1];
      ghost var before := stack;
      stack := stack[..|stack| - 1];
      if node.st == Goal {
        PoppedGoal(before, visited);
        return Some(node.path);
      }
      if node.st !in visited {
        var succs := GetSuccessors(node.st);
        PoppedNew(before, visited, succs);
        ghost var visited0 := visited;
        UnseenShrinks(visited, node.st);
        visited := visited + {node.st};
        stack := PushSuccessors(stack, visited0, node, succs);
        Pushed(stack, visited0, node);
      } else {
        PoppedVisited(before, visited);
      }
    }
    ClosedContainsGoal(visited);
    assert false;
    return None;
  }
}
