/**
  `solve_bfs`: breadth-first search with a FIFO queue of `(state, path)`
  pairs. A state is marked visited when it is enqueued and tested against
  the goal when it is dequeued, so the first goal dequeued has a shortest
  path.
 */
module Bfs {
  import opened Wrappers
  import opened StateSpace
  import opened Paths
  import opened Frontier

  /** Each pair in the queue holds a shortest path to its state. */
  ghost predicate AllShortest(queue: seq<Node>)
  {
    forall i :: 0 <= i < |queue| ==> Shortest(queue[i].path, queue[i].st)
  }

  /** Path lengths in the queue never fall, and all lie in `d .. d + 1`. */
  ghost predicate Layered(queue: seq<Node>, d: int)
  {
    && (forall i :: 0 <= i < |queue| ==> d <= |queue[i].path| <= d + 1)
    && (forall i, j :: 0 <= i <= j < |queue| ==> |queue[i].path| <= |queue[j].path|)
  }

  /** Every state some path of fewer than `d` states reaches has been expanded. */
  ghost predicate NearExpanded(expanded: set<State>, d: int)
  {
    forall p, x :: Reaches(p, x) && |p| < d ==> x in expanded
  }

  /** What holds each time the `while queue` loop is about to take the next pair. */
  ghost predicate Invariant(queue: seq<Node>, visited: set<State>, expanded: set<State>)
  {
    && AllShortest(queue)
    && visited == expanded + NodeStates(queue)
    && ClosedInto(expanded, visited)
    && Initial in visited
    && Goal !in expanded
    && (queue != [] ==> Layered(queue, |queue[0].path|) && NearExpanded(expanded, |queue[0].path|))
  }

  /**
    What holds while the successors of `node`, just dequeued, are being
    enqueued; the first `done` of `succs` have been handled.
   */
  ghost predicate Expanding(queue: seq<Node>, visited: set<State>, expanded: set<State>, node: Node,
                            succs: seq<State>, done: int)
  {
    && 0 <= done <= |succs|
    && (forall j :: 0 <= j < done ==> succs[j] in visited)
    && AllShortest(queue)
    && Shortest(node.path, node.st)
    && visited == expanded + {node.st} + NodeStates(queue)
    && ClosedInto(expanded, visited)
    && Initial in visited
    && Goal !in expanded && node.st != Goal
    && Layered(queue, |node.path|)
    && NearExpanded(expanded, |node.path|)
  }

  lemma StartInvariant()
    ensures Invariant([Node(Initial, [Initial])], {Initial}, {})
  {
    var queue := [Node(Initial, [Initial])];
    assert NodeStates(queue) == {Initial} by {
      NodeStatesMember(queue, 0);
    }
    assert IsPath([Initial]);
  }

  lemma AllShortestTail(queue: seq<Node>)
    requires AllShortest(queue) && queue != []
    ensures AllShortest(queue[1..])
  {
    forall i | 0 <= i < |queue| - 1
      ensures Shortest(queue[1..][i].path, queue[1..][i].st)
    {
      assert queue[1..][i] == queue[i + 1];
    }
  }

  lemma AllShortestPush(queue: seq<Node>, n: Node)
    requires AllShortest(queue) && Shortest(n.path, n.st)
    ensures AllShortest(queue + [n])
  {
    forall i | 0 <= i < |queue| + 1
      ensures Shortest((queue + [n])[i].path, (queue + [n])[i].st)
    {
      if i < |queue| {
        assert (queue + [n])[i] == queue[i];
      }
    }
  }

  lemma LayeredTail(queue: seq<Node>, d: int)
    requires Layered(queue, d) && queue != []
    ensures Layered(queue[1..], d)
  {
    var rest := queue[1..];
    forall i, j | 0 <= i <= j < |rest|
      ensures |rest[i].path| <= |rest[j].path|
    {
      assert rest[i] == queue[i + 1] && rest[j] == queue[j + 1];
    }
    forall i | 0 <= i < |rest|
      ensures d <= |rest[i].path| <= d + 1
    {
      assert rest[i] == queue[i + 1];
    }
  }

  lemma LayeredPush(queue: seq<Node>, d: int, n: Node)
    requires Layered(queue, d) && |n.path| == d + 1
    ensures Layered(queue + [n], d)
  {
    var queue' := queue + [n];
    forall i, j | 0 <= i <= j < |queue'|
      ensures |queue'[i].path| <= |queue'[j].path|
    {
      if j < |queue| {
        assert queue'[i] == queue[i] && queue'[j] == queue[j];
      } else if i < |queue| {
        assert queue'[i] == queue[i];
      }
    }
    forall i | 0 <= i < |queue'|
      ensures d <= |queue'[i].path| <= d + 1
    {
      if i < |queue| {
        assert queue'[i] == queue[i];
      }
    }
  }

  /** Taking the front pair, when it is not the goal, starts its expansion. */
  lemma Dequeue(queue: seq<Node>, visited: set<State>, expanded: set<State>, succs: seq<State>)
    requires Invariant(queue, visited, expanded) && queue != [] && queue[0].st != Goal
    ensures Expanding(queue[1..], visited, expanded, queue[0], succs, 0)
  {
    NodeStatesPopFront(queue);
    AllShortestTail(queue);
    LayeredTail(queue, |queue[0].path|);
  }

  /**
    A successor of the dequeued state that was not yet visited is first
    reached here, so extending the dequeued path by it gives a shortest path.
   */
  lemma NewEntryShortest(visited: set<State>, expanded: set<State>, node: Node, succ: State)
    requires Shortest(node.path, node.st) && succ in Successors(node.st)
    requires succ !in visited && Initial in visited
    requires ClosedInto(expanded, visited) && NearExpanded(expanded, |node.path|)
    ensures Shortest(node.path + [succ], succ)
  {
    ReachesExtend(node.path, node.st, succ);
    forall q | Reaches(q, succ)
      ensures |node.path| + 1 <= |q|
    {
      assert |q| > 1;
      ReachesPrefix(q, succ);
      assert q[|q| - 2] !in expanded;
    }
  }

  /** Enqueueing that successor keeps the expansion invariant. */
  lemma Enqueue(queue: seq<Node>, visited: set<State>, expanded: set<State>, node: Node,
                succs: seq<State>, done: int)
    requires Expanding(queue, visited, expanded, node, succs, done) && done < |succs|
    requires succs[done] in Successors(node.st) && succs[done] !in visited
    ensures var succ := succs[done];
      Expanding(queue + [Node(succ, node.path + [succ])], visited + {succ}, expanded, node, succs, done + 1)
  {
    var succ := succs[done];
    var n := Node(succ, node.path + [succ]);
    NewEntryShortest(visited, expanded, node, succ);
    NodeStatesPush(queue, n);
    AllShortestPush(queue, n);
    LayeredPush(queue, |node.path|, n);
  }

  /** A successor already visited is skipped. */
  lemma Skip(queue: seq<Node>, visited: set<State>, expanded: set<State>, node: Node,
             succs: seq<State>, done: int)
    requires Expanding(queue, visited, expanded, node, succs, done) && done < |succs|
    requires succs[done] in visited
    ensures Expanding(queue, visited, expanded, node, succs, done + 1)
  {
  }

  /**
    Once every pair one crossing longer than the expanded state's path is
    queued, every state at that distance is expanded: it was visited through
    its predecessor, and it cannot be waiting in the queue with a longer path.
   */
  lemma NextLevel(queue: seq<Node>, visited: set<State>, expanded: set<State>, d: int)
    requires AllShortest(queue) && visited == expanded + NodeStates(queue)
    requires ClosedInto(expanded, visited) && Initial in visited
    requires NearExpanded(expanded, d)
    requires forall i :: 0 <= i < |queue| ==> d + 1 <= |queue[i].path|
    ensures NearExpanded(expanded, d + 1)
  {
    forall p, x | Reaches(p, x) && |p| == d
      ensures x in expanded
    {
      if |p| > 1 {
        ReachesPrefix(p, x);
      }
      assert x in visited;
      forall i | 0 <= i < |queue|
        ensures queue[i].st != x
      {
        assert |p| < |queue[i].path|;
      }
    }
  }

  /** Marking the dequeued state expanded restores the loop invariant. */
  lemma Expanded(queue: seq<Node>, visited: set<State>, expanded: set<State>, node: Node)
    requires Expanding(queue, visited, expanded, node, Successors(node.st), |Successors(node.st)|)
    ensures Invariant(queue, visited, expanded + {node.st})
  {
    var expanded' := expanded + {node.st};
    var d := |node.path|;
    if queue != [] {
      if |queue[0].path| == d + 1 {
        NextLevel(queue, visited, expanded', d);
      }
    }
  }

  /** The measure falls, or nothing was enqueued. */
  ghost predicate Progress(visited0: set<State>, queue0: seq<Node>, visited: set<State>, queue: seq<Node>)
  {
    Unseen(visited) < Unseen(visited0) || (visited == visited0 && queue == queue0)
  }

  lemma ProgressStep(visited0: set<State>, queue0: seq<Node>, visited: set<State>, queue: seq<Node>,
                     succ: State, n: Node)
    requires Progress(visited0, queue0, visited, queue) && succ !in visited
    ensures Progress(visited0, queue0, visited + {succ}, queue + [n])
  {
    UnseenShrinks(visited, succ);
  }

  /**
    The pairs the inner loop appends for `succs`, in successor order: each
    successor not yet visited, marking it visited as it goes.
   */
  function Enqueued(path: seq<State>, succs: seq<State>, visited: set<State>): seq<Node>
    decreases |succs|
  {
    if succs == [] then []
    else if succs[0] in visited then Enqueued(path, succs[1..], visited)
    else [Node(succs[0], path + [succs[0]])] + Enqueued(path, succs[1..], visited + {succs[0]})
  }

  /** Every appended pair is for a successor not yet visited, with `path` extended by it. */
  lemma {:induction false} EnqueuedFresh(path: seq<State>, succs: seq<State>, visited: set<State>)
    ensures forall k :: 0 <= k < |Enqueued(path, succs, visited)| ==>
      var n := Enqueued(path, succs, visited)[k];
      n.st in succs && n.st !in visited && n.path == path + [n.st]
    decreases |succs|
  {
    if succs != [] {
      var s := succs[0];
      if s in visited {
        EnqueuedFresh(path, succs[1..], visited);
      } else {
        EnqueuedFresh(path, succs[1..], visited + {s});
        var e := Enqueued(path, succs[1..], visited + {s});
        assert Enqueued(path, succs, visited) == [Node(s, path + [s])] + e;
        forall k | 0 < k < |e| + 1
          ensures Enqueued(path, succs, visited)[k] == e[k - 1]
        {
        }
      }
    }
  }

  /** No successor is appended twice. */
  lemma {:induction false} EnqueuedDistinct(path: seq<State>, succs: seq<State>, visited: set<State>)
    ensures forall i, j :: 0 <= i < j < |Enqueued(path, succs, visited)| ==>
      Enqueued(path, succs, visited)[i].st != Enqueued(path, succs, visited)[j].st
    decreases |succs|
  {
    if succs != [] {
      var s := succs[0];
      if s in visited {
        EnqueuedDistinct(path, succs[1..], visited);
      } else {
        var e := Enqueued(path, succs[1..], visited + {s});
        EnqueuedDistinct(path, succs[1..], visited + {s});
        EnqueuedFresh(path, succs[1..], visited + {s});
        var q := Enqueued(path, succs, visited);
        assert q == [Node(s, path + [s])] + e;
        forall i, j | 0 <= i < j < |q|
          ensures q[i].st != q[j].st
        {
          assert q[j] == e[j - 1];
          if i > 0 {
            assert q[i] == e[i - 1];
          }
        }
      }
    }
  }

  /** Every successor not yet visited is appended. */
  lemma {:induction false} EnqueuedCovers(path: seq<State>, succs: seq<State>, visited: set<State>, t: State)
    requires t in succs && t !in visited
    ensures t in NodeStates(Enqueued(path, succs, visited))
    decreases |succs|
  {
    var s := succs[0];
    if s == t {
      NodeStatesMember(Enqueued(path, succs, visited), 0);
    } else {
      var v := if s in visited then visited else visited + {s};
      EnqueuedCovers(path, succs[1..], v, t);
      var e := Enqueued(path, succs[1..], v);
      var k :| 0 <= k < |e| && e[k].st == t;
      if s in visited {
        NodeStatesMember(e, k);
      } else {
        var q := Enqueued(path, succs, visited);
        assert q == [Node(s, path + [s])] + e;
        assert q[k + 1] == e[k];
        NodeStatesMember(q, k + 1);
      }
    }
  }

  /**
    The appended pairs hold exactly the successors not yet visited, each
    once, each with `path` extended by it.
   */
  lemma EnqueuedStates(path: seq<State>, succs: seq<State>, visited: set<State>)
    ensures NodeStates(Enqueued(path, succs, visited)) == (set t | t in succs) - visited
    ensures forall i :: 0 <= i < |Enqueued(path, succs, visited)| ==>
      Enqueued(path, succs, visited)[i].path == path + [Enqueued(path, succs, visited)[i].st]
    ensures forall i, j :: 0 <= i < j < |Enqueued(path, succs, visited)| ==>
      Enqueued(path, succs, visited)[i].st != Enqueued(path, succs, visited)[j].st
  {
    EnqueuedFresh(path, succs, visited);
    EnqueuedDistinct(path, succs, visited);
    forall t | t in succs && t !in visited
      ensures t in NodeStates(Enqueued(path, succs, visited))
    {
      EnqueuedCovers(path, succs, visited, t);
    }
  }

  /** Handling `succs[i]` moves it from the successors still to handle to the queue, or drops it. */
  lemma EnqueuedStep(queue: seq<Node>, path: seq<State>, succs: seq<State>, visited: set<State>, i: int)
    requires 0 <= i < |succs|
    ensures succs[i] in visited ==>
      Enqueued(path, succs[i..], visited) == Enqueued(path, succs[i + 1..], visited)
    ensures succs[i] !in visited ==>
      queue + Enqueued(path, succs[i..], visited)
      == queue + [Node(succs[i], path + [succs[i]])] + Enqueued(path, succs[i + 1..], visited + {succs[i]})
  {
    assert succs[i..][0] == succs[i] && succs[i..][1..] == succs[i + 1..];
  }

  /** The visited set the inner loop leaves: every successor marked. */
  function Marked(succs: seq<State>, visited: set<State>): set<State>
    decreases |succs|
  {
    if succs == [] then visited else Marked(succs[1..], visited + {succs[0]})
  }

  /** Marking the successors one by one adds exactly the successors. */
  lemma {:induction false} MarkedIsUnion(succs: seq<State>, visited: set<State>)
    ensures Marked(succs, visited) == visited + (set t | t in succs)
    decreases |succs|
  {
    if succs != [] {
      MarkedIsUnion(succs[1..], visited + {succs[0]});
      assert (set t | t in succs) == {succs[0]} + (set t | t in succs[1..]);
    }
  }

  /**
    The first `i` successors are handled: the queue and the visited set are
    what `Enqueued` and `Marked` say once the rest are handled too.
   */
  ghost predicate Follows(queue: seq<Node>, visited: set<State>, queue0: seq<Node>, visited0: set<State>,
                          path: seq<State>, succs: seq<State>, i: int)
  {
    && 0 <= i <= |succs|
    && queue + Enqueued(path, succs[i..], visited) == queue0 + Enqueued(path, succs, visited0)
    && Marked(succs[i..], visited) == Marked(succs, visited0)
  }

  lemma FollowsStep(queue: seq<Node>, visited: set<State>, queue0: seq<Node>, visited0: set<State>,
                    path: seq<State>, succs: seq<State>, i: int)
    requires Follows(queue, visited, queue0, visited0, path, succs, i) && i < |succs|
    ensures succs[i] in visited ==> Follows(queue, visited, queue0, visited0, path, succs, i + 1)
    ensures succs[i] !in visited ==>
      Follows(queue + [Node(succs[i], path + [succs[i]])], visited + {succs[i]}, queue0, visited0, path, succs, i + 1)
  {
    EnqueuedStep(queue, path, succs, visited, i);
    assert succs[i..][1..] == succs[i + 1..];
    if succs[i] in visited {
      assert visited + {succs[i]} == visited;
    }
  }

  /** With every successor handled, the queue and visited set are the ones `Enqueued` gives. */
  lemma FollowsDone(queue: seq<Node>, visited: set<State>, queue0: seq<Node>, visited0: set<State>,
                    path: seq<State>, succs: seq<State>)
    requires Follows(queue, visited, queue0, visited0, path, succs, |succs|)
    ensures queue == queue0 + Enqueued(path, succs, visited0)
    ensures visited == visited0 + (set t | t in succs)
  {
    assert succs[|succs|..] == [];
    MarkedIsUnion(succs, visited0);
  }

  lemma LoopStart(queue0: seq<Node>, visited0: set<State>, expanded: set<State>, node: Node, succs: seq<State>)
    requires Expanding(queue0, visited0, expanded, node, succs, 0)
    ensures Looping(queue0, visited0, queue0, visited0, expanded, node, succs, 0)
  {
    assert succs[0..] == succs;
  }

  /** Everything the inner loop keeps after handling the first `i` successors. */
  ghost predicate Looping(queue: seq<Node>, visited: set<State>, queue0: seq<Node>, visited0: set<State>,
                          expanded: set<State>, node: Node, succs: seq<State>, i: int)
  {
    && Expanding(queue, visited, expanded, node, succs, i)
    && Progress(visited0, queue0, visited, queue)
    && Follows(queue, visited, queue0, visited0, node.path, succs, i)
  }

  /** A successor not yet visited is marked and enqueued. */
  lemma LoopEnqueue(queue: seq<Node>, visited: set<State>, queue0: seq<Node>, visited0: set<State>,
                    expanded: set<State>, node: Node, succs: seq<State>, i: int)
    requires Looping(queue, visited, queue0, visited0, expanded, node, succs, i) && i < |succs|
    requires succs[i] in Successors(node.st) && succs[i] !in visited
    ensures Looping(queue + [Node(succs[i], node.path + [succs[i]])], visited + {succs[i]},
                    queue0, visited0, expanded, node, succs, i + 1)
  {
    Enqueue(queue, visited, expanded, node, succs, i);
    ProgressStep(visited0, queue0, visited, queue, succs[i], Node(succs[i], node.path + [succs[i]]));
    FollowsStep(queue, visited, queue0, visited0, node.path, succs, i);
  }

  /** A successor already visited is passed over. */
  lemma LoopSkip(queue: seq<Node>, visited: set<State>, queue0: seq<Node>, visited0: set<State>,
                 expanded: set<State>, node: Node, succs: seq<State>, i: int)
    requires Looping(queue, visited, queue0, visited0, expanded, node, succs, i) && i < |succs|
    requires succs[i] in visited
    ensures Looping(queue, visited, queue0, visited0, expanded, node, succs, i + 1)
  {
    Skip(queue, visited, expanded, node, succs, i);
    FollowsStep(queue, visited, queue0, visited0, node.path, succs, i);
  }

  /**
    The inner `for succ in ...` loop of `solve_bfs`: each successor not yet
    visited is marked visited and enqueued with its path, in successor order,
    behind the pairs already queued.
   */
  method EnqueueSuccessors(queue0: seq<Node>, visited0: set<State>, ghost expanded: set<State>,
                           node: Node, succs: seq<State>)
    returns (queue: seq<Node>, visited: set<State>)
    requires Expanding(queue0, visited0, expanded, node, succs, 0)
    requires forall t :: t in succs ==> t in Successors(node.st)
    ensures Expanding(queue, visited, expanded, node, succs, |succs|)
    ensures Progress(visited0, queue0, visited, queue)
    ensures queue == queue0 + Enqueued(node.path, succs, visited0)
    ensures visited == visited0 + (set t | t in succs)
  {
    queue, visited := queue0, visited0;
    LoopStart(queue0, visited0, expanded, node, succs);
    for i := 0 to |succs|
      invariant Looping(queue, visited, queue0, visited0, expanded, node, succs, i)
    {
      var succ := succs[i];
      if succ !in visited {
        LoopEnqueue(queue, visited, queue0, visited0, expanded, node, succs, i);
        visited := visited + {succ};
        queue := queue + [Node(succ, node.path + [succ])];
      } else {
        LoopSkip(queue, visited, queue0, visited0, expanded, node, succs, i);
      }
    }
    FollowsDone(queue, visited, queue0, visited0, node.path, succs);
  }

  /**
    `solve_bfs`: the path it returns is a solution no other solution is
    shorter than, so it has the 7 crossings of the known solution; it never
    gives up, because its expanded states would otherwise be closed under
    moves without containing the goal.
   */
  method SolveBfs() returns (r: Option<seq<State>>)
    ensures r.Some? && Shortest(r.value, Goal) && |r.value| == 8
  {
    var queue := [Node(Initial, [Initial])];
    var visited := {Initial};
    ghost var expanded: set<State> := {};
    StartInvariant();
    while queue != []
      invariant Invariant(queue, visited, expanded)
      decreases Unseen(visited), |queue|
    {
      var node := queue[0];
      ghost var before := queue;
      queue := queue[1..];
      if node.st == Goal {
        ShortestSolutionLength(node.path);
        return Some(node.path);
      }
      var succs := GetSuccessors(node.st);
      Dequeue(before, visited, expanded, succs);
      queue, visited := EnqueueSuccessors(queue, visited, expanded, node, succs);
      Expanded(queue, visited, expanded, node);
      expanded := expanded + {node.st};
    }
    ClosedContainsGoal(expanded);
    assert false;
    return None;
  }
}
