/**
  Paths through the state space: what every solver's answer must be, the
  closure argument behind "the frontier cannot run dry", and the fact that
  no solution has fewer than 7 crossings.
 */
module Paths {
  import opened StateSpace

  /** A non-empty list of states, each a successor of the one before. */
  ghost predicate IsPath(p: seq<State>)
  {
    |p| > 0 && forall i :: 0 <= i < |p| - 1 ==> p[i + 1] in Successors(p[i])
  }

  /** `p` leads from the initial state to `x`. */
  ghost predicate Reaches(p: seq<State>, x: State)
  {
    IsPath(p) && p[0] == Initial && p[|p| - 1] == x
  }

  /** A solution: a chain of legal crossings from the initial state to the goal. */
  ghost predicate IsSolution(p: seq<State>)
  {
    Reaches(p, Goal)
  }

  /** No state occurs twice. */
  ghost predicate Distinct(p: seq<State>)
  {
    forall i, j :: 0 <= i < j < |p| ==> p[i] != p[j]
  }

  /** Every state on a path from the initial state satisfies `is_valid`. */
  lemma ReachesValid(p: seq<State>, x: State)
    requires Reaches(p, x)
    ensures forall i :: 0 <= i < |p| ==> IsValid(p[i])
  {
    InitialAndGoalValid();
    forall i | 0 < i < |p|
      ensures IsValid(p[i])
    {
      SuccessorsValid(p[i - 1]);
    }
  }

  /** A path extended by a successor of its last state is a path to that successor. */
  lemma ReachesExtend(p: seq<State>, x: State, t: State)
    requires Reaches(p, x) && t in Successors(x)
    ensures Reaches(p + [t], t)
  {
    var q := p + [t];
    forall i | 0 <= i < |q| - 1
      ensures q[i + 1] in Successors(q[i])
    {
      if i < |p| - 1 {
        assert q[i] == p[i] && q[i + 1] == p[i + 1];
      }
    }
  }

  /** Dropping the last state of a path leaves a path to the state before it. */
  lemma ReachesPrefix(p: seq<State>, x: State)
    requires Reaches(p, x) && |p| > 1
    ensures Reaches(p[..|p| - 1], p[|p| - 2])
    ensures x in Successors(p[|p| - 2])
  {
    var q := p[..|p| - 1];
    forall i | 0 <= i < |q| - 1
      ensures q[i + 1] in Successors(q[i])
    {
      assert q[i] == p[i] && q[i + 1] == p[i + 1];
    }
  }

  /** Any tail of a path is a path. */
  lemma PathSuffix(p: seq<State>, k: int)
    requires IsPath(p) && 0 <= k < |p|
    ensures IsPath(p[k..])
  {
    var q := p[k..];
    forall i | 0 <= i < |q| - 1
      ensures q[i + 1] in Successors(q[i])
    {
      assert q[i] == p[k + i] && q[i + 1] == p[k + i + 1];
    }
  }

  /** A set of states that contains every successor of each of its members. */
  ghost predicate Closed(c: set<State>)
  {
    forall x, t :: x in c && t in Successors(x) ==> t in c
  }

  /** Every successor of a state in `c` is in `d`. */
  ghost predicate ClosedInto(c: set<State>, d: set<State>)
  {
    forall x, t :: x in c && t in Successors(x) ==> t in d
  }

  lemma ClosedIntoGrow(c: set<State>, d: set<State>, e: set<State>)
    requires ClosedInto(c, d) && d <= e
    ensures ClosedInto(c, e)
  {
  }

  /** A closed set containing the initial state contains every state a path reaches. */
  lemma {:induction false} ClosedContainsReachable(c: set<State>, p: seq<State>, x: State)
    requires Initial in c && Closed(c) && Reaches(p, x)
    ensures x in c
    decreases |p|
  {
    if |p| > 1 {
      ReachesPrefix(p, x);
      ClosedContainsReachable(c, p[..|p| - 1], p[|p| - 2]);
    }
  }

  /** `p` reaches `x` and no path to `x` has fewer states. */
  ghost predicate Shortest(p: seq<State>, x: State)
  {
    Reaches(p, x) && forall q :: Reaches(q, x) ==> |p| <= |q|
  }

  // ---------------------------------------------------------------------------
  // The known shortest solution and the lower bound on its length

  /** A 7-crossing solution: sheep over, back, wolf over, sheep back, cabbage over, back, sheep over. */
  const KnownSolution: seq<State> := [
    State(0, 0, 0, 0), State(1, 0, 1, 0), State(0, 0, 1, 0), State(1, 1, 1, 0),
    State(0, 1, 0, 0), State(1, 1, 0, 1), State(0, 1, 0, 1), State(1, 1, 1, 1)]

  /** Crossing `i` of the known solution is a legal move. */
  lemma KnownStep(i: int)
    requires 0 <= i < 7
    ensures KnownSolution[i + 1] in Successors(KnownSolution[i])
  {
    var m := if i == 0 then Sheep else if i == 1 then 0 else if i == 2 then Wolf
      else if i == 3 then Sheep else if i == 4 then Cabbage else if i == 5 then 0 else Sheep;
    CandidateIsSuccessor(KnownSolution[i], m);
  }

  lemma KnownSolutionIsPath()
    ensures IsPath(KnownSolution)
  {
    var p := KnownSolution;
    forall i | 0 <= i < |p| - 1
      ensures p[i + 1] in Successors(p[i])
    {
      KnownStep(i);
    }
  }

  lemma KnownSolutionDistinct()
    ensures Distinct(KnownSolution)
  {
  }

  /** The known solution is a solution of 7 crossings that never revisits a state. */
  lemma KnownSolutionIsSolution()
    ensures IsSolution(KnownSolution) && Distinct(KnownSolution) && |KnownSolution| == 8
  {
    KnownSolutionIsPath();
    KnownSolutionDistinct();
  }

  /** The fewest crossings from the initial state to each valid state (0 for invalid states). */
  function Dist(st: State): nat
  {
    if st == State(0, 0, 0, 0) then 0
    else if st == State(1, 0, 1, 0) then 1
    else if st == State(0, 0, 1, 0) then 2
    else if st == State(1, 1, 1, 0) || st == State(1, 0, 1, 1) then 3
    else if st == State(0, 1, 0, 0) || st == State(0, 0, 0, 1) then 4
    else if st == State(1, 1, 0, 1) then 5
    else if st == State(0, 1, 0, 1) then 6
    else if st == State(1, 1, 1, 1) then 7
    else 0
  }

  /** Crossing alone raises `Dist` by at most one. */
  lemma DistCrossingAlone(st: State, t: State)
    requires IsValid(st) && IsValid(t) && t == State(1 - st.farmer, st.wolf, st.sheep, st.cabbage)
    ensures Dist(t) <= Dist(st) + 1
  {
  }

  /** Crossing with the wolf raises `Dist` by at most one. */
  lemma DistCrossingWolf(st: State, t: State)
    requires IsValid(st) && IsValid(t) && t == State(1 - st.farmer, 1 - st.wolf, st.sheep, st.cabbage)
    ensures Dist(t) <= Dist(st) + 1
  {
  }

  /** Crossing with the sheep raises `Dist` by at most one. */
  lemma DistCrossingSheep(st: State, t: State)
    requires IsValid(st) && IsValid(t) && t == State(1 - st.farmer, st.wolf, 1 - st.sheep, st.cabbage)
    ensures Dist(t) <= Dist(st) + 1
  {
  }

  /** Crossing with the cabbage raises `Dist` by at most one. */
  lemma DistCrossingCabbage(st: State, t: State)
    requires IsValid(st) && IsValid(t) && t == State(1 - st.farmer, st.wolf, st.sheep, 1 - st.cabbage)
    ensures Dist(t) <= Dist(st) + 1
  {
  }

  /** One crossing raises `Dist` by at most one. */
  lemma DistStep(st: State, t: State)
    requires IsValid(st) && t in Successors(st)
    ensures Dist(t) <= Dist(st) + 1
  {
    var m := SuccessorIsCandidate(st, t);
    if m == 0 { DistCrossingAlone(st, t); }
    else if m == Wolf { DistCrossingWolf(st, t); }
    else if m == Sheep { DistCrossingSheep(st, t); }
    else { DistCrossingCabbage(st, t); }
  }

  lemma {:induction false} DistAlongPath(p: seq<State>, x: State, k: int)
    requires Reaches(p, x) && 0 <= k < |p|
    ensures Dist(p[k]) <= k
  {
    if k > 0 {
      DistAlongPath(p, x, k - 1);
      ReachesValid(p, x);
      DistStep(p[k - 1], p[k]);
    }
  }

  /** No solution has fewer than 7 crossings, so `KnownSolution` is a shortest one. */
  lemma MinimumMoves(p: seq<State>)
    requires IsSolution(p)
    ensures |p| >= 8
  {
    DistAlongPath(p, Goal, |p| - 1);
  }

  /** A shortest solution has exactly 7 crossings. */
  lemma ShortestSolutionLength(p: seq<State>)
    requires Shortest(p, Goal)
    ensures |p| == 8
  {
    KnownSolutionIsSolution();
    MinimumMoves(p);
  }

  /**
    The farmer changes bank on every crossing, so after `k` crossings from
    the start he is on bank `k % 2`.
   */
  lemma {:induction false} FarmerParity(p: seq<State>, x: State, k: int)
    requires Reaches(p, x) && 0 <= k < |p|
    ensures p[k].farmer == k % 2
    decreases k
  {
    if k > 0 {
      FarmerParity(p, x, k - 1);
      SuccessorCrosses(p[k - 1], p[k]);
    }
  }

  /**
    A solution of at most 8 crossings is a shortest one, of exactly 7: it
    ends with the farmer on the far bank, so it has an even number of
    states, and none has fewer than 8.
   */
  lemma ShortSolution(p: seq<State>)
    requires IsSolution(p) && |p| <= 9
    ensures Shortest(p, Goal) && |p| == 8
  {
    FarmerParity(p, Goal, |p| - 1);
    MinimumMoves(p);
    forall q | Reaches(q, Goal)
      ensures |p| <= |q|
    {
      MinimumMoves(q);
    }
  }

  /**
    A set closed under moves that holds the initial state holds the goal:
    a search whose expanded states are closed must have met the goal.
   */
  lemma ClosedContainsGoal(c: set<State>)
    requires Initial in c && Closed(c)
    ensures Goal in c
  {
    KnownSolutionIsSolution();
    ClosedContainsReachable(c, KnownSolution, Goal);
  }

  // ---------------------------------------------------------------------------
  // How far the heuristic is from the true remaining cost

  /**
    The heuristic never exceeds twice the crossings still needed: each
    crossing moves at most two of the four to the far bank.
   */
  lemma {:induction false} HeuristicAtMostTwiceRemaining(p: seq<State>)
    requires IsPath(p) && p[|p| - 1] == Goal
    ensures Heuristic(p[0]) <= 2 * (|p| - 1)
  {
    if |p| > 1 {
      var q := p[1..];
      assert IsPath(q) by {
        forall i | 0 <= i < |q| - 1
          ensures q[i + 1] in Successors(q[i])
        {
          assert q[i] == p[i + 1] && q[i + 1] == p[i + 2];
        }
      }
      HeuristicAtMostTwiceRemaining(q);
      HeuristicStep(p[0], p[1]);
    }
  }

  /**
    The heuristic is not admissible: from (0, 1, 0, 1) the goal is one
    crossing away, yet two of the four are still on the starting bank.
   */
  lemma HeuristicOverestimates()
    ensures Heuristic(State(0, 1, 0, 1)) == 2
    ensures Goal in Successors(State(0, 1, 0, 1))
  {
    HeuristicSum(State(0, 1, 0, 1));
    CandidateIsSuccessor(State(0, 1, 0, 1), Sheep);
  }

  /**
    Along the known solution, the crossings made plus the heuristic never
    exceed 8; the largest sum, 8, is at `(0,1,0,1)`, six crossings in.
   */
  lemma KnownEstimate(i: int)
    requires 0 <= i < 8
    ensures i + Heuristic(KnownSolution[i]) <= 8
  {
    HeuristicSum(KnownSolution[i]);
  }
}
