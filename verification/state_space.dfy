/**
  The state space of the farmer / wolf / sheep / cabbage river crossing
  (class FarmerLogic, src/ai_algorithms.py): the states, the safety rule
  `is_valid`, the ordered move generator `get_successors` and the
  `heuristic` used by A*.
 */
module StateSpace {
  import opened Wrappers

  /** A river bank: 0 is the starting bank, 1 the far bank. */
  type Bit = x: int | 0 <= x <= 1

  /** Positions of the 4-tuple: the farmer and the three items he ferries. */
  const Farmer := 0
  const Wolf := 1
  const Sheep := 2
  const Cabbage := 3

  /** Which bank each of farmer, wolf, sheep and cabbage is on. */
  datatype State = State(farmer: Bit, wolf: Bit, sheep: Bit, cabbage: Bit) {

    /** The field at position `i`, as `state[i]` indexes the tuple. */
    function At(i: int): Bit
      requires 0 <= i <= 3
    {
      if i == Farmer then farmer
      else if i == Wolf then wolf
      else if i == Sheep then sheep
      else cabbage
    }
  }

  /** The four fields as a list, in tuple order (`list(state)`). */
  function Fields(st: State): (xs: seq<Bit>)
    ensures |xs| == 4
  {
    [st.farmer, st.wolf, st.sheep, st.cabbage]
  }

  /** The state a 4-element list spells (`tuple(new_state)`). */
  function FromFields(xs: seq<Bit>): State
    requires |xs| == 4
  {
    State(xs[0], xs[1], xs[2], xs[3])
  }

  /** Two states that agree at every position are the same state. */
  lemma StatesEqual(a: State, b: State)
    requires forall i :: 0 <= i <= 3 ==> a.At(i) == b.At(i)
    ensures a == b
  {
    assert a.At(0) == b.At(0) && a.At(1) == b.At(1) && a.At(2) == b.At(2) && a.At(3) == b.At(3);
  }

  const Initial := State(0, 0, 0, 0)
  const Goal := State(1, 1, 1, 1)

  // ---------------------------------------------------------------------------
  // The finite state space

  /** The 16 states, in the order Python sorts them. */
  const StateList: seq<State> := [
    State(0, 0, 0, 0), State(0, 0, 0, 1), State(0, 0, 1, 0), State(0, 0, 1, 1),
    State(0, 1, 0, 0), State(0, 1, 0, 1), State(0, 1, 1, 0), State(0, 1, 1, 1),
    State(1, 0, 0, 0), State(1, 0, 0, 1), State(1, 0, 1, 0), State(1, 0, 1, 1),
    State(1, 1, 0, 0), State(1, 1, 0, 1), State(1, 1, 1, 0), State(1, 1, 1, 1)]

  /** The list misses no state. */
  lemma InStateList(st: State)
    ensures st in StateList
  {
    var i := 8 * st.farmer + 4 * st.wolf + 2 * st.sheep + st.cabbage;
    assert StateList[i] == st by {
      if st.farmer == 0 {
        if st.wolf == 0 {
          if st.sheep == 0 { assert i == 0 || i == 1; } else { assert i == 2 || i == 3; }
        } else {
          if st.sheep == 0 { assert i == 4 || i == 5; } else { assert i == 6 || i == 7; }
        }
      } else {
        if st.wolf == 0 {
          if st.sheep == 0 { assert i == 8 || i == 9; } else { assert i == 10 || i == 11; }
        } else {
          if st.sheep == 0 { assert i == 12 || i == 13; } else { assert i == 14 || i == 15; }
        }
      }
    }
  }

  // ---------------------------------------------------------------------------
  // The safety rule

  /**
    `is_valid`: the state is rejected when wolf and sheep share a bank the
    farmer is not on, or sheep and cabbage do.
   */
  predicate IsValid(st: State)
  {
    && !(st.wolf == st.sheep && st.farmer != st.wolf)
    && !(st.sheep == st.cabbage && st.farmer != st.sheep)
  }

  /** The items left on the bank the farmer is not on. */
  function Unattended(st: State): set<int>
  {
    set i | 1 <= i <= 3 && st.At(i) != st.farmer
  }

  /** The puzzle's rule stated directly: no eater is left alone with what it eats. */
  ghost predicate Safe(st: State)
  {
    !({Wolf, Sheep} <= Unattended(st)) && !({Sheep, Cabbage} <= Unattended(st))
  }

  /** `is_valid` rejects exactly the states where an eater is left alone with its food. */
  lemma ValidIffSafe(st: State)
    ensures IsValid(st) <==> Safe(st)
  {
    var u := Unattended(st);
    assert Wolf in u <==> st.wolf != st.farmer;
    assert Sheep in u <==> st.sheep != st.farmer;
    assert Cabbage in u <==> st.cabbage != st.farmer;
  }

  /** The start and goal states satisfy the rule. */
  lemma InitialAndGoalValid()
    ensures IsValid(Initial) && IsValid(Goal)
  {
  }

  // ---------------------------------------------------------------------------
  // Moves

  /** The state after the farmer crosses, alone (`m == 0`) or taking item `m` along. */
  function Crossed(st: State, m: int): (t: State)
    requires 0 <= m <= 3
    ensures t.farmer == 1 - st.farmer
    ensures forall i :: 1 <= i <= 3 ==> t.At(i) == (if i == m then 1 - st.At(i) else st.At(i))
  {
    var f := 1 - st.farmer;
    if m == Wolf then State(f, 1 - st.wolf, st.sheep, st.cabbage)
    else if m == Sheep then State(f, st.wolf, 1 - st.sheep, st.cabbage)
    else if m == Cabbage then State(f, st.wolf, st.sheep, 1 - st.cabbage)
    else State(f, st.wolf, st.sheep, st.cabbage)
  }

  /**
    Move `m` of `get_successors`, before the validity filter: the farmer can
    always cross alone, and can take item `m` only when it is on his bank.
   */
  function Candidate(st: State, m: int): (c: Option<State>)
    requires 0 <= m <= 3
  {
    if m == 0 || st.At(m) == st.farmer then Some(Crossed(st, m)) else None
  }

  /** The candidate kept by the validity filter, as a 0- or 1-element list. */
  function Kept(c: Option<State>): seq<State>
  {
    match c
    case Some(t) => if IsValid(t) then [t] else []
    case None => []
  }

  /** What `get_successors` has collected after trying moves `0 .. n - 1`. */
  function SuccessorsFrom(st: State, n: int): (r: seq<State>)
    requires 0 <= n <= 4
    ensures |r| <= n
  {
    if n == 0 then [] else SuccessorsFrom(st, n - 1) + Kept(Candidate(st, n - 1))
  }

  /** `get_successors(state)`: the valid moves, in the order alone, wolf, sheep, cabbage. */
  function Successors(st: State): (r: seq<State>)
    ensures |r| <= 4
  {
    SuccessorsFrom(st, 4)
  }

  lemma {:induction false} SuccessorsFromValid(st: State, n: int)
    requires 0 <= n <= 4
    ensures forall t :: t in SuccessorsFrom(st, n) ==> IsValid(t)
  {
    if n > 0 {
      SuccessorsFromValid(st, n - 1);
    }
  }

  /** Every state `get_successors` returns passes `is_valid`, and there are at most four. */
  lemma SuccessorsValid(st: State)
    ensures |Successors(st)| <= 4
    ensures forall t :: t in Successors(st) ==> IsValid(t)
  {
    SuccessorsFromValid(st, 4);
  }

  /**
    `get_successors`, as the source runs it: a loop over the four moves that
    appends each possible, valid crossing to a list.
   */
  method GetSuccessors(st: State) returns (successors: seq<State>)
    ensures successors == Successors(st)
  {
    successors := [];
    for move := 0 to 4
      invariant successors == SuccessorsFrom(st, move)
    {
      var c := TryMove(st, move);
      if c.Some? && IsValid(c.value) {
        successors := successors + [c.value];
      }
    }
  }

  /**
    One pass of that loop: copy the state into a list, flip the farmer, flip
    item `move` when it is on his bank, or give up on the move (`continue`).
   */
  method TryMove(st: State, move: int) returns (c: Option<State>)
    requires 0 <= move <= 3
    ensures c == Candidate(st, move)
  {
    var newState := Fields(st);
    newState := newState[Farmer := 1 - st.farmer];
    if move > 0 {
      if st.At(move) == st.farmer {
        newState := newState[move := 1 - st.At(move)];
      } else {
        SkippedMove(st, move);
        return None;
      }
    }
    TakenMove(st, move, newState);
    return Some(FromFields(newState));
  }

  /** A move with an item on the other bank is not possible. */
  lemma SkippedMove(st: State, move: int)
    requires 0 < move <= 3 && st.At(move) != st.farmer
    ensures Candidate(st, move) == None
  {
  }

  /** The list the loop builds for a possible move spells `Crossed(st, move)`. */
  lemma TakenMove(st: State, move: int, newState: seq<Bit>)
    requires 0 <= move <= 3 && (move == 0 || st.At(move) == st.farmer)
    requires newState == if move == 0 then Fields(st)[Farmer := 1 - st.farmer]
                         else Fields(st)[Farmer := 1 - st.farmer][move := 1 - st.At(move)]
    ensures Candidate(st, move) == Some(FromFields(newState))
  {
    var crossed := Fields(st)[Farmer := 1 - st.farmer];
    assert crossed == [1 - st.farmer, st.wolf, st.sheep, st.cabbage];
    if move == 1 {
      assert newState == [1 - st.farmer, 1 - st.wolf, st.sheep, st.cabbage];
    } else if move == 2 {
      assert newState == [1 - st.farmer, st.wolf, 1 - st.sheep, st.cabbage];
    } else if move == 3 {
      assert newState == [1 - st.farmer, st.wolf, st.sheep, 1 - st.cabbage];
    }
  }

  /**
    One crossing, stated independently of the generator: the farmer changes
    bank, and at most one item `m` changes with him, which was on his bank.
   */
  ghost predicate Carries(st: State, t: State, m: int)
    requires 0 <= m <= 3
  {
    && t.farmer == 1 - st.farmer
    && (m > 0 ==> st.At(m) == st.farmer)
    && forall i :: 1 <= i <= 3 ==> t.At(i) == (if i == m then 1 - st.At(i) else st.At(i))
  }

  ghost predicate IsMove(st: State, t: State)
  {
    exists m :: 0 <= m <= 3 && Carries(st, t, m)
  }

  lemma CandidateCarries(st: State, m: int)
    requires 0 <= m <= 3 && Candidate(st, m).Some?
    ensures Carries(st, Candidate(st, m).value, m)
  {
  }

  lemma CarriesIsCandidate(st: State, t: State, m: int)
    requires 0 <= m <= 3 && Carries(st, t, m)
    ensures Candidate(st, m) == Some(t)
  {
    StatesEqual(Candidate(st, m).value, t);
  }

  lemma {:induction false} InSuccessorsFrom(st: State, n: int, t: State)
    requires 0 <= n <= 4
    ensures t in SuccessorsFrom(st, n) <==> exists m :: 0 <= m < n && Candidate(st, m) == Some(t) && IsValid(t)
  {
    if n > 0 {
      InSuccessorsFrom(st, n - 1, t);
      var c := Candidate(st, n - 1);
      assert t in Kept(c) <==> c == Some(t) && IsValid(t);
      if exists m :: 0 <= m < n && Candidate(st, m) == Some(t) && IsValid(t) {
        var m :| 0 <= m < n && Candidate(st, m) == Some(t) && IsValid(t);
        if m < n - 1 {
          assert t in SuccessorsFrom(st, n - 1);
        }
      }
    }
  }

  /** A possible, valid crossing is among the successors. */
  lemma CandidateIsSuccessor(st: State, m: int)
    requires 0 <= m <= 3 && Candidate(st, m).Some? && IsValid(Candidate(st, m).value)
    ensures Candidate(st, m).value in Successors(st)
  {
    InSuccessorsFrom(st, 4, Candidate(st, m).value);
  }

  /** Each successor comes from one of the four moves. */
  lemma SuccessorIsCandidate(st: State, t: State) returns (m: int)
    requires t in Successors(st)
    ensures 0 <= m <= 3 && Candidate(st, m) == Some(t) && IsValid(t)
  {
    InSuccessorsFrom(st, 4, t);
    m :| 0 <= m < 4 && Candidate(st, m) == Some(t) && IsValid(t);
  }

  /** Every crossing takes the farmer to the other bank, so no state is its own successor. */
  lemma SuccessorCrosses(st: State, t: State)
    requires t in Successors(st)
    ensures t.farmer == 1 - st.farmer && t != st
  {
    var m := SuccessorIsCandidate(st, t);
  }

  /**
    A state is a successor exactly when it is valid and one crossing away:
    the generator misses no legal move and produces nothing else.
   */
  lemma SuccessorIffMove(st: State, t: State)
    ensures t in Successors(st) <==> IsValid(t) && IsMove(st, t)
  {
    InSuccessorsFrom(st, 4, t);
    if t in Successors(st) {
      var m :| 0 <= m < 4 && Candidate(st, m) == Some(t) && IsValid(t);
      CandidateCarries(st, m);
    }
    if IsValid(t) && IsMove(st, t) {
      var m :| 0 <= m <= 3 && Carries(st, t, m);
      CarriesIsCandidate(st, t, m);
    }
  }

  /** The item that crossed with the farmer from `st` to `t`, 0 when he crossed alone. */
  function MovedItem(st: State, t: State): int
  {
    if t.wolf != st.wolf then Wolf
    else if t.sheep != st.sheep then Sheep
    else if t.cabbage != st.cabbage then Cabbage
    else 0
  }

  lemma {:induction false} SuccessorsFromOrdered(st: State, n: int)
    requires 0 <= n <= 4
    ensures forall t :: t in SuccessorsFrom(st, n) ==> MovedItem(st, t) < n
    ensures forall i, j :: 0 <= i < j < |SuccessorsFrom(st, n)| ==>
      MovedItem(st, SuccessorsFrom(st, n)[i]) < MovedItem(st, SuccessorsFrom(st, n)[j])
  {
    if n > 0 {
      SuccessorsFromOrdered(st, n - 1);
      var c := Candidate(st, n - 1);
      if c.Some? {
        assert MovedItem(st, c.value) == n - 1;
      }
    }
  }

  /**
    The successors come in the fixed order of `possible_moves`: alone first,
    then with the wolf, the sheep, the cabbage; so no state is listed twice.
   */
  lemma SuccessorsInMoveOrder(st: State)
    ensures forall i, j :: 0 <= i < j < |Successors(st)| ==>
      MovedItem(st, Successors(st)[i]) < MovedItem(st, Successors(st)[j])
    ensures forall i, j :: 0 <= i < j < |Successors(st)| ==> Successors(st)[i] != Successors(st)[j]
  {
    SuccessorsFromOrdered(st, 4);
  }

  // ---------------------------------------------------------------------------
  // The heuristic

  /** How many entries of `xs` are 0. */
  function CountZeros(xs: seq<Bit>): (k: nat)
    ensures k <= |xs|
    ensures k == 0 <==> forall i :: 0 <= i < |xs| ==> xs[i] == 1
  {
    if xs == [] then 0 else (if xs[0] == 0 then 1 else 0) + CountZeros(xs[1..])
  }

  /** `heuristic`: how many of the four are still on the starting bank; 0 only at the goal. */
  function Heuristic(st: State): (h: nat)
    ensures h <= 4
    ensures h == 0 <==> st == Goal
  {
    var xs := Fields(st);
    assert (forall i :: 0 <= i < |xs| ==> xs[i] == 1) <==> st == Goal by {
      if forall i :: 0 <= i < |xs| ==> xs[i] == 1 {
        assert xs[0] == 1 && xs[1] == 1 && xs[2] == 1 && xs[3] == 1;
      }
    }
    CountZeros(xs)
  }

  /** The heuristic is the number of zero fields, i.e. 4 minus the sum of the fields. */
  lemma HeuristicSum(st: State)
    ensures Heuristic(st) == 4 - (st.farmer + st.wolf + st.sheep + st.cabbage)
  {
    var xs := Fields(st);
    assert xs[1..][1..][1..][1..] == [];
  }

  /** One crossing moves at most two of the four, so the heuristic drops by at most 2. */
  lemma HeuristicStep(st: State, t: State)
    requires t in Successors(st)
    ensures Heuristic(st) <= Heuristic(t) + 2
  {
    SuccessorIffMove(st, t);
    var m :| 0 <= m <= 3 && Carries(st, t, m);
    HeuristicSum(st);
    HeuristicSum(t);
    assert t.At(1) == (if 1 == m then 1 - st.At(1) else st.At(1));
    assert t.At(2) == (if 2 == m then 1 - st.At(2) else st.At(2));
    assert t.At(3) == (if 3 == m then 1 - st.At(3) else st.At(3));
  }
}
