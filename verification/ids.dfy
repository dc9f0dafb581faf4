/**
  `solve_ids` and `dls`: iterative deepening over a depth-limited
  depth-first search that never steps onto a state already on the current
  path.
 */
module Ids {
  import opened Wrappers
  import opened StateSpace
  import opened Paths

  // ---------------------------------------------------------------------------
  // Depth-limited search

  /**
    `dls(current, path, limit)`: `path` itself when `current` is the goal,
    nothing once the limit is used up, and otherwise the first answer found
    below a successor that is not already on `path`.
   */
  function Dls(current: State, path: seq<State>, limit: int): (r: Option<seq<State>>)
    ensures r.Some? ==> path <= r.value
    decreases limit, 1
  {
    if current == Goal then Some(path)
    else if limit <= 0 then None
    else DlsChildren(path, limit, Successors(current))
  }

  /** The `for succ in ...` loop of `dls`, over the successors still to try. */
  function DlsChildren(path: seq<State>, limit: int, succs: seq<State>): (r: Option<seq<State>>)
    requires limit > 0
    ensures r.Some? ==> path <= r.value
    decreases limit, 0, |succs|
  {
    if succs == [] then None
    else if succs[0] !in path then
      match Dls(succs[0], path + [succs[0]], limit - 1)
      case Some(found) => Some(found)
      case None => DlsChildren(path, limit, succs[1..])
    else DlsChildren(path, limit, succs[1..])
  }

  // ---------------------------------------------------------------------------
  // Routes: how a path continues from `current` to the goal

  /** `ext` continues from `c` by legal crossings and ends at the goal (at `c` itself if empty). */
  ghost predicate Route(c: State, ext: seq<State>)
    decreases |ext|
  {
    if ext == [] then c == Goal else ext[0] in Successors(c) && Route(ext[0], ext[1..])
  }

  /** Each state of `ext` is new: not on `path`, nor earlier in `ext`. */
  ghost predicate Fresh(path: seq<State>, ext: seq<State>)
    decreases |ext|
  {
    ext == [] || (ext[0] !in path && Fresh(path + [ext[0]], ext[1..]))
  }

  lemma IsPathPrepend(c: State, p: seq<State>)
    requires p != [] && p[0] in Successors(c) && IsPath(p)
    ensures IsPath([c] + p)
  {
    var q := [c] + p;
    forall i | 0 <= i < |q| - 1
      ensures q[i + 1] in Successors(q[i])
    {
      if i > 0 {
        assert q[i] == p[i - 1] && q[i + 1] == p[i];
      }
    }
  }

  lemma IsPathBehead(c: State, p: seq<State>)
    requires p != [] && IsPath([c] + p)
    ensures p[0] in Successors(c) && IsPath(p)
  {
    var q := [c] + p;
    forall i | 0 <= i < |p| - 1
      ensures p[i + 1] in Successors(p[i])
    {
      assert q[i + 1] == p[i] && q[i + 2] == p[i + 1];
    }
    assert q[0] == c && q[1] == p[0];
  }

  /** A route from `c` is exactly a path from `c` that ends at the goal. */
  lemma {:induction false} RouteIffPath(c: State, ext: seq<State>)
    ensures Route(c, ext) <==> IsPath([c] + ext) && ([c] + ext)[|ext|] == Goal
    decreases |ext|
  {
    if ext != [] {
      RouteIffPath(ext[0], ext[1..]);
      assert [ext[0]] + ext[1..] == ext;
      assert ([c] + ext)[|ext|] == ([ext[0]] + ext[1..])[|ext| - 1];
      if Route(c, ext) {
        IsPathPrepend(c, ext);
      }
      if IsPath([c] + ext) {
        IsPathBehead(c, ext);
      }
    } else {
      assert IsPath([c]);
    }
  }

  /** On a path without repeats, `ext` adds only new states exactly when the whole stays without repeats. */
  lemma {:induction false} FreshIffDistinct(path: seq<State>, ext: seq<State>)
    requires Distinct(path)
    ensures Fresh(path, ext) <==> Distinct(path + ext)
    decreases |ext|
  {
    if ext == [] {
      assert path + ext == path;
    } else {
      var path' := path + [ext[0]];
      assert path' + ext[1..] == path + ext;
      if ext[0] in path {
        var i :| 0 <= i < |path| && path[i] == ext[0];
        assert (path + ext)[i] == (path + ext)[|path|];
      } else {
        assert Distinct(path') by {
          forall i, j | 0 <= i < j < |path'|
            ensures path'[i] != path'[j]
          {
            assert path'[i] == path[i];
          }
        }
        FreshIffDistinct(path', ext[1..]);
      }
    }
  }

  // ---------------------------------------------------------------------------
  // What `dls` finds

  /**
    What `dls` returns starts with `path`, adds at most `limit` states, each
    new, and continues from `current` to the goal.
   */
  ghost predicate Found(current: State, path: seq<State>, limit: int, r: seq<State>)
  {
    && |path| <= |r| <= |path| + (if limit < 0 then 0 else limit)
    && r[..|path|] == path
    && Route(current, r[|path|..])
    && Fresh(path, r[|path|..])
  }

  /** A state found below the successor `s` of `current`, prefixed by `s`, is found from `current`. */
  lemma FoundStep(current: State, path: seq<State>, limit: int, s: State, r: seq<State>)
    requires limit > 0 && s in Successors(current) && s !in path
    requires Found(s, path + [s], limit - 1, r)
    ensures Found(current, path, limit, r)
  {
    assert r[..|path|] == r[..|path| + 1][..|path|];
    assert r[|path|] == r[..|path| + 1][|path|];
    var ext := r[|path|..];
    assert ext[0] == s && ext[1..] == r[|path| + 1..];
  }

  lemma {:induction false} DlsSound(current: State, path: seq<State>, limit: int)
    ensures var r := Dls(current, path, limit); r.Some? ==> Found(current, path, limit, r.value)
    decreases limit, 1
  {
    if current != Goal && limit > 0 {
      DlsChildrenSound(current, path, limit, Successors(current));
    }
  }

  lemma {:induction false} DlsChildrenSound(current: State, path: seq<State>, limit: int, succs: seq<State>)
    requires limit > 0 && forall t :: t in succs ==> t in Successors(current)
    ensures var r := DlsChildren(path, limit, succs); r.Some? ==> Found(current, path, limit, r.value)
    decreases limit, 0, |succs|
  {
    if succs != [] {
      var s := succs[0];
      var below := Dls(s, path + [s], limit - 1);
      if s !in path && below.Some? {
        assert DlsChildren(path, limit, succs) == below;
        DlsSound(s, path + [s], limit - 1);
        FoundStep(current, path, limit, s, below.value);
      } else {
        assert DlsChildren(path, limit, succs) == DlsChildren(path, limit, succs[1..]);
        DlsChildrenSound(current, path, limit, succs[1..]);
      }
    }
  }

  /**
    `dls` misses nothing within its limit: if some continuation of at most
    `limit` new states leads from `current` to the goal, it finds an answer.
   */
  lemma {:induction false} DlsComplete(current: State, path: seq<State>, limit: int, ext: seq<State>)
    requires Route(current, ext) && Fresh(path, ext) && |ext| <= limit
    ensures Dls(current, path, limit).Some?
    decreases limit, 1
  {
    if current != Goal {
      var succs := Successors(current);
      DlsChildrenComplete(path, limit, succs, ext);
    }
  }

  lemma {:induction false} DlsChildrenComplete(path: seq<State>, limit: int, succs: seq<State>, ext: seq<State>)
    requires limit > 0 && ext != [] && ext[0] in succs
    requires Route(ext[0], ext[1..]) && Fresh(path, ext) && |ext| <= limit
    ensures DlsChildren(path, limit, succs).Some?
    decreases limit, 0, |succs|
  {
    var s := succs[0];
    if s == ext[0] {
      DlsComplete(s, path + [s], limit - 1, ext[1..]);
    } else if !(s !in path && Dls(s, path + [s], limit - 1).Some?) {
      DlsChildrenComplete(path, limit, succs[1..], ext);
    }
  }

  /** Depth-limited search from the start finds a solution without repeats, of at most `limit` crossings. */
  lemma DlsFromStart(limit: int)
    requires Dls(Initial, [Initial], limit).Some?
    ensures var r := Dls(Initial, [Initial], limit).value;
      IsSolution(r) && Distinct(r) && |r| <= limit + 1
  {
    var r := Dls(Initial, [Initial], limit).value;
    DlsSound(Initial, [Initial], limit);
    var ext := r[1..];
    assert r == [Initial] + ext;
    RouteIffPath(Initial, ext);
    FreshIffDistinct([Initial], ext);
  }

  /** With a limit of 7 crossings or more, depth-limited search from the start finds a solution. */
  lemma DlsFinds(limit: int)
    requires limit >= 7
    ensures Dls(Initial, [Initial], limit).Some?
  {
    KnownSolutionIsSolution();
    var ext := KnownSolution[1..];
    assert [Initial] + ext == KnownSolution;
    RouteIffPath(Initial, ext);
    FreshIffDistinct([Initial], ext);
    DlsComplete(Initial, [Initial], limit, ext);
  }

  /** Below a limit of 7 nothing is found, so whatever is found at a limit up to 7 has exactly 7 crossings. */
  lemma FoundAtSeven(limit: int)
    requires 0 <= limit <= 7 && Dls(Initial, [Initial], limit).Some?
    ensures var r := Dls(Initial, [Initial], limit).value;
      limit == 7 && IsSolution(r) && Distinct(r) && |r| == 8
  {
    DlsFromStart(limit);
    MinimumMoves(Dls(Initial, [Initial], limit).value);
  }

  // ---------------------------------------------------------------------------
  // Iterative deepening

  /** Every limit below `limit` found nothing. */
  ghost predicate NoneBelow(limit: int)
  {
    forall d :: 0 <= d < limit ==> Dls(Initial, [Initial], d).None?
  }

  lemma NoneBelowStep(limit: int)
    requires NoneBelow(limit) && Dls(Initial, [Initial], limit).None?
    ensures NoneBelow(limit + 1)
  {
  }

  /**
    `solve_ids`: limits 0 to 6 find nothing, since every solution has at
    least 7 crossings, and limit 7 finds a solution; so it returns the answer
    of the smallest limit that has one, a shortest solution without repeats,
    and never reaches its cut-off of 25.
   */
  method SolveIds() returns (r: Option<seq<State>>)
    ensures r.Some? && IsSolution(r.value) && Distinct(r.value) && |r.value| == 8
    ensures r == Dls(Initial, [Initial], |r.value| - 1)
    ensures forall d :: 0 <= d < |r.value| - 1 ==> Dls(Initial, [Initial], d).None?
  {
    var depthLimit := 0;
    while true
      invariant 0 <= depthLimit <= 7
      invariant NoneBelow(depthLimit)
      decreases 7 - depthLimit
    {
      var result := Dls(Initial, [Initial], depthLimit);
      if result.Some? {
        FoundAtSeven(depthLimit);
        return result;
      }
      if depthLimit >= 7 {
        DlsFinds(depthLimit);
        assert false;
      }
      NoneBelowStep(depthLimit);
      depthLimit := depthLimit + 1;
      if depthLimit > 25 {
        assert false;
        return None;
      }
    }
  }
}
