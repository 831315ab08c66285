/** The single-agent depth-first solver `solve_maze_step_by_step`, with its
    drawing and pacing calls removed. It marks the cell it enters VISITED,
    tries the neighbours Up, Right, Down, Left, stops at the first success
    and marks the cell DEAD when every neighbour failed. */
module DepthFirst {
  import opened MazeGrid

  /** The neighbour offsets in the solver's order: Up, Right, Down, Left. */
  const SOLVE_ORDER: seq<(int, int)> := [(0, -1), (1, 0), (0, 1), (-1, 0)]

  /** The solver only relabels OPEN cells, to VISITED or DEAD. */
  ghost predicate Relabels(s: Grid, t: Grid) {
    forall p :: At(t, p) == At(s, p) || (At(s, p) == OPEN && (At(t, p) == VISITED || At(t, p) == DEAD))
  }

  /** No 4-neighbour of `p` is OPEN in `t`. */
  ghost predicate Enclosed(t: Grid, p: Pos) {
    (p.y > 0 ==> At(t, Pos(p.x, p.y - 1)) != OPEN) &&
    At(t, Pos(p.x + 1, p.y)) != OPEN &&
    At(t, Pos(p.x, p.y + 1)) != OPEN &&
    (p.x > 0 ==> At(t, Pos(p.x - 1, p.y)) != OPEN)
  }

  /** What a failed search leaves behind: every cell it changed is DEAD and
      has no OPEN neighbour, and the goal was not touched. */
  ghost predicate Exhausted(s: Grid, t: Grid) {
    Relabels(s, t) && At(t, GOAL) == At(s, GOAL) &&
    forall p :: At(t, p) != At(s, p) ==> At(t, p) == DEAD && Enclosed(t, p)
  }

  /** A failed search from `start`: exhausted, and `start` itself was
      relabelled if it was OPEN. */
  ghost predicate Failed(s: Grid, t: Grid, start: Pos) {
    Exhausted(s, t) && (At(s, start) == OPEN ==> At(t, start) != OPEN)
  }

  /** What a successful search leaves behind: `path` is a simple open walk of
      `s` from `start` to the goal, its cells are exactly the changed cells
      now VISITED, and every other changed cell is DEAD. */
  ghost predicate Trail(s: Grid, t: Grid, start: Pos, path: seq<Pos>) {
    OpenPath(s, path) && path[0] == start && path[|path| - 1] == GOAL && Distinct(path) &&
    (forall p :: p in path ==> At(t, p) == VISITED) &&
    (forall p :: At(t, p) != At(s, p) && p !in path ==> At(t, p) == DEAD)
  }

  /** The OPEN cells of a grid: the measure that shrinks on every descent. */
  ghost function OpenCells(g: Grid): set<Pos> {
    set x, y | 0 <= x < GRID_SIZE && 0 <= y < GRID_SIZE && At(g, Pos(x, y)) == OPEN :: Pos(x, y)
  }

  lemma RelabelsShrinksOpen(s: Grid, t: Grid)
    requires Relabels(s, t)
    ensures OpenCells(t) <= OpenCells(s)
  {
    forall p | p in OpenCells(t)
      ensures p in OpenCells(s)
    {
      assert At(t, p) == OPEN;
    }
  }

  lemma RelabelsTrans(s: Grid, t: Grid, u: Grid)
    requires Relabels(s, t) && Relabels(t, u)
    ensures Relabels(s, u)
  {
    forall p
      ensures At(u, p) == At(s, p) || (At(s, p) == OPEN && (At(u, p) == VISITED || At(u, p) == DEAD))
    {
      assert At(t, p) == At(s, p) || At(t, p) != OPEN;
    }
  }

  /** Two exhausted searches in a row form one exhausted search. */
  lemma ExhaustedTrans(s: Grid, t: Grid, u: Grid)
    requires Exhausted(s, t) && Exhausted(t, u)
    ensures Exhausted(s, u)
  {
    RelabelsTrans(s, t, u);
    forall p | At(u, p) != At(s, p)
      ensures At(u, p) == DEAD && Enclosed(u, p)
    {
      if At(t, p) != At(s, p) {
        assert At(t, p) == DEAD && Enclosed(t, p);
        assert At(u, p) == DEAD;
        assert Enclosed(u, p) by {
          var up, right, down, left := Pos(p.x, if p.y > 0 then p.y - 1 else 0), Pos(p.x + 1, p.y), Pos(p.x, p.y + 1), Pos(if p.x > 0 then p.x - 1 else 0, p.y);
          assert p.y > 0 ==> At(t, up) != OPEN && At(u, up) != OPEN;
          assert At(t, right) != OPEN && At(u, right) != OPEN;
          assert At(t, down) != OPEN && At(u, down) != OPEN;
          assert p.x > 0 ==> At(t, left) != OPEN && At(u, left) != OPEN;
        }
      }
    }
  }

  /** Every cell of an open walk of `s` that leaves a failed search's start
      was changed by that search. */
  lemma {:induction false} WalkStaysChanged(s: Grid, t: Grid, start: Pos, path: seq<Pos>, k: nat)
    requires Failed(s, t, start)
    requires OpenPath(s, path) && path[0] == start
    requires k < |path|
    ensures At(t, path[k]) != At(s, path[k])
  {
    if k == 0 {
      assert At(s, start) == OPEN;
    } else {
      WalkStaysChanged(s, t, start, path, k - 1);
      var p, q := path[k - 1], path[k];
      assert Enclosed(t, p);
      assert Adjacent(p, q);
      assert At(t, q) != OPEN;
      assert At(s, q) == OPEN;
    }
  }

  /** A failed search proves that the goal was unreachable from its start. */
  lemma FailedUnreachable(s: Grid, t: Grid, start: Pos)
    requires Failed(s, t, start)
    ensures !Reachable(s, start, GOAL)
  {
    if Reachable(s, start, GOAL) {
      var path :| OpenPath(s, path) && path[0] == start && path[|path| - 1] == GOAL;
      WalkStaysChanged(s, t, start, path, |path| - 1);
      assert false;
    }
  }

  /** An open walk of a later grid is an open walk of an earlier one. */
  lemma OpenPathEarlier(s: Grid, t: Grid, path: seq<Pos>)
    requires Relabels(s, t) && OpenPath(t, path)
    ensures OpenPath(s, path)
  {
    forall k | 0 <= k < |path|
      ensures At(s, path[k]) == OPEN
    {
      assert At(t, path[k]) == OPEN;
    }
  }

  /** Everything a call of the solver from `start` promises, relating the
      grid `s` at call time to the grid `t` at return:
      - it only relabels OPEN cells, to VISITED or DEAD;
      - it succeeds exactly when the goal is reachable from `start` through
        the cells OPEN in `s`;
      - on success the cells it leaves VISITED are a simple walk from `start`
        to the goal and every other cell it changed is DEAD;
      - on failure every cell it changed is DEAD and walled in;
      - a `start` that is not OPEN (out of bounds, wall, visited or dead)
        fails at once and changes nothing;
      - an OPEN goal is marked VISITED and nothing else changes;
      - an OPEN `start` is no longer OPEN afterwards. */
  ghost predicate Solved(s: Grid, t: Grid, start: Pos, found: bool, path: seq<Pos>)
    requires Shaped(s)
  {
    Relabels(s, t) &&
    (found <==> Reachable(s, start, GOAL)) &&
    (found ==> Trail(s, t, start, path)) &&
    (!found ==> Failed(s, t, start)) &&
    (At(s, start) != OPEN ==> !found && t == s) &&
    (start == GOAL && At(s, GOAL) == OPEN ==> found && t == Set(s, GOAL, VISITED)) &&
    (At(s, start) == OPEN ==> At(t, start) != OPEN)
  }

  /** What a call of the solver returns and leaves behind: its result, the
      grid after it, and (a ghost) the walk it found. */
  datatype Descent = Descent(found: bool, grid: Grid, path: seq<Pos>)

  /** The solver as a function of the grid it starts on: a cell out of the
      grid or not OPEN fails at once; the goal is marked VISITED and
      succeeds; any other cell is marked VISITED, its neighbours are tried
      in SOLVE_ORDER until one succeeds, and it is marked DEAD when none
      does. */
  ghost function Explore(g: Grid, p: Pos): (r: Descent)
    requires Shaped(g)
    ensures Shaped(r.grid) && Relabels(g, r.grid)
    decreases OpenCells(g), 0, 0
  {
    if !InBounds(p) || At(g, p) != OPEN then Descent(false, g, [])
    else if p == GOAL then Descent(true, Set(g, p, VISITED), [p])
    else
      var g1 := Set(g, p, VISITED);
      VisitShrinksOpen(g, p);
      var r := Probe(g1, p, 0);
      RelabelsTrans(g, g1, r.grid);
      if r.found then r
      else
        DeadRelabels(g, r.grid, p);
        Descent(false, Set(r.grid, p, DEAD), [])
  }

  /** The neighbours of `p` from the `k`-th of SOLVE_ORDER on, tried in
      order, stopping at the first success; a success prefixes `p` to the
      neighbour's walk. */
  ghost function Probe(g: Grid, p: Pos, k: nat): (r: Descent)
    requires Shaped(g) && k <= 4
    ensures Shaped(r.grid) && Relabels(g, r.grid)
    decreases OpenCells(g), 1, 4 - k
  {
    if k == 4 then Descent(false, g, [])
    else
      var nx, ny := p.x + SOLVE_ORDER[k].0, p.y + SOLVE_ORDER[k].1;
      if nx >= 0 && ny >= 0 then
        var sub := Explore(g, Pos(nx, ny));
        if sub.found then Descent(true, sub.grid, [p] + sub.path)
        else
          RelabelsShrinksOpen(g, sub.grid);
          var rest := Probe(sub.grid, p, k + 1);
          RelabelsTrans(g, sub.grid, rest.grid);
          rest
      else Probe(g, p, k + 1)
  }

  /** Marking an OPEN cell VISITED removes it from the OPEN cells. */
  lemma VisitShrinksOpen(g: Grid, p: Pos)
    requires Shaped(g) && InBounds(p) && At(g, p) == OPEN
    ensures Relabels(g, Set(g, p, VISITED))
    ensures OpenCells(Set(g, p, VISITED)) < OpenCells(g)
  {
    RelabelsShrinksOpen(g, Set(g, p, VISITED));
    assert p in OpenCells(g) - OpenCells(Set(g, p, VISITED));
  }

  /** A cell that was OPEN may end DEAD. */
  lemma DeadRelabels(g: Grid, t: Grid, p: Pos)
    requires Shaped(t) && InBounds(p) && Relabels(g, t) && At(g, p) == OPEN
    ensures Relabels(g, Set(t, p, DEAD))
  {
  }

  /** What trying the neighbours of `p` leaves, `s0` being the grid before
      `p` was marked VISITED and `s1` the grid after: on success a trail
      from `p`, on failure all four neighbours closed and the region
      exhausted. */
  ghost predicate Probed(s0: Grid, s1: Grid, p: Pos, r: Descent) {
    (r.found ==> Relabels(s0, r.grid) && Trail(s0, r.grid, p, r.path) && Reachable(s0, p, GOAL)) &&
    (!r.found ==> Exhausted(s1, r.grid) && ClosedUpTo(r.grid, p, 4))
  }

  /** The solver satisfies `Solved` on every grid and from every cell. */
  lemma {:induction false} ExploreSolved(g: Grid, p: Pos)
    requires Shaped(g)
    ensures Solved(g, Explore(g, p).grid, p, Explore(g, p).found, Explore(g, p).path)
    decreases OpenCells(g), 0, 0, 0
  {
    if !InBounds(p) || At(g, p) != OPEN {
      assert At(g, p) != OPEN;
    } else if p == GOAL {
      assert OpenPath(g, [p]);
    } else {
      var g1 := Set(g, p, VISITED);
      VisitShrinksOpen(g, p);
      ProbeSolved(g, g1, g1, p, 0);
      var r := Probe(g1, p, 0);
      if !r.found {
        var t := Set(r.grid, p, DEAD);
        FailureStep(g, g1, r.grid, t, p);
        FailedUnreachable(g, t, p);
      }
    }
  }

  /** A second search from the same cell, on the grid the first one left,
      fails at once and changes nothing: the first search left that cell
      not OPEN. */
  lemma SecondSearchFails(g: Grid, p: Pos)
    requires Shaped(g)
    ensures !Explore(Explore(g, p).grid, p).found
    ensures Explore(Explore(g, p).grid, p).grid == Explore(g, p).grid
  {
    ExploreSolved(g, p);
    ExploreSolved(Explore(g, p).grid, p);
  }

  /** Trying the neighbours of `p` from the `k`-th on, once the first `k`
      failed, ends as `Probed` says. */
  lemma {:induction false} ProbeSolved(s0: Grid, s1: Grid, g: Grid, p: Pos, k: nat)
    requires Shaped(s0) && InBounds(p) && At(s0, p) == OPEN && p != GOAL && s1 == Set(s0, p, VISITED)
    requires Shaped(g) && k <= 4 && Exhausted(s1, g) && ClosedUpTo(g, p, k)
    ensures Probed(s0, s1, p, Probe(g, p, k))
    decreases OpenCells(g), 1, 4 - k, 1
  {
    if k < 4 {
      var nx, ny := p.x + SOLVE_ORDER[k].0, p.y + SOLVE_ORDER[k].1;
      if nx >= 0 && ny >= 0 {
        NeighbourSolved(s0, s1, g, p, k);
      } else {
        CloseNext(g, g, p, k, nx, ny);
        ProbeSolved(s0, s1, g, p, k + 1);
        ProbeSkip(g, p, k);
      }
    }
  }

  /** `ProbeSolved` at a neighbour that lies on the grid's side of zero:
      the search from it either gives the trail or closes it. */
  lemma {:induction false} NeighbourSolved(s0: Grid, s1: Grid, g: Grid, p: Pos, k: nat)
    requires Shaped(s0) && InBounds(p) && At(s0, p) == OPEN && p != GOAL && s1 == Set(s0, p, VISITED)
    requires Shaped(g) && k < 4 && Exhausted(s1, g) && ClosedUpTo(g, p, k)
    requires p.x + SOLVE_ORDER[k].0 >= 0 && p.y + SOLVE_ORDER[k].1 >= 0
    ensures Probed(s0, s1, p, Probe(g, p, k))
    decreases OpenCells(g), 1, 4 - k, 0
  {
    var n := Pos(p.x + SOLVE_ORDER[k].0, p.y + SOLVE_ORDER[k].1);
    var sub := Explore(g, n);
    ExploreSolved(g, n);
    ProbeNext(g, p, k, sub.found, sub.grid, sub.path);
    if sub.found {
      ProbeHit(s0, s1, g, p, k, n, sub);
    } else {
      ProbeMiss(s1, g, sub.grid, p, k, n, sub.path);
      ProbeSolved(s0, s1, sub.grid, p, k + 1);
    }
  }

  /** A neighbour whose search succeeded gives this call's trail. */
  lemma ProbeHit(s0: Grid, s1: Grid, g: Grid, p: Pos, k: nat, n: Pos, sub: Descent)
    requires Shaped(s0) && InBounds(p) && At(s0, p) == OPEN && p != GOAL && s1 == Set(s0, p, VISITED)
    requires Shaped(g) && k < 4 && Exhausted(s1, g)
    requires n.x == p.x + SOLVE_ORDER[k].0 && n.y == p.y + SOLVE_ORDER[k].1
    requires sub.found && Solved(g, sub.grid, n, sub.found, sub.path)
    ensures Probed(s0, s1, p, Descent(true, sub.grid, [p] + sub.path))
  {
    SuccessStep(s0, s1, g, sub.grid, p, n, sub.path);
  }

  /** A neighbour whose search failed is closed afterwards, and the region
      stays exhausted. */
  lemma ProbeMiss(s1: Grid, g: Grid, g2: Grid, p: Pos, k: nat, n: Pos, path: seq<Pos>)
    requires Shaped(g) && k < 4 && Exhausted(s1, g) && ClosedUpTo(g, p, k)
    requires n.x == p.x + SOLVE_ORDER[k].0 && n.y == p.y + SOLVE_ORDER[k].1
    requires Solved(g, g2, n, false, path)
    ensures Exhausted(s1, g2) && ClosedUpTo(g2, p, k + 1) && OpenCells(g2) <= OpenCells(g)
  {
    ExhaustedTrans(s1, g, g2);
    assert At(g2, n) != OPEN by {
      if At(g, n) != OPEN {
        assert At(g2, n) == At(g, n);
      }
    }
    CloseNext(g, g2, p, k, n.x, n.y);
    RelabelsShrinksOpen(g, g2);
  }

  /** `Explore` from an OPEN cell other than the goal: it marks the cell
      VISITED, probes the neighbours, and on failure marks the cell DEAD. */
  lemma ExploreOpen(g: Grid, p: Pos)
    requires Shaped(g) && InBounds(p) && At(g, p) == OPEN && p != GOAL
    ensures Relabels(g, Set(g, p, VISITED)) && OpenCells(Set(g, p, VISITED)) < OpenCells(g)
    ensures var r := Probe(Set(g, p, VISITED), p, 0);
      Explore(g, p) == if r.found then r else Descent(false, Set(r.grid, p, DEAD), [])
  {
    VisitShrinksOpen(g, p);
  }

  /** `Probe` at a neighbour that lies on the grid's side of zero: the
      first success is the result, a failure moves on to the next one. */
  lemma ProbeNext(g: Grid, p: Pos, k: nat, found: bool, h: Grid, path: seq<Pos>)
    requires Shaped(g) && k < 4 && p.x + SOLVE_ORDER[k].0 >= 0 && p.y + SOLVE_ORDER[k].1 >= 0
    requires Explore(g, Pos(p.x + SOLVE_ORDER[k].0, p.y + SOLVE_ORDER[k].1)) == Descent(found, h, path)
    ensures Shaped(h) && Relabels(g, h)
    ensures found ==> Probe(g, p, k) == Descent(true, h, [p] + path)
    ensures !found ==> Probe(g, p, k) == Probe(h, p, k + 1)
  {
  }

  /** `Probe` skips a neighbour that would lie below zero. */
  lemma ProbeSkip(g: Grid, p: Pos, k: nat)
    requires Shaped(g) && k < 4 && (p.x + SOLVE_ORDER[k].0 < 0 || p.y + SOLVE_ORDER[k].1 < 0)
    ensures Probe(g, p, k) == Probe(g, p, k + 1)
  {
  }

  /** `solve_maze_step_by_step(maze, x, y)`: it computes `Explore`, the
      search `ExploreSolved` shows to satisfy `Solved`. */
  method Solve(maze: array2<u8>, x: nat, y: nat) returns (found: bool, ghost path: seq<Pos>)
    requires Dims(maze)
    modifies maze
    decreases OpenCells(Cells(maze)), 0
    ensures Explore(old(Cells(maze)), Pos(x, y)) == Descent(found, Cells(maze), path)
  {
    ghost var s0 := Cells(maze);
    var here := Pos(x, y);
    if x < GRID_SIZE && y < GRID_SIZE {
      CellsAt(maze, here);
    }
    if x >= GRID_SIZE || y >= GRID_SIZE || maze[y, x] != OPEN {
      found, path := false, [];
      return;
    }
    if here == GOAL {
      Write(maze, here, VISITED);
      found, path := true, [here];
      return;
    }
    Write(maze, here, VISITED);
    ExploreOpen(s0, here);
    found, path := TryNeighbours(maze, here);
    if !found {
      Write(maze, here, DEAD);
    }
  }

  /** The loop of `solve_maze_step_by_step` over the neighbours of `here`,
      Up, Right, Down, Left, returning at the first success: it computes
      `Probe`. */
  method TryNeighbours(maze: array2<u8>, here: Pos) returns (found: bool, ghost path: seq<Pos>)
    requires Dims(maze)
    modifies maze
    decreases OpenCells(Cells(maze)), 1
    ensures Probe(old(Cells(maze)), here, 0) == Descent(found, Cells(maze), path)
    ensures !found ==> path == []
  {
    ghost var s1 := Cells(maze);
    for k := 0 to 4
      invariant Relabels(s1, Cells(maze))
      invariant Probe(s1, here, 0) == Probe(Cells(maze), here, k)
    {
      var dx, dy := SOLVE_ORDER[k].0, SOLVE_ORDER[k].1;
      var nx, ny := here.x + dx, here.y + dy;
      ghost var before := Cells(maze);
      if nx >= 0 && ny >= 0 {
        RelabelsShrinksOpen(s1, before);
        var ok;
        ghost var sub;
        ok, sub := Solve(maze, nx, ny);
        ghost var after := Cells(maze);
        ProbeNext(before, here, k, ok, after, sub);
        if ok {
          found, path := true, [here] + sub;
          return;
        }
        RelabelsTrans(s1, before, after);
      } else {
        ProbeSkip(before, here, k);
      }
    }
    found, path := false, [];
  }

  /** The neighbours tried so far, among the first `k` of SOLVE_ORDER, are
      no longer OPEN. */
  ghost predicate ClosedUpTo(g: Grid, p: Pos, k: nat) {
    (k > 0 && p.y > 0 ==> At(g, Pos(p.x, p.y - 1)) != OPEN) &&
    (k > 1 ==> At(g, Pos(p.x + 1, p.y)) != OPEN) &&
    (k > 2 ==> At(g, Pos(p.x, p.y + 1)) != OPEN) &&
    (k > 3 && p.x > 0 ==> At(g, Pos(p.x - 1, p.y)) != OPEN)
  }

  lemma CloseNext(before: Grid, after: Grid, p: Pos, k: nat, nx: int, ny: int)
    requires k < 4 && Relabels(before, after) && ClosedUpTo(before, p, k)
    requires nx == p.x + SOLVE_ORDER[k].0 && ny == p.y + SOLVE_ORDER[k].1
    requires nx >= 0 && ny >= 0 ==> At(after, Pos(nx, ny)) != OPEN
    ensures ClosedUpTo(after, p, k + 1)
  {
    if p.y > 0 { assert At(before, Pos(p.x, p.y - 1)) != OPEN ==> At(after, Pos(p.x, p.y - 1)) != OPEN; }
    assert At(before, Pos(p.x + 1, p.y)) != OPEN ==> At(after, Pos(p.x + 1, p.y)) != OPEN;
    assert At(before, Pos(p.x, p.y + 1)) != OPEN ==> At(after, Pos(p.x, p.y + 1)) != OPEN;
    if p.x > 0 { assert At(before, Pos(p.x - 1, p.y)) != OPEN ==> At(after, Pos(p.x - 1, p.y)) != OPEN; }
  }

  /** The bookkeeping of a successful descent: prefixing the current cell to
      the neighbour's trail gives this call's trail. */
  lemma SuccessStep(s0: Grid, s1: Grid, before: Grid, after: Grid, here: Pos, next: Pos, sub: seq<Pos>)
    requires Shaped(s0) && InBounds(here) && At(s0, here) == OPEN && here != GOAL
    requires s1 == Set(s0, here, VISITED)
    requires Exhausted(s1, before) && Relabels(before, after)
    requires Trail(before, after, next, sub) && Adjacent(here, next)
    ensures Relabels(s0, after)
    ensures Trail(s0, after, here, [here] + sub)
    ensures Reachable(s0, here, GOAL)
  {
    var path := [here] + sub;
    assert Relabels(s0, s1);
    RelabelsTrans(s0, s1, before);
    RelabelsTrans(s0, before, after);
    OpenPathEarlier(s0, before, sub);
    assert OpenPath(s0, path) by {
      forall k | 0 < k < |path|
        ensures Adjacent(path[k - 1], path[k])
      {
        if k > 1 {
          assert path[k - 1] == sub[k - 2] && path[k] == sub[k - 1];
        }
      }
    }
    assert here !in sub by {
      forall k | 0 <= k < |sub|
        ensures sub[k] != here
      {
        assert At(before, sub[k]) == OPEN;
      }
    }
    assert Distinct(path) by {
      forall i, j | 0 <= i < j < |path|
        ensures path[i] != path[j]
      {
        if i > 0 {
          assert path[i] == sub[i - 1] && path[j] == sub[j - 1];
        } else {
          assert path[j] == sub[j - 1];
        }
      }
    }
    forall p | p in path
      ensures At(after, p) == VISITED
    {
      if p == here {
        assert At(before, here) == VISITED;
      }
    }
    forall p | At(after, p) != At(s0, p) && p !in path
      ensures At(after, p) == DEAD
    {
      if At(after, p) == At(before, p) {
        assert At(before, p) != At(s1, p);
      }
    }
    assert Trail(s0, after, here, path);
  }

  /** Marking a cell DEAD opens nothing, so an enclosed cell stays so. */
  lemma DeadKeepsEnclosed(g: Grid, here: Pos, p: Pos)
    requires Shaped(g) && InBounds(here) && Enclosed(g, p)
    ensures Enclosed(Set(g, here, DEAD), p)
  {
  }

  /** The bookkeeping of a failed call: all four neighbours closed, then the
      current cell marked DEAD, give an exhausted search from it. */
  lemma FailureStep(s0: Grid, s1: Grid, s5: Grid, t: Grid, here: Pos)
    requires Shaped(s0) && InBounds(here) && At(s0, here) == OPEN && here != GOAL
    requires s1 == Set(s0, here, VISITED) && Shaped(s5)
    requires Exhausted(s1, s5) && Enclosed(s5, here)
    requires t == Set(s5, here, DEAD)
    ensures Relabels(s0, t)
    ensures Failed(s0, t, here)
  {
    forall p
      ensures At(t, p) == At(s0, p) || (At(s0, p) == OPEN && (At(t, p) == VISITED || At(t, p) == DEAD))
    {
      if p != here {
        assert At(s5, p) == At(s1, p) || (At(s1, p) == OPEN && (At(s5, p) == VISITED || At(s5, p) == DEAD));
      }
    }
    forall p | At(t, p) != At(s0, p)
      ensures At(t, p) == DEAD && Enclosed(t, p)
    {
      if p != here {
        assert At(s5, p) != At(s1, p);
      }
      DeadKeepsEnclosed(s5, here, p);
    }
    assert At(t, GOAL) == At(s0, GOAL) by {
      assert At(s5, GOAL) == At(s1, GOAL);
    }
  }
}
