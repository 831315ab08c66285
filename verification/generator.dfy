/** The maze generator `create_maze` with its nested recursive `carve`:
    recursive-backtracking carving over the odd-coordinate lattice in steps
    of two, then the start and goal re-opened and the outer ring re-walled.
    The `thread_rng` shuffle is an explicit source of permutations. */
module Generator {
  import opened MazeGrid

  /** A carving step `(dx, dy)`. */
  datatype Step = Step(dx: int, dy: int)

  /** The step vectors in the order the program lists them before shuffling. */
  const STEPS: seq<Step> := [Step(0, -2), Step(2, 0), Step(0, 2), Step(-2, 0)]

  /** An order of the four step vectors: what one `dirs.shuffle` produces. */
  type Shuffle = dirs: seq<Step> | |dirs| == 4 && multiset(dirs) == multiset(STEPS) witness STEPS

  /** The state of cell (x, y), walls outside the matrix. */
  function AtXY(g: Grid, x: int, y: int): u8 {
    if x >= 0 && y >= 0 then At(g, Pos(x, y)) else WALL
  }

  /** Carving only opens cells: every cell keeps its state or becomes OPEN. */
  ghost predicate OnlyOpens(s: Grid, t: Grid) {
    forall p :: At(t, p) == At(s, p) || At(t, p) == OPEN
  }

  /** A junction of the lattice through `c`: both coordinates of the same
      parity as `c`'s. */
  predicate Junction(c: Pos, p: Pos) {
    (p.x - c.x) % 2 == 0 && (p.y - c.y) % 2 == 0
  }

  /** A pillar of the lattice through `c`: both coordinates of the other
      parity; these cells lie between four junctions and are never carved. */
  predicate Pillar(c: Pos, p: Pos) {
    (p.x - c.x) % 2 != 0 && (p.y - c.y) % 2 != 0
  }

  /** Every step target of `p` that lies strictly inside the ring is
      non-wall. */
  ghost predicate Saturated(g: Grid, p: Pos) {
    forall i :: 0 <= i < 4 && Interior(p.x + STEPS[i].dx, p.y + STEPS[i].dy) ==>
      AtXY(g, p.x + STEPS[i].dx, p.y + STEPS[i].dy) != WALL
  }

  /** The wall cells: the measure that shrinks before every recursive carve. */
  ghost function WallCells(g: Grid): set<Pos> {
    set x, y | 0 <= x < GRID_SIZE && 0 <= y < GRID_SIZE && At(g, Pos(x, y)) == WALL :: Pos(x, y)
  }

  lemma OnlyOpensShrinksWalls(s: Grid, t: Grid)
    requires OnlyOpens(s, t)
    ensures WallCells(t) <= WallCells(s)
  {
    forall p | p in WallCells(t)
      ensures p in WallCells(s)
    {
      assert At(t, p) == WALL;
    }
  }

  lemma OnlyOpensTrans(s: Grid, t: Grid, u: Grid)
    requires OnlyOpens(s, t) && OnlyOpens(t, u)
    ensures OnlyOpens(s, u)
  {
    forall p
      ensures At(u, p) == At(s, p) || At(u, p) == OPEN
    {
      assert At(t, p) == At(s, p) || At(t, p) == OPEN;
    }
  }

  lemma OnlyOpensKeepsOpen(s: Grid, t: Grid)
    requires OnlyOpens(s, t)
    ensures OpenKept(s, t)
  {
    forall p | At(s, p) == OPEN
      ensures At(t, p) == OPEN
    {
      assert At(t, p) == At(s, p) || At(t, p) == OPEN;
    }
  }

  lemma SaturatedKept(s: Grid, t: Grid, p: Pos)
    requires OnlyOpens(s, t) && Saturated(s, p)
    ensures Saturated(t, p)
  {
    forall i | 0 <= i < 4 && Interior(p.x + STEPS[i].dx, p.y + STEPS[i].dy)
      ensures AtXY(t, p.x + STEPS[i].dx, p.y + STEPS[i].dy) != WALL
    {
      var q := Pos(p.x + STEPS[i].dx, p.y + STEPS[i].dy);
      assert AtXY(s, q.x, q.y) == At(s, q) != WALL;
      assert At(t, q) == At(s, q) || At(t, q) == OPEN;
    }
  }

  /** What the loop of one call of `carve` from `c` keeps, relating the
      grid `s` at call time to the grid `t`:
      - it only writes OPEN;
      - it changes only cells strictly inside the outer ring;
      - it never opens a pillar of the lattice through `c`;
      - every junction it opened has no step target inside the ring that
        is still a wall;
      - when `c` was OPEN, every cell it opened is reachable from `c`
        through OPEN cells. */
  ghost predicate CarvedSoFar(s: Grid, t: Grid, c: Pos) {
    OnlyOpens(s, t) &&
    (forall p :: At(t, p) != At(s, p) ==> Interior(p.x, p.y) && !Pillar(c, p)) &&
    (forall p :: At(t, p) != At(s, p) && Junction(c, p) ==> Saturated(t, p)) &&
    (At(s, c) == OPEN ==> forall p :: At(t, p) != At(s, p) ==> Reachable(t, c, p))
  }

  /** Everything one call of `carve` from `c` promises: `CarvedSoFar`, and
      once all four directions have been tried, no step target of `c`
      inside the ring is still a wall. */
  ghost predicate Carved(s: Grid, t: Grid, c: Pos) {
    CarvedSoFar(s, t, c) && Saturated(t, c)
  }

  /** The targets of the first `k` shuffled steps from `c` are no longer
      walls when they lie inside the ring. */
  ghost predicate DoneUpTo(g: Grid, c: Pos, dirs: Shuffle, k: nat) {
    forall j :: 0 <= j < k && j < 4 && Interior(c.x + dirs[j].dx, c.y + dirs[j].dy) ==>
      AtXY(g, c.x + dirs[j].dx, c.y + dirs[j].dy) != WALL
  }

  lemma DoneKept(s: Grid, t: Grid, c: Pos, dirs: Shuffle, k: nat)
    requires OnlyOpens(s, t) && DoneUpTo(s, c, dirs, k)
    ensures DoneUpTo(t, c, dirs, k)
  {
    forall j | 0 <= j < k && j < 4 && Interior(c.x + dirs[j].dx, c.y + dirs[j].dy)
      ensures AtXY(t, c.x + dirs[j].dx, c.y + dirs[j].dy) != WALL
    {
      var q := Pos(c.x + dirs[j].dx, c.y + dirs[j].dy);
      assert AtXY(s, q.x, q.y) == At(s, q);
      assert At(t, q) == At(s, q) || At(t, q) == OPEN;
    }
  }

  lemma DoneNext(g: Grid, c: Pos, dirs: Shuffle, k: nat)
    requires k < 4 && DoneUpTo(g, c, dirs, k)
    requires Interior(c.x + dirs[k].dx, c.y + dirs[k].dy) ==> AtXY(g, c.x + dirs[k].dx, c.y + dirs[k].dy) != WALL
    ensures DoneUpTo(g, c, dirs, k + 1)
  {
  }

  /** Trying every step of a shuffle tries every step vector. */
  lemma AllStepsDone(g: Grid, c: Pos, dirs: Shuffle)
    requires DoneUpTo(g, c, dirs, 4)
    ensures Saturated(g, c)
  {
    forall i | 0 <= i < 4 && Interior(c.x + STEPS[i].dx, c.y + STEPS[i].dy)
      ensures AtXY(g, c.x + STEPS[i].dx, c.y + STEPS[i].dy) != WALL
    {
      assert STEPS[i] in multiset(STEPS);
      assert STEPS[i] in dirs;
      var j :| 0 <= j < 4 && dirs[j] == STEPS[i];
    }
  }

  /** Parity relative to a junction does not change along a carving step. */
  lemma StepKeepsParity(c: Pos, t: Pos, p: Pos)
    requires t.x - c.x in {-2, 0, 2} && t.y - c.y in {-2, 0, 2}
    ensures Junction(t, p) == Junction(c, p)
    ensures Pillar(t, p) == Pillar(c, p)
  {
  }

  /** One carving step from `c` towards `target`: open the target and the
      cell between, carve from the target, and the bookkeeping of this call
      stays true. */
  lemma CarveStep(s: Grid, cur: Grid, c2: Grid, c3: Grid, c: Pos, d: Step, target: Pos, mid: Pos)
    requires Shaped(cur) && InBounds(c) && d in STEPS
    requires CarvedSoFar(s, cur, c)
    requires target.x == c.x + d.dx && target.y == c.y + d.dy && Interior(target.x, target.y)
    requires mid.x == c.x + d.dx / 2 && mid.y == c.y + d.dy / 2
    requires At(cur, target) == WALL
    requires c2 == Set(Set(cur, target, OPEN), mid, OPEN)
    requires Carved(c2, c3, target)
    ensures OnlyOpens(cur, c3) && At(c3, target) != WALL
    ensures CarvedSoFar(s, c3, c)
  {
    assert InBounds(target) && InBounds(mid);
    assert OnlyOpens(cur, c2);
    OnlyOpensTrans(cur, c2, c3);
    OnlyOpensTrans(s, cur, c3);
    OnlyOpensKeepsOpen(cur, c3);
    OnlyOpensKeepsOpen(c2, c3);
    forall p | At(c3, p) != At(s, p)
      ensures Interior(p.x, p.y) && !Pillar(c, p)
      ensures Junction(c, p) ==> Saturated(c3, p)
    {
      StepKeepsParity(c, target, p);
      if At(c3, p) != At(c2, p) {
      } else if p == target {
      } else if p == mid {
        assert !Junction(c, p);
      } else {
        assert At(cur, p) != At(s, p);
        if Junction(c, p) {
          SaturatedKept(cur, c3, p);
        }
      }
    }
    if At(s, c) == OPEN {
      assert At(c3, c) == OPEN by {
        assert At(cur, c) == OPEN;
      }
      assert Reachable(c3, c, target) by {
        assert At(c3, mid) == OPEN;
        assert At(c3, target) == OPEN;
        ReachableStep(c3, c, mid);
        ReachableStep(c3, mid, target);
        ReachableTrans(c3, c, mid, target);
      }
      forall p | At(c3, p) != At(s, p)
        ensures Reachable(c3, c, p)
      {
        if At(c3, p) != At(c2, p) {
          ReachableTrans(c3, c, target, p);
        } else if p == mid {
          assert At(c3, mid) == OPEN;
          ReachableStep(c3, c, mid);
        } else if p != target {
          assert At(cur, p) != At(s, p);
          ReachableKept(cur, c3, c, p);
        }
      }
    }
  }

  /** Opening a wall cell (and the cell before it) takes it out of the
      walls of the grid the carving started from. */
  lemma OpeningShrinks(s: Grid, cur: Grid, c2: Grid, target: Pos, mid: Pos)
    requires Shaped(cur) && InBounds(target) && InBounds(mid)
    requires OnlyOpens(s, cur) && At(cur, target) == WALL
    requires c2 == Set(Set(cur, target, OPEN), mid, OPEN)
    ensures WallCells(c2) < WallCells(s)
  {
    assert OnlyOpens(cur, c2);
    OnlyOpensShrinksWalls(cur, c2);
    OnlyOpensShrinksWalls(s, cur);
    assert target in WallCells(cur) - WallCells(c2);
  }

  /** The bookkeeping of the loop in `carve` after the step in the `k`-th
      shuffled direction has opened `target` and carved from it. */
  lemma CarveStepDone(s: Grid, cur: Grid, c2: Grid, c3: Grid, c: Pos, dirs: Shuffle, k: nat, target: Pos, mid: Pos)
    requires k < 4 && Shaped(cur) && InBounds(c)
    requires CarvedSoFar(s, cur, c) && DoneUpTo(cur, c, dirs, k)
    requires target.x == c.x + dirs[k].dx && target.y == c.y + dirs[k].dy && Interior(target.x, target.y)
    requires mid.x == c.x + dirs[k].dx / 2 && mid.y == c.y + dirs[k].dy / 2
    requires At(cur, target) == WALL
    requires c2 == Set(Set(cur, target, OPEN), mid, OPEN)
    requires Carved(c2, c3, target)
    ensures CarvedSoFar(s, c3, c) && DoneUpTo(c3, c, dirs, k + 1)
  {
    assert dirs[k] in STEPS by {
      assert dirs[k] in multiset(dirs);
    }
    CarveStep(s, cur, c2, c3, c, dirs[k], target, mid);
    DoneKept(cur, c3, c, dirs, k);
    DoneNext(c3, c, dirs, k);
  }

  /** `carve(x, y, maze)`, as stated by `Carved`; the shuffles it draws come
      from `shuffles`, starting at index `draw`, and `next` is the first index
      it did not use. */
  method Carve(maze: array2<u8>, x: nat, y: nat, shuffles: nat -> Shuffle, draw: nat) returns (next: nat)
    requires Dims(maze) && InBounds(Pos(x, y))
    modifies maze
    decreases WallCells(Cells(maze))
    ensures next > draw
    ensures Carved(old(Cells(maze)), Cells(maze), Pos(x, y))
  {
    ghost var s := Cells(maze);
    ghost var c := Pos(x, y);
    var dirs := shuffles(draw);
    next := draw + 1;
    for k := 0 to 4
      invariant next > draw
      invariant CarvedSoFar(s, Cells(maze), c)
      invariant DoneUpTo(Cells(maze), c, dirs, k)
    {
      var dx, dy := dirs[k].dx, dirs[k].dy;
      var nx, ny := x + dx, y + dy;
      ghost var cur := Cells(maze);
      if nx > 0 && ny > 0 && nx < GRID_SIZE - 1 && ny < GRID_SIZE - 1 {
        var target := Pos(nx, ny);
        CellsAt(maze, target);
        if maze[ny, nx] == WALL {
          var mid := Pos(x + dx / 2, y + dy / 2);
          Write(maze, target, OPEN);
          Write(maze, mid, OPEN);
          OpeningShrinks(s, cur, Cells(maze), target, mid);
          ghost var c2 := Cells(maze);
          next := Carve(maze, nx, ny, shuffles, next);
          CarveStepDone(s, cur, c2, Cells(maze), c, dirs, k, target, mid);
        } else {
          DoneNext(cur, c, dirs, k);
        }
      } else {
        DoneNext(cur, c, dirs, k);
      }
    }
    AllStepsDone(Cells(maze), c, dirs);
  }

  /** Filling the lattice: if the start is no wall and every junction of the
      start's lattice that is no wall has all its step targets opened, then
      no interior junction is a wall. */
  lemma {:induction false} LatticeFilled(g: Grid, q: Pos)
    requires At(g, START) != WALL
    requires forall p {:trigger Saturated(g, p)} :: Junction(START, p) && Interior(p.x, p.y) && At(g, p) != WALL ==> Saturated(g, p)
    requires Junction(START, q) && Interior(q.x, q.y)
    ensures At(g, q) != WALL
    decreases q.x + q.y
  {
    if q == START {
    } else if q.x > 1 {
      var p := Pos(q.x - 2, q.y);
      LatticeFilled(g, p);
      assert Saturated(g, p);
      assert STEPS[1] == Step(2, 0);
      assert AtXY(g, p.x + STEPS[1].dx, p.y + STEPS[1].dy) == At(g, q);
    } else {
      var p := Pos(q.x, q.y - 2);
      LatticeFilled(g, p);
      assert Saturated(g, p);
      assert STEPS[2] == Step(0, 2);
      assert AtXY(g, p.x + STEPS[2].dx, p.y + STEPS[2].dy) == At(g, q);
    }
  }

  /** The grid before carving: all wall except the opened start. */
  ghost predicate Initial(g: Grid) {
    Shaped(g) && forall p :: InBounds(p) ==> At(g, p) == if p == START then OPEN else WALL
  }

  /** What carving from the start of an initial grid produces: only OPEN and
      WALL cells, a wall ring, every interior junction OPEN, every pillar a
      wall, and every OPEN cell, the goal among them, reachable from the
      start: the maze is connected. */
  lemma CarvedFromStart(s: Grid, t: Grid)
    requires Initial(s) && Shaped(t) && Carved(s, t, START)
    ensures forall p :: InBounds(p) ==> At(t, p) == OPEN || At(t, p) == WALL
    ensures forall p :: OnBorder(p) ==> At(t, p) == WALL
    ensures forall p :: Junction(START, p) && Interior(p.x, p.y) ==> At(t, p) == OPEN
    ensures forall p :: InBounds(p) && Pillar(START, p) ==> At(t, p) == WALL
    ensures Reachable(t, START, GOAL)
    ensures forall p :: InBounds(p) && At(t, p) == OPEN ==> Reachable(t, START, p)
  {
    forall p | InBounds(p)
      ensures At(t, p) == OPEN || At(t, p) == WALL
    {
      assert At(t, p) == At(s, p) || At(t, p) == OPEN;
    }
    forall p | Junction(START, p) && Interior(p.x, p.y) && At(t, p) != WALL
      ensures Saturated(t, p)
    {
      if p != START {
        assert At(s, p) == WALL;
      }
    }
    forall p | Junction(START, p) && Interior(p.x, p.y)
      ensures At(t, p) == OPEN
    {
      LatticeFilled(t, p);
      assert At(t, p) == At(s, p) || At(t, p) == OPEN;
    }
    assert At(t, GOAL) != At(s, GOAL);
    forall p | InBounds(p) && At(t, p) == OPEN
      ensures Reachable(t, START, p)
    {
      if p == START {
        assert OpenPath(t, [START]);
      } else {
        assert At(s, p) == WALL;
      }
    }
  }

  /** What a generated maze looks like: a 49 by 49 grid with a wall ring, OPEN start and goal,
      only OPEN and WALL cells, every odd-coordinate interior cell OPEN,
      every even-coordinate cell a wall, and every OPEN cell (the goal
      among them) reachable from the start. */
  ghost predicate Generated(g: Grid) {
    Shaped(g) &&
    (forall p :: OnBorder(p) ==> At(g, p) == WALL) &&
    At(g, START) == OPEN && At(g, GOAL) == OPEN &&
    (forall p :: InBounds(p) ==> At(g, p) == OPEN || At(g, p) == WALL) &&
    (forall p :: Junction(START, p) && Interior(p.x, p.y) ==> At(g, p) == OPEN) &&
    (forall p :: InBounds(p) && Pillar(START, p) ==> At(g, p) == WALL) &&
    Reachable(g, START, GOAL) &&
    (forall p :: InBounds(p) && At(g, p) == OPEN ==> Reachable(g, START, p))
  }

  /** `create_maze()`: an all-wall grid, the start opened, carving from the
      start, the start and goal re-opened, and the outer ring forced back to
      walls; the result is `Generated`. */
  method CreateMaze(shuffles: nat -> Shuffle) returns (maze: array2<u8>)
    ensures fresh(maze) && Dims(maze)
    ensures Generated(Cells(maze))
  {
    maze := new u8[GRID_SIZE, GRID_SIZE]((_, _) => WALL);
    Write(maze, START, OPEN);
    ghost var s := Cells(maze);
    var _ := Carve(maze, 1, 1, shuffles, 0);
    ghost var t := Cells(maze);
    CarvedFromStart(s, t);
    Write(maze, START, OPEN);
    Write(maze, GOAL, OPEN);
    ghost var t2 := Cells(maze);
    WallBorder(maze);
    FinalGrid(t, t2, Cells(maze));
  }

  /** Cell `p` lies on the outer ring at an index the border loop has
      reached after `i` rounds. */
  predicate RingUpTo(p: Pos, i: nat) {
    ((p.y == 0 || p.y == GRID_SIZE - 1) && p.x < i) || ((p.x == 0 || p.x == GRID_SIZE - 1) && p.y < i)
  }

  /** `g` after the first `i` rounds of the border loop. */
  ghost function Ringed(g: Grid, i: nat): (h: Grid)
    requires Shaped(g)
    ensures Shaped(h)
    ensures forall p :: InBounds(p) ==> At(h, p) == if RingUpTo(p, i) then WALL else At(g, p)
  {
    seq(GRID_SIZE, r requires 0 <= r < GRID_SIZE =>
      seq(GRID_SIZE, c requires 0 <= c < GRID_SIZE => if RingUpTo(Pos(c, r), i) then WALL else g[r][c]))
  }

  lemma RingedNone(g: Grid)
    requires Shaped(g)
    ensures Ringed(g, 0) == g
  {
    var h := Ringed(g, 0);
    forall r | 0 <= r < GRID_SIZE
      ensures h[r] == g[r]
    {
      forall c | 0 <= c < GRID_SIZE
        ensures h[r][c] == g[r][c]
      {
        assert At(h, Pos(c, r)) == At(g, Pos(c, r));
      }
    }
  }

  /** One round of the border loop walls the four cells of index `i`. */
  lemma RingStep(g: Grid, i: nat)
    requires Shaped(g) && i < GRID_SIZE
    ensures Set(Set(Set(Set(Ringed(g, i), Pos(i, 0), WALL), Pos(i, GRID_SIZE - 1), WALL), Pos(0, i), WALL), Pos(GRID_SIZE - 1, i), WALL)
            == Ringed(g, i + 1)
  {
    var a := Set(Set(Set(Set(Ringed(g, i), Pos(i, 0), WALL), Pos(i, GRID_SIZE - 1), WALL), Pos(0, i), WALL), Pos(GRID_SIZE - 1, i), WALL);
    var b := Ringed(g, i + 1);
    forall r | 0 <= r < GRID_SIZE
      ensures a[r] == b[r]
    {
      forall c | 0 <= c < GRID_SIZE
        ensures a[r][c] == b[r][c]
      {
        assert At(a, Pos(c, r)) == At(b, Pos(c, r));
      }
    }
  }

  /** The border loop of `create_maze`: for every index `i`, the four ring
      cells of index `i` are set to wall. */
  method WallBorder(maze: array2<u8>)
    requires Dims(maze)
    modifies maze
    ensures Cells(maze) == Ringed(old(Cells(maze)), GRID_SIZE)
  {
    ghost var g := Cells(maze);
    RingedNone(g);
    for i := 0 to GRID_SIZE
      invariant Cells(maze) == Ringed(g, i)
    {
      Write(maze, Pos(i, 0), WALL);
      Write(maze, Pos(i, GRID_SIZE - 1), WALL);
      Write(maze, Pos(0, i), WALL);
      Write(maze, Pos(GRID_SIZE - 1, i), WALL);
      RingStep(g, i);
    }
  }

  /** Re-opening the start and goal and re-walling the ring keep what carving
      produced. */
  lemma FinalGrid(t: Grid, t2: Grid, f: Grid)
    requires Shaped(t) && Shaped(f)
    requires forall p :: InBounds(p) ==> At(t, p) == OPEN || At(t, p) == WALL
    requires forall p :: OnBorder(p) ==> At(t, p) == WALL
    requires forall p :: Junction(START, p) && Interior(p.x, p.y) ==> At(t, p) == OPEN
    requires forall p :: InBounds(p) && Pillar(START, p) ==> At(t, p) == WALL
    requires Reachable(t, START, GOAL)
    requires t2 == Set(Set(t, START, OPEN), GOAL, OPEN)
    requires f == Ringed(t2, GRID_SIZE)
    ensures f == t
  {
    assert At(t, START) == OPEN && At(t, GOAL) == OPEN;
    forall i | 0 <= i < GRID_SIZE
      ensures f[i] == t[i]
    {
      forall j | 0 <= j < GRID_SIZE
        ensures f[i][j] == t[i][j]
      {
        assert At(f, Pos(j, i)) == At(t, Pos(j, i));
      }
    }
  }
}
