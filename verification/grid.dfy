/** The 49x49 matrix of cell states shared by the maze generator and both
    solvers, with a value view of it and the open-path reachability notion
    that the solvers' specifications are stated in. */
module MazeGrid {
  /** Rust's `u8`, the element type of the maze matrix. */
  newtype u8 = b: int | 0 <= b < 256

  const GRID_SIZE: nat := 49

  /** The four cell states written by the program. */
  const OPEN: u8 := 0
  const WALL: u8 := 1
  const VISITED: u8 := 2
  const DEAD: u8 := 3

  /** A `(usize, usize)` coordinate pair: column `x`, row `y`. */
  datatype Pos = Pos(x: nat, y: nat)

  const START: Pos := Pos(1, 1)
  const GOAL: Pos := Pos(47, 47)

  predicate InBounds(p: Pos) {
    p.x < GRID_SIZE && p.y < GRID_SIZE
  }

  /** Strictly inside the outer ring of the grid. */
  predicate Interior(x: int, y: int) {
    0 < x < GRID_SIZE - 1 && 0 < y < GRID_SIZE - 1
  }

  predicate OnBorder(p: Pos) {
    InBounds(p) && (p.x == 0 || p.y == 0 || p.x == GRID_SIZE - 1 || p.y == GRID_SIZE - 1)
  }

  /** 4-neighbourhood: the two cells differ by one in exactly one coordinate. */
  predicate Adjacent(p: Pos, q: Pos) {
    (p.x == q.x && (p.y + 1 == q.y || q.y + 1 == p.y)) ||
    (p.y == q.y && (p.x + 1 == q.x || q.x + 1 == p.x))
  }

  /** The value of a maze matrix, indexed `g[y][x]` like `maze[y][x]`. */
  type Grid = seq<seq<u8>>

  predicate Shaped(g: Grid) {
    |g| == GRID_SIZE && forall i :: 0 <= i < |g| ==> |g[i]| == GRID_SIZE
  }

  /** The state of cell `p`; a cell outside the matrix reads as a wall, which
      is how every bounds guard of the program treats it. */
  function At(g: Grid, p: Pos): u8 {
    if p.y < |g| && p.x < |g[p.y]| then g[p.y][p.x] else WALL
  }

  /** `g` with cell `p` overwritten by `v`. */
  function Set(g: Grid, p: Pos, v: u8): (h: Grid)
    requires Shaped(g) && InBounds(p)
    ensures Shaped(h)
    ensures forall q :: At(h, q) == if q == p then v else At(g, q)
  {
    g[p.y := g[p.y][p.x := v]]
  }

  predicate Dims(maze: array2<u8>) {
    maze.Length0 == GRID_SIZE && maze.Length1 == GRID_SIZE
  }

  /** The value currently held by the maze matrix. */
  ghost function Cells(maze: array2<u8>): (g: Grid)
    requires Dims(maze)
    reads maze
    ensures Shaped(g)
  {
    seq(GRID_SIZE, i requires 0 <= i < GRID_SIZE reads maze =>
      seq(GRID_SIZE, j requires 0 <= j < GRID_SIZE reads maze => maze[i, j]))
  }

  /** A cell of `Cells(maze)` is the matrix entry at that cell. */
  lemma CellsAt(maze: array2<u8>, p: Pos)
    requires Dims(maze) && InBounds(p)
    ensures At(Cells(maze), p) == maze[p.y, p.x]
  {
  }

  /** `maze[p.y][p.x] = v`. */
  method Write(maze: array2<u8>, p: Pos, v: u8)
    requires Dims(maze) && InBounds(p)
    modifies maze
    ensures Cells(maze) == Set(old(Cells(maze)), p, v)
  {
    ghost var before := Cells(maze);
    maze[p.y, p.x] := v;
    ghost var after := Cells(maze);
    ghost var expected := Set(before, p, v);
    forall i | 0 <= i < GRID_SIZE
      ensures after[i] == expected[i]
    {
      forall j | 0 <= j < GRID_SIZE
        ensures after[i][j] == expected[i][j]
      {
        assert At(after, Pos(j, i)) == At(expected, Pos(j, i));
      }
    }
  }

  /** Two grids of the maze's shape that agree on every cell are equal. */
  lemma SameCells(g: Grid, h: Grid)
    requires Shaped(g) && Shaped(h) && forall p :: At(g, p) == At(h, p)
    ensures g == h
  {
    forall i | 0 <= i < GRID_SIZE
      ensures g[i] == h[i]
    {
      forall j | 0 <= j < GRID_SIZE
        ensures g[i][j] == h[i][j]
      {
        assert At(g, Pos(j, i)) == At(h, Pos(j, i));
      }
    }
  }

  /** A non-empty walk through OPEN cells, each step to a 4-neighbour. */
  ghost predicate OpenPath(g: Grid, path: seq<Pos>) {
    |path| > 0 &&
    (forall k :: 0 <= k < |path| ==> InBounds(path[k]) && At(g, path[k]) == OPEN) &&
    (forall k :: 0 < k < |path| ==> Adjacent(path[k - 1], path[k]))
  }

  /** `b` can be reached from `a` through OPEN cells of `g`. */
  ghost predicate Reachable(g: Grid, a: Pos, b: Pos) {
    exists path :: OpenPath(g, path) && path[0] == a && path[|path| - 1] == b
  }

  /** No position occurs twice. */
  predicate Distinct(s: seq<Pos>) {
    forall i, j :: 0 <= i < j < |s| ==> s[i] != s[j]
  }

  /** Every cell OPEN in `g` is still OPEN in `h`. */
  ghost predicate OpenKept(g: Grid, h: Grid) {
    forall p :: At(g, p) == OPEN ==> At(h, p) == OPEN
  }

  /** An open walk stays an open walk while no open cell is closed. */
  lemma OpenPathKept(g: Grid, h: Grid, path: seq<Pos>)
    requires OpenPath(g, path) && OpenKept(g, h)
    ensures OpenPath(h, path)
  {
    forall k | 0 <= k < |path|
      ensures At(h, path[k]) == OPEN
    {
      assert At(g, path[k]) == OPEN;
    }
  }

  lemma ReachableKept(g: Grid, h: Grid, a: Pos, b: Pos)
    requires Reachable(g, a, b) && OpenKept(g, h)
    ensures Reachable(h, a, b)
  {
    var path :| OpenPath(g, path) && path[0] == a && path[|path| - 1] == b;
    OpenPathKept(g, h, path);
  }

  /** Reachability is transitive: two open walks that meet are joined. */
  lemma ReachableTrans(g: Grid, a: Pos, b: Pos, c: Pos)
    requires Reachable(g, a, b) && Reachable(g, b, c)
    ensures Reachable(g, a, c)
  {
    var p1 :| OpenPath(g, p1) && p1[0] == a && p1[|p1| - 1] == b;
    var p2 :| OpenPath(g, p2) && p2[0] == b && p2[|p2| - 1] == c;
    var joined := p1 + p2[1..];
    forall k | 0 < k < |joined|
      ensures Adjacent(joined[k - 1], joined[k])
    {
      if k >= |p1| {
        assert joined[k] == p2[k - |p1| + 1];
        assert joined[k - 1] == p2[k - |p1|];
      }
    }
    assert joined[|joined| - 1] == c;
    assert OpenPath(g, joined);
  }

  /** Two OPEN 4-neighbours reach each other. */
  lemma ReachableStep(g: Grid, a: Pos, b: Pos)
    requires InBounds(a) && InBounds(b) && Adjacent(a, b)
    requires At(g, a) == OPEN && At(g, b) == OPEN
    ensures Reachable(g, a, b)
  {
    assert OpenPath(g, [a, b]);
  }
}
