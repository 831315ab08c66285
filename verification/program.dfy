/** The two programs built on the maze: the depth-first solver run once on a
    fresh maze, and the multi-agent search run frame after frame until an
    agent wins. */
module Simulation {
  import opened MazeGrid
  import Generator
  import DepthFirst
  import opened Branching

  /** The depth-first program: generate a maze, then (on the first Return)
      solve it from (1, 1). The maze shown is the generated one relabelled
      by the search; the solver always reaches the goal, and the cells it
      leaves VISITED are a simple walk of the generated maze's OPEN cells
      from the start to the goal. */
  method GenerateAndSolve(shuffles: nat -> Generator.Shuffle)
    returns (maze: array2<u8>, found: bool, ghost generated: Grid, ghost path: seq<Pos>)
    ensures fresh(maze) && Dims(maze)
    ensures Generator.Generated(generated) && DepthFirst.Relabels(generated, Cells(maze))
    ensures DepthFirst.Explore(generated, START) == DepthFirst.Descent(found, Cells(maze), path)
    ensures found && Reachable(generated, START, GOAL)
    ensures DepthFirst.Trail(generated, Cells(maze), START, path)
  {
    maze := Generator.CreateMaze(shuffles);
    generated := Cells(maze);
    found, path := DepthFirst.Solve(maze, 1, 1);
    DepthFirst.ExploreSolved(generated, START);
  }

  /** An agent of the multi-agent search rooted at START: a well-formed
      path that starts at START and stays off walls. */
  ghost predicate Rooted(g: Grid, a: Agent) {
    Placed(g, a) && a.path[0] == START &&
    forall k :: 0 <= k < |a.path| ==> At(g, a.path[k]) != WALL
  }

  /** `g` has the same walls as `g0`. */
  ghost predicate SameWalls(g0: Grid, g: Grid) {
    forall p :: At(g, p) == WALL <==> At(g0, p) == WALL
  }

  /** A winning path: a simple walk of 4-adjacent grid cells from START to
      the goal through cells that are not walls of `g`. */
  ghost predicate Winning(g: Grid, path: seq<Pos>) {
    |path| > 0 && path[0] == START && path[|path| - 1] == GOAL && Distinct(path) &&
    (forall k :: 0 <= k < |path| ==> InBounds(path[k]) && At(g, path[k]) != WALL) &&
    (forall k :: 0 < k < |path| ==> Adjacent(path[k - 1], path[k]))
  }

  /** If some agent stands on the goal, a first one does. */
  lemma {:induction false} FirstExists(agents: seq<Agent>, k: nat)
    requires k < |agents| && agents[k].position == GOAL
    ensures exists m :: FirstAtGoal(agents, m)
    decreases k
  {
    if exists m :: 0 <= m < k && agents[m].position == GOAL {
      var m :| 0 <= m < k && agents[m].position == GOAL;
      FirstExists(agents, m);
    } else {
      assert FirstAtGoal(agents, k);
    }
  }

  /** A pass keeps every agent rooted, keeps the walls, and its winner is
      the path of an agent on the goal. */
  lemma TickKeepsRooted(agents: seq<Agent>, g0: Grid, g: Grid, next: seq<Agent>,
                        winner: Option<seq<Pos>>, entered: seq<Pos>)
    requires Ticked(agents, g0, g, next, winner, entered)
    requires forall a :: a in agents ==> Rooted(g0, a)
    ensures SameWalls(g0, g)
    ensures forall b :: b in next ==> Rooted(g, b)
    ensures winner.Some? ==> Winning(g, winner.value)
  {
    assert SameWalls(g0, g) by {
      forall p
        ensures At(g, p) == WALL <==> At(g0, p) == WALL
      {
        if At(g, p) != At(g0, p) {
          assert At(g0, p) != WALL;
        }
      }
    }
    forall b | b in next
      ensures Rooted(g, b)
    {
      if !(b in agents && winner.Some?) {
        var a :| a in agents && b.path == a.path + [b.position];
        assert b.path[0] == a.path[0];
        forall k | 0 <= k < |b.path|
          ensures At(g, b.path[k]) != WALL
        {
          if k < |a.path| {
            assert b.path[k] == a.path[k];
          }
        }
      }
    }
    if winner.Some? {
      var k :| 0 <= k < |agents| && agents[k].position == GOAL;
      FirstExists(agents, k);
      var m :| FirstAtGoal(agents, m);
      assert agents[m] in agents;
    }
  }

  /** The frames of the multi-agent program: one pass per frame while no
      agent has won, at most `frames` of them (the frames drawn before the
      window is closed). The walls never change, every agent stays rooted,
      and a winner's path is a simple walk from START to the goal that
      avoids the walls of the grid the search started on. */
  method Search(maze: array2<u8>, start: seq<Agent>, frames: nat)
    returns (agents: seq<Agent>, winner: Option<seq<Pos>>)
    requires Dims(maze)
    requires forall a :: a in start ==> Rooted(Cells(maze), a)
    modifies maze
    ensures SameWalls(old(Cells(maze)), Cells(maze))
    ensures forall a :: a in agents ==> Rooted(Cells(maze), a)
    ensures winner.Some? ==> Winning(old(Cells(maze)), winner.value)
  {
    ghost var g0 := Cells(maze);
    agents, winner := start, None;
    var f := 0;
    while f < frames && winner.None?
      invariant SameWalls(g0, Cells(maze))
      invariant forall a :: a in agents ==> Rooted(Cells(maze), a)
      invariant winner.Some? ==> Winning(g0, winner.value)
    {
      ghost var g := Cells(maze);
      var next, w, entered := Tick(maze, agents);
      TickKeepsRooted(agents, g, Cells(maze), next, w, entered);
      agents, winner := next, w;
      f := f + 1;
    }
  }

  /** The multi-agent program: generate a maze, start one agent on START
      with id 0, and run the frames. The walls stay those of the generated
      maze, and a winner's path is a simple walk from START to the goal
      through OPEN cells of the generated maze. */
  method GenerateAndSearch(shuffles: nat -> Generator.Shuffle, frames: nat)
    returns (maze: array2<u8>, winner: Option<seq<Pos>>, ghost generated: Grid)
    ensures fresh(maze) && Dims(maze)
    ensures Generator.Generated(generated) && SameWalls(generated, Cells(maze))
    ensures winner.Some? ==> OpenPath(generated, winner.value) && Distinct(winner.value)
    ensures winner.Some? ==> winner.value[0] == START && winner.value[|winner.value| - 1] == GOAL
  {
    maze := Generator.CreateMaze(shuffles);
    generated := Cells(maze);
    var agents := InitialAgents();
    assert agents[0].path == [START];
    var remaining;
    remaining, winner := Search(maze, agents, frames);
  }
}
