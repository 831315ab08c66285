/** The multi-agent ("quantum") solver: agents that step one cell per tick,
    clone themselves at junctions and race to the goal, claiming every cell
    they enter by marking it VISITED. */
module Branching {
  import opened MazeGrid

  datatype Option<T> = None | Some(value: T)

  datatype Direction = Up | Down | Right | Left

  /** The order in which `check_available_moves` probes the neighbours. */
  const CHECK_ORDER: seq<Direction> := [Up, Down, Right, Left]

  /** `usize::MAX` on a 64-bit target: what `0usize.wrapping_sub(1)` gives. */
  const USIZE_MAX: nat := 0xFFFF_FFFF_FFFF_FFFF

  /** An exploring agent: its cell, every cell it has occupied (its current
      cell last), and its id. */
  datatype Agent = Agent(position: Pos, path: seq<Pos>, id: nat)

  /** The place of a direction in CHECK_ORDER. */
  function Rank(d: Direction): (r: nat)
    ensures r < 4 && CHECK_ORDER[r] == d
  {
    match d
    case Up => 0
    case Down => 1
    case Right => 2
    case Left => 3
  }

  /** The cell one step from `p` towards `d`, in unbounded integers. */
  function Target(p: Pos, d: Direction): (int, int) {
    match d
    case Up => (p.x, p.y - 1)
    case Down => (p.x, p.y + 1)
    case Right => (p.x + 1, p.y)
    case Left => (p.x - 1, p.y)
  }

  /** `agent` may step towards `d`: the target lies in the grid, is OPEN and
      is not already on the agent's path. */
  predicate IsAvailable(g: Grid, agent: Agent, d: Direction) {
    var (tx, ty) := Target(agent.position, d);
    0 <= tx < GRID_SIZE && 0 <= ty < GRID_SIZE && At(g, Pos(tx, ty)) == OPEN && Pos(tx, ty) !in agent.path
  }

  /** Directions listed in CHECK_ORDER, none twice. */
  predicate Increasing(ds: seq<Direction>) {
    forall i, j :: 0 <= i < j < |ds| ==> Rank(ds[i]) < Rank(ds[j])
  }

  /** The directions of `ds` that are available to `agent`, in the order
      of `ds`. */
  function Filter(g: Grid, agent: Agent, ds: seq<Direction>): (r: seq<Direction>)
    ensures forall d :: d in r <==> d in ds && IsAvailable(g, agent, d)
    ensures Increasing(ds) ==> Increasing(r)
    ensures |r| <= |ds|
  {
    if ds == [] then []
    else if IsAvailable(g, agent, ds[0]) then
      var rest := Filter(g, agent, ds[1..]);
      if Increasing(ds) then IncreasingCons(ds, rest); [ds[0]] + rest else [ds[0]] + rest
    else Filter(g, agent, ds[1..])
  }

  /** Putting the head of an ordered list before an ordered list drawn
      from its tail keeps the order. */
  lemma IncreasingCons(ds: seq<Direction>, rest: seq<Direction>)
    requires ds != [] && Increasing(ds) && Increasing(rest)
    requires forall e :: e in rest ==> e in ds[1..]
    ensures Increasing([ds[0]] + rest)
  {
    var r := [ds[0]] + rest;
    forall i, j | 0 <= i < j < |r|
      ensures Rank(r[i]) < Rank(r[j])
    {
      if i == 0 {
        assert r[j] in ds[1..];
        var k :| 1 <= k < |ds| && ds[k] == r[j];
      }
    }
  }

  /** The moves `check_available_moves` offers `agent`: exactly the
      available directions, in the order Up, Down, Right, Left. */
  function AvailableMoves(g: Grid, agent: Agent): (dirs: seq<Direction>)
    ensures forall d :: d in dirs <==> IsAvailable(g, agent, d)
    ensures Increasing(dirs) && |dirs| <= 4
  {
    assert forall d :: d in CHECK_ORDER by {
      forall d ensures d in CHECK_ORDER {
        assert CHECK_ORDER[Rank(d)] == d;
      }
    }
    Filter(g, agent, CHECK_ORDER)
  }

  /** Two direction lists in CHECK_ORDER with the same members are equal. */
  lemma {:induction false} IncreasingUnique(a: seq<Direction>, b: seq<Direction>)
    requires Increasing(a) && Increasing(b)
    requires forall d :: d in a <==> d in b
    ensures a == b
    decreases |a|
  {
    assert a != [] <==> b != [] by {
      if a != [] {
        assert a[0] in b;
      }
      if b != [] {
        assert b[0] in a;
      }
    }
    if a != [] {
      assert b != [] by {
        assert a[0] in b;
      }
      assert a[0] == b[0] by {
        assert b[0] in a && a[0] in b;
      }
      TailIn(a, b);
      TailIn(b, a);
      IncreasingUnique(a[1..], b[1..]);
      assert a == [a[0]] + a[1..] && b == [b[0]] + b[1..];
    }
  }

  /** Past a shared head, every later member of one ordered list is a
      later member of the other. */
  lemma TailIn(a: seq<Direction>, b: seq<Direction>)
    requires Increasing(a) && Increasing(b) && a != [] && b != [] && a[0] == b[0]
    requires forall d :: d in a ==> d in b
    ensures forall d :: d in a[1..] ==> d in b[1..]
  {
    forall d | d in a[1..]
      ensures d in b[1..]
    {
      var i :| 1 <= i < |a| && a[i] == d;
      assert Rank(a[0]) < Rank(d) && a[i] in a;
      var j :| 0 <= j < |b| && b[j] == d;
      assert b[1..][j - 1] == d;
    }
  }

  /** `v.wrapping_sub(1)` on a `usize`. */
  function WrappingSub1(v: nat): (r: nat)
    requires v <= USIZE_MAX
    ensures r <= USIZE_MAX
    ensures r < GRID_SIZE <==> 0 < v <= GRID_SIZE
  {
    if v == 0 then USIZE_MAX else v - 1
  }

  /** `check_available_moves(maze, agent)`: probes the four neighbours in
      the order Up, Down, Right, Left, the upward and leftward ones through
      `wrapping_sub`, and keeps those inside the grid, OPEN and not on the
      agent's path. */
  method CheckAvailableMoves(maze: array2<u8>, agent: Agent) returns (dirs: seq<Direction>)
    requires Dims(maze)
    requires agent.position.x < USIZE_MAX && agent.position.y < USIZE_MAX
    ensures dirs == AvailableMoves(Cells(maze), agent)
  {
    var px, py := agent.position.x, agent.position.y;
    var checks := [(Up, px, WrappingSub1(py)), (Down, px, py + 1), (Right, px + 1, py), (Left, WrappingSub1(px), py)];
    ghost var g := Cells(maze);
    dirs := [];
    for k := 0 to 4
      invariant Increasing(dirs)
      invariant forall d :: d in dirs ==> Rank(d) < k
      invariant forall d :: d in dirs <==> Rank(d) < k && IsAvailable(g, agent, d)
    {
      var (dir, x, y) := checks[k];
      assert Rank(dir) == k;
      assert (x < GRID_SIZE && y < GRID_SIZE && At(g, Pos(x, y)) == OPEN && Pos(x, y) !in agent.path)
             <==> IsAvailable(g, agent, dir);
      if x < GRID_SIZE && y < GRID_SIZE {
        CellsAt(maze, Pos(x, y));
      }
      if x < GRID_SIZE && y < GRID_SIZE && maze[y, x] == OPEN && Pos(x, y) !in agent.path {
        dirs := dirs + [dir];
      }
    }
    IncreasingUnique(dirs, AvailableMoves(g, agent));
  }

  /** The `usize` subtraction of a step towards `dir` does not underflow. */
  predicate Legal(agent: Agent, dir: Direction) {
    (dir == Up ==> agent.position.y > 0) && (dir == Left ==> agent.position.x > 0)
  }

  /** `move_agent(agent, dir)`: the agent steps to the neighbouring cell and
      appends it to its path; its id is kept. The `usize` subtraction must
      not underflow. */
  function MoveAgent(agent: Agent, dir: Direction): (moved: Agent)
    requires Legal(agent, dir)
    ensures (moved.position.x, moved.position.y) == Target(agent.position, dir)
    ensures Adjacent(agent.position, moved.position)
    ensures |moved.path| == |agent.path| + 1 && moved.path[..|agent.path|] == agent.path
    ensures moved.path[|agent.path|] == moved.position && moved.id == agent.id
  {
    var p := agent.position;
    var q := match dir
      case Up => Pos(p.x, p.y - 1)
      case Down => Pos(p.x, p.y + 1)
      case Right => Pos(p.x + 1, p.y)
      case Left => Pos(p.x - 1, p.y);
    agent.(position := q, path := agent.path + [q])
  }

  /** The path invariant of an agent: a non-empty simple walk of 4-adjacent
      grid cells that ends at the agent's position. */
  predicate WellFormed(a: Agent) {
    |a.path| > 0 && a.path[|a.path| - 1] == a.position &&
    (forall k :: 0 <= k < |a.path| ==> InBounds(a.path[k])) &&
    Distinct(a.path) &&
    (forall k :: 0 < k < |a.path| ==> Adjacent(a.path[k - 1], a.path[k]))
  }

  /** A move `check_available_moves` offers keeps the path invariant and
      lands on an OPEN cell. */
  lemma MoveKeepsWellFormed(g: Grid, a: Agent, d: Direction)
    requires WellFormed(a) && d in AvailableMoves(g, a)
    ensures Legal(a, d)
    ensures WellFormed(MoveAgent(a, d))
    ensures InBounds(MoveAgent(a, d).position) && At(g, MoveAgent(a, d).position) == OPEN
    ensures MoveAgent(a, d).position !in a.path
  {
    assert IsAvailable(g, a, d);
    var m := MoveAgent(a, d);
    assert m.path == a.path + [m.position];
    forall i, j | 0 <= i < j < |m.path|
      ensures m.path[i] != m.path[j]
    {
      if j == |a.path| {
        assert m.path[i] == a.path[i];
      }
    }
  }

  /** The cells reached by taking each of `ds` from the agent's cell. */
  function Destinations(agent: Agent, ds: seq<Direction>): (r: seq<Pos>)
    requires forall j :: 0 <= j < |ds| ==> Legal(agent, ds[j])
    ensures |r| == |ds|
    ensures forall j :: 0 <= j < |ds| ==> r[j] == MoveAgent(agent, ds[j]).position
    decreases |ds|
  {
    if ds == [] then [] else Destinations(agent, ds[..|ds| - 1]) + [MoveAgent(agent, ds[|ds| - 1]).position]
  }

  /** The copies of `agent` sent along each of `ds`, numbered from `idBase`. */
  function Spawned(agent: Agent, ds: seq<Direction>, idBase: nat): (r: seq<Agent>)
    requires forall j :: 0 <= j < |ds| ==> Legal(agent, ds[j])
    ensures |r| == |ds|
    ensures forall j :: 0 <= j < |ds| ==> r[j] == MoveAgent(agent, ds[j]).(id := idBase + j)
    decreases |ds|
  {
    if ds == [] then []
    else Spawned(agent, ds[..|ds| - 1], idBase) + [MoveAgent(agent, ds[|ds| - 1]).(id := idBase + |ds| - 1)]
  }

  /** Taking one more direction adds one more destination and one more copy. */
  lemma SpawnedPrefix(agent: Agent, ds: seq<Direction>, j: nat, idBase: nat)
    requires forall k :: 0 <= k < |ds| ==> Legal(agent, ds[k])
    requires j < |ds|
    ensures Destinations(agent, ds[..j + 1]) == Destinations(agent, ds[..j]) + [MoveAgent(agent, ds[j]).position]
    ensures Spawned(agent, ds[..j + 1], idBase) == Spawned(agent, ds[..j], idBase) + [MoveAgent(agent, ds[j]).(id := idBase + j)]
  {
    assert ds[..j + 1][..j] == ds[..j];
  }

  /** `h` is `g` with exactly the cells of `dests` marked VISITED. */
  ghost predicate Marked(g: Grid, h: Grid, dests: seq<Pos>) {
    forall q :: At(h, q) == if q in dests then VISITED else At(g, q)
  }

  /** Marking one more cell VISITED extends a marking. */
  lemma MarkStep(g: Grid, h: Grid, dests: seq<Pos>, p: Pos)
    requires Shaped(h) && InBounds(p) && Marked(g, h, dests)
    ensures Marked(g, Set(h, p, VISITED), dests + [p])
  {
    forall q
      ensures At(Set(h, p, VISITED), q) == if q in dests + [p] then VISITED else At(g, q)
    {
      assert q in dests + [p] <==> q in dests || q == p;
    }
  }

  /** `g` with the cells of `dests` marked VISITED, one after another. */
  function MarkAll(g: Grid, dests: seq<Pos>): (h: Grid)
    requires Shaped(g) && forall j :: 0 <= j < |dests| ==> InBounds(dests[j])
    ensures Shaped(h) && Marked(g, h, dests)
    decreases |dests|
  {
    if dests == [] then g
    else
      var prev := dests[..|dests| - 1];
      var h := MarkAll(g, prev);
      MarkStep(g, h, prev, dests[|dests| - 1]);
      assert prev + [dests[|dests| - 1]] == dests;
      Set(h, dests[|dests| - 1], VISITED)
  }

  /** A marking is determined by the cells it marks. */
  lemma MarkedUnique(g: Grid, h1: Grid, h2: Grid, dests: seq<Pos>)
    requires Shaped(h1) && Shaped(h2) && Marked(g, h1, dests) && Marked(g, h2, dests)
    ensures h1 == h2
  {
    SameCells(h1, h2);
  }

  /** Sends one copy of `agent` along each of `ds`, marking every cell a
      copy enters VISITED. */
  method SendCopies(maze: array2<u8>, agent: Agent, ds: seq<Direction>, idBase: nat)
    returns (clones: seq<Agent>, ghost dests: seq<Pos>)
    requires Dims(maze)
    requires forall j :: 0 <= j < |ds| ==> Legal(agent, ds[j]) && InBounds(MoveAgent(agent, ds[j]).position)
    modifies maze
    ensures dests == Destinations(agent, ds)
    ensures clones == Spawned(agent, ds, idBase)
    ensures Marked(old(Cells(maze)), Cells(maze), dests)
  {
    ghost var g := Cells(maze);
    clones, dests := [], [];
    for j := 0 to |ds|
      invariant dests == Destinations(agent, ds[..j])
      invariant clones == Spawned(agent, ds[..j], idBase)
      invariant Marked(g, Cells(maze), dests)
    {
      SpawnedPrefix(agent, ds, j, idBase);
      var copy := MoveAgent(agent, ds[j]);
      MarkStep(g, Cells(maze), dests, copy.position);
      Write(maze, copy.position, VISITED);
      dests := dests + [copy.position];
      copy := copy.(id := idBase + j);
      clones := clones + [copy];
    }
    assert ds[..|ds|] == ds;
  }

  /** The branch of the tick for an agent with several moves: one copy per
      move except the last steps out as a new agent whose id is `idBase`
      plus its place among the copies, the agent itself takes the last
      move, and every cell entered is marked VISITED. */
  method Fork(maze: array2<u8>, agent: Agent, dirs: seq<Direction>, idBase: nat)
    returns (moved: Agent, clones: seq<Agent>, ghost dests: seq<Pos>)
    requires Dims(maze) && WellFormed(agent) && 1 < |dirs|
    requires dirs == AvailableMoves(Cells(maze), agent)
    modifies maze
    ensures forall j :: 0 <= j < |dirs| ==> Legal(agent, dirs[j])
    ensures dests == Destinations(agent, dirs)
    ensures moved == MoveAgent(agent, dirs[|dirs| - 1])
    ensures clones == Spawned(agent, dirs[..|dirs| - 1], idBase)
    ensures Marked(old(Cells(maze)), Cells(maze), dests)
  {
    ghost var g := Cells(maze);
    forall j | 0 <= j < |dirs|
      ensures Legal(agent, dirs[j]) && InBounds(MoveAgent(agent, dirs[j]).position)
    {
      MoveKeepsWellFormed(g, agent, dirs[j]);
    }
    var last := |dirs| - 1;
    clones, dests := SendCopies(maze, agent, dirs[..last], idBase);
    assert dirs[..last + 1][..last] == dirs[..last] && dirs[..last + 1] == dirs;
    moved := MoveAgent(agent, dirs[last]);
    MarkStep(g, Cells(maze), dests, moved.position);
    Write(maze, moved.position, VISITED);
    dests := dests + [moved.position];
  }

  /** The outcome of one agent's turn, taking the grid from `g` to `h`:
      without moves the agent dies and its cell turns DEAD; otherwise it
      takes the last move, one copy numbered from `idBase` takes each of
      the others, and exactly the cells entered are marked VISITED. */
  ghost predicate Turn(g: Grid, h: Grid, agent: Agent, dirs: seq<Direction>, idBase: nat,
                       survivor: Option<Agent>, clones: seq<Agent>, dests: seq<Pos>) {
    Shaped(g) && InBounds(agent.position) &&
    (survivor.None? <==> dirs == []) &&
    (dirs == [] ==> clones == [] && dests == [] && h == Set(g, agent.position, DEAD)) &&
    (dirs != [] ==>
      (forall j :: 0 <= j < |dirs| ==> Legal(agent, dirs[j])) &&
      dests == Destinations(agent, dirs) &&
      survivor == Some(MoveAgent(agent, dirs[|dirs| - 1])) &&
      clones == Spawned(agent, dirs[..|dirs| - 1], idBase) &&
      Marked(g, h, dests))
  }

  /** Every move offered to an agent is legal and stays in the grid. */
  lemma OfferedLegal(g: Grid, agent: Agent)
    ensures forall d :: d in AvailableMoves(g, agent) ==> Legal(agent, d) && InBounds(MoveAgent(agent, d).position)
  {
    forall d | d in AvailableMoves(g, agent)
      ensures Legal(agent, d) && InBounds(MoveAgent(agent, d).position)
    {
      assert IsAvailable(g, agent, d);
    }
  }

  /** What one agent's turn leaves behind: the agent that lives on, the
      copies it sends, and the grid. */
  datatype Outcome = Outcome(survivor: Option<Agent>, clones: seq<Agent>, grid: Grid)

  /** The cells an agent's turn enters: one per offered move. */
  ghost function Entered(g: Grid, agent: Agent): seq<Pos> {
    OfferedLegal(g, agent);
    Destinations(agent, AvailableMoves(g, agent))
  }

  /** One agent's turn on grid `g`, its copies numbered from `idBase`:
      with no offered move its cell turns DEAD and it dies; otherwise it
      takes the last offered move, a copy takes each other one, and every
      cell entered turns VISITED. */
  ghost function Act(g: Grid, agent: Agent, idBase: nat): (r: Outcome)
    requires Shaped(g) && WellFormed(agent)
    ensures Shaped(r.grid)
  {
    var dirs := AvailableMoves(g, agent);
    assert agent.path[|agent.path| - 1] == agent.position;
    if dirs == [] then Outcome(None, [], Set(g, agent.position, DEAD))
    else
      OfferedLegal(g, agent);
      Outcome(Some(MoveAgent(agent, dirs[|dirs| - 1])), Spawned(agent, dirs[..|dirs| - 1], idBase),
              MarkAll(g, Destinations(agent, dirs)))
  }

  /** `Act` is a turn as `Turn` describes it. */
  lemma ActTurn(g: Grid, agent: Agent, idBase: nat)
    requires Shaped(g) && WellFormed(agent)
    ensures Turn(g, Act(g, agent, idBase).grid, agent, AvailableMoves(g, agent), idBase,
                 Act(g, agent, idBase).survivor, Act(g, agent, idBase).clones, Entered(g, agent))
  {
    OfferedLegal(g, agent);
  }

  /** `Turn` determines the turn: it is `Act`. */
  lemma TurnAct(g: Grid, h: Grid, agent: Agent, dirs: seq<Direction>, idBase: nat,
                survivor: Option<Agent>, clones: seq<Agent>, dests: seq<Pos>)
    requires WellFormed(agent) && Shaped(h) && dirs == AvailableMoves(g, agent)
    requires Turn(g, h, agent, dirs, idBase, survivor, clones, dests)
    ensures Act(g, agent, idBase) == Outcome(survivor, clones, h)
  {
    if dirs != [] {
      MarkedUnique(g, Act(g, agent, idBase).grid, h, dests);
    }
  }

  /** One agent's turn in a tick once it is known not to stand on the goal:
      with no moves it dies and its cell is marked DEAD; with one move it
      steps; with several it forks. Whoever lives on is `survivor`; the new
      copies are `clones`; `dests` are the cells entered. */
  method Advance(maze: array2<u8>, agent: Agent, dirs: seq<Direction>, idBase: nat)
    returns (survivor: Option<Agent>, clones: seq<Agent>)
    requires Dims(maze) && WellFormed(agent)
    requires dirs == AvailableMoves(Cells(maze), agent)
    modifies maze
    ensures Act(old(Cells(maze)), agent, idBase) == Outcome(survivor, clones, Cells(maze))
  {
    ghost var g := Cells(maze);
    ghost var dests;
    if dirs == [] {
      Write(maze, agent.position, DEAD);
      survivor, clones, dests := None, [], [];
    } else if |dirs| > 1 {
      var moved;
      moved, clones, dests := Fork(maze, agent, dirs, idBase);
      survivor := Some(moved);
    } else {
      MoveKeepsWellFormed(g, agent, dirs[0]);
      var moved := MoveAgent(agent, dirs[0]);
      assert Marked(g, g, []);
      MarkStep(g, g, [], moved.position);
      Write(maze, moved.position, VISITED);
      survivor, clones, dests := Some(moved), [], [moved.position];
      assert dirs[..0] == [];
    }
    TurnAct(g, Cells(maze), agent, dirs, idBase, survivor, clones, dests);
  }

  /** What a tick has done to the grid so far, against the grid `g0` it
      started from: the cells agents entered (`entered`) were OPEN, are
      entered once and are no longer OPEN; every other changed cell is now
      DEAD; no WALL cell changes. */
  ghost predicate Trace(g0: Grid, g: Grid, entered: seq<Pos>) {
    Distinct(entered) &&
    (forall p :: p in entered ==> At(g0, p) == OPEN && At(g, p) != OPEN) &&
    (forall q :: At(g, q) != At(g0, q) ==>
       At(g0, q) != WALL && (At(g, q) == DEAD || (At(g, q) == VISITED && q in entered)))
  }

  /** Different moves from one cell reach different cells. */
  lemma DestinationsDistinct(agent: Agent, ds: seq<Direction>)
    requires Increasing(ds) && forall j :: 0 <= j < |ds| ==> Legal(agent, ds[j])
    ensures Distinct(Destinations(agent, ds))
  {
    var r := Destinations(agent, ds);
    forall i, j | 0 <= i < j < |ds|
      ensures r[i] != r[j]
    {
      assert Rank(ds[i]) < Rank(ds[j]);
      assert Target(agent.position, ds[i]) != Target(agent.position, ds[j]);
    }
  }

  /** Marking a dead end's cell DEAD keeps the tick's trace. */
  lemma DeadKeepsTrace(g0: Grid, g: Grid, p: Pos, entered: seq<Pos>)
    requires Shaped(g) && InBounds(p) && Trace(g0, g, entered) && At(g0, p) != WALL
    ensures Trace(g0, Set(g, p, DEAD), entered)
  {
  }

  /** Marking OPEN cells VISITED, each once, keeps the tick's trace once
      they are added to `entered`. */
  lemma EnterKeepsTrace(g0: Grid, g: Grid, h: Grid, entered: seq<Pos>, dests: seq<Pos>)
    requires Trace(g0, g, entered) && Marked(g, h, dests) && Distinct(dests)
    requires forall p :: p in dests ==> At(g, p) == OPEN
    ensures Trace(g0, h, entered + dests)
  {
    var e := entered + dests;
    forall p | p in dests
      ensures p !in entered && At(g0, p) == OPEN
    {
    }
    forall i, j | 0 <= i < j < |e|
      ensures e[i] != e[j]
    {
      if j >= |entered| {
        assert e[j] in dests;
        if i >= |entered| {
          assert e[i] == dests[i - |entered|] && e[j] == dests[j - |entered|];
        } else {
          assert e[i] in entered;
        }
      }
    }
    forall p | p in e
      ensures At(g0, p) == OPEN && At(h, p) != OPEN
    {
      if p !in dests {
        assert p in entered;
      }
    }
  }

  /** The moves offered to an agent all lead to OPEN cells. */
  lemma DestinationsOpen(g: Grid, agent: Agent, dirs: seq<Direction>)
    requires WellFormed(agent) && dirs == AvailableMoves(g, agent)
    requires forall j :: 0 <= j < |dirs| ==> Legal(agent, dirs[j])
    ensures forall p :: p in Destinations(agent, dirs) ==> At(g, p) == OPEN
  {
    var dests := Destinations(agent, dirs);
    forall p | p in dests
      ensures At(g, p) == OPEN
    {
      var j :| 0 <= j < |dirs| && dests[j] == p;
      MoveKeepsWellFormed(g, agent, dirs[j]);
    }
  }

  /** An agent's turn keeps the tick's trace: its cell turns DEAD, or the
      cells it and its copies enter were OPEN and join `entered`. */
  lemma AdvanceKeepsTrace(g0: Grid, g: Grid, h: Grid, agent: Agent, dirs: seq<Direction>,
                          entered: seq<Pos>, dests: seq<Pos>)
    requires Shaped(g) && Trace(g0, g, entered)
    requires WellFormed(agent) && At(g0, agent.position) != WALL
    requires dirs == AvailableMoves(g, agent)
    requires dirs == [] ==> dests == [] && h == Set(g, agent.position, DEAD)
    requires dirs != [] ==>
      (forall j :: 0 <= j < |dirs| ==> Legal(agent, dirs[j])) &&
      dests == Destinations(agent, dirs) &&
      Marked(g, h, dests)
    ensures Trace(g0, h, entered + dests)
  {
    if dirs == [] {
      assert entered + dests == entered;
      DeadKeepsTrace(g0, g, agent.position, entered);
    } else {
      DestinationsDistinct(agent, dirs);
      DestinationsOpen(g, agent, dirs);
      EnterKeepsTrace(g0, g, h, entered, dests);
    }
  }

  /** The agents a tick starts from: one agent on START with the path
      [START] and id 0. */
  function InitialAgents(): (agents: seq<Agent>)
    ensures |agents| == 1 && agents[0].position == START && agents[0].path == [START] && agents[0].id == 0
    ensures forall a :: a in agents ==> WellFormed(a)
  {
    [Agent(START, [START], 0)]
  }

  /** Agent `k` is the first agent of the list standing on the goal. */
  predicate FirstAtGoal(agents: seq<Agent>, k: int) {
    0 <= k < |agents| && agents[k].position == GOAL &&
    forall m :: 0 <= m < k ==> agents[m].position != GOAL
  }

  /** `b` is some agent of `agents` one step further on, standing on a cell
      this tick entered. */
  ghost predicate Extends(agents: seq<Agent>, b: Agent, entered: seq<Pos>) {
    b.position in entered && exists a :: a in agents && b.path == a.path + [b.position]
  }

  /** An agent the tick may work on: a well-formed path ending on a cell
      that is not a wall. */
  predicate Placed(g: Grid, a: Agent) {
    WellFormed(a) && At(g, a.position) != WALL
  }

  /** Every agent of `s` is placed on the starting grid `g0` and extends
      one of `agents` by a cell entered this tick. */
  ghost predicate Grown(agents: seq<Agent>, g0: Grid, entered: seq<Pos>, s: seq<Agent>) {
    forall b :: b in s ==> Placed(g0, b) && Extends(agents, b, entered)
  }

  /** Growing `entered` keeps `Grown`, and the agents a turn leaves alive
      join the lists the tick keeps. */
  lemma GrownJoin(agents: seq<Agent>, g0: Grid, entered: seq<Pos>, more: seq<Pos>,
                  done: seq<Agent>, born: seq<Agent>, moved: Agent, clones: seq<Agent>)
    requires Grown(agents, g0, entered, done + born)
    requires Grown(agents, g0, entered + more, [moved] + clones)
    ensures Grown(agents, g0, entered + more, (done + [moved]) + (born + clones))
  {
    forall b | b in (done + [moved]) + (born + clones)
      ensures Placed(g0, b) && Extends(agents, b, entered + more)
    {
      if b in done + born {
        var a :| a in agents && b.path == a.path + [b.position];
        assert b.position in entered + more;
      } else {
        assert b in [moved] + clones;
      }
    }
  }

  /** The agent that moves on and its copies extend it by the cells they
      entered, which were OPEN at the start of the tick. */
  lemma SurvivorsGrown(agents: seq<Agent>, g0: Grid, g: Grid, h: Grid, entered: seq<Pos>, agent: Agent,
                       dirs: seq<Direction>, idBase: nat, moved: Agent, clones: seq<Agent>)
    requires agent in agents && WellFormed(agent) && dirs != []
    requires dirs == AvailableMoves(g, agent)
    requires forall j :: 0 <= j < |dirs| ==> Legal(agent, dirs[j])
    requires Trace(g0, h, entered + Destinations(agent, dirs))
    requires moved == MoveAgent(agent, dirs[|dirs| - 1])
    requires clones == Spawned(agent, dirs[..|dirs| - 1], idBase)
    ensures Grown(agents, g0, entered + Destinations(agent, dirs), [moved] + clones)
  {
    var dests := Destinations(agent, dirs);
    var e := entered + dests;
    assert forall p :: p in e ==> At(g0, p) == OPEN;
    var last := |dirs| - 1;
    assert moved.position == dests[last];
    OneGrown(agents, g0, g, e, agent, dirs[last], moved);
    forall j | 0 <= j < |clones|
      ensures Placed(g0, clones[j]) && Extends(agents, clones[j], e)
    {
      assert clones[j].position == dests[j];
      OneGrown(agents, g0, g, e, agent, dirs[j], clones[j]);
    }
    GrownCons(agents, g0, e, moved, clones);
  }

  /** `Grown` of a list, one member at a time. */
  lemma GrownCons(agents: seq<Agent>, g0: Grid, e: seq<Pos>, moved: Agent, clones: seq<Agent>)
    requires Placed(g0, moved) && Extends(agents, moved, e)
    requires forall j :: 0 <= j < |clones| ==> Placed(g0, clones[j]) && Extends(agents, clones[j], e)
    ensures Grown(agents, g0, e, [moved] + clones)
  {
    forall b | b in [moved] + clones
      ensures Placed(g0, b) && Extends(agents, b, e)
    {
      if b != moved {
        var j :| 0 <= j < |clones| && clones[j] == b;
      }
    }
  }

  /** An agent sent along an offered move extends its parent. */
  lemma OneGrown(agents: seq<Agent>, g0: Grid, g: Grid, e: seq<Pos>, agent: Agent, d: Direction, b: Agent)
    requires agent in agents && WellFormed(agent) && d in AvailableMoves(g, agent)
    requires b.path == MoveAgent(agent, d).path && b.position == MoveAgent(agent, d).position
    requires b.position in e && forall p :: p in e ==> At(g0, p) == OPEN
    ensures Placed(g0, b) && Extends(agents, b, e)
  {
    MoveKeepsWellFormed(g, agent, d);
    assert b.path == agent.path + [b.position];
  }

  /** The state of a pass after `o` agents of `agents` have had their turn
      on a grid that went from `g0` to `g`: the list is the `done` agents
      (turned, in place) followed by the untouched rest of `agents`; none
      of the first `o` agents stood on the goal; the grid follows `Trace`;
      every agent in `done` and `born` extends an agent of `agents`. */
  ghost predicate Pass(agents: seq<Agent>, g0: Grid, g: Grid, entered: seq<Pos>,
                       cur: seq<Agent>, born: seq<Agent>, done: seq<Agent>, o: nat) {
    o <= |agents| && cur == done + agents[o..] &&
    (forall k :: 0 <= k < o ==> agents[k].position != GOAL) &&
    Trace(g0, g, entered) && Grown(agents, g0, entered, done + born) &&
    (o == 0 ==> g == g0 && entered == [] && done + born == [])
  }

  /** What a pass over `agents` guarantees, from grid `g0` to grid `g`:
      - the grid changed as `Trace` allows, `entered` being the cells
        agents stepped into;
      - there is a winner exactly when some agent stands on the goal, and
        it is the path of the first such agent;
      - every agent handed on has a well-formed path ending on a cell that
        is not a wall;
      - every agent handed on is, when there is no winner, an agent of
        `agents` one step further on a cell it entered (with a winner, it
        may also be an agent not yet visited);
      - an empty list gives an empty list, no winner and an unchanged grid. */
  ghost predicate Ticked(agents: seq<Agent>, g0: Grid, g: Grid, next: seq<Agent>,
                         winner: Option<seq<Pos>>, entered: seq<Pos>) {
    Trace(g0, g, entered) &&
    (winner.Some? <==> exists k :: 0 <= k < |agents| && agents[k].position == GOAL) &&
    (forall k :: FirstAtGoal(agents, k) ==> winner == Some(agents[k].path)) &&
    (forall b :: b in next ==> Placed(g, b)) &&
    (forall b :: b in next ==> (winner.Some? && b in agents) || Extends(agents, b, entered)) &&
    (agents == [] ==> next == [] && winner == None && g == g0)
  }

  /** The turn of an agent with no moves keeps `Pass`. */
  lemma PassDead(agents: seq<Agent>, g0: Grid, g: Grid, h: Grid, entered: seq<Pos>, dests: seq<Pos>,
                 cur: seq<Agent>, born: seq<Agent>, done: seq<Agent>, o: nat)
    requires Pass(agents, g0, g, entered, cur, born, done, o)
    requires o < |agents| && agents[o].position != GOAL && dests == [] && Trace(g0, h, entered + dests)
    ensures Pass(agents, g0, h, entered + dests, done + agents[o + 1..], born, done, o + 1)
  {
    assert entered + dests == entered;
  }

  /** The turn of an agent that moves on keeps `Pass`. */
  lemma PassMove(agents: seq<Agent>, g0: Grid, g: Grid, h: Grid, entered: seq<Pos>, dests: seq<Pos>,
                 cur: seq<Agent>, born: seq<Agent>, done: seq<Agent>, o: nat, moved: Agent, clones: seq<Agent>)
    requires Pass(agents, g0, g, entered, cur, born, done, o)
    requires o < |agents| && agents[o].position != GOAL && Trace(g0, h, entered + dests)
    requires Grown(agents, g0, entered + dests, [moved] + clones)
    ensures Pass(agents, g0, h, entered + dests, (done + [moved]) + agents[o + 1..], born + clones, done + [moved], o + 1)
  {
    GrownJoin(agents, g0, entered, dests, done, born, moved, clones);
  }

  /** A pass that visited every agent has no winner. */
  lemma PassEnd(agents: seq<Agent>, g0: Grid, g: Grid, entered: seq<Pos>,
                cur: seq<Agent>, born: seq<Agent>, done: seq<Agent>, o: nat)
    requires Pass(agents, g0, g, entered, cur, born, done, o) && |cur| <= |done|
    requires forall a :: a in agents ==> Placed(g0, a)
    ensures Ticked(agents, g0, g, cur + born, None, entered)
  {
    assert o == |agents| && cur + born == done + born;
    NextPlaced(agents, g0, g, entered, done + born, []);
    assert done + born + [] == done + born;
  }

  /** A pass that reached an agent on the goal wins with its path. */
  lemma PassWin(agents: seq<Agent>, g0: Grid, g: Grid, entered: seq<Pos>,
                cur: seq<Agent>, born: seq<Agent>, done: seq<Agent>, o: nat)
    requires Pass(agents, g0, g, entered, cur, born, done, o)
    requires o < |agents| && agents[o].position == GOAL
    requires forall a :: a in agents ==> Placed(g0, a)
    ensures Ticked(agents, g0, g, cur + born, Some(agents[o].path), entered)
  {
    assert FirstAtGoal(agents, o);
    NextPlaced(agents, g0, g, entered, done + born, agents[o..]);
    forall b | b in cur + born
      ensures b in agents[o..] || Extends(agents, b, entered)
    {
      assert b in (done + born) + agents[o..];
    }
  }

  /** What a pass hands on: the next agent list, the winner's path if an
      agent stood on the goal, and the grid. */
  datatype Frame = Frame(next: seq<Agent>, winner: Option<seq<Pos>>, grid: Grid)

  /** The rest of a pass on grid `g`, `done` being the agents already
      visited (in place, moved), `born` the copies queued so far and `rest`
      the agents still to visit. The first agent of `rest` on the goal ends
      the pass with its path as the winner, the rest of the list kept as
      it is; any other agent takes its turn (`Act`), copies numbered from
      the current length of the list plus the copies queued; a dead agent
      leaves the list. The copies are appended once the pass is over. */
  ghost function Round(g: Grid, done: seq<Agent>, born: seq<Agent>, rest: seq<Agent>): (r: Frame)
    requires Shaped(g) && forall a :: a in rest ==> WellFormed(a)
    ensures Shaped(r.grid)
    decreases |rest|
  {
    if rest == [] then Frame(done + born, None, g)
    else if rest[0].position == GOAL then Frame(done + rest + born, Some(rest[0].path), g)
    else
      var t := Act(g, rest[0], |done| + |rest| + |born|);
      if t.survivor.None? then Round(t.grid, done, born, rest[1..])
      else Round(t.grid, done + [t.survivor.value], born + t.clones, rest[1..])
  }

  /** `Round` after the turn of its first agent. */
  lemma RoundTurn(g: Grid, done: seq<Agent>, born: seq<Agent>, rest: seq<Agent>,
                  h: Grid, survivor: Option<Agent>, clones: seq<Agent>)
    requires Shaped(g) && forall a :: a in rest ==> WellFormed(a)
    requires rest != [] && rest[0].position != GOAL
    requires Act(g, rest[0], |done| + |rest| + |born|) == Outcome(survivor, clones, h)
    ensures survivor.None? ==> Round(g, done, born, rest) == Round(h, done, born, rest[1..])
    ensures survivor.Some? ==> Round(g, done, born, rest) == Round(h, done + [survivor.value], born + clones, rest[1..])
  {
  }

  /** `Round` after the turn of the `o`-th agent, the first one left. */
  lemma RoundTurnAt(g: Grid, done: seq<Agent>, born: seq<Agent>, agents: seq<Agent>, o: nat, idBase: nat, t: Outcome)
    requires Shaped(g) && forall a :: a in agents ==> WellFormed(a)
    requires o < |agents| && agents[o].position != GOAL
    requires idBase == |done| + |agents| - o + |born| && t == Act(g, agents[o], idBase)
    ensures t.survivor.None? ==> Round(g, done, born, agents[o..]) == Round(t.grid, done, born, agents[o + 1..])
    ensures t.survivor.Some? ==>
      Round(g, done, born, agents[o..]) == Round(t.grid, done + [t.survivor.value], born + t.clones, agents[o + 1..])
  {
    var rest := agents[o..];
    assert rest[0] == agents[o] && rest[1..] == agents[o + 1..] && |rest| == |agents| - o;
    RoundTurn(g, done, born, rest, t.grid, t.survivor, t.clones);
  }

  /** The turn of the `o`-th agent of a pass, as `Act` takes it: it keeps
      the trace, and whoever it leaves alive grew by a cell entered. */
  lemma ActStep(agents: seq<Agent>, g0: Grid, g: Grid, entered: seq<Pos>, o: nat, idBase: nat)
    returns (t: Outcome, dests: seq<Pos>)
    requires o < |agents| && Placed(g0, agents[o])
    requires Shaped(g) && Trace(g0, g, entered)
    ensures t == Act(g, agents[o], idBase)
    ensures Trace(g0, t.grid, entered + dests) && (t.survivor.None? ==> dests == [])
    ensures t.survivor.Some? ==> Grown(agents, g0, entered + dests, [t.survivor.value] + t.clones)
  {
    var agent := agents[o];
    t, dests := Act(g, agent, idBase), Entered(g, agent);
    ActTurn(g, agent, idBase);
    TurnKeepsTick(agents, g0, g, t.grid, entered, agent, AvailableMoves(g, agent), idBase, t.survivor, t.clones, dests);
  }

  /** One agent's turn in `Round` keeps `Pass`. */
  lemma RoundStep(agents: seq<Agent>, g0: Grid, g: Grid, entered: seq<Pos>, born: seq<Agent>, done: seq<Agent>, o: nat)
    returns (h: Grid, entered': seq<Pos>, born': seq<Agent>, done': seq<Agent>)
    requires forall a :: a in agents ==> WellFormed(a) && At(g0, a.position) != WALL
    requires o < |agents| && agents[o].position != GOAL
    requires Shaped(g) && Pass(agents, g0, g, entered, done + agents[o..], born, done, o)
    ensures Shaped(h) && Pass(agents, g0, h, entered', done' + agents[o + 1..], born', done', o + 1)
    ensures Round(g, done, born, agents[o..]) == Round(h, done', born', agents[o + 1..])
  {
    assert agents[o] in agents;
    var idBase := |done| + |agents| - o + |born|;
    var t, dests := ActStep(agents, g0, g, entered, o, idBase);
    RoundTurnAt(g, done, born, agents, o, idBase, t);
    h, entered' := t.grid, entered + dests;
    if t.survivor.None? {
      PassDead(agents, g0, g, h, entered, dests, done + agents[o..], born, done, o);
      born', done' := born, done;
    } else {
      PassMove(agents, g0, g, h, entered, dests, done + agents[o..], born, done, o, t.survivor.value, t.clones);
      born', done' := born + t.clones, done + [t.survivor.value];
    }
  }

  /** `Round` over no remaining agent satisfies `Ticked`. */
  lemma RoundEnd(agents: seq<Agent>, g0: Grid, g: Grid, entered: seq<Pos>, born: seq<Agent>, done: seq<Agent>, o: nat)
    requires forall a :: a in agents ==> WellFormed(a) && At(g0, a.position) != WALL
    requires o == |agents|
    requires Shaped(g) && Pass(agents, g0, g, entered, done + agents[o..], born, done, o)
    ensures var r := Round(g, done, born, agents[o..]); Ticked(agents, g0, r.grid, r.next, r.winner, entered)
  {
    var cur := done + agents[o..];
    assert agents[o..] == [] && cur == done;
    assert Round(g, done, born, agents[o..]) == Frame(cur + born, None, g);
    PassEnd(agents, g0, g, entered, cur, born, done, o);
  }

  /** `Round` reaching an agent on the goal satisfies `Ticked`. */
  lemma RoundWin(agents: seq<Agent>, g0: Grid, g: Grid, entered: seq<Pos>, born: seq<Agent>, done: seq<Agent>, o: nat)
    requires forall a :: a in agents ==> WellFormed(a) && At(g0, a.position) != WALL
    requires o < |agents| && agents[o].position == GOAL
    requires Shaped(g) && Pass(agents, g0, g, entered, done + agents[o..], born, done, o)
    ensures var r := Round(g, done, born, agents[o..]); Ticked(agents, g0, r.grid, r.next, r.winner, entered)
  {
    var cur := done + agents[o..];
    assert agents[o..][0] == agents[o];
    assert Round(g, done, born, agents[o..]) == Frame(cur + born, Some(agents[o].path), g);
    PassWin(agents, g0, g, entered, cur, born, done, o);
  }

  /** `Round` satisfies `Ticked`, `e` being the cells entered: `r` is
      the frame the rest of the pass leads to. */
  lemma {:induction false} RoundPass(agents: seq<Agent>, g0: Grid, g: Grid, entered: seq<Pos>,
                                     born: seq<Agent>, done: seq<Agent>, o: nat, r: Frame)
    returns (e: seq<Pos>)
    requires forall a :: a in agents ==> WellFormed(a) && At(g0, a.position) != WALL
    requires o <= |agents|
    requires Shaped(g) && Pass(agents, g0, g, entered, done + agents[o..], born, done, o)
    requires r == Round(g, done, born, agents[o..])
    ensures Ticked(agents, g0, r.grid, r.next, r.winner, e)
    decreases |agents| - o
  {
    var cur := done + agents[o..];
    if o == |agents| {
      RoundEnd(agents, g0, g, entered, born, done, o);
      e := entered;
    } else if agents[o].position == GOAL {
      RoundWin(agents, g0, g, entered, born, done, o);
      e := entered;
    } else {
      var h, entered', born', done' := RoundStep(agents, g0, g, entered, born, done, o);
      e := RoundPass(agents, g0, h, entered', born', done', o + 1, r);
    }
  }

  /** The list and the rest of the pass after the turn of the `o`-th
      agent, which sits after the processed prefix `done` of `cur`. */
  lemma VisitStep(agents: seq<Agent>, o: nat, done: seq<Agent>, cur: seq<Agent>, born: seq<Agent>,
                  g: Grid, h: Grid, agent: Agent, idBase: nat, survivor: Option<Agent>, clones: seq<Agent>)
    requires Shaped(g) && o < |agents| && cur == done + agents[o..]
    requires agents[o].position != GOAL && forall a :: a in agents ==> WellFormed(a)
    requires agent == agents[o] && idBase == |cur| + |born|
    requires Act(g, agent, idBase) == Outcome(survivor, clones, h)
    ensures survivor.None? ==>
      cur[..|done|] + cur[|done| + 1..] == done + agents[o + 1..] &&
      Round(g, done, born, agents[o..]) == Round(h, done, born, agents[o + 1..])
    ensures survivor.Some? ==>
      cur[|done| := survivor.value] == (done + [survivor.value]) + agents[o + 1..] &&
      Round(g, done, born, agents[o..]) == Round(h, done + [survivor.value], born + clones, agents[o + 1..])
  {
    RoundTurnAt(g, done, born, agents, o, idBase, Outcome(survivor, clones, h));
    if survivor.None? {
      RemoveAt(agents, o, done, cur);
    } else {
      ReplaceAt(agents, o, done, cur, survivor.value);
    }
  }

  /** A whole pass of `Round`, leading to `next`, `winner` and grid `g`,
      satisfies `Ticked`. */
  lemma RoundTicked(agents: seq<Agent>, g0: Grid, g: Grid, next: seq<Agent>, winner: Option<seq<Pos>>)
    returns (e: seq<Pos>)
    requires Shaped(g0) && forall a :: a in agents ==> WellFormed(a) && At(g0, a.position) != WALL
    requires Round(g0, [], [], agents) == Frame(next, winner, g)
    ensures Ticked(agents, g0, g, next, winner, e)
  {
    assert agents[0..] == agents;
    e := RoundPass(agents, g0, g0, [], [], [], 0, Frame(next, winner, g));
  }

  /** The turn of the `i`-th agent of the list `cur` (the `o`-th of the
      pass), which does not stand on the goal: a dead end is removed from
      the list, otherwise the agent is replaced by its moved self and its
      copies are queued in `born`. */
  method Visit(maze: array2<u8>, cur: seq<Agent>, born: seq<Agent>, i: nat, dirs: seq<Direction>,
               ghost agents: seq<Agent>, ghost done: seq<Agent>, ghost o: nat)
    returns (cur': seq<Agent>, born': seq<Agent>, i': nat, ghost done': seq<Agent>,
             ghost survivor: Option<Agent>, ghost clones: seq<Agent>)
    requires Dims(maze) && o < |agents| && cur == done + agents[o..] && |done| == i
    requires agents[o].position != GOAL && forall a :: a in agents ==> WellFormed(a)
    requires dirs == AvailableMoves(Cells(maze), cur[i])
    modifies maze
    ensures Act(old(Cells(maze)), cur[i], |cur| + |born|) == Outcome(survivor, clones, Cells(maze))
    ensures cur' == if survivor.None? then cur[..i] + cur[i + 1..] else cur[i := survivor.value]
    ensures born' == born + clones && i' == if survivor.None? then i else i + 1
    ensures cur' == done' + agents[o + 1..] && |done'| == i'
    ensures Round(old(Cells(maze)), done, born, agents[o..]) == Round(Cells(maze), done', born', agents[o + 1..])
  {
    var agent := cur[i];
    assert agent == agents[o] && agent in agents;
    var s, c;
    s, c := Advance(maze, agent, dirs, |cur| + |born|);
    survivor, clones := s, c;
    VisitStep(agents, o, done, cur, born, old(Cells(maze)), Cells(maze), agent, |cur| + |born|, s, c);
    if s.None? {
      cur', born', i', done' := cur[..i] + cur[i + 1..], born, i, done;
    } else {
      cur', born', i', done' := cur[i := s.value], born + c, i + 1, done + [s.value];
    }
  }

  /** The `while i < agents.len()` loop of one pass: it computes `Round`.
      Agents are visited in order: the first agent standing on the goal
      ends the pass and its path is the winner; an agent with no moves is
      removed and its cell marked DEAD; any other agent moves (forking at
      junctions), its copies being appended to the list once the pass is
      over. */
  method VisitAll(maze: array2<u8>, agents: seq<Agent>)
    returns (next: seq<Agent>, winner: Option<seq<Pos>>)
    requires Dims(maze)
    requires forall a :: a in agents ==> WellFormed(a) && At(Cells(maze), a.position) != WALL
    modifies maze
    ensures Round(old(Cells(maze)), [], [], agents) == Frame(next, winner, Cells(maze))
  {
    ghost var g0 := Cells(maze);
    var cur, born := agents, [];
    winner := None;
    var i := 0;
    ghost var o, done := 0, [];
    while i < |cur|
      invariant o <= |agents| && cur == done + agents[o..] && |done| == i && winner == None
      invariant Round(g0, [], [], agents) == Round(Cells(maze), done, born, agents[o..])
      decreases |agents| - o
    {
      var agent := cur[i];
      assert agent == agents[o] && agent in agents;
      var dirs := CheckAvailableMoves(maze, agent);
      if agent.position == GOAL {
        winner, next := Some(agent.path), cur + born;
        assert Round(Cells(maze), done, born, agents[o..]) == Frame(next, winner, Cells(maze));
        return;
      }
      ghost var s, c;
      cur, born, i, done, s, c := Visit(maze, cur, born, i, dirs, agents, done, o);
      o := o + 1;
    }
    assert agents[o..] == [] && cur == done;
    next := cur + born;
    assert Round(Cells(maze), done, born, agents[o..]) == Frame(done + born, None, Cells(maze));
  }

  /** One pass of the simulation over the agent list: the loop `VisitAll`
      followed by `agents.extend(new_agents)`. It computes `Round`, and so
      satisfies `Ticked`. */
  method Tick(maze: array2<u8>, agents: seq<Agent>)
    returns (next: seq<Agent>, winner: Option<seq<Pos>>, ghost entered: seq<Pos>)
    requires Dims(maze)
    requires forall a :: a in agents ==> WellFormed(a) && At(Cells(maze), a.position) != WALL
    modifies maze
    ensures Round(old(Cells(maze)), [], [], agents) == Frame(next, winner, Cells(maze))
    ensures Ticked(agents, old(Cells(maze)), Cells(maze), next, winner, entered)
  {
    ghost var g0 := Cells(maze);
    next, winner := VisitAll(maze, agents);
    entered := RoundTicked(agents, g0, Cells(maze), next, winner);
  }

  /** An agent's turn keeps the tick's trace, and whoever it leaves alive
      extends the agent by a cell it entered. */
  lemma TurnKeepsTick(agents: seq<Agent>, g0: Grid, g: Grid, h: Grid, entered: seq<Pos>, agent: Agent,
                      dirs: seq<Direction>, idBase: nat, survivor: Option<Agent>, clones: seq<Agent>, dests: seq<Pos>)
    requires Trace(g0, g, entered) && agent in agents && Placed(g0, agent)
    requires dirs == AvailableMoves(g, agent)
    requires Turn(g, h, agent, dirs, idBase, survivor, clones, dests)
    ensures Trace(g0, h, entered + dests)
    ensures survivor.Some? ==> Grown(agents, g0, entered + dests, [survivor.value] + clones)
  {
    AdvanceKeepsTrace(g0, g, h, agent, dirs, entered, dests);
    if survivor.Some? {
      SurvivorsGrown(agents, g0, g, h, entered, agent, dirs, idBase, survivor.value, clones);
    }
  }

  /** Removing the agent after the processed prefix `done` of the list. */
  lemma RemoveAt(agents: seq<Agent>, o: nat, done: seq<Agent>, cur: seq<Agent>)
    requires o < |agents| && cur == done + agents[o..]
    ensures cur[..|done|] + cur[|done| + 1..] == done + agents[o + 1..]
  {
    assert cur[..|done|] == done;
    assert cur[|done| + 1..] == agents[o + 1..];
  }

  /** Replacing the agent after the processed prefix `done` of the list. */
  lemma ReplaceAt(agents: seq<Agent>, o: nat, done: seq<Agent>, cur: seq<Agent>, v: Agent)
    requires o < |agents| && cur == done + agents[o..]
    ensures cur[|done| := v] == (done + [v]) + agents[o + 1..]
  {
  }

  /** What the tick hands on stands on cells that are not walls. */
  lemma NextPlaced(agents: seq<Agent>, g0: Grid, g: Grid, entered: seq<Pos>, s: seq<Agent>, rest: seq<Agent>)
    requires Trace(g0, g, entered) && Grown(agents, g0, entered, s)
    requires forall a :: a in rest ==> Placed(g0, a)
    ensures forall b :: b in s + rest ==> Placed(g, b)
  {
    forall b | b in s + rest
      ensures Placed(g, b)
    {
      assert Placed(g0, b);
    }
  }
}
