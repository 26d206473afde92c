/** The A* tile search of the office navigation mesh. */
module PathSearch {
  import opened Wrappers
  import opened TileGrid

  datatype Node = Node(tile: Tile, g: nat, f: nat, parent: Option<Tile>)
  type Nodes = map<Tile, Node>

  // -------------------------------------------------------------- invariants

  /** A discovered tile carries its cost, its priority and a parent already closed. */
  ghost predicate NodeOk(grid: Grid, start: Tile, goal: Tile, all: Nodes, closed: set<Tile>, t: Tile)
    requires t in all
  {
    var n := all[t];
    && n.tile == t
    && Inside(grid, t)
    && n.f == n.g + Manhattan(t, goal)
    && (if t == start then n.g == 0 && n.parent.None?
        else && Walkable(grid, t)
             && n.parent.Some?
             && n.parent.value in closed && n.parent.value in all
             && Adjacent(n.parent.value, t)
             && n.g == all[n.parent.value].g + 1)
  }

  /** The open and closed tiles partition the discovered ones. */
  ghost predicate Frontier(start: Tile, open: Nodes, all: Nodes, closed: set<Tile>) {
    && start in all
    && closed <= all.Keys
    && (forall t :: t in all <==> t in open || t in closed)
    && (forall t :: t in open ==> t !in closed && open[t] == all[t])
  }

  /** Every walkable neighbour of a closed tile is discovered, at no more than one step further. */
  ghost predicate Expanded(grid: Grid, all: Nodes, c: Tile)
    requires c in all
  {
    forall n :: Walkable(grid, n) && Adjacent(c, n) ==> n in all && all[n].g <= all[c].g + 1
  }

  ghost predicate Structure(grid: Grid, start: Tile, goal: Tile, open: Nodes, all: Nodes, closed: set<Tile>) {
    && Frontier(start, open, all, closed)
    && (forall t :: t in all ==> NodeOk(grid, start, goal, all, closed, t))
  }

  /** Closed tiles are fully expanded and their cost is the true distance. */
  ghost predicate Settled(grid: Grid, start: Tile, all: Nodes, closed: set<Tile>)
    requires closed <= all.Keys
  {
    forall c :: c in closed ==> Expanded(grid, all, c) && AtLeast(grid, start, c, all[c].g)
  }

  // ---------------------------------------------------------- optimality

  /** On a path that leaves the closed set, the first open tile is known at its position. */
  lemma {:induction false} FirstOpen(grid: Grid, start: Tile, goal: Tile, open: Nodes, all: Nodes, closed: set<Tile>,
                                     t: Tile, p: seq<Tile>, i: nat) returns (k: nat)
    requires Structure(grid, start, goal, open, all, closed) && Settled(grid, start, all, closed)
    requires IsPath(grid, start, t, p) && i < |p| && t !in closed
    requires forall j :: 0 <= j < i ==> p[j] in closed
    ensures k < |p| && p[k] in open && all[p[k]].g <= k
    decreases |p| - i
  {
    hide Structure, Settled, Walkable, Adjacent;
    if p[i] in closed {
      k := FirstOpen(grid, start, goal, open, all, closed, t, p, i + 1);
    } else {
      k := i;
      if i > 0 {
        PathPrefix(grid, start, t, p, i - 1);
        OpenNeighbour(grid, start, goal, open, all, closed, p[..i], p[i - 1], p[i]);
      } else {
        StartCost(grid, start, goal, open, all, closed);
        StartOpen(grid, start, goal, open, all, closed);
      }
    }
  }

  /** The neighbour of a closed tile, reached over it by a path. */
  lemma OpenNeighbour(grid: Grid, start: Tile, goal: Tile, open: Nodes, all: Nodes, closed: set<Tile>, p: seq<Tile>, c: Tile, n: Tile)
    requires Structure(grid, start, goal, open, all, closed) && Settled(grid, start, all, closed)
    requires c in closed && IsPath(grid, start, c, p) && Walkable(grid, n) && Adjacent(c, n) && n !in closed
    ensures n in open && all[n].g <= |p|
  {
    hide NodeOk, Walkable, Adjacent, IsPath;
    assert Expanded(grid, all, c) && AtLeast(grid, start, c, all[c].g);
  }

  lemma StartOpen(grid: Grid, start: Tile, goal: Tile, open: Nodes, all: Nodes, closed: set<Tile>)
    requires Structure(grid, start, goal, open, all, closed) && start !in closed
    ensures start in open
  {
  }

  /** The open tile of least priority is known at its true distance. */
  lemma LeastPriorityIsOptimal(grid: Grid, start: Tile, goal: Tile, open: Nodes, all: Nodes, closed: set<Tile>, t: Tile)
    requires Structure(grid, start, goal, open, all, closed) && Settled(grid, start, all, closed)
    requires t in open && forall u :: u in open ==> open[t].f <= open[u].f
    ensures AtLeast(grid, start, t, all[t].g)
  {
    forall p | IsPath(grid, start, t, p)
      ensures all[t].g <= |p| - 1
    {
      var k := FirstOpen(grid, start, goal, open, all, closed, t, p, 0);
      HeuristicConsistent(grid, start, t, p, k, goal);
      assert NodeOk(grid, start, goal, all, closed, t) && NodeOk(grid, start, goal, all, closed, p[k]);
    }
  }

  /** With nothing open, every reachable tile is closed. */
  lemma {:induction false} ReachableIsClosed(grid: Grid, start: Tile, goal: Tile, all: Nodes, closed: set<Tile>, t: Tile, p: seq<Tile>)
    requires Structure(grid, start, goal, map[], all, closed) && Settled(grid, start, all, closed)
    requires IsPath(grid, start, t, p)
    ensures t in closed
    decreases |p|
  {
    hide NodeOk, Manhattan;
    if |p| > 1 {
      PathPrefix(grid, start, t, p, |p| - 2);
      ReachableIsClosed(grid, start, goal, all, closed, p[|p| - 2], p[..|p| - 1]);
      assert Expanded(grid, all, p[|p| - 2]);
    }
  }

  // ------------------------------------------------------------ the search

  /** The scan over the open nodes: one of least priority, whatever the iteration order. */
  method SelectLeast(open: Nodes) returns (cur: Node)
    requires open != map[] && forall t :: t in open ==> open[t].tile == t
    ensures cur.tile in open && open[cur.tile] == cur
    ensures forall t :: t in open ==> cur.f <= open[t].f
  {
    var first :| first in open;
    cur := open[first];
    var rest := open.Keys - {first};
    while rest != {}
      invariant rest <= open.Keys && cur.tile in open && open[cur.tile] == cur
      invariant forall t :: t in open && t !in rest ==> cur.f <= open[t].f
      decreases |rest|
    {
      var t :| t in rest;
      rest := rest - {t};
      if open[t].f < cur.f {
        cur := open[t];
      }
    }
  }

  /** Recording a better way into an open tile, from a closed one. */
  lemma RelaxKeeps(grid: Grid, start: Tile, goal: Tile, open: Nodes, all: Nodes, closed: set<Tile>, cur: Tile, n: Tile, node: Node)
    requires Structure(grid, start, goal, open, all, closed) && cur in closed && Adjacent(cur, n)
    requires Walkable(grid, n) && n !in closed && n != start
    requires node == Node(n, all[cur].g + 1, all[cur].g + 1 + Manhattan(n, goal), Some(cur))
    ensures Structure(grid, start, goal, open[n := node], all[n := node], closed)
  {
    hide Walkable, Adjacent, Manhattan, Inside;
    var all' := all[n := node];
    forall t | t in all' ensures NodeOk(grid, start, goal, all', closed, t) {
      if t == n {
        WalkableInside(grid, n);
      } else {
        assert NodeOk(grid, start, goal, all, closed, t);
      }
    }
  }

  lemma WalkableInside(grid: Grid, t: Tile)
    ensures Walkable(grid, t) ==> Inside(grid, t)
  {
  }

  /** One neighbour of the tile being expanded. */
  method Relax(grid: Grid, start: Tile, goal: Tile, open: Nodes, all: Nodes, closed: set<Tile>, cur: Tile, n: Tile)
    returns (open': Nodes, all': Nodes)
    requires Structure(grid, start, goal, open, all, closed) && cur in closed && Adjacent(cur, n)
    ensures Structure(grid, start, goal, open', all', closed)
    ensures forall t :: t in all ==> t in all' && all'[t].g <= all[t].g
    ensures forall t :: t in closed ==> all'[t] == all[t]
    ensures Walkable(grid, n) ==> n in all' && (n !in closed ==> all'[n].g <= all[cur].g + 1)
  {
    hide NodeOk, Walkable, Adjacent, Manhattan, Inside;
    open', all' := open, all;
    if Walkable(grid, n) && n !in closed {
      var g := all[cur].g + 1;
      if n !in open || g < open[n].g {
        StartCost(grid, start, goal, open, all, closed);
        var node := Node(n, g, g + Manhattan(n, goal), Some(cur));
        RelaxKeeps(grid, start, goal, open, all, closed, cur, n, node);
        open', all' := open[n := node], all[n := node];
      }
    }
  }

  lemma StartCost(grid: Grid, start: Tile, goal: Tile, open: Nodes, all: Nodes, closed: set<Tile>)
    requires Structure(grid, start, goal, open, all, closed)
    ensures all[start].g == 0
  {
    assert NodeOk(grid, start, goal, all, closed, start);
  }

  // ------------------------------------------------------ following parents

  /** A discovered tile is reached in as many steps as its cost says. */
  lemma {:induction false} ChainPath(grid: Grid, start: Tile, goal: Tile, open: Nodes, all: Nodes, closed: set<Tile>, t: Tile)
    returns (p: seq<Tile>)
    requires Structure(grid, start, goal, open, all, closed) && t in all
    ensures IsPath(grid, start, t, p) && |p| - 1 == all[t].g
    decreases all[t].g
  {
    hide Walkable, Adjacent, Manhattan, Inside;
    assert NodeOk(grid, start, goal, all, closed, t);
    if t == start {
      p := [start];
    } else {
      var q := ChainPath(grid, start, goal, open, all, closed, all[t].parent.value);
      p := q + [t];
    }
  }

  /** A closed neighbour of a tile is at most one step further from the start. */
  lemma ClosedNeighbour(grid: Grid, start: Tile, goal: Tile, open: Nodes, all: Nodes, closed: set<Tile>, cur: Tile, n: Tile)
    requires Structure(grid, start, goal, open, all, closed) && cur in all && n in closed
    requires AtLeast(grid, start, n, all[n].g)
    requires Walkable(grid, n) && Adjacent(cur, n)
    ensures all[n].g <= all[cur].g + 1
  {
    hide IsPath, NodeOk, Walkable, Adjacent;
    var p := ChainPath(grid, start, goal, open, all, closed, cur);
    PathSnoc(grid, start, cur, p, n);
  }

  lemma EmptySteps(grid: Grid)
    ensures Steps(grid, [])
  {
  }

  /** The parent chain of a tile, first to last. */
  method Reconstruct(grid: Grid, start: Tile, goal: Tile, ghost open: Nodes, all: Nodes, ghost closed: set<Tile>, t: Tile)
    returns (path: seq<Tile>)
    requires Structure(grid, start, goal, open, all, closed) && t in all
    ensures IsPath(grid, start, t, path) && |path| - 1 == all[t].g
  {
    hide Walkable, Adjacent, Manhattan, Inside, Steps;
    assert Steps(grid, []) by { EmptySteps(grid); }
    path := [];
    var p := Some(t);
    while p.Some?
      invariant p.Some? ==> p.value in all && |path| + all[p.value].g == all[t].g
      invariant p.Some? ==> if path == [] then p.value == t else Adjacent(p.value, path[0]) && Walkable(grid, path[0])
      invariant p.None? ==> path != [] && path[0] == start && |path| - 1 == all[t].g
      invariant path != [] ==> path[|path| - 1] == t
      invariant Steps(grid, path)
      decreases if p.Some? then all[p.value].g + 1 else 0
    {
      assert NodeOk(grid, start, goal, all, closed, p.value);
      StepsCons(grid, p.value, path);
      path := [p.value] + path;
      p := all[p.value].parent;
    }
  }

  // ------------------------------------------------------------ the search

  /** Closing a tile moves it from the open to the closed ones. */
  lemma CloseKeeps(grid: Grid, start: Tile, goal: Tile, open: Nodes, all: Nodes, closed: set<Tile>, t: Tile)
    requires Structure(grid, start, goal, open, all, closed) && t in open
    ensures Structure(grid, start, goal, open - {t}, all, closed + {t})
  {
    hide Walkable, Adjacent, Manhattan, Inside;
    forall u | u in all ensures NodeOk(grid, start, goal, all, closed + {t}, u) {
      assert NodeOk(grid, start, goal, all, closed, u);
    }
  }

  function Neighbours(t: Tile): seq<Tile> {
    [Tile(t.x + 1, t.y), Tile(t.x - 1, t.y), Tile(t.x, t.y + 1), Tile(t.x, t.y - 1)]
  }

  lemma NeighboursAreAdjacent(t: Tile, n: Tile)
    ensures Adjacent(t, n) <==> n in Neighbours(t)
  {
  }

  /** Expanding a tile whose cost is the true distance keeps every closed tile settled. */
  method Expand(grid: Grid, start: Tile, goal: Tile, open: Nodes, all: Nodes, closed: set<Tile>, cur: Tile)
    returns (open': Nodes, all': Nodes)
    requires Structure(grid, start, goal, open, all, closed) && Settled(grid, start, all, closed)
    requires cur in open && AtLeast(grid, start, cur, all[cur].g)
    ensures Structure(grid, start, goal, open', all', closed + {cur}) && Settled(grid, start, all', closed + {cur})
    ensures forall t :: t in closed + {cur} ==> all'[t] == all[t]
  {
    hide NodeOk, Walkable, Adjacent, AtLeast;
    CloseKeeps(grid, start, goal, open, all, closed, cur);
    open', all' := open - {cur}, all;
    var closed' := closed + {cur};
    var next := Neighbours(cur);
    for d := 0 to |next|
      invariant Structure(grid, start, goal, open', all', closed')
      invariant forall t :: t in all ==> t in all' && all'[t].g <= all[t].g
      invariant forall t :: t in closed' ==> all'[t] == all[t]
      invariant forall i :: 0 <= i < d && Walkable(grid, next[i]) ==>
        next[i] in all' && (next[i] !in closed' ==> all'[next[i]].g <= all[cur].g + 1)
    {
      NeighboursAreAdjacent(cur, next[d]);
      open', all' := Relax(grid, start, goal, open', all', closed', cur, next[d]);
    }
    forall c | c in closed'
      ensures Expanded(grid, all', c) && AtLeast(grid, start, c, all'[c].g)
    {
      if c != cur {
        assert Expanded(grid, all, c);
      } else {
        forall n | Walkable(grid, n) && Adjacent(cur, n)
          ensures n in all' && all'[n].g <= all'[cur].g + 1
        {
          NeighboursAreAdjacent(cur, n);
          if n in closed' && n != cur {
            ClosedNeighbour(grid, start, goal, open', all', closed', cur, n);
          }
        }
      }
    }
  }

  /** `path` is a shortest walk to `t`. */
  ghost predicate Shortest(grid: Grid, start: Tile, t: Tile, path: seq<Tile>) {
    IsPath(grid, start, t, path) && AtLeast(grid, start, t, |path| - 1)
  }

  /** `t` is as close to the goal, as the crow flies on tiles, as any reachable tile. */
  ghost predicate ClosestReachable(grid: Grid, start: Tile, goal: Tile, t: Tile) {
    forall u :: Reachable(grid, start, u) ==> Manhattan(t, goal) <= Manhattan(u, goal)
  }

  lemma InitialState(grid: Grid, start: Tile, goal: Tile, node: Node)
    requires Inside(grid, start) && node == Node(start, 0, Manhattan(start, goal), None)
    ensures Structure(grid, start, goal, map[start := node], map[start := node], {})
    ensures Settled(grid, start, map[start := node], {})
  {
  }

  /** The closed tiles fit in the grid, and an open tile leaves room for one more. */
  lemma ClosedFits(grid: Grid, start: Tile, goal: Tile, open: Nodes, all: Nodes, closed: set<Tile>)
    requires Structure(grid, start, goal, open, all, closed)
    ensures |closed| <= grid.cols * grid.rows
    ensures open != map[] ==> |closed| < grid.cols * grid.rows
  {
    var tiles := Tiles(grid.cols, grid.rows);
    GridSize(grid.cols, grid.rows);
    forall t | t in all ensures t in tiles {
      assert NodeOk(grid, start, goal, all, closed, t);
      assert t == Tile(t.x, t.y);
    }
    SubsetSize(closed, tiles);
    if open != map[] {
      var t :| t in open;
      SubsetSize(closed + {t}, tiles);
    }
  }

  /** The search after the line-of-sight shortcut. The points returned are tile centres, so they
      are given as tiles: the steps after the start and, when the goal is reached, the goal's
      centre once more. `budget` is the iteration guard.

      When the goal is reached the walk is a shortest one. With a guard no smaller than the
      grid it is reached whenever it can be; otherwise the walk is a shortest one to a
      reachable tile as near the goal as any, and it is empty exactly when that is the start. */
  method TileSearch(grid: Grid, start: Tile, goal: Tile, budget: nat)
    returns (points: seq<Tile>, reached: bool, expanded: nat, ghost path: seq<Tile>)
    requires Inside(grid, start) && start != goal
    ensures expanded <= grid.cols * grid.rows && expanded <= budget
    ensures reached ==> Shortest(grid, start, goal, path) && points == path[1..] + [goal]
    ensures !reached ==> path != [] && Shortest(grid, start, path[|path| - 1], path) && points == path[1..]
    ensures !reached && expanded < budget ==>
      && !Reachable(grid, start, goal)
      && ClosestReachable(grid, start, goal, path[|path| - 1])
      && (points == [] <==> path[|path| - 1] == start)
    ensures grid.cols * grid.rows <= budget ==> (reached <==> Reachable(grid, start, goal))
    ensures grid.cols * grid.rows <= budget && !reached ==> ClosestReachable(grid, start, goal, path[|path| - 1])
  {
    hide NodeOk, Walkable, Adjacent, AtLeast, IsPath, Settled, Expanded, Manhattan, Reachable;
    var startNode := Node(start, 0, Manhattan(start, goal), None);
    var open: Nodes, all: Nodes, closed: set<Tile> := map[start := startNode], map[start := startNode], {};
    InitialState(grid, start, goal, startNode);
    var best := startNode;
    expanded := 0;
    while open != map[] && expanded < budget
      invariant Structure(grid, start, goal, open, all, closed) && Settled(grid, start, all, closed)
      invariant expanded == |closed| <= budget
      invariant best.tile in all && all[best.tile] == best && (best.tile in closed || (best == startNode && closed == {}))
      invariant goal !in closed && forall c :: c in closed ==> Manhattan(best.tile, goal) <= Manhattan(c, goal)
      decreases budget - expanded
    {
      TilesMatch(grid, start, goal, open, all, closed);
      var cur := SelectLeast(open);
      LeastPriorityIsOptimal(grid, start, goal, open, all, closed, cur.tile);
      ClosedFits(grid, start, goal, open, all, closed);
      OnlyStartAtFirst(grid, start, goal, open, all, closed, cur.tile);
      if Manhattan(cur.tile, goal) < Manhattan(best.tile, goal) {
        best := cur;
      }
      if cur.tile == goal {
        var cells := Reconstruct(grid, start, goal, open, all, closed, goal);
        PathShape(grid, start, goal, cells);
        path := cells;
        return cells[1..] + [goal], true, expanded, path;
      }
      open, all := Expand(grid, start, goal, open, all, closed, cur.tile);
      closed := closed + {cur.tile};
      expanded := expanded + 1;
    }
    ClosedFits(grid, start, goal, open, all, closed);
    BestIsShortest(grid, start, goal, open, all, closed, best.tile);
    if open == map[] {
      Exhausted(grid, start, goal, all, closed, best.tile);
    }
    var cells := Reconstruct(grid, start, goal, open, all, closed, best.tile);
    PathShape(grid, start, best.tile, cells);
    path := cells;
    reached := false;
    if best.tile == start {
      StartCost(grid, start, goal, open, all, closed);
      points := [];
    } else {
      points := cells[1..];
    }
  }

  lemma TilesMatch(grid: Grid, start: Tile, goal: Tile, open: Nodes, all: Nodes, closed: set<Tile>)
    requires Structure(grid, start, goal, open, all, closed)
    ensures forall t :: t in open ==> open[t].tile == t
  {
    forall t | t in open ensures open[t].tile == t {
      assert NodeOk(grid, start, goal, all, closed, t);
    }
  }

  lemma PathShape(grid: Grid, start: Tile, t: Tile, p: seq<Tile>)
    requires IsPath(grid, start, t, p)
    ensures p != [] && p[0] == start && p[|p| - 1] == t && Reachable(grid, start, t)
  {
  }

  /** Before anything is closed only the start is known. */
  lemma OnlyStartAtFirst(grid: Grid, start: Tile, goal: Tile, open: Nodes, all: Nodes, closed: set<Tile>, t: Tile)
    requires Structure(grid, start, goal, open, all, closed) && t in all
    ensures closed == {} ==> t == start
  {
    assert NodeOk(grid, start, goal, all, closed, t);
  }

  lemma BestIsShortest(grid: Grid, start: Tile, goal: Tile, open: Nodes, all: Nodes, closed: set<Tile>, t: Tile)
    requires Structure(grid, start, goal, open, all, closed) && Settled(grid, start, all, closed)
    requires t in closed || t == start
    ensures t in all && AtLeast(grid, start, t, all[t].g)
  {
    StartCost(grid, start, goal, open, all, closed);
  }

  lemma Exhausted(grid: Grid, start: Tile, goal: Tile, all: Nodes, closed: set<Tile>, t: Tile)
    requires Structure(grid, start, goal, map[], all, closed) && Settled(grid, start, all, closed) && goal !in closed
    requires forall c :: c in closed ==> Manhattan(t, goal) <= Manhattan(c, goal)
    ensures !Reachable(grid, start, goal) && ClosestReachable(grid, start, goal, t)
  {
    hide NodeOk, Manhattan, IsPath;
    forall u | Reachable(grid, start, u) ensures u in closed {
      var p :| IsPath(grid, start, u, p);
      ReachableIsClosed(grid, start, goal, all, closed, u, p);
    }
  }

  /** On the office map, 25 by 25 tiles with a guard of 20000, the guard never decides. */
  method OfficeSearch(blocked: Tile -> bool, start: Tile, goal: Tile) returns (points: seq<Tile>, ghost path: seq<Tile>)
    requires Inside(Grid(25, 25, blocked), start) && start != goal
    ensures path != [] && Shortest(Grid(25, 25, blocked), start, path[|path| - 1], path)
    ensures Reachable(Grid(25, 25, blocked), start, goal) ==> path[|path| - 1] == goal && points == path[1..] + [goal]
    ensures !Reachable(Grid(25, 25, blocked), start, goal) ==>
      points == path[1..] && ClosestReachable(Grid(25, 25, blocked), start, goal, path[|path| - 1])
  {
    hide Reachable, ClosestReachable, AtLeast;
    var reached, expanded;
    points, reached, expanded, path := TileSearch(Grid(25, 25, blocked), start, goal, 20000);
  }
}
