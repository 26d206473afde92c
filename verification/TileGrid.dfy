/** The collision grid: tiles, walkability, paths and distances. */
module TileGrid {
  datatype Tile = Tile(x: int, y: int)

  /** `blocked` is only consulted inside the grid; everything outside is blocked. */
  datatype Grid = Grid(cols: nat, rows: nat, blocked: Tile -> bool)

  predicate Inside(grid: Grid, t: Tile) {
    0 <= t.x < grid.cols && 0 <= t.y < grid.rows
  }

  predicate Walkable(grid: Grid, t: Tile) {
    Inside(grid, t) && !grid.blocked(t)
  }

  function Abs(n: int): nat {
    if n < 0 then -n else n
  }

  function Manhattan(a: Tile, b: Tile): nat {
    Abs(a.x - b.x) + Abs(a.y - b.y)
  }

  predicate Adjacent(a: Tile, b: Tile) {
    Manhattan(a, b) == 1
  }

  /** A walk of single steps from `start` to `t`; every tile after the first is walkable. */
  ghost predicate IsPath(grid: Grid, start: Tile, t: Tile, p: seq<Tile>) {
    |p| >= 1 && p[0] == start && p[|p| - 1] == t && Steps(grid, p)
  }

  ghost predicate Steps(grid: Grid, p: seq<Tile>) {
    forall i :: 0 < i < |p| ==> Walkable(grid, p[i]) && Adjacent(p[i - 1], p[i])
  }

  lemma StepsCons(grid: Grid, t: Tile, p: seq<Tile>)
    requires Steps(grid, p) && (p == [] || (Walkable(grid, p[0]) && Adjacent(t, p[0])))
    ensures Steps(grid, [t] + p)
  {
    hide Walkable, Adjacent;
  }

  ghost predicate Reachable(grid: Grid, start: Tile, t: Tile) {
    exists p :: IsPath(grid, start, t, p)
  }

  /** No path from `start` to `t` has fewer than `d` steps. */
  ghost predicate AtLeast(grid: Grid, start: Tile, t: Tile, d: nat) {
    forall p :: IsPath(grid, start, t, p) ==> d <= |p| - 1
  }

  lemma PathPrefix(grid: Grid, start: Tile, t: Tile, p: seq<Tile>, n: nat)
    requires IsPath(grid, start, t, p) && n < |p|
    ensures IsPath(grid, start, p[n], p[..n + 1])
  {
  }

  lemma PathSnoc(grid: Grid, start: Tile, t: Tile, p: seq<Tile>, n: Tile)
    requires IsPath(grid, start, t, p) && Walkable(grid, n) && Adjacent(t, n)
    ensures IsPath(grid, start, n, p + [n])
  {
    hide Walkable, Adjacent;
    var q := p + [n];
    forall i | 0 < i < |q| ensures Walkable(grid, q[i]) && Adjacent(q[i - 1], q[i]) {
      assert i < |p| ==> q[i] == p[i] && q[i - 1] == p[i - 1];
    }
  }

  /** The Manhattan heuristic is consistent along a path. */
  lemma {:induction false} HeuristicConsistent(grid: Grid, start: Tile, t: Tile, p: seq<Tile>, i: nat, goal: Tile)
    requires IsPath(grid, start, t, p) && i < |p|
    ensures Manhattan(p[i], goal) <= Manhattan(t, goal) + (|p| - 1 - i)
    decreases |p| - i
  {
    if i < |p| - 1 {
      assert Adjacent(p[i], p[i + 1]);
      HeuristicConsistent(grid, start, t, p, i + 1, goal);
    }
  }

  // ----------------------------------------------------- the size of the grid

  function Row(cols: nat, y: int): set<Tile> {
    set x | 0 <= x < cols :: Tile(x, y)
  }

  function Tiles(cols: nat, rows: nat): set<Tile> {
    set x, y | 0 <= x < cols && 0 <= y < rows :: Tile(x, y)
  }

  lemma {:induction false} RowSize(cols: nat, y: int)
    ensures |Row(cols, y)| == cols
  {
    if cols > 0 {
      RowSize(cols - 1, y);
      assert Row(cols, y) == Row(cols - 1, y) + {Tile(cols - 1, y)};
    }
  }

  lemma {:induction false} GridSize(cols: nat, rows: nat)
    ensures |Tiles(cols, rows)| == cols * rows
  {
    if rows > 0 {
      GridSize(cols, rows - 1);
      RowSize(cols, rows - 1);
      assert Tiles(cols, rows) == Tiles(cols, rows - 1) + Row(cols, rows - 1);
      assert cols * rows == cols * (rows - 1) + cols;
    } else {
      assert Tiles(cols, rows) == {};
    }
  }

  lemma {:induction false} SubsetSize<T>(a: set<T>, b: set<T>)
    requires a <= b
    ensures |a| <= |b|
    ensures |a| == |b| ==> a == b
  {
    if a != {} {
      var x :| x in a;
      SubsetSize(a - {x}, b - {x});
    }
  }

  /** The integer key of the search's dictionaries identifies a tile of the grid. */
  function Key(grid: Grid, t: Tile): int {
    t.y * grid.cols + t.x
  }

  lemma KeyInjective(grid: Grid, a: Tile, b: Tile)
    requires Inside(grid, a) && Inside(grid, b) && Key(grid, a) == Key(grid, b)
    ensures a == b
  {
    if a.y < b.y {
      RowGap(grid.cols, a.y, b.y);
    } else if b.y < a.y {
      RowGap(grid.cols, b.y, a.y);
    }
  }

  lemma {:induction false} RowGap(cols: nat, y: int, z: int)
    requires y < z
    ensures y * cols + cols <= z * cols
    decreases z - y
  {
    if y + 1 < z {
      RowGap(cols, y, z - 1);
      assert z * cols == (z - 1) * cols + cols;
    } else {
      assert z * cols == y * cols + cols;
    }
  }
}
