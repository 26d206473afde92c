/** The integer tile walk behind the line-of-sight test, and the ring search for an open tile. */
module LineWalk {
  import opened Wrappers
  import opened TileGrid

  function Max(a: int, b: int): int {
    if a < b then b else a
  }

  function Chebyshev(a: Tile, b: Tile): nat {
    Max(Abs(a.x - b.x), Abs(a.y - b.y))
  }

  function Sign(from: int, to: int): int {
    if from < to then 1 else -1
  }

  /** The tile after `i` steps in x and `j` steps in y from `a` towards `b`. */
  function At(a: Tile, b: Tile, i: int, j: int): Tile {
    Tile(a.x + Sign(a.x, b.x) * i, a.y + Sign(a.y, b.y) * j)
  }

  /** How far the tile (i, j) is off the straight line, scaled by the length of the box. */
  function Offset(dx: nat, dy: nat, i: nat, j: nat): int {
    dx * j - dy * i
  }

  /** Half a tile, in the same scale, along the longer side of the box. */
  predicate NearLine(dx: nat, dy: nat, i: nat, j: nat) {
    -Max(dx, dy) <= 2 * Offset(dx, dy, i, j) <= Max(dx, dy)
  }

  lemma Scale(a: nat, n: int)
    ensures n >= 1 ==> a * n >= a
    ensures n <= -1 ==> a * n + a <= 0
  {
    if n >= 1 {
      assert a * n == a * (n - 1) + a;
    } else if n <= -1 {
      assert a * n == a * (n + 1) - a;
    }
  }

  lemma OffsetSteps(dx: nat, dy: nat, i: nat, j: nat)
    ensures Offset(dx, dy, i + 1, j) == Offset(dx, dy, i, j) - dy
    ensures Offset(dx, dy, i, j + 1) == Offset(dx, dy, i, j) + dx
    ensures Offset(dx, dy, i + 1, j + 1) == Offset(dx, dy, i, j) - dy + dx
    ensures Offset(dy, dx, j, i) == -Offset(dx, dy, i, j)
  {
    assert dx * (j + 1) == dx * j + dx;
    assert dy * (i + 1) == dy * i + dy;
  }

  /** Where the offset of a tile near the line is at the edges of a flat box. */
  lemma EdgeOffsets(dx: nat, dy: nat, i: nat, j: nat)
    requires i <= dx && j <= dy
    ensures i == dx && j < dy ==> Offset(dx, dy, i, j) + dx <= 0
    ensures j == dy && i < dx ==> Offset(dx, dy, i, j) >= dy
    ensures dx == dy && i < j ==> Offset(dx, dy, i, j) >= dx
    ensures dx == dy && j < i ==> Offset(dx, dy, i, j) + dx <= 0
  {
    if i == dx {
      assert Offset(dx, dy, i, j) == dx * (j - dy);
      Scale(dx, j - dy);
    }
    if j == dy {
      assert Offset(dx, dy, i, j) == dy * (dx - i);
      Scale(dy, dx - i);
    }
    if dx == dy {
      assert Offset(dx, dy, i, j) == dx * (j - i);
      Scale(dx, j - i);
    }
  }

  /** One turn in a box at least as wide as high, short of the end: x moves, y moves only
      when there is room, and the walk stays near the line. */
  lemma FlatTurn(dx: nat, dy: nat, i: nat, j: nat)
    requires dx >= dy && i <= dx && j <= dy && !(i == dx && j == dy) && NearLine(dx, dy, i, j)
    ensures var err := Offset(dx, dy, i, j) + dx - dy;
      && i < dx
      && 2 * err + dy > 0
      && (if 2 * err < dx then j < dy && NearLine(dx, dy, i + 1, j + 1) else NearLine(dx, dy, i + 1, j))
  {
    EdgeOffsets(dx, dy, i, j);
    OffsetSteps(dx, dy, i, j);
    hide Offset;
  }

  /** The same turn in a box higher than wide. */
  lemma SteepTurn(dx: nat, dy: nat, i: nat, j: nat)
    requires dx < dy && i <= dx && j <= dy && !(i == dx && j == dy) && NearLine(dx, dy, i, j)
    ensures var err := Offset(dx, dy, i, j) + dx - dy;
      && j < dy
      && 2 * err < dx
      && (if 2 * err + dy > 0 then i < dx && NearLine(dx, dy, i + 1, j + 1) else NearLine(dx, dy, i, j + 1))
  {
    OffsetSteps(dx, dy, i, j);
    OffsetSteps(dx, dy, i + 1, j);
    OffsetSteps(dx, dy, i, j + 1);
    OffsetSteps(dx, dy, i + 1, j + 1);
    hide Offset;
    FlatTurn(dy, dx, j, i);
  }

  /** The tile `n` turns along the walk: how many of them moved in x and in y. */
  ghost predicate OnWalk(a: Tile, b: Tile, t: Tile, n: nat) {
    exists i: nat, j: nat ::
      && t == At(a, b, i, j)
      && i <= Abs(b.x - a.x) && j <= Abs(b.y - a.y) && Max(i, j) == n
      && NearLine(Abs(b.x - a.x), Abs(b.y - a.y), i, j)
  }

  predicate InBox(a: Tile, b: Tile, t: Tile) {
    && (a.x <= t.x <= b.x || b.x <= t.x <= a.x)
    && (a.y <= t.y <= b.y || b.y <= t.y <= a.y)
  }

  /** A walk of king moves from `a`, near the line to `b` and within the box they span. */
  ghost predicate Trail(a: Tile, b: Tile, visited: seq<Tile>) {
    && visited != [] && visited[0] == a
    && (forall n :: 0 <= n < |visited| ==> InBox(a, b, visited[n]) && OnWalk(a, b, visited[n], n))
    && (forall n :: 0 < n < |visited| ==> Chebyshev(visited[n - 1], visited[n]) == 1)
  }

  lemma TrailSnoc(a: Tile, b: Tile, visited: seq<Tile>, t: Tile)
    requires Trail(a, b, visited) && InBox(a, b, t) && OnWalk(a, b, t, |visited|)
    requires Chebyshev(visited[|visited| - 1], t) == 1
    ensures Trail(a, b, visited + [t])
  {
    hide InBox, OnWalk, Chebyshev;
  }

  /** The tile walk of the line-of-sight test. It visits Chebyshev(a, b) + 1 tiles when nothing
      is in the way, each a king move from the last, none outside the box spanned by the end
      points or more than half a tile off the straight line; it fails at the first blocked tile. */
  method TileWalk(blocked: Tile -> bool, a: Tile, b: Tile) returns (clear: bool, visited: seq<Tile>)
    ensures Trail(a, b, visited)
    ensures forall n :: 0 <= n < |visited| - 1 ==> !blocked(visited[n])
    ensures clear <==> !blocked(visited[|visited| - 1])
    ensures clear ==> visited[|visited| - 1] == b && |visited| == Chebyshev(a, b) + 1
  {
    hide OnWalk, NearLine, Offset, InBox, Chebyshev, At;
    var x, y := a.x, a.y;
    var dx: int, dy: int := Abs(b.x - a.x), Abs(b.y - a.y);
    var sx := if a.x < b.x then 1 else -1;
    var sy := if a.y < b.y then 1 else -1;
    var err := dx - dy;
    ghost var i: nat, j: nat := 0, 0;
    visited := [a];
    WalkStart(a, b);
    while true
      invariant i <= dx && j <= dy && Tile(x, y) == At(a, b, i, j)
      invariant err == Offset(dx, dy, i, j) + dx - dy && NearLine(dx, dy, i, j)
      invariant |visited| == (if dx >= dy then i else j) + 1 && (if dx >= dy then j <= i else i <= j)
      invariant Trail(a, b, visited) && visited[|visited| - 1] == Tile(x, y)
      invariant forall n :: 0 <= n < |visited| - 1 ==> !blocked(visited[n])
      decreases dx + dy - i - j
    {
      if blocked(Tile(x, y)) {
        return false, visited;
      }
      AtEnd(a, b, i, j);
      if x == b.x && y == b.y {
        return true, visited;
      }
      if dx >= dy { FlatTurn(dx, dy, i, j); } else { SteepTurn(dx, dy, i, j); }
      OffsetSteps(dx, dy, i, j);
      AtSteps(a, b, i, j);
      ghost var i0, j0 := i, j;
      var e2 := 2 * err;
      if e2 > -dy {
        err := err - dy;
        x := x + sx;
        i := i + 1;
        if e2 < dx {
          if blocked(Tile(x, y - sy)) && blocked(Tile(x - sx, y)) {
            // The second test reads the tile found open at the top of this turn.
            assert false;
          }
        }
      }
      if e2 < dx {
        err := err + dx;
        y := y + sy;
        j := j + 1;
      }
      Moved(a, b, i0, j0, i, j);
      TrailSnoc(a, b, visited, Tile(x, y));
      visited := visited + [Tile(x, y)];
    }
  }

  lemma AtSteps(a: Tile, b: Tile, i: nat, j: nat)
    ensures At(a, b, i + 1, j) == Tile(At(a, b, i, j).x + Sign(a.x, b.x), At(a, b, i, j).y)
    ensures At(a, b, i, j + 1) == Tile(At(a, b, i, j).x, At(a, b, i, j).y + Sign(a.y, b.y))
    ensures At(a, b, i + 1, j + 1) == Tile(At(a, b, i, j).x + Sign(a.x, b.x), At(a, b, i, j).y + Sign(a.y, b.y))
  {
  }

  lemma WalkStart(a: Tile, b: Tile)
    ensures Trail(a, b, [a]) && At(a, b, 0, 0) == a && Offset(Abs(b.x - a.x), Abs(b.y - a.y), 0, 0) == 0
    ensures NearLine(Abs(b.x - a.x), Abs(b.y - a.y), 0, 0)
  {
    assert a == At(a, b, 0, 0);
    assert OnWalk(a, b, a, 0);
  }

  /** The walk is at `b` exactly when all its moves are made. */
  lemma AtEnd(a: Tile, b: Tile, i: nat, j: nat)
    requires i <= Abs(b.x - a.x) && j <= Abs(b.y - a.y)
    ensures At(a, b, i, j) == b <==> i == Abs(b.x - a.x) && j == Abs(b.y - a.y)
    ensures Chebyshev(a, b) == Max(Abs(b.x - a.x), Abs(b.y - a.y))
  {
  }

  lemma Moved(a: Tile, b: Tile, i: nat, j: nat, i': nat, j': nat)
    requires i <= i' <= i + 1 && j <= j' <= j + 1 && (i', j') != (i, j)
    requires i' <= Abs(b.x - a.x) && j' <= Abs(b.y - a.y)
    requires NearLine(Abs(b.x - a.x), Abs(b.y - a.y), i', j')
    ensures Chebyshev(At(a, b, i, j), At(a, b, i', j')) == 1
    ensures InBox(a, b, At(a, b, i', j')) && OnWalk(a, b, At(a, b, i', j'), Max(i', j'))
  {
    hide NearLine;
  }

  // --------------------------------------------------------- the ring search

  /** The first open tile on growing rings around `c`, as far as ring `radius - 1`: an open tile at
      least Chebyshev distance, or nothing when there is none that near. */
  method SnapToWalkable(blocked: Tile -> bool, c: Tile, radius: nat) returns (found: Option<Tile>)
    requires radius >= 1
    ensures found.Some? ==>
      && !blocked(found.value) && Chebyshev(c, found.value) < radius
      && (forall t :: !blocked(t) ==> Chebyshev(c, found.value) <= Chebyshev(c, t))
    ensures found.None? <==> forall t :: Chebyshev(c, t) < radius ==> blocked(t)
  {
    if !blocked(c) {
      return Some(c);
    }
    for r := 1 to radius
      invariant forall t :: Chebyshev(c, t) < r ==> blocked(t)
    {
      for dy := -r to r + 1
        invariant forall t :: Chebyshev(c, t) < r ==> blocked(t)
        invariant forall t :: Chebyshev(c, t) == r && t.y < c.y + dy ==> blocked(t)
      {
        for dx := -r to r + 1
          invariant forall t :: Chebyshev(c, t) < r ==> blocked(t)
          invariant forall t :: Chebyshev(c, t) == r && t.y < c.y + dy ==> blocked(t)
          invariant forall t :: Chebyshev(c, t) == r && t.y == c.y + dy && t.x < c.x + dx ==> blocked(t)
        {
          if Max(Abs(dx), Abs(dy)) == r {
            var n := Tile(c.x + dx, c.y + dy);
            if !blocked(n) {
              return Some(n);
            }
          }
        }
      }
    }
    return None;
  }
}
