/** The tiles along a line: a Bresenham walk over real coordinates. */
module Bresenham {
  datatype Key = Key(x: int, y: int)

  /** Go's conversion of a coordinate to an integer, which truncates toward zero. */
  function Tile(f: real): (r: int)
  {
    if f >= 0.0 then f.Floor else -(-f).Floor
  }

  /** The tile begins at most one unit before the coordinate. */
  lemma TileHolds(f: real)
    ensures f >= 0.0 ==> Tile(f) as real <= f < Tile(f) as real + 1.0
    ensures f <= 0.0 ==> Tile(f) as real - 1.0 < f <= Tile(f) as real
  {
  }

  function Abs(x: real): (r: real)
  {
    if x < 0.0 then -x else x
  }

  function Ceil(x: real): (r: int)
    ensures x <= r as real < x + 1.0
  {
    -((-x).Floor)
  }

  /** The direction of a step. */
  function Sign(d: real): (r: real)
  {
    if d > 0.0 then 1.0 else -1.0
  }

  // The walk in closed form, along the axis with the larger distance

  /** How far the line has come on the minor axis after `i` steps on the major axis. */
  function Climb(dx: real, dy: real, i: int): (r: real)
    requires dx > 0.0
  {
    dy * i as real / dx
  }

  /** The steps on the minor axis after `i` steps on the major axis: those of the line, rounded. */
  function Steps(dx: real, dy: real, i: int): (k: int)
    requires dx > 0.0
  {
    (Climb(dx, dy, i) + 0.5).Floor
  }

  function Point(steep: bool, x: real, y: real): (r: Key)
  {
    if steep then Key(Tile(y), Tile(x)) else Key(Tile(x), Tile(y))
  }

  /** The coordinate after `i` steps. */
  function Pos(x: real, s: real, i: int): (r: real)
  {
    x + s * i as real
  }

  /** The tiles of the walk, `x` being the major axis. */
  function Walk(steep: bool, x: real, y: real, sx: real, sy: real, dx: real, dy: real, n: nat): (r: seq<Key>)
    requires n > 0 ==> dx > 0.0
  {
    seq(n, i requires 0 <= i < n => Point(steep, Pos(x, sx, i), Pos(y, sy, Steps(dx, dy, i))))
  }

  /** All tiles of the line from one point to another. */
  function Line(x1: real, y1: real, x2: real, y2: real): (r: seq<Key>)
  {
    var dx, dy, sx, sy := Abs(x2 - x1), Abs(y2 - y1), Sign(x2 - x1), Sign(y2 - y1);
    (if dy > dx then Walk(true, y1, x1, sy, sx, dy, dx, Ceil(dy)) else Walk(false, x1, y1, sx, sy, dx, dy, Ceil(dx)))
    + [Key(Tile(x2), Tile(y2))]
  }

  // The walk itself

  lemma Divide(a: real, d: real)
    requires d > 0.0
    ensures a / d * d == a
  {
  }

  lemma AtMost(p: real, q: real, d: real, pd: real, qd: real)
    requires d > 0.0 && pd == p * d && qd == q * d && pd <= qd
    ensures p <= q
  {
  }

  lemma Less(p: real, q: real, d: real, pd: real, qd: real)
    requires d > 0.0 && pd == p * d && qd == q * d && pd < qd
    ensures p < q
  {
  }

  lemma WalkOn(steep: bool, x: real, y: real, sx: real, sy: real, dx: real, dy: real, n: nat)
    requires dx > 0.0
    ensures Walk(steep, x, y, sx, sy, dx, dy, n + 1)
         == Walk(steep, x, y, sx, sy, dx, dy, n) + [Point(steep, Pos(x, sx, n), Pos(y, sy, Steps(dx, dy, n)))]
  {
    hide Steps, Point, Pos;
  }

  /** The error term after `i` steps on the major and `k` on the minor axis. */
  function Error(dx: real, dy: real, i: int, k: int): (e: real)
  {
    2.0 * dy * (i + 1) as real - dx - 2.0 * dx * k as real
  }

  lemma ErrorNext(dx: real, dy: real, i: int, k: int)
    ensures Error(dx, dy, i + 1, k) == Error(dx, dy, i, k) + 2.0 * dy
    ensures Error(dx, dy, i, k + 1) == Error(dx, dy, i, k) - 2.0 * dx
  {
  }

  lemma PosNext(x: real, s: real, i: int)
    ensures Pos(x, s, i + 1) == Pos(x, s, i) + s
  {
  }

  lemma Beginning(x: real, s: real, dx: real, dy: real)
    ensures Pos(x, s, 0) == x && Error(dx, dy, 0, 0) == 2.0 * dy - dx
  {
  }

  /** The error term keeps the number of steps next to the line. */
  lemma StepsFromError(dx: real, dy: real, i: nat, k: int)
    requires dx > 0.0 && 2.0 * dy - 2.0 * dx <= Error(dx, dy, i, k) < 2.0 * dy
    ensures k == Steps(dx, dy, i)
  {
    var a := dy * i as real;
    var q := a / dx;
    Divide(a, dx);
    assert 2.0 * dy * (i + 1) as real == 2.0 * a + 2.0 * dy;
    Less(q, k as real + 0.5, dx, a, (k as real + 0.5) * dx);
    AtMost(k as real - 0.5, q, dx, (k as real - 0.5) * dx, a);
  }

  /** The two loops. The inner one makes at most one step, since the error is below twice the minor distance. */
  method WalkTiles(steep: bool, x: real, y: real, sx: real, sy: real, dx: real, dy: real) returns (tiles: seq<Key>)
    requires 0.0 <= dy <= dx
    ensures Ceil(dx) >= 0 && tiles == Walk(steep, x, y, sx, sy, dx, dy, Ceil(dx))
  {
    hide Steps, Tile, Walk, Point, Pos, Error;
    tiles := [];
    NoTiles(steep, x, y, sx, sy, dx, dy);
    Beginning(x, sx, dx, dy);
    Beginning(y, sy, dx, dy);
    var x1, y1, e, i := x, y, 2.0 * dy - dx, 0;
    ghost var k := 0;
    while i as real < dx
      invariant 0 <= i <= Ceil(dx)
      invariant x1 == Pos(x, sx, i) && y1 == Pos(y, sy, k) && e == Error(dx, dy, i, k)
      invariant dx > 0.0 ==> 2.0 * dy - 2.0 * dx <= e < 2.0 * dy
      invariant i > 0 ==> dx > 0.0
      invariant tiles == Walk(steep, x, y, sx, sy, dx, dy, i)
      decreases Ceil(dx) - i
    {
      StepsFromError(dx, dy, i, k);
      WalkOn(steep, x, y, sx, sy, dx, dy, i);
      tiles := tiles + [Point(steep, x1, y1)];
      ghost var before := k;
      while e >= 0.0
        invariant y1 == Pos(y, sy, k) && e == Error(dx, dy, i, k) && before <= k <= before + 1
        invariant k == before ==> 2.0 * dy - 2.0 * dx <= e < 2.0 * dy
        invariant k > before ==> -2.0 * dx <= e < 2.0 * dy - 2.0 * dx
        decreases before + 1 - k
      {
        PosNext(y, sy, k);
        ErrorNext(dx, dy, i, k);
        y1 := y1 + sy;
        e := e - 2.0 * dx;
        k := k + 1;
      }
      PosNext(x, sx, i);
      ErrorNext(dx, dy, i, k);
      x1 := x1 + sx;
      e := e + 2.0 * dy;
      i := i + 1;
    }
  }

  lemma NoTiles(steep: bool, x: real, y: real, sx: real, sy: real, dx: real, dy: real)
    ensures Walk(steep, x, y, sx, sy, dx, dy, 0) == []
  {
  }

  /** `bresenham`. */
  method Tiles(x1: real, y1: real, x2: real, y2: real) returns (tiles: seq<Key>)
    ensures tiles == Line(x1, y1, x2, y2)
    ensures OnGrid(x1, y1) && OnGrid(x2, y2) ==> forall key <- tiles :: FitsUint32(key)
  {
    hide Tile, Walk, OnGrid, FitsUint32;
    var dx, dy, sx, sy := Abs(x2 - x1), Abs(y2 - y1), Sign(x2 - x1), Sign(y2 - y1);
    if dy > dx {
      tiles := WalkTiles(true, y1, x1, sy, sx, dy, dx);
    } else {
      tiles := WalkTiles(false, x1, y1, sx, sy, dx, dy);
    }
    tiles := tiles + [Key(Tile(x2), Tile(y2))];
    if OnGrid(x1, y1) && OnGrid(x2, y2) {
      forall i | 0 <= i < |tiles| ensures FitsUint32(tiles[i]) {
        TilesFit(x1, y1, x2, y2, i);
      }
    }
  }

  // What the tiles are

  lemma StepsNearLine(dx: real, dy: real, i: nat)
    requires dx > 0.0
    ensures -0.5 <= Climb(dx, dy, i) - Steps(dx, dy, i) as real < 0.5
  {
  }

  lemma NoStepsYet(dx: real, dy: real)
    requires dx > 0.0
    ensures Steps(dx, dy, 0) == 0
  {
    assert Climb(dx, dy, 0) == 0.0;
  }

  lemma Apart(q: real, r: real, dx: real, dy: real, qd: real, rd: real)
    requires dx > 0.0 && 0.0 <= dy <= dx && qd == q * dx && rd == r * dx && rd == qd + dy
    ensures q <= r <= q + 1.0
  {
    AtMost(q, r, dx, qd, rd);
    AtMost(r, q + 1.0, dx, rd, qd + dx);
  }

  /** At most one step on the minor axis for each on the major axis, and none back. */
  lemma OneStep(dx: real, dy: real, i: nat)
    requires dx > 0.0 && 0.0 <= dy <= dx
    ensures 0 <= Steps(dx, dy, i + 1) - Steps(dx, dy, i) <= 1
  {
    var qd, rd := dy * i as real, dy * (i + 1) as real;
    Divide(qd, dx);
    Divide(rd, dx);
    Apart(qd / dx, rd / dx, dx, dy, qd, rd);
  }

  /** The coordinate a part `t` of the way from `a` to `b`. */
  function Along(a: real, b: real, t: real): (r: real)
  {
    a + t * (b - a)
  }

  lemma AlongBetween(a: real, b: real, t: real)
    requires 0.0 <= t < 1.0 && a >= 0.0 && b >= 0.0
    ensures Along(a, b, t) >= 0.0
  {
    var p, q := (1.0 - t) * a, t * b;
    NotNegative(1.0 - t, a, p);
    NotNegative(t, b, q);
    assert Along(a, b, t) == p + q;
  }

  lemma AlongAtMost(a: real, b: real, t: real, most: real)
    requires 0.0 <= t < 1.0 && a <= most && b <= most
    ensures Along(a, b, t) <= most
  {
    AlongBetween(most - a, most - b, t);
    assert t * ((most - b) - (most - a)) == -(t * (b - a));
  }

  lemma NotNegative(u: real, v: real, uv: real)
    requires u >= 0.0 && v >= 0.0 && uv == u * v
    ensures uv >= 0.0
  {
  }

  /** On the major axis the walk is exactly on the line. */
  lemma MajorExact(a: real, b: real, i: nat, t: real)
    requires Abs(b - a) > 0.0 && t == i as real / Abs(b - a)
    ensures Pos(a, Sign(b - a), i) == Along(a, b, t)
  {
    Divide(i as real, Abs(b - a));
    assert b - a == Sign(b - a) * Abs(b - a);
    assert t * (b - a) == Sign(b - a) * (t * Abs(b - a));
  }

  /** On the minor axis it is at most half a tile away. */
  lemma MinorNear(a: real, b: real, d: real, i: nat, t: real)
    requires d > 0.0 && t == i as real / d
    ensures Abs(Pos(a, Sign(b - a), Steps(d, Abs(b - a), i)) - Along(a, b, t)) <= 0.5
  {
    hide Steps, Pos, Along, Climb;
    var k, r, way := Steps(d, Abs(b - a), i), Climb(d, Abs(b - a), i), t * (b - a);
    StepsNearLine(d, Abs(b - a), i);
    SameRatio(Abs(b - a), i, d, t);
    Signed(b - a, t, r, way);
    Moved(a, b, k, t, way);
    Near(a, k as real, r, Pos(a, Sign(b - a), k), Along(a, b, t), b - a > 0.0);
  }

  lemma Near(a: real, k: real, r: real, p: real, q: real, up: bool)
    requires -0.5 <= r - k < 0.5
    requires p == (if up then a + k else a - k) && q == (if up then a + r else a - r)
    ensures Abs(p - q) <= 0.5
  {
  }

  lemma Signed(w: real, t: real, r: real, way: real)
    requires r == Abs(w) * t && way == t * w
    ensures way == if w > 0.0 then r else -r
  {
  }

  lemma Moved(a: real, b: real, k: int, t: real, way: real)
    requires way == t * (b - a)
    ensures Along(a, b, t) == a + way
    ensures Pos(a, Sign(b - a), k) == if b - a > 0.0 then a + k as real else a - k as real
  {
  }

  lemma SameRatio(w: real, i: nat, d: real, t: real)
    requires d > 0.0 && t == i as real / d
    ensures Climb(d, w, i) == w * t
  {
  }

  lemma PartOfTheWay(i: nat, d: real)
    requires d > 0.0 && i < Ceil(d)
    ensures 0.0 <= i as real / d < 1.0
  {
    Divide(i as real, d);
    Less(i as real / d, 1.0, d, i as real, d);
    AtMost(0.0, i as real / d, d, 0.0, i as real);
  }

  predicate Steep(x1: real, y1: real, x2: real, y2: real)
  {
    Abs(y2 - y1) > Abs(x2 - x1)
  }

  function Longer(x1: real, y1: real, x2: real, y2: real): (d: real)
  {
    if Steep(x1, y1, x2, y2) then Abs(y2 - y1) else Abs(x2 - x1)
  }

  /** Every tile but the last is that of a point `(px, py)` which on the major axis is exactly the point of the
      segment `i` units from its beginning, and on the minor axis at most half a tile from it. Between ends that
      are not negative no tile number is. */
  lemma NearSegment(x1: real, y1: real, x2: real, y2: real, i: nat) returns (t: real, px: real, py: real)
    requires i < Ceil(Longer(x1, y1, x2, y2))
    ensures 0.0 <= t < 1.0 && t * Longer(x1, y1, x2, y2) == i as real
    ensures i < |Line(x1, y1, x2, y2)| && Line(x1, y1, x2, y2)[i] == Key(Tile(px), Tile(py))
    ensures Steep(x1, y1, x2, y2) ==> py == Along(y1, y2, t) && Abs(px - Along(x1, x2, t)) <= 0.5
    ensures !Steep(x1, y1, x2, y2) ==> px == Along(x1, x2, t) && Abs(py - Along(y1, y2, t)) <= 0.5
    ensures x1 >= 0.0 && y1 >= 0.0 && x2 >= 0.0 && y2 >= 0.0 ==> Tile(px) >= 0 && Tile(py) >= 0
  {
    hide Steps, Pos, Sign, Along;
    var d := Longer(x1, y1, x2, y2);
    t := i as real / d;
    Divide(i as real, d);
    PartOfTheWay(i, d);
    var dx, dy := Abs(x2 - x1), Abs(y2 - y1);
    if Steep(x1, y1, x2, y2) {
      px, py := Pos(x1, Sign(x2 - x1), Steps(d, dx, i)), Pos(y1, Sign(y2 - y1), i);
      MajorExact(y1, y2, i, t);
      MinorNear(x1, x2, d, i, t);
    } else {
      px, py := Pos(x1, Sign(x2 - x1), i), Pos(y1, Sign(y2 - y1), Steps(d, dy, i));
      MajorExact(x1, x2, i, t);
      MinorNear(y1, y2, d, i, t);
    }
    if x1 >= 0.0 && y1 >= 0.0 && x2 >= 0.0 && y2 >= 0.0 {
      AlongBetween(x1, x2, t);
      AlongBetween(y1, y2, t);
    }
  }

  const TWO32 := 0x1_0000_0000

  predicate FitsUint32(key: Key)
  {
    0 <= key.x < TWO32 && 0 <= key.y < TWO32
  }

  predicate OnGrid(x: real, y: real)
  {
    0.0 <= x <= (TWO32 - 1) as real && 0.0 <= y <= (TWO32 - 1) as real
  }

  lemma TileFits(p: real)
    requires -0.5 <= p <= (TWO32 - 1) as real + 0.5
    ensures 0 <= Tile(p) < TWO32
  {
  }

  /** Between ends on the grid no tile is off it, although the walk may be half a tile off: the conversion to uint32
      never wraps. */
  lemma TilesFit(x1: real, y1: real, x2: real, y2: real, i: nat)
    requires OnGrid(x1, y1) && OnGrid(x2, y2) && i < |Line(x1, y1, x2, y2)|
    ensures FitsUint32(Line(x1, y1, x2, y2)[i])
  {
    hide Along, Line;
    LineEnds(x1, y1, x2, y2);
    var most := (TWO32 - 1) as real;
    var px, py := x2, y2;
    if i < Ceil(Longer(x1, y1, x2, y2)) {
      var t;
      t, px, py := NearSegment(x1, y1, x2, y2, i);
      AlongBetween(x1, x2, t);
      AlongBetween(y1, y2, t);
      AlongAtMost(x1, x2, t, most);
      AlongAtMost(y1, y2, t, most);
    }
    TileFits(px);
    TileFits(py);
  }

  /** One tile for each started unit of the larger distance and one more, both ends among them. */
  lemma LineEnds(x1: real, y1: real, x2: real, y2: real)
    ensures var line := Line(x1, y1, x2, y2);
      && |line| == Ceil(Longer(x1, y1, x2, y2)) + 1
      && line[0] == Key(Tile(x1), Tile(y1)) && line[|line| - 1] == Key(Tile(x2), Tile(y2))
  {
    hide Steps, Tile;
    var dx, dy := Abs(x2 - x1), Abs(y2 - y1);
    if dy > dx {
      NoStepsYet(dy, dx);
    } else if dx > 0.0 {
      NoStepsYet(dx, dy);
    }
  }
}
