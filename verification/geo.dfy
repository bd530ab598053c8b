/**
 * The geometry of a zone (ZoneCompute's `Box`, `inside` and `intersect`):
 * the bounding box of the boundary polygon, the ray-casting membership test
 * with its dateline step, and the crossing test between a vehicle's step and
 * one boundary edge, with the crossing time interpolated along the step.
 *
 * Coordinates are exact reals rather than IEEE doubles; timestamps are whole
 * seconds.
 */
module Geo {

  /** A latitude, longitude and timestamp (`util/Position`). */
  datatype Position = Position(lat: real, lng: real, ts: int)

  // ---------------------------------------------------------------------------
  // Bounding box
  // ---------------------------------------------------------------------------

  /** The rectangle around a zone's polygon, used to reject far points cheaply. */
  datatype Box = Box(north: real, south: real, east: real, west: real)

  predicate InBox(b: Box, p: Position) {
    b.south <= p.lat <= b.north && b.west <= p.lng <= b.east
  }

  /** The box before any vertex is seen: inside out, so it holds no point. */
  const EmptyBox := Box(-90.0, 90.0, -180.0, 180.0)

  /** One iteration of the constructor's loop: each side moves out to the vertex if it lies beyond it. */
  function Widen(b: Box, p: Position): Box {
    Box(if p.lat > b.north then p.lat else b.north,
        if p.lat < b.south then p.lat else b.south,
        if p.lng > b.east then p.lng else b.east,
        if p.lng < b.west then p.lng else b.west)
  }

  /**
   * The constructor's loop over `path`, starting from `b`. Each side ends at
   * the extreme of its start value and the vertices' coordinates.
   */
  function WidenAll(b: Box, path: seq<Position>): (r: Box)
    ensures r.north >= b.north && r.south <= b.south && r.east >= b.east && r.west <= b.west
    ensures forall i :: 0 <= i < |path| ==> InBox(r, path[i])
    ensures r.north == b.north || exists i :: 0 <= i < |path| && r.north == path[i].lat
    ensures r.south == b.south || exists i :: 0 <= i < |path| && r.south == path[i].lat
    ensures r.east == b.east || exists i :: 0 <= i < |path| && r.east == path[i].lng
    ensures r.west == b.west || exists i :: 0 <= i < |path| && r.west == path[i].lng
    decreases |path|
  {
    if |path| == 0 then b
    else
      var r := WidenAll(Widen(b, path[0]), path[1..]);
      assert forall i :: 1 <= i < |path| ==> path[i] == path[1..][i - 1];
      r
  }

  /** `Box()`: built once from the polygon vertices. */
  function BoundingBox(path: seq<Position>): (r: Box)
    ensures forall i :: 0 <= i < |path| ==> InBox(r, path[i])
    ensures r.north == -90.0 || exists i :: 0 <= i < |path| && r.north == path[i].lat
    ensures r.south == 90.0 || exists i :: 0 <= i < |path| && r.south == path[i].lat
    ensures r.east == -180.0 || exists i :: 0 <= i < |path| && r.east == path[i].lng
    ensures r.west == 180.0 || exists i :: 0 <= i < |path| && r.west == path[i].lng
  {
    WidenAll(EmptyBox, path)
  }

  predicate OnEarth(p: Position) {
    -90.0 <= p.lat <= 90.0 && -180.0 <= p.lng <= 180.0
  }

  /**
   * For a non-empty polygon whose vertices are valid coordinates, every side
   * of the box is the extreme coordinate of some vertex: the box is the
   * smallest one holding the polygon.
   */
  lemma BoundingBoxIsTight(path: seq<Position>)
    requires |path| >= 1
    requires forall i :: 0 <= i < |path| ==> OnEarth(path[i])
    ensures exists i :: 0 <= i < |path| && BoundingBox(path).north == path[i].lat
    ensures exists i :: 0 <= i < |path| && BoundingBox(path).south == path[i].lat
    ensures exists i :: 0 <= i < |path| && BoundingBox(path).east == path[i].lng
    ensures exists i :: 0 <= i < |path| && BoundingBox(path).west == path[i].lng
  {
    var r := BoundingBox(path);
    assert InBox(r, path[0]) && OnEarth(path[0]);
  }

  // ---------------------------------------------------------------------------
  // Membership
  // ---------------------------------------------------------------------------

  /** The number of `+= 360` steps in `while (x < 0) x += 360`: the least that makes `x` non-negative. */
  function TurnsEast(x: real): (k: nat)
    ensures x + 360.0 * k as real >= 0.0
    ensures k > 0 ==> x + 360.0 * (k - 1) as real < 0.0
    decreases if x < 0.0 then (-x).Floor + 1 else 0
  {
    if x >= 0.0 then 0 else 1 + TurnsEast(x + 360.0)
  }

  /** The number of `-= 360` steps in `while (x > 0) x -= 360`: the least that makes `x` non-positive. */
  function TurnsWest(x: real): (k: nat)
    ensures x - 360.0 * k as real <= 0.0
    ensures k > 0 ==> x - 360.0 * (k - 1) as real > 0.0
    decreases if x > 0.0 then x.Floor + 1 else 0
  {
    if x <= 0.0 then 0 else 1 + TurnsWest(x - 360.0)
  }

  /** An edge whose ends are more than 180 degrees of longitude apart is taken to jump the dateline. */
  predicate JumpsDateline(x1: real, x2: real) {
    x2 - x1 > 180.0 || x1 - x2 > 180.0
  }

  /**
   * The dateline step of `inside`: the longitudes `x1`, `x2` of an edge that
   * jumps the dateline are moved by whole turns onto the side of the query
   * longitude `x` (non-negative when `x > 0`, non-positive otherwise); any
   * other edge is left alone.
   */
  function Normalise(x1: real, x2: real, x: real): (r: (real, real))
    ensures !JumpsDateline(x1, x2) ==> r == (x1, x2)
    ensures JumpsDateline(x1, x2) && x > 0.0 ==>
      && r.0 == x1 + 360.0 * TurnsEast(x1) as real && 0.0 <= r.0
      && r.1 == x2 + 360.0 * TurnsEast(x2) as real && 0.0 <= r.1
      && (x1 >= 0.0 ==> r.0 == x1) && (x2 >= 0.0 ==> r.1 == x2)
      && r.0 < 360.0 + (if x1 >= 0.0 then x1 else 0.0)
      && r.1 < 360.0 + (if x2 >= 0.0 then x2 else 0.0)
    ensures JumpsDateline(x1, x2) && x <= 0.0 ==>
      && r.0 == x1 - 360.0 * TurnsWest(x1) as real && r.0 <= 0.0
      && r.1 == x2 - 360.0 * TurnsWest(x2) as real && r.1 <= 0.0
      && (x1 <= 0.0 ==> r.0 == x1) && (x2 <= 0.0 ==> r.1 == x2)
      && r.0 > -360.0 + (if x1 <= 0.0 then x1 else 0.0)
      && r.1 > -360.0 + (if x2 <= 0.0 then x2 else 0.0)
  {
    if !JumpsDateline(x1, x2) then (x1, x2)
    else if x > 0.0 then (x1 + 360.0 * TurnsEast(x1) as real, x2 + 360.0 * TurnsEast(x2) as real)
    else (x1 - 360.0 * TurnsWest(x1) as real, x2 - 360.0 * TurnsWest(x2) as real)
  }

  /**
   * Whether the edge `last`→`point` flips the membership of `p`: after the
   * dateline step, `p`'s longitude lies in the edge's half-open longitude
   * range and the edge passes strictly north of `p` there.
   */
  predicate Toggles(last: Position, point: Position, p: Position) {
    var n := Normalise(last.lng, point.lng, p.lng);
    var x1, x2, x := n.0, n.1, p.lng;
    if (x1 <= x && x2 > x) || (x1 >= x && x2 < x) then
      var grad := (point.lat - last.lat) / (x2 - x1);
      last.lat + (x - x1) * grad > p.lat
    else
      false
  }

  /** The vertex an edge starts from: edge `i` runs from vertex `i - 1` to vertex `i`, and edge 0 closes the ring. */
  function EdgeStart(path: seq<Position>, i: nat): Position
    requires i < |path|
  {
    if i == 0 then path[|path| - 1] else path[i - 1]
  }

  /** For each edge of the closed ring, whether it flips the membership of `p`. */
  function EdgeFlips(path: seq<Position>, p: Position): (r: seq<bool>)
    ensures |r| == |path|
    ensures forall i :: 0 <= i < |path| ==> r[i] == Toggles(EdgeStart(path, i), path[i], p)
  {
    seq(|path|, i requires 0 <= i < |path| => Toggles(EdgeStart(path, i), path[i], p))
  }

  /** The flag of the loop in `inside` after `k` iterations: negated at every flipping edge. */
  function Parity(flips: seq<bool>, k: nat): bool
    requires k <= |flips|
  {
    if k == 0 then false else Parity(flips, k - 1) != flips[k - 1]
  }

  /** The indices, below `k`, of the edges that flip. */
  function Flipping(flips: seq<bool>, k: nat): set<nat>
    requires k <= |flips|
  {
    set i: nat | i < k && flips[i]
  }

  /** After `k` iterations the flag is set exactly when an odd number of the first `k` edges flip. */
  lemma {:induction false} ParityCountsFlips(flips: seq<bool>, k: nat)
    requires k <= |flips|
    ensures Parity(flips, k) <==> |Flipping(flips, k)| % 2 == 1
  {
    if k > 0 {
      ParityCountsFlips(flips, k - 1);
      var before := Flipping(flips, k - 1);
      if flips[k - 1] {
        assert Flipping(flips, k) == before + {k - 1};
      } else {
        assert Flipping(flips, k) == before;
      }
    }
  }

  /**
   * `inside(p)`: false for any point outside the box, without looking at the
   * edges; otherwise true exactly when an odd number of the ring's edges
   * flip it.
   */
  function Inside(path: seq<Position>, p: Position): (r: bool)
    ensures !InBox(BoundingBox(path), p) ==> !r
    ensures InBox(BoundingBox(path), p) ==> (r <==> |EdgesFlipping(path, p)| % 2 == 1)
  {
    var flips := EdgeFlips(path, p);
    ParityCountsFlips(flips, |path|);
    assert Flipping(flips, |path|) == EdgesFlipping(path, p);
    InBox(BoundingBox(path), p) && Parity(flips, |path|)
  }

  /** The edges of the closed ring that flip the membership of `p`. */
  function EdgesFlipping(path: seq<Position>, p: Position): set<nat> {
    set i: nat | i < |path| && Toggles(EdgeStart(path, i), path[i], p)
  }

  /** Whether some edge of the ring is taken to jump the dateline. */
  predicate StraddlesDateline(path: seq<Position>) {
    exists i :: 0 <= i < |path| && JumpsDateline(EdgeStart(path, i).lng, path[i].lng)
  }

  /**
   * `inside` with the box test kept only for rings that do not jump the
   * dateline. The box of a ring that does runs the long way round the
   * globe, so there the edge loop and its dateline step decide alone. The
   * result agrees with `inside` on every other ring and accepts every
   * point `inside` accepts.
   */
  function InsideAcrossDateline(path: seq<Position>, p: Position): (r: bool)
    ensures !StraddlesDateline(path) ==> r == Inside(path, p)
    ensures StraddlesDateline(path) ==> (r <==> |EdgesFlipping(path, p)| % 2 == 1)
    ensures Inside(path, p) ==> r
  {
    var flips := EdgeFlips(path, p);
    ParityCountsFlips(flips, |path|);
    assert Flipping(flips, |path|) == EdgesFlipping(path, p);
    if StraddlesDateline(path) then Parity(flips, |path|) else Inside(path, p)
  }

  // ---------------------------------------------------------------------------
  // Crossing test
  // ---------------------------------------------------------------------------

  /** `Math.round`: the nearest whole number, halves rounded up. */
  function Round(x: real): (r: int)
    ensures x - 0.5 < r as real <= x + 0.5
  {
    (x + 0.5).Floor
  }

  /** The point (lat, lng) at fraction `t` of the way from `a` to `b`. */
  function Along(a: Position, b: Position, t: real): (real, real) {
    (a.lat + t * (b.lat - a.lat), a.lng + t * (b.lng - a.lng))
  }

  /** The cross product of the two direction vectors; zero when the lines are parallel. */
  function Cross(e1: real, f1: real, e2: real, f2: real): real {
    -f2 * e1 + f1 * e2
  }

  /** The denominator of `intersect`: the cross product of the step's and the edge's directions. */
  function Denominator(a: Position, b: Position, c: Position, d: Position): real {
    Cross(b.lat - a.lat, b.lng - a.lng, d.lat - c.lat, d.lng - c.lng)
  }

  /** The result of `intersect`: where the step met the edge, and at which fractions of each. */
  datatype Crossing = Miss | Hit(at: Position, progress: real, s: real)

  /**
   * Cramer's rule for the 2x2 system of `intersect`, with `(e1, f1)` the
   * step's direction, `(e2, f2)` the edge's and `(g, h)` the offset from the
   * edge's start to the step's start: the fractions `(s, progress)` of the
   * edge and of the step at which the two lines meet.
   */
  function Cramer(e1: real, f1: real, e2: real, f2: real, g: real, h: real): (r: (real, real))
    requires Cross(e1, f1, e2, f2) != 0.0
    ensures r.0 * Cross(e1, f1, e2, f2) == -e1 * h + f1 * g
    ensures r.1 * Cross(e1, f1, e2, f2) == f2 * g - e2 * h
    ensures g + r.1 * e1 - r.0 * e2 == 0.0 && h + r.1 * f1 - r.0 * f2 == 0.0
  {
    var den := Cross(e1, f1, e2, f2);
    var s := (-e1 * h + f1 * g) / den;
    var progress := (f2 * g - e2 * h) / den;
    DivideThenMultiply(-e1 * h + f1 * g, den);
    DivideThenMultiply(f2 * g - e2 * h, den);
    CramerSolves(e1, f1, e2, f2, g, h, s, progress);
    (s, progress)
  }

  /**
   * The fractions `(s, progress)` of the edge `c`→`d` and of the step
   * `a`→`b` at which their lines meet, by the formulas of `intersect`.
   */
  function Fractions(a: Position, b: Position, c: Position, d: Position): (r: (real, real))
    requires Denominator(a, b, c, d) != 0.0
    ensures Along(a, b, r.1) == Along(c, d, r.0)
  {
    var e1, f1 := b.lat - a.lat, b.lng - a.lng;
    var e2, f2 := d.lat - c.lat, d.lng - c.lng;
    var r := Cramer(e1, f1, e2, f2, a.lat - c.lat, a.lng - c.lng);
    assert Along(a, b, r.1).0 == a.lat + r.1 * e1 == c.lat + r.0 * e2 == Along(c, d, r.0).0;
    assert Along(a, b, r.1).1 == a.lng + r.1 * f1 == c.lng + r.0 * f2 == Along(c, d, r.0).1;
    r
  }

  lemma DivideThenMultiply(n: real, den: real)
    requires den != 0.0
    ensures (n / den) * den == n
  {
  }

  /**
   * Cramer's rule for the 2x2 system of `intersect`, with `(e1, f1)` the
   * step's direction, `(e2, f2)` the edge's and `(g, h)` the offset from the
   * edge's start to the step's start.
   */
  lemma CramerSolves(e1: real, f1: real, e2: real, f2: real, g: real, h: real, s: real, progress: real)
    requires Cross(e1, f1, e2, f2) != 0.0
    requires s * Cross(e1, f1, e2, f2) == -e1 * h + f1 * g
    requires progress * Cross(e1, f1, e2, f2) == f2 * g - e2 * h
    ensures g + progress * e1 - s * e2 == 0.0
    ensures h + progress * f1 - s * f2 == 0.0
  {
    var den := -f2 * e1 + f1 * e2;
    assert (g + progress * e1 - s * e2) * den == g * den + (progress * den) * e1 - (s * den) * e2;
    assert g * den + (f2 * g - e2 * h) * e1 - (-e1 * h + f1 * g) * e2 == 0.0;
    ZeroFactor(g + progress * e1 - s * e2, den);
    assert (h + progress * f1 - s * f2) * den == h * den + (progress * den) * f1 - (s * den) * f2;
    assert h * den + (f2 * g - e2 * h) * f1 - (-e1 * h + f1 * g) * f2 == 0.0;
    ZeroFactor(h + progress * f1 - s * f2, den);
  }

  lemma ZeroFactor(x: real, y: real)
    requires y != 0.0 && x * y == 0.0
    ensures x == 0.0
  {
  }

  /** Any solution of the system is the one Cramer's rule gives. */
  lemma CramerUnique(e1: real, f1: real, e2: real, f2: real, g: real, h: real, t: real, u: real)
    requires g + t * e1 - u * e2 == 0.0
    requires h + t * f1 - u * f2 == 0.0
    ensures f2 * g - e2 * h == t * Cross(e1, f1, e2, f2)
    ensures -e1 * h + f1 * g == u * Cross(e1, f1, e2, f2)
  {
    assert g == u * e2 - t * e1;
    assert h == u * f2 - t * f1;
    assert f2 * g - e2 * h == f2 * (u * e2 - t * e1) - e2 * (u * f2 - t * f1);
    assert -e1 * h + f1 * g == -e1 * (u * f2 - t * f1) + f1 * (u * e2 - t * e1);
  }

  /**
   * `intersect`: does the vehicle's step `a`→`b` meet the boundary edge
   * `c`→`d`? A hit lies on both segments, and its timestamp is the step's
   * start time plus the rounded share of the step's duration. Parallel and
   * collinear segments never hit (in Java the division yields an infinity
   * or NaN, and every comparison with those fails).
   */
  function Intersect(a: Position, b: Position, c: Position, d: Position): (r: Crossing)
    ensures Denominator(a, b, c, d) == 0.0 ==> r.Miss?
    ensures r.Hit? ==> 0.0 <= r.progress <= 1.0 && 0.0 <= r.s <= 1.0
    ensures r.Hit? ==> (r.at.lat, r.at.lng) == Along(a, b, r.progress) == Along(c, d, r.s)
    ensures r.Hit? ==> r.at.ts == a.ts + Round((b.ts - a.ts) as real * r.progress)
    ensures r.Hit? && a.ts <= b.ts ==> a.ts <= r.at.ts <= b.ts
  {
    if Denominator(a, b, c, d) == 0.0 then Miss
    else
      var (s, progress) := Fractions(a, b, c, d);
      if 0.0 <= s <= 1.0 && 0.0 <= progress <= 1.0 then
        var (lat, lng) := Along(a, b, progress);
        InterpolatedWithinStep(b.ts - a.ts, progress);
        Hit(Position(lat, lng, a.ts + Round((b.ts - a.ts) as real * progress)), progress, s)
      else
        Miss
  }

  /** A rounded share of a non-negative whole duration stays within it. */
  lemma InterpolatedWithinStep(dt: int, progress: real)
    requires 0.0 <= progress <= 1.0
    ensures dt >= 0 ==> 0 <= Round(dt as real * progress) <= dt
  {
    if dt >= 0 {
      assert dt as real * progress <= dt as real * 1.0;
    }
  }

  /**
   * Whenever the step and the edge are not parallel and share a point at
   * fractions `t` of the step and `u` of the edge, both in [0, 1],
   * `intersect` reports exactly that crossing.
   */
  lemma IntersectFindsEveryCrossing(a: Position, b: Position, c: Position, d: Position, t: real, u: real)
    requires Denominator(a, b, c, d) != 0.0
    requires 0.0 <= t <= 1.0 && 0.0 <= u <= 1.0
    requires Along(a, b, t) == Along(c, d, u)
    ensures Intersect(a, b, c, d).Hit?
    ensures Intersect(a, b, c, d).progress == t && Intersect(a, b, c, d).s == u
  {
    var e1, f1 := b.lat - a.lat, b.lng - a.lng;
    var e2, f2 := d.lat - c.lat, d.lng - c.lng;
    var g, h := a.lat - c.lat, a.lng - c.lng;
    assert g + t * e1 - u * e2 == 0.0 by {
      assert Along(a, b, t).0 == Along(c, d, u).0;
    }
    assert h + t * f1 - u * f2 == 0.0 by {
      assert Along(a, b, t).1 == Along(c, d, u).1;
    }
    SolutionIsUnique(e1, f1, e2, f2, g, h, t, u);
  }

  /** The fractions Cramer's rule gives are those of any common point. */
  lemma SolutionIsUnique(e1: real, f1: real, e2: real, f2: real, g: real, h: real, t: real, u: real)
    requires Cross(e1, f1, e2, f2) != 0.0
    requires g + t * e1 - u * e2 == 0.0
    requires h + t * f1 - u * f2 == 0.0
    ensures Cramer(e1, f1, e2, f2, g, h) == (u, t)
  {
    var den := Cross(e1, f1, e2, f2);
    var r := Cramer(e1, f1, e2, f2, g, h);
    CramerUnique(e1, f1, e2, f2, g, h, t, u);
    Cancel(r.1, t, den);
    Cancel(r.0, u, den);
  }

  lemma Cancel(x: real, y: real, den: real)
    requires den != 0.0 && x * den == y * den
    ensures x == y
  {
    assert (x - y) * den == 0.0;
  }

  /**
   * For a fixed fraction of the step, a longer step never gives an earlier
   * interpolated offset.
   */
  lemma InterpolationMonotone(dt1: int, dt2: int, progress: real)
    requires 0.0 <= progress && dt1 <= dt2
    ensures Round(dt1 as real * progress) <= Round(dt2 as real * progress)
  {
    assert dt1 as real * progress <= dt2 as real * progress;
  }
}
