/** The exact hypervolume indicator (builder_brains/parameter_tuner.py) over integer
    coordinates: the sweeps count the unit cells that some point dominates. */
module Hypervolume {
  datatype Point = Point(x: int, y: int)
  datatype Point3 = Point3(x: int, y: int, z: int)

  /** A unit square or cube, named by its lowest corner. */
  datatype Cell = Cell(i: int, j: int)
  datatype Cube = Cube(base: Cell, k: int)

  // ----- counting cells -----

  function Rect(x0: int, x1: int, y0: int, y1: int): (cells: set<Cell>)
    ensures forall c :: c in cells <==> x0 <= c.i < x1 && y0 <= c.j < y1
  {
    set i, j | x0 <= i < x1 && y0 <= j < y1 :: Cell(i, j)
  }

  lemma {:induction false} ColumnSize(x: int, y0: int, y1: int)
    requires y0 <= y1
    ensures |Rect(x, x + 1, y0, y1)| == y1 - y0
    decreases y1 - y0
  {
    if y0 < y1 {
      ColumnSize(x, y0, y1 - 1);
      assert Rect(x, x + 1, y0, y1) == Rect(x, x + 1, y0, y1 - 1) + {Cell(x, y1 - 1)};
    } else {
      assert Rect(x, x + 1, y0, y1) == {};
    }
  }

  function Product(a: int, b: int): int {
    a * b
  }

  lemma {:induction false} RectSize(x0: int, x1: int, y0: int, y1: int)
    requires x0 <= x1 && y0 <= y1
    ensures |Rect(x0, x1, y0, y1)| == Product(x1 - x0, y1 - y0)
    decreases x1 - x0
  {
    if x0 < x1 {
      RectSize(x0, x1 - 1, y0, y1);
      ColumnSize(x1 - 1, y0, y1);
      assert Rect(x0, x1, y0, y1) == Rect(x0, x1 - 1, y0, y1) + Rect(x1 - 1, x1, y0, y1);
      assert Rect(x0, x1 - 1, y0, y1) !! Rect(x1 - 1, x1, y0, y1);
      OneMore(x1 - x0, y1 - y0);
      hide *;
    } else {
      OneMore(y1 - y0, 0);
      assert Rect(x0, x1, y0, y1) == {};
    }
  }

  lemma OneMore(a: int, b: int)
    ensures Product(a, b) == Product(a - 1, b) + b && Product(b, a) == Product(b, a - 1) + b
    ensures Product(a, 0) == 0 && Product(0, a) == 0
  {
  }

  /** The cells above the reference and below at least one point. */
  function Dominated(points: seq<Point>, r: Point): set<Cell> {
    if points == [] then {}
    else
      var p := points[|points| - 1];
      Dominated(points[..|points| - 1], r) + Rect(r.x, p.x, r.y, p.y)
  }

  /** The number of dominated cells. */
  function Area(points: seq<Point>, r: Point): nat {
    |Dominated(points, r)|
  }

  lemma {:induction false} DominatedIs(points: seq<Point>, r: Point, c: Cell)
    ensures c in Dominated(points, r) <==> exists p :: p in points && r.x <= c.i < p.x && r.y <= c.j < p.y
  {
    if points != [] {
      var k := |points| - 1;
      DominatedIs(points[..k], r, c);
      assert points == points[..k] + [points[k]];
    }
  }

  // ----- the two-dimensional sweep -----

  predicate Before(p: Point, q: Point) {
    p.x > q.x || (p.x == q.x && p.y >= q.y)
  }

  function Insert(points: seq<Point>, p: Point): seq<Point> {
    if points == [] || Before(p, points[0]) then [p] + points else [points[0]] + Insert(points[1..], p)
  }

  /** By descending x, then descending y. */
  function Sorted(points: seq<Point>): seq<Point> {
    if points == [] then [] else Insert(Sorted(points[1..]), points[0])
  }

  predicate Descending(points: seq<Point>) {
    forall i, j :: 0 <= i < j < |points| ==> Before(points[i], points[j])
  }

  lemma {:induction false} InsertKeeps(points: seq<Point>, p: Point)
    ensures forall q: Point :: q in Insert(points, p) <==> q == p || q in points
    ensures Descending(points) ==> Descending(Insert(points, p))
  {
    if points != [] && !Before(p, points[0]) {
      InsertKeeps(points[1..], p);
      var rest := Insert(points[1..], p);
      assert points == [points[0]] + points[1..];
      if Descending(points) {
        forall i | 0 <= i < |rest| ensures Before(points[0], rest[i]) { assert rest[i] in rest; }
      }
    } else if points != [] && Descending(points) {
      forall i | 0 <= i < |points| ensures Before(p, points[i]) { assert Before(points[0], points[i]); }
    }
  }

  lemma {:induction false} SortedKeeps(points: seq<Point>)
    ensures Descending(Sorted(points)) && forall q :: q in Sorted(points) <==> q in points
  {
    if points != [] {
      SortedKeeps(points[1..]);
      InsertKeeps(Sorted(points[1..]), points[0]);
      assert points == [points[0]] + points[1..];
    }
  }

  /** The points strictly above the reference in both coordinates. */
  function Above(points: seq<Point>, r: Point): (kept: seq<Point>)
    ensures forall p :: p in kept <==> p in points && p.x > r.x && p.y > r.y
  {
    if points == [] then []
    else
      var rest, p := Above(points[..|points| - 1], r), points[|points| - 1];
      assert points == points[..|points| - 1] + [p];
      if p.x > r.x && p.y > r.y then rest + [p] else rest
  }

  /** Which points count does not depend on their order, on repetitions, or on those not above the reference. */
  lemma SameDominated(points: seq<Point>, others: seq<Point>, r: Point)
    requires forall p: Point :: p.x > r.x && p.y > r.y ==> (p in points <==> p in others)
    ensures Dominated(points, r) == Dominated(others, r)
  {
    forall c ensures c in Dominated(points, r) <==> c in Dominated(others, r) {
      DominatedIs(points, r, c);
      DominatedIs(others, r, c);
    }
  }

  /** The highest y among the first k points, or the reference's. */
  ghost predicate BestY(points: seq<Point>, k: nat, r: Point, best: int)
    requires k <= |points|
  {
    && best >= r.y && (forall i :: 0 <= i < k ==> points[i].y <= best)
    && (best == r.y || exists i :: 0 <= i < k && points[i].y == best)
  }

  /** Sorted, and all above the reference. */
  ghost predicate Sweepable(points: seq<Point>, r: Point) {
    Descending(points) && forall i :: 0 <= i < |points| ==> points[i].x > r.x && points[i].y > r.y
  }

  /** Below the best y so far everything left of the next point is already counted, and nothing above it is. */
  lemma CountedAlready(points: seq<Point>, k: nat, r: Point, best: int, c: Cell)
    requires Sweepable(points, r) && k < |points| && BestY(points, k, r, best)
    requires r.x <= c.i < points[k].x && r.y <= c.j
    ensures c in Dominated(points[..k], r) <==> c.j < best
  {
    DominatedIs(points[..k], r, c);
    if c.j < best {
      var i :| 0 <= i < k && points[i].y == best;
      assert Before(points[i], points[k]) && points[..k][i] in points[..k];
    }
  }

  lemma Strip(points: seq<Point>, k: nat, r: Point, best: int)
    requires Sweepable(points, r) && k < |points| && BestY(points, k, r, best)
    ensures var old_, strip := Dominated(points[..k], r), Rect(r.x, points[k].x, best, points[k].y);
            Dominated(points[..k + 1], r) == old_ + strip && old_ !! strip
  {
    var p := points[k];
    var old_, strip := Dominated(points[..k], r), Rect(r.x, p.x, best, p.y);
    assert points[..k + 1][..k] == points[..k];
    assert Dominated(points[..k + 1], r) == old_ + Rect(r.x, p.x, r.y, p.y);
    hide Dominated, Sweepable;
    forall c | c in Rect(r.x, p.x, r.y, p.y) ensures c in old_ <==> c !in strip { CountedAlready(points, k, r, best, c); }
    assert strip <= Rect(r.x, p.x, r.y, p.y);
    assert old_ + Rect(r.x, p.x, r.y, p.y) == old_ + strip;
  }

  /** One more point of the sweep adds the strip above the best y so far. */
  lemma SweepStep(points: seq<Point>, k: nat, r: Point, best: int)
    requires Sweepable(points, r) && k < |points| && BestY(points, k, r, best)
    ensures var p := points[k];
            && Area(points[..k + 1], r) == Area(points[..k], r) + (if p.y > best then Product(p.x - r.x, p.y - best) else 0)
            && BestY(points, k + 1, r, if p.y > best then p.y else best)
  {
    var p := points[k];
    hide *;
    NextBest(points, k, r, best);
    AreaGrows(points, k, r, best);
    if p.y > best {
      RowsAbove(points, k, r);
      StripSize(r.x, p.x, best, p.y);
    } else {
      FlatRect(r.x, p.x, best, p.y);
    }
  }

  function StripArea(x0: int, x1: int, y0: int, y1: int): nat {
    |Rect(x0, x1, y0, y1)|
  }

  lemma StripSize(x0: int, x1: int, y0: int, y1: int)
    requires x0 <= x1 && y0 <= y1
    ensures StripArea(x0, x1, y0, y1) == Product(x1 - x0, y1 - y0)
  {
    RectSize(x0, x1, y0, y1);
  }

  lemma AreaGrows(points: seq<Point>, k: nat, r: Point, best: int)
    requires Sweepable(points, r) && k < |points| && BestY(points, k, r, best)
    ensures Area(points[..k + 1], r) == Area(points[..k], r) + StripArea(r.x, points[k].x, best, points[k].y)
  {
    Strip(points, k, r, best);
    hide Dominated, Rect;
  }

  lemma RowsAbove(points: seq<Point>, k: nat, r: Point)
    requires Sweepable(points, r) && k < |points|
    ensures points[k].x > r.x
  {
  }

  lemma FlatRect(x0: int, x1: int, y0: int, y1: int)
    requires y1 <= y0
    ensures StripArea(x0, x1, y0, y1) == 0
  {
  }

  lemma NextBest(points: seq<Point>, k: nat, r: Point, best: int)
    requires k < |points| && BestY(points, k, r, best)
    ensures BestY(points, k + 1, r, if points[k].y > best then points[k].y else best)
  {
  }

  lemma CandidatesSweepable(points: seq<Point>, r: Point)
    ensures Sweepable(Sorted(Above(points, r)), r)
    ensures Dominated(Sorted(Above(points, r)), r) == Dominated(points, r)
    ensures Area(Sorted(Above(points, r)), r) == Area(points, r)
  {
    SortedKeeps(Above(points, r));
    SameDominated(points, Sorted(Above(points, r)), r);
    var candidates := Sorted(Above(points, r));
    forall i | 0 <= i < |candidates| ensures candidates[i].x > r.x && candidates[i].y > r.y { assert candidates[i] in candidates; }
  }

  /** After k candidates the volume counts what they dominate. */
  ghost predicate SweptTo(points: seq<Point>, k: nat, r: Point, volume: int, best: int)
  {
    k <= |points| && volume == Area(points[..k], r) && BestY(points, k, r, best)
  }

  lemma SweepStarts(points: seq<Point>, r: Point)
    ensures var candidates := Sorted(Above(points, r)); Sweepable(candidates, r) && SweptTo(candidates, 0, r, 0, r.y)
  {
    CandidatesSweepable(points, r);
    assert Dominated([], r) == {};
  }

  lemma SweepMoves(points: seq<Point>, k: nat, r: Point, volume: int, best: int)
    requires Sweepable(points, r) && k < |points| && SweptTo(points, k, r, volume, best)
    ensures var p := points[k];
            if p.y > best then SweptTo(points, k + 1, r, volume + Product(p.x - r.x, p.y - best), p.y) else SweptTo(points, k + 1, r, volume, best)
  {
    SweepStep(points, k, r, best);
    hide Area, BestY;
  }

  lemma SweepStops(points: seq<Point>, r: Point, volume: int, best: int)
    requires var candidates := Sorted(Above(points, r)); SweptTo(candidates, |candidates|, r, volume, best)
    ensures volume == Area(points, r)
  {
    CandidatesSweepable(points, r);
    var candidates := Sorted(Above(points, r));
    assert candidates[..|candidates|] == candidates;
  }

  /** The sweep over descending x measures exactly the dominated cells. */
  method Hypervolume2D(points: seq<Point>, r: Point) returns (volume: int)
    ensures volume == Area(points, r)
  {
    hide *;
    var candidates := Sorted(Above(points, r));
    SweepStarts(points, r);
    volume := 0;
    var best := r.y;
    for k := 0 to |candidates|
      invariant SweptTo(candidates, k, r, volume, best)
    {
      SweepMoves(candidates, k, r, volume, best);
      var p := candidates[k];
      if p.y > best {
        volume := volume + Product(p.x - r.x, p.y - best);
        best := p.y;
      }
    }
    SweepStops(points, r, volume, best);
  }

  /** Neither the order nor repetition of points matters, and more points never measure less. */
  lemma Monotone(points: seq<Point>, more: seq<Point>, r: Point)
    requires forall p :: p in points ==> p in more
    ensures Dominated(points, r) <= Dominated(more, r) && Area(points, r) <= Area(more, r)
  {
    forall c | c in Dominated(points, r) ensures c in Dominated(more, r) {
      DominatedIs(points, r, c);
      DominatedIs(more, r, c);
    }
    assert Dominated(more, r) == Dominated(points, r) + (Dominated(more, r) - Dominated(points, r));
  }

  // ----- the slab sweep -----

  /** The cubes over a base, from height k0 up to k1. */
  function Slab(base: set<Cell>, k0: int, k1: int): (cubes: set<Cube>)
    ensures forall c :: c in cubes <==> c.base in base && k0 <= c.k < k1
  {
    set b, k | b in base && k0 <= k < k1 :: Cube(b, k)
  }

  lemma {:induction false} LayerSize(base: set<Cell>, k: int)
    ensures |Slab(base, k, k + 1)| == |base|
    decreases base
  {
    if base == {} {
      assert Slab(base, k, k + 1) == {};
    } else {
      var b :| b in base;
      LayerSize(base - {b}, k);
      assert Slab(base, k, k + 1) == Slab(base - {b}, k, k + 1) + {Cube(b, k)};
    }
  }

  lemma {:induction false} SlabSize(base: set<Cell>, k0: int, k1: int)
    requires k0 <= k1
    ensures |Slab(base, k0, k1)| == Product(|base|, k1 - k0)
    decreases k1 - k0
  {
    if k0 < k1 {
      SlabSize(base, k0, k1 - 1);
      LayerSize(base, k1 - 1);
      assert Slab(base, k0, k1) == Slab(base, k0, k1 - 1) + Slab(base, k1 - 1, k1);
      assert Slab(base, k0, k1 - 1) !! Slab(base, k1 - 1, k1);
      OneMore(k1 - k0, |base|);
      hide *;
    } else {
      OneMore(|base|, 0);
      assert Slab(base, k0, k1) == {};
    }
  }

  function Flat(p: Point3): Point {
    Point(p.x, p.y)
  }

  function Flats(points: seq<Point3>): seq<Point> {
    seq(|points|, k requires 0 <= k < |points| => Flat(points[k]))
  }

  /** The cubes above the reference and below at least one point. */
  function Dominated3(points: seq<Point3>, r: Point3): set<Cube> {
    if points == [] then {}
    else
      var p := points[|points| - 1];
      Dominated3(points[..|points| - 1], r) + Slab(Rect(r.x, p.x, r.y, p.y), r.z, p.z)
  }

  lemma {:induction false} Dominated3Is(points: seq<Point3>, r: Point3, c: Cube)
    ensures c in Dominated3(points, r)
            <==> exists p :: p in points && r.x <= c.base.i < p.x && r.y <= c.base.j < p.y && r.z <= c.k < p.z
  {
    if points != [] {
      var k := |points| - 1;
      Dominated3Is(points[..k], r, c);
      assert points == points[..k] + [points[k]];
    }
  }

  function Insert3(points: seq<Point3>, p: Point3): seq<Point3> {
    if points == [] || p.z >= points[0].z then [p] + points else [points[0]] + Insert3(points[1..], p)
  }

  /** By descending z. */
  function Sorted3(points: seq<Point3>): seq<Point3> {
    if points == [] then [] else Insert3(Sorted3(points[1..]), points[0])
  }

  predicate Falling(points: seq<Point3>) {
    forall i, j :: 0 <= i < j < |points| ==> points[i].z >= points[j].z
  }

  lemma {:induction false} Insert3Keeps(points: seq<Point3>, p: Point3)
    ensures forall q: Point3 :: q in Insert3(points, p) <==> q == p || q in points
    ensures Falling(points) ==> Falling(Insert3(points, p))
  {
    if points != [] && p.z < points[0].z {
      Insert3Keeps(points[1..], p);
      var rest := Insert3(points[1..], p);
      assert points == [points[0]] + points[1..];
      if Falling(points) {
        forall i | 0 <= i < |rest| ensures points[0].z >= rest[i].z { assert rest[i] in rest; }
      }
    }
  }

  lemma {:induction false} Sorted3Keeps(points: seq<Point3>)
    ensures Falling(Sorted3(points)) && forall q :: q in Sorted3(points) <==> q in points
  {
    if points != [] {
      Sorted3Keeps(points[1..]);
      Insert3Keeps(Sorted3(points[1..]), points[0]);
      assert points == [points[0]] + points[1..];
    }
  }

  function Above3(points: seq<Point3>, r: Point3): (kept: seq<Point3>)
    ensures forall p :: p in kept <==> p in points && p.x > r.x && p.y > r.y && p.z > r.z
  {
    if points == [] then []
    else
      var rest, p := Above3(points[..|points| - 1], r), points[|points| - 1];
      assert points == points[..|points| - 1] + [p];
      if p.x > r.x && p.y > r.y && p.z > r.z then rest + [p] else rest
  }

  lemma SameDominated3(points: seq<Point3>, others: seq<Point3>, r: Point3)
    requires forall p: Point3 :: p.x > r.x && p.y > r.y && p.z > r.z ==> (p in points <==> p in others)
    ensures Dominated3(points, r) == Dominated3(others, r)
  {
    forall c ensures c in Dominated3(points, r) <==> c in Dominated3(others, r) {
      Dominated3Is(points, r, c);
      Dominated3Is(others, r, c);
    }
  }

  /** The floor of the slab that the k-th point closes. */
  function Floor(points: seq<Point3>, k: nat, r: Point3): int
    requires k < |points|
  {
    if k + 1 < |points| then points[k + 1].z else r.z
  }

  /** The dominated cubes at or above a height. */
  function From(points: seq<Point3>, r: Point3, z: int): (cubes: set<Cube>)
    ensures forall c :: c in cubes <==> c in Dominated3(points, r) && z <= c.k
  {
    set c | c in Dominated3(points, r) && z <= c.k
  }

  function VolumeFrom(points: seq<Point3>, r: Point3, z: int): nat {
    |From(points, r, z)|
  }

  function Volume(points: seq<Point3>, r: Point3): nat {
    |Dominated3(points, r)|
  }

  lemma FlatsHold(points: seq<Point3>, k: nat, r: Point3, base: Cell)
    requires k < |points|
    ensures base in Dominated(Flats(points[..k + 1]), Flat(r))
            <==> exists i :: 0 <= i <= k && r.x <= base.i < points[i].x && r.y <= base.j < points[i].y
  {
    var flats := Flats(points[..k + 1]);
    DominatedIs(flats, Flat(r), base);
    if p :| p in flats && r.x <= base.i < p.x && r.y <= base.j < p.y {
      var i :| 0 <= i < |flats| && flats[i] == p;
      assert points[i].x == p.x;
    }
    if i :| 0 <= i <= k && r.x <= base.i < points[i].x && r.y <= base.j < points[i].y {
      assert flats[i] in flats;
    }
  }

  lemma SlabCell(points: seq<Point3>, k: nat, r: Point3, c: Cube)
    requires Falling(points) && k < |points| && r.z <= Floor(points, k, r) <= c.k < points[k].z
    ensures c in Dominated3(points, r) <==> c.base in Dominated(Flats(points[..k + 1]), Flat(r))
  {
    Dominated3Is(points, r, c);
    FlatsHold(points, k, r, c.base);
    hide Dominated, Dominated3, Flats;
    if c in Dominated3(points, r) {
      var p :| p in points && r.x <= c.base.i < p.x && r.y <= c.base.j < p.y && r.z <= c.k < p.z;
      var i :| 0 <= i < |points| && points[i] == p;
      Earlier(points, k, r, c.k, i);
    }
    if c.base in Dominated(Flats(points[..k + 1]), Flat(r)) {
      var i :| 0 <= i <= k && r.x <= c.base.i < points[i].x && r.y <= c.base.j < points[i].y;
      assert points[i] in points && points[i].z >= points[k].z;
    }
  }

  lemma Earlier(points: seq<Point3>, k: nat, r: Point3, z: int, i: nat)
    requires Falling(points) && k < |points| && i < |points| && Floor(points, k, r) <= z < points[i].z
    ensures i <= k
  {
  }

  /** In the slab under the k-th point exactly the first k + 1 points dominate. */
  lemma SlabStep(points: seq<Point3>, k: nat, r: Point3)
    requires Falling(points) && k < |points| && r.z <= Floor(points, k, r) <= points[k].z
    ensures VolumeFrom(points, r, Floor(points, k, r)) == VolumeFrom(points, r, points[k].z) + Product(Area(Flats(points[..k + 1]), Flat(r)), points[k].z - Floor(points, k, r))
  {
    var base, z0, z1 := Dominated(Flats(points[..k + 1]), Flat(r)), Floor(points, k, r), points[k].z;
    var low, high, slab := From(points, r, z0), From(points, r, z1), Slab(base, z0, z1);
    hide Dominated, Dominated3, Flats, Falling, Product;
    SlabSize(base, z0, z1);
    forall c: Cube | z0 <= c.k < z1 ensures c in low <==> c in slab { SlabCell(points, k, r, c); }
    assert low == high + slab;
    assert high !! slab;
  }

  lemma TopEmpty(points: seq<Point3>, r: Point3)
    requires Falling(points) && points != []
    ensures VolumeFrom(points, r, points[0].z) == 0 && VolumeFrom(points, r, r.z) == Volume(points, r)
  {
    forall c | c in Dominated3(points, r) ensures r.z <= c.k < points[0].z { Dominated3Is(points, r, c); }
    hide Dominated3;
    assert From(points, r, points[0].z) == {};
    assert From(points, r, r.z) == Dominated3(points, r);
  }

  lemma Candidates3(points: seq<Point3>, r: Point3)
    ensures var candidates := Sorted3(Above3(points, r));
            && Falling(candidates) && Volume(candidates, r) == Volume(points, r)
            && forall k :: 0 <= k < |candidates| ==> candidates[k].z > r.z
  {
    var candidates := Sorted3(Above3(points, r));
    Sorted3Keeps(Above3(points, r));
    SameDominated3(points, candidates, r);
    forall k | 0 <= k < |candidates| ensures candidates[k].z > r.z { assert candidates[k] in candidates; }
  }

  /** The slab sweep over descending z measures exactly the dominated cubes. */
  method Hypervolume3D(points: seq<Point3>, r: Point3) returns (volume: int)
    ensures volume == Volume(points, r)
  {
    var candidates := Sorted3(Above3(points, r));
    Candidates3(points, r);
    hide *;
    volume := 0;
    if candidates == [] {
      NoCubes(r);
      return;
    }
    TopEmpty(candidates, r);
    var slabPoints: seq<Point> := [];
    FlatsMore(candidates, 0);
    for idx := 0 to |candidates|
      invariant slabPoints == Flats(candidates[..idx])
      invariant volume == VolumeFrom(candidates, r, if idx < |candidates| then candidates[idx].z else r.z)
    {
      FlatsMore(candidates, idx);
      slabPoints := slabPoints + [Flat(candidates[idx])];
      FloorBetween(candidates, idx, r);
      SlabStep(candidates, idx, r);
      OneMore(Area(Flats(candidates[..idx + 1]), Flat(r)), 0);
      var slabHeight := candidates[idx].z - Floor(candidates, idx, r);
      if slabHeight > 0 {
        var area := Hypervolume2D(slabPoints, Flat(r));
        volume := volume + Product(area, slabHeight);
      }
    }
  }

  lemma FloorBetween(points: seq<Point3>, k: nat, r: Point3)
    requires Falling(points) && k < |points| && forall i :: 0 <= i < |points| ==> points[i].z > r.z
    ensures r.z <= Floor(points, k, r) <= points[k].z
    ensures Floor(points, k, r) == if k + 1 < |points| then points[k + 1].z else r.z
  {
  }

  lemma NoCubes(r: Point3)
    ensures Volume([], r) == 0
  {
  }

  lemma FlatsMore(points: seq<Point3>, k: nat)
    ensures Flats(points[..0]) == []
    ensures k < |points| ==> Flats(points[..k + 1]) == Flats(points[..k]) + [Flat(points[k])]
  {
  }

  lemma Monotone3(points: seq<Point3>, more: seq<Point3>, r: Point3)
    requires forall p :: p in points ==> p in more
    ensures Dominated3(points, r) <= Dominated3(more, r) && Volume(points, r) <= Volume(more, r)
  {
    forall c | c in Dominated3(points, r) ensures c in Dominated3(more, r) {
      Dominated3Is(points, r, c);
      Dominated3Is(more, r, c);
    }
    assert Dominated3(more, r) == Dominated3(points, r) + (Dominated3(more, r) - Dominated3(points, r));
  }

  // ----- one dimension, and the choice by dimension -----

  function Shortest(points: seq<seq<int>>, n: nat): (d: nat)
    ensures d <= n && (forall p :: p in points ==> d <= |p|)
    ensures d < n ==> exists p :: p in points && d == |p|
  {
    if points == [] then n
    else
      var last := points[|points| - 1];
      assert points == points[..|points| - 1] + [last];
      var d := Shortest(points[..|points| - 1], n);
      if |last| < d then |last| else d
  }

  /** The coordinates that the reference and all points share; none without points. */
  function Dimension(points: seq<seq<int>>, r: seq<int>): nat {
    if points == [] then 0 else Shortest(points, |r|)
  }

  datatype Step = Step(at: int)

  function Run(a: int, b: int): (steps: set<Step>)
    ensures forall s :: s in steps <==> a <= s.at < b
  {
    set i | a <= i < b :: Step(i)
  }

  /** The unit steps above the reference and below at least one point. */
  function Line(points: seq<seq<int>>, r: int): (steps: set<Step>)
    requires forall p :: p in points ==> |p| >= 1
    ensures forall s :: s in steps <==> exists p :: p in points && r <= s.at < p[0]
  {
    if points == [] then {}
    else
      var last := points[|points| - 1];
      assert points == points[..|points| - 1] + [last];
      Line(points[..|points| - 1], r) + Run(r, last[0])
  }

  lemma {:induction false} RunSize(a: int, b: int)
    requires a <= b
    ensures |Run(a, b)| == b - a
    decreases b - a
  {
    if a < b {
      RunSize(a, b - 1);
      assert Run(a, b) == Run(a, b - 1) + {Step(b - 1)};
    } else {
      assert Run(a, b) == {};
    }
  }

  method Hypervolume1D(points: seq<seq<int>>, r: int) returns (volume: int)
    requires points != [] && forall p :: p in points ==> |p| >= 1
    ensures volume == |Line(points, r)|
  {
    assert points[0] in points;
    var best := points[0][0];
    for k := 1 to |points|
      invariant forall j :: 0 <= j < k ==> points[j][0] <= best
      invariant exists j :: 0 <= j < k && points[j][0] == best
    {
      assert points[k] in points;
      if points[k][0] > best { best := points[k][0]; }
    }
    volume := if best - r > 0 then best - r else 0;
    forall s ensures s in Line(points, r) <==> s in Run(r, r + volume) {
      if r <= s.at < best {
        var j :| 0 <= j < |points| && points[j][0] == best;
        assert points[j] in points;
      }
    }
    assert Line(points, r) == Run(r, r + volume);
    RunSize(r, r + volume);
  }

  function Planar(points: seq<seq<int>>): (flat: seq<Point>)
    requires forall p :: p in points ==> |p| >= 2
    ensures |flat| == |points| && forall k :: 0 <= k < |points| ==> flat[k] == Point(points[k][0], points[k][1])
  {
    seq(|points|, k requires 0 <= k < |points| => assert points[k] in points; Point(points[k][0], points[k][1]))
  }

  function Spatial(points: seq<seq<int>>): (solid: seq<Point3>)
    requires forall p :: p in points ==> |p| >= 3
    ensures |solid| == |points| && forall k :: 0 <= k < |points| ==> solid[k] == Point3(points[k][0], points[k][1], points[k][2])
  {
    seq(|points|, k requires 0 <= k < |points| => assert points[k] in points; Point3(points[k][0], points[k][1], points[k][2]))
  }

  /** The cells dominated in the first three of the shared coordinates. */
  function Measured(points: seq<seq<int>>, r: seq<int>): nat {
    var d := Dimension(points, r);
    if d == 0 then 0
    else if d == 1 then |Line(points, r[0])|
    else if d == 2 then Area(Planar(points), Point(r[0], r[1]))
    else Volume(Spatial(points), Point3(r[0], r[1], r[2]))
  }

  // ----- the measure is a count of integer vectors -----

  /** The number of coordinates that the reference and all points share. */
  ghost predicate Shared(points: seq<seq<int>>, r: seq<int>, d: nat) {
    d <= |r| && (forall p :: p in points ==> d <= |p|) && (d == |r| || exists p :: p in points && d == |p|)
  }

  /** From the reference up, below p at every index. */
  predicate Below(r: seq<int>, c: seq<int>, p: seq<int>) {
    |c| <= |r| && |c| <= |p| && forall i :: 0 <= i < |c| ==> r[i] <= c[i] < p[i]
  }

  /** Some point dominates the vector. */
  ghost predicate Met(points: seq<seq<int>>, r: seq<int>, c: seq<int>) {
    exists p :: p in points && Below(r, c, p)
  }

  ghost predicate Counts(points: seq<seq<int>>, r: seq<int>, n: nat, s: set<seq<int>>) {
    forall c :: c in s <==> |c| == n && Met(points, r, c)
  }

  function OnLine(c: Step): seq<int> {
    [c.at]
  }

  function OnPlane(c: Cell): seq<int> {
    [c.i, c.j]
  }

  function InSpace(c: Cube): seq<int> {
    [c.base.i, c.base.j, c.k]
  }

  /** What is measured: the vectors of at most three shared coordinates that some point dominates. */
  ghost predicate MeasuredBy(points: seq<seq<int>>, r: seq<int>, d: nat, s: set<seq<int>>, volume: int) {
    Shared(points, r, d) && Counts(points, r, if d < 3 then d else 3, s) && volume == if d == 0 then 0 else |s|
  }

  lemma {:induction false} SameSize<A, B>(s: set<A>, t: set<B>, f: A -> B)
    requires (forall a, b :: a in s && b in s && f(a) == f(b) ==> a == b) && t == set a | a in s :: f(a)
    ensures |t| == |s|
    decreases s
  {
    if a :| a in s {
      var less := s - {a};
      forall b | b in less ensures f(b) != f(a) {}
      assert t - {f(a)} == set b | b in less :: f(b);
      SameSize(less, t - {f(a)}, f);
    }
  }

  /** Distinct cells that are, as vectors, exactly the dominated ones count them. */
  lemma CountedAs<A>(points: seq<seq<int>>, r: seq<int>, n: nat, cells: set<A>, f: A -> seq<int>) returns (s: set<seq<int>>)
    requires forall a, b :: a in cells && b in cells && f(a) == f(b) ==> a == b
    requires forall a :: a in cells ==> |f(a)| == n && Met(points, r, f(a))
    requires forall c: seq<int> :: |c| == n && Met(points, r, c) ==> exists a :: a in cells && f(a) == c
    ensures Counts(points, r, n, s) && |s| == |cells|
  {
    hide Met;
    s := set a | a in cells :: f(a);
    SameSize(cells, s, f);
  }

  lemma CountLine(points: seq<seq<int>>, r: seq<int>) returns (s: set<seq<int>>)
    requires |r| >= 1 && forall p :: p in points ==> |p| >= 1
    ensures Counts(points, r, 1, s) && |s| == |Line(points, r[0])|
  {
    hide Met, Line;
    forall a, b: Step | OnLine(a) == OnLine(b) ensures a == b { assert OnLine(a)[0] == OnLine(b)[0]; }
    forall c: Step | c in Line(points, r[0]) ensures Met(points, r, OnLine(c)) { LineAt(points, r, OnLine(c)); }
    forall c: seq<int> | |c| == 1 && Met(points, r, c) ensures exists a :: a in Line(points, r[0]) && OnLine(a) == c {
      LineAt(points, r, c);
      assert OnLine(Step(c[0])) == c;
    }
    s := CountedAs(points, r, 1, Line(points, r[0]), OnLine);
  }

  lemma LineAt(points: seq<seq<int>>, r: seq<int>, c: seq<int>)
    requires |r| >= 1 && (forall p :: p in points ==> |p| >= 1) && |c| == 1
    ensures Step(c[0]) in Line(points, r[0]) <==> Met(points, r, c)
  {
    if p :| p in points && r[0] <= c[0] < p[0] { assert Below(r, c, p); }
  }

  lemma CountArea(points: seq<seq<int>>, r: seq<int>) returns (s: set<seq<int>>)
    requires |r| >= 2 && forall p :: p in points ==> |p| >= 2
    ensures Counts(points, r, 2, s) && |s| == Area(Planar(points), Point(r[0], r[1]))
  {
    hide Met, Dominated, Planar;
    var cells := Dominated(Planar(points), Point(r[0], r[1]));
    forall a, b: Cell | OnPlane(a) == OnPlane(b) ensures a == b { assert OnPlane(a)[0] == OnPlane(b)[0] && OnPlane(a)[1] == OnPlane(b)[1]; }
    forall c: Cell | c in cells ensures Met(points, r, OnPlane(c)) { AreaAt(points, r, OnPlane(c)); }
    forall c: seq<int> | |c| == 2 && Met(points, r, c) ensures exists a :: a in cells && OnPlane(a) == c {
      AreaAt(points, r, c);
      assert OnPlane(Cell(c[0], c[1])) == c;
    }
    s := CountedAs(points, r, 2, cells, OnPlane);
  }

  lemma AreaAt(points: seq<seq<int>>, r: seq<int>, c: seq<int>)
    requires |r| >= 2 && (forall p :: p in points ==> |p| >= 2) && |c| == 2
    ensures Cell(c[0], c[1]) in Dominated(Planar(points), Point(r[0], r[1])) <==> Met(points, r, c)
  {
    hide Dominated;
    var flat, o := Planar(points), Point(r[0], r[1]);
    DominatedIs(flat, o, Cell(c[0], c[1]));
    if p :| p in points && Below(r, c, p) {
      var k :| 0 <= k < |points| && points[k] == p;
      assert flat[k] in flat;
    }
    if q :| q in flat && o.x <= c[0] < q.x && o.y <= c[1] < q.y {
      var k :| 0 <= k < |flat| && flat[k] == q;
      assert points[k] in points && Below(r, c, points[k]);
    }
  }

  lemma CountVolume(points: seq<seq<int>>, r: seq<int>) returns (s: set<seq<int>>)
    requires |r| >= 3 && forall p :: p in points ==> |p| >= 3
    ensures Counts(points, r, 3, s) && |s| == Volume(Spatial(points), Point3(r[0], r[1], r[2]))
  {
    hide Met, Dominated3, Spatial;
    var cubes := Dominated3(Spatial(points), Point3(r[0], r[1], r[2]));
    forall a, b: Cube | InSpace(a) == InSpace(b) ensures a == b {
      assert InSpace(a)[0] == InSpace(b)[0] && InSpace(a)[1] == InSpace(b)[1] && InSpace(a)[2] == InSpace(b)[2];
    }
    forall c: Cube | c in cubes ensures Met(points, r, InSpace(c)) { VolumeAt(points, r, InSpace(c)); }
    forall c: seq<int> | |c| == 3 && Met(points, r, c) ensures exists a :: a in cubes && InSpace(a) == c {
      VolumeAt(points, r, c);
      assert InSpace(Cube(Cell(c[0], c[1]), c[2])) == c;
    }
    s := CountedAs(points, r, 3, cubes, InSpace);
  }

  lemma VolumeAt(points: seq<seq<int>>, r: seq<int>, c: seq<int>)
    requires |r| >= 3 && (forall p :: p in points ==> |p| >= 3) && |c| == 3
    ensures Cube(Cell(c[0], c[1]), c[2]) in Dominated3(Spatial(points), Point3(r[0], r[1], r[2])) <==> Met(points, r, c)
  {
    hide Dominated3;
    var solid, o := Spatial(points), Point3(r[0], r[1], r[2]);
    Dominated3Is(solid, o, Cube(Cell(c[0], c[1]), c[2]));
    if p :| p in points && Below(r, c, p) {
      var k :| 0 <= k < |points| && points[k] == p;
      assert solid[k] in solid;
    }
    if q :| q in solid && o.x <= c[0] < q.x && o.y <= c[1] < q.y && o.z <= c[2] < q.z {
      var k :| 0 <= k < |solid| && solid[k] == q;
      assert points[k] in points && Below(r, c, points[k]);
    }
  }

  /** The measure is the number of dominated vectors over the first three of the shared coordinates. */
  lemma MeasuredCounts(points: seq<seq<int>>, r: seq<int>) returns (d: nat, s: set<seq<int>>)
    requires points != []
    ensures MeasuredBy(points, r, d, s, Measured(points, r))
  {
    hide Area, Volume, Line;
    d := Dimension(points, r);
    if d == 0 {
      s := {[]};
      NoCoordinates(points, r);
    } else if d == 1 {
      s := CountLine(points, r);
    } else if d == 2 {
      s := CountArea(points, r);
    } else {
      s := CountVolume(points, r);
    }
  }

  lemma NoCoordinates(points: seq<seq<int>>, r: seq<int>)
    requires points != []
    ensures Counts(points, r, 0, {[]})
  {
    assert points[0] in points && Below(r, [], points[0]);
  }

  /** And only that number fits. */
  lemma OneMeasure(points: seq<seq<int>>, r: seq<int>, d: nat, s: set<seq<int>>, v: int, e: nat, t: set<seq<int>>, w: int)
    requires MeasuredBy(points, r, d, s, v) && MeasuredBy(points, r, e, t, w)
    ensures d == e && s == t && v == w
  {
  }

  /** hypervolume: any points and reference, of whatever lengths. */
  method Hypervolume(points: seq<seq<int>>, r: seq<int>) returns (volume: int)
    ensures points == [] ==> volume == 0
    ensures points != [] ==> exists d, s :: MeasuredBy(points, r, d, s, volume)
    ensures volume == Measured(points, r)
  {
    hide Area, Volume, Line;
    if points != [] { ghost var counted, s := MeasuredCounts(points, r); }
    var d := Dimension(points, r);
    if d == 0 { return 0; }
    if d == 1 {
      volume := Hypervolume1D(points, r[0]);
    } else if d == 2 {
      volume := Hypervolume2D(Planar(points), Point(r[0], r[1]));
    } else {
      volume := Hypervolume3D(Spatial(points), Point3(r[0], r[1], r[2]));
    }
  }

  lemma {:induction false} ShortestMore(points: seq<seq<int>>, more: seq<seq<int>>, n: nat)
    requires forall p :: p in more ==> |p| >= Shortest(points, n)
    ensures Shortest(points + more, n) == Shortest(points, n)
  {
    assert forall p :: p in points ==> p in points + more;
    assert forall p :: p in points + more ==> |p| >= Shortest(points, n);
  }

  lemma Within(s: set<Step>, t: set<Step>)
    requires s <= t
    ensures |s| <= |t|
  {
    assert t == s + (t - s);
  }

  /** More points of no fewer coordinates never lower the measure. */
  lemma NeverLower(points: seq<seq<int>>, more: seq<seq<int>>, r: seq<int>)
    requires forall p :: p in more ==> |p| >= Dimension(points, r)
    ensures Measured(points, r) <= Measured(points + more, r)
  {
    hide Area, Volume, Shortest, Dominated, Dominated3;
    if points == [] { return; }
    ShortestMore(points, more, |r|);
    var d := Dimension(points, r);
    if d == 1 {
      Within(Line(points, r[0]), Line(points + more, r[0]));
    } else if d == 2 {
      forall p | p in Planar(points) ensures p in Planar(points + more) {
        var k :| 0 <= k < |points| && Planar(points)[k] == p;
        assert Planar(points + more)[k] == p;
      }
      Monotone(Planar(points), Planar(points + more), Point(r[0], r[1]));
    } else if d > 2 {
      forall p | p in Spatial(points) ensures p in Spatial(points + more) {
        var k :| 0 <= k < |points| && Spatial(points)[k] == p;
        assert Spatial(points + more)[k] == p;
      }
      Monotone3(Spatial(points), Spatial(points + more), Point3(r[0], r[1], r[2]));
    }
  }
}
