/**
 * The camera and ground placement computed from the point coordinates before the scene
 * is touched: the PAGA and Seurat bounding-box formulas, `getZMax`, `getMedian` and the
 * STREAM camera of `setInitialCameraPosition`.
 */
module Layout {
  import opened Wrappers
  import opened Records

  /** The lowest height of the ground plane. */
  const GroundFloor: real := -12.0
  /** The factor applied to PAGA node coordinates for the camera. */
  const PagaNodeScale: real := 0.04
  /** The factor applied to Seurat scatter coordinates. */
  const SeuratScale: real := 0.5
  /** The factor applied to STREAM coordinates. */
  const StreamScale: real := 100.0
  /** The factor from the camera rig to the minimap player. */
  const MinimapScale: real := 0.01

  function Min(a: real, b: real): real { if a <= b then a else b }

  function Abs(a: real): real { if a < 0.0 then -a else a }

  /** `Math.min(...s)`: the least element. */
  function SeqMin(s: seq<real>): (m: real)
    requires |s| > 0
    ensures m in s
    ensures forall k :: 0 <= k < |s| ==> m <= s[k]
  {
    if |s| == 1 then s[0]
    else
      var m := SeqMin(s[1..]);
      if s[0] <= m then s[0] else m
  }

  /** `Math.max(...s)`: the greatest element. */
  function SeqMax(s: seq<real>): (m: real)
    requires |s| > 0
    ensures m in s
    ensures forall k :: 0 <= k < |s| ==> s[k] <= m
  {
    if |s| == 1 then s[0]
    else
      var m := SeqMax(s[1..]);
      if s[0] >= m then s[0] else m
  }

  datatype Vec3 = Vec3(x: real, y: real, z: real)

  /** The ground plane height and the camera-rig position. */
  datatype Placement = Placement(groundY: real, camera: Vec3)

  /** The scaled x coordinates. */
  function ScaledX(points: seq<Point>, scale: real): seq<real>
  {
    seq(|points|, i requires 0 <= i < |points| => points[i].x * scale)
  }

  /** The scaled y coordinates. */
  function ScaledY(points: seq<Point>, scale: real): seq<real>
  {
    seq(|points|, i requires 0 <= i < |points| => points[i].y * scale)
  }

  /**
   * The bounding-box placement shared by `setInitialCameraAndGroundPositionPaga` and
   * `setInitialCameraAndGroundPositionSeurat`: the ground at `min(yMin, -12)` and the
   * camera at `(xMidpoint, yMidpoint, xRange + 1)`, all over the scaled coordinates.
   * Without points the source's bounds are infinite; the result is then None.
   */
  function BoxPlacement(points: seq<Point>, scale: real): (r: Option<Placement>)
    ensures r.None? <==> points == []
    ensures r.Some? ==>
      var ys := ScaledY(points, scale);
      && r.value.groundY <= GroundFloor
      && (forall i :: 0 <= i < |ys| ==> r.value.groundY <= ys[i])
      && (r.value.groundY == GroundFloor || r.value.groundY in ys)
  {
    if points == [] then None
    else
      var xs, ys := ScaledX(points, scale), ScaledY(points, scale);
      var xMax, xMin := SeqMax(xs), SeqMin(xs);
      var yMax, yMin := SeqMax(ys), SeqMin(ys);
      var xRange := xMax - xMin;
      var xMidpoint := (xMax + xMin) / 2.0;
      var yMidpoint := (yMax + yMin) / 2.0;
      Some(Placement(Min(yMin, GroundFloor), Vec3(xMidpoint, yMidpoint, xRange + 1.0)))
  }

  /**
   * The camera looks at the middle of the box: its x and y are the midpoints between the
   * least and greatest scaled coordinate, and it stands back by the x extent plus one.
   */
  lemma BoxCamera(points: seq<Point>, scale: real)
    requires points != []
    ensures var xs, ys := ScaledX(points, scale), ScaledY(points, scale);
      var c := BoxPlacement(points, scale).value.camera;
      && c.x == (SeqMin(xs) + SeqMax(xs)) / 2.0
      && c.y == (SeqMin(ys) + SeqMax(ys)) / 2.0
      && SeqMin(xs) <= c.x <= SeqMax(xs)
      && SeqMin(ys) <= c.y <= SeqMax(ys)
      && c.z == SeqMax(xs) - SeqMin(xs) + 1.0
      && c.z >= 1.0
  {
    var xs := ScaledX(points, scale);
    assert xs[0] in xs;
  }

  /**
   * `setInitialCameraAndGroundPositionPaga`: over the node positions at scale 0.04. The
   * ground is at most -12, below every node's scaled height, and either -12 or one of them.
   */
  function PagaPlacement(nodes: seq<PagaNode>): (r: Option<Placement>)
    ensures r.None? <==> nodes == []
    ensures r.Some? ==>
      && r.value.groundY <= GroundFloor
      && (forall i :: 0 <= i < |nodes| ==> r.value.groundY <= nodes[i].xyz.y * 0.04)
      && (r.value.groundY == GroundFloor || exists i :: 0 <= i < |nodes| && r.value.groundY == nodes[i].xyz.y * 0.04)
  {
    var points := seq(|nodes|, i requires 0 <= i < |nodes| => nodes[i].xyz);
    assert forall i :: 0 <= i < |nodes| ==> ScaledY(points, PagaNodeScale)[i] == nodes[i].xyz.y * 0.04;
    BoxPlacement(points, PagaNodeScale)
  }

  /**
   * `setInitialCameraAndGroundPositionSeurat`: over the scatter cells at scale 0.5. The
   * ground is at most -12, below every cell's scaled height, and either -12 or one of them.
   */
  function SeuratPlacement(scatter: seq<Point>): (r: Option<Placement>)
    ensures r.None? <==> scatter == []
    ensures r.Some? ==>
      && r.value.groundY <= GroundFloor
      && (forall i :: 0 <= i < |scatter| ==> r.value.groundY <= scatter[i].y * 0.5)
      && (r.value.groundY == GroundFloor || exists i :: 0 <= i < |scatter| && r.value.groundY == scatter[i].y * 0.5)
  {
    assert forall i :: 0 <= i < |scatter| ==> ScaledY(scatter, SeuratScale)[i] == scatter[i].y * 0.5;
    BoxPlacement(scatter, SeuratScale)
  }

  /** Scatter cells with y values `[-5, -3, 0, 2]` all lie above -12: the ground is clamped to -12. */
  lemma GroundClampExample(scatter: seq<Point>)
    requires |scatter| == 4
    requires scatter[0].y == -5.0 && scatter[1].y == -3.0 && scatter[2].y == 0.0 && scatter[3].y == 2.0
    ensures SeuratPlacement(scatter).Some? && SeuratPlacement(scatter).value.groundY == GroundFloor
  {
    var ys := ScaledY(scatter, SeuratScale);
    assert forall k :: 0 <= k < 4 ==> ys[k] > GroundFloor;
  }

  // ---------------------------- getZMax ---------------------------------

  /** The coordinates of all curves, curve after curve (`curves.flatMap(c => c.xyz)`). */
  function AllCoords(curves: seq<Curve>): seq<Coord>
  {
    if curves == [] then [] else AllCoords(curves[..|curves| - 1]) + curves[|curves| - 1].xyz
  }

  /** One step of the `getZMax` loop; None stands for `Number.NEGATIVE_INFINITY`. */
  function MaxStep(maxZ: Option<real>, coord: Coord): Option<real>
  {
    if coord.z.Some? && (maxZ.None? || Abs(coord.z.value) > maxZ.value) then Some(Abs(coord.z.value)) else maxZ
  }

  /** The running maximum of `|z|` over the coordinates whose z is defined. */
  function MaxAbsZ(coords: seq<Coord>): Option<real>
  {
    if coords == [] then None else MaxStep(MaxAbsZ(coords[..|coords| - 1]), coords[|coords| - 1])
  }

  /** `getZMax(curves)`: 100 times the largest `|z|`; None for the source's negative infinity. */
  function ZMax(curves: seq<Curve>): Option<real>
  {
    match MaxAbsZ(AllCoords(curves))
    case None => None
    case Some(m) => Some(m * StreamScale)
  }

  lemma AllCoordsStep(curves: seq<Curve>, i: nat)
    requires i < |curves|
    ensures AllCoords(curves[..i + 1]) == AllCoords(curves[..i]) + curves[i].xyz
  {
    assert curves[..i + 1][..i] == curves[..i];
  }

  lemma MaxAbsZStep(coords: seq<Coord>, c: Coord)
    ensures MaxAbsZ(coords + [c]) == MaxStep(MaxAbsZ(coords), c)
  {
    assert (coords + [c])[..|coords|] == coords;
  }

  /** The nested loops of `getZMax` (index.js lines 401-411). */
  method GetZMax(curves: seq<Curve>) returns (zMax: Option<real>)
    ensures zMax == ZMax(curves)
  {
    var maxZ: Option<real> := None;
    var i := 0;
    while i < |curves|
      invariant 0 <= i <= |curves|
      invariant maxZ == MaxAbsZ(AllCoords(curves[..i]))
    {
      var prefix := AllCoords(curves[..i]);
      var xyz := curves[i].xyz;
      var j := 0;
      assert prefix + xyz[..0] == prefix;
      while j < |xyz|
        invariant 0 <= j <= |xyz|
        invariant maxZ == MaxAbsZ(prefix + xyz[..j])
      {
        var coord := xyz[j];
        if coord.z.Some? && (maxZ.None? || Abs(coord.z.value) > maxZ.value) {
          maxZ := Some(Abs(coord.z.value));
        }
        assert prefix + xyz[..j + 1] == (prefix + xyz[..j]) + [coord];
        MaxAbsZStep(prefix + xyz[..j], coord);
        j := j + 1;
      }
      assert xyz[..j] == xyz;
      AllCoordsStep(curves, i);
      i := i + 1;
    }
    assert curves[..i] == curves;
    zMax := if maxZ.Some? then Some(maxZ.value * 100.0) else None;
  }

  /**
   * The running maximum is the maximum: it is None exactly when no z is defined, and
   * otherwise the `|z|` of some coordinate and at least the `|z|` of every coordinate.
   */
  lemma {:induction false} MaxAbsZIsMaximum(coords: seq<Coord>)
    ensures MaxAbsZ(coords).None? <==> forall k :: 0 <= k < |coords| ==> coords[k].z.None?
    ensures MaxAbsZ(coords).Some? ==>
      (exists k :: 0 <= k < |coords| && coords[k].z.Some? && MaxAbsZ(coords).value == Abs(coords[k].z.value)) &&
      (forall k :: 0 <= k < |coords| && coords[k].z.Some? ==> Abs(coords[k].z.value) <= MaxAbsZ(coords).value)
  {
    if coords != [] {
      var p := coords[..|coords| - 1];
      MaxAbsZIsMaximum(p);
      assert forall k :: 0 <= k < |p| ==> p[k] == coords[k];
      var m := MaxAbsZ(p);
      var last := coords[|coords| - 1];
      if MaxAbsZ(coords).Some? {
        if MaxAbsZ(coords) == m {
          var k :| 0 <= k < |p| && p[k].z.Some? && m.value == Abs(p[k].z.value);
          assert coords[k] == p[k];
        } else {
          assert MaxAbsZ(coords).value == Abs(coords[|coords| - 1].z.value);
        }
      }
    }
  }

  /** `getZMax`: 100 times the largest `|z|` over all curves, None when no z is defined. */
  lemma ZMaxIsHundredTimesLargestAbsZ(curves: seq<Curve>)
    ensures var coords := AllCoords(curves);
      (ZMax(curves).None? <==> forall k :: 0 <= k < |coords| ==> coords[k].z.None?) &&
      (ZMax(curves).Some? ==>
        (exists k :: 0 <= k < |coords| && coords[k].z.Some? && ZMax(curves).value == 100.0 * Abs(coords[k].z.value)) &&
        (forall k :: 0 <= k < |coords| && coords[k].z.Some? ==> 100.0 * Abs(coords[k].z.value) <= ZMax(curves).value))
  {
    MaxAbsZIsMaximum(AllCoords(curves));
  }

  // ---------------------------- getMedian -------------------------------

  /** Inserts x into an ascending sequence before the first element not below it. */
  function Insert(x: real, s: seq<real>): seq<real>
  {
    if s == [] || x <= s[0] then [x] + s else [s[0]] + Insert(x, s[1..])
  }

  /** A numeric ascending sort (insertion sort). */
  function Sort(s: seq<real>): seq<real>
  {
    if s == [] then [] else Insert(s[0], Sort(s[1..]))
  }

  predicate Ascending(s: seq<real>)
  {
    forall i, j :: 0 <= i < j < |s| ==> s[i] <= s[j]
  }

  /** How many elements are below r. */
  function CountBelow(s: seq<real>, r: real): nat
  {
    if s == [] then 0 else (if s[0] < r then 1 else 0) + CountBelow(s[1..], r)
  }

  /** How many elements are above r. */
  function CountAbove(s: seq<real>, r: real): nat
  {
    if s == [] then 0 else (if s[0] > r then 1 else 0) + CountAbove(s[1..], r)
  }

  lemma {:induction false} InsertMultiset(x: real, s: seq<real>)
    ensures multiset(Insert(x, s)) == multiset(s) + multiset{x}
  {
    if s != [] && x > s[0] {
      InsertMultiset(x, s[1..]);
      assert s == [s[0]] + s[1..];
    }
  }

  lemma {:induction false} InsertAscending(x: real, s: seq<real>)
    requires Ascending(s)
    ensures Ascending(Insert(x, s))
  {
    if s != [] && x > s[0] {
      var t := s[1..];
      InsertAscending(x, t);
      InsertMultiset(x, t);
      var it := Insert(x, t);
      forall k | 0 <= k < |it| ensures s[0] <= it[k] {
        assert it[k] in multiset(it);
      }
    }
  }

  lemma {:induction false} InsertCounts(x: real, s: seq<real>, r: real)
    ensures CountBelow(Insert(x, s), r) == CountBelow(s, r) + (if x < r then 1 else 0)
    ensures CountAbove(Insert(x, s), r) == CountAbove(s, r) + (if x > r then 1 else 0)
  {
    if s != [] && x > s[0] {
      InsertCounts(x, s[1..], r);
      assert ([s[0]] + Insert(x, s[1..]))[1..] == Insert(x, s[1..]);
    } else {
      assert ([x] + s)[1..] == s;
    }
  }

  /** Sort returns an ascending permutation of its input. */
  lemma {:induction false} SortPermutes(s: seq<real>)
    ensures Ascending(Sort(s))
    ensures multiset(Sort(s)) == multiset(s) && |Sort(s)| == |s|
  {
    if s != [] {
      SortPermutes(s[1..]);
      InsertAscending(s[0], Sort(s[1..]));
      InsertMultiset(s[0], Sort(s[1..]));
      assert s == [s[0]] + s[1..];
    }
  }

  /** Sorting keeps how many elements lie below and above any bound. */
  lemma {:induction false} SortCounts(s: seq<real>, r: real)
    ensures CountBelow(Sort(s), r) == CountBelow(s, r)
    ensures CountAbove(Sort(s), r) == CountAbove(s, r)
  {
    if s != [] {
      SortCounts(s[1..], r);
      InsertCounts(s[0], Sort(s[1..]), r);
    }
  }

  /** In an ascending sequence at most k elements lie below the element at k. */
  lemma {:induction false} AscendingCountBelow(t: seq<real>, k: nat)
    requires Ascending(t) && k < |t|
    ensures CountBelow(t, t[k]) <= k
  {
    if k == 0 {
      NoneBelow(t, t[0]);
    } else {
      assert Ascending(t[1..]);
      AscendingCountBelow(t[1..], k - 1);
    }
  }

  lemma {:induction false} NoneBelow(t: seq<real>, r: real)
    requires forall k :: 0 <= k < |t| ==> r <= t[k]
    ensures CountBelow(t, r) == 0
  {
    if t != [] {
      NoneBelow(t[1..], r);
    }
  }

  /** In an ascending sequence at most |t| - 1 - k elements lie above the element at k. */
  lemma {:induction false} AscendingCountAbove(t: seq<real>, k: nat)
    requires Ascending(t) && k < |t|
    ensures CountAbove(t, t[k]) <= |t| - 1 - k
  {
    if k == 0 {
      CountAboveAtMostLength(t[1..], t[0]);
    } else {
      assert Ascending(t[1..]);
      AscendingCountAbove(t[1..], k - 1);
    }
  }

  lemma {:induction false} CountAboveAtMostLength(t: seq<real>, r: real)
    ensures CountAbove(t, r) <= |t|
  {
    if t != [] {
      CountAboveAtMostLength(t[1..], r);
    }
  }

  /**
   * `getMedian(values)`: the element at index `floor(n/2)` of a sorted copy; None for an
   * empty input (the source then reads `undefined`). It is an element of the input with
   * at most `floor(n/2)` elements below it and at most `n - 1 - floor(n/2)` above it.
   */
  function Median(values: seq<real>): (r: Option<real>)
    ensures r.None? <==> values == []
    ensures r.Some? ==> r.value in values
    ensures r.Some? ==> CountBelow(values, r.value) <= |values| / 2
    ensures r.Some? ==> CountAbove(values, r.value) <= |values| - 1 - |values| / 2
  {
    if values == [] then None
    else
      var sorted := Sort(values);
      SortPermutes(values);
      SortCounts(values, sorted[|values| / 2]);
      assert sorted[|values| / 2] in multiset(sorted);
      AscendingCountBelow(sorted, |values| / 2);
      AscendingCountAbove(sorted, |values| / 2);
      Some(sorted[|values| / 2])
  }

  // ------------------------ setInitialCameraPosition ---------------------

  /** The STREAM ground height, camera-rig position and minimap-player position. */
  datatype StreamPlacement = StreamPlacement(groundY: real, camera: Vec3, minimap: Vec3)

  /** The y coordinates of all curve points, unscaled. */
  function CoordYs(coords: seq<Coord>): seq<real>
  {
    seq(|coords|, i requires 0 <= i < |coords| => coords[i].y)
  }

  /** The x coordinates of all curve points, unscaled. */
  function CoordXs(coords: seq<Coord>): seq<real>
  {
    seq(|coords|, i requires 0 <= i < |coords| => coords[i].x)
  }

  /**
   * `setInitialCameraPosition(curves)`: the camera at the medians of x and y times 100 and
   * at `zMax + 1.2`, the minimap player at one hundredth of that, the ground at
   * `min(yMin, -12)` over the unscaled y values. None when a coordinate the source would
   * compute is not finite (no curve point, or no point with a z).
   */
  function StreamCameraPlacement(curves: seq<Curve>): (r: Option<StreamPlacement>)
    ensures r.Some? <==> AllCoords(curves) != [] && ZMax(curves).Some?
    ensures r.Some? ==>
      var coords := AllCoords(curves);
      && r.value.groundY <= GroundFloor
      && (forall k :: 0 <= k < |coords| ==> r.value.groundY <= coords[k].y)
      && (r.value.groundY == GroundFloor || exists k :: 0 <= k < |coords| && r.value.groundY == coords[k].y)
      && r.value.camera.z == ZMax(curves).value + 1.2
      && (exists k :: 0 <= k < |coords| && r.value.camera.x == coords[k].x * StreamScale)
      && (exists k :: 0 <= k < |coords| && r.value.camera.y == coords[k].y * StreamScale)
      && r.value.minimap == Vec3(r.value.camera.x * MinimapScale, r.value.camera.y * MinimapScale, r.value.camera.z * MinimapScale)
  {
    var coords := AllCoords(curves);
    var ys, xs := CoordYs(coords), CoordXs(coords);
    var zMax := ZMax(curves);
    if coords == [] || zMax.None? then None
    else
      var yMedian := Median(ys).value * StreamScale;
      var xMedian := Median(xs).value * StreamScale;
      var groundY := Min(SeqMin(ys), GroundFloor);
      assert forall k :: 0 <= k < |coords| ==> ys[k] == coords[k].y;
      assert forall k :: 0 <= k < |coords| ==> xs[k] == coords[k].x;
      var camera := Vec3(xMedian, yMedian, zMax.value + 1.2);
      Some(StreamPlacement(groundY, camera,
                           Vec3(xMedian * MinimapScale, yMedian * MinimapScale, (zMax.value + 1.2) * MinimapScale)))
  }

  /**
   * The STREAM camera looks at the median point: dividing its x and y by the scale 100
   * gives a median of the x and of the y coordinates.
   */
  lemma StreamCameraAtMedians(curves: seq<Curve>)
    requires AllCoords(curves) != [] && ZMax(curves).Some?
    ensures var r := StreamCameraPlacement(curves).value;
      var xs, ys := CoordXs(AllCoords(curves)), CoordYs(AllCoords(curves));
      var mx, my := r.camera.x / StreamScale, r.camera.y / StreamScale;
      && mx in xs && CountBelow(xs, mx) <= |xs| / 2 && CountAbove(xs, mx) <= |xs| - 1 - |xs| / 2
      && my in ys && CountBelow(ys, my) <= |ys| / 2 && CountAbove(ys, my) <= |ys| - 1 - |ys| / 2
  {
    var xs, ys := CoordXs(AllCoords(curves)), CoordYs(AllCoords(curves));
    var r := StreamCameraPlacement(curves).value;
    var mx, my := Median(xs).value, Median(ys).value;
    assert r.camera.x == mx * StreamScale && r.camera.y == my * StreamScale;
    assert r.camera.x / StreamScale == mx;
    assert r.camera.y / StreamScale == my;
  }
}
