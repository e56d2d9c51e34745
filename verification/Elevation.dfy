/** Void-aware bilinear interpolation on HGT grids, in exact real arithmetic. */
module Elevation {
  import opened Prelude
  import opened HgtNames

  const VOID_ELEVATION := -32768

  function Times(a: real, b: real): real {
    a * b
  }

  function Square(n: nat): nat {
    n * n
  }

  datatype Point = Point(longitude: real, latitude: real)

  datatype HgtTile = HgtTile(name: string, size: nat, south: int, west: int, data: seq<Byte>) {
    ghost predicate Valid() {
      size >= 2 && |data| == 2 * Square(size)
    }

    function Max(): int {
      size - 1
    }

    predicate Contains(p: Point) {
      south as real <= p.latitude <= (south + 1) as real && west as real <= p.longitude <= (west + 1) as real
    }
  }

  // ----- Reading a tile -----

  /** The side of a square grid of two-byte samples, if the buffer is one of side two or more. */
  function SideFrom(bytes: nat, side: nat): Option<nat>
    requires 2 <= side
    decreases bytes - side
  {
    SquareIsLarger(side);
    if bytes < 2 * Square(side) then None
    else if bytes == 2 * Square(side) then Some(side)
    else SideFrom(bytes, side + 1)
  }

  lemma SquareIsLarger(n: nat)
    ensures n <= Square(n)
  {
  }

  lemma SquareOrder(a: nat, b: nat)
    requires a <= b
    ensures Square(a) <= Square(b)
  {
    assert b * b == a * a + (b - a) * (a + b);
  }

  function FromBuffer(name: string, data: seq<Byte>): Result<HgtTile, string> {
    match SideFrom(|data|, 2)
    case None => Err("Invalid HGT tile size")
    case Some(size) =>
      match ParseHgtTileName(name)
      case Err(e) => Err(e)
      case Ok(b) => Ok(HgtTile(name, size, b.south, b.west, data))
  }

  lemma {:induction false} SideIsSound(bytes: nat, side: nat)
    requires 2 <= side && SideFrom(bytes, side).Some?
    ensures side <= SideFrom(bytes, side).value && bytes == 2 * Square(SideFrom(bytes, side).value)
    decreases bytes - side
  {
    SquareIsLarger(side);
    if bytes > 2 * Square(side) {
      SideIsSound(bytes, side + 1);
    }
  }

  lemma {:induction false} SideIsFound(bytes: nat, side: nat, root: nat)
    requires 2 <= side <= root && bytes == 2 * Square(root)
    ensures SideFrom(bytes, side).Some?
    decreases root - side
  {
    SquareOrder(side, root);
    if side < root {
      SideIsFound(bytes, side + 1, root);
    }
  }

  /** A buffer becomes a tile exactly when it is a square grid of side two or more and the name parses,
      and every tile made is valid. */
  lemma BufferBecomesTile(name: string, data: seq<Byte>)
    ensures FromBuffer(name, data).Ok? <==>
              (exists side: nat :: 2 <= side && |data| == 2 * Square(side)) && ParseHgtTileName(name).Ok?
    ensures FromBuffer(name, data).Ok? ==>
              var t := FromBuffer(name, data).value;
              t.Valid() && t.name == name && t.data == data && ParseHgtTileName(name) == Ok(Bounds(t.south, t.west))
  {
    if SideFrom(|data|, 2).Some? {
      SideIsSound(|data|, 2);
    }
    if side: nat :| 2 <= side && |data| == 2 * Square(side) {
      SideIsFound(|data|, 2, side);
    }
  }

  function ReadInt16BE(data: seq<Byte>, offset: nat): int
    requires offset + 1 < |data|
  {
    var unsigned := data[offset] as int * 256 + data[offset + 1] as int;
    if unsigned >= 32768 then unsigned - 65536 else unsigned
  }

  predicate InGrid(t: HgtTile, x: int, y: int) {
    0 <= x < t.size && 0 <= y < t.size
  }

  /** The index of a sample in row-major order. */
  function Index(size: nat, x: int, y: int): int {
    y * size + x
  }

  lemma RowsOrder(rows: nat, more: nat, size: nat)
    requires rows <= more
    ensures 0 <= rows * size <= more * size
  {
    var gap: nat := more - rows;
    assert gap * size >= 0;
    assert more * size == rows * size + gap * size;
  }

  lemma IndexInSquare(size: nat, x: int, y: int)
    requires 0 <= x < size && 0 <= y < size
    ensures 0 <= Index(size, x, y) < Square(size)
  {
    RowsOrder(y, size - 1, size);
  }

  function ReadSample(t: HgtTile, x: int, y: int): Option<int>
    requires t.Valid() && InGrid(t, x, y)
  {
    IndexInSquare(t.size, x, y);
    var value := ReadInt16BE(t.data, Index(t.size, x, y) * 2);
    if value == VOID_ELEVATION then None else Some(value)
  }

  // ----- One axis of a sample -----

  /** Where a coordinate falls on an axis of a tile: the cell corner at or before it, the corner after it
      where there is one, and the offset between them. */
  datatype Axis = Axis(at: int, next: int, offset: real)

  function Clamp(v: real, low: real, high: real): real {
    if v < low then low else if v > high then high else v
  }

  function AxisOf(v: real, max: int): (a: Axis)
    requires 0 <= max
    ensures 0 <= a.at <= a.next <= max && 0.0 <= a.offset < 1.0
    ensures a.next == if a.at == max then max else a.at + 1
    ensures a.at == max ==> a.offset == 0.0
  {
    var x := Clamp(v, 0.0, max as real);
    Axis(x.Floor, Min(x.Floor + 1, max), x - x.Floor as real)
  }

  /** Degrees from the edge of a tile, in cells of its grid. */
  function Scaled(degrees: real, max: int): real {
    Times(degrees, max as real)
  }

  /** A point in the grid coordinates of a tile: columns from the west edge, rows from the north edge. */
  function GridX(t: HgtTile, p: Point): real {
    Scaled(p.longitude - t.west as real, t.Max())
  }

  function GridY(t: HgtTile, p: Point): real {
    Scaled((t.south + 1) as real - p.latitude, t.Max())
  }

  // ----- The interpolation -----

  datatype Corner = Corner(value: Option<int>, weight: real)

  function CornerOf(t: HgtTile, x: int, y: int, weight: real): Corner
    requires t.Valid() && InGrid(t, x, y)
  {
    Corner(ReadSample(t, x, y), weight)
  }

  function CornersWith(t: HgtTile, c: Axis, r: Axis, w0: real, w1: real, w2: real, w3: real): (corners: seq<Corner>)
    requires t.Valid() && InGrid(t, c.at, r.at) && InGrid(t, c.next, r.next)
    ensures |corners| == 4
  {
    [CornerOf(t, c.at, r.at, w0), CornerOf(t, c.next, r.at, w1),
     CornerOf(t, c.at, r.next, w2), CornerOf(t, c.next, r.next, w3)]
  }

  function CornersAt(t: HgtTile, c: Axis, r: Axis): (corners: seq<Corner>)
    requires t.Valid() && InGrid(t, c.at, r.at) && InGrid(t, c.next, r.next)
    ensures |corners| == 4
  {
    CornersWith(t, c, r, Times(1.0 - c.offset, 1.0 - r.offset), Times(c.offset, 1.0 - r.offset),
                Times(1.0 - c.offset, r.offset), Times(c.offset, r.offset))
  }

  /** The four corners around a grid coordinate in reading order, with their bilinear weights. */
  function Corners(t: HgtTile, x: real, y: real): (corners: seq<Corner>)
    requires t.Valid()
    ensures |corners| == 4
  {
    CornersAt(t, AxisOf(x, t.Max()), AxisOf(y, t.Max()))
  }

  function SurvivingWeight(c: Corner): real {
    if c.value.Some? then c.weight else 0.0
  }

  function Contribution(c: Corner): real {
    if c.value.Some? then Times(c.value.value as real, c.weight) else 0.0
  }

  predicate AllVoid(corners: seq<Corner>) {
    forall i :: 0 <= i < |corners| ==> corners[i].value.None?
  }

  function TotalWeight(corners: seq<Corner>): real {
    if corners == [] then 0.0 else TotalWeight(corners[..|corners| - 1]) + SurvivingWeight(corners[|corners| - 1])
  }

  function WeightedSum(corners: seq<Corner>): real {
    if corners == [] then 0.0 else WeightedSum(corners[..|corners| - 1]) + Contribution(corners[|corners| - 1])
  }

  function Round(r: real): int {
    (r + 0.5).Floor
  }

  /** No sample, the not-a-number of a division of zero by zero, or metres. */
  datatype Reading = NoSample | NotANumber | Metres(elevation: int)

  function Interpolate(corners: seq<Corner>): Reading {
    if AllVoid(corners) then NoSample
    else if TotalWeight(corners) == 0.0 then NotANumber
    else Metres(Round(WeightedSum(corners) / TotalWeight(corners)))
  }

  function Sample(t: HgtTile, p: Point): Reading
    requires t.Valid()
  {
    if t.Contains(p) then Interpolate(Corners(t, GridX(t, p), GridY(t, p))) else NoSample
  }

  function Weight(t: HgtTile, p: Point): real
    requires t.Valid()
  {
    TotalWeight(Corners(t, GridX(t, p), GridY(t, p)))
  }

  // ----- Bounds of the interpolation -----

  predicate NonNegative(corners: seq<Corner>) {
    forall i :: 0 <= i < |corners| ==> corners[i].weight >= 0.0
  }

  lemma TimesIsNonNegative(a: real, b: real)
    requires a >= 0.0 && b >= 0.0
    ensures Times(a, b) >= 0.0
  {
  }

  lemma TimesOrder(a: real, b: real, w: real)
    requires a <= b && w >= 0.0
    ensures Times(a, w) <= Times(b, w)
  {
    TimesIsNonNegative(b - a, w);
    assert Times(b - a, w) == Times(b, w) - Times(a, w);
  }

  lemma ZeroTimes(a: real, b: real)
    requires a == 0.0 || b == 0.0
    ensures Times(a, b) == 0.0
  {
  }

  lemma NonNegativeWith(t: HgtTile, c: Axis, r: Axis, w0: real, w1: real, w2: real, w3: real)
    requires t.Valid() && InGrid(t, c.at, r.at) && InGrid(t, c.next, r.next)
    requires w0 >= 0.0 && w1 >= 0.0 && w2 >= 0.0 && w3 >= 0.0
    ensures NonNegative(CornersWith(t, c, r, w0, w1, w2, w3))
  {
  }

  lemma WeightsAreNonNegative(t: HgtTile, c: Axis, r: Axis)
    requires t.Valid() && InGrid(t, c.at, r.at) && InGrid(t, c.next, r.next)
    requires 0.0 <= c.offset < 1.0 && 0.0 <= r.offset < 1.0
    ensures NonNegative(CornersAt(t, c, r))
  {
    TimesIsNonNegative(1.0 - c.offset, 1.0 - r.offset);
    TimesIsNonNegative(c.offset, 1.0 - r.offset);
    TimesIsNonNegative(1.0 - c.offset, r.offset);
    TimesIsNonNegative(c.offset, r.offset);
    NonNegativeWith(t, c, r, Times(1.0 - c.offset, 1.0 - r.offset), Times(c.offset, 1.0 - r.offset),
                    Times(1.0 - c.offset, r.offset), Times(c.offset, r.offset));
  }

  lemma FourTerms(corners: seq<Corner>)
    requires |corners| == 4
    ensures TotalWeight(corners) == SurvivingWeight(corners[0]) + SurvivingWeight(corners[1])
                                  + SurvivingWeight(corners[2]) + SurvivingWeight(corners[3])
    ensures WeightedSum(corners) == Contribution(corners[0]) + Contribution(corners[1])
                                  + Contribution(corners[2]) + Contribution(corners[3])
  {
    var three, two, one := corners[..3], corners[..2], corners[..1];
    assert three[..2] == two && two[..1] == one && one[..0] == [];
    assert TotalWeight(one) == SurvivingWeight(corners[0]) && WeightedSum(one) == Contribution(corners[0]);
    assert TotalWeight(two) == TotalWeight(one) + SurvivingWeight(corners[1]);
    assert WeightedSum(two) == WeightedSum(one) + Contribution(corners[1]);
    assert TotalWeight(three) == TotalWeight(two) + SurvivingWeight(corners[2]);
    assert WeightedSum(three) == WeightedSum(two) + Contribution(corners[2]);
  }

  lemma ContributionIsBounded(c: Corner, low: real, high: real)
    requires c.weight >= 0.0 && (c.value.Some? ==> low <= c.value.value as real <= high)
    ensures Times(low, SurvivingWeight(c)) <= Contribution(c) <= Times(high, SurvivingWeight(c))
  {
    if c.value.Some? {
      TimesOrder(low, c.value.value as real, c.weight);
      TimesOrder(c.value.value as real, high, c.weight);
    } else {
      ZeroTimes(low, 0.0);
      ZeroTimes(high, 0.0);
    }
  }

  lemma TimesDistributes(k: real, a: real, b: real, c: real, d: real)
    ensures Times(k, a + b + c + d) == Times(k, a) + Times(k, b) + Times(k, c) + Times(k, d)
  {
  }

  lemma SumIsBounded(corners: seq<Corner>, low: real, high: real)
    requires |corners| == 4 && NonNegative(corners)
    requires forall i :: 0 <= i < 4 && corners[i].value.Some? ==> low <= corners[i].value.value as real <= high
    ensures Times(low, TotalWeight(corners)) <= WeightedSum(corners) <= Times(high, TotalWeight(corners))
  {
    var a, b, c, d := corners[0], corners[1], corners[2], corners[3];
    FourTerms(corners);
    ContributionIsBounded(a, low, high);
    ContributionIsBounded(b, low, high);
    ContributionIsBounded(c, low, high);
    ContributionIsBounded(d, low, high);
    TimesDistributes(low, SurvivingWeight(a), SurvivingWeight(b), SurvivingWeight(c), SurvivingWeight(d));
    TimesDistributes(high, SurvivingWeight(a), SurvivingWeight(b), SurvivingWeight(c), SurvivingWeight(d));
  }

  lemma RoundedQuotientIsBounded(sum: real, weight: real, low: int, high: int)
    requires weight > 0.0 && Times(low as real, weight) <= sum <= Times(high as real, weight)
    ensures low <= Round(sum / weight) <= high
  {
    var q := sum / weight;
    assert low as real <= q <= high as real;
  }

  lemma MeanIsBounded(corners: seq<Corner>, low: int, high: int)
    requires |corners| == 4 && NonNegative(corners) && TotalWeight(corners) > 0.0
    requires forall i :: 0 <= i < 4 && corners[i].value.Some? ==> low <= corners[i].value.value <= high
    ensures low <= Round(WeightedSum(corners) / TotalWeight(corners)) <= high
  {
    SumIsBounded(corners, low as real, high as real);
    RoundedQuotientIsBounded(WeightedSum(corners), TotalWeight(corners), low, high);
  }

  lemma InterpolationIsBounded(corners: seq<Corner>, low: int, high: int)
    requires |corners| == 4 && NonNegative(corners) && TotalWeight(corners) > 0.0
    requires forall i :: 0 <= i < 4 && corners[i].value.Some? ==> low <= corners[i].value.value <= high
    ensures Interpolate(corners).Metres? && low <= Interpolate(corners).elevation <= high
  {
    InterpolationKind(corners);
    MeanIsBounded(corners, low, high);
  }

  lemma InterpolationKind(corners: seq<Corner>)
    requires |corners| == 4 && NonNegative(corners)
    ensures TotalWeight(corners) >= 0.0
    ensures TotalWeight(corners) == 0.0
       <==> forall i :: 0 <= i < 4 && corners[i].value.Some? ==> corners[i].weight == 0.0
    ensures Interpolate(corners).Metres? <==> TotalWeight(corners) > 0.0
  {
    FourTerms(corners);
  }

  lemma CornersAreNonNegative(t: HgtTile, x: real, y: real)
    requires t.Valid()
    ensures NonNegative(Corners(t, x, y))
  {
    WeightsAreNonNegative(t, AxisOf(x, t.Max()), AxisOf(y, t.Max()));
  }

  /** For a contained point with positive surviving weight the reading is in metres and lies between any
      bounds of the surviving corner values. */
  lemma ReadingIsBetweenCorners(t: HgtTile, p: Point, low: int, high: int)
    requires t.Valid() && t.Contains(p) && Weight(t, p) > 0.0
    requires forall c :: c in Corners(t, GridX(t, p), GridY(t, p)) && c.value.Some? ==> low <= c.value.value <= high
    ensures Sample(t, p).Metres? && low <= Sample(t, p).elevation <= high
  {
    var corners := Corners(t, GridX(t, p), GridY(t, p));
    CornersAreNonNegative(t, GridX(t, p), GridY(t, p));
    assert forall i :: 0 <= i < 4 ==> corners[i] in corners;
    InterpolationIsBounded(corners, low, high);
  }

  /** Which of the three readings a contained point gets: none when all four corners are void, not a
      number exactly when a corner survives but none that survives carries weight, metres otherwise. */
  lemma ReadingKind(t: HgtTile, p: Point)
    requires t.Valid() && t.Contains(p)
    ensures var corners := Corners(t, GridX(t, p), GridY(t, p));
            && (Sample(t, p).NoSample? <==> AllVoid(corners))
            && (Sample(t, p).NotANumber? <==>
                  && !AllVoid(corners)
                  && forall i :: 0 <= i < 4 && corners[i].value.Some? ==> corners[i].weight == 0.0)
            && (Sample(t, p).Metres? <==> Weight(t, p) > 0.0)
  {
    CornersAreNonNegative(t, GridX(t, p), GridY(t, p));
    InterpolationKind(Corners(t, GridX(t, p), GridY(t, p)));
  }

  // ----- Where a point must lie to get each reading -----

  /** A sample that is not void. */
  predicate Known(t: HgtTile, x: int, y: int)
    requires t.Valid()
  {
    InGrid(t, x, y) && ReadSample(t, x, y).Some?
  }

  /** A grid position strictly within one cell of the point along both axes. */
  predicate Near(t: HgtTile, p: Point, x: int, y: int) {
    InGrid(t, x, y) && -1.0 < GridX(t, p) - x as real < 1.0 && -1.0 < GridY(t, p) - y as real < 1.0
  }

  /** A corner of the cell whose north-west corner is at or before the point. */
  predicate Around(t: HgtTile, p: Point, x: int, y: int) {
    && InGrid(t, x, y)
    && GridX(t, p).Floor <= x <= GridX(t, p).Floor + 1
    && GridY(t, p).Floor <= y <= GridY(t, p).Floor + 1
  }

  predicate OnGridLine(t: HgtTile, p: Point) {
    GridX(t, p).Floor as real == GridX(t, p) || GridY(t, p).Floor as real == GridY(t, p)
  }

  ghost predicate KnownNear(t: HgtTile, p: Point)
    requires t.Valid()
  {
    exists x, y :: Near(t, p, x, y) && Known(t, x, y)
  }

  ghost predicate KnownAround(t: HgtTile, p: Point)
    requires t.Valid()
  {
    exists x, y :: Around(t, p, x, y) && Known(t, x, y)
  }

  lemma TimesIsPositive(a: real, b: real)
    requires a > 0.0 && b > 0.0
    ensures Times(a, b) > 0.0
  {
  }

  lemma GridIsInside(t: HgtTile, p: Point)
    requires t.Valid() && t.Contains(p)
    ensures 0.0 <= GridX(t, p) <= t.Max() as real && 0.0 <= GridY(t, p) <= t.Max() as real
  {
    ScaleBounds(p.longitude - t.west as real, t.Max());
    ScaleBounds((t.south + 1) as real - p.latitude, t.Max());
  }

  /** The lines within one cell of a coordinate are the one at or before it and, off the grid, the next. */
  lemma LinesWithinACell(v: real, max: int, k: int)
    requires 0.0 <= v <= max as real && 0 <= k <= max
    ensures var a := AxisOf(v, max);
            && (-1.0 < v - k as real < 1.0 <==> k == a.at || (k == a.next && a.offset > 0.0))
            && (v.Floor <= k <= v.Floor + 1 <==> k == a.at || k == a.next)
            && (a.offset == 0.0 <==> v.Floor as real == v)
  {
  }

  lemma NearAndAround(t: HgtTile, p: Point, c: Axis, r: Axis, x: int, y: int)
    requires t.Valid() && t.Contains(p) && InGrid(t, x, y)
    requires c == AxisOf(GridX(t, p), t.Max()) && r == AxisOf(GridY(t, p), t.Max())
    ensures Around(t, p, x, y) <==> (x == c.at || x == c.next) && (y == r.at || y == r.next)
    ensures Near(t, p, x, y) <==>
              && (x == c.at || (x == c.next && c.offset > 0.0))
              && (y == r.at || (y == r.next && r.offset > 0.0))
    ensures OnGridLine(t, p) <==> c.offset == 0.0 || r.offset == 0.0
  {
    GridIsInside(t, p);
    LinesWithinACell(GridX(t, p), t.Max(), x);
    LinesWithinACell(GridY(t, p), t.Max(), y);
  }

  /** The four corners carry weight exactly where they are near. */
  lemma WeightsOfCorners(c: Axis, r: Axis)
    requires 0.0 <= c.offset < 1.0 && 0.0 <= r.offset < 1.0
    ensures Times(1.0 - c.offset, 1.0 - r.offset) > 0.0
    ensures Times(c.offset, 1.0 - r.offset) == 0.0 <==> c.offset == 0.0
    ensures Times(1.0 - c.offset, r.offset) == 0.0 <==> r.offset == 0.0
    ensures Times(c.offset, r.offset) == 0.0 <==> c.offset == 0.0 || r.offset == 0.0
  {
    TimesIsPositive(1.0 - c.offset, 1.0 - r.offset);
    if c.offset > 0.0 {
      TimesIsPositive(c.offset, 1.0 - r.offset);
    }
    if r.offset > 0.0 {
      TimesIsPositive(1.0 - c.offset, r.offset);
    }
    if c.offset > 0.0 && r.offset > 0.0 {
      TimesIsPositive(c.offset, r.offset);
    }
  }

  lemma KnownNearIsWeighted(t: HgtTile, p: Point, c: Axis, r: Axis)
    requires t.Valid() && t.Contains(p)
    requires c == AxisOf(GridX(t, p), t.Max()) && r == AxisOf(GridY(t, p), t.Max())
    ensures KnownNear(t, p) <==>
              || Known(t, c.at, r.at)
              || (c.offset > 0.0 && Known(t, c.next, r.at))
              || (r.offset > 0.0 && Known(t, c.at, r.next))
              || (c.offset > 0.0 && r.offset > 0.0 && Known(t, c.next, r.next))
    ensures KnownAround(t, p) <==>
              Known(t, c.at, r.at) || Known(t, c.next, r.at) || Known(t, c.at, r.next) || Known(t, c.next, r.next)
  {
    forall x, y | InGrid(t, x, y)
      ensures Around(t, p, x, y) <==> (x == c.at || x == c.next) && (y == r.at || y == r.next)
      ensures Near(t, p, x, y) <==>
                && (x == c.at || (x == c.next && c.offset > 0.0))
                && (y == r.at || (y == r.next && r.offset > 0.0))
    {
      NearAndAround(t, p, c, r, x, y);
    }
    assert Near(t, p, c.at, r.at) && Around(t, p, c.at, r.at);
    assert Around(t, p, c.next, r.at) && (c.offset > 0.0 ==> Near(t, p, c.next, r.at));
    assert Around(t, p, c.at, r.next) && (r.offset > 0.0 ==> Near(t, p, c.at, r.next));
    assert Around(t, p, c.next, r.next) && (c.offset > 0.0 && r.offset > 0.0 ==> Near(t, p, c.next, r.next));
  }

  /** What four corners with given weights tell: whether one is known, and whether one with weight is. */
  lemma CornersTell(t: HgtTile, c: Axis, r: Axis, w0: real, w1: real, w2: real, w3: real)
    requires t.Valid() && InGrid(t, c.at, r.at) && InGrid(t, c.next, r.next)
    ensures var corners := CornersWith(t, c, r, w0, w1, w2, w3);
            && (AllVoid(corners) <==>
                  && !Known(t, c.at, r.at) && !Known(t, c.next, r.at)
                  && !Known(t, c.at, r.next) && !Known(t, c.next, r.next))
            && ((forall i :: 0 <= i < 4 && corners[i].value.Some? ==> corners[i].weight == 0.0) <==>
                  && (w0 == 0.0 || !Known(t, c.at, r.at)) && (w1 == 0.0 || !Known(t, c.next, r.at))
                  && (w2 == 0.0 || !Known(t, c.at, r.next)) && (w3 == 0.0 || !Known(t, c.next, r.next)))
  {
    var corners := CornersWith(t, c, r, w0, w1, w2, w3);
    assert corners[0].value.Some? <==> Known(t, c.at, r.at);
    assert corners[1].value.Some? <==> Known(t, c.next, r.at);
    assert corners[2].value.Some? <==> Known(t, c.at, r.next);
    assert corners[3].value.Some? <==> Known(t, c.next, r.next);
  }

  lemma CornersTellNear(t: HgtTile, p: Point)
    requires t.Valid() && t.Contains(p)
    ensures var corners := Corners(t, GridX(t, p), GridY(t, p));
            && (AllVoid(corners) <==> !KnownAround(t, p))
            && ((forall i :: 0 <= i < 4 && corners[i].value.Some? ==> corners[i].weight == 0.0) <==> !KnownNear(t, p))
  {
    var c, r := AxisOf(GridX(t, p), t.Max()), AxisOf(GridY(t, p), t.Max());
    WeightsOfCorners(c, r);
    KnownNearIsWeighted(t, p, c, r);
    CornersTell(t, c, r, Times(1.0 - c.offset, 1.0 - r.offset), Times(c.offset, 1.0 - r.offset),
                Times(1.0 - c.offset, r.offset), Times(c.offset, r.offset));
  }

  lemma InsideACellAllAreNear(t: HgtTile, p: Point)
    requires t.Valid() && t.Contains(p) && !OnGridLine(t, p) && KnownAround(t, p)
    ensures KnownNear(t, p)
  {
    var c, r := AxisOf(GridX(t, p), t.Max()), AxisOf(GridY(t, p), t.Max());
    KnownNearIsWeighted(t, p, c, r);
    NearAndAround(t, p, c, r, c.at, r.at);
  }

  /** Which reading a contained point gets, told from the tile alone: metres if and only if a sample
      strictly within one cell of it is known; not a number if and only if none is, and yet some corner of
      its cell is, which takes a point on a grid line. */
  lemma PlaceDecidesReading(t: HgtTile, p: Point)
    requires t.Valid() && t.Contains(p)
    ensures Sample(t, p).Metres? <==> KnownNear(t, p)
    ensures Sample(t, p).NotANumber? <==> !KnownNear(t, p) && KnownAround(t, p)
    ensures Sample(t, p).NotANumber? ==> OnGridLine(t, p)
  {
    ReadingKind(t, p);
    CornersTellNear(t, p);
    CornersAreNonNegative(t, GridX(t, p), GridY(t, p));
    InterpolationKind(Corners(t, GridX(t, p), GridY(t, p)));
    if !OnGridLine(t, p) && KnownAround(t, p) {
      InsideACellAllAreNear(t, p);
    }
  }

  /** Such a tile and point exist: the north-west corner of a grid of two by two whose sample there is
      void, with the other three known. */
  lemma NotANumberExists() returns (t: HgtTile, p: Point)
    ensures t.Valid() && t.Contains(p) && Sample(t, p) == NotANumber
  {
    t := HgtTile("N00E000", 2, 0, 0, [128, 0, 0, 0, 0, 0, 0, 0]);
    p := Point(0.0, 1.0);
    assert GridX(t, p) == 0.0 && GridY(t, p) == 0.0;
    assert ReadSample(t, 0, 0).None?;
    assert ReadSample(t, 1, 0) == Some(0);
    assert Around(t, p, 1, 0) && Known(t, 1, 0);
    forall x, y | Near(t, p, x, y) ensures !Known(t, x, y) {
      assert x == 0 && y == 0;
    }
    PlaceDecidesReading(t, p);
  }

  lemma UnitCorner(corners: seq<Corner>)
    requires |corners| == 4 && corners[0].weight == 1.0
    requires corners[1].weight == 0.0 && corners[2].weight == 0.0 && corners[3].weight == 0.0
    ensures corners[0].value.Some? ==> Interpolate(corners) == Metres(corners[0].value.value)
    ensures corners[0].value.None? ==> !Interpolate(corners).Metres?
  {
    FourTerms(corners);
    if corners[0].value.Some? {
      assert WeightedSum(corners) / TotalWeight(corners) == corners[0].value.value as real;
    }
  }

  lemma GridCorner(t: HgtTile, x: int, y: int)
    requires t.Valid() && InGrid(t, x, y)
    ensures var corners := Corners(t, x as real, y as real);
            && corners[0] == Corner(ReadSample(t, x, y), 1.0)
            && corners[1].weight == 0.0 && corners[2].weight == 0.0 && corners[3].weight == 0.0
  {
    var c, r := AxisOf(x as real, t.Max()), AxisOf(y as real, t.Max());
    assert c.at == x && c.offset == 0.0 && r.at == y && r.offset == 0.0;
  }

  /** At a grid point the reading is the sample there; where that sample is void there are never metres,
      however many neighbours survive. */
  lemma GridPointReadsItsSample(t: HgtTile, p: Point, x: int, y: int)
    requires t.Valid() && InGrid(t, x, y) && t.Contains(p)
    requires GridX(t, p) == x as real && GridY(t, p) == y as real
    ensures ReadSample(t, x, y).Some? ==> Sample(t, p) == Metres(ReadSample(t, x, y).value)
    ensures ReadSample(t, x, y).None? ==> !Sample(t, p).Metres?
  {
    GridCorner(t, x, y);
    UnitCorner(Corners(t, x as real, y as real));
  }

  // ----- Seams between tiles -----

  /** Two grid lines, one of each tile, lie at the same place when the second tile starts a number of
      degrees after the first along the axis. */
  predicate SameLine(degrees: int, max: int, at: int, at': int) {
    || (degrees == 0 && at == at')
    || (degrees == 1 && at == max && at' == 0)
    || (degrees == -1 && at == 0 && at' == max)
  }

  /** Neighbouring tiles of one size agree: wherever their grids share a point, they hold the same
      sample or are both void. */
  ghost predicate Agree(a: HgtTile, b: HgtTile)
    requires a.Valid() && b.Valid()
  {
    && a.size == b.size
    && forall x, y, x', y' ::
         && InGrid(a, x, y) && InGrid(b, x', y')
         && SameLine(b.west - a.west, a.Max(), x, x') && SameLine(a.south - b.south, a.Max(), y, y')
         ==> ReadSample(a, x, y) == ReadSample(b, x', y')
  }

  /** Two tiles see the same grid line at or before a point, at the same offset from it, and the same line
      after it unless the point is on the first. */
  predicate SameAxis(degrees: int, max: int, u: Axis, v: Axis) {
    && u.offset == v.offset
    && SameLine(degrees, max, u.at, v.at)
    && (u.offset > 0.0 ==> SameLine(degrees, max, u.next, v.next))
  }

  /** On a shared line both tiles see the same grid line at or before the point and the same offset. */
  lemma SharedAxis(degrees: int, max: int, u: real, v: real)
    requires 1 <= max && -1 <= degrees <= 1
    requires 0.0 <= u <= max as real && 0.0 <= v <= max as real
    requires v == u - (if degrees == 0 then 0.0 else if degrees == 1 then max as real else -(max as real))
    ensures SameAxis(degrees, max, AxisOf(u, max), AxisOf(v, max))
  {
  }

  lemma ScaleBounds(d: real, max: int)
    requires 0.0 <= d <= 1.0 && 1 <= max
    ensures 0.0 <= Scaled(d, max) <= max as real
  {
    TimesIsNonNegative(d, max as real);
    TimesIsNonNegative(1.0 - d, max as real);
  }

  lemma ScaleShift(d: real, degrees: int, max: int)
    requires -1 <= degrees <= 1
    ensures Scaled(d - degrees as real, max)
         == Scaled(d, max) - (if degrees == 0 then 0.0 else if degrees == 1 then max as real else -(max as real))
  {
  }

  lemma SharedScaledAxis(d: real, d': real, degrees: int, max: int)
    requires 1 <= max && d' == d - degrees as real
    requires 0.0 <= d <= 1.0 && 0.0 <= d' <= 1.0
    ensures SameAxis(degrees, max, AxisOf(Scaled(d, max), max), AxisOf(Scaled(d', max), max))
  {
    assert -1 <= degrees <= 1;
    ScaleBounds(d, max);
    ScaleBounds(d', max);
    ScaleShift(d, degrees, max);
    SharedAxis(degrees, max, Scaled(d, max), Scaled(d', max));
  }

  /** The axes of two tiles at a point both contain. */
  lemma SharedColumns(a: HgtTile, b: HgtTile, p: Point)
    requires a.size == b.size >= 2 && a.Contains(p) && b.Contains(p)
    ensures SameAxis(b.west - a.west, a.Max(), AxisOf(GridX(a, p), a.Max()), AxisOf(GridX(b, p), a.Max()))
  {
    SharedScaledAxis(p.longitude - a.west as real, p.longitude - b.west as real, b.west - a.west, a.Max());
  }

  lemma SharedRows(a: HgtTile, b: HgtTile, p: Point)
    requires a.size == b.size >= 2 && a.Contains(p) && b.Contains(p)
    ensures SameAxis(a.south - b.south, a.Max(), AxisOf(GridY(a, p), a.Max()), AxisOf(GridY(b, p), a.Max()))
  {
    SharedScaledAxis((a.south + 1) as real - p.latitude, (b.south + 1) as real - p.latitude,
                     a.south - b.south, a.Max());
  }

  /** Corners that differ carry no weight in either tile. */
  predicate SameWhereWeighted(c: Corner, d: Corner) {
    c.weight == d.weight && (c.weight == 0.0 || c == d)
  }

  predicate AllSameWhereWeighted(corners: seq<Corner>, corners': seq<Corner>)
    requires |corners| == |corners'| == 4
  {
    forall i :: 0 <= i < 4 ==> SameWhereWeighted(corners[i], corners'[i])
  }

  lemma CornerAgrees(a: HgtTile, b: HgtTile, x: int, y: int, x': int, y': int, weight: real)
    requires a.Valid() && b.Valid() && Agree(a, b) && InGrid(a, x, y) && InGrid(b, x', y')
    requires weight == 0.0
          || (SameLine(b.west - a.west, a.Max(), x, x') && SameLine(a.south - b.south, a.Max(), y, y'))
    ensures SameWhereWeighted(CornerOf(a, x, y, weight), CornerOf(b, x', y', weight))
  {
  }

  lemma CornersAgree(a: HgtTile, b: HgtTile, c: Axis, r: Axis, c': Axis, r': Axis,
                     w0: real, w1: real, w2: real, w3: real)
    requires a.Valid() && b.Valid() && Agree(a, b)
    requires InGrid(a, c.at, r.at) && InGrid(a, c.next, r.next)
    requires InGrid(b, c'.at, r'.at) && InGrid(b, c'.next, r'.next)
    requires SameLine(b.west - a.west, a.Max(), c.at, c'.at) && SameLine(a.south - b.south, a.Max(), r.at, r'.at)
    requires SameLine(b.west - a.west, a.Max(), c.next, c'.next) || (w1 == 0.0 && w3 == 0.0)
    requires SameLine(a.south - b.south, a.Max(), r.next, r'.next) || (w2 == 0.0 && w3 == 0.0)
    ensures AllSameWhereWeighted(CornersWith(a, c, r, w0, w1, w2, w3), CornersWith(b, c', r', w0, w1, w2, w3))
  {
    CornerAgrees(a, b, c.at, r.at, c'.at, r'.at, w0);
    CornerAgrees(a, b, c.next, r.at, c'.next, r'.at, w1);
    CornerAgrees(a, b, c.at, r.next, c'.at, r'.next, w2);
    CornerAgrees(a, b, c.next, r.next, c'.next, r'.next, w3);
  }

  lemma AxesAgree(a: HgtTile, b: HgtTile, c: Axis, r: Axis, c': Axis, r': Axis)
    requires a.Valid() && b.Valid() && Agree(a, b)
    requires InGrid(a, c.at, r.at) && InGrid(a, c.next, r.next)
    requires InGrid(b, c'.at, r'.at) && InGrid(b, c'.next, r'.next)
    requires 0.0 <= c.offset && 0.0 <= r.offset
    requires SameAxis(b.west - a.west, a.Max(), c, c') && SameAxis(a.south - b.south, a.Max(), r, r')
    ensures AllSameWhereWeighted(CornersAt(a, c, r), CornersAt(b, c', r'))
  {
    if c.offset == 0.0 {
      ZeroTimes(c.offset, 1.0 - r.offset);
      ZeroTimes(c.offset, r.offset);
    }
    if r.offset == 0.0 {
      ZeroTimes(1.0 - c.offset, r.offset);
      ZeroTimes(c.offset, r.offset);
    }
    CornersAgree(a, b, c, r, c', r', Times(1.0 - c.offset, 1.0 - r.offset), Times(c.offset, 1.0 - r.offset),
                 Times(1.0 - c.offset, r.offset), Times(c.offset, r.offset));
  }

  lemma SameTerms(c: Corner, d: Corner)
    requires SameWhereWeighted(c, d)
    ensures SurvivingWeight(c) == SurvivingWeight(d) && Contribution(c) == Contribution(d)
  {
    if c.weight == 0.0 {
      ZeroTimes(if c.value.Some? then c.value.value as real else 0.0, c.weight);
      ZeroTimes(if d.value.Some? then d.value.value as real else 0.0, d.weight);
    }
  }

  lemma SameInterpolation(corners: seq<Corner>, corners': seq<Corner>)
    requires |corners| == |corners'| == 4 && AllSameWhereWeighted(corners, corners')
    ensures TotalWeight(corners) == TotalWeight(corners') && WeightedSum(corners) == WeightedSum(corners')
  {
    SameTerms(corners[0], corners'[0]);
    SameTerms(corners[1], corners'[1]);
    SameTerms(corners[2], corners'[2]);
    SameTerms(corners[3], corners'[3]);
    FourTerms(corners);
    FourTerms(corners');
  }

  lemma SeamWeights(a: HgtTile, b: HgtTile, p: Point)
    requires a.Valid() && b.Valid() && Agree(a, b) && a.Contains(p) && b.Contains(p)
    ensures var corners, corners' := Corners(a, GridX(a, p), GridY(a, p)), Corners(b, GridX(b, p), GridY(b, p));
            TotalWeight(corners) == TotalWeight(corners') && WeightedSum(corners) == WeightedSum(corners')
  {
    SharedColumns(a, b, p);
    SharedRows(a, b, p);
    AxesAgree(a, b, AxisOf(GridX(a, p), a.Max()), AxisOf(GridY(a, p), a.Max()),
              AxisOf(GridX(b, p), b.Max()), AxisOf(GridY(b, p), b.Max()));
    SameInterpolation(Corners(a, GridX(a, p), GridY(a, p)), Corners(b, GridX(b, p), GridY(b, p)));
  }

  /** Seam independence: at any point both tiles contain, on a shared edge or at a shared corner, they
      weigh the same, and where that weight is positive they read the same elevation. */
  lemma SeamReadsTheSame(a: HgtTile, b: HgtTile, p: Point)
    requires a.Valid() && b.Valid() && Agree(a, b) && a.Contains(p) && b.Contains(p)
    ensures Weight(a, p) == Weight(b, p)
    ensures Weight(a, p) > 0.0 ==> Sample(a, p).Metres? && Sample(a, p) == Sample(b, p)
  {
    SeamWeights(a, b, p);
    ReadingKind(a, p);
    ReadingKind(b, p);
  }

  // ----- The set of tiles -----

  datatype SampleResult = SampleResult(reading: Reading, source: string)

  predicate AllValid(tiles: seq<HgtTile>) {
    forall i :: 0 <= i < |tiles| ==> tiles[i].size >= 2 && |tiles[i].data| == 2 * Square(tiles[i].size)
  }

  /** The first tile that has a sample answers, not a number included. */
  function SampleSet(tiles: seq<HgtTile>, p: Point): Option<SampleResult>
    requires AllValid(tiles)
  {
    if tiles == [] then None
    else
      assert AllValid(tiles[1..]) by { assert forall i :: 0 <= i < |tiles| - 1 ==> tiles[1..][i] == tiles[i + 1]; }
      var reading := Sample(tiles[0], p);
      if reading.NoSample? then SampleSet(tiles[1..], p) else Some(SampleResult(reading, tiles[0].name))
  }

  lemma {:induction false} FirstAnswer(tiles: seq<HgtTile>, p: Point, weighted: HgtTile)
    requires AllValid(tiles) && weighted in tiles
    requires weighted.Valid() && weighted.Contains(p) && Weight(weighted, p) > 0.0
    requires forall t :: t in tiles && t.Contains(p) ==> t.Valid() && Agree(weighted, t)
    ensures SampleSet(tiles, p).Some? && SampleSet(tiles, p).value.reading == Sample(weighted, p)
    ensures Sample(weighted, p).Metres?
  {
    SeamReadsTheSame(weighted, weighted, p);
    var first := tiles[0];
    assert first in tiles;
    if first.Contains(p) {
      SeamReadsTheSame(weighted, first, p);
    } else {
      assert AllValid(tiles[1..]) by {
        assert forall i :: 0 <= i < |tiles| - 1 ==> tiles[1..][i] == tiles[i + 1];
      }
      FirstAnswer(tiles[1..], p, weighted);
    }
  }

  /** The tiles that contain a point agree with each other. */
  ghost predicate AgreeAt(tiles: seq<HgtTile>, p: Point)
    requires AllValid(tiles)
  {
    forall t, u :: t in tiles && u in tiles && t.Contains(p) && u.Contains(p) ==> t.Valid() && u.Valid() && Agree(t, u)
  }

  /** The set answers if and only if one of its tiles does, with the reading of one of them. */
  lemma {:induction false} SetAnswers(tiles: seq<HgtTile>, p: Point)
    requires AllValid(tiles)
    ensures SampleSet(tiles, p).Some? <==> exists i :: 0 <= i < |tiles| && !Sample(tiles[i], p).NoSample?
    ensures SampleSet(tiles, p).Some? ==>
              exists i :: 0 <= i < |tiles| && !Sample(tiles[i], p).NoSample?
                          && Sample(tiles[i], p) == SampleSet(tiles, p).value.reading
  {
    if tiles != [] && Sample(tiles[0], p).NoSample? {
      assert forall i :: 0 <= i < |tiles| - 1 ==> tiles[1..][i] == tiles[i + 1];
      SetAnswers(tiles[1..], p);
    }
  }

  /** The answer is that of the first tile that has one, under that tile's name. */
  lemma {:induction false} FirstTileAnswers(tiles: seq<HgtTile>, p: Point, i: nat)
    requires AllValid(tiles) && i < |tiles| && !Sample(tiles[i], p).NoSample?
    requires forall j :: 0 <= j < i ==> Sample(tiles[j], p).NoSample?
    ensures SampleSet(tiles, p) == Some(SampleResult(Sample(tiles[i], p), tiles[i].name))
  {
    if i > 0 {
      assert forall j :: 0 <= j < |tiles| - 1 ==> tiles[1..][j] == tiles[j + 1];
      FirstTileAnswers(tiles[1..], p, i - 1);
    }
  }

  lemma AgreeingAnswersAreOne(a: HgtTile, b: HgtTile, p: Point)
    requires a.Valid() && b.Valid() && !Sample(a, p).NoSample? && !Sample(b, p).NoSample? && Agree(a, b)
    ensures Sample(a, p) == Sample(b, p)
  {
    SeamReadsTheSame(a, b, p);
    ReadingKind(a, p);
    ReadingKind(b, p);
  }

  /** Where the tiles that contain a point agree with each other, no order of the tiles changes whether the
      set answers there or what it reads, metres or not. */
  lemma AnyOrderReadsTheSame(tiles: seq<HgtTile>, tiles': seq<HgtTile>, p: Point)
    requires AllValid(tiles) && AllValid(tiles') && multiset(tiles) == multiset(tiles') && AgreeAt(tiles, p)
    ensures SampleSet(tiles, p).Some? <==> SampleSet(tiles', p).Some?
    ensures SampleSet(tiles, p).Some? ==> SampleSet(tiles, p).value.reading == SampleSet(tiles', p).value.reading
  {
    SetAnswers(tiles, p);
    SetAnswers(tiles', p);
    assert forall t :: t in tiles <==> t in multiset(tiles);
    assert forall t :: t in tiles' <==> t in multiset(tiles');
    assert forall i :: 0 <= i < |tiles| ==> tiles[i] in tiles';
    assert forall j :: 0 <= j < |tiles'| ==> tiles'[j] in tiles;
    if SampleSet(tiles, p).Some? && SampleSet(tiles', p).Some? {
      var i :| && 0 <= i < |tiles| && !Sample(tiles[i], p).NoSample?
               && Sample(tiles[i], p) == SampleSet(tiles, p).value.reading;
      var j :| && 0 <= j < |tiles'| && !Sample(tiles'[j], p).NoSample?
               && Sample(tiles'[j], p) == SampleSet(tiles', p).value.reading;
      AgreeingAnswersAreOne(tiles[i], tiles'[j], p);
    }
  }

  /** Where the tiles that contain a point agree with each other and one of them gives it positive weight,
      every order of the tiles yields that tile's elevation. */
  lemma TileOrderDoesNotMatter(tiles: seq<HgtTile>, tiles': seq<HgtTile>, p: Point, weighted: HgtTile)
    requires AllValid(tiles) && AllValid(tiles') && multiset(tiles) == multiset(tiles')
    requires weighted in tiles && weighted.Valid() && weighted.Contains(p) && Weight(weighted, p) > 0.0
    requires forall t :: t in tiles && t.Contains(p) ==> t.Valid() && Agree(weighted, t)
    ensures SampleSet(tiles, p).Some? && SampleSet(tiles', p).Some?
    ensures SampleSet(tiles, p).value.reading == SampleSet(tiles', p).value.reading == Sample(weighted, p)
    ensures Sample(weighted, p).Metres?
  {
    assert forall t :: t in tiles' ==> t in multiset(tiles') && t in multiset(tiles) && t in tiles;
    assert weighted in multiset(tiles) && weighted in multiset(tiles') && weighted in tiles';
    FirstAnswer(tiles, p, weighted);
    FirstAnswer(tiles', p, weighted);
  }

  // ----- A downloaded box, answered -----

  /** One tile for every name of a list, read from some buffer under that name. */
  predicate TilesFor(names: seq<string>, tiles: seq<HgtTile>) {
    |tiles| == |names| && forall i :: 0 <= i < |tiles| ==> FromBuffer(names[i], tiles[i].data) == Ok(tiles[i])
  }

  lemma TilesAreValid(names: seq<string>, tiles: seq<HgtTile>)
    requires TilesFor(names, tiles)
    ensures AllValid(tiles)
    ensures forall i :: 0 <= i < |tiles| ==>
              tiles[i].Valid() && ParseHgtTileName(names[i]) == Ok(Bounds(tiles[i].south, tiles[i].west))
  {
    forall i | 0 <= i < |tiles|
      ensures tiles[i].Valid() && ParseHgtTileName(names[i]) == Ok(Bounds(tiles[i].south, tiles[i].west))
    {
      BufferBecomesTile(names[i], tiles[i].data);
    }
  }

  lemma AnswersWhereKnown(t: HgtTile, p: Point)
    requires t.Valid()
    ensures !Sample(t, p).NoSample? <==> t.Contains(p) && KnownAround(t, p)
  {
    if t.Contains(p) {
      ReadingKind(t, p);
      CornersTellNear(t, p);
    }
  }

  /** A tile of the set contains the point and knows a corner of its cell there. */
  ghost predicate KnownToOne(tiles: seq<HgtTile>, p: Point)
    requires AllValid(tiles)
  {
    exists i :: 0 <= i < |tiles| && tiles[i].Valid() && tiles[i].Contains(p) && KnownAround(tiles[i], p)
  }

  lemma SetAnswersWhereKnown(tiles: seq<HgtTile>, p: Point)
    requires AllValid(tiles) && forall i :: 0 <= i < |tiles| ==> tiles[i].Valid()
    ensures SampleSet(tiles, p).Some? <==> KnownToOne(tiles, p)
  {
    SetAnswers(tiles, p);
    forall i | 0 <= i < |tiles|
      ensures !Sample(tiles[i], p).NoSample? <==> tiles[i].Contains(p) && KnownAround(tiles[i], p)
    {
      AnswersWhereKnown(tiles[i], p);
    }
  }

  lemma ListedTileContains(b: Box, names: seq<string>, tiles: seq<HgtTile>, p: Point) returns (i: nat)
    requires InsideGlobe(b) && TilesFor(names, tiles)
    requires forall name :: name in names <==>
               exists lat, lon :: OverlapsBox(lat, lon, b) && name == HgtTileName(lat, lon)
    requires b.minLon <= p.longitude <= b.maxLon && b.minLat <= p.latitude <= b.maxLat
    ensures i < |tiles| && tiles[i].Contains(p)
  {
    ListCoversBox(b, names, p.longitude, p.latitude);
    var name :| name in names && ParseHgtTileName(name).Ok? &&
                var t := ParseHgtTileName(name).value;
                && t.south as real <= p.latitude <= (t.south + 1) as real
                && t.west as real <= p.longitude <= (t.west + 1) as real;
    i :| 0 <= i < |names| && names[i] == name;
    BufferBecomesTile(names[i], tiles[i].data);
  }

  /** From the list of a box to its elevations: with one tile read for every listed name, every point of the
      box lies in a tile of the set, and the set answers there if and only if one of the tiles that contain
      the point knows a corner of its cell. */
  lemma ListedBoxIsAnswered(b: Box, names: seq<string>, tiles: seq<HgtTile>, p: Point)
    requires InsideGlobe(b) && TilesFor(names, tiles)
    requires forall name :: name in names <==>
               exists lat, lon :: OverlapsBox(lat, lon, b) && name == HgtTileName(lat, lon)
    requires b.minLon <= p.longitude <= b.maxLon && b.minLat <= p.latitude <= b.maxLat
    ensures AllValid(tiles)
    ensures exists i :: 0 <= i < |tiles| && tiles[i].Contains(p)
    ensures SampleSet(tiles, p).Some? <==> KnownToOne(tiles, p)
  {
    TilesAreValid(names, tiles);
    SetAnswersWhereKnown(tiles, p);
    var i := ListedTileContains(b, names, tiles, p);
  }

  // ----- The layout of a tile, from a grid of samples -----

  predicate IsSample(v: int) {
    -32768 <= v <= 32767
  }

  predicate AllSamples(rows: seq<seq<int>>) {
    forall y, x :: 0 <= y < |rows| && 0 <= x < |rows[y]| ==> IsSample(rows[y][x])
  }

  /** A square grid of signed 16-bit samples, row by row from the north, each row from the west. */
  predicate IsGrid(rows: seq<seq<int>>, size: nat) {
    |rows| == size && (forall y :: 0 <= y < size ==> |rows[y]| == size) && AllSamples(rows)
  }

  /** A sample in two bytes, the high one first, a negative one in two's complement. */
  function EncodeSample(v: int): seq<Byte>
    requires IsSample(v)
  {
    var unsigned := if v < 0 then 65536 + v else v;
    [(unsigned / 256) as Byte, (unsigned % 256) as Byte]
  }

  function EncodeRow(row: seq<int>): seq<Byte>
    requires forall x :: 0 <= x < |row| ==> IsSample(row[x])
  {
    if row == [] then [] else EncodeRow(row[..|row| - 1]) + EncodeSample(row[|row| - 1])
  }

  function Encode(rows: seq<seq<int>>): seq<Byte>
    requires AllSamples(rows)
  {
    if rows == [] then [] else Encode(rows[..|rows| - 1]) + EncodeRow(rows[|rows| - 1])
  }

  lemma {:induction false} RowBytes(row: seq<int>, x: nat)
    requires x < |row| && forall x :: 0 <= x < |row| ==> IsSample(row[x])
    ensures |EncodeRow(row)| == 2 * |row|
    ensures EncodeRow(row)[2 * x] == EncodeSample(row[x])[0]
    ensures EncodeRow(row)[2 * x + 1] == EncodeSample(row[x])[1]
  {
    var n := |row| - 1;
    if n > 0 {
      RowBytes(row[..n], if x < n then x else 0);
    }
  }

  lemma RowLength(row: seq<int>)
    requires forall x :: 0 <= x < |row| ==> IsSample(row[x])
    ensures |EncodeRow(row)| == 2 * |row|
  {
    if row != [] {
      RowBytes(row, 0);
    }
  }

  lemma OneMoreRow(n: nat, size: nat)
    ensures (n + 1) * size == n * size + size
  {
  }

  lemma {:induction false} GridLength(rows: seq<seq<int>>, size: nat)
    requires AllSamples(rows) && forall y :: 0 <= y < |rows| ==> |rows[y]| == size
    ensures |Encode(rows)| == 2 * (|rows| * size)
  {
    if rows != [] {
      var n := |rows| - 1;
      GridLength(rows[..n], size);
      RowLength(rows[n]);
      OneMoreRow(n, size);
    }
  }

  lemma {:induction false} GridBytes(rows: seq<seq<int>>, size: nat, y: nat, j: nat)
    requires AllSamples(rows) && forall y :: 0 <= y < |rows| ==> |rows[y]| == size
    requires y < |rows| && j < 2 * size
    ensures 0 <= 2 * (y * size) + j < |Encode(rows)| && |EncodeRow(rows[y])| == 2 * size
    ensures Encode(rows)[2 * (y * size) + j] == EncodeRow(rows[y])[j]
  {
    var n := |rows| - 1;
    RowLength(rows[y]);
    GridLength(rows[..n], size);
    assert Encode(rows) == Encode(rows[..n]) + EncodeRow(rows[n]);
    if y < n {
      GridBytes(rows[..n], size, y, j);
    }
  }

  /** A tile holds the samples of the grid it was laid out from, each at its column from the west and its row
      from the north, and -32768 stands for no sample. */
  lemma TileHoldsItsGrid(t: HgtTile, rows: seq<seq<int>>, x: int, y: int)
    requires t.size >= 2 && IsGrid(rows, t.size)
    requires t.data == Encode(rows) && InGrid(t, x, y)
    ensures t.Valid()
    ensures ReadSample(t, x, y) == if rows[y][x] == -32768 then None else Some(rows[y][x])
  {
    GridBytes(rows, t.size, y, 2 * x);
    GridBytes(rows, t.size, y, 2 * x + 1);
    RowBytes(rows[y], x);
    GridLength(rows, t.size);
  }

  // ----- The interpolation against a definition of its own -----

  /** How much a sample counts at a distance along one axis: all at none, nothing from one cell on. */
  function Hat(u: real): real {
    if -1.0 < u < 0.0 then 1.0 + u else if 0.0 <= u < 1.0 then 1.0 - u else 0.0
  }

  /** How much a grid position counts at a point, if its sample is known. */
  function Share(t: HgtTile, p: Point, x: int, y: int): real
    requires t.Valid()
  {
    if Known(t, x, y) then Times(Hat(GridX(t, p) - x as real), Hat(GridY(t, p) - y as real)) else 0.0
  }

  function Moment(t: HgtTile, p: Point, x: int, y: int): real
    requires t.Valid()
  {
    if Known(t, x, y) then Times(ReadSample(t, x, y).value as real, Share(t, p, x, y)) else 0.0
  }

  /** The whole weight and the whole moment of the four positions around a point. */
  function Shares(t: HgtTile, p: Point): real
    requires t.Valid()
  {
    var x, y := GridX(t, p).Floor, GridY(t, p).Floor;
    Share(t, p, x, y) + Share(t, p, x + 1, y) + Share(t, p, x, y + 1) + Share(t, p, x + 1, y + 1)
  }

  function Moments(t: HgtTile, p: Point): real
    requires t.Valid()
  {
    var x, y := GridX(t, p).Floor, GridY(t, p).Floor;
    Moment(t, p, x, y) + Moment(t, p, x + 1, y) + Moment(t, p, x, y + 1) + Moment(t, p, x + 1, y + 1)
  }

  /** The line at or before a coordinate counts by the rest of the offset, and the next by the offset. */
  lemma HatsOfAxis(v: real, max: int)
    requires 0.0 <= v <= max as real
    ensures var a := AxisOf(v, max);
            && a.at == v.Floor && Hat(v - v.Floor as real) == 1.0 - a.offset
            && Hat(v - (v.Floor + 1) as real) == a.offset
            && (a.next == v.Floor + 1 || (v.Floor == max && a.next == max && a.offset == 0.0))
  {
  }

  /** A corner counts as its position does; where the next line lies beyond the grid neither counts. */
  lemma CornerIsShare(t: HgtTile, p: Point, x: int, y: int, x': int, y': int, weight: real)
    requires t.Valid() && InGrid(t, x, y)
    requires if x == x' && y == y' then weight == Times(Hat(GridX(t, p) - x as real), Hat(GridY(t, p) - y as real))
             else weight == 0.0 && !InGrid(t, x', y')
    ensures SurvivingWeight(CornerOf(t, x, y, weight)) == Share(t, p, x', y')
    ensures Contribution(CornerOf(t, x, y, weight)) == Moment(t, p, x', y')
  {
    if weight == 0.0 {
      ZeroTimes(if Known(t, x, y) then ReadSample(t, x, y).value as real else 0.0, weight);
    }
  }

  lemma SharesAreWeights(t: HgtTile, p: Point)
    requires t.Valid() && t.Contains(p)
    ensures Weight(t, p) == Shares(t, p)
    ensures WeightedSum(Corners(t, GridX(t, p), GridY(t, p))) == Moments(t, p)
  {
    GridIsInside(t, p);
    var gx, gy := GridX(t, p), GridY(t, p);
    HatsOfAxis(gx, t.Max());
    HatsOfAxis(gy, t.Max());
    var c, r := AxisOf(gx, t.Max()), AxisOf(gy, t.Max());
    var x, y := gx.Floor, gy.Floor;
    if c.offset == 0.0 {
      ZeroTimes(c.offset, 1.0 - r.offset);
      ZeroTimes(c.offset, r.offset);
    }
    if r.offset == 0.0 {
      ZeroTimes(1.0 - c.offset, r.offset);
      ZeroTimes(c.offset, r.offset);
    }
    CornerIsShare(t, p, c.at, r.at, x, y, Times(1.0 - c.offset, 1.0 - r.offset));
    CornerIsShare(t, p, c.next, r.at, x + 1, y, Times(c.offset, 1.0 - r.offset));
    CornerIsShare(t, p, c.at, r.next, x, y + 1, Times(1.0 - c.offset, r.offset));
    CornerIsShare(t, p, c.next, r.next, x + 1, y + 1, Times(c.offset, r.offset));
    FourTerms(Corners(t, gx, gy));
  }

  /** The whole number nearest to a real, the upper of two. */
  predicate Nearest(n: int, r: real) {
    n as real - 0.5 <= r < n as real + 0.5
  }

  lemma RoundIsNearest(r: real)
    ensures Nearest(Round(r), r)
  {
  }

  /** At every contained point where some position around it counts, the reading is the whole number nearest
      to the mean of the known samples around the point, each counted by its distances; halves go up. */
  lemma ReadingIsTheWeighedMean(t: HgtTile, p: Point)
    requires t.Valid() && t.Contains(p) && Shares(t, p) > 0.0
    ensures Sample(t, p).Metres?
    ensures Nearest(Sample(t, p).elevation, Moments(t, p) / Shares(t, p))
  {
    SharesAreWeights(t, p);
    ReadingKind(t, p);
    RoundIsNearest(Moments(t, p) / Shares(t, p));
  }

  /** A point that lies on a column and a row of the grid, by its degrees. */
  predicate LiesAt(t: HgtTile, p: Point, x: int, y: int)
    requires t.size >= 2
  {
    && p.longitude == t.west as real + x as real / (t.size - 1) as real
    && p.latitude == (t.south + 1) as real - y as real / (t.size - 1) as real
  }

  lemma QuotientTimes(n: real, m: real)
    requires m > 0.0
    ensures Times(n / m, m) == n
  {
  }

  lemma LiesOnGrid(t: HgtTile, p: Point, x: int, y: int)
    requires t.size >= 2 && InGrid(t, x, y) && LiesAt(t, p, x, y)
    ensures GridX(t, p) == x as real && GridY(t, p) == y as real && t.Contains(p)
  {
    var m := (t.size - 1) as real;
    QuotientTimes(x as real, m);
    QuotientTimes(y as real, m);
    assert p.longitude - t.west as real == x as real / m;
    assert (t.south + 1) as real - p.latitude == y as real / m;
    assert 0.0 <= x as real / m <= 1.0 && 0.0 <= y as real / m <= 1.0;
  }

  /** A tile laid out from a grid reads, at the place of column x from the west and row y from the north,
      exactly what the grid has there, and never metres where it has no sample. */
  lemma TileReadsItsGrid(t: HgtTile, rows: seq<seq<int>>, x: int, y: int, p: Point)
    requires t.size >= 2 && IsGrid(rows, t.size)
    requires t.data == Encode(rows) && InGrid(t, x, y) && LiesAt(t, p, x, y)
    ensures t.Valid()
    ensures rows[y][x] != -32768 ==> Sample(t, p) == Metres(rows[y][x])
    ensures rows[y][x] == -32768 ==> !Sample(t, p).Metres?
  {
    TileHoldsItsGrid(t, rows, x, y);
    LiesOnGrid(t, p, x, y);
    GridPointReadsItsSample(t, p, x, y);
  }

  // ----- Planes -----

  function Plane(a: real, b: real, c: real, x: real, y: real): real {
    a + Times(b, x) + Times(c, y)
  }

  /** Bilinear weights give a plane back. */
  lemma WeightsGivePlane(a: real, b: real, c: real, x: real, y: real, u: real, v: real)
    ensures Times(Plane(a, b, c, x, y), Times(1.0 - u, 1.0 - v))
            + Times(Plane(a, b, c, x + 1.0, y), Times(u, 1.0 - v))
            + Times(Plane(a, b, c, x, y + 1.0), Times(1.0 - u, v))
            + Times(Plane(a, b, c, x + 1.0, y + 1.0), Times(u, v))
         == Plane(a, b, c, x + u, y + v)
  {
  }

  lemma WeightsAddUp(u: real, v: real)
    ensures Times(1.0 - u, 1.0 - v) + Times(u, 1.0 - v) + Times(1.0 - u, v) + Times(u, v) == 1.0
  {
  }

  /** The samples around the point are all known and lie on a plane over the grid. */
  ghost predicate OnPlane(t: HgtTile, p: Point, a: real, b: real, c: real)
    requires t.Valid()
  {
    forall x, y :: Around(t, p, x, y) ==>
      Known(t, x, y) && ReadSample(t, x, y).value as real == Plane(a, b, c, x as real, y as real)
  }

  lemma CornersOfPlane(t: HgtTile, p: Point, a: real, b: real, c: real)
    requires t.Valid() && t.Contains(p) && OnPlane(t, p, a, b, c)
    ensures TotalWeight(Corners(t, GridX(t, p), GridY(t, p))) == 1.0
    ensures WeightedSum(Corners(t, GridX(t, p), GridY(t, p))) == Plane(a, b, c, GridX(t, p), GridY(t, p))
  {
    GridIsInside(t, p);
    var gx, gy := GridX(t, p), GridY(t, p);
    var i, j := AxisOf(gx, t.Max()), AxisOf(gy, t.Max());
    HatsOfAxis(gx, t.Max());
    HatsOfAxis(gy, t.Max());
    var x, y, u, v := i.at as real, j.at as real, i.offset, j.offset;
    var w0, w1, w2, w3 := Times(1.0 - u, 1.0 - v), Times(u, 1.0 - v), Times(1.0 - u, v), Times(u, v);
    assert Around(t, p, i.at, j.at) && Around(t, p, i.next, j.at);
    assert Around(t, p, i.at, j.next) && Around(t, p, i.next, j.next);
    CornerOfPlane(a, b, c, i.next as real, j.at as real, x + 1.0, y, w1);
    CornerOfPlane(a, b, c, i.at as real, j.next as real, x, y + 1.0, w2);
    CornerOfPlane(a, b, c, i.next as real, j.next as real, x + 1.0, y + 1.0, w3);
    WeightsVanish(u, v);
    WeightsGivePlane(a, b, c, x, y, u, v);
    WeightsAddUp(u, v);
    FourTerms(Corners(t, gx, gy));
  }

  lemma WeightsVanish(u: real, v: real)
    ensures u == 0.0 ==> Times(u, 1.0 - v) == 0.0 && Times(u, v) == 0.0
    ensures v == 0.0 ==> Times(1.0 - u, v) == 0.0 && Times(u, v) == 0.0
  {
  }

  /** A corner with no weight may stand for any place on the plane. */
  lemma CornerOfPlane(a: real, b: real, c: real, x: real, y: real, x': real, y': real, weight: real)
    ensures weight == 0.0 || (x == x' && y == y') ==>
              Times(Plane(a, b, c, x, y), weight) == Times(Plane(a, b, c, x', y'), weight)
  {
    ZeroTimes(Plane(a, b, c, x, y), 0.0);
    ZeroTimes(Plane(a, b, c, x', y'), 0.0);
  }

  lemma UnitWeight(corners: seq<Corner>)
    requires |corners| == 4 && NonNegative(corners) && TotalWeight(corners) == 1.0
    ensures Interpolate(corners) == Metres(Round(WeightedSum(corners)))
  {
    InterpolationKind(corners);
    assert WeightedSum(corners) / 1.0 == WeightedSum(corners);
  }

  lemma PlaneReading(t: HgtTile, p: Point, a: real, b: real, c: real)
    requires t.Valid() && t.Contains(p) && OnPlane(t, p, a, b, c)
    ensures Sample(t, p) == Metres(Round(Plane(a, b, c, GridX(t, p), GridY(t, p))))
  {
    CornersOfPlane(t, p, a, b, c);
    CornersAreNonNegative(t, GridX(t, p), GridY(t, p));
    UnitWeight(Corners(t, GridX(t, p), GridY(t, p)));
  }

  /** Columns from the west edge and rows from the north edge, by degrees. */
  function Column(t: HgtTile, p: Point): real {
    (p.longitude - t.west as real) * (t.size - 1) as real
  }

  function Row(t: HgtTile, p: Point): real {
    ((t.south + 1) as real - p.latitude) * (t.size - 1) as real
  }

  lemma GridCoordinates(t: HgtTile, p: Point)
    ensures GridX(t, p) == Column(t, p) && GridY(t, p) == Row(t, p)
  {
  }

  /** Where the samples around a point are known and lie on a plane over columns from the west and rows from
      the north, the reading is the whole number nearest to that plane at the point; halves go up. */
  lemma PlaneIsReadBack(t: HgtTile, p: Point, a: real, b: real, c: real)
    requires t.Valid() && t.Contains(p) && OnPlane(t, p, a, b, c)
    ensures Sample(t, p).Metres? && Nearest(Sample(t, p).elevation, Plane(a, b, c, Column(t, p), Row(t, p)))
  {
    PlaneReading(t, p, a, b, c);
    RoundIsNearest(Plane(a, b, c, GridX(t, p), GridY(t, p)));
    GridCoordinates(t, p);
  }
}
