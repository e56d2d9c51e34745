/** Tile coordinates of a longitude and latitude: the clamped scaling of the Mercator square, and the
    coordinates the parser accepts. */
module TileAddressing {
  import opened Prelude

  datatype Tile = Tile(z: nat, x: int, y: int)

  function Pow2(n: nat): nat {
    if n == 0 then 1 else 2 * Pow2(n - 1)
  }

  lemma {:induction false} Pow2IsPositive(n: nat)
    ensures Pow2(n) >= 1
  {
    if n > 0 {
      Pow2IsPositive(n - 1);
    }
  }

  /** parseTileCoordinates on numbers it has read. */
  predicate Accepts(z: int, x: int, y: int) {
    0 <= z <= 26 && 0 <= x < Pow2(z) && 0 <= y < Pow2(z)
  }

  /** A share of the side of the square, scaled to cells and clamped to the grid. */
  function CellOf(share: real, scale: nat): int {
    Min(scale - 1, Max(0, (share * scale as real).Floor))
  }

  /** Mercator's vertical share of a latitude; the projection itself is a parameter. */
  type Projection = real -> real

  function LonLatToTile(lon: real, lat: real, z: nat, mercator: Projection): Tile {
    Tile(z, CellOf((lon + 180.0) / 360.0, Pow2(z)), CellOf(mercator(lat), Pow2(z)))
  }

  function Parent(t: Tile): Tile
    requires t.z > 0
  {
    Tile(t.z - 1, t.x / 2, t.y / 2)
  }

  function Ancestor(t: Tile, levels: nat): Tile
    requires levels <= t.z
    decreases levels
  {
    if levels == 0 then t else Ancestor(Parent(t), levels - 1)
  }

  lemma CellIsInGrid(share: real, scale: nat)
    requires scale >= 1
    ensures 0 <= CellOf(share, scale) < scale
  {
  }

  lemma FloorHalves(v: real)
    ensures (2.0 * v).Floor / 2 == v.Floor
  {
    var n := v.Floor;
    assert n as real <= v < n as real + 1.0;
    assert (2 * n) as real <= 2.0 * v < (2 * n + 2) as real;
  }

  lemma ClampHalves(n: int, scale: nat)
    requires scale >= 1
    ensures Min(2 * scale - 1, Max(0, n)) / 2 == Min(scale - 1, Max(0, n / 2))
  {
  }

  lemma ScaleDoubles(share: real, scale: nat)
    ensures share * (2 * scale) as real == 2.0 * (share * scale as real)
  {
  }

  lemma CellHalves(share: real, scale: nat)
    requires scale >= 1
    ensures CellOf(share, 2 * scale) / 2 == CellOf(share, scale)
  {
    var v, w := share * scale as real, share * (2 * scale) as real;
    assert w == 2.0 * v by {
      ScaleDoubles(share, scale);
    }
    FloorHalves(v);
    ClampHalves(w.Floor, scale);
  }

  /** Up to zoom 26 every tile computed is one the parser accepts, for any longitude, latitude and
      projection. */
  lemma TilesAreAccepted(lon: real, lat: real, z: nat, mercator: Projection)
    requires z <= 26
    ensures var t := LonLatToTile(lon, lat, z, mercator); Accepts(t.z, t.x, t.y)
  {
    Pow2IsPositive(z);
    CellIsInGrid((lon + 180.0) / 360.0, Pow2(z));
    CellIsInGrid(mercator(lat), Pow2(z));
  }

  /** Tiles nest: the tile of a point is the ancestor, any number of levels up, of its tile at a deeper
      zoom, the clamped edges included. */
  lemma {:induction false} TilesNest(lon: real, lat: real, z: nat, levels: nat, mercator: Projection)
    ensures Ancestor(LonLatToTile(lon, lat, z + levels, mercator), levels) == LonLatToTile(lon, lat, z, mercator)
  {
    if levels > 0 {
      Pow2IsPositive(z + levels - 1);
      CellHalves((lon + 180.0) / 360.0, Pow2(z + levels - 1));
      CellHalves(mercator(lat), Pow2(z + levels - 1));
      TilesNest(lon, lat, z, levels - 1, mercator);
    }
  }

  lemma ShareTimes(share: real, scale: nat)
    requires scale >= 1
    ensures 0.0 <= share < 1.0 ==> 0.0 <= share * scale as real < scale as real
    ensures share < 0.0 ==> share * scale as real < 0.0
    ensures 1.0 <= share ==> scale as real <= share * scale as real
  {
  }

  /** Inside the square the cell contains the point; a share beyond an end goes to the cell at that end. */
  lemma CellContainsShare(share: real, scale: nat)
    requires scale >= 1
    ensures 0.0 <= share < 1.0 ==>
              CellOf(share, scale) as real <= share * scale as real < (CellOf(share, scale) + 1) as real
    ensures share < 0.0 ==> CellOf(share, scale) == 0
    ensures 1.0 <= share ==> CellOf(share, scale) == scale - 1
  {
    ShareTimes(share, scale);
  }

  /** Eastward from the antimeridian, column x of n spans 360 degrees over n; the first and last columns take
      what lies beyond. */
  predicate InColumn(x: int, n: nat, lon: real) {
    && (-180.0 <= lon < 180.0 ==> 360.0 * x as real <= (lon + 180.0) * n as real < 360.0 * (x + 1) as real)
    && (lon < -180.0 ==> x == 0) && (180.0 <= lon ==> x == n - 1)
  }

  /** Downward, row y of n spans an equal share of the projection. */
  predicate InRow(y: int, n: nat, share: real) {
    && (0.0 <= share < 1.0 ==> y as real <= share * n as real < (y + 1) as real)
    && (share < 0.0 ==> y == 0) && (1.0 <= share ==> y == n - 1)
  }

  lemma DegreesOfShare(degrees: real, n: real)
    ensures 360.0 * (degrees / 360.0 * n) == degrees * n
  {
    assert degrees / 360.0 * 360.0 == degrees;
  }

  lemma ColumnContains(lon: real, n: nat)
    requires n >= 1
    ensures InColumn(CellOf((lon + 180.0) / 360.0, n), n, lon)
  {
    var share := (lon + 180.0) / 360.0;
    CellContainsShare(share, n);
    DegreesOfShare(lon + 180.0, n as real);
    var x, v := CellOf(share, n), share * n as real;
    assert x as real <= v < (x + 1) as real ==> 360.0 * x as real <= 360.0 * v < 360.0 * (x + 1) as real;
  }

  /** The tile of a point contains it, and a point beyond the square goes to a tile at its edge. */
  lemma PointLiesInItsTile(lon: real, lat: real, z: nat, mercator: Projection)
    ensures var t := LonLatToTile(lon, lat, z, mercator);
            t.z == z && InColumn(t.x, Pow2(z), lon) && InRow(t.y, Pow2(z), mercator(lat))
  {
    Pow2IsPositive(z);
    ColumnContains(lon, Pow2(z));
    CellContainsShare(mercator(lat), Pow2(z));
  }

  /** What the parser accepts: zooms from 0 to 26 and, at each, the columns and rows of its grid. */
  lemma AcceptedCoordinates(z: int, x: int, y: int)
    ensures Accepts(z, x, y) ==> 0 <= z < 27
    ensures 0 <= z < 27 ==> (Accepts(z, x, y) <==> 0 <= x < Pow2(z) && 0 <= y < Pow2(z))
    ensures Pow2(0) == 1 && Pow2(26) == 67_108_864
  {
    assert Pow2(4) == 16;
    assert Pow2(8) == 256;
    assert Pow2(12) == 4_096;
    assert Pow2(16) == 65_536;
    assert Pow2(20) == 1_048_576;
    assert Pow2(24) == 16_777_216;
  }
}