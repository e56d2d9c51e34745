/** HGT tile names: the printer of the agent, the parser of the elevation service, and the list of tiles
    that covers a bounding box. */
module HgtNames {
  import opened Prelude
  import opened Text
  import opened Sorting

  // ----- Printing -----

  function PadStart(s: string, width: nat): string
    decreases width - |s|
  {
    if |s| >= width then s else PadStart("0" + s, width)
  }

  function Abs(n: int): nat {
    if n < 0 then -n else n
  }

  function HgtTileName(lat: int, lon: int): string {
    [if lat >= 0 then 'N' else 'S'] + PadStart(Decimal(Abs(lat)), 2)
    + [if lon >= 0 then 'E' else 'W'] + PadStart(Decimal(Abs(lon)), 3)
  }

  // ----- Parsing -----

  datatype Bounds = Bounds(south: int, west: int)

  function Upper(c: char): char {
    if 'a' <= c <= 'z' then 'A' + (c - 'a') else c
  }

  /** The seven characters of the pattern, in either case. */
  predicate IsTileName(s: string) {
    && |s| == 7
    && Upper(s[0]) in {'N', 'S'} && IsDigits(s[1..3])
    && Upper(s[3]) in {'E', 'W'} && IsDigits(s[4..])
  }

  function ReadTileName(s: string): Bounds
    requires IsTileName(s)
  {
    Bounds(Number(s[1..3]) * (if Upper(s[0]) == 'S' then -1 else 1),
           Number(s[4..]) * (if Upper(s[3]) == 'W' then -1 else 1))
  }

  /** The pattern is not anchored: the first place in the name where it matches counts. */
  function ParseHgtTileName(name: string): Result<Bounds, string> {
    if |name| < 7 then Err("Invalid HGT tile name")
    else if IsTileName(name[..7]) then Ok(ReadTileName(name[..7]))
    else ParseHgtTileName(name[1..])
  }

  predicate InTileRange(lat: int, lon: int) {
    -90 <= lat <= 89 && -180 <= lon <= 179
  }

  lemma TwoDigits(n: nat)
    requires n < 100
    ensures PadStart(Decimal(n), 2) == [DigitChar(n / 10), DigitChar(n % 10)]
    ensures IsDigits(PadStart(Decimal(n), 2)) && Number(PadStart(Decimal(n), 2)) == n
  {
    var s := PadStart(Decimal(n), 2);
    if n < 10 {
      assert "0" + Decimal(n) == ['0', DigitChar(n)];
      assert s == PadStart("0" + Decimal(n), 2) == "0" + Decimal(n);
    }
    NumberOfTwo(n / 10, n % 10);
  }

  lemma NumberOfTwo(a: nat, b: nat)
    requires a < 10 && b < 10
    ensures Number([DigitChar(a), DigitChar(b)]) == 10 * a + b
  {
    var s := [DigitChar(a), DigitChar(b)];
    assert s[..1] == [DigitChar(a)] && s[..1][..0] == "";
    DigitValueOfChar(a);
    DigitValueOfChar(b);
    assert Number(s[..1]) == a;
  }

  lemma NumberOfThree(a: nat, b: nat, c: nat)
    requires a < 10 && b < 10 && c < 10
    ensures Number([DigitChar(a), DigitChar(b), DigitChar(c)]) == 100 * a + 10 * b + c
  {
    var s := [DigitChar(a), DigitChar(b), DigitChar(c)];
    assert s[..2] == [DigitChar(a), DigitChar(b)];
    NumberOfTwo(a, b);
    DigitValueOfChar(c);
  }

  lemma PadToThree(s: string)
    ensures |s| == 1 ==> PadStart(s, 3) == "00" + s
    ensures |s| == 2 ==> PadStart(s, 3) == "0" + s
    ensures |s| == 3 ==> PadStart(s, 3) == s
  {
    if |s| == 1 {
      assert "0" + ("0" + s) == "00" + s;
      assert PadStart("0" + s, 3) == PadStart("0" + ("0" + s), 3);
    } else if |s| == 2 {
      assert PadStart(s, 3) == PadStart("0" + s, 3);
    }
  }

  lemma DecimalDigits(n: nat)
    requires n < 1000
    ensures n < 10 ==> Decimal(n) == [DigitChar(n)]
    ensures 10 <= n < 100 ==> Decimal(n) == [DigitChar(n / 10), DigitChar(n % 10)]
    ensures 100 <= n ==> Decimal(n) == [DigitChar(n / 100), DigitChar(n / 10 % 10), DigitChar(n % 10)]
  {
    if 100 <= n {
      assert n / 10 / 10 == n / 100;
      assert Decimal(n / 10) == [DigitChar(n / 100)] + [DigitChar(n / 10 % 10)];
    }
  }

  lemma ThreeCharacters(n: nat)
    requires n < 1000
    ensures PadStart(Decimal(n), 3) == [DigitChar(n / 100), DigitChar(n / 10 % 10), DigitChar(n % 10)]
  {
    DecimalDigits(n);
    PadToThree(Decimal(n));
  }

  lemma ThreeDigits(n: nat)
    requires n < 1000
    ensures |PadStart(Decimal(n), 3)| == 3
    ensures IsDigits(PadStart(Decimal(n), 3)) && Number(PadStart(Decimal(n), 3)) == n
  {
    ThreeCharacters(n);
    NumberOfThree(n / 100, n / 10 % 10, n % 10);
  }

  lemma PrintedIsTileName(lat: int, lon: int)
    requires -99 <= lat <= 99 && -999 <= lon <= 999
    ensures IsTileName(HgtTileName(lat, lon))
  {
    var name := HgtTileName(lat, lon);
    TwoDigits(Abs(lat));
    ThreeDigits(Abs(lon));
    assert name[1..3] == PadStart(Decimal(Abs(lat)), 2);
    assert name[4..] == PadStart(Decimal(Abs(lon)), 3);
  }

  /** The parser reads back every name the printer makes, on the whole range of two-digit latitudes and
      three-digit longitudes. */
  lemma ParseInvertsName(lat: int, lon: int)
    requires -99 <= lat <= 99 && -999 <= lon <= 999
    ensures |HgtTileName(lat, lon)| == 7
    ensures ParseHgtTileName(HgtTileName(lat, lon)) == Ok(Bounds(lat, lon))
  {
    var name := HgtTileName(lat, lon);
    TwoDigits(Abs(lat));
    ThreeDigits(Abs(lon));
    assert name[..7] == name;
    assert name[1..3] == PadStart(Decimal(Abs(lat)), 2);
    assert name[4..] == PadStart(Decimal(Abs(lon)), 3);
  }

  predicate IsDecimalDigit(c: char, value: int) {
    0 <= value <= 9 && c as int == '0' as int + value
  }

  /** A name spelled out: the hemispheres by the signs, and the degrees in two and in three decimal digits. */
  lemma NameIsSpelled(lat: int, lon: int)
    requires -99 <= lat <= 99 && -999 <= lon <= 999
    ensures var name := HgtTileName(lat, lon);
            && |name| == 7
            && name[0] == (if lat < 0 then 'S' else 'N') && name[3] == (if lon < 0 then 'W' else 'E')
            && IsDecimalDigit(name[1], Abs(lat) / 10) && IsDecimalDigit(name[2], Abs(lat) % 10)
            && IsDecimalDigit(name[4], Abs(lon) / 100) && IsDecimalDigit(name[5], Abs(lon) / 10 % 10)
            && IsDecimalDigit(name[6], Abs(lon) % 10)
    ensures Abs(lat) == (if lat < 0 then -lat else lat) && Abs(lon) == (if lon < 0 then -lon else lon)
  {
    TwoDigits(Abs(lat));
    ThreeCharacters(Abs(lon));
    var two, three := PadStart(Decimal(Abs(lat)), 2), PadStart(Decimal(Abs(lon)), 3);
    var name := HgtTileName(lat, lon);
    assert name[1] == two[0] && name[2] == two[1];
    assert name[4] == three[0] && name[5] == three[1] && name[6] == three[2];
  }

  lemma NamesAreDistinct(lat: int, lon: int, lat': int, lon': int)
    requires InTileRange(lat, lon) && InTileRange(lat', lon')
    requires HgtTileName(lat, lon) == HgtTileName(lat', lon')
    ensures lat == lat' && lon == lon'
  {
    ParseInvertsName(lat, lon);
    ParseInvertsName(lat', lon');
  }

  lemma {:induction false} PaddedNumber(s: string, width: nat)
    requires IsDigits(s) && |s| == width && width in {2, 3}
    ensures PadStart(Decimal(Number(s)), width) == s
  {
    if width == 2 {
      assert s == [DigitChar(DigitValue(s[0])), DigitChar(DigitValue(s[1]))];
      NumberOfTwo(DigitValue(s[0]), DigitValue(s[1]));
      TwoDigits(Number(s));
    } else {
      var a, b, c := DigitValue(s[0]), DigitValue(s[1]), DigitValue(s[2]);
      assert s == [DigitChar(a), DigitChar(b), DigitChar(c)];
      NumberOfThree(a, b, c);
      assert Number(s) / 100 == a && Number(s) / 10 % 10 == b && Number(s) % 10 == c;
      ThreeCharacters(Number(s));
    }
  }

  /** The printer gives a seven-character name back exactly when its letters are upper case and neither
      coordinate is a negative zero. */
  lemma NameInvertsParse(name: string)
    requires IsTileName(name)
    ensures var b := ReadTileName(name);
            HgtTileName(b.south, b.west) == name
            <==> && name[0] in {'N', 'S'} && name[3] in {'E', 'W'}
                 && (name[0] == 'S' ==> Number(name[1..3]) != 0)
                 && (name[3] == 'W' ==> Number(name[4..]) != 0)
  {
    var b := ReadTileName(name);
    PaddedNumber(name[1..3], 2);
    PaddedNumber(name[4..], 3);
    assert name == [name[0]] + name[1..3] + [name[3]] + name[4..];
    var printed := HgtTileName(b.south, b.west);
    assert printed == [if b.south >= 0 then 'N' else 'S'] + name[1..3] + [if b.west >= 0 then 'E' else 'W'] + name[4..];
    assert printed[0] == if b.south >= 0 then 'N' else 'S';
    assert printed[3] == if b.west >= 0 then 'E' else 'W';
    assert name[1..3] == printed[1..3] && name[4..] == printed[4..];
  }

  // ----- The tiles that cover a box -----

  datatype Box = Box(minLon: real, minLat: real, maxLon: real, maxLat: real)

  function Ceil(r: real): int {
    -((-r).Floor)
  }

  function ClampReal(low: real, high: real, r: real): real {
    if r > high then high else if r < low then low else r
  }

  function ClampInt(low: int, high: int, n: int): int {
    Max(low, Min(high, n))
  }

  function FirstCell(low: int, high: int, r: real): int {
    ClampReal(low as real, high as real, r).Floor
  }

  function LastCell(low: int, high: int, r: real): int {
    ClampInt(low, high, Ceil(r) - 1)
  }

  /** A degree cell meets the inside of an interval. */
  predicate Overlaps(cell: int, min: real, max: real) {
    (cell as real) < max && min < (cell + 1) as real
  }

  /** The cells an interval selects among those from low to high: those that meet its inside and, for an
      interval beyond an end of the range, the cell at that end. */
  predicate Selected(low: int, high: int, min: real, max: real, cell: int) {
    && low <= cell <= high
    && (|| Overlaps(cell, min, max)
        || (cell == low && max <= low as real && min < (low + 1) as real)
        || (cell == high && (high + 1) as real <= min && high as real < max))
  }

  /** The cells from the first to the last are the selected ones, whatever the interval. */
  lemma CellsAreSelected(low: int, high: int, min: real, max: real, cell: int)
    requires low < high
    ensures FirstCell(low, high, min) <= cell <= LastCell(low, high, max) <==> Selected(low, high, min, max, cell)
  {
    var f := (-max).Floor;
    assert f as real <= -max < (f + 1) as real;
    var g := ClampReal(low as real, high as real, min);
    assert g.Floor as real <= g < (g.Floor + 1) as real;
  }

  /** Inside the range those are exactly the cells that meet the inside of the interval. */
  lemma CellsAreThoseThatOverlap(low: int, high: int, min: real, max: real, cell: int)
    requires low <= high && low as real <= min < max <= (high + 1) as real
    ensures FirstCell(low, high, min) <= cell <= LastCell(low, high, max) <==> Overlaps(cell, min, max)
    ensures Overlaps(cell, min, max) ==> low <= cell <= high
  {
    var f := (-max).Floor;
    assert f as real <= -max < (f + 1) as real;
    var g := ClampReal(low as real, high as real, min);
    assert g.Floor as real <= g < (g.Floor + 1) as real;
  }

  /** Every point of the closed interval lies in a closed cell that meets its inside. */
  lemma OverlappingCellsCover(min: real, max: real, x: real) returns (cell: int)
    requires min < max && min <= x <= max
    ensures Overlaps(cell, min, max) && cell as real <= x <= (cell + 1) as real
  {
    if x == min || x < max {
      cell := x.Floor;
    } else {
      cell := Ceil(x) - 1;
    }
  }

  function StripSuffix(tile: string): string {
    if |tile| >= 7 && LowerText(tile[|tile| - 7..]) == ".hgt.gz" then tile[..|tile| - 7]
    else if |tile| >= 4 && LowerText(tile[|tile| - 4..]) == ".hgt" then tile[..|tile| - 4]
    else tile
  }

  function LowerText(s: string): string {
    seq(|s|, i requires 0 <= i < |s| => if 'A' <= s[i] <= 'Z' then 'a' + (s[i] - 'A') else s[i])
  }

  function UpperText(s: string): string {
    seq(|s|, i requires 0 <= i < |s| => Upper(s[i]))
  }

  /** The explicit tile names that survive cleaning, in order. */
  function Cleaned(tiles: seq<string>): seq<string> {
    if tiles == [] then []
    else
      var name := UpperText(StripSuffix(tiles[|tiles| - 1]));
      Cleaned(tiles[..|tiles| - 1]) + (if IsTileName(name) then [name] else [])
  }

  /** The same letter, or the same other character, up to case. */
  predicate SameUpToCase(c: char, d: char) {
    || c == d
    || ('a' <= c <= 'z' && 'A' <= d <= 'Z' && c as int - 'a' as int == d as int - 'A' as int)
    || ('A' <= c <= 'Z' && 'a' <= d <= 'z' && c as int - 'A' as int == d as int - 'a' as int)
  }

  predicate SameTextUpToCase(s: string, t: string) {
    |s| == |t| && forall i :: 0 <= i < |s| ==> SameUpToCase(s[i], t[i])
  }

  /** The listed text spells this name: up to case, and up to one suffix of a downloaded file. */
  predicate Spells(text: string, name: string) {
    || SameTextUpToCase(text, name)
    || SameTextUpToCase(text, name + ".hgt")
    || SameTextUpToCase(text, name + ".hgt.gz")
  }

  /** A tile name in capitals: N or S, two digits, E or W, three digits. */
  predicate IsCapitalName(s: string) {
    && |s| == 7 && (s[0] == 'N' || s[0] == 'S') && (s[3] == 'E' || s[3] == 'W')
    && forall i :: i in {1, 2, 4, 5, 6} ==> '0' <= s[i] <= '9'
  }

  lemma CapitalNames(s: string)
    ensures IsTileName(UpperText(s)) ==> IsCapitalName(UpperText(s))
    ensures IsCapitalName(s) ==> IsTileName(s) && UpperText(s) == s
  {
    var u := UpperText(s);
    if IsTileName(u) {
      assert IsDigits(u[1..3]) && IsDigits(u[4..]);
      assert u[1..3][0] == u[1] && u[1..3][1] == u[2];
      assert u[4..][0] == u[4] && u[4..][1] == u[5] && u[4..][2] == u[6];
    }
    if IsCapitalName(s) {
      assert forall i :: 0 <= i < 2 ==> s[1..3][i] == s[1 + i];
      assert forall i :: 0 <= i < 3 ==> s[4..][i] == s[4 + i];
      assert forall i :: 0 <= i < 7 ==> Upper(s[i]) == s[i];
    }
  }

  /** Capitalising is the only way to reach a capital name up to case. */
  lemma UpperReaches(s: string, name: string)
    requires IsCapitalName(name)
    ensures SameTextUpToCase(s, name) <==> UpperText(s) == name
  {
    if SameTextUpToCase(s, name) {
      forall i | 0 <= i < |s| ensures Upper(s[i]) == name[i] {
        assert SameUpToCase(s[i], name[i]);
        assert '0' <= name[i] <= '9' || 'A' <= name[i] <= 'Z';
      }
    }
    if UpperText(s) == name {
      forall i | 0 <= i < |s| ensures SameUpToCase(s[i], name[i]) {
        assert name[i] == Upper(s[i]);
      }
    }
  }

  lemma LowerReaches(s: string, suffix: string)
    requires suffix == ".hgt" || suffix == ".hgt.gz"
    ensures LowerText(s) == suffix <==> SameTextUpToCase(s, suffix)
  {
    if SameTextUpToCase(s, suffix) {
      forall i | 0 <= i < |s| ensures LowerText(s)[i] == suffix[i] {
        assert SameUpToCase(s[i], suffix[i]);
        assert suffix[i] == '.' || 'a' <= suffix[i] <= 'z';
      }
    }
    if LowerText(s) == suffix {
      forall i | 0 <= i < |s| ensures SameUpToCase(s[i], suffix[i]) {
        assert suffix[i] == LowerText(s)[i];
      }
    }
  }

  lemma SameInParts(s: string, head: string, tail: string)
    ensures SameTextUpToCase(s, head + tail) <==>
              |s| == |head| + |tail| && SameTextUpToCase(s[..|head|], head) && SameTextUpToCase(s[|head|..], tail)
  {
    if |s| == |head| + |tail| {
      forall i | 0 <= i < |s|
        ensures SameUpToCase(s[i], (head + tail)[i]) <==>
                  if i < |head| then SameUpToCase(s[..|head|][i], head[i])
                  else SameUpToCase(s[|head|..][i - |head|], tail[i - |head|])
      {
      }
      if SameTextUpToCase(s, head + tail) {
        forall j | 0 <= j < |tail| ensures SameUpToCase(s[|head|..][j], tail[j]) {
          assert SameUpToCase(s[|head| + j], (head + tail)[|head| + j]);
        }
      }
    }
  }

  /** The last character of a text tells which of the three spellings it can be. */
  lemma LastCharacterTells(text: string, name: string)
    requires IsCapitalName(name)
    ensures SameTextUpToCase(text, name) ==> text != [] && '0' <= text[|text| - 1] <= '9'
    ensures SameTextUpToCase(text, name + ".hgt") ==> text != [] && text[|text| - 1] in {'t', 'T'}
    ensures SameTextUpToCase(text, name + ".hgt.gz") ==> text != [] && text[|text| - 1] in {'z', 'Z'}
  {
    var short, long := name + ".hgt", name + ".hgt.gz";
    assert short[10] == 't' && long[13] == 'z' && |short| == 11 && |long| == 14;
    assert SameTextUpToCase(text, name) ==> SameUpToCase(text[6], name[6]);
    assert SameTextUpToCase(text, short) ==> SameUpToCase(text[10], short[10]);
    assert SameTextUpToCase(text, long) ==> SameUpToCase(text[13], long[13]);
  }

  lemma EndingsTell(text: string)
    ensures |text| >= 7 && SameTextUpToCase(text[|text| - 7..], ".hgt.gz") ==> text[|text| - 1] in {'z', 'Z'}
    ensures |text| >= 4 && SameTextUpToCase(text[|text| - 4..], ".hgt") ==> text[|text| - 1] in {'t', 'T'}
  {
    if |text| >= 7 && SameTextUpToCase(text[|text| - 7..], ".hgt.gz") {
      assert SameUpToCase(text[|text| - 7..][6], ".hgt.gz"[6]);
    }
    if |text| >= 4 && SameTextUpToCase(text[|text| - 4..], ".hgt") {
      assert SameUpToCase(text[|text| - 4..][3], ".hgt"[3]);
    }
  }

  /** The cleaning of one text reaches a capital name exactly when the text spells it. */
  lemma CleaningReadsSpelling(text: string, name: string)
    requires IsCapitalName(name)
    ensures UpperText(StripSuffix(text)) == name <==> Spells(text, name)
  {
    SameInParts(text, name, ".hgt");
    SameInParts(text, name, ".hgt.gz");
    LastCharacterTells(text, name);
    EndingsTell(text);
    if |text| >= 7 {
      LowerReaches(text[|text| - 7..], ".hgt.gz");
    }
    if |text| >= 4 {
      LowerReaches(text[|text| - 4..], ".hgt");
    }
    if |text| >= 7 && SameTextUpToCase(text[|text| - 7..], ".hgt.gz") {
      UpperReaches(text[..|text| - 7], name);
      assert StripSuffix(text) == text[..|text| - 7];
    } else if |text| >= 4 && SameTextUpToCase(text[|text| - 4..], ".hgt") {
      UpperReaches(text[..|text| - 4], name);
      assert StripSuffix(text) == text[..|text| - 4];
    } else {
      UpperReaches(text, name);
      assert StripSuffix(text) == text;
    }
  }

  /** Some listed text spells the name. */
  predicate SpelledIn(tiles: seq<string>, name: string) {
    exists i :: 0 <= i < |tiles| && Spells(tiles[i], name)
  }

  lemma SpelledInParts(tiles: seq<string>, name: string)
    requires tiles != []
    ensures SpelledIn(tiles, name) <==> SpelledIn(tiles[..|tiles| - 1], name) || Spells(tiles[|tiles| - 1], name)
  {
    assert forall i :: 0 <= i < |tiles| - 1 ==> tiles[..|tiles| - 1][i] == tiles[i];
  }

  lemma CleaningKeepsSpelling(text: string, name: string)
    ensures IsTileName(UpperText(StripSuffix(text))) && UpperText(StripSuffix(text)) == name
       <==> IsCapitalName(name) && Spells(text, name)
  {
    CapitalNames(StripSuffix(text));
    CapitalNames(name);
    if IsCapitalName(name) {
      CleaningReadsSpelling(text, name);
    }
  }

  /** Cleaning keeps exactly the capital tile names that some listed text spells. */
  lemma {:induction false} CleanedAreSpelled(tiles: seq<string>, name: string)
    ensures name in Cleaned(tiles) <==> IsCapitalName(name) && SpelledIn(tiles, name)
  {
    if tiles != [] {
      var n := |tiles| - 1;
      CleanedAreSpelled(tiles[..n], name);
      CleaningKeepsSpelling(tiles[n], name);
      SpelledInParts(tiles, name);
    }
  }

  lemma {:induction false} CleanedAreTileNames(tiles: seq<string>)
    ensures forall name :: name in Cleaned(tiles) ==> IsTileName(name) && UpperText(name) == name
  {
    if tiles != [] {
      CleanedAreTileNames(tiles[..|tiles| - 1]);
      var s := StripSuffix(tiles[|tiles| - 1]);
      assert UpperText(UpperText(s)) == UpperText(s);
    }
  }

  predicate InsideGlobe(b: Box) {
    -90.0 <= b.minLat < b.maxLat <= 90.0 && -180.0 <= b.minLon < b.maxLon <= 180.0
  }

  predicate OverlapsBox(lat: int, lon: int, b: Box) {
    Overlaps(lat, b.minLat, b.maxLat) && Overlaps(lon, b.minLon, b.maxLon)
  }

  /** The tiles of the globe that any box selects. */
  predicate SelectedByBox(lat: int, lon: int, b: Box) {
    Selected(-90, 89, b.minLat, b.maxLat, lat) && Selected(-180, 179, b.minLon, b.maxLon, lon)
  }

  /** The list is in code-unit order and names no tile twice. */
  predicate SortedSet(tiles: seq<string>) {
    Sorted(tiles, TextLe) && Distinct(tiles)
  }

  /** The names in rows from..to-1 and, in each, every column from first to last. */
  ghost predicate NamesOf(tiles: seq<string>, minLat: int, endLat: int, minLon: int, maxLon: int) {
    forall name :: name in tiles <==>
      exists lat, lon :: minLat <= lat < endLat && minLon <= lon <= maxLon && name == HgtTileName(lat, lon)
  }

  method PushRow(tiles: seq<string>, lat: int, minLon: int, maxLon: int) returns (extended: seq<string>)
    ensures forall name :: name in extended <==>
              name in tiles || exists lon :: minLon <= lon <= maxLon && name == HgtTileName(lat, lon)
  {
    extended := tiles;
    var lon := minLon;
    while lon <= maxLon
      invariant lon <= Max(minLon, maxLon + 1)
      invariant minLon <= lon
      invariant forall name :: name in extended <==>
                  name in tiles || exists l :: minLon <= l < lon && name == HgtTileName(lat, l)
      decreases maxLon - lon
    {
      extended := extended + [HgtTileName(lat, lon)];
      lon := lon + 1;
    }
  }

  /** resolveDemTileNames. Explicit names win over bounds; any bounds give exactly the tiles they select,
      which for bounds inside the globe are those whose interiors meet the box. The answer is always a
      sorted set of tile names. */
  method ResolveDemTileNames(explicit: seq<string>, bounds: Option<Box>) returns (tiles: seq<string>)
    ensures SortedSet(tiles) && forall name :: name in tiles ==> IsTileName(name)
    ensures Cleaned(explicit) != [] ==> forall name :: name in tiles <==> name in Cleaned(explicit)
    ensures forall name :: name in Cleaned(explicit) <==>
              IsCapitalName(name) && SpelledIn(explicit, name)
    ensures Cleaned(explicit) == [] && bounds.None? ==> tiles == []
    ensures Cleaned(explicit) == [] && bounds.Some? ==>
              forall name :: name in tiles <==>
                exists lat, lon :: SelectedByBox(lat, lon, bounds.value) && name == HgtTileName(lat, lon)
    ensures Cleaned(explicit) == [] && bounds.Some? && InsideGlobe(bounds.value) ==>
              forall name :: name in tiles <==>
                exists lat, lon :: OverlapsBox(lat, lon, bounds.value) && name == HgtTileName(lat, lon)
  {
    TextLeIsTotal();
    forall name
      ensures name in Cleaned(explicit) <==>
                IsCapitalName(name) && SpelledIn(explicit, name)
    {
      CleanedAreSpelled(explicit, name);
    }
    var cleaned := Cleaned(explicit);
    if cleaned != [] {
      CleanedAreTileNames(explicit);
      tiles := SortedUnique(cleaned);
      return;
    }
    if bounds.None? {
      return [];
    }
    var b := bounds.value;
    tiles := TilesOfBounds(b);
    CellsNameTiles(b, tiles);
    tiles := SortedUnique(tiles);
  }

  /** The two nested loops, in the order they push. */
  method TilesOfBounds(b: Box) returns (tiles: seq<string>)
    ensures NamesOf(tiles, FirstCell(-90, 89, b.minLat), LastCell(-90, 89, b.maxLat) + 1,
                    FirstCell(-180, 179, b.minLon), LastCell(-180, 179, b.maxLon))
  {
    var minLat := FirstCell(-90, 89, b.minLat);
    var maxLat := LastCell(-90, 89, b.maxLat);
    var minLon := FirstCell(-180, 179, b.minLon);
    var maxLon := LastCell(-180, 179, b.maxLon);
    tiles := [];
    var lat := minLat;
    while lat <= maxLat
      invariant minLat <= lat <= Max(minLat, maxLat + 1)
      invariant NamesOf(tiles, minLat, lat, minLon, maxLon)
      decreases maxLat - lat
    {
      tiles := PushRow(tiles, lat, minLon, maxLon);
      lat := lat + 1;
    }
  }

  lemma CellsNameTiles(b: Box, tiles: seq<string>)
    requires NamesOf(tiles, FirstCell(-90, 89, b.minLat), LastCell(-90, 89, b.maxLat) + 1,
                     FirstCell(-180, 179, b.minLon), LastCell(-180, 179, b.maxLon))
    ensures forall name :: name in tiles <==>
              exists lat, lon :: SelectedByBox(lat, lon, b) && name == HgtTileName(lat, lon)
    ensures InsideGlobe(b) ==>
              forall name :: name in tiles <==>
                exists lat, lon :: OverlapsBox(lat, lon, b) && name == HgtTileName(lat, lon)
    ensures forall name :: name in tiles ==> IsTileName(name)
  {
    forall lat: int, lon: int
      ensures FirstCell(-90, 89, b.minLat) <= lat < LastCell(-90, 89, b.maxLat) + 1
              && FirstCell(-180, 179, b.minLon) <= lon <= LastCell(-180, 179, b.maxLon)
              <==> SelectedByBox(lat, lon, b)
      ensures InsideGlobe(b) ==> (SelectedByBox(lat, lon, b) <==> OverlapsBox(lat, lon, b))
    {
      CellsAreSelected(-90, 89, b.minLat, b.maxLat, lat);
      CellsAreSelected(-180, 179, b.minLon, b.maxLon, lon);
    }
    forall name | name in tiles ensures IsTileName(name) {
      var lat, lon :| SelectedByBox(lat, lon, b) && name == HgtTileName(lat, lon);
      PrintedIsTileName(lat, lon);
    }
  }

  method SortedUnique(names: seq<string>) returns (tiles: seq<string>)
    ensures SortedSet(tiles) && forall name :: name in tiles <==> name in names
  {
    TextLeIsTotal();
    UniqueIsDistinct(names);
    SortSorts(Unique(names), TextLe);
    SortKeepsDistinct(Unique(names), TextLe);
    tiles := Sort(Unique(names), TextLe);
    forall name ensures name in tiles <==> name in Unique(names) {
      assert name in multiset(tiles) <==> name in multiset(Unique(names));
    }
  }

  /** Any list of names that is exactly the overlapping tiles covers the box: read back by the elevation
      service's parser, one of them contains each point of the closed box, and every one of them overlaps
      its interior and lies on the globe. */
  lemma ListCoversBox(b: Box, tiles: seq<string>, longitude: real, latitude: real)
    requires InsideGlobe(b)
    requires forall name :: name in tiles <==>
               exists lat, lon :: OverlapsBox(lat, lon, b) && name == HgtTileName(lat, lon)
    ensures b.minLon <= longitude <= b.maxLon && b.minLat <= latitude <= b.maxLat ==>
              exists name :: name in tiles && ParseHgtTileName(name).Ok? &&
                var t := ParseHgtTileName(name).value;
                && t.south as real <= latitude <= (t.south + 1) as real
                && t.west as real <= longitude <= (t.west + 1) as real
    ensures forall name :: name in tiles ==>
              ParseHgtTileName(name).Ok? &&
              var t := ParseHgtTileName(name).value;
              OverlapsBox(t.south, t.west, b) && InTileRange(t.south, t.west)
  {
    forall name | name in tiles
      ensures ParseHgtTileName(name).Ok? &&
              var t := ParseHgtTileName(name).value;
              OverlapsBox(t.south, t.west, b) && InTileRange(t.south, t.west)
    {
      var lat, lon :| OverlapsBox(lat, lon, b) && name == HgtTileName(lat, lon);
      CellsAreThoseThatOverlap(-90, 89, b.minLat, b.maxLat, lat);
      CellsAreThoseThatOverlap(-180, 179, b.minLon, b.maxLon, lon);
      ParseInvertsName(lat, lon);
    }
    if b.minLon <= longitude <= b.maxLon && b.minLat <= latitude <= b.maxLat {
      var lat := OverlappingCellsCover(b.minLat, b.maxLat, latitude);
      var lon := OverlappingCellsCover(b.minLon, b.maxLon, longitude);
      CellsAreThoseThatOverlap(-90, 89, b.minLat, b.maxLat, lat);
      CellsAreThoseThatOverlap(-180, 179, b.minLon, b.maxLon, lon);
      ParseInvertsName(lat, lon);
      assert OverlapsBox(lat, lon, b);
      assert HgtTileName(lat, lon) in tiles;
    }
  }
}
