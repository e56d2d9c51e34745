/** The storage-key builders, the prefixes and the parser that recognises five kinds of key. */
module StoragePaths {
  import opened Prelude
  import opened Text

  datatype Format = Pmtiles | Mbtiles | Directory

  datatype BasemapArtifact = ManifestJson | TilesPmtiles | StyleJson

  datatype SpriteKind = Json | Png

  /** One constructor a builder. */
  datatype StorageKey =
    | UploadOriginal(account: string, upload: string, fileName: string)
    | DatasetVersion(account: string, dataset: string, version: nat, fileName: string)
    | TilesetVersion(account: string, tileset: string, version: nat, format: Format)
    | TilesetBuildArtifact(account: string, tileset: string, job: string, format: Format)
    | TilesetSourceArtifact(account: string, source: string, fileName: string)
    | StyleVersion(account: string, style: string, version: nat)
    | StyleThumbnail(account: string, style: string, version: nat)
    | AccountSpriteAsset(account: string, asset: string, fileName: string)
    | ProfileAvatar(account: string, avatar: string, fileName: string)
    | BasemapRelease(name: string, release: string, artifact: BasemapArtifact)
    | SpriteAsset(sprite: string, kind: SpriteKind, doubled: bool)
    | GlyphRange(fontStack: string, range: string)

  // ----- Safe segments -----

  predicate IsSafeChar(c: char) {
    'A' <= c <= 'Z' || 'a' <= c <= 'z' || '0' <= c <= '9' || c == '.' || c == '_' || c == '-'
  }

  predicate IsSafe(segment: string) {
    segment != "" && segment != "." && segment != ".." && forall i :: 0 <= i < |segment| ==> IsSafeChar(segment[i])
  }

  function FormatText(f: Format): string {
    match f
    case Pmtiles => "pmtiles"
    case Mbtiles => "mbtiles"
    case Directory => "directory"
  }

  function ArtifactText(a: BasemapArtifact): string {
    match a
    case ManifestJson => "manifest.json"
    case TilesPmtiles => "tiles.pmtiles"
    case StyleJson => "style.json"
  }

  function SpriteSuffix(kind: SpriteKind, doubled: bool): string {
    (if doubled then "@2x" else "") + (if kind.Json? then ".json" else ".png")
  }

  function TilesFile(f: Format): string {
    "tiles." + FormatText(f)
  }

  // ----- The builders -----

  /** The segments a builder passes through safeSegment, in the order it does. */
  function Checked(k: StorageKey): seq<string> {
    match k
    case UploadOriginal(a, u, f) => [a, u, f]
    case DatasetVersion(a, d, _, f) => [a, d, f]
    case TilesetVersion(a, t, _, _) => [a, t]
    case TilesetBuildArtifact(a, t, j, _) => [a, t, j]
    case TilesetSourceArtifact(a, s, f) => [a, s, f]
    case StyleVersion(a, s, _) => [a, s]
    case StyleThumbnail(a, s, _) => [a, s]
    case AccountSpriteAsset(a, s, f) => [a, s, f]
    case ProfileAvatar(a, v, f) => [a, v, f]
    case BasemapRelease(n, r, a) => [n, r, ArtifactText(a)]
    case SpriteAsset(s, _, _) => [s]
    case GlyphRange(f, r) => [f, r]
  }

  /** The segments of the key, with the version spelled by the given digits. */
  function Segments(k: StorageKey, digits: string): seq<string> {
    match k
    case UploadOriginal(a, u, f) => ["accounts", a, "uploads", u, "original", f]
    case DatasetVersion(a, d, _, f) => ["accounts", a, "datasets", d, "v" + digits, f]
    case TilesetVersion(a, t, _, f) => ["accounts", a, "tilesets", t, "v" + digits, TilesFile(f)]
    case TilesetBuildArtifact(a, t, j, f) => ["accounts", a, "tilesets", t, "builds", j, TilesFile(f)]
    case TilesetSourceArtifact(a, s, f) => ["accounts", a, "tileset-sources", s, f]
    case StyleVersion(a, s, _) => ["accounts", a, "styles", s, "v" + digits, "style.json"]
    case StyleThumbnail(a, s, _) => ["accounts", a, "styles", s, "v" + digits, "thumbnail.png"]
    case AccountSpriteAsset(a, s, f) => ["accounts", a, "sprite-assets", s, f]
    case ProfileAvatar(a, v, f) => ["accounts", a, "profile", "avatar", v, f]
    case BasemapRelease(n, r, a) => ["basemaps", n, r, ArtifactText(a)]
    case SpriteAsset(s, kind, doubled) => ["sprites", s + SpriteSuffix(kind, doubled)]
    case GlyphRange(f, r) => ["glyphs", f, r + ".pbf"]
  }

  predicate HasVersion(k: StorageKey) {
    k.DatasetVersion? || k.TilesetVersion? || k.StyleVersion? || k.StyleThumbnail?
  }

  function VersionDigits(k: StorageKey): string {
    if HasVersion(k) then Decimal(k.version) else ""
  }

  function Path(k: StorageKey): string {
    Join(Segments(k, VersionDigits(k)))
  }

  predicate AllSafe(segments: seq<string>) {
    forall i :: 0 <= i < |segments| ==> IsSafe(segments[i])
  }

  function FirstUnsafe(segments: seq<string>): string
    requires !AllSafe(segments)
  {
    if !IsSafe(segments[0]) then segments[0] else FirstUnsafe(segments[1..])
  }

  /** A builder: the key's path, or the first segment that is not safe. */
  function Build(k: StorageKey): Result<string, string> {
    if AllSafe(Checked(k)) then Ok(Path(k)) else Err(FirstUnsafe(Checked(k)))
  }

  // ----- The templates -----

  function FormatName(f: Format): string {
    match f
    case Pmtiles => "pmtiles"
    case Mbtiles => "mbtiles"
    case Directory => "directory"
  }

  function ArtifactName(a: BasemapArtifact): string {
    match a
    case ManifestJson => "manifest.json"
    case TilesPmtiles => "tiles.pmtiles"
    case StyleJson => "style.json"
  }

  /** The key of a builder as its template spells it, from left to right. */
  function Template(k: StorageKey): string {
    match k
    case UploadOriginal(a, u, f) => "accounts" + "/" + a + "/" + "uploads" + "/" + u + "/" + "original" + "/" + f
    case DatasetVersion(a, d, v, f) =>
      "accounts" + "/" + a + "/" + "datasets" + "/" + d + "/" + ("v" + Decimal(v)) + "/" + f
    case TilesetVersion(a, t, v, f) =>
      "accounts" + "/" + a + "/" + "tilesets" + "/" + t + "/" + ("v" + Decimal(v)) + "/" + ("tiles." + FormatName(f))
    case TilesetBuildArtifact(a, t, j, f) =>
      "accounts" + "/" + a + "/" + "tilesets" + "/" + t + "/" + "builds" + "/" + j + "/" + ("tiles." + FormatName(f))
    case TilesetSourceArtifact(a, s, f) => "accounts" + "/" + a + "/" + "tileset-sources" + "/" + s + "/" + f
    case StyleVersion(a, s, v) =>
      "accounts" + "/" + a + "/" + "styles" + "/" + s + "/" + ("v" + Decimal(v)) + "/" + "style.json"
    case StyleThumbnail(a, s, v) =>
      "accounts" + "/" + a + "/" + "styles" + "/" + s + "/" + ("v" + Decimal(v)) + "/" + "thumbnail.png"
    case AccountSpriteAsset(a, s, f) => "accounts" + "/" + a + "/" + "sprite-assets" + "/" + s + "/" + f
    case ProfileAvatar(a, v, f) => "accounts" + "/" + a + "/" + "profile" + "/" + "avatar" + "/" + v + "/" + f
    case BasemapRelease(n, r, a) => "basemaps" + "/" + n + "/" + r + "/" + ArtifactName(a)
    case SpriteAsset(s, kind, doubled) =>
      "sprites" + "/" + (s + ((if doubled then "@2x" else "") + (if kind.Json? then ".json" else ".png")))
    case GlyphRange(f, r) => "glyphs" + "/" + f + "/" + (r + ".pbf")
  }

  lemma JoinFirst(head: string, rest: seq<string>)
    requires rest != []
    ensures Join([head] + rest) == head + "/" + Join(rest)
  {
    assert ([head] + rest)[1..] == rest;
  }

  lemma JoinTwo(a: string, b: string)
    ensures Join([a, b]) == a + "/" + b
  {
    assert [a, b] == [a] + [b];
    JoinFirst(a, [b]);
  }

  lemma JoinThree(a: string, b: string, c: string)
    ensures Join([a, b, c]) == a + "/" + b + "/" + c
  {
    assert [a, b, c] == [a] + [b, c];
    JoinFirst(a, [b, c]);
    JoinTwo(b, c);
    assert a + "/" + (b + "/" + c) == a + "/" + b + "/" + c;
  }

  lemma JoinFour(a: string, b: string, c: string, d: string)
    ensures Join([a, b, c, d]) == a + "/" + b + "/" + c + "/" + d
  {
    assert [a, b, c, d] == [a] + [b, c, d];
    JoinFirst(a, [b, c, d]);
    JoinThree(b, c, d);
    assert a + "/" + (b + "/" + c + "/" + d) == a + "/" + b + "/" + c + "/" + d;
  }

  lemma JoinFive(a: string, b: string, c: string, d: string, e: string)
    ensures Join([a, b, c, d, e]) == a + "/" + b + "/" + c + "/" + d + "/" + e
  {
    assert [a, b, c, d, e] == [a] + [b, c, d, e];
    JoinFirst(a, [b, c, d, e]);
    JoinFour(b, c, d, e);
    assert a + "/" + (b + "/" + c + "/" + d + "/" + e) == a + "/" + b + "/" + c + "/" + d + "/" + e;
  }

  lemma JoinSix(a: string, b: string, c: string, d: string, e: string, f: string)
    ensures Join([a, b, c, d, e, f]) == a + "/" + b + "/" + c + "/" + d + "/" + e + "/" + f
  {
    assert [a, b, c, d, e, f] == [a] + [b, c, d, e, f];
    JoinFirst(a, [b, c, d, e, f]);
    JoinFive(b, c, d, e, f);
    assert a + "/" + (b + "/" + c + "/" + d + "/" + e + "/" + f) == a + "/" + b + "/" + c + "/" + d + "/" + e + "/" + f;
  }

  lemma JoinSeven(a: string, b: string, c: string, d: string, e: string, f: string, g: string)
    ensures Join([a, b, c, d, e, f, g]) == a + "/" + b + "/" + c + "/" + d + "/" + e + "/" + f + "/" + g
  {
    assert [a, b, c, d, e, f, g] == [a] + [b, c, d, e, f, g];
    JoinFirst(a, [b, c, d, e, f, g]);
    JoinSix(b, c, d, e, f, g);
    assert a + "/" + (b + "/" + c + "/" + d + "/" + e + "/" + f + "/" + g)
        == a + "/" + b + "/" + c + "/" + d + "/" + e + "/" + f + "/" + g;
  }

  lemma NamesAgree(f: Format, a: BasemapArtifact)
    ensures FormatText(f) == FormatName(f) && ArtifactText(a) == ArtifactName(a)
  {
  }

  lemma PathIsTemplate(k: StorageKey)
    ensures Path(k) == Template(k)
  {
    match k {
      case UploadOriginal(a, u, f) => JoinSix("accounts", a, "uploads", u, "original", f);
      case DatasetVersion(a, d, v, f) => JoinSix("accounts", a, "datasets", d, "v" + Decimal(v), f);
      case TilesetVersion(a, t, v, f) =>
        NamesAgree(f, StyleJson);
        JoinSix("accounts", a, "tilesets", t, "v" + Decimal(v), TilesFile(f));
      case TilesetBuildArtifact(a, t, j, f) =>
        NamesAgree(f, StyleJson);
        JoinSeven("accounts", a, "tilesets", t, "builds", j, TilesFile(f));
      case TilesetSourceArtifact(a, s, f) => JoinFive("accounts", a, "tileset-sources", s, f);
      case StyleVersion(a, s, v) => JoinSix("accounts", a, "styles", s, "v" + Decimal(v), "style.json");
      case StyleThumbnail(a, s, v) => JoinSix("accounts", a, "styles", s, "v" + Decimal(v), "thumbnail.png");
      case AccountSpriteAsset(a, s, f) => JoinFive("accounts", a, "sprite-assets", s, f);
      case ProfileAvatar(a, v, f) => JoinSix("accounts", a, "profile", "avatar", v, f);
      case BasemapRelease(n, r, a) =>
        NamesAgree(Pmtiles, a);
        JoinFour("basemaps", n, r, ArtifactText(a));
      case SpriteAsset(s, kind, doubled) => JoinTwo("sprites", s + SpriteSuffix(kind, doubled));
      case GlyphRange(f, r) => JoinThree("glyphs", f, r + ".pbf");
    }
  }

  /** Every builder gives the key its template spells, of the caller's own values each in its place, exactly
      when the segments it checks are safe; otherwise it names the first that is not. */
  lemma BuildsItsTemplate(k: StorageKey)
    ensures AllSafe(Checked(k)) ==> Build(k) == Ok(Template(k))
    ensures !AllSafe(Checked(k)) ==>
              exists i :: 0 <= i < |Checked(k)| && !IsSafe(Checked(k)[i]) && Build(k) == Err(Checked(k)[i])
                          && forall j :: 0 <= j < i ==> IsSafe(Checked(k)[j])
  {
    if AllSafe(Checked(k)) {
      PathIsTemplate(k);
    } else {
      var i := FirstUnsafeIsFirst(Checked(k));
    }
  }

  lemma {:induction false} FirstUnsafeIsFirst(segments: seq<string>) returns (i: nat)
    requires !AllSafe(segments)
    ensures i < |segments| && !IsSafe(segments[i]) && FirstUnsafe(segments) == segments[i]
    ensures forall j :: 0 <= j < i ==> IsSafe(segments[j])
  {
    if IsSafe(segments[0]) {
      var rest := FirstUnsafeIsFirst(segments[1..]);
      i := rest + 1;
    } else {
      i := 0;
    }
  }

  /** Built from its arguments, or refused with the first of them, in this order, that is not safe. */
  predicate BuiltFrom(k: StorageKey, first: string, second: string, third: string) {
    Build(k) == if !IsSafe(first) then Err(first) else if !IsSafe(second) then Err(second)
                else if !IsSafe(third) then Err(third) else Ok(Template(k))
  }

  lemma FirstOfThree(c: seq<string>)
    requires 1 <= |c| <= 3
    ensures AllSafe(c) <==> IsSafe(c[0]) && (|c| > 1 ==> IsSafe(c[1])) && (|c| > 2 ==> IsSafe(c[2]))
    ensures !AllSafe(c) ==>
              if !IsSafe(c[0]) then FirstUnsafe(c) == c[0]
              else |c| > 1 && if !IsSafe(c[1]) then FirstUnsafe(c) == c[1] else |c| > 2 && FirstUnsafe(c) == c[2]
  {
    if !AllSafe(c) {
      var i := FirstUnsafeIsFirst(c);
    }
  }

  /** What each builder checks, and in what order: every string it is given, as its template has them. */
  lemma ChecksEveryArgument(k: StorageKey)
    ensures match k
            case UploadOriginal(a, u, f) => BuiltFrom(k, a, u, f)
            case DatasetVersion(a, d, _, f) => BuiltFrom(k, a, d, f)
            case TilesetVersion(a, t, _, _) => BuiltFrom(k, a, t, "-")
            case TilesetBuildArtifact(a, t, j, _) => BuiltFrom(k, a, t, j)
            case TilesetSourceArtifact(a, s, f) => BuiltFrom(k, a, s, f)
            case StyleVersion(a, s, _) => BuiltFrom(k, a, s, "-")
            case StyleThumbnail(a, s, _) => BuiltFrom(k, a, s, "-")
            case AccountSpriteAsset(a, s, f) => BuiltFrom(k, a, s, f)
            case ProfileAvatar(a, v, f) => BuiltFrom(k, a, v, f)
            case BasemapRelease(n, r, _) => BuiltFrom(k, n, r, "-")
            case SpriteAsset(s, _, _) => BuiltFrom(k, s, "-", "-")
            case GlyphRange(f, r) => BuiltFrom(k, f, r, "-")
  {
    BuildsItsTemplate(k);
    FirstOfThree(Checked(k));
    if k.BasemapRelease? {
      ArtifactReads(k.artifact);
    }
  }

  /** The characters of a safe segment by their code units: capitals, small letters, digits, and the hyphen,
      the full stop and the underscore. */
  lemma SafeAlphabet(c: char)
    ensures var n := c as int;
            IsSafeChar(c) <==> 65 <= n <= 90 || 97 <= n <= 122 || 48 <= n <= 57 || n == 45 || n == 46 || n == 95
  {
  }

  // ----- The parser -----

  function ReadFormat(file: string): Option<Format> {
    if file == "tiles.pmtiles" then Some(Pmtiles)
    else if file == "tiles.mbtiles" then Some(Mbtiles)
    else if file == "tiles.directory" then Some(Directory)
    else None
  }

  function ReadArtifact(file: string): Option<BasemapArtifact> {
    if file == "manifest.json" then Some(ManifestJson)
    else if file == "tiles.pmtiles" then Some(TilesPmtiles)
    else if file == "style.json" then Some(StyleJson)
    else None
  }

  predicate IsVersionSegment(s: string) {
    s != "" && s[0] == 'v' && IsDigits(s[1..])
  }

  /** The ordered patterns, each read on the segments between slashes: a capture of one or more
      non-slash characters is a non-empty segment. */
  function ParseSegments(p: seq<string>): Option<StorageKey> {
    if |p| == 6 && p[0] == "accounts" && p[1] != "" && p[2] == "uploads" && p[3] != ""
       && p[4] == "original" && p[5] != ""
    then Some(UploadOriginal(p[1], p[3], p[5]))
    else if |p| == 6 && p[0] == "accounts" && p[1] != "" && p[2] == "tilesets" && p[3] != ""
            && IsVersionSegment(p[4]) && ReadFormat(p[5]).Some?
    then Some(TilesetVersion(p[1], p[3], Number(p[4][1..]), ReadFormat(p[5]).value))
    else if |p| == 7 && p[0] == "accounts" && p[1] != "" && p[2] == "tilesets" && p[3] != ""
            && p[4] == "builds" && p[5] != "" && ReadFormat(p[6]).Some?
    then Some(TilesetBuildArtifact(p[1], p[3], p[5], ReadFormat(p[6]).value))
    else if |p| == 5 && p[0] == "accounts" && p[1] != "" && p[2] == "tileset-sources" && p[3] != "" && p[4] != ""
    then Some(TilesetSourceArtifact(p[1], p[3], p[4]))
    else if |p| == 4 && p[0] == "basemaps" && p[1] != "" && p[2] != "" && ReadArtifact(p[3]).Some?
    then Some(BasemapRelease(p[1], p[2], ReadArtifact(p[3]).value))
    else None
  }

  function ParseStoragePath(path: string): Option<StorageKey> {
    ParseSegments(Split(path))
  }

  predicate Recognised(k: StorageKey) {
    k.UploadOriginal? || k.TilesetVersion? || k.TilesetBuildArtifact? || k.TilesetSourceArtifact? || k.BasemapRelease?
  }

  // ----- Segments determine the key -----

  lemma FormatReads(f: Format)
    ensures ReadFormat(TilesFile(f)) == Some(f)
  {
    assert TilesFile(Pmtiles) == "tiles.pmtiles" && TilesFile(Mbtiles) == "tiles.mbtiles";
    assert TilesFile(Directory) == "tiles.directory";
    assert "tiles.pmtiles"[6] == 'p' && "tiles.mbtiles"[6] == 'm' && "tiles.directory"[6] == 'd';
  }

  lemma FilesAreRead(file: string)
    ensures ReadFormat(file).Some? ==> TilesFile(ReadFormat(file).value) == file
    ensures ReadArtifact(file).Some? ==> ArtifactText(ReadArtifact(file).value) == file
  {
    assert TilesFile(Pmtiles) == "tiles.pmtiles" && TilesFile(Mbtiles) == "tiles.mbtiles";
    assert TilesFile(Directory) == "tiles.directory";
  }

  lemma ArtifactReads(a: BasemapArtifact)
    ensures ReadArtifact(ArtifactText(a)) == Some(a) && IsSafe(ArtifactText(a))
  {
  }

  lemma SafeIsSlashFree(s: string)
    requires IsSafe(s)
    ensures SlashFree(s) && '@' !in s
  {
    assert forall i :: 0 <= i < |s| ==> IsSafeChar(s[i]) && s[i] != '/' && s[i] != '@';
  }

  lemma SuffixesAreSlashFree(kind: SpriteKind, doubled: bool)
    ensures SlashFree(SpriteSuffix(kind, doubled)) && SlashFree(".pbf") && SlashFree("v")
  {
  }

  lemma FilesAreSlashFree(f: Format, a: BasemapArtifact)
    ensures SlashFree(TilesFile(f)) && SlashFree(ArtifactText(a))
    ensures SlashFree("style.json") && SlashFree("thumbnail.png")
  {
  }

  lemma LiteralsAreSlashFree()
    ensures SlashFree("accounts") && SlashFree("uploads") && SlashFree("original") && SlashFree("datasets")
    ensures SlashFree("tilesets") && SlashFree("builds") && SlashFree("tileset-sources") && SlashFree("styles")
    ensures SlashFree("sprite-assets") && SlashFree("profile") && SlashFree("avatar")
    ensures SlashFree("basemaps") && SlashFree("sprites") && SlashFree("glyphs")
  {
  }

  predicate Captured(s: string) {
    s != "" && SlashFree(s)
  }

  /** The segments a caller supplies: what the patterns capture. */
  function Captures(k: StorageKey): seq<string> {
    match k
    case BasemapRelease(n, r, _) => [n, r]
    case _ => Checked(k)
  }

  predicate AllCaptured(segments: seq<string>) {
    forall i :: 0 <= i < |segments| ==> Captured(segments[i])
  }

  lemma UploadAndDataSegments(k: StorageKey, digits: string)
    requires AllCaptured(Captures(k)) && SlashFree(digits)
    requires || k.UploadOriginal? || k.DatasetVersion? || k.TilesetSourceArtifact?
             || k.AccountSpriteAsset? || k.ProfileAvatar?
    ensures AllSlashFree(Segments(k, digits)) && Segments(k, digits) != []
  {
    LiteralsAreSlashFree();
    SuffixesAreSlashFree(Json, false);
    var c := Captures(k);
    assert Captured(c[0]) && Captured(c[1]) && Captured(c[2]);
  }

  lemma TilesetSegments(k: StorageKey, digits: string)
    requires AllCaptured(Captures(k)) && SlashFree(digits)
    requires k.TilesetVersion? || k.TilesetBuildArtifact?
    ensures AllSlashFree(Segments(k, digits)) && Segments(k, digits) != []
  {
    LiteralsAreSlashFree();
    SuffixesAreSlashFree(Json, false);
    FilesAreSlashFree(k.format, StyleJson);
    var c := Captures(k);
    assert Captured(c[0]) && Captured(c[1]);
    assert |c| > 2 ==> Captured(c[2]);
  }

  lemma StyleSegments(k: StorageKey, digits: string)
    requires AllCaptured(Captures(k)) && SlashFree(digits)
    requires k.StyleVersion? || k.StyleThumbnail?
    ensures AllSlashFree(Segments(k, digits)) && Segments(k, digits) != []
  {
    LiteralsAreSlashFree();
    SuffixesAreSlashFree(Json, false);
    FilesAreSlashFree(Pmtiles, StyleJson);
    var c := Captures(k);
    assert Captured(c[0]) && Captured(c[1]);
  }

  lemma PublicSegments(k: StorageKey, digits: string)
    requires AllCaptured(Captures(k))
    requires k.BasemapRelease? || k.SpriteAsset? || k.GlyphRange?
    ensures AllSlashFree(Segments(k, digits)) && Segments(k, digits) != []
  {
    LiteralsAreSlashFree();
    var c := Captures(k);
    assert Captured(c[0]);
    match k {
      case BasemapRelease(_, _, a) =>
        assert Captured(c[1]);
        FilesAreSlashFree(Pmtiles, a);
      case SpriteAsset(_, kind, doubled) => SuffixesAreSlashFree(kind, doubled);
      case GlyphRange(_, _) =>
        assert Captured(c[1]);
        SuffixesAreSlashFree(Json, false);
    }
  }

  lemma SegmentsAreSlashFree(k: StorageKey, digits: string)
    requires AllCaptured(Captures(k)) && SlashFree(digits)
    ensures AllSlashFree(Segments(k, digits)) && Segments(k, digits) != []
  {
    if k.TilesetVersion? || k.TilesetBuildArtifact? {
      TilesetSegments(k, digits);
    } else if k.StyleVersion? || k.StyleThumbnail? {
      StyleSegments(k, digits);
    } else if k.BasemapRelease? || k.SpriteAsset? || k.GlyphRange? {
      PublicSegments(k, digits);
    } else {
      UploadAndDataSegments(k, digits);
    }
  }

  lemma SafeIsCaptured(k: StorageKey)
    requires AllSafe(Checked(k))
    ensures AllCaptured(Captures(k))
  {
    forall i | 0 <= i < |Captures(k)| ensures Captured(Captures(k)[i]) {
      assert Captures(k)[i] == Checked(k)[i];
      SafeIsSlashFree(Checked(k)[i]);
    }
  }

  lemma VersionDigitsAreSlashFree(k: StorageKey)
    ensures SlashFree(VersionDigits(k))
    ensures HasVersion(k) ==>
              IsDigits(VersionDigits(k)) && Number(VersionDigits(k)) == k.version && Canonical(VersionDigits(k))
  {
    if HasVersion(k) {
      DecimalIsCanonical(k.version);
      DigitsAreSlashFree(VersionDigits(k));
    }
  }

  lemma SplitOfPath(k: StorageKey)
    requires AllSafe(Checked(k))
    ensures Split(Path(k)) == Segments(k, VersionDigits(k)) && AllSlashFree(Segments(k, VersionDigits(k)))
  {
    SafeIsCaptured(k);
    VersionDigitsAreSlashFree(k);
    SegmentsAreSlashFree(k, VersionDigits(k));
    SplitInvertsJoin(Segments(k, VersionDigits(k)));
  }

  /** Which builder a list of segments comes from, told by its literal segments alone. */
  function Shape(p: seq<string>): nat {
    if |p| == 2 then 1
    else if |p| == 3 then 2
    else if |p| == 4 then 3
    else if |p| == 7 then 4
    else if |p| == 5 then (if p[2] == "tileset-sources" then 5 else 6)
    else if |p| != 6 then 0
    else if p[2] == "uploads" then 7
    else if p[2] == "datasets" then 8
    else if p[2] == "tilesets" then 9
    else if p[2] == "profile" then 10
    else if p[5] == "style.json" then 11
    else 12
  }

  function BuilderShape(k: StorageKey): nat {
    match k
    case SpriteAsset(_, _, _) => 1
    case GlyphRange(_, _) => 2
    case BasemapRelease(_, _, _) => 3
    case TilesetBuildArtifact(_, _, _, _) => 4
    case TilesetSourceArtifact(_, _, _) => 5
    case AccountSpriteAsset(_, _, _) => 6
    case UploadOriginal(_, _, _) => 7
    case DatasetVersion(_, _, _, _) => 8
    case TilesetVersion(_, _, _, _) => 9
    case ProfileAvatar(_, _, _) => 10
    case StyleVersion(_, _, _) => 11
    case StyleThumbnail(_, _, _) => 12
  }

  lemma ShapeOfSegments(k: StorageKey, digits: string)
    ensures Shape(Segments(k, digits)) == BuilderShape(k)
  {
  }

  lemma AppendIsInjective(a: string, b: string, x: string, y: string)
    requires a + x == b + y && |x| == |y|
    ensures a == b && x == y
  {
    assert (a + x)[|a|..] == x && (b + y)[|b|..] == y;
    assert (a + x)[..|a|] == a && (b + y)[..|b|] == b;
  }

  /** A file name decides the sprite, its kind and its scale, since a safe segment has no at sign. */
  lemma SpriteNameIsInjective(s: string, kind: SpriteKind, doubled: bool, s': string, kind': SpriteKind, doubled': bool)
    requires IsSafe(s) && IsSafe(s')
    requires s + SpriteSuffix(kind, doubled) == s' + SpriteSuffix(kind', doubled')
    ensures s == s' && kind == kind' && doubled == doubled'
  {
    SafeIsSlashFree(s);
    SafeIsSlashFree(s');
    var t := s + SpriteSuffix(kind, doubled);
    assert kind.Json? <==> t[|t| - 1] == 'n';
    assert kind'.Json? <==> t[|t| - 1] == 'n';
    var e := if kind.Json? then ".json" else ".png";
    if doubled {
      assert t[|s|] == '@';
      assert t == s + ("@2x" + e);
    } else {
      assert '@' !in t;
    }
    if doubled' {
      assert t[|s'|] == '@';
    }
    assert doubled == doubled';
    AppendIsInjective(s, s', SpriteSuffix(kind, doubled), SpriteSuffix(kind', doubled'));
  }

  lemma VersionIsInjective(n: nat, m: nat)
    requires "v" + Decimal(n) == "v" + Decimal(m)
    ensures n == m
  {
    assert ("v" + Decimal(n))[1..] == Decimal(n) && ("v" + Decimal(m))[1..] == Decimal(m);
    DecimalIsCanonical(n);
    DecimalIsCanonical(m);
  }

  lemma SegmentsAreInjective(k: StorageKey, k': StorageKey)
    requires AllSafe(Checked(k)) && AllSafe(Checked(k'))
    requires Segments(k, VersionDigits(k)) == Segments(k', VersionDigits(k'))
    ensures k == k'
  {
    ShapeOfSegments(k, VersionDigits(k));
    ShapeOfSegments(k', VersionDigits(k'));
    var p, p' := Segments(k, VersionDigits(k)), Segments(k', VersionDigits(k'));
    assert p[|p| - 1] == p'[|p| - 1];
    match k {
      case SpriteAsset(s, kind, doubled) =>
        assert IsSafe(Checked(k)[0]) && IsSafe(Checked(k')[0]);
        SpriteNameIsInjective(s, kind, doubled, k'.sprite, k'.kind, k'.doubled);
      case GlyphRange(_, r) => AppendIsInjective(r, k'.range, ".pbf", ".pbf");
      case BasemapRelease(_, _, a) =>
        ArtifactReads(a);
        ArtifactReads(k'.artifact);
      case TilesetBuildArtifact(_, _, _, f) =>
        FormatReads(f);
        FormatReads(k'.format);
      case TilesetVersion(_, _, n, f) =>
        FormatReads(f);
        FormatReads(k'.format);
        VersionIsInjective(n, k'.version);
      case DatasetVersion(_, _, n, _) => VersionIsInjective(n, k'.version);
      case StyleVersion(_, _, n) => VersionIsInjective(n, k'.version);
      case StyleThumbnail(_, _, n) => VersionIsInjective(n, k'.version);
      case _ =>
    }
  }

  // ----- Main results -----

  /** The twelve builders are jointly injective: a path is built from one key only. */
  lemma BuildersAreInjective(k: StorageKey, k': StorageKey)
    requires Build(k).Ok? && Build(k) == Build(k')
    ensures k == k'
  {
    SplitOfPath(k);
    SplitOfPath(k');
    SegmentsAreInjective(k, k');
  }

  /** The digits a recognised tileset path spells its version with. */
  function SpelledVersion(path: string): string
    requires ParseStoragePath(path).Some?
  {
    if ParseStoragePath(path).value.TilesetVersion? then Split(path)[4][1..] else ""
  }

  lemma ParsedCaptures(p: seq<string>)
    requires AllSlashFree(p) && ParseSegments(p).Some?
    ensures Recognised(ParseSegments(p).value) && AllCaptured(Captures(ParseSegments(p).value))
  {
    var k := ParseSegments(p).value;
    forall i | 0 <= i < |Captures(k)| ensures Captured(Captures(k)[i]) {
      var j := if k.BasemapRelease? then i + 1
               else if i < 2 then 2 * i + 1
               else if k.TilesetSourceArtifact? then 4 else 5;
      assert Captures(k)[i] == p[j] && SlashFree(p[j]);
    }
  }

  lemma ParsedTileset(p: seq<string>)
    requires ParseSegments(p).Some?
    requires ParseSegments(p).value.TilesetVersion? || ParseSegments(p).value.TilesetBuildArtifact?
    ensures var k := ParseSegments(p).value;
            && p == Segments(k, if k.TilesetVersion? then p[4][1..] else "")
            && (k.TilesetVersion? ==> IsDigits(p[4][1..]) && Number(p[4][1..]) == k.version)
  {
    var k := ParseSegments(p).value;
    FilesAreRead(p[|p| - 1]);
    if k.TilesetVersion? {
      assert p[4] == "v" + p[4][1..];
      assert p == ["accounts", k.account, "tilesets", k.tileset, p[4], TilesFile(k.format)];
    } else {
      assert p == ["accounts", k.account, "tilesets", k.tileset, "builds", k.job, TilesFile(k.format)];
    }
  }

  lemma ParsedSegments(p: seq<string>)
    requires ParseSegments(p).Some?
    ensures var k := ParseSegments(p).value;
            && p == Segments(k, if k.TilesetVersion? then p[4][1..] else "")
            && (k.TilesetVersion? ==> IsDigits(p[4][1..]) && Number(p[4][1..]) == k.version)
  {
    match ParseSegments(p).value {
      case UploadOriginal(a, u, f) => assert p == ["accounts", a, "uploads", u, "original", f];
      case TilesetSourceArtifact(a, s, f) => assert p == ["accounts", a, "tileset-sources", s, f];
      case BasemapRelease(n, r, f) =>
        FilesAreRead(p[3]);
        assert p == ["basemaps", n, r, ArtifactText(f)];
      case _ => ParsedTileset(p);
    }
  }

  /** What a parse means: the path is exactly the pattern of the parsed kind around captures that are
      non-empty and free of slashes, with some spelling of the version number. */
  lemma ParseMeansPattern(path: string)
    requires ParseStoragePath(path).Some?
    ensures var k := ParseStoragePath(path).value;
            && Recognised(k) && AllCaptured(Captures(k))
            && path == Join(Segments(k, SpelledVersion(path)))
            && (k.TilesetVersion? ==> IsDigits(SpelledVersion(path)) && Number(SpelledVersion(path)) == k.version)
  {
    JoinInvertsSplit(path);
    ParsedCaptures(Split(path));
    ParsedSegments(Split(path));
  }

  lemma SegmentsParse(k: StorageKey, digits: string)
    requires Recognised(k) && forall i :: 0 <= i < |Captures(k)| ==> Captures(k)[i] != ""
    requires if k.TilesetVersion? then IsDigits(digits) && Number(digits) == k.version else digits == ""
    ensures ParseSegments(Segments(k, digits)) == Some(k)
  {
    var c := Captures(k);
    assert c[0] != "" && c[1] != "" && (|c| > 2 ==> c[2] != "");
    match k {
      case TilesetVersion(_, _, _, f) =>
        FormatReads(f);
        assert ("v" + digits)[1..] == digits;
      case TilesetBuildArtifact(_, _, _, f) => FormatReads(f);
      case BasemapRelease(_, _, a) => ArtifactReads(a);
      case _ =>
    }
  }

  /** Conversely, every such path parses to its key, whichever pattern is tried first. */
  lemma PatternParses(k: StorageKey, digits: string)
    requires Recognised(k) && AllCaptured(Captures(k))
    requires if k.TilesetVersion? then IsDigits(digits) && Number(digits) == k.version else digits == ""
    ensures ParseStoragePath(Join(Segments(k, digits))) == Some(k)
  {
    if k.TilesetVersion? {
      DigitsAreSlashFree(digits);
    }
    SegmentsAreSlashFree(k, digits);
    SplitInvertsJoin(Segments(k, digits));
    assert forall i :: 0 <= i < |Captures(k)| ==> Captured(Captures(k)[i]);
    SegmentsParse(k, digits);
  }

  /** The parser inverts the five builders it recognises and takes no other builder's path for one of
      theirs. */
  lemma ParseInvertsBuild(k: StorageKey)
    requires Build(k).Ok?
    ensures ParseStoragePath(Build(k).value) == if Recognised(k) then Some(k) else None
  {
    if Recognised(k) {
      SafeIsCaptured(k);
      VersionDigitsAreSlashFree(k);
      PatternParses(k, VersionDigits(k));
    } else {
      SplitOfPath(k);
    }
  }

  /** Building a parsed path gives it back exactly when its captures are safe segments and its version,
      if it has one, is spelled without leading zeros. */
  lemma BuildInvertsParse(path: string)
    requires ParseStoragePath(path).Some?
    ensures var k := ParseStoragePath(path).value;
            Build(k) == Ok(path)
            <==> AllSafe(Checked(k)) && (k.TilesetVersion? ==> Canonical(SpelledVersion(path)))
  {
    var k := ParseStoragePath(path).value;
    var digits := SpelledVersion(path);
    ParseMeansPattern(path);
    if k.TilesetVersion? {
      DecimalInvertsNumber(digits);
      if Build(k) == Ok(path) {
        SplitOfPath(k);
        DigitsAreSlashFree(digits);
        SegmentsAreSlashFree(k, digits);
        SplitInvertsJoin(Segments(k, digits));
        assert Segments(k, digits)[4] == Segments(k, VersionDigits(k))[4];
        AppendIsInjective("v", "v", digits, VersionDigits(k));
      }
    }
  }

  // ----- Prefixes -----

  function AccountPrefix(account: string): string {
    Join(["accounts", account] + [""])
  }

  function UploadPrefix(account: string, upload: string): string {
    Join(["accounts", account, "uploads", upload] + [""])
  }

  function TilesetPrefix(account: string, tileset: string): string {
    Join(["accounts", account, "tilesets", tileset] + [""])
  }

  function TilesetSourcePrefix(account: string, source: string): string {
    Join(["accounts", account, "tileset-sources", source] + [""])
  }

  function Owner(k: StorageKey): Option<string> {
    if k.BasemapRelease? || k.SpriteAsset? || k.GlyphRange? then None else Some(k.account)
  }

  /** The four prefixes, spelled out. */
  lemma PrefixTemplates(account: string, id: string)
    ensures AccountPrefix(account) == "accounts" + "/" + account + "/"
    ensures UploadPrefix(account, id) == "accounts" + "/" + account + "/" + "uploads" + "/" + id + "/"
    ensures TilesetPrefix(account, id) == "accounts" + "/" + account + "/" + "tilesets" + "/" + id + "/"
    ensures TilesetSourcePrefix(account, id) == "accounts" + "/" + account + "/" + "tileset-sources" + "/" + id + "/"
  {
    assert ["accounts", account] + [""] == ["accounts", account, ""];
    JoinThree("accounts", account, "");
    ResourcePrefixTemplate(account, "uploads", id);
    ResourcePrefixTemplate(account, "tilesets", id);
    ResourcePrefixTemplate(account, "tileset-sources", id);
  }

  lemma ResourcePrefixTemplate(account: string, kind: string, id: string)
    ensures Join(["accounts", account, kind, id] + [""]) == "accounts" + "/" + account + "/" + kind + "/" + id + "/"
  {
    assert ["accounts", account, kind, id] + [""] == ["accounts", account, kind, id, ""];
    JoinFive("accounts", account, kind, id, "");
  }

  lemma PathHasPrefix(k: StorageKey, head: seq<string>)
    requires AllSafe(Checked(k)) && head != [] && AllSlashFree(head)
    ensures Join(head + [""]) <= Path(k)
       <==> |head| < |Segments(k, VersionDigits(k))| && Segments(k, VersionDigits(k))[..|head|] == head
  {
    SplitOfPath(k);
    PrefixOfJoin(head, Segments(k, VersionDigits(k)));
  }

  /** A key lies under an account's prefix exactly when it is built for that account: under its own
      account's and under no other's. */
  lemma AccountPrefixSeparates(k: StorageKey, account: string)
    requires Build(k).Ok? && IsSafe(account)
    ensures AccountPrefix(account) <= Build(k).value <==> Owner(k) == Some(account)
  {
    LiteralsAreSlashFree();
    SafeIsSlashFree(account);
    var p := Segments(k, VersionDigits(k));
    PathHasPrefix(k, ["accounts", account]);
    assert |p| > 2 ==> p[..2] == [p[0], p[1]];
  }

  lemma ResourcePrefix(k: StorageKey, account: string, kind: string, id: string)
    requires Build(k).Ok? && IsSafe(account) && IsSafe(id) && SlashFree(kind)
    ensures Join(["accounts", account, kind, id] + [""]) <= Build(k).value
       <==> var p := Segments(k, VersionDigits(k));
            |p| > 4 && p[0] == "accounts" && p[1] == account && p[2] == kind && p[3] == id
  {
    LiteralsAreSlashFree();
    SafeIsSlashFree(account);
    SafeIsSlashFree(id);
    var p := Segments(k, VersionDigits(k));
    PathHasPrefix(k, ["accounts", account, kind, id]);
    assert |p| > 4 ==> p[..4] == [p[0], p[1], p[2], p[3]];
  }

  /** The narrower prefixes hold exactly the keys of one upload, one tileset or one tileset source. */
  lemma UploadPrefixSeparates(k: StorageKey, account: string, id: string)
    requires Build(k).Ok? && IsSafe(account) && IsSafe(id)
    ensures UploadPrefix(account, id) <= Build(k).value
       <==> k.UploadOriginal? && k.account == account && k.upload == id
  {
    LiteralsAreSlashFree();
    ResourcePrefix(k, account, "uploads", id);
  }

  lemma TilesetPrefixSeparates(k: StorageKey, account: string, id: string)
    requires Build(k).Ok? && IsSafe(account) && IsSafe(id)
    ensures TilesetPrefix(account, id) <= Build(k).value
       <==> (k.TilesetVersion? || k.TilesetBuildArtifact?) && k.account == account && k.tileset == id
  {
    LiteralsAreSlashFree();
    ResourcePrefix(k, account, "tilesets", id);
  }

  lemma TilesetSourcePrefixSeparates(k: StorageKey, account: string, id: string)
    requires Build(k).Ok? && IsSafe(account) && IsSafe(id)
    ensures TilesetSourcePrefix(account, id) <= Build(k).value
       <==> k.TilesetSourceArtifact? && k.account == account && k.source == id
  {
    LiteralsAreSlashFree();
    ResourcePrefix(k, account, "tileset-sources", id);
  }
}
