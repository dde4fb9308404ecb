/** The virtual texture of virtualtex.cpp: a texture split into tiles that are loaded from
    disk when first used.  The tiles of all levels of detail hang in two quadtrees, one per
    root (the texture is twice as wide as it is high); a request for (lod, u, v) walks down
    the path of (u, v) and uses the deepest tile it meets, or a sub-rectangle of it.

    The file system and the image loader are not part of this model: a directory listing is
    a map from level number to the file names in that level's directory, and loading an image
    is a function from path name to an optional image. */
module VirtualTex {
  import opened Bits
  import opened Wrappers
  import opened Decimal
  import opened TileQuadtree

  const MaxResolutionLevels: nat := 10

  // ---------------------------------------------------------------------------
  // isPow2

  /** `isPow2(int x)`: `(x & (x - 1)) == 0` on the 32-bit two's-complement pattern, with
      `x - 1` taken on the two's-complement wrap.  For positive x it holds exactly for the
      powers of two; it also holds for 0 and, on that wrap, for the most negative int, whose
      pattern is the single bit 31. */
  function IsPow2(x: int32): (r: bool)
    ensures r <==> x == 0 || x == -0x8000_0000 || (x > 0 && IsPowerOfTwo(x))
  {
    IsPow2Pattern(x);
    BitAnd(U32(x), U32(x - 1)) == 0
  }

  lemma {:induction false} IsPow2Pattern(x: int32)
    ensures BitAnd(U32(x), U32(x - 1)) == 0 <==> x == 0 || x == -0x8000_0000 || (x > 0 && IsPowerOfTwo(x))
  {
    if x > 0 {
      PatternPositive(x);
    } else if x == -0x8000_0000 {
      PatternMinInt();
    } else if x < 0 {
      PatternNegative(x);
    } else {
      assert U32(x) == 0;
    }
  }

  lemma {:induction false} PatternPositive(x: int32)
    requires x > 0
    ensures BitAnd(U32(x), U32(x - 1)) == 0 <==> IsPowerOfTwo(x)
  {
    assert U32(x) == x && U32(x - 1) == x - 1;
    BitAndPredecessor(x);
  }

  lemma {:induction false} PatternMinInt()
    ensures BitAnd(U32(-0x8000_0000), U32(-0x8000_0000 - 1)) == 0
  {
    Pow2Constants();
    assert U32(-0x8000_0000) == Pow2(31) && U32(-0x8000_0000 - 1) == Pow2(31) - 1;
    BitAndLowMask(Pow2(31), 31);
  }

  /** Below the most negative int, the pattern has bit 31 and another bit set. */
  lemma {:induction false} PatternNegative(x: int32)
    requires -0x8000_0000 < x < 0
    ensures BitAnd(U32(x), U32(x - 1)) != 0
  {
    Pow2Constants();
    var y := x + 0x1_0000_0000;
    assert U32(x) == y && U32(x - 1) == y - 1;
    BitAndPredecessor(y);
    NoPowerOfTwoBetween(31, y);
  }

  /** A tile size the constructor accepts is a power of two (the zero case is why the
      constructor tests `tileSize != 0` as well). */
  lemma {:induction false} TileSizeCheck(x: int32)
    requires x > 0
    ensures IsPow2(x) <==> IsPowerOfTwo(x)
  {
  }

  // ---------------------------------------------------------------------------
  // Tiles and textures

  /** A decoded image file; only its size matters to the tile loader. */
  datatype Image = Image(width: int32, height: int32)

  /** The texture made from a tile image.  The GL texture name is not modelled: a texture
      is identified by the file it was made from. */
  datatype TileTexture = TileTexture(path: string, image: Image)

  /** `LoadImageFromFile`: the image stored under a path name, if it can be read. */
  type ImageLoader = string -> Option<Image>

  /** What `getTile` hands to the renderer.  `NullTile` is `TextureTile(0)`; otherwise the
      texture and the sub-rectangle used, as integer numerators over `2^lodDiff`:
      texU = uOffset / 2^lodDiff, texV = vOffset / 2^lodDiff, texDU = texDV = 1 / 2^lodDiff. */
  datatype TextureTile = NullTile | TextureTile(tex: TileTexture, uOffset: nat, vOffset: nat, lodDiff: nat)

  /** The state of a `Tile`: its texture, if resident, and whether loading it failed. */
  datatype TileState = TileState(tex: Option<TileTexture>, loadFailed: bool)

  /** A tile needs no further attempt: it is resident or known to be bad. */
  predicate Settled(s: TileState)
  {
    s.tex.Some? || s.loadFailed
  }

  /** `makeResident` on a tile in state s, the loader giving `loaded`. */
  function ResidentStep(s: TileState, loaded: Option<TileTexture>): (r: TileState)
    ensures Settled(r)
    ensures Settled(s) ==> r == s
    ensures !Settled(s) ==> r.tex == loaded
  {
    if s.tex.None? && !s.loadFailed then
      TileState(loaded, loaded.None?)
    else s
  }

  /** Load once: after one `makeResident` a second one changes nothing, whatever the loader
      would return now.  A resident tile is never reloaded, a failed one never retried. */
  lemma {:induction false} ResidentOnce(s: TileState, first: Option<TileTexture>, later: Option<TileTexture>)
    ensures ResidentStep(ResidentStep(s, first), later) == ResidentStep(s, first)
  {
  }

  class Tile {
    var tex: Option<TileTexture>
    var loadFailed: bool

    constructor ()
      ensures tex == None && !loadFailed
    {
      tex := None;
      loadFailed := false;
    }

    function State(): TileState
      reads this
    {
      TileState(tex, loadFailed)
    }
  }

  // ---------------------------------------------------------------------------
  // Tile file names

  /** `sscanf(name, "tx_%d_%d.", &u, &v) == 2`: the literal "tx_", a `%d`, the literal '_'
      and a second `%d`.  The trailing '.' is not needed for both values to be assigned. */
  function ScanTileName(name: string): (r: Option<(int, int)>)
    ensures r.Some? ==> |name| > 3 && name[..3] == "tx_"
  {
    if |name| < 3 || name[..3] != "tx_" then None
    else
      match ScanInt(name[3..])
      case None => None
      case Some((u, rest)) =>
        if rest == [] || rest[0] != '_' then None
        else
          match ScanInt(rest[1..])
          case None => None
          case Some((v, _)) => Some((u, v))
  }

  /** A file of the level directory whose tree depth is `maxLevel` becomes a tile exactly when
      both numbers scan and lie in the grid of that level: `0 <= u < 2 << maxLevel`,
      `0 <= v < 1 << maxLevel`. */
  function AcceptTile(name: string, maxLevel: nat): (r: Option<(nat, nat)>)
    ensures r.Some? <==> ScanTileName(name).Some? &&
                         0 <= ScanTileName(name).value.0 < 2 * Pow2(maxLevel) &&
                         0 <= ScanTileName(name).value.1 < Pow2(maxLevel)
    ensures r.Some? ==> ScanTileName(name) == Some((r.value.0 as int, r.value.1 as int))
    ensures r.Some? ==> r.value.0 < 2 * Pow2(maxLevel) && r.value.1 < Pow2(maxLevel)
  {
    var scanned := ScanTileName(name);
    if scanned.None? then None
    else
      var (u, v) := scanned.value;
      if u >= 0 && v >= 0 && u < 2 * Pow2(maxLevel) && v < Pow2(maxLevel) then Some((u as nat, v as nat))
      else None
  }

  /** A file named the way `loadTileTexture` names tiles, `tx_<u>_<v>` followed by an
      extension such as ".dds", scans back to (u, v). */
  lemma {:induction false} TileNameScans(u: nat, v: nat, ext: string)
    requires ext == [] || !IsDigit(ext[0])
    ensures ScanTileName("tx_" + FormatNat(u) + "_" + FormatNat(v) + ext) == Some((u as int, v as int))
  {
    var fu, fv := FormatNat(u), FormatNat(v);
    var rest := "_" + (fv + ext);
    TileNameShape(fu, fv, ext);
    ScanFormatted(u, rest);
    assert rest[0] == '_' && rest[1..] == fv + ext;
    ScanFormatted(v, ext);
    ScanTileNameParts("tx_" + fu + "_" + fv + ext, rest, u, v, ext);
  }

  /** `tx_<a>_<b><ext>` starts with "tx_" and goes on with a, then "_" and the rest. */
  lemma {:induction false} TileNameShape(a: string, b: string, ext: string)
    ensures var name := "tx_" + a + "_" + b + ext;
            |name| >= 3 && name[..3] == "tx_" && name[3..] == a + ("_" + (b + ext))
  {
    var name := "tx_" + a + "_" + b + ext;
    assert name == "tx_" + (a + ("_" + (b + ext)));
  }

  /** `ScanTileName` on a name whose two scans give u with the rest `_...` and v. */
  lemma {:induction false} ScanTileNameParts(name: string, rest: string, u: int, v: int, ext: string)
    requires |name| >= 3 && name[..3] == "tx_" && ScanInt(name[3..]) == Some((u, rest))
    requires rest != [] && rest[0] == '_' && ScanInt(rest[1..]) == Some((v, ext))
    ensures ScanTileName(name) == Some((u, v))
  {
  }

  /** Such a file in the directory of a level is accepted when (u, v) lies in its grid. */
  lemma {:induction false} TileFileAccepted(u: nat, v: nat, ext: string, maxLevel: nat)
    requires ext == [] || !IsDigit(ext[0])
    requires u < 2 * Pow2(maxLevel) && v < Pow2(maxLevel)
    ensures AcceptTile("tx_" + FormatNat(u) + "_" + FormatNat(v) + ext, maxLevel) == Some((u, v))
  {
    TileNameScans(u, v, ext);
  }

  /** The levels whose directory exists and opens, as (level number, file names). */
  type Listing = map<nat, seq<string>>

  /** The last level directory below k that is present. */
  function LastLevel(listing: Listing, k: nat): (r: Option<nat>)
    ensures r.Some? ==> r.value < k && r.value in listing &&
                        forall j :: r.value < j < k ==> j !in listing
    ensures r.None? ==> forall j :: 0 <= j < k ==> j !in listing
  {
    if k == 0 then None
    else if k - 1 in listing then Some(k - 1)
    else LastLevel(listing, k - 1)
  }

  /** `nResolutionLevels` after `populateTileTree`: one more than the depth of the last level
      present, or 1 when no level directory exists. */
  function LevelCount(listing: Listing, baseSplit: nat): (r: nat)
    ensures 1 <= r <= MaxResolutionLevels + baseSplit
    ensures LastLevel(listing, MaxResolutionLevels).None? ==> r == 1
    ensures LastLevel(listing, MaxResolutionLevels).Some? ==>
              r == LastLevel(listing, MaxResolutionLevels).value + baseSplit + 1
  {
    match LastLevel(listing, MaxResolutionLevels)
    case None => 1
    case Some(i) => i + baseSplit + 1
  }

  /** A present level directory i lies at depth i + baseSplit of the trees: the depth of the
      last one bounds the number of levels. */
  lemma {:induction false} LevelCountCovers(listing: Listing, baseSplit: nat, i: nat)
    requires i < MaxResolutionLevels && i in listing
    ensures i + baseSplit < LevelCount(listing, baseSplit)
  {
  }

  /** The tiles the files of one level directory name, in listing order: the (u, v) of every
      file AcceptTile accepts for tree depth maxLevel. */
  function AcceptedFiles(files: seq<string>, maxLevel: nat): (r: seq<(nat, nat)>)
    ensures |r| <= |files|
  {
    if files == [] then []
    else
      var prefix := AcceptedFiles(files[..|files| - 1], maxLevel);
      match AcceptTile(files[|files| - 1], maxLevel)
      case None => prefix
      case Some(c) => prefix + [c]
  }

  /** A coordinate pair is among the accepted ones exactly when some file of the directory
      is accepted with it. */
  lemma {:induction false} AcceptedFilesExactly(files: seq<string>, maxLevel: nat, c: (nat, nat))
    ensures c in AcceptedFiles(files, maxLevel) <==>
            exists k :: 0 <= k < |files| && AcceptTile(files[k], maxLevel) == Some(c)
  {
    if files != [] {
      var init := files[..|files| - 1];
      AcceptedFilesExactly(init, maxLevel, c);
      if c in AcceptedFiles(files, maxLevel) && c !in AcceptedFiles(init, maxLevel) {
        assert AcceptTile(files[|files| - 1], maxLevel) == Some(c);
      }
      if k :| 0 <= k < |files| && AcceptTile(files[k], maxLevel) == Some(c) {
        if k < |files| - 1 {
          assert init[k] == files[k];
        }
      }
    }
  }

  /** Taking one more file of a directory adds its tile when it is accepted. */
  lemma {:induction false} AcceptedFilesStep(files: seq<string>, k: nat, maxLevel: nat)
    requires k < |files|
    ensures AcceptedFiles(files[..k + 1], maxLevel) ==
              AcceptedFiles(files[..k], maxLevel) +
              match AcceptTile(files[k], maxLevel) case None => [] case Some(c) => [c]
  {
    assert files[..k + 1][..k] == files[..k];
  }

  /** All files of level directory i taken: the level is stored. */
  lemma {:induction false} LevelDone(nodes: seq<QuadNode<Tile>>, listing: Listing, baseSplit: nat, i: nat, k: nat)
    requires ValidTree(nodes) && i in listing && k == |listing[i]|
    requires AllStored(nodes, i + baseSplit, AcceptedFiles(listing[i][..k], i + baseSplit))
    ensures LevelStored(nodes, listing, baseSplit, i)
  {
    assert listing[i][..k] == listing[i];
  }

  /** Level i's tiles stored on top of the levels below it give the levels up to i. */
  lemma {:induction false} LevelsStoredStep(nodes: seq<QuadNode<Tile>>, listing: Listing, baseSplit: nat, i: nat)
    requires ValidTree(nodes) && LevelsStored(nodes, listing, baseSplit, i)
    requires LevelStored(nodes, listing, baseSplit, i)
    ensures LevelsStored(nodes, listing, baseSplit, i + 1)
  {
  }

  /** Every tile of `coords` is stored at depth maxLevel. */
  ghost predicate AllStored(nodes: seq<QuadNode<Tile>>, maxLevel: nat, coords: seq<(nat, nat)>)
    requires ValidTree(nodes)
  {
    forall j :: 0 <= j < |coords| ==> Stored(nodes, maxLevel, coords[j].0, coords[j].1)
  }

  /** Every tile accepted from level directory i, when it is present, is stored. */
  ghost predicate LevelStored(nodes: seq<QuadNode<Tile>>, listing: Listing, baseSplit: nat, i: nat)
    requires ValidTree(nodes)
  {
    i in listing ==> AllStored(nodes, i + baseSplit, AcceptedFiles(listing[i], i + baseSplit))
  }

  /** Every tile accepted from the level directories below `levels` is stored. */
  ghost predicate LevelsStored(nodes: seq<QuadNode<Tile>>, listing: Listing, baseSplit: nat, levels: nat)
    requires ValidTree(nodes)
  {
    forall i :: 0 <= i < levels ==> LevelStored(nodes, listing, baseSplit, i)
  }

  lemma {:induction false} AllStoredExtends(a: seq<QuadNode<Tile>>, b: seq<QuadNode<Tile>>, maxLevel: nat, coords: seq<(nat, nat)>)
    requires ValidTree(a) && ValidTree(b) && Extends(a, b) && AllStored(a, maxLevel, coords)
    ensures AllStored(b, maxLevel, coords)
  {
    forall j | 0 <= j < |coords| ensures Stored(b, maxLevel, coords[j].0, coords[j].1) {
      var (u, v) := coords[j];
      StoredExtends(a, b, RootIndex(u, maxLevel), TilePath(u, v, maxLevel));
    }
  }

  lemma {:induction false} LevelsStoredExtends(a: seq<QuadNode<Tile>>, b: seq<QuadNode<Tile>>, listing: Listing, baseSplit: nat, levels: nat)
    requires ValidTree(a) && ValidTree(b) && Extends(a, b) && LevelsStored(a, listing, baseSplit, levels)
    ensures LevelsStored(b, listing, baseSplit, levels)
  {
    forall i | 0 <= i < levels ensures LevelStored(b, listing, baseSplit, i) {
      assert LevelStored(a, listing, baseSplit, i);
      if i in listing {
        var coords := AcceptedFiles(listing[i], i + baseSplit);
        assert AllStored(a, i + baseSplit, coords);
        AllStoredExtends(a, b, i + baseSplit, coords);
      }
    }
  }

  /** One step of `populateTileTree`: adding the tile (u, v) keeps every tile stored so far
      where it was, and stores the new one. */
  lemma {:induction false} AddedStaysStored(before: seq<QuadNode<Tile>>, after: seq<QuadNode<Tile>>, tile: Tile,
                         maxLevel: nat, coords: seq<(nat, nat)>, u: nat, v: nat)
    requires ValidTree(before) && u < 2 * Pow2(maxLevel)
    requires after == AddPath(before, RootIndex(u, maxLevel), tile, TilePath(u, v, maxLevel), 0)
    requires AllStored(before, maxLevel, coords)
    ensures ValidTree(after) && Extends(before, after)
    ensures AllStored(after, maxLevel, coords + [(u, v)])
  {
    AddThenFind(before, RootIndex(u, maxLevel), tile, TilePath(u, v, maxLevel));
    AllStoredExtends(before, after, maxLevel, coords);
  }

  /** A tile taken from the listing: the number of its level directory and its (u, v). */
  type Placement = (nat, (nat, nat))

  /** The node at the end of the path of the tile of level directory `level` at c once the level directory sits at depth
      level + baseSplit; -1 when u names no tree. */
  ghost function Home(nodes: seq<QuadNode<Tile>>, baseSplit: nat, level: nat, c: (nat, nat)): int
    requires ValidTree(nodes)
  {
    HomeAt(nodes, level + baseSplit, c.0, c.1)
  }

  /** The node at the end of the path of (u, v) at depth d; -1 when u names no tree. */
  ghost function HomeAt(nodes: seq<QuadNode<Tile>>, d: nat, u: nat, v: nat): int
    requires ValidTree(nodes)
  {
    var root := RootIndex(u, d);
    if root < |nodes| then Descend(nodes, root, TilePath(u, v, d), 0, None).node else -1
  }

  /** `populateTileTree` accepts a tile at c from the listing: level directory `level` is one
      of the ten and present, and one of its files is accepted with the coordinates c. */
  ghost predicate Accepted(listing: Listing, baseSplit: nat, level: nat, c: (nat, nat))
  {
    level < MaxResolutionLevels && level in listing &&
    exists k :: 0 <= k < |listing[level]| && AcceptTile(listing[level][k], level + baseSplit) == Some(c)
  }

  /** Node x is the end of the path of a tile accepted from the listing. */
  ghost predicate FromListing(nodes: seq<QuadNode<Tile>>, listing: Listing, baseSplit: nat, x: nat)
    requires ValidTree(nodes)
  {
    exists level, c :: Accepted(listing, baseSplit, level, c) && Home(nodes, baseSplit, level, c) == x
  }

  /** Every node of `nodes` that holds a tile held one in `origin` or ends the path of a tile
      accepted from the listing: no tile comes from anywhere else. */
  ghost predicate OnlyAccepted(origin: seq<QuadNode<Tile>>, nodes: seq<QuadNode<Tile>>, listing: Listing, baseSplit: nat)
    requires ValidTree(nodes)
  {
    forall x :: 0 <= x < |nodes| && nodes[x].tile.Some? ==>
      (x < |origin| && origin[x].tile.Some?) || FromListing(nodes, listing, baseSplit, x)
  }

  /** Every node that holds a tile held one in `origin` or ends the path of one of `placed`. */
  ghost predicate OnlyPlaced(origin: seq<QuadNode<Tile>>, nodes: seq<QuadNode<Tile>>, baseSplit: nat, placed: seq<Placement>)
    requires ValidTree(nodes)
  {
    forall x :: 0 <= x < |nodes| && nodes[x].tile.Some? ==>
      (x < |origin| && origin[x].tile.Some?) ||
      exists j :: 0 <= j < |placed| && Home(nodes, baseSplit, placed[j].0, placed[j].1) == x
  }

  /** Every one of `placed` is stored. */
  ghost predicate PlacedStored(nodes: seq<QuadNode<Tile>>, baseSplit: nat, placed: seq<Placement>)
    requires ValidTree(nodes)
  {
    forall j :: 0 <= j < |placed| ==> StoredPlacement(nodes, baseSplit, placed[j].0, placed[j].1)
  }

  ghost predicate StoredPlacement(nodes: seq<QuadNode<Tile>>, baseSplit: nat, level: nat, c: (nat, nat))
    requires ValidTree(nodes)
  {
    Stored(nodes, level + baseSplit, c.0, c.1)
  }

  lemma {:induction false} PlacedStoredSnoc(nodes: seq<QuadNode<Tile>>, baseSplit: nat, placed: seq<Placement>,
                                            level: nat, c: (nat, nat))
    requires ValidTree(nodes) && PlacedStored(nodes, baseSplit, placed) && StoredPlacement(nodes, baseSplit, level, c)
    ensures PlacedStored(nodes, baseSplit, placed + [(level, c)])
  {
    var placed' := placed + [(level, c)];
    assert placed'[|placed|].0 == level && placed'[|placed|].1 == c;
    assert forall j :: 0 <= j < |placed| ==> placed'[j] == placed[j];
  }

  /** What `populateTileTree` has built from `origin` before level directory i: the levels
      below i stored, the tiles taken so far (`placed`) stored and accepted, and no tile
      anywhere else. */
  ghost predicate Populating(origin: seq<QuadNode<Tile>>, nodes: seq<QuadNode<Tile>>, listing: Listing,
                             baseSplit: nat, i: nat, placed: seq<Placement>)
  {
    && ValidTree(nodes) && Extends(origin, nodes)
    && LevelsStored(nodes, listing, baseSplit, i)
    && PlacedStored(nodes, baseSplit, placed) && OnlyPlaced(origin, nodes, baseSplit, placed)
    && forall j :: 0 <= j < |placed| ==> Accepted(listing, baseSplit, placed[j].0, placed[j].1)
  }

  /** What the inner loop of `populateTileTree` has built after the first k files of level
      directory i: `Populating`, and those files' tiles stored. */
  ghost predicate TakenUpTo(origin: seq<QuadNode<Tile>>, nodes: seq<QuadNode<Tile>>, listing: Listing,
                            baseSplit: nat, i: nat, k: nat, placed: seq<Placement>)
  {
    && Populating(origin, nodes, listing, baseSplit, i, placed)
    && i in listing && k <= |listing[i]|
    && AllStored(nodes, i + baseSplit, AcceptedFiles(listing[i][..k], i + baseSplit))
  }

  /** One step of `populateTileTree` for the converse: adding the tile of level i at (u, v)
      puts a tile at the end of its path and nowhere else, and leaves the ends of the paths
      stored before where they were. */
  lemma {:induction false} AddedOnlyThere(origin: seq<QuadNode<Tile>>, before: seq<QuadNode<Tile>>,
                                          after: seq<QuadNode<Tile>>, tile: Tile, baseSplit: nat,
                                          placed: seq<Placement>, i: nat, u: nat, v: nat)
    requires ValidTree(before) && u < 2 * Pow2(i + baseSplit)
    requires after == AddPath(before, RootIndex(u, i + baseSplit), tile, TilePath(u, v, i + baseSplit), 0)
    requires PlacedStored(before, baseSplit, placed) && OnlyPlaced(origin, before, baseSplit, placed)
    ensures ValidTree(after)
    ensures PlacedStored(after, baseSplit, placed + [(i, (u, v))])
    ensures OnlyPlaced(origin, after, baseSplit, placed + [(i, (u, v))])
  {
    var d := i + baseSplit;
    var root, path := RootIndex(u, d), TilePath(u, v, d);
    var placed' := placed + [(i, (u, v))];
    AddPathTiles(before, root, tile, path, 0);
    NewStored(before, after, tile, baseSplit, i, u, v);
    NewHome(before, after, tile, d, u, v);
    assert Home(after, baseSplit, i, (u, v)) == HomeAt(after, d, u, v);
    PlacedExtends(before, after, baseSplit, placed);
    PlacedStoredSnoc(after, baseSplit, placed, i, (u, v));
    OnlyPlacedGrown(origin, before, after, baseSplit, placed, (i, (u, v)), PathEnd(before, root, path, 0));
  }

  /** When the trees grow by a tile at node `end` only, the ends of the earlier placements
      stay put, and p's path ends at `end`, then every tile is still at an origin node or at
      the end of one of the placements, now with p among them. */
  lemma {:induction false} OnlyPlacedGrown(origin: seq<QuadNode<Tile>>, before: seq<QuadNode<Tile>>,
                                           after: seq<QuadNode<Tile>>, baseSplit: nat,
                                           placed: seq<Placement>, p: Placement, end: int)
    requires ValidTree(before) && ValidTree(after)
    requires OnlyPlaced(origin, before, baseSplit, placed)
    requires forall x :: 0 <= x < |after| && x != end ==> after[x].tile == if x < |before| then before[x].tile else None
    requires forall j :: 0 <= j < |placed| ==>
               Home(after, baseSplit, placed[j].0, placed[j].1) == Home(before, baseSplit, placed[j].0, placed[j].1)
    requires Home(after, baseSplit, p.0, p.1) == end
    ensures OnlyPlaced(origin, after, baseSplit, placed + [p])
  {
    var placed' := placed + [p];
    assert placed'[|placed|] == p;
    forall x | 0 <= x < |after| && after[x].tile.Some?
      ensures (x < |origin| && origin[x].tile.Some?) ||
              exists j :: 0 <= j < |placed'| && Home(after, baseSplit, placed'[j].0, placed'[j].1) == x
    {
      if x != end {
        assert x < |before| && before[x].tile.Some?;
        if !(x < |origin| && origin[x].tile.Some?) {
          var j :| 0 <= j < |placed| && Home(before, baseSplit, placed[j].0, placed[j].1) == x;
          assert Home(after, baseSplit, placed'[j].0, placed'[j].1) == x;
        }
      }
    }
  }

  /** The tile just added is stored. */
  lemma {:induction false} NewStored(before: seq<QuadNode<Tile>>, after: seq<QuadNode<Tile>>, tile: Tile,
                                     baseSplit: nat, i: nat, u: nat, v: nat)
    requires ValidTree(before) && u < 2 * Pow2(i + baseSplit)
    requires after == AddPath(before, RootIndex(u, i + baseSplit), tile, TilePath(u, v, i + baseSplit), 0)
    ensures ValidTree(after) && StoredPlacement(after, baseSplit, i, (u, v))
  {
    var d := i + baseSplit;
    AddThenFind(before, RootIndex(u, d), tile, TilePath(u, v, d));
  }

  /** The tile just added ends its path at the node `PathEnd` names. */
  lemma {:induction false} NewHome(before: seq<QuadNode<Tile>>, after: seq<QuadNode<Tile>>, tile: Tile,
                                   d: nat, u: nat, v: nat)
    requires ValidTree(before) && u < 2 * Pow2(d)
    requires after == AddPath(before, RootIndex(u, d), tile, TilePath(u, v, d), 0)
    ensures ValidTree(after)
    ensures HomeAt(after, d, u, v) == PathEnd(before, RootIndex(u, d), TilePath(u, v, d), 0)
  {
    AddPathEnd(before, RootIndex(u, d), tile, TilePath(u, v, d), 0);
  }

  /** Placements stored stay stored, at the same nodes, however the trees grow. */
  lemma {:induction false} PlacedExtends(before: seq<QuadNode<Tile>>, after: seq<QuadNode<Tile>>, baseSplit: nat,
                                         placed: seq<Placement>)
    requires ValidTree(before) && ValidTree(after) && Extends(before, after)
    requires PlacedStored(before, baseSplit, placed)
    ensures PlacedStored(after, baseSplit, placed)
    ensures forall j :: 0 <= j < |placed| ==> Home(after, baseSplit, placed[j].0, placed[j].1) == Home(before, baseSplit, placed[j].0, placed[j].1)
  {
    forall j | 0 <= j < |placed|
      ensures StoredPlacement(after, baseSplit, placed[j].0, placed[j].1)
      ensures Home(after, baseSplit, placed[j].0, placed[j].1) == Home(before, baseSplit, placed[j].0, placed[j].1)
    {
      var dj, uj, vj := placed[j].0 + baseSplit, placed[j].1.0, placed[j].1.1;
      StoredExtends(before, after, RootIndex(uj, dj), TilePath(uj, vj, dj));
    }
  }

  /** The step of `populateTileTree` that adds the tile of file k of level directory i at
      (u, v): what `Populating` says of the trees before holds after, with the tile added to
      the placements, and the files up to k are stored. */
  lemma {:induction false} TileTaken(origin: seq<QuadNode<Tile>>, before: seq<QuadNode<Tile>>, after: seq<QuadNode<Tile>>,
                                     tile: Tile, listing: Listing, baseSplit: nat, i: nat, k: nat,
                                     lod: nat, placed: seq<Placement>, c: (nat, nat))
    requires i < MaxResolutionLevels && i in listing && k < |listing[i]| && lod == i + baseSplit
    requires AcceptTile(listing[i][k], lod) == Some(c)
    requires TakenUpTo(origin, before, listing, baseSplit, i, k, placed)
    requires after == AddPath(before, RootIndex(c.0, lod), tile, TilePath(c.0, c.1, lod), 0)
    ensures TakenUpTo(origin, after, listing, baseSplit, i, k + 1, placed + [(i, c)])
  {
    var u, v := c.0, c.1;
    assert c == (u, v);
    TakenStored(origin, before, after, tile, listing, baseSplit, i, k, u, v);
    TakenPlaced(origin, before, after, tile, listing, baseSplit, i, k, placed, u, v);
    AcceptedFilesStep(listing[i], k, i + baseSplit);
  }

  /** The step of `populateTileTree` that skips file k of level directory i, which is not
      accepted: the trees and the placements stay as they were, and the files up to k are
      still all stored. */
  lemma {:induction false} FileSkipped(origin: seq<QuadNode<Tile>>, nodes: seq<QuadNode<Tile>>, listing: Listing,
                                       baseSplit: nat, i: nat, k: nat, maxLevel: nat, placed: seq<Placement>)
    requires i < MaxResolutionLevels && i in listing && k < |listing[i]| && maxLevel == i + baseSplit
    requires AcceptTile(listing[i][k], maxLevel).None?
    requires TakenUpTo(origin, nodes, listing, baseSplit, i, k, placed)
    ensures TakenUpTo(origin, nodes, listing, baseSplit, i, k + 1, placed)
  {
    AcceptedFilesStep(listing[i], k, i + baseSplit);
  }

  /** The storage half of `TileTaken`. */
  lemma {:induction false} TakenStored(origin: seq<QuadNode<Tile>>, before: seq<QuadNode<Tile>>, after: seq<QuadNode<Tile>>,
                                       tile: Tile, listing: Listing, baseSplit: nat, i: nat, k: nat, u: nat, v: nat)
    requires i in listing && k < |listing[i]| && u < 2 * Pow2(i + baseSplit)
    requires ValidTree(before) && Extends(origin, before) && LevelsStored(before, listing, baseSplit, i)
    requires AllStored(before, i + baseSplit, AcceptedFiles(listing[i][..k], i + baseSplit))
    requires after == AddPath(before, RootIndex(u, i + baseSplit), tile, TilePath(u, v, i + baseSplit), 0)
    ensures ValidTree(after) && Extends(origin, after) && LevelsStored(after, listing, baseSplit, i)
    ensures AllStored(after, i + baseSplit, AcceptedFiles(listing[i][..k], i + baseSplit) + [(u, v)])
  {
    AddedStaysStored(before, after, tile, i + baseSplit, AcceptedFiles(listing[i][..k], i + baseSplit), u, v);
    LevelsStoredExtends(before, after, listing, baseSplit, i);
    ExtendsTransitive(origin, before, after);
  }

  /** The placement half of `TileTaken`: the new tile is accepted, and no tile hangs anywhere
      but at the ends of the placements. */
  lemma {:induction false} TakenPlaced(origin: seq<QuadNode<Tile>>, before: seq<QuadNode<Tile>>, after: seq<QuadNode<Tile>>,
                                       tile: Tile, listing: Listing, baseSplit: nat, i: nat, k: nat,
                                       placed: seq<Placement>, u: nat, v: nat)
    requires i < MaxResolutionLevels && i in listing && k < |listing[i]|
    requires AcceptTile(listing[i][k], i + baseSplit) == Some((u, v)) && u < 2 * Pow2(i + baseSplit)
    requires ValidTree(before) && PlacedStored(before, baseSplit, placed) && OnlyPlaced(origin, before, baseSplit, placed)
    requires forall j :: 0 <= j < |placed| ==> Accepted(listing, baseSplit, placed[j].0, placed[j].1)
    requires after == AddPath(before, RootIndex(u, i + baseSplit), tile, TilePath(u, v, i + baseSplit), 0)
    ensures ValidTree(after)
    ensures PlacedStored(after, baseSplit, placed + [(i, (u, v))])
    ensures OnlyPlaced(origin, after, baseSplit, placed + [(i, (u, v))])
    ensures forall j :: 0 <= j < |placed| + 1 ==> Accepted(listing, baseSplit, (placed + [(i, (u, v))])[j].0, (placed + [(i, (u, v))])[j].1)
  {
    AddedOnlyThere(origin, before, after, tile, baseSplit, placed, i, u, v);
    AcceptedSnoc(listing, baseSplit, placed, i, k, u, v);
  }

  /** The tile of an accepted file is accepted. */
  lemma {:induction false} AcceptedSnoc(listing: Listing, baseSplit: nat, placed: seq<Placement>, i: nat, k: nat,
                                        u: nat, v: nat)
    requires i < MaxResolutionLevels && i in listing && k < |listing[i]|
    requires AcceptTile(listing[i][k], i + baseSplit) == Some((u, v))
    requires forall j :: 0 <= j < |placed| ==> Accepted(listing, baseSplit, placed[j].0, placed[j].1)
    ensures forall j :: 0 <= j < |placed| + 1 ==> Accepted(listing, baseSplit, (placed + [(i, (u, v))])[j].0, (placed + [(i, (u, v))])[j].1)
  {
    var placed' := placed + [(i, (u, v))];
    assert Accepted(listing, baseSplit, i, (u, v));
    assert placed'[|placed|].0 == i && placed'[|placed|].1 == (u, v);
    assert forall j :: 0 <= j < |placed| ==> placed'[j] == placed[j];
  }

  /** When every placement is accepted, only accepted tiles hang in the trees. */
  lemma {:induction false} PlacedAccepted(origin: seq<QuadNode<Tile>>, nodes: seq<QuadNode<Tile>>, listing: Listing,
                                          baseSplit: nat, placed: seq<Placement>)
    requires ValidTree(nodes) && OnlyPlaced(origin, nodes, baseSplit, placed)
    requires forall j :: 0 <= j < |placed| ==> Accepted(listing, baseSplit, placed[j].0, placed[j].1)
    ensures OnlyAccepted(origin, nodes, listing, baseSplit)
  {
    forall x | 0 <= x < |nodes| && nodes[x].tile.Some? && !(x < |origin| && origin[x].tile.Some?)
      ensures FromListing(nodes, listing, baseSplit, x)
    {
      var j :| 0 <= j < |placed| && Home(nodes, baseSplit, placed[j].0, placed[j].1) == x;
      assert Accepted(listing, baseSplit, placed[j].0, placed[j].1);
    }
  }

  // ---------------------------------------------------------------------------
  // getTile's pure parts

  /** A request `getTile` serves: the shifted lod and the coordinates. */
  datatype Request = Request(level: nat, u: nat, v: nat)

  /** The range checks of `getTile`.  The requested lod is first shifted left by baseSplit;
      the request is served when that shifted lod is below the number of levels and (u, v)
      lies in its grid. */
  function TileRequest(lod: int, u: int, v: int, baseSplit: nat, levels: nat): (r: Option<Request>)
    ensures var s := Shl(lod, baseSplit);
            r.Some? <==> 0 <= s < levels && 0 <= u < 2 * Pow2(s) && 0 <= v < Pow2(s)
    ensures r.Some? ==> r.value == Request(Shl(lod, baseSplit), u, v)
  {
    var shifted := Shl(lod, baseSplit);
    if shifted < 0 || shifted >= levels || u < 0 || u >= 2 * Pow2(shifted) || v < 0 || v >= Pow2(shifted) then
      None
    else
      Some(Request(shifted, u, v))
  }

  /** The level a served request reads is the requested lod times 2^baseSplit, and its
      coordinates name one of the two trees. */
  lemma {:induction false} RequestLevel(lod: int, u: int, v: int, baseSplit: nat, levels: nat)
    requires TileRequest(lod, u, v, baseSplit, levels).Some?
    ensures var r := TileRequest(lod, u, v, baseSplit, levels).value;
            r.level == lod * Pow2(baseSplit) && RootIndex(r.u, r.level) < 2
  {
    ShlIsMul(lod, baseSplit);
  }

  /** `getLODCount` and `getTile` disagree.  With baseSplit 1 and the last level directory
      present, `populateTileTree` counts 11 levels and `getLODCount` reports 10 lods; but
      because `getTile` shifts the lod by baseSplit instead of adding it, only lods 0 to 5 are
      served, and lods 6 to 9 always give the null tile. */
  lemma {:induction false} RequestLodQuirk(listing: Listing, lod: int)
    requires MaxResolutionLevels - 1 in listing
    ensures LevelCount(listing, 1) - 1 == 10
    ensures 0 <= lod < 10 ==> (TileRequest(lod, 0, 0, 1, LevelCount(listing, 1)).Some? <==> lod <= 5)
  {
    assert Shl(lod, 1) == 2 * lod;
  }

  /** With lodDiff = lod - tileLOD, the numerator of the sub-rectangle offset,
      `u & ((1 << lodDiff) - 1)`: the remainder of u by 2^lodDiff, whose quotient
      `u >> lodDiff` is the cell of the found tile's grid.  It lies in [0, 2^lodDiff). */
  function SubRectOffset(u: nat, lodDiff: nat): (r: nat)
    ensures r < Pow2(lodDiff)
    ensures Shl(Shr(u, lodDiff), lodDiff) + r == u
  {
    BitAndLowMask(u, lodDiff);
    ShiftSplit(u, lodDiff);
    ShrIsDiv(u, lodDiff);
    ShlIsMul(Shr(u, lodDiff), lodDiff);
    BitAnd(u, Pow2(lodDiff) - 1)
  }

  /** What `getTile` returns for the tile found lodDiff levels above the request: nothing
      when the tile has no texture, otherwise its texture with the sub-rectangle of (u, v),
      whose offsets lie in [0, 2^lodDiff) and complete the tile's cell `u >> lodDiff` to u. */
  function SubTile(tex: Option<TileTexture>, u: nat, v: nat, lodDiff: nat): (t: TextureTile)
    ensures tex.None? <==> t.NullTile?
    ensures t.TextureTile? ==>
              t.tex == tex.value && t.lodDiff == lodDiff &&
              t.uOffset < Pow2(lodDiff) && Shl(Shr(u, lodDiff), lodDiff) + t.uOffset == u &&
              t.vOffset < Pow2(lodDiff) && Shl(Shr(v, lodDiff), lodDiff) + t.vOffset == v
  {
    if tex.None? then NullTile
    else TextureTile(tex.value, SubRectOffset(u, lodDiff), SubRectOffset(v, lodDiff), lodDiff)
  }

  /** The cell of a request at depth lod in the grid of the tile found at depth tileLOD lies
      in the grid of that depth. */
  lemma {:induction false} CellInGrid(u: nat, v: nat, lod: nat, tileLOD: nat)
    requires tileLOD <= lod && u < 2 * Pow2(lod) && v < Pow2(lod)
    ensures Shr(u, lod - tileLOD) < 2 * Pow2(tileLOD)
    ensures Shr(v, lod - tileLOD) < Pow2(tileLOD)
  {
    var d := lod - tileLOD;
    ShrIsDiv(u, d);
    ShrIsDiv(v, d);
    Pow2Add(tileLOD + 1, d);
    Pow2Add(tileLOD, d);
    assert Pow2(tileLOD + 1) == 2 * Pow2(tileLOD);
    DivBelow(u, Pow2(d), 2 * Pow2(tileLOD));
    DivBelow(v, Pow2(d), Pow2(tileLOD));
  }

  lemma {:induction false} LoadedLevelInRange(tileLOD: nat, baseSplit: nat)
    ensures tileLOD < MaxResolutionLevels + baseSplit ==> Shr(tileLOD, baseSplit) < MaxResolutionLevels
  {
    if tileLOD < MaxResolutionLevels + baseSplit {
      var p := Pow2(baseSplit);
      ShrIsDiv(tileLOD, baseSplit);
      Pow2AtLeast(baseSplit);
      assert tileLOD < MaxResolutionLevels * p;
      DivBelow(tileLOD, p, MaxResolutionLevels);
    }
  }

  // ---------------------------------------------------------------------------
  // The virtual texture

  class VirtualTexture {
    const tilePath: string
    const baseSplit: nat
    const tileSize: nat
    const tileExt: string
    var ticks: nat
    var tilesRequested: int
    var nResolutionLevels: nat
    /** The node arena; nodes 0 and 1 are `tileTree[0]` and `tileTree[1]`. */
    var nodes: seq<QuadNode<Tile>>

    ghost predicate Valid()
      reads this
    {
      ValidTree(nodes) && 1 <= nResolutionLevels <= MaxResolutionLevels + baseSplit
    }

    /** The tiles hanging in the trees. */
    ghost function Tiles(): set<Tile>
      reads this
    {
      set i | 0 <= i < |nodes| && nodes[i].tile.Some? :: nodes[i].tile.value
    }

    /** The constructor: two empty roots, the extension ".<tileType>", and the trees filled
        from the listing of the level directories under tilePath. */
    constructor (tilePath: string, baseSplit: uint32, tileSize: uint32, tileType: string, listing: Listing)
      requires baseSplit > 0
      requires tileSize != 0 && IsPow2(WrapInt32(tileSize))
      ensures Valid()
      ensures this.tilePath == tilePath && this.baseSplit == baseSplit && this.tileSize == tileSize
      ensures tileExt == "." + tileType && ticks == 0
      ensures nResolutionLevels == LevelCount(listing, baseSplit)
      ensures Extends([EmptyNode(), EmptyNode()], nodes)
      ensures LevelsStored(nodes, listing, baseSplit, MaxResolutionLevels)
      ensures forall x :: 0 <= x < |nodes| && nodes[x].tile.Some? ==> FromListing(nodes, listing, baseSplit, x)
    {
      this.tilePath := tilePath;
      this.baseSplit := baseSplit;
      this.tileSize := tileSize;
      tileExt := "." + tileType;
      ticks := 0;
      nResolutionLevels := 0;
      nodes := [EmptyNode(), EmptyNode()];
      new;
      PopulateTileTree(listing);
    }

    /** `getLODCount`: at most the ten level directories, and at least `1 - baseSplit`, the
        count of a texture without any level directory. */
    function LODCount(): (r: int)
      reads this
      ensures r + baseSplit == nResolutionLevels
      ensures Valid() ==> 1 - baseSplit <= r <= MaxResolutionLevels
    {
      nResolutionLevels - baseSplit
    }

    /** After `populateTileTree`, the lod count is the number of level directories up to and
        including the last present one; without any, it is `1 - baseSplit`, which is not
        positive for the constructor's `baseSplit > 0`. */
    lemma LODCountLevels(listing: Listing)
      requires nResolutionLevels == LevelCount(listing, baseSplit)
      ensures LastLevel(listing, MaxResolutionLevels).Some? ==>
                LODCount() == LastLevel(listing, MaxResolutionLevels).value + 1
      ensures LastLevel(listing, MaxResolutionLevels).None? ==>
                LODCount() == 1 - baseSplit && (baseSplit > 0 ==> LODCount() <= 0)
      ensures LODCount() <= 0 <==> LastLevel(listing, MaxResolutionLevels).None? && baseSplit > 0
    {
    }

    /** `getVTileCount(lod) = 1 << (lod + baseSplit)`: a power of two. */
    function VTileCount(lod: int): (r: nat)
      requires lod + baseSplit >= 0
      ensures IsPowerOfTwo(r) && r == Pow2(lod + baseSplit)
    {
      PowerOfTwoPow2(lod + baseSplit);
      Pow2(lod + baseSplit)
    }

    /** `getUTileCount(lod) = 2 << (lod + baseSplit)`: always twice the v count. */
    function UTileCount(lod: int): (r: nat)
      requires lod + baseSplit >= 0
      ensures r == 2 * VTileCount(lod) && IsPowerOfTwo(r)
    {
      PowerOfTwoPow2(lod + baseSplit + 1);
      Pow2(lod + baseSplit + 1)
    }

    /** `beginUsage`: a new frame. */
    method BeginUsage()
      modifies this`ticks, this`tilesRequested
      ensures ticks == old(ticks) + 1 && tilesRequested == 0
    {
      ticks := ticks + 1;
      tilesRequested := 0;
    }

    /** `lod >> baseSplit`: the level directory `loadTileTexture` reads a tile at tree depth
        lod from.  Every depth the trees can have, below `10 + baseSplit`, names one of the
        ten level directories, so `getTile` never trips the `lod < MaxResolutionLevels`
        assertion. */
    function LevelDirectory(lod: nat): (r: nat)
      ensures r == Shr(lod, baseSplit)
      ensures lod < MaxResolutionLevels + baseSplit ==> r < MaxResolutionLevels
    {
      LoadedLevelInRange(lod, baseSplit);
      Shr(lod, baseSplit)
    }

    /** The name `loadTileTexture` prints with `"level%d/tx_%d_%d"`, after shifting lod, u
        and v right by baseSplit. */
    function TileFileName(lod: nat, u: nat, v: nat): (name: string)
      ensures name == "level" + FormatNat(Shr(lod, baseSplit)) + "/" +
                      "tx_" + FormatNat(Shr(u, baseSplit)) + "_" + FormatNat(Shr(v, baseSplit))
    {
      "level" + FormatNat(Shr(lod, baseSplit)) + "/tx_" + FormatNat(Shr(u, baseSplit)) + "_" +
      FormatNat(Shr(v, baseSplit))
    }

    /** The `char filename[32]` buffer holds the name: once the level is one of the ten
        levels, and the shifted u and v are non-negative ints, the name and its terminating
        NUL fit in 32 bytes. */
    lemma {:induction false} TileFileNameFits(lod: nat, u: nat, v: nat)
      requires Shr(lod, baseSplit) < MaxResolutionLevels
      requires Shr(u, baseSplit) < 0x8000_0000 && Shr(v, baseSplit) < 0x8000_0000
      ensures |TileFileName(lod, u, v)| + 1 <= 32
    {
      assert Pow10(1) == 10;
      assert Pow10(10) == 10_000_000_000 by {
        assert Pow10(2) == 100;
        assert Pow10(5) == 100_000;
      }
      FormatNatLength(Shr(lod, baseSplit), 1);
      FormatNatLength(Shr(u, baseSplit), 10);
      FormatNatLength(Shr(v, baseSplit), 10);
    }

    /** `loadTileTexture`: the texture of the image at tilePath + file name + tileExt, when the
        image loads and both its sides pass `isPow2`. */
    function LoadTileTexture(lod: nat, u: nat, v: nat, load: ImageLoader): (r: Option<TileTexture>)
      requires LevelDirectory(lod) < MaxResolutionLevels
      ensures r.Some? <==> var img := load(tilePath + TileFileName(lod, u, v) + tileExt);
                            img.Some? && IsPow2(img.value.width) && IsPow2(img.value.height)
      ensures r.Some? ==> r.value.path == tilePath + TileFileName(lod, u, v) + tileExt
    {
      var pathname := tilePath + TileFileName(lod, u, v) + tileExt;
      match load(pathname)
      case None => None
      case Some(img) =>
        if IsPow2(img.width) && IsPow2(img.height) then Some(TileTexture(pathname, img))
        else None
    }

    /** The state `makeResident(tile, lod, u, v)` leaves a tile in that was in state s. */
    function MadeResident(s: TileState, lod: nat, u: nat, v: nat, load: ImageLoader): (r: TileState)
      requires !Settled(s) ==> LevelDirectory(lod) < MaxResolutionLevels
      ensures Settled(r) && (Settled(s) ==> r == s)
      ensures !Settled(s) ==> r.tex == LoadTileTexture(lod, u, v, load) && r.loadFailed == r.tex.None?
    {
      ResidentStep(s, if Settled(s) then None else LoadTileTexture(lod, u, v, load))
    }

    /** `makeResident`: load the tile's texture unless it is resident or failed before; a
        failed load is remembered. */
    method MakeResident(tile: Tile, lod: nat, u: nat, v: nat, load: ImageLoader)
      requires !Settled(tile.State()) ==> LevelDirectory(lod) < MaxResolutionLevels
      modifies tile
      ensures Settled(tile.State())
      ensures tile.State() == MadeResident(old(tile.State()), lod, u, v, load)
    {
      if tile.tex == None && !tile.loadFailed {
        tile.tex := LoadTileTexture(lod, u, v, load);
        if tile.tex == None {
          tile.loadFailed := true;
        }
      }
    }

    /** The descent loop of `getTile`: from the root `u >> lod`, follow the children chosen by
        the bits of (u, v) until a child is missing or depth lod is reached; `tile` is the
        deepest tile met and `tileLOD` the depth of the last node entered. */
    method FindTile(lod: nat, u: nat, v: nat) returns (node: nat, tile: Option<Tile>, tileLOD: nat)
      requires ValidTree(nodes) && u < 2 * Pow2(lod)
      ensures var root := RootIndex(u, lod);
              Found(node, tile, tileLOD) == Descend(nodes, root, TilePath(u, v, lod), 0, nodes[root].tile)
    {
      var root := RootIndex(u, lod);
      node := root;
      tile := nodes[root].tile;
      tileLOD := 0;
      ghost var path := TilePath(u, v, lod);
      var n: nat := 0;
      while n < lod
        invariant n <= lod && node < |nodes| && tileLOD == n
        invariant Descend(nodes, node, path, n, tile) == Descend(nodes, root, path, 0, nodes[root].tile)
      {
        var child := ChildIndex(u, v, lod - n - 1);
        assert child == path[n];
        DescendStep(nodes, node, path, n, tile);
        if nodes[node].children[child] == None {
          break;
        }
        node := nodes[node].children[child].value;
        if nodes[node].tile != None {
          tile := nodes[node].tile;
        }
        tileLOD := n + 1;
        n := n + 1;
      }
    }

    /** The tile the descent of `getTile` picks up hangs in one of the trees. */
    lemma {:induction false} FoundInTrees(root: nat, path: seq<Slot>)
      requires ValidTree(nodes) && root < |nodes|
      ensures var f := Descend(nodes, root, path, 0, nodes[root].tile);
              f.tile.Some? ==> f.tile.value in Tiles()
    {
      assert InArena(nodes, nodes[root].tile);
      DescendInArena(nodes, root, path, 0, nodes[root].tile);
      var f := Descend(nodes, root, path, 0, nodes[root].tile);
      if f.tile.Some? {
        var j :| 0 <= j < |nodes| && nodes[j].tile == f.tile;
      }
    }

    /** `getTile(lod, u, v)`.  The ghost results name the checked request and where the
        descent ended. */
    method GetTile(lod: int, u: int, v: int, load: ImageLoader)
      returns (t: TextureTile, ghost request: Option<Request>, ghost found: Found<Tile>)
      requires Valid()
      modifies this`tilesRequested, Tiles()
      ensures tilesRequested == old(tilesRequested) + 1
      ensures request == TileRequest(lod, u, v, baseSplit, nResolutionLevels)
      ensures request.None? ==> t == NullTile
      ensures request.Some? ==>
                var r := request.value;
                found == Descend(nodes, RootIndex(r.u, r.level), TilePath(r.u, r.v, r.level), 0,
                                 nodes[RootIndex(r.u, r.level)].tile)
      ensures request.Some? && found.tile.None? ==> t == NullTile
      ensures request.Some? && found.tile.Some? ==>
                var d := request.value.level - found.tileLOD;
                found.tile.value.State() ==
                  MadeResident(old(found.tile.value.State()), found.tileLOD,
                               Shr(request.value.u, d), Shr(request.value.v, d), load)
      ensures request.Some? && found.tile.Some? ==>
                t == SubTile(found.tile.value.tex, request.value.u, request.value.v,
                             request.value.level - found.tileLOD)
      ensures nodes == old(nodes)
      ensures forall x :: x in old(Tiles()) && (request.None? || found.tile.None? || x != found.tile.value) ==>
                x.State() == old(x.State())
    {
      tilesRequested := tilesRequested + 1;
      var checked := TileRequest(lod, u, v, baseSplit, nResolutionLevels);
      request := checked;
      if checked.None? {
        return NullTile, request, Found(0, None, 0);
      }
      var level, tu, tv := checked.value.level, checked.value.u, checked.value.v;
      var node, tile, tileLOD := FindTile(level, tu, tv);
      found := Found(node, tile, tileLOD);
      if tile.None? {
        return NullTile, request, found;
      }
      FoundInTrees(RootIndex(tu, level), TilePath(tu, tv, level));
      var lodDiff := level - tileLOD;
      var tileU := Shr(tu, lodDiff);
      var tileV := Shr(tv, lodDiff);
      MakeResident(tile.value, tileLOD, tileU, tileV, load);
      if tile.value.tex.None? {
        return NullTile, request, found;
      }
      t := TextureTile(tile.value.tex.value, SubRectOffset(tu, lodDiff), SubRectOffset(tv, lodDiff), lodDiff);
    }

    /** `addTileToTree(tile, lod, u, v)`: walk the path of (u, v) from the root `u >> lod`,
        creating missing children, and store the tile at the end unless a tile is there. */
    method AddTileToTree(tile: Tile, lod: nat, u: nat, v: nat)
      requires ValidTree(nodes) && u < 2 * Pow2(lod)
      modifies this`nodes
      ensures nodes == AddPath(old(nodes), RootIndex(u, lod), tile, TilePath(u, v, lod), 0)
    {
      var root := RootIndex(u, lod);
      var node: nat := root;
      ghost var path := TilePath(u, v, lod);
      var i: nat := 0;
      while i < lod
        invariant i <= lod && ValidTree(nodes) && node < |nodes|
        invariant AddPath(nodes, node, tile, path, i) == AddPath(old(nodes), root, tile, path, 0)
      {
        var child := ChildIndex(u, v, lod - i - 1);
        assert child == path[i];
        AddPathStep(nodes, node, tile, path, i);
        if nodes[node].children[child] == None {
          var n := nodes[node];
          nodes := nodes[node := n.(children := n.children[child := Some(|nodes|)])] + [EmptyNode()];
        }
        node := nodes[node].children[child].value;
        i := i + 1;
      }
      if nodes[node].tile == None {
        nodes := nodes[node := nodes[node].(tile := Some(tile))];
      }
    }

    /** `populateTileTree`: for each of the ten level directories that is present, take the
        tiles its file names name, at tree depth level + baseSplit; then count the levels. */
    method PopulateTileTree(listing: Listing)
      requires ValidTree(nodes)
      modifies this`nodes, this`nResolutionLevels
      ensures ValidTree(nodes) && Extends(old(nodes), nodes)
      ensures nResolutionLevels == LevelCount(listing, baseSplit)
      ensures LevelsStored(nodes, listing, baseSplit, MaxResolutionLevels)
      ensures OnlyAccepted(old(nodes), nodes, listing, baseSplit)
    {
      var maxLevel := 0;
      var i := 0;
      ghost var placed: seq<Placement> := [];
      while i < MaxResolutionLevels
        invariant i <= MaxResolutionLevels
        invariant maxLevel == match LastLevel(listing, i) case None => 0 case Some(l) => l + baseSplit
        invariant Populating(old(nodes), nodes, listing, baseSplit, i, placed)
      {
        if i in listing {
          maxLevel := i + baseSplit;
          placed := TakeLevel(listing, i, old(nodes), placed);
        }
        LevelsStoredStep(nodes, listing, baseSplit, i);
        i := i + 1;
      }
      nResolutionLevels := maxLevel + 1;
      PlacedAccepted(old(nodes), nodes, listing, baseSplit, placed);
    }

    /** The inner loop of `populateTileTree`: every file of level directory i, in order. */
    method TakeLevel(listing: Listing, i: nat, ghost origin: seq<QuadNode<Tile>>, ghost placed: seq<Placement>)
      returns (ghost placed': seq<Placement>)
      requires i < MaxResolutionLevels && i in listing
      requires Populating(origin, nodes, listing, baseSplit, i, placed)
      modifies this`nodes
      ensures Populating(origin, nodes, listing, baseSplit, i, placed') && LevelStored(nodes, listing, baseSplit, i)
    {
      var files := listing[i];
      var k := 0;
      placed' := placed;
      while k < |files|
        invariant k <= |files| && TakenUpTo(origin, nodes, listing, baseSplit, i, k, placed')
      {
        placed' := TakeFile(listing, i, k, origin, placed');
        k := k + 1;
      }
      LevelDone(nodes, listing, baseSplit, i, k);
    }

    /** One pass of the inner loop of `populateTileTree`: file k of level directory i becomes
        a tile of the trees when `AcceptTile` accepts it; the ghost `placed` records the tiles
        taken so far. */
    method TakeFile(listing: Listing, i: nat, k: nat, ghost origin: seq<QuadNode<Tile>>, ghost placed: seq<Placement>)
      returns (ghost placed': seq<Placement>)
      requires i < MaxResolutionLevels && i in listing && k < |listing[i]|
      requires TakenUpTo(origin, nodes, listing, baseSplit, i, k, placed)
      modifies this`nodes
      ensures TakenUpTo(origin, nodes, listing, baseSplit, i, k + 1, placed')
    {
      var maxLevel := i + baseSplit;
      var accepted := AcceptTile(listing[i][k], maxLevel);
      if accepted.Some? {
        placed' := TakeTile(listing, i, k, maxLevel, accepted.value, origin, placed);
      } else {
        FileSkipped(origin, nodes, listing, baseSplit, i, k, maxLevel, placed);
        placed' := placed;
      }
    }

    /** The accepted file k of level directory i becomes a new tile at c. */
    method TakeTile(listing: Listing, i: nat, k: nat, lod: nat, c: (nat, nat), ghost origin: seq<QuadNode<Tile>>,
                    ghost placed: seq<Placement>) returns (ghost placed': seq<Placement>)
      requires i < MaxResolutionLevels && i in listing && k < |listing[i]| && lod == i + baseSplit
      requires AcceptTile(listing[i][k], lod) == Some(c)
      requires TakenUpTo(origin, nodes, listing, baseSplit, i, k, placed)
      modifies this`nodes
      ensures TakenUpTo(origin, nodes, listing, baseSplit, i, k + 1, placed')
    {
      var tile := new Tile();
      ghost var before := nodes;
      AddTileToTree(tile, lod, c.0, c.1);
      TileTaken(origin, before, nodes, tile, listing, baseSplit, i, k, lod, placed, c);
      placed' := placed + [(i, c)];
    }
  }
}
