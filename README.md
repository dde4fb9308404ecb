# Virtual textures and the level-of-detail sphere mesh, modelled in Dafny

This project models two parts of Celestia's rendering engine and proves properties of them.

**Virtual textures** (`virtualtex.cpp`). A virtual texture is split into tiles. The tiles are
loaded from the level directories `level0` … `level9` under the texture's tile path when they
are first used. The tiles of every level of detail hang in two quadtrees, one per half of the
texture, because a level is twice as wide as it is high.

- `populateTileTree` scans each level directory for files named `tx_<u>_<v>.<ext>`.
  `addTileToTree` walks the bits of (u, v) down from the root `u >> lod`, creating missing
  nodes. It stores the tile only in an empty slot.
- `getTile` range-checks a request and walks the same path. It stops at the first missing
  child and keeps the deepest tile it met. `makeResident` then makes that tile resident,
  loading it at most once. `getTile` returns the tile's texture with the sub-rectangle for
  the requested cell.
- `CreateVirtualTexture` checks a texture description's parameters.
  `LoadVirtualTexture` takes the description file's directory as the base path.

The quadtree nodes live in an arena (`TileQuadtree`). A sequence indexed by node number holds
them. A child pointer is an index, NULL is `None`, and `new TileQuadtreeNode()` appends a node.
The walks are specified by functions over an explicit path of child slots:
- `AddPath` for `addTileToTree`;
- `Descend` for the loop of `getTile`.

The methods `AddTileToTree`, `FindTile`, `GetTile`, `MakeResident` and `PopulateTileTree` are
proved against those functions.

**The LOD sphere mesh** (`lodspheremesh.cpp`). Both `render` overloads start the same way.
They clamp a bias into a power-of-two level of detail, derive from it the grid step and the
number of sections per axis, and fill the index buffer with quad-strip vertex numbers. Then
they draw the `split × split` sections with `renderSection`. That method writes each section's
vertex grid into fixed-size buffers, reading shared sine and cosine tables. After the grid it
draws one quad strip per ring.

- `SphereGrid` holds the tables, the vertex and tangent formulas and the grid writer.
- `LODSphereMesh` holds the layout arithmetic, the index buffer and the `Mesh` class, whose
  methods mirror `render` and `renderSection`.
- The buffer loops are methods with loop invariants. Each states the buffer contents it leaves
  as a function of the inputs: the grid of `Position`, `TexCoord` and `Tangent` values, or the
  index pattern `IndexAt`.
- The inner loop bodies of `render` and `renderSection` are separate methods, to keep each
  proof small: `FillRing`, `WriteGridRow`, `DrawRow` and `DrawSection`.

**Support modules:**
- `Bits`: shifts, AND and OR, and 32-bit patterns;
- `Decimal`: `sprintf`'s and `sscanf`'s `%d`;
- `Wrappers`: `Option` and `Result`.

**Source quirks kept in the model:**
- `getTile` shifts the requested lod left by baseSplit instead of adding it
  (`VirtualTex.RequestLodQuirk`).
- `loadTileTexture` shifts lod, u and v right by baseSplit.
- `getLODCount` of a texture without any level directory is `1 - baseSplit`, which is 0 or
  negative, because `populateTileTree` starts `maxLevel` at 0 and sets `nResolutionLevels` to
  `maxLevel + 1` (`VirtualTex.VirtualTexture.LODCountLevels`).
- `tileLOD` is the depth of the last node entered, not the depth of the tile found.
- `CreateVirtualTexture` accepts a BaseSplit of 0, which the constructor's assertion then
  rejects (`VirtualTexConfig.BaseSplitZeroConflict`).

## Model

| member | source | states |
|---|---|---|
| VirtualTex.IsPow2 | celestia/src/celengine/virtualtex.cpp:38-41 | `(x & (x - 1)) == 0` on the 32-bit pattern, with `x - 1` on the two's-complement wrap, holds exactly for 0, for INT_MIN and, among positive ints, for the powers of two |
| VirtualTex.IsPow2Pattern | celestia/src/celengine/virtualtex.cpp:38-41 | the bit pattern characterisation behind `IsPow2`, case by case: positive, zero, INT_MIN, other negatives |
| VirtualTex.TileSizeCheck | celestia/src/celengine/virtualtex.cpp:66 | for a positive tile size, `isPow2` is exactly "is a power of two"; the `tileSize != 0` test is what excludes 0 |
| VirtualTex.VirtualTexture.constructor | celestia/src/celengine/virtualtex.cpp:54-71 | requires the constructor's two assertions; gives two empty roots, extension `.<tileType>`, ticks 0, the trees populated from the listing and the level count; every node holding a tile ends the path of a tile accepted from the listing |
| VirtualTex.VirtualTexture.LODCount | celestia/src/celengine/virtualtex.cpp:163-166 | the LOD count plus baseSplit is `nResolutionLevels`; in a valid texture it lies between `1 - baseSplit` (no level directory) and the ten level directories |
| VirtualTex.VirtualTexture.LODCountLevels | celestia/src/celengine/virtualtex.cpp:163-166 | after `populateTileTree`, the LOD count is the number of level directories up to the last present one, or `1 - baseSplit` when none is present; it is not positive exactly in that empty case |
| VirtualTex.VirtualTexture.UTileCount | celestia/src/celengine/virtualtex.cpp:169-172 | the u tile count is a power of two and exactly twice the v tile count |
| VirtualTex.VirtualTexture.VTileCount | celestia/src/celengine/virtualtex.cpp:175-178 | the v tile count is the power of two `2^(lod + baseSplit)` |
| VirtualTex.VirtualTexture.BeginUsage | celestia/src/celengine/virtualtex.cpp:181-185 | ticks goes up by one and the request counter is reset; nothing else changes |
| VirtualTex.TileRequest | celestia/src/celengine/virtualtex.cpp:84-90 | a request is served exactly when the shifted lod is in [0, levels) and (u, v) is in `[0, 2 << lod) × [0, 1 << lod)`; otherwise the null tile |
| VirtualTex.RequestLevel | celestia/src/celengine/virtualtex.cpp:84-93 | a served request reads level `lod · 2^baseSplit`, and `u >> lod` names one of the two roots |
| VirtualTex.RequestLodQuirk | celestia/src/celengine/virtualtex.cpp:84-87 | with baseSplit 1 and all ten levels present there are 10 LODs, but only LODs 0 to 5 are served |
| VirtualTex.VirtualTexture.FindTile | celestia/src/celengine/virtualtex.cpp:93-113 | the descent loop ends where `Descend` says: first missing child, deepest tile met, depth of the last node entered |
| VirtualTex.CellInGrid | celestia/src/celengine/virtualtex.cpp:120-121 | the cell `(u >> lodDiff, v >> lodDiff)` of the found tile lies in the grid of the tile's own level |
| VirtualTex.SubRectOffset | celestia/src/celengine/virtualtex.cpp:142-145 | the offset numerator `u & ((1 << lodDiff) - 1)` is below `2^lodDiff` and completes `(u >> lodDiff) << lodDiff` to u |
| VirtualTex.SubTile | celestia/src/celengine/virtualtex.cpp:128-150 | no texture gives the null tile; otherwise the texture with in-range u and v offsets over `2^lodDiff` that complete the tile's cell |
| VirtualTex.VirtualTexture.GetTile | celestia/src/celengine/virtualtex.cpp:79-153 | counts the request, applies `TileRequest`, descends as `Descend`, makes the found tile resident as `MadeResident` at (tileLOD, u >> lodDiff, v >> lodDiff), and returns `SubTile` or the null tile; the arena is unchanged and every other tile keeps its state |
| VirtualTex.VirtualTexture.FoundInTrees | celestia/src/celengine/virtualtex.cpp:94-113 | a tile the descent finds hangs in the trees |
| VirtualTex.ResidentStep | celestia/src/celengine/virtualtex.cpp:231-237 | after makeResident a tile is resident or marked failed; a settled tile is left alone; an unsettled one gets the loader's result |
| VirtualTex.ResidentOnce | celestia/src/celengine/virtualtex.cpp:228-238 | load once: a second makeResident changes nothing, whatever the loader would now return |
| VirtualTex.VirtualTexture.MadeResident | celestia/src/celengine/virtualtex.cpp:228-238 | the state makeResident leaves: settled, unchanged if it was settled, else the loaded texture with `loadFailed` set exactly when loading failed |
| VirtualTex.VirtualTexture.MakeResident | celestia/src/celengine/virtualtex.cpp:228-238 | the tile's new state is `MadeResident` of its old state |
| VirtualTex.VirtualTexture.LevelDirectory | celestia/src/celengine/virtualtex.cpp:205-208 | `lod >> baseSplit`; every tree depth below `10 + baseSplit` maps to one of the ten level directories, so the assertion holds |
| VirtualTex.VirtualTexture.TileFileName | celestia/src/celengine/virtualtex.cpp:205-211 | the name is `level<lod>/tx_<u>_<v>` of the three values shifted right by baseSplit |
| VirtualTex.VirtualTexture.TileFileNameFits | celestia/src/celengine/virtualtex.cpp:210-211 | for a level below 10 and 31-bit u and v, the name and its NUL fit the 32-byte buffer |
| VirtualTex.VirtualTexture.LoadTileTexture | celestia/src/celengine/virtualtex.cpp:203-225 | a texture comes back exactly when the image at `tilePath + name + tileExt` loads and both sides pass `isPow2`; it is named by that path |
| VirtualTex.ScanTileName | celestia/src/celengine/virtualtex.cpp:264 | `sscanf "tx_%d_%d."` yields two values only for a name that starts with `tx_` |
| VirtualTex.TileNameScans | celestia/src/celengine/virtualtex.cpp:262-264 | a name written as `tx_<u>_<v><ext>` scans back to (u, v) when ext does not start with a digit |
| VirtualTex.AcceptTile | celestia/src/celengine/virtualtex.cpp:264-266 | a file is accepted exactly when both values scan and `0 <= u < 2 << maxLevel`, `0 <= v < 1 << maxLevel`; it yields the scanned pair |
| VirtualTex.TileFileAccepted | celestia/src/celengine/virtualtex.cpp:264-266 | a tile file named for an in-grid (u, v) is accepted with exactly that (u, v) |
| VirtualTex.AcceptedFiles | celestia/src/celengine/virtualtex.cpp:260-271 | the tiles of one directory, in listing order; at most one per file |
| VirtualTex.AcceptedFilesExactly | celestia/src/celengine/virtualtex.cpp:260-271 | a pair is among those taken exactly when some file of the directory is accepted with it |
| VirtualTex.LastLevel | celestia/src/celengine/virtualtex.cpp:244-255 | the last present level directory below k, and no present one after it; or none present at all |
| VirtualTex.LevelCount | celestia/src/celengine/virtualtex.cpp:244-278 | `nResolutionLevels` is 1 with no level directory, else last present level + baseSplit + 1; between 1 and `10 + baseSplit` |
| VirtualTex.LevelCountCovers | celestia/src/celengine/virtualtex.cpp:254-278 | every present level's tree depth is below the level count |
| VirtualTex.AddedStaysStored | celestia/src/celengine/virtualtex.cpp:266-271 | adding a tile keeps every tile stored so far findable and makes the new one findable |
| VirtualTex.VirtualTexture.PopulateTileTree | celestia/src/celengine/virtualtex.cpp:241-279 | the tree only grows; every accepted tile of every present level is stored at depth level + baseSplit; conversely every node holding a tile held one before or ends the path of an accepted tile (`OnlyAccepted`); the level count is `LevelCount` |
| VirtualTex.VirtualTexture.TakeLevel | celestia/src/celengine/virtualtex.cpp:260-271 | the loop over one directory's files: the files' tiles are all stored, and the placements taken are still the only tiles |
| VirtualTex.VirtualTexture.TakeFile | celestia/src/celengine/virtualtex.cpp:262-271 | one file: an accepted file's tile is added, any other file changes nothing; `TakenUpTo` holds for the files up to and including it |
| VirtualTex.VirtualTexture.TakeTile | celestia/src/celengine/virtualtex.cpp:266-270 | a new tile for an accepted file is added at the file's (u, v), recorded as a placement |
| VirtualTex.TileTaken | celestia/src/celengine/virtualtex.cpp:266-270 | adding the tile of an accepted file keeps every earlier placement stored at the same node, stores the new one, puts a tile nowhere else, and the new placement is accepted |
| VirtualTex.FileSkipped | celestia/src/celengine/virtualtex.cpp:262-266 | a file that is not accepted adds nothing, and the files up to it are still all stored |
| VirtualTex.AddedOnlyThere | celestia/src/celengine/virtualtex.cpp:282-298 | a tile added by the walk hangs only at the end of its path, and the ends of the paths stored before stay where they were |
| VirtualTex.OnlyPlacedGrown | celestia/src/celengine/virtualtex.cpp:282-298 | when the trees gain a tile only at the end of a new placement's path and earlier ends stay put, every tile is still at an original node or at the end of some placement |
| VirtualTex.PlacedAccepted | celestia/src/celengine/virtualtex.cpp:241-279 | when every placement is accepted from the listing, every tile in the trees was there before or comes from the listing |
| VirtualTex.LevelDone | celestia/src/celengine/virtualtex.cpp:260-271 | after the last file of a directory every accepted tile of that level is stored |
| VirtualTex.VirtualTexture.AddTileToTree | celestia/src/celengine/virtualtex.cpp:282-299 | the arena after the walk is `AddPath` of the arena before it |
| TileQuadtree.RootIndex | celestia/src/celengine/virtualtex.cpp:284 | for `u < 2 << lod` the root `u >> lod` is 0 for the left half and 1 for the right half |
| TileQuadtree.ChildIndex | celestia/src/celengine/virtualtex.cpp:99-100 | the child index is `2 · bit_k(v) + bit_k(u)`, hence below 4 |
| TileQuadtree.TilePath | celestia/src/celengine/virtualtex.cpp:97-100 | step n of the path takes the child of bit `lod - n - 1`; insert and lookup both use it |
| TileQuadtree.Link | celestia/src/celengine/virtualtex.cpp:290-291 | a missing child is linked to a new empty node at the end of the arena; nothing else changes |
| TileQuadtree.StoreTile | celestia/src/celengine/virtualtex.cpp:296-298 | first writer wins: an existing tile is kept, an empty slot gets the new tile |
| TileQuadtree.AddPath | celestia/src/celengine/virtualtex.cpp:284-298 | the walk of `addTileToTree` keeps the arena well formed and only extends it |
| TileQuadtree.AddPathShape | celestia/src/celengine/virtualtex.cpp:284-298 | the arena after the walk, node by node: unchanged off the path, the last existing node linked to the first new one (or given the tile if it held none), and one new node per missing level, the last holding the tile |
| TileQuadtree.AddPathTiles | celestia/src/celengine/virtualtex.cpp:284-298 | the walk gives a tile to no node but the end of the path: every other node keeps its tile, and the new nodes on the way hold none |
| TileQuadtree.AddPathEnd | celestia/src/celengine/virtualtex.cpp:284-298 | after the walk the descent of the same path ends at the node `PathEnd` names |
| TileQuadtree.AddPathStep | celestia/src/celengine/virtualtex.cpp:286-292 | one step follows an existing child, or links a new one and follows that |
| TileQuadtree.AddPathAllocates | celestia/src/celengine/virtualtex.cpp:286-293 | exactly the missing nodes are allocated: one per level below the depth the descent reached before |
| TileQuadtree.Descend | celestia/src/celengine/virtualtex.cpp:97-113 | the descent ends at the first missing child or at full depth; it carries the deepest tile met; tileLOD is the depth of the last node entered |
| TileQuadtree.DescendWalks | celestia/src/celengine/virtualtex.cpp:93-112 | the descent ends at the node the path leads to, every child up to there exists, the next one (if any) is missing, and the tile carried is the deepest one on the way, or the starting one when none is |
| TileQuadtree.DescendStep | celestia/src/celengine/virtualtex.cpp:102-112 | a missing child ends the descent in place; otherwise it continues from the child, carrying the child's tile if it has one |
| TileQuadtree.DescendInArena | celestia/src/celengine/virtualtex.cpp:108-110 | the descent only picks up tiles that hang in the arena |
| TileQuadtree.DescendPathIndependent | celestia/src/celengine/virtualtex.cpp:97-113 | where the descent ends does not depend on the tile carried |
| TileQuadtree.DescendExtends | celestia/src/celengine/virtualtex.cpp:97-113 | a descent that reached full depth still reaches it, at the same node, in a grown tree |
| TileQuadtree.AddPathReaches | celestia/src/celengine/virtualtex.cpp:284-298 | after the walk the descent reaches full depth, at the old node if there was one, holding the old tile or else the new one |
| TileQuadtree.AddThenFind | celestia/src/celengine/virtualtex.cpp:282-299 | add-then-find: after `addTileToTree` the lookup reaches depth L and yields the tile, which is the earlier one if a tile was already there |
| TileQuadtree.StoredExtends | celestia/src/celengine/virtualtex.cpp:286-298 | a stored tile stays stored, at the same node, however the tree grows |
| Decimal.FormatNat | celestia/src/celengine/virtualtex.cpp:211 | `%d` of a non-negative value is a non-empty run of digits with no leading zero |
| Decimal.ScanInt | celestia/src/celengine/virtualtex.cpp:264 | `%d` consumes at least one character when it succeeds |
| Decimal.ScanFormatted | celestia/src/celengine/virtualtex.cpp:264 | scanning what `%d` printed gives the number back and leaves the rest, when no digit follows |
| VirtualTexConfig.IntCast | celestia/src/celengine/virtualtex.cpp:329 | `(int) tileSize` truncates values below 2^31 |
| VirtualTexConfig.CreateVirtualTexture | celestia/src/celengine/virtualtex.cpp:302-342 | missing ImageDirectory fails first; success exactly when all checks pass; then the tile path `path/dir/`, BaseSplit, TileSize, and TileType defaulting to "dds" |
| VirtualTexConfig.CreateErrorOrder | celestia/src/celengine/virtualtex.cpp:305-333 | each error is reported exactly when its check is the first to fail |
| VirtualTexConfig.TileSizeAccepted | celestia/src/celengine/virtualtex.cpp:327-333 | below 2^31 a tile size is accepted exactly when it is a whole power of two of at least 64 |
| VirtualTexConfig.CreateFeedsConstructor | celestia/src/celengine/virtualtex.cpp:338-341 | accepted parameters with a positive base split and a 31-bit tile size meet the constructor's assertions |
| VirtualTexConfig.BaseSplitZeroConflict | celestia/src/celengine/virtualtex.cpp:312-318 | a description with BaseSplit 0 is accepted, and the constructor's `baseSplit > 0` assertion rejects it |
| VirtualTexConfig.LastSlash | celestia/src/celengine/virtualtex.cpp:385 | `rfind('/')` is a slash with no slash after it, or none when the name has no slash |
| VirtualTexConfig.DirectoryOf | celestia/src/celengine/virtualtex.cpp:384-387 | the path is everything before the final slash, or "." when there is none |
| VirtualTexConfig.DirectoryOfJoin | celestia/src/celengine/virtualtex.cpp:382-387 | stripping `dir/name` gives dir back |
| VirtualTexConfig.LoadVirtualTexture | celestia/src/celengine/virtualtex.cpp:345-390 | an unopened file, a missing `VirtualTexture` name and a non-hash value fail; otherwise the result is `CreateVirtualTexture` relative to the file's directory |
| VirtualTexConfig.LoadedTilePath | celestia/src/celengine/virtualtex.cpp:338-389 | a texture described by `dir/name` has its tiles under `dir/ImageDirectory/` |
| SphereGrid.TrigTables.Init | celestia/src/celengine/lodspheremesh.cpp:35-58 | allocates the four tables at `divisions + 1` entries and makes them hold sin and cos of every table angle |
| SphereGrid.FillTable | celestia/src/celengine/lodspheremesh.cpp:43-55 | the fill loop sets entries 0 to divisions to the sine and cosine of angle i |
| SphereGrid.OnUnitSphere | celestia/src/celengine/lodspheremesh.cpp:465-477 | where the tables hold sin and cos, each vertex lies on the unit sphere and each tangent has unit length |
| SphereGrid.TexCoordRange | celestia/src/celengine/lodspheremesh.cpp:447-469 | texture coordinates over the tables lie in [0, 1], running from 1 at angle 0 to 0 at the last entry |
| SphereGrid.AnglesSteps | celestia/src/celengine/lodspheremesh.cpp:453-460 | the loop variables run `a, a + step, …` and stay within [a, last] |
| SphereGrid.AnglesCount | celestia/src/celengine/lodspheremesh.cpp:453-460 | a loop from a to last in steps of step runs `(last - a) / step + 1` times |
| SphereGrid.RenderRow | celestia/src/celengine/lodspheremesh.cpp:483-497 | the untangented inner loop writes the row's positions and texture coordinates after the earlier vertices and leaves the rest of the buffers alone |
| SphereGrid.RenderRowTangents | celestia/src/celengine/lodspheremesh.cpp:458-481 | the same, plus each vertex's tangent at its place in the tangent buffer |
| SphereGrid.WriteGridRow | celestia/src/celengine/lodspheremesh.cpp:453-498 | row r of the section goes to grid entries `r · cols` to `r · cols + cols - 1` |
| SphereGrid.WriteGrid | celestia/src/celengine/lodspheremesh.cpp:443-499 | the vertex loops leave vertex k of the section equal to grid point k, row by row, for the section's `SectionCount` vertices; tangents only when asked; the rest of each buffer is unchanged |
| LODSphereMesh.BufferSizes | celestia/src/celengine/lodspheremesh.cpp:70-79 | the divisions, step counts and buffer sizes are the source's formulas (2145 vertices, 4160 indices); a vertex number fits an unsigned short |
| LODSphereMesh.Mesh.constructor | celestia/src/celengine/lodspheremesh.cpp:61-80 | fills the shared tables on first use only and allocates fresh buffers of the source's sizes |
| LODSphereMesh.LodOf | celestia/src/celengine/lodspheremesh.cpp:103-119 | the clamped LOD lies in [2, maxDivisions] |
| LODSphereMesh.LodIsPowerOfTwo | celestia/src/celengine/lodspheremesh.cpp:103-119 | the clamped LOD is `2^k` for the saturated exponent k in [1, 11], so a power of two |
| LODSphereMesh.ClampLod | celestia/src/celengine/lodspheremesh.cpp:213-229 | the clamp of both overloads, which agree line for line, computes `LodOf` |
| LODSphereMesh.LodAsWritten | celestia/src/celengine/lodspheremesh.cpp:112-119 | the clamp with 32-bit wrap-around in `lod * (1 << b)`; agrees with `LodOf` for non-positive biases |
| LODSphereMesh.LodBiasOverflow | celestia/src/celengine/lodspheremesh.cpp:116-128 | as written, the layout divides by zero exactly for biases of 25 and above; below 25 it agrees with `LodOf` |
| LODSphereMesh.ComputeLayout | celestia/src/celengine/lodspheremesh.cpp:121-135 | LOD and step are powers of two; `step · lod = 2048`; split is `32 / step` below minStep, else 1; the extents tile the sphere; `nSlices = 2 · nRings`; the counts fit 32 and 64 |
| LODSphereMesh.LayoutDetermined | celestia/src/celengine/lodspheremesh.cpp:121-135 | the consistency relations determine the whole layout from the LOD |
| LODSphereMesh.SplitLayout | celestia/src/celengine/lodspheremesh.cpp:125-131 | a step `2^s` below minStep gives `2^(5-s)` sections per axis of 32 rings and 64 slices |
| LODSphereMesh.WholeLayout | celestia/src/celengine/lodspheremesh.cpp:121-135 | a step of at least minStep gives one section of `2^(10-s)` rings and `2^(11-s)` slices |
| LODSphereMesh.IndexPattern | celestia/src/celengine/lodspheremesh.cpp:142-143 | with `k = i · w + j`, entry 2k is `i · w + j` and entry 2k + 1 is `(i + 1) · w + j` |
| LODSphereMesh.IndexBound | celestia/src/celengine/lodspheremesh.cpp:142-143 | every filled entry names one of the `(nRings + 1) · w` vertices of a section |
| LODSphereMesh.IndicesFit | celestia/src/celengine/lodspheremesh.cpp:70-79 | the filled prefix fits the 4160-entry index buffer, and every vertex number fits the vertex buffers and an unsigned short |
| LODSphereMesh.Mesh.FillIndices | celestia/src/celengine/lodspheremesh.cpp:137-146 | the first `2 · nRings · (nSlices + 1)` entries hold the strip pattern, within the buffer; the rest of the buffer is unchanged |
| LODSphereMesh.Mesh.FillRing | celestia/src/celengine/lodspheremesh.cpp:140-145 | ring i's pairs extend the filled prefix by `2 · (nSlices + 1)` entries |
| LODSphereMesh.DrawStrips | celestia/src/celengine/lodspheremesh.cpp:501-509 | one strip of `(nSlices + 1) · 2` indices per ring, ring i at offset `(nSlices + 1) · 2 · i` |
| LODSphereMesh.StripReadsValid | celestia/src/celengine/lodspheremesh.cpp:501-509 | every strip reads inside the filled prefix, and every vertex number it reads exists |
| LODSphereMesh.SectionGrid | celestia/src/celengine/lodspheremesh.cpp:501-502 | a section has `extent / 2 / step + 1` rows and `extent / step + 1` columns, within the buffers |
| LODSphereMesh.SectionArguments | celestia/src/celengine/lodspheremesh.cpp:501-502 | the ring and slice counts `renderSection` recomputes from the extent equal the caller's |
| LODSphereMesh.Mesh.RenderSection | celestia/src/celengine/lodspheremesh.cpp:434-510 | the buffers hold the section's grid (tangents only when asked) and nothing beyond it changes; without the Tangents bit the tangent buffer is untouched; the section's vertex count fits; its strips are `StripsOf`; the returned record holds the buffer contents its strips read |
| LODSphereMesh.Mesh.RecordSection | celestia/src/celengine/lodspheremesh.cpp:500-509 | the record of a section drawn: its corner, vertex count and strips, and the buffers up to its vertex count, which hold its own grid (`SectionData`) |
| LODSphereMesh.Mesh.DrawSection | celestia/src/celengine/lodspheremesh.cpp:335-379 | a section is drawn, and appended to the list, exactly when the visibility test admits its corner; every section drawn read its own corner's grid; without the Tangents bit the tangent buffer is untouched |
| LODSphereMesh.Mesh.DrawRow | celestia/src/celengine/lodspheremesh.cpp:184-189 | one row of sections: the visible ones in theta order, each with the layout's vertex count and strips and reading its own corner's grid; without the Tangents bit the tangent buffer is untouched |
| LODSphereMesh.Mesh.DrawSections | celestia/src/celengine/lodspheremesh.cpp:182-190 | the visible sections of the `split × split` grid, row by row, each reading its own corner's grid; without the Tangents bit the tangent buffer is untouched |
| LODSphereMesh.GridSize | celestia/src/celengine/lodspheremesh.cpp:182-190 | without culling, the grid yields `split · split` sections |
| LODSphereMesh.Mesh.Render | celestia/src/celengine/lodspheremesh.cpp:101-196 | consistent layout of `LodOf(bias)`, index buffer filled within bounds, and every section drawn in order with the layout's counts and strips, its strips reading the positions, texture coordinates and (when asked) tangents of its own corner's grid; without the Tangents bit the tangent buffer is untouched |
| LODSphereMesh.Mesh.RenderDefault | celestia/src/celengine/lodspheremesh.cpp:95-98 | `render` with normals and texture coordinates but no tangents: all of `Render`'s promises with those attributes, `split · split` sections, and the tangent buffer untouched |
| LODSphereMesh.Mesh.RenderCulled | celestia/src/celengine/lodspheremesh.cpp:207-384 | as `Render` (including each section's grid and the untouched tangents without the Tangents bit), except that a split sphere draws only the sections the frustum test admits; an unsplit one always draws its single section |

## Left out

- The OpenGL calls (client state, pointers, `glDrawElements`) are not part of the model. A
  `glDrawElements` call is recorded as a `Strip` (offset and count), and a `renderSection`
  call as a `Section`, which also keeps what the vertex, texture coordinate and tangent
  buffers held up to its vertex count when its strips were drawn.
- Floats are modelled as reals, and float multiplication as exact multiplication (`Mul`).
  Rounding is ignored, including that of `1.0f - theta * du`.
- `sin` and `cos` are parameters, and they take the angle as a fraction of a turn, so `PI`
  does not appear.
- Frustum culling is out of scope. It uses float plane intersections and an `assert` on a
  float normal. `RenderCulled` takes its verdict as a function `inView` of the section's corner.
- lodspheremesh.h is not part of this model. The `attributes` bits are the booleans of
  `Attributes`, and only the tangent bit changes what is written.
- The normal buffer is allocated but never written. The same is true in the source, where
  `glNormalPointer` points at the vertex buffer.
- The destructor and the freeing of buffers are not modelled.
- The static tables pointer state is a `TrigTables` object passed to the constructor.
- `LODSphereMesh.BiasShift`: a NaN bias cannot be expressed with reals.
- LODSphereMesh.ClampLod: computes the corrected clamp `LodOf` for every bias, as do `Render`,
  `RenderDefault` and `RenderCulled`. For biases 25 to 30 the source's `lod * (1 << b)` wraps
  and the layout divides by zero (see Findings); `LodAsWritten` and `LodBiasOverflow` model that.
- `VirtualTex.IsPow2`: at x = INT_MIN, `x - 1` is a signed overflow, which C++ leaves
  undefined. The model takes the two's-complement wrap to INT_MAX, so INT_MIN passes the test.
  This case is reachable: `VirtualTexConfig.IntCast` turns every whole TileSize of 2^31 or
  more into INT_MIN, and the model then accepts such sizes.
- VirtualTex.AcceptTile: the limits `2 << maxLevel` and `1 << maxLevel` are unbounded. In the
  source they are 32-bit ints. `2 << maxLevel` overflows from maxLevel 30, which C++ leaves
  undefined; with the usual two's-complement wrap no file of such a level is accepted.
- `VirtualTex.TileRequest`: `lod <<= baseSplit`, `2 << lod` and `1 << lod` are unbounded in
  the model. In the source a huge lod's shift overflows, which C++ leaves undefined.
- `VirtualTex.VirtualTexture.UTileCount`: requires `lod + baseSplit >= 0`, so a negative shift
  count is not modelled, and its result is unbounded, so shift counts of 31 or more are not
  modelled either. Both are undefined in C++.
- `VirtualTex.VirtualTexture.VTileCount`: requires `lod + baseSplit >= 0`, so a negative shift
  count is not modelled, and its result is unbounded, so shift counts of 31 or more are not
  modelled either. Both are undefined in C++.
- `ticks` and `tilesRequested` are unbounded counters.
- Console output (`cout`, `DPRINTF`) is left out.
- `bind` and `endUsage` are left out; they do nothing.
- The file system is an input.
  - A level is present when `IsDirectory` and `OpenDirectory` both succeed. A present level's
    listing is the sequence of names `nextFile` returns.
  - `LoadImageFromFile` is a function from path name to an optional image size.
  - The `ImageTexture` and its GL name are identified by the tile's path, and `delete img` is
    not modelled.
- `Decimal.ScanInt`: `%d` is read as an unbounded integer. Out-of-range input, which is
  undefined for `sscanf`, is not modelled.
- The tokenizer and the parser are not part of this model. `LoadVirtualTexture` takes their
  outcomes as inputs: whether the stream is good, the first token, and the parsed value.
- `Hash::getString` and `Hash::getNumber` are lookups in a map of values (`GetString`,
  `GetNumber`).
- `VirtualTexConfig.CreateFeedsConstructor`: requires the base split below 2^32 and the tile
  size below 2^31. The wrapping `(unsigned int)` casts of larger doubles are not modelled.
- The `#if 0` code is left out: `lodOffset`, `tileIndex` and the frustum debug drawing.

## Findings

| source | as written | input that shows it | evidently intended | confidence | as-written member | corrected member |
|---|---|---|---|---|---|---|
| celestia/src/celengine/lodspheremesh.cpp:116-128 | `lod = lod * (1 << (int) lodBias)` overflows a 32-bit int from a bias of 25 on: it wraps to INT_MIN at 25 and to 0 from 26. The clamp `lod > maxDivisions` does not catch either value, so `maxDivisions / lod` divides by zero (from 26) or gives step 0, and then `minStep / step` divides by zero (at 25) | `lodBias = 25.0`, or any bias of 25 to 30 | large biases saturate at `lod = maxDivisions`, as biases 5 to 24 do | not executed | LODSphereMesh.LodBiasOverflow | LODSphereMesh.LodOf |
