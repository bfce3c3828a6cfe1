# Tellurion: a verified model

A model in Dafny of the parts of Tellurion whose correctness rests on this
repository's own code, and proofs of what those parts are for.

**Cloud-optimized GeoTIFFs.** A raster is streamed band by band into compressed
tiles, a power-of-two pyramid is built from each level's own tiles, and
directories and tiles are laid out by a two-pass offset computation
(`Raster`, `Chunks`, `Deflate`, `Author`, `PyramidBuild`, `PalettedSource`,
`Tiff`, `GeoKeys`, `CogFile`). The reader walks the directories, finds chunks by offset and
reassembles any pixel window (`Pixels`, `WindowReader`, `CogOpen`). `RoundTrip`
joins the two ends: what is read is the crop of the whole image halved k times.
Images are functions of column, row and channel; buffers are flat arrays. `Grid`
holds the row-major addressing, with products and quotients as recursive
functions (`Grid.MulIs` and `Grid.DivModAre` say they are the usual ones). The
compression library is any codec that inflates what it deflated and does not
expand it past the reader's own ceiling (`Deflate.StoringIsLossless`: there are
such codecs).

**Tiles and mosaics.** Overview choice, window clamping and warping over reals
(`Globe`, `TilePlan`), bounded concurrent reads under any schedule (`Gather`), source
selection and ordered composition (`Mosaic`).

**The outbox applier.** Any number of replicas drain one append-only log into a
version-gated sink whose own high-water is the only cursor (`Applier`). The sink
and the log follow the in-memory fixtures of `applier.rs`, where an obligation's
version is its sequence.

**The control store.** Revisions, idempotent replay, outbox, audit and projected
tables in one transaction. `ControlModel` is the abstract store and what its runs
keep; `ControlRows` what the derived tables show of a snapshot; `ControlTables` the ten tables; `ControlBackends` the SQLite and PostgreSQL
transactions, each on a copy of the tables that replaces them or is dropped.

**The licence gate.** A recursive-descent parser over SPDX token lists whose one
boolean is shown to speak about all licence choices (`Spdx`).

**Admission, ranged reads, assets.** The lock-free permit counter with its queue
as a state machine over single atomic operations (`Admission`), the shares and the
registry that hands them out (`FairShares`, `AdmissionRegistry`), the
one-window cache under a shared budget (`RemoteReader`), the upload life cycle
for both object-store profiles (`Assets`) and the hand-written codec (`Base64`).

Four promises turned out to have exact conditions.

- A written file addresses its tiles correctly if and only if its last tile
  starts below 4 GiB: `write_cog` checks single tile lengths, but its offsets are
  32-bit sums (`CogFile.AllOffsetsRightIff`; five 1 GiB tiles are enough,
  `RoundTrip.FiveLargeTiles`). Everything about reading such a file back holds
  under that condition.
- An authored file is on the globe when it is opened if and only if the first
  (count mod 2^16) keys of the input's key directory already say so: the
  directory is copied number by number into sixteen bits, its count included
  (`RoundTrip.KeysSurviveIff`, `GeoKeys.ManyKeysAreLost`). It takes a directory of
  at least 65536 keys; whether the TIFF library hands out one that long depends on
  its own limits, which are not part of this model.
- The permits of a tenant stay within its current limit if and only if the
  limits stored for it never fall (`Admission.LimitHoldsIff`, the two steps that
  pass it in `Admission.StepPassesLimitIff`, the smallest run in
  `Admission.LoweredLimitIsPassed`); they always stay within the largest one.
- A seek agrees with the plain byte array if and only if its target is below
  2^63: `SeekFrom::Start` is converted to a signed number
  (`RemoteReader.HttpRangeReader.Seek`, `RemoteReader.WrapIsExactIff`).

A mosaic tile reads only the sources whose declared box meets it. With exact
boxes this is exact on every tile (`Mosaic.SelectionIsExact`). A declared box may
differ from the measured one by 1e-9 degrees; which tiles that could touch is
said exactly by `Mosaic.SelectionSufficesIff`, and no tile that is served is one
of them: zoom ends at 24 (`crates/tellurion-core/src/config.rs:45`), a tile has
256 pixels (`crates/tellurion-cog/src/driver.rs:58`), and half a pixel is more
than the tolerance (`Mosaic.ServedTilesLoseNothing`).

What a caller or the outside world decides is a parameter: the clock and the
deadline of an operation, the answers of an HTTP server, of a lease coordinator and
of the shutdown channel, a new asset's unique id,
whether a put fails, the control model's `apply_control_changes` and validation,
the SHA-256 function, the inverse Mercator latitude (strictly southward, and for
`Mosaic.ServedTilesLoseNothing` at least 31 degrees a world, where the true slope
is at least 360 / cosh(pi), about 31.06).

## Model

| member | source | states |
|---|---|---|
| `RoundTrip.ReadAuthored` | crates/tellurion-cog/src/reader.rs:634-774 | Author, open and read is exact: for every image, channel count, tile size, kernel, level and window, the pixels read from the bytes of an authored file that 32 bits can address are the crop of the image halved that many times, widened to RGBA |
| `RoundTrip.AuthorThenRead` | crates/tellurion-cog/src/author.rs:1502-1576 | The whole way from a plain source raster to the pixels of any window of any level of the written file: every 2^k-th pixel of the raster, unblended, for a palette or if asked for, otherwise the mean of the level before; each refusal has its exact condition: authoring refuses, the last tile starts at 4 GiB or later, the copied key directory no longer places the file, or the level before already fits one tile |
| `RoundTrip.AuthorCog` | crates/tellurion-cog/src/author.rs:212-385 | Authoring fails exactly on a refused input, a source chunk of no known length or a tile of 4 GiB; otherwise the file is the two-pass layout of the whole pyramid of the source image under the input's own tags, and each level is every 2^k-th pixel of the image for a palette or if asked for, else the mean of the level before |
| `RoundTrip.CheckInput` | crates/tellurion-cog/src/author.rs:212-343 | The refusals by name: a tile size of zero, more than one image, an averaged or striped palette, other bands, another compression, a colour table of another size, a file that is not on the WGS84 globe; and what is carried over otherwise |
| `RoundTrip.KeysSurviveIff` | crates/tellurion-cog/src/author.rs:325-343 | The copied key directory places the file if and only if the first (count mod 2^16) keys of the original do, which fewer than 65536 keys always do |
| `RoundTrip.FiveLargeTiles` | crates/tellurion-cog/src/author.rs:911-926 | A raster of many small chunks that becomes five 1 GiB tiles passes every check of authoring, and the offset of the fifth tile is recorded wrong |
| `RoundTrip.OpenAuthored` | crates/tellurion-cog/src/reader.rs:497-569 | Opening an addressable authored file succeeds if and only if its tags place it on the globe, and returns its band layout, every level with its true size and tiling in pyramid order, no missing value, and the place its tags give |
| `RoundTrip.AuthoredOpens` | crates/tellurion-cog/src/reader.rs:497-588 | The same as a law: what opening finds in an addressable authored file is what it was authored from |
| `RoundTrip.DirectoriesReadBack` | crates/tellurion-cog/src/author.rs:864-965 | Following the header and the `nextIFD` chain of a written file recovers each level's complete tag list |
| `RoundTrip.LevelReadsBack` | crates/tellurion-cog/src/reader.rs:429-484 | A written directory passes every support check and gives the level and band layout it was written from |
| `RoundTrip.LayoutFields` | crates/tellurion-cog/src/author.rs:833-851 | A written directory says that the samples of a pixel lie together, and that a fourth one is unassociated alpha |
| `RoundTrip.TileReadsBack` | crates/tellurion-cog/src/reader.rs:690-710 | The offset and byte count recorded for a tile lead to bytes that inflate to that tile |
| `RoundTrip.TileIsChunk` | crates/tellurion-cog/src/reader.rs:721-737 | A zero-padded tile of an image is a chunk of that image, padded and also when its padding is cut off |
| `RoundTrip.ChunkReadsBack` | crates/tellurion-cog/src/reader.rs:683-737 | Every chunk of every authored level is readable, by hand for a palette within the size ceiling, through the library otherwise, and shows the level's image |
| `RoundTrip.AuthoredIsReadable` | crates/tellurion-cog/src/reader.rs:634-774 | Every window of every level of an addressable authored file can be read, and carries that level of the pyramid |
| `RoundTrip.LevelsEnd` | crates/tellurion-cog/src/author.rs:355-361 | A file has no level k exactly if the level before it fits one tile |
| `Raster.AverageIsNearestInteger` | crates/tellurion-cog/src/author.rs:693-722 | The stored average is the mean of the four pixels it covers, or of those that exist at an odd edge, rounded to the nearest integer with halves upwards |
| `Raster.PyramidSize` | crates/tellurion-cog/src/author.rs:355-362 | Level k has ceil(width / 2^k) columns and ceil(height / 2^k) rows, odd sizes included |
| `Raster.NearestSubsamples` | crates/tellurion-cog/src/author.rs:733-752 | With the nearest kernel, pixel (x, y) of level k is pixel (2^k x, 2^k y) of the original |
| `Raster.PyramidIsLevel` | crates/tellurion-cog/src/author.rs:244-256 | Level n of a pyramid is, with the nearest kernel, every 2^n-th pixel of the original and no other value; with the averaging one each level is the rounded mean of the one before |
| `Raster.BandHalves` | crates/tellurion-cog/src/author.rs:756-799 | Halving a band of rows gives the matching rows of the halved image, at odd right and bottom edges too |
| `Chunks.Tiling.LayoutIsRight` | crates/tellurion-cog/src/reader.rs:721-737 | The layout chosen by the decoded length alone is the layout the chunk has, and no layout is chosen exactly for a length neither has |
| `Chunks.Tiling.LayoutsCoincide` | crates/tellurion-cog/src/reader.rs:721-737 | When padded and cut lengths are equal the chunk is not an edge chunk, so the length test is never ambiguous |
| `Chunks.PasteRows` | crates/tellurion-cog/src/author.rs:442-462 | The row-copy loop writes exactly the rows and columns the chunk and the band share, and nothing else |
| `Author.ExtractPaddedTile` | crates/tellurion-cog/src/author.rs:469-486 | A tile is the band from its column on, zero beyond the valid columns and rows |
| `Author.PushTileRow` | crates/tellurion-cog/src/author.rs:528-540 | One band becomes exactly the compressed tiles of its tile row |
| `Author.ReadTileRow` | crates/tellurion-cog/src/author.rs:655-685 | One row of stored tiles fills exactly its rows of the band with the image's own bytes |
| `Author.ReadLevelBand` | crates/tellurion-cog/src/author.rs:655-685 | A band read from a finished level's tiles is those rows of the level's image, padding dropped |
| `Author.SumBlock` | crates/tellurion-cog/src/author.rs:702-717 | The inner loops add up exactly the samples of the 2x2 block that exist |
| `Author.DownsampleBlock` | crates/tellurion-cog/src/author.rs:693-722 | The box kernel on a buffer is the halved image of that buffer |
| `Author.DownsampleNearest` | crates/tellurion-cog/src/author.rs:733-752 | The nearest kernel on a buffer is the subsampled image of that buffer |
| `Author.DownsampleBand` | crates/tellurion-cog/src/author.rs:765-788 | A new band computed from at most twice as many rows of the previous level is that band of the whole halved image |
| `Author.DownsampleBuild` | crates/tellurion-cog/src/author.rs:756-799 | Streaming refines the simple form: a level built two tile rows at a time shows one kernel step on the whole previous image |
| `PyramidBuild.ReadChunkRow` | crates/tellurion-cog/src/author.rs:404-462 | One row of source chunks fills exactly its part of the band, unless a chunk has a length no layout has |
| `PyramidBuild.ReadSourceRows` | crates/tellurion-cog/src/author.rs:390-465 | Rows of the source are read exactly whatever mix of padded and cut chunks it has; it fails exactly on a touched chunk of no known length |
| `PyramidBuild.BuildLevel0` | crates/tellurion-cog/src/author.rs:513-550 | The main level's tiles are those of the source image |
| `PyramidBuild.BuildLevels` | crates/tellurion-cog/src/author.rs:213-362 | The levels are the pyramid of the source image down to the first that fits one tile, subsampled for a palette or if asked for and averaged otherwise, and fail exactly for a tile size of zero, an averaged palette or a source chunk of no known length |
| `PalettedSource.ReadRawTile` | crates/tellurion-cog/src/author.rs:573-594 | A paletted source tile is accepted exactly if it is listed, plausible in size and inflates to one whole tile |
| `PalettedSource.OpenPalettedSource` | crates/tellurion-cog/src/author.rs:556-652 | A paletted source is a source whose unreadable tiles are exactly the ones of no known length |
| `Tiff.Bytes` | crates/tellurion-cog/src/tiff_write.rs:48-70 | A tag value's bytes are its items in order, little-endian |
| `Tiff.LittleEndian` | crates/tellurion-cog/src/tiff_write.rs:48-70 | Numbers are written and read least significant byte first (TIFF 6.0 section 2) |
| `Tiff.TypesAre` | crates/tellurion-cog/src/tiff_write.rs:25-70 | Types 3, 4 and 12 have two, four and eight bytes an item |
| `Tiff.IfdEncodedSize` | crates/tellurion-cog/src/tiff_write.rs:83-96 | The size counts the entries, the link and the values too long to be inline |
| `Tiff.EncodeEntry` | crates/tellurion-cog/src/tiff_write.rs:105-118 | One 12-byte entry, its value inline and zero-filled up to four bytes, otherwise behind the entries |
| `Tiff.EntryIs` | crates/tellurion-cog/src/tiff_write.rs:105-118 | An entry is id, type, count and value or offset, in this order and 12 bytes long |
| `Tiff.EncodeIfd` | crates/tellurion-cog/src/tiff_write.rs:98-125 | The directory with every external value at the offset its entry names |
| `Tiff.SizeIgnoresContents` | crates/tellurion-cog/src/author.rs:876-899 | A placeholder directory has the size of the real one |
| `Tiff.EntryReadsBack` | crates/tellurion-cog/src/tiff_write.rs:98-125 | An encoded entry, inline or external, is read back as its tag by an independent reading of the format (TIFF 6.0 section 2) |
| `Tiff.IfdReadsBack` | crates/tellurion-cog/src/tiff_write.rs:98-125 | An encoded directory is read back as its whole tag list and its link |
| `CogFile.TagsAscend` | crates/tellurion-cog/src/author.rs:813-858 | Tags are in strictly ascending order in every level, as TIFF 6.0 section 2 requires |
| `CogFile.PlaceTiles` | crates/tellurion-cog/src/author.rs:910-930 | First pass over a level's tiles: running 32-bit offsets and counts, refused exactly at a tile of 4 GiB |
| `CogFile.PlaceIfds` | crates/tellurion-cog/src/author.rs:893-908 | First pass over the directories: each placed behind the previous one |
| `CogFile.PlaceAllTiles` | crates/tellurion-cog/src/author.rs:909-930 | Offsets and counts of all levels, tiles one behind the other |
| `CogFile.EncodeLevel` | crates/tellurion-cog/src/author.rs:943-963 | Second pass: a level's directory with its real offsets |
| `CogFile.WriteIfds` | crates/tellurion-cog/src/author.rs:938-965 | The header and all directories, each linked to the next |
| `CogFile.WriteTiles` | crates/tellurion-cog/src/author.rs:967-971 | All tiles in level order |
| `CogFile.WriteCog` | crates/tellurion-cog/src/author.rs:864-973 | The bytes written and the length returned, for all inputs, 32-bit wrap-around included; fails exactly if one tile has 4 GiB |
| `CogFile.PlannedSizeIsReal` | crates/tellurion-cog/src/author.rs:876-964 | The real directory has exactly its planned size |
| `CogFile.IfdPlaced` | crates/tellurion-cog/src/author.rs:938-965 | Every directory lies where the first pass put it |
| `CogFile.TilePlaced` | crates/tellurion-cog/src/author.rs:967-971 | Every tile lies where the first pass put it |
| `CogFile.IfdsAreTight` | crates/tellurion-cog/src/author.rs:900-908 | Directories follow the header and one another without a gap, and tiles follow the last one |
| `CogFile.TilesAreTight` | crates/tellurion-cog/src/author.rs:909-930 | Tiles of a level follow one another without a gap |
| `CogFile.LevelsAreTight` | crates/tellurion-cog/src/author.rs:909-930 | Each level's tiles follow the previous level's, and the last tile ends with the file |
| `CogFile.TilesAreDisjoint` | crates/tellurion-cog/src/author.rs:864-973 | No two tiles share a byte, and all directories precede all tiles |
| `CogFile.EveryByteHasAPlace` | crates/tellurion-cog/src/author.rs:864-973 | Every byte behind the header belongs to a directory or a tile: the ranges fill the file |
| `CogFile.IfdIsRead` | crates/tellurion-cog/src/author.rs:864-965 | Every directory of an addressable file parses to its tags and its successor |
| `CogFile.RecordsAreExact` | crates/tellurion-cog/src/author.rs:909-930 | Every offset and count recorded in an addressable file is the true one |
| `CogFile.LastTileIsLast` | crates/tellurion-cog/src/author.rs:909-930 | No tile starts behind the last one, which ends with the file |
| `CogFile.AllOffsetsRightIff` | crates/tellurion-cog/src/author.rs:911-926 | All offsets recorded in a file are the true ones if and only if its last tile starts below 4 GiB |
| `WindowReader.ReadRawChunk` | crates/tellurion-cog/src/reader.rs:169-236 | A chunk is accepted exactly if its claimed size is plausible and it decodes to the expected length |
| `WindowReader.DecodedIs` | crates/tellurion-cog/src/reader.rs:169-236 | A chunk lies in the file and is stored as it is or deflated; nothing else is decoded by hand |
| `WindowReader.FetchedIs` | crates/tellurion-cog/src/reader.rs:683-719 | A palette chunk counts only if it decodes whole and its size is plausible; any other chunk is what the library returns, its padding kept or cut |
| `WindowReader.ChunkEntryIs` | crates/tellurion-cog/src/reader.rs:683-719 | A chunk has the offset of tag 324, the byte count of tag 325 and the compression of tag 259 |
| `WindowReader.LookupIs` | crates/tellurion-cog/src/reader.rs:683-719 | Unsigned tag values are bytes, shorts or longs, 64-bit ones doubles; of several fields with one id the last counts |
| `WindowReader.FetchChunk` | crates/tellurion-cog/src/reader.rs:683-719 | The chunk an entry leads to, by hand for a palette, through the library otherwise |
| `WindowReader.ChunkSample` | crates/tellurion-cog/src/reader.rs:752-760 | The sample found in a chunk is the image's sample of that pixel |
| `WindowReader.PastePixelRow` | crates/tellurion-cog/src/reader.rs:750-768 | The shared pixels of one row are written, widened, and nothing else |
| `WindowReader.PasteChunk` | crates/tellurion-cog/src/reader.rs:739-768 | One chunk fills exactly its part of the window |
| `WindowReader.ReadWindowRow` | crates/tellurion-cog/src/reader.rs:683-770 | One row of chunks fills exactly its rows of the window; fails exactly at an unreadable chunk |
| `WindowReader.ReadWindow` | crates/tellurion-cog/src/reader.rs:634-774 | Every pixel of the window comes from exactly one chunk with the right sample, for any tiled image; fails exactly if the directory changed size or a needed chunk is unreadable |
| `Pixels.InvisibleIff` | crates/tellurion-cog/src/reader.rs:601-615 | Without a colour table a pixel is invisible exactly if it is the declared missing value or its own alpha is zero; visible pixels keep their samples |
| `Pixels.ColourTableIs` | crates/tellurion-cog/src/reader.rs:601-615 | With a colour table a one-sample pixel has the colour of its class unless it is missing; other layouts are shown as without one |
| `GeoKeys.ParseGeoTransform` | crates/tellurion-cog/src/geokeys.rs:60-84 | Scale and tiepoint are accepted exactly with enough numbers and two positive scales; if they are numbers, the tied pixel lies at the longitude and latitude it is tied to and pixels are a scale apart |
| `GeoKeys.PositiveIff` | crates/tellurion-cog/src/geokeys.rs:71-76 | The test on the 64 bits of a double is the test on its value (IEEE 754 section 3.4) |
| `GeoKeys.OneIsOne` | crates/tellurion-cog/src/geokeys.rs:60-84 | The bits of 1.0 are one |
| `GeoKeys.ExponentDoubles` | crates/tellurion-cog/src/geokeys.rs:60-84 | One more in the exponent is twice as much |
| `GeoKeys.FractionCounts` | crates/tellurion-cog/src/geokeys.rs:60-84 | The fraction counts parts of 2^-52 on top of the power of two, or from zero for the least exponent |
| `GeoKeys.SignNegates` | crates/tellurion-cog/src/geokeys.rs:60-84 | The sign bit negates |
| `GeoKeys.NotNumbers` | crates/tellurion-cog/src/geokeys.rs:60-84 | All ones in the exponent are no number; plus infinity counts as positive, a NaN does not |
| `GeoKeys.ParseCrs` | crates/tellurion-cog/src/geokeys.rs:89-173 | The one pass over the keys finds what the directory declares, and fails exactly if it declares nothing usable |
| `GeoKeys.KeyValueIsLast` | crates/tellurion-cog/src/geokeys.rs:100-127 | A key has the value of its last entry |
| `GeoKeys.OnTheGlobeIff` | crates/tellurion-cog/src/geokeys.rs:89-173 | A key directory is on the WGS84 globe if and only if it holds as many entries as it says, its last model entry is 2, its last geographic entry is 4326, and no model or system entry keeps its value elsewhere |
| `GeoKeys.CrsIff` | crates/tellurion-cog/src/geokeys.rs:128-173 | The code declared is the last geographic one under model 2 and the last projected one under model 1, and 32767 is none |
| `GeoKeys.NarrowedDeclares` | crates/tellurion-cog/src/author.rs:341-343 | A directory cut to sixteen bits declares what the first (count mod 2^16) keys of the original declared |
| `GeoKeys.FewKeysAreKept` | crates/tellurion-cog/src/author.rs:341-343 | A directory of fewer than 65536 keys declares the same after it was copied |
| `GeoKeys.ManyKeysAreLost` | crates/tellurion-cog/src/author.rs:341-343 | A directory of 65536 keys that is on the globe, and whose copy is not |
| `CogOpen.Open` | crates/tellurion-cog/src/reader.rs:497-569 | Opening succeeds exactly on an acyclic chain of supported directories with one band layout, the first of them on the WGS84 globe, with a readable missing value and, for a palette, a whole colour table; it returns the band layout, the levels sorted, the missing value and the place of the first image, which lies where its tags tie it |
| `CogOpen.OpenedIsTied` | crates/tellurion-cog/src/geokeys.rs:77-83 | An opened image has the tied pixel at the longitude and latitude of the tiepoint, columns a pixel scale apart eastwards and rows southwards; it has a place exactly if these tags are numbers |
| `CogOpen.OpenableIff` | crates/tellurion-cog/src/reader.rs:497-569 | Condition by condition, which files open |
| `CogOpen.MainIfdIff` | crates/tellurion-cog/src/reader.rs:497-500 | A file begins with the little-endian mark, 42 and the place of its first directory |
| `CogOpen.LevelIff` | crates/tellurion-cog/src/reader.rs:429-484 | A directory is supported if and only if it has a band layout, a size and a tile size that are not zero, and no compression, Deflate, or LZW outside palettes |
| `CogOpen.BandsAre` | crates/tellurion-cog/src/reader.rs:427-453 | Photometric interpretation, sample count and 8-bit samples decide the band layout |
| `CogOpen.OpenedIsSound` | crates/tellurion-cog/src/reader.rs:497-588 | What opening returns is what planning needs: there is a level, the levels descend in width, each can be cut into chunks, and the raster has a positive extent |
| `CogOpen.SortDescIsStable` | crates/tellurion-cog/src/reader.rs:551-553 | The level order is descending in width and keeps file order among equals |
| `CogOpen.SortDescKeepsOrder` | crates/tellurion-cog/src/reader.rs:551-553 | Levels already in order are not moved |
| `CogOpen.ReachInChain` | crates/tellurion-cog/src/reader.rs:644-648 | Re-walking n links arrives at directory n of the chain |
| `CogOpen.Walk` | crates/tellurion-cog/src/reader.rs:642-648 | The walk fails exactly when a link before its target does |
| `CogOpen.NodataReadsBack` | crates/tellurion-cog/src/reader.rs:507-522 | A missing value written in decimal and ended by a NUL is the one that is read |
| `CogOpen.BlanksAre` | crates/tellurion-cog/src/reader.rs:507-512 | The characters trimmed off a missing value |
| `CogOpen.ReadLevelWindow` | crates/tellurion-cog/src/reader.rs:634-774 | Walking to a level and reading a window there gives every pixel of it, and fails exactly if the level is gone or changed size or a needed chunk is missing |
| `TilePlan.SelectOverview` | crates/tellurion-cog/src/tiling.rs:62-77 | The scan that stops at the first level too coarse finds the same level as looking at all of them, because levels are sorted |
| `TilePlan.BestIndex` | crates/tellurion-cog/src/tiling.rs:62-77 | That level is the coarsest one fine enough, or the finest |
| `TilePlan.ColumnsTileTheWorld` | crates/tellurion-cog/src/tiling.rs:42-45 | The columns of a zoom tile the world from 180 degrees west to 180 degrees east, and a longitude lies in column floor((lon + 180) * 2^z / 360) and no other |
| `TilePlan.RowsTileTheWorld` | crates/tellurion-cog/src/tiling.rs:46-48 | A row reaches from its own projected latitude to that of the next row |
| `TilePlan.TiedColumns` | crates/tellurion-cog/src/geokeys.rs:77-83 | On the image itself, n scales east of the tied pixel is n columns from it |
| `TilePlan.TiedRows` | crates/tellurion-cog/src/geokeys.rs:77-83 | And n scales south of it is n rows |
| `TilePlan.PlanWindow` | crates/tellurion-cog/src/tiling.rs:114-159 | A plan exists if and only if tile and raster share more than an edge; it names the best level and a non-empty window inside it |
| `TilePlan.AxisLosesNothing` | crates/tellurion-cog/src/tiling.rs:137-149 | Clamping and rounding lose no position: the window holds a position exactly when the axis does |
| `TilePlan.AxisIsTight` | crates/tellurion-cog/src/tiling.rs:137-149 | The window holds no pixel that the tile does not touch |
| `TilePlan.ColumnsAreLinear` | crates/tellurion-cog/src/tiling.rs:205-207 | Interpolating source columns linearly gives the column of the pixel's true longitude |
| `TilePlan.RowsAreInside` | crates/tellurion-cog/src/tiling.rs:195-200 | For a strictly southward projection each row's source row lies between those of the tile's edges |
| `TilePlan.ResampleRow` | crates/tellurion-cog/src/tiling.rs:204-215 | One destination row, indices never out of the window |
| `TilePlan.ResampleToTile` | crates/tellurion-cog/src/tiling.rs:182-217 | Each destination pixel is the source pixel at the floor of its true coordinates where those lie in the raster, and transparent elsewhere |
| `TilePlan.TilePixelIs` | crates/tellurion-cog/src/tiling.rs:182-217 | Each pixel of a tile is the raster's pixel at the longitude and latitude of its centre, and transparent off the raster |
| `Gather.StepKeepsInv` | crates/tellurion-cog/src/mosaic.rs:526-556 | One step of any schedule keeps permits and reads in flight in balance and brings the end one step nearer |
| `Gather.RunsAreBounded` | crates/tellurion-cog/src/mosaic.rs:520-567 | Under every schedule at most max(1, limit) reads are in flight, and there are at most four steps a read |
| `Gather.NeverStuck` | crates/tellurion-cog/src/mosaic.rs:526-556 | A step is possible if and only if some outcome is still missing |
| `Gather.Collect` | crates/tellurion-cog/src/mosaic.rs:558-566 | All values in slot order, or the failure of the lowest failing slot |
| `Gather.GatherBounded` | crates/tellurion-cog/src/mosaic.rs:520-567 | Spawning and driving the reads in an arbitrary order gives that answer |
| `Gather.GatheredIsUnique` | crates/tellurion-cog/src/mosaic.rs:506-519 | The answer is a function of the reads alone |
| `Mosaic.SelectSources` | crates/tellurion-cog/src/mosaic.rs:458-473 | The sources whose declared box shares more than an edge with the tile, in ascending order |
| `Mosaic.SelectedAre` | crates/tellurion-cog/src/mosaic.rs:458-473 | A source is selected exactly if its declared box shares more than an edge with the tile |
| `Mosaic.ContributionIs` | crates/tellurion-cog/src/tiling.rs:182-217 | A source shows at pixel (dx, dy) of tile (z, x, y) its own pixel at longitude -180 + 360 (x + (dx + 1/2) / 256) / 2^z and the projected latitude, in plain numbers for any tile size, exactly where its raster covers that place, and nothing elsewhere |
| `Mosaic.LevelForIs` | crates/tellurion-cog/src/tiling.rs:51-77 | The level read is the coarsest whose pixels are no wider than the 360 / (2^z 256) degrees of a tile pixel, or the finest |
| `Mosaic.UnplannedShowsNothing` | crates/tellurion-cog/src/mosaic.rs:329-341 | A source that is skipped for want of a plan would have been transparent on every pixel |
| `Mosaic.LayTile` | crates/tellurion-cog/src/mosaic.rs:490-502 | One more tile replaces exactly the pixels where it is not transparent |
| `Mosaic.ComposeInSourceIdOrder` | crates/tellurion-cog/src/mosaic.rs:486-504 | Each pixel is the last non-transparent contribution; nothing is returned exactly if every contribution is transparent |
| `Mosaic.LastIsSeen` | crates/tellurion-cog/src/mosaic.rs:477-504 | Of the sources laid over one another the last one that is not transparent at a pixel is the one seen |
| `Mosaic.NoneIsSeen` | crates/tellurion-cog/src/mosaic.rs:477-504 | Where all are transparent nothing is |
| `Mosaic.ReadsSuffice` | crates/tellurion-cog/src/mosaic.rs:323-376 | Composing the tiles that were read is composing all selected sources |
| `Mosaic.SelectionSufficesIff` | crates/tellurion-cog/src/mosaic.rs:447-473 | Composing the selected sources is composing every source of the manifest, whatever the sources show, if and only if no pixel centre of the tile lies on a source that was not selected |
| `Mosaic.SelectionIsExact` | crates/tellurion-cog/src/mosaic.rs:447-473 | With exact boxes, on every tile of any zoom and size: a source is selected if and only if it has a plan, and composing the selected sources is composing all of them |
| `Mosaic.ServedTilesLoseNothing` | crates/tellurion-cog/src/manifest.rs:316-372 | So it is for every verified source on every tile that is served: zoom at most 24 and 256 pixels leave more than the tolerance between a pixel centre and the edge, if latitude falls at least as steeply as on the Web Mercator square |
| `Mosaic.ShownIsCrop` | crates/tellurion-cog/src/reader.rs:750-768 | What is shown of a window is the crop of what is shown of the whole level |
| `Mosaic.AuthoredSource` | crates/tellurion-cog/src/mosaic.rs:306-376 | An addressable authored file placed by numbers, recorded with the box of its own tags, is a sound source: at every tile its planned window can be read and carries the pyramid level chosen |
| `Mosaic.PlanReads` | crates/tellurion-cog/src/mosaic.rs:323-344 | What is read are the selected sources with a plan, and the pixel budget is charged once with all their windows |
| `Mosaic.PixelsAddUp` | crates/tellurion-cog/src/mosaic.rs:323-344 | Every selected source with a plan adds the area of its window to the total that is charged |
| `Mosaic.FourAtATime` | crates/tellurion-cog/src/mosaic.rs:85-90 | Under every schedule at most four verifications or reads run at once |
| `Mosaic.RunRead` | crates/tellurion-cog/src/driver.rs:568-596 | One read decodes the planned window of the source's file and warps it onto the tile; it fails exactly if that window cannot be read |
| `Mosaic.MissingValueIs` | crates/tellurion-cog/src/driver.rs:552-555 | Only layouts of one sample have a missing value |
| `Mosaic.VerifySource` | crates/tellurion-cog/src/manifest.rs:328-365 | A source is accepted exactly with the recorded length and digest, if it opens, and if the box that opening finds is the recorded one within the tolerance |
| `Mosaic.BoxMatchesIff` | crates/tellurion-cog/src/manifest.rs:316-372 | A recorded box matches if and only if each edge is off by no more than a billionth of a degree |
| `Mosaic.VerifiedIsValid` | crates/tellurion-cog/src/manifest.rs:328-365 | A verified source can be planned: its levels descend and have chunks, and its raster has an extent where the manifest says |
| `Mosaic.Backend.EnsureMetas` | crates/tellurion-cog/src/mosaic.rs:237-270 | Everything not verified before is verified; it fails for the lowest source that is not what the manifest recorded, and remembers exactly those that are |
| `Mosaic.Backend.RasterTile` | crates/tellurion-cog/src/mosaic.rs:306-376 | From the files to the tile, for any manifest: it is every source placed on it laid over one another, empty exactly if that is transparent; otherwise a selected source is not the recorded one, the budget is exceeded or a window cannot be read, and the lowest such source is named |
| `Applier.Index.Apply` | crates/tellurion-core/src/applier.rs:269-285 | Version-gated upsert, its new documents spelled out, that a rejected obligation leaves untouched |
| `Applier.Index.AppliedHighWater` | crates/tellurion-core/src/applier.rs:287-295 | The greatest stored version, zero if there is none |
| `Applier.ReplayHighWater` | crates/tellurion-core/src/applier.rs:267-296 | After the first n obligations the high-water is the n-th sequence and every one of them is in |
| `Applier.ReplayKeepsLast` | crates/tellurion-core/src/applier.rs:269-285 | After the first n obligations the index holds exactly their features, each at the version and in the form, update or delete, of its last obligation |
| `Applier.ApplyKeepsSync` | crates/tellurion-core/src/applier.rs:53-65 | Applying an obligation whose predecessors are in keeps the index equal to the log replayed up to its high-water |
| `Applier.DrainOnce` | crates/tellurion-core/src/applier.rs:53-65 | A solo pass advances by min(batch, remaining), or stops in front of the first rejected obligation with an error; the index then shows the last write of every feature up to there |
| `Applier.Leadership.LeadsThisPass` | crates/tellurion-core/src/applier.rs:121-197 | Without a lease every pass leads; with one exactly those on which it is still held alive or granted anew |
| `Applier.RunApplier` | crates/tellurion-core/src/applier.rs:84-119 | The loop under any schedule of appends, lease answers and wake-ups: it runs up to the first signal to stop, drains exactly on the ticks that lead, and leaves the index the log replayed as far as those passes reach, with the last write of every feature |
| `Applier.LeadsIff` | crates/tellurion-core/src/applier.rs:131-197 | A leased task drains on a tick exactly if it was granted the lease then or before and the lease has been live ever since |
| `Applier.QuietTicksDrain` | crates/tellurion-core/src/applier.rs:84-119 | Once nothing is appended any more, the passes that lead advance by whole batches to the end of the log or to the lowest rejected obligation |
| `Applier.NothingIsSkipped` | crates/tellurion-core/src/applier.rs:11-16 | However the log grows meanwhile and whichever obligations are rejected, the loop never goes back and never passes a rejected one |
| `Applier.StepKeepsInv` | crates/tellurion-core/src/applier.rs:53-65 | Every atomic step of any replica keeps the index in sync and never lowers its high-water |
| `Applier.RunsStayInSync` | crates/tellurion-core/src/applier.rs:1-36 | In every run with any number of replicas, stale cursors, overlaps, crashes, rejections and appends: the index is the log replayed up to its high-water, shows the last update or delete of every feature there and no other feature, nothing at or below it is missing, a rejected obligation is never passed |
| `Applier.EveryLogIsDrained` | crates/tellurion-core/src/applier.rs:53-65 | For every log that holds nothing refused there is a run of the system that drains it: the steps allow progress |
| `ControlModel.TableIsRows` | crates/tellurion-control-sqlite/src/store.rs:442-559 | A projected table holds exactly its rows and can be written exactly if no key repeats |
| `ControlModel.StepKeepsConsistent` | crates/tellurion-control-sqlite/src/store.rs:61-221 | Every operation keeps keys and history in agreement and only appends |
| `ControlModel.RunKeepsConsistent` | crates/tellurion-control-sqlite/src/store.rs:61-221 | So does every sequence of operations |
| `ControlModel.KeysCommitOnce` | crates/tellurion-control-sqlite/src/store.rs:138-158 | An idempotency key commits at most once |
| `ControlModel.ResendReplays` | crates/tellurion-control-sqlite/src/store.rs:138-158 | A matching resend, however much later, returns the recorded commit marked replayed and changes nothing |
| `ControlModel.KeyReuseIsRefused` | crates/tellurion-control-sqlite/src/store.rs:143-145 | A key reused with another change set is refused for ever |
| `ControlModel.OneWinnerPerRevision` | crates/tellurion-control-sqlite/src/store.rs:166-172 | Of the changes prepared against one revision at most one commits |
| `ControlRows.ResourcesShown` | crates/tellurion-control-sqlite/src/store.rs:454-514 | The rows of a snapshot make a table exactly if every collection names a catalog and no two keys coincide; then every tenant, catalog, collection, platform role and tenant role has its row under its own key with its kind and body, and there is no other row but the platform's |
| `ControlRows.ProjectionShowsSnapshot` | crates/tellurion-control-sqlite/src/store.rs:442-559 | The four derived tables exist exactly if the snapshot can be written, no key repeating in any of them, and show it |
| `ControlTables.InsertEach` | crates/tellurion-control-sqlite/src/store.rs:505-542 | Inserting row by row gives the whole table or fails on a repeated key |
| `ControlTables.InsertCollections` | crates/tellurion-control-sqlite/src/store.rs:474-496 | Collections are filed under the first catalog they name; an unknown one fails |
| `ControlTables.InsertTenantRoles` | crates/tellurion-control-sqlite/src/store.rs:505-514 | The nested loop writes every tenant's roles |
| `ControlTables.InsertResources` | crates/tellurion-control-sqlite/src/store.rs:454-514 | The resource table section by section: it shows everything in the snapshot and nothing else, and fails exactly on an unknown catalog or two equal keys |
| `ControlTables.ReplaceCurrentResources` | crates/tellurion-control-sqlite/src/store.rs:442-543 | The four derived tables show the snapshot, or the transaction fails exactly if it cannot be written |
| `ControlTables.ReplaceEntityVersions` | crates/tellurion-control-sqlite/src/store.rs:561-577 | The version table becomes exactly the given versions |
| `ControlTables.LoadSnapshot` | crates/tellurion-control-sqlite/src/store.rs:332-357 | Inside a transaction, the current snapshot, revision and versions, or uninitialized |
| `ControlTables.RecordRevision` | crates/tellurion-control-sqlite/src/store.rs:359-418 | One revision, one event and one audit row, none of which may exist |
| `ControlTables.NoRowsAreEmpty` | crates/tellurion-control-sqlite/src/store.rs:313-330 | Empty tables stand for the empty store |
| `ControlTables.RepresentedRowsAgree` | crates/tellurion-control-sqlite/src/store.rs:359-418 | In the tables themselves: revisions are 1 to the current one, each with its snapshot, event and audit row, the derived tables show everything in the current snapshot and nothing else, and each key names the revision whose audit row carries it |
| `ControlBackends.Replay` | crates/tellurion-control-sqlite/src/store.rs:138-158 | What is answered for a recorded key is the abstract store's answer, and a commit handed out again names the one revision ever committed under the key |
| `ControlBackends.Record` | crates/tellurion-control-sqlite/src/store.rs:178-219 | A committed change leaves tables that stand for the longer history |
| `ControlBackends.SeedTables` | crates/tellurion-control-sqlite/src/store.rs:61-109 | Revision 1 is written exactly into an empty store |
| `ControlBackends.SqliteStore.BootstrapIfEmpty` | crates/tellurion-control-sqlite/src/store.rs:61-109 | Bootstrapping SQLite refines the abstract store; in the tables, revision 1 with its rows is written exactly into an empty store from a sound seed that can be written, and tables already there are not touched |
| `ControlBackends.PostgresStore.BootstrapIfEmpty` | crates/tellurion-control-postgres/src/store.rs:80-143 | So does bootstrapping PostgreSQL |
| `ControlBackends.SqliteStore.Transact` | crates/tellurion-control-sqlite/src/store.rs:121-221 | The SQLite transaction refines the abstract one, and in the tables: it commits exactly a well-formed new request prepared against the current revision whose snapshot can be written, recording snapshot, event, audit row, versions and key and showing the snapshot in the derived tables; it hands out a recorded commit again exactly for a matching resend; otherwise it changes nothing and what its error says is so |
| `ControlBackends.PostgresStore.Transact` | crates/tellurion-control-postgres/src/store.rs:150-279 | The PostgreSQL transaction does the same to its tables, except that an empty store is always reported first |
| `ControlBackends.TransactOnBoth` | crates/tellurion-control-postgres/src/store.rs:150-279 | From equal states both commit the same and stay equal or both fail and change nothing; their errors differ exactly for a replay-only request to an empty store |
| `ControlBackends.SqliteStore.Serve` | crates/tellurion-control-sqlite/src/store.rs:61-221 | After every sequence of operations on an empty SQLite database the ten tables stand for what the abstract store holds and agree with one another |
| `ControlBackends.PostgresStore.Serve` | crates/tellurion-control-postgres/src/store.rs:80-279 | The same of PostgreSQL |
| `Spdx.RequiredMeansEveryChoice` | scripts/audit-dependency-licenses.py:125-126 | One boolean a subexpression decides whether every licence choice contains a forbidden licence |
| `Spdx.GroupedFits` | scripts/audit-dependency-licenses.py:136-178 | Adding the parentheses precedence needs changes no choice |
| `Spdx.DisjunctionIsParsed` | scripts/audit-dependency-licenses.py:136-178 | Every well-formed expression is parsed to the end with the right value |
| `Spdx.ParsedDisjunction` | scripts/audit-dependency-licenses.py:136-178 | Everything parsed is a printed expression with that value |
| `Spdx.WellFormedIsAccepted` | scripts/audit-dependency-licenses.py:136-183 | A well-formed list is parsed to its end with its own value |
| `Spdx.AcceptedIsWellFormed` | scripts/audit-dependency-licenses.py:136-183 | A list parsed to its end is well formed |
| `Spdx.AcceptsWellFormed` | scripts/audit-dependency-licenses.py:136-183 | The parser accepts exactly the well-formed token lists |
| `Spdx.Parser.Primary` | scripts/audit-dependency-licenses.py:136-149 | A licence or a parenthesized expression, from the shared offset on |
| `Spdx.Parser.WithException` | scripts/audit-dependency-licenses.py:151-161 | An optional exception that is an identifier and no forbidden licence |
| `Spdx.Parser.Conjunction` | scripts/audit-dependency-licenses.py:163-169 | The AND loop |
| `Spdx.Parser.Disjunction` | scripts/audit-dependency-licenses.py:171-177 | The OR loop |
| `Spdx.RequiresForbiddenLicense` | scripts/audit-dependency-licenses.py:125-189 | True on a well-formed expression exactly if every choice contains a forbidden licence, on anything else exactly if a forbidden identifier occurs |
| `Spdx.ForbiddenAre` | scripts/audit-dependency-licenses.py:31-37 | The forbidden licences and the reserved words, by name |
| `Spdx.PrintedAs` | scripts/audit-dependency-licenses.py:136-178 | How each kind of expression is written (SPDX 2.3 Annex D) |
| `Spdx.Precedence` | scripts/audit-dependency-licenses.py:136-178 | WITH binds tighter than AND and AND tighter than OR, on either side |
| `Spdx.PrintedIsAnswered` | scripts/audit-dependency-licenses.py:125-189 | Every expression printed with the needed parentheses is answered by its own choices (SPDX 2.3 Annex D) |
| `RemoteReader.Operation.Reserve` | crates/tellurion-cog/src/remote.rs:252-262 | A request is granted exactly while deadline, count and bytes allow |
| `RemoteReader.OpenWithOperation` | crates/tellurion-cog/src/remote.rs:104-138 | A brokered object opens without a request; the trusted source reserves one byte and opens with it as its window, exactly if that is granted and answered |
| `RemoteReader.HttpRangeReader.FetchWindow` | crates/tellurion-cog/src/remote.rs:151-195 | One reservation, one request: the window becomes the bytes asked for exactly if both are granted and the answer is whole |
| `RemoteReader.HttpRangeReader.EnsureWindow` | crates/tellurion-cog/src/remote.rs:140-196 | At most one request makes the window cover the position; it fails exactly if that request is needed and not granted or not answered in full |
| `RemoteReader.HttpRangeReader.Read` | crates/tellurion-cog/src/remote.rs:199-216 | A read returns the next bytes of the object, and exactly how many; it fails exactly if only the network can serve it and the budget or the source does not, and then leaves position and window alone |
| `RemoteReader.HttpRangeReader.Seek` | crates/tellurion-cog/src/remote.rs:218-236 | A seek succeeds exactly if its target is from 0 up to, not including, 2^63, and then goes there |
| `RemoteReader.HttpRangeReader.ReadFully` | crates/tellurion-cog/src/remote.rs:199-216 | Repeated reads deliver the whole range asked for, exactly if every request on the way is granted and answered |
| `RemoteReader.ReadsUpTo8MiB` | crates/tellurion-cog/src/remote.rs:140-262 | On a source that answers in time, a fresh operation reads a range of a brokered object in full if and only if the range has at most 8 MiB |
| `RemoteReader.SmallReadsShareOneRequest` | crates/tellurion-cog/src/remote.rs:140-196 | One request serves all small reads of the next 64 KiB, asks for at most 2 MiB and never past the end |
| `RemoteReader.DeliversIff` | crates/tellurion-cog/src/remote.rs:151-195 | A brokered object delivers with any body of the right length, the trusted source only with a response to exactly this range of an object of this length |
| `RemoteReader.GetRangeIs` | crates/tellurion-cog/src/remote.rs:151-195 | What a source returns for a range |
| `RemoteReader.TargetIs` | crates/tellurion-cog/src/remote.rs:218-236 | A seek counts from the start, from the end or from the position |
| `RemoteReader.Session` | crates/tellurion-cog/src/remote.rs:199-236 | Any sequence of seeks and reads answers as the plain byte array would, and a read fails exactly if it needs a request that is not granted or not answered |
| `RemoteReader.SharedSession` | crates/tellurion-cog/src/remote.rs:64-78 | However the calls of all readers of one operation are interleaved, each reader answers as its plain array from where its own last call left it, fails only for what is left of the common budget or its source, and together they get at most 32 requests and 8 MiB |
| `RemoteReader.WrapIsExactIff` | crates/tellurion-cog/src/remote.rs:219-226 | The signed conversion refuses exactly the positions from 2^63 on |
| `Admission.StepKeepsPermits` | crates/tellurion-core/src/admission.rs:249-263 | Every atomic step keeps the counter equal to the live permits |
| `Admission.StepKeepsQueue` | crates/tellurion-core/src/admission.rs:265-311 | Every atomic step keeps places in the order they were taken |
| `Admission.FewWait` | crates/tellurion-core/src/admission.rs:276-281 | The waiting requests hold the lowest ranks, so they are no more than the capacity |
| `Admission.RunsAreBounded` | crates/tellurion-core/src/admission.rs:199-311 | Under every interleaving of loads, compare-exchanges, drops, cancellations and reconfigurations the counter is the number of permits and stays within the largest limit, and waiting stays within the largest capacity |
| `Admission.CountersNeverWrap` | crates/tellurion-core/src/admission.rs:200-206 | Neither counter is decremented below zero |
| `Admission.HistoriesAreMaxima` | crates/tellurion-core/src/admission.rs:236-247 | Those bounds are settings that were really stored |
| `Admission.StepPassesLimitIff` | crates/tellurion-core/src/admission.rs:236-263 | A gate within its limit leaves it exactly by storing a limit below the permits that are out, or by a compare-exchange whose request saw room that is gone |
| `Admission.LimitHoldsIff` | crates/tellurion-core/src/admission.rs:236-263 | For every start limit and every sequence of later ones: the permits stay within the current limit in every state of every run that stores exactly these, if and only if they never fall |
| `Admission.LoweredLimitIsPassed` | crates/tellurion-core/src/admission.rs:249-263 | The smallest such run, with limits a registry hands out: lowered from two to one while a second request had already seen room |
| `FairShares.OneShare` | crates/tellurion-core/src/admission.rs:165-171 | A share differs from its exact part by less than one slot, upwards only if it would have been zero |
| `FairShares.SharesAddUp` | crates/tellurion-core/src/admission.rs:157-171 | Every share is from 1 to the ceiling C; the sum is above C - n and at most C plus the tenants that would have got nothing |
| `FairShares.BuildShares` | crates/tellurion-core/src/admission.rs:374-391 | The registry hands out exactly these shares |
| `AdmissionRegistry.Registry.Reconfigure` | crates/tellurion-core/src/admission.rs:395-444 | A surviving tenant keeps its gate and the permits charged to it, a new one starts empty, one that is gone loses its gate, and every limit is the fair share |
| `AdmissionRegistry.DeclaredIsLast` | crates/tellurion-core/src/admission.rs:374-391 | If an id is declared twice the last declaration counts |
| `Assets.Lane.RegisterManaged` | crates/tellurion-core/src/asset.rs:484-521 | Refused by media type, size or a different declaration; the same declaration is answered with the existing record |
| `Assets.AcceptsIff` | crates/tellurion-core/src/asset.rs:425-441 | A media type is accepted if and only if there is no list or it is on it, in whichever letter case |
| `Assets.Lane.RegisterRemote` | crates/tellurion-core/src/asset.rs:525-561 | A remote asset is available at once and never has bytes |
| `Assets.Lane.FinishUpload` | crates/tellurion-core/src/asset.rs:612-687 | Available exactly with bytes that match and are stored, failed otherwise with no object left |
| `Assets.Lane.CompleteUpload` | crates/tellurion-core/src/asset.rs:578-587 | The direct upload decides the asset |
| `Assets.Lane.CreateUpload` | crates/tellurion-core/src/asset.rs:874-897 | One upload at a time for a pending managed asset |
| `Assets.Lane.AppendUpload` | crates/tellurion-core/src/asset.rs:929-969 | A chunk is accepted exactly at the current offset and within the declared size, the saturating sum included; every refusal has its own cause |
| `Assets.Lane.CompleteResumable` | crates/tellurion-core/src/asset.rs:1001-1035 | What is checked and published is the concatenation of the accepted chunks, whether or not the store had committed it |
| `Assets.Lane.AbandonUpload` | crates/tellurion-core/src/asset.rs:1045-1056 | The upload is dropped and the asset stays pending |
| `Assets.Lane.DeleteAsset` | crates/tellurion-core/src/asset.rs:1073-1093 | Object and record are removed together |
| `Assets.PerformAll` | crates/tellurion-core/src/asset.rs:484-1093 | After every sequence of operations records, objects and uploads are exactly what the operations make of them one after the other; an available managed asset's bytes hash to its declared digest, nothing else is stored, and no asset ever moves backwards |
| `Base64.EncodeBase64` | crates/tellurion-core/src/asset.rs:161-182 | Encoding group by group |
| `Base64.DecodeBase64` | crates/tellurion-core/src/asset.rs:187-229 | Decoding group by group, refusing bad lengths, symbols and padding |
| `Base64.RoundTrip` | crates/tellurion-core/src/asset.rs:161-232 | Decoding an encoding gives the bytes back, for every byte string (RFC 4648 section 4) |
| `Base64.AlphabetIs` | crates/tellurion-core/src/asset.rs:140-182 | The alphabet is A to Z, a to z, 0 to 9, + and / (RFC 4648 table 1) |
| `Base64.GroupIsBits` | crates/tellurion-core/src/asset.rs:161-182 | A group of text is the 24 bits of its bytes, six at a time, most significant first |
| `Base64.DecodesIff` | crates/tellurion-core/src/asset.rs:187-229 | Exactly the texts of whole groups are decoded in which every character is padding or in the alphabet with no padding before it in its group |
| `Base64.DecodedIs` | crates/tellurion-core/src/asset.rs:187-229 | A decoded group is the leading bytes of its 24 bits, one less for every padding but at least one |
| `Base64.ShapeOfText` | crates/tellurion-core/src/asset.rs:161-182 | Four characters a started group, padding exactly in the last places that need it |

## Left out

- Widths of intermediate numbers: pixel coordinates, buffer sizes and loop counters are unbounded; only the offsets of the written file, the copied geo keys, the seek position, the sum of an append and the revision number are cut to their machine width.
- LZW-compressed chunks, decoded samples that are not 8-bit and the TIFF library's own decoding are the decoding library's business; a chunk is what the codec returns, with its padding kept or cut.
- Rounding of the pixel transform and the extent: they are computed without rounding from the exact values of the tags' doubles; a transform with an infinity or a NaN has no place. The colour values of a palette are given as a style.
- The TIFF library's own limits on the size of tags and chunks.
- CogOpen.Open: what the decoding library refuses inside a text tag is not modelled; a GDAL_NODATA tag of text type is always read. Big-endian files and BigTIFF, which the library reads as well, are not.
- TilePlan.PlanWindow: exact reals instead of IEEE doubles.
- Gather.RunsAreBounded: a read that panics is not modelled; the join error it would raise is reported for slot 0.
- Manifest parsing, duplicate files and per-collection colour maps are decided before a tile is asked for, and a file does not change between its verification and a read. A source carries what opening its file finds as fields (`Source.Faithful`) instead of a cell filled on first use.
- Applier.RunsStayInSync: which replica leads is not modelled here; the property holds for any set of replicas that run at once, so it does not depend on the lease.
- Applier.RunApplier: appends arrive between passes; appends during one are in the state machine of `Applier.RunsStayInSync`.
- ControlModel.TableIsRows: all failures while writing rows are one storage error; the source names an unknown catalog separately.
- Reads of the control store outside a transaction (`changes_since`, `audit_since`, `load_snapshot`) and the recorded commits of an older format without a fingerprint.
- Timestamps and instance names are stored in the model's tables and ignored when two backends are compared.
- The token regular expression of the licence script: the parser's properties are over token lists, with the identifiers of the text as a second argument.
- Admission.RunsAreBounded: the notification that wakes a waiter may come at any time, so nothing is said about whether a waiter is served; the queue depth is only an upper bound, because a cancelled waiter does not lower it.
- Assets.PerformAll: presigned uploads and failing reads or deletes of the object store are not modelled; operations are atomic.
- Blank links are those of ASCII white space, and media types are compared by ASCII letters.
- `encode(decode(s))` of base64 need not be `s`: padding bits are not checked, so only the other round trip is stated.
- HTTP, SQL engines, rendering, tile caching, routing, authorization, configuration, metrics and the user interface.
