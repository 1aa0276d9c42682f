# TMCMR core in Dafny

A Dafny model of the core of TMCMR, the Minecraft region renderer. The renderer reads
Minecraft region files and turns each region of 32 x 32 chunks into a 512 x 512
top-down colour tile. It can also write scaled-down copies of each tile.

The model covers six parts of the program, one module each:

- `RegionFile` (region_file.dfy): the 8 KiB header that locates the chunks of a region file, the
  framing of one chunk record, and the unpacking of a chunk's section arrays into
  buffers the caller owns. The 4-bit nybble packing has a round trip in both directions.
- `BiomeColors` (biome_colors.dfy): the biome colour table, its total look-up with a default
  biome, and the loader for tab-separated biome lines.
- `RegionRenderer` (region_renderer.dfy):
  - the colour look-up, which records every id that fell back to a default;
  - the column compositing of `preRender`, with its height window, painter's order, last-opaque
    height and 16-air shortcut;
  - the pixel layout of the 512 x 512 buffers and the in-place shading pass;
  - the split of the region list among render threads;
  - the decision whether a region's tiles are stale, and which tiles get written.
- `RenderSettings` (render_settings.dfy): the settings record, its defaults and its full constructor.
- `RenderedMap` (rendered_map.dfy):
  - the viewer's tile pyramid: parent and child tile positions;
  - the 2 x 2 ARGB averaging of `sampleColor`;
  - quadrant assembly (`halfSize`) and nearest-neighbour enlargement (`doubleSize`) on 512 x 512 arrays;
  - the memoised per-level maps of `get(level)`, as a class.
- `RegionRendererCommand` (region_renderer_command.dfy): the command-line parser
  `fromArguments`, its validation, the `shouldCreate*` defaults, and the outcome of `run`.
- `Common` (common.dfy) holds shared pieces:
  - `Option` and `Result`;
  - Java `int` range and wrap-around;
  - Java's truncating division;
  - powers of two;
  - decimal text and `Integer.parseInt`.

Java's integer semantics are written out where they matter:

- `>>` is floor division by 2^(n mod 32).
- `1 << n` wraps to 32 bits.
- `/` truncates toward zero.
- `String.split` drops trailing empty strings.

The exceptions the modelled code throws are outcomes of the model:

- The command-line parser, the thread split, the varargs `halfSize` and `get(level)` return an
  error result for an index out of bounds, a `NumberFormatException`, a division by zero, a
  negative array size, and the `StackOverflowError` thrown on purpose.
- `loadChunkData` returns `ok` false for a section Y outside the buffers, a short section
  array or a short biome array.
- `preRender` returns `ok` false at the first chunk on which it throws past its IOException
  handler: a negative length prefix, a parse failure, or a chunk `loadChunkData` refuses. The
  chunks before it are drawn; the ones after it are not read.
- `RunOne` fails on a region whose image cannot be had, or whose scale list holds a scale
  outside 1..512. The failure ends the render thread at that region in `RenderRegions`.

Code the model cannot see is passed in as function parameters:

- `Color.overlay`, `Color.multiplySolid`, `Color.alpha` and `Color.shade`;
- `IDUtil.parseInt`;
- zlib inflation (RFC 1950) of a chunk's payload followed by NBT parsing: one function from the
  payload bytes to an inflation failure, a parse failure, a missing "Level" tag, or the parsed
  "Level" tag;
- whether a region's full-size image could be rendered or read back;
- the shading amount computed with `Math.tanh`;
- `File.isDirectory`.

Two source trees coexist in the repository. Each file is modelled as written.

## Model

| member | source | states |
|---|---|---|
| Common.Wrap32 | src/main/java/togos/minecraft/maprend/gui/RenderedMap.java:301 | the (int) cast keeps the value when it is already in the int range and always lands in that range, congruent modulo 2^32 |
| Common.JavaDiv | src/main/java/togos/minecraft/maprend/core/RegionRenderer.java:326 | Java's int division truncates toward zero: for non-negative operands it is the plain quotient, and a non-negative number over a negative one gives at most 0 |
| Common.ParseIntOfToString | src/togos/minecraft/maprend/commandstandalone/RegionRendererCommand.java:99 | Integer.parseInt reads back the decimal text of every int |
| Common.ParseInt | src/togos/minecraft/maprend/commandstandalone/RegionRendererCommand.java:99 | defined as Integer.parseInt on ASCII text: an optional sign, at least one digit and a value in the int range, else no value; its result is always an int; stated by Common.ParseIntOfToString |
| RegionFile.ReadAt | src/togos/minecraft/maprend/core/io/RegionFile.java:29-32 | a byte read yields 0..255, or -1 exactly when the position is past the end of the file |
| RegionFile.SectorOffset | src/togos/minecraft/maprend/core/io/RegionFile.java:29-33 | the OR of the three shifted reads is positive iff no read hit end of file and some byte is non-zero; a non-negative offset is below 2^24 |
| RegionFile.TableUpToEntries | src/togos/minecraft/maprend/core/io/RegionFile.java:26-34 | after n header entries, read z outer and x inner, chunk (x, z) is in the table iff its entry index 32z+x is below n and its sector offset is positive; its file position is then offset * 4096 |
| RegionFile.HeaderTable | src/togos/minecraft/maprend/core/io/RegionFile.java:26-34 | chunk (x, z) is located by bytes 4(32z+x) to 4(32z+x)+2, and the fourth byte is ignored; a chunk with offset 0 or a truncated entry is absent |
| RegionFile.TableWithinGrid | src/togos/minecraft/maprend/core/io/RegionFile.java:26-34 | every table key lies in the 32 x 32 grid and maps to a positive multiple of the 4096-byte sector |
| RegionFile.ReadHeader | src/togos/minecraft/maprend/core/io/RegionFile.java:25-35 | the nested header loop fills exactly the chunk-position table of the full 1024 entries |
| RegionFile.RegionFile.constructor | src/togos/minecraft/maprend/core/io/RegionFile.java:20-36 | opening a file keeps its contents and builds the full chunk-position table |
| RegionFile.FrameLength | src/togos/minecraft/maprend/core/io/RegionFile.java:47 | the record length is a Java int built from four reads |
| RegionFile.FrameLengthValue | src/togos/minecraft/maprend/core/io/RegionFile.java:47-48 | for a complete prefix below 2^31 the payload length is the big-endian value minus 1; a read at end of file makes it negative; an all-zero prefix gives -1 |
| RegionFile.ReadChunk | src/togos/minecraft/maprend/core/io/RegionFile.java:43-50 | no chunk iff the position is missing from the table; otherwise the length is the 4-byte prefix minus one, a negative length is refused, and the payload has that length, holding the file's bytes after the compression byte, zero past the end |
| RegionFile.PayloadAt | src/togos/minecraft/maprend/core/io/RegionFile.java:49-51 | the payload has the requested length and holds the file's bytes from the given position, with zeros past the end |
| RegionFile.RegionFile.LoadChunk | src/togos/minecraft/maprend/core/io/RegionFile.java:43-57 | a position missing from the table gives no chunk; a negative length prefix is a runtime failure; otherwise the payload is inflated and parsed: an inflation failure is an IOException, a parse failure a runtime failure, a missing "Level" tag no chunk |
| RegionFile.ChunkLoadOf | src/togos/minecraft/maprend/core/io/RegionFile.java:43-57 | defined as the outcome after framing: no chunk is null, a negative length throws, a framed payload gives what inflating and parsing give (no "Level" tag is null); stated by RegionFile.RegionFile.LoadChunk and RegionRenderer.ChunkAt |
| RegionFile.Nybble | src/togos/minecraft/maprend/core/io/RegionFile.java:116-118 | a nybble is always in 0..15 |
| RegionFile.NybbleRoundTrip | src/togos/minecraft/maprend/core/io/RegionFile.java:116-118 | packing lo and hi into one byte, then reading nybbles 2k and 2k+1, gives back lo and hi |
| RegionFile.NybblePackRoundTrip | src/togos/minecraft/maprend/core/io/RegionFile.java:116-118 | packing the two nybbles read from byte k rebuilds that byte |
| RegionFile.BlockIdAt | src/togos/minecraft/maprend/core/io/RegionFile.java:92-98 | a block id is in 0..4095; its low byte is the Blocks byte and its high bits are the Add nybble, or 0 without Add |
| RegionFile.DataAt | src/togos/minecraft/maprend/core/io/RegionFile.java:99-101 | a data value is the Data nybble, in 0..15 |
| RegionFile.LastSection | src/togos/minecraft/maprend/core/io/RegionFile.java:82-91 | the section unpacked into slot y is a listed section with that Y, and there is none iff no listed section has that Y |
| RegionFile.LastSectionOverrides | src/togos/minecraft/maprend/core/io/RegionFile.java:82-101 | a later section for the same slot overwrites an earlier one and leaves the other slots alone |
| RegionFile.LevelLoadsIffFits | src/togos/minecraft/maprend/core/io/RegionFile.java:68-106 | for 16 slots of 4096 cells and 256 biome bytes, a chunk loads without an index error iff its biome array holds 256 bytes and every section has Y in 0..15 and full arrays |
| RegionFile.UnpackSection | src/togos/minecraft/maprend/core/io/RegionFile.java:92-103 | succeeds iff the section Y names a row of both buffers and a used flag and its arrays hold 4096 cells; the used flag is set before the arrays are checked; on success every index y*256+z*16+x of the section's slot gets its block id and data value and every other slot is unchanged |
| RegionFile.ClearUsed | src/togos/minecraft/maprend/core/io/RegionFile.java:69-70 | the first maxSectionCount used flags are cleared; the rest keep their value |
| RegionFile.FillBiomes | src/togos/minecraft/maprend/core/io/RegionFile.java:73-78 | succeeds iff the buffer has 256 bytes and a Biomes array, if any, holds 256; a missing Biomes array fills the 256 bytes with -1, a present one is copied; a failed copy writes nothing |
| RegionFile.UnpackSections | src/togos/minecraft/maprend/core/io/RegionFile.java:80-105 | succeeds iff every listed section loads; then the used flag of each listed section is set and the others keep their value, slots of listed sections hold their last section's ids and data, and other slots keep their contents |
| RegionFile.LoadChunkData | src/togos/minecraft/maprend/core/io/RegionFile.java:68-106 | returns normally iff the used flags to clear exist, the biomes load and every section loads; then a slot is used iff a listed section has that Y (or it lies beyond maxSectionCount and was used before), and the biome bytes and arrays are those above |
| RegionFile.RegionFile.Close | src/togos/minecraft/maprend/core/io/RegionFile.java:120-123 | closing empties the chunk-position table |
| BiomeColors.GetMultiplier | src/main/java/togos/minecraft/maprend/core/color/BiomeColors.java:22-33 | grass, foliage and water influences select the biome's own colour; any other influence gives 0xFFFFFFFF |
| BiomeColors.GetBiome | src/main/java/togos/minecraft/maprend/core/color/BiomeColors.java:98-104 | the stored biome when the id is inside the table and its slot is set, the default biome otherwise: the look-up is total |
| BiomeColors.GetBiomeDefaultIff | src/main/java/togos/minecraft/maprend/core/color/BiomeColors.java:98-104 | in a loaded table a look-up returns a default-flagged biome iff the id is outside 0..255 or its slot is empty |
| BiomeColors.TrimStart | src/main/java/togos/minecraft/maprend/core/color/BiomeColors.java:54-56 | the result is a suffix of the text that is empty or starts above space, and every dropped character is at or below space |
| BiomeColors.Trim | src/main/java/togos/minecraft/maprend/core/color/BiomeColors.java:54-56 | defined as String.trim, the leading then the trailing chars at or below space dropped; stated by BiomeColors.TrimStart and BiomeColors.TrimEnd |
| BiomeColors.TrimEnd | src/main/java/togos/minecraft/maprend/core/color/BiomeColors.java:54-56 | the result is a prefix of the text that is empty or ends above space, and every dropped character is at or below space |
| BiomeColors.IndexOf | src/main/java/togos/minecraft/maprend/core/color/BiomeColors.java:59 | the first occurrence of the separator, or none iff it does not occur |
| BiomeColors.SplitLimit | src/main/java/togos/minecraft/maprend/core/color/BiomeColors.java:59 | split with a limit gives between 1 and limit fields |
| BiomeColors.SplitLimitJoin | src/main/java/togos/minecraft/maprend/core/color/BiomeColors.java:59 | joining the fields of a limited split with the separator rebuilds the line |
| BiomeColors.SplitLimitCount | src/main/java/togos/minecraft/maprend/core/color/BiomeColors.java:59-60 | the number of fields is the number of tabs plus one, capped at the limit |
| BiomeColors.SplitLimitFields | src/main/java/togos/minecraft/maprend/core/color/BiomeColors.java:59 | every field but the last is free of the separator |
| BiomeColors.ClassifyLine | src/main/java/togos/minecraft/maprend/core/color/BiomeColors.java:54-71 | a line is skipped iff it is blank or a comment after trimming; it is invalid iff it has fewer than 4 tab fields; a default line yields a default-flagged biome; an entry line yields a non-default biome |
| BiomeColors.Apply | src/main/java/togos/minecraft/maprend/core/color/BiomeColors.java:53-72 | one classified line advances the line number and keeps the table at 256 slots; only a default line changes the default; loading fails exactly on an unparsable number or an id outside the table |
| BiomeColors.Step | src/main/java/togos/minecraft/maprend/core/color/BiomeColors.java:52-73 | one line of the loop keeps the table well formed and only a "default" line changes the default biome |
| BiomeColors.LoadLines | src/main/java/togos/minecraft/maprend/core/color/BiomeColors.java:47-73 | a loaded table has 256 slots and counts every line read |
| BiomeColors.LoadLine | src/main/java/togos/minecraft/maprend/core/color/BiomeColors.java:53-72 | the loop body updates the biome array, the default and the line count as one step of the loader's specification |
| BiomeColors.Load | src/main/java/togos/minecraft/maprend/core/color/BiomeColors.java:47-78 | the loading loop fails iff the line-by-line specification fails, with the same error; otherwise it yields the finished, well-formed table and the invalid-line diagnostics |
| BiomeColors.LoadLinesErrPersists | src/main/java/togos/minecraft/maprend/core/color/BiomeColors.java:64-71 | once a line throws, no later line can bring the loader back |
| BiomeColors.LoadedWellFormed | src/main/java/togos/minecraft/maprend/core/color/BiomeColors.java:47-78 | every entry stored by the loader is non-default and a default set by it is default-flagged |
| BiomeColors.SkippedLineKeepsTable | src/main/java/togos/minecraft/maprend/core/color/BiomeColors.java:54-63 | a blank, comment or short line changes nothing but the line count, and a short line is reported with its line number |
| BiomeColors.LaterLineOverrides | src/main/java/togos/minecraft/maprend/core/color/BiomeColors.java:64-72 | an entry line stores its biome in its id's slot, replacing any earlier one, and leaves the other slots and the default alone; a "default" line replaces the default and leaves every slot alone |
| BiomeColors.NoDefaultLineMagenta | src/main/java/togos/minecraft/maprend/core/color/BiomeColors.java:74-76 | without a "default" line the default biome is 0xFFFF00FF in all three colours, flagged default |
| BiomeColors.NoDefaultLineKeepsNone | src/main/java/togos/minecraft/maprend/core/color/BiomeColors.java:49-76 | only a "default" line sets the loader's default biome |
| RenderSettings.Default | src/togos/minecraft/maprend/core/RenderSettings.java:7-17 | the defaults: no debug, no colour or biome map, the full int height window, shading 64/36/-20/+20, title "Regions", scales {1} |
| RenderSettings.New | src/togos/minecraft/maprend/core/RenderSettings.java:22-40 | the full constructor puts each argument into its own field, including the reordered shading arguments |
| RenderSettings.NewRebuilds | src/togos/minecraft/maprend/core/RenderSettings.java:22-40 | the full constructor fed a record's own fields rebuilds that record, so it sets every field and nothing else |
| RenderSettings.DefaultWindowUnbounded | src/togos/minecraft/maprend/core/RenderSettings.java:10-11 | under the default settings every int height below Integer.MAX_VALUE lies in the height window and no section is below it |
| RegionRenderer.BlockColor | src/main/java/togos/minecraft/maprend/core/RegionRenderer.java:116-136 | the sub-colour and its influence are used iff the block has a sub-colour flag for that data value; otherwise the base colour and influence; the result is multiplySolid with the biome's multiplier |
| RegionRenderer.RegionRenderer.GetColor | src/main/java/togos/minecraft/maprend/core/RegionRenderer.java:97-137 | returns that colour; a fallback with a non-zero data value adds blockId \| datum << 16, a default block adds its id, a default biome adds its id; the sets change in no other way |
| RegionRenderer.DatumKeyParts | src/main/java/togos/minecraft/maprend/core/RegionRenderer.java:101-103 | the recorded key is an int whose low 16 bits are the block id and whose high bits are the data value |
| RegionRenderer.RegionRenderer.constructor | src/main/java/togos/minecraft/maprend/core/RegionRenderer.java:86-93 | keeps the tables and settings; air16Color is the colour of block 0 in biome 0 overlaid 16 times on 0; the first look-up's default records are kept |
| RegionRenderer.ColumnBiome | src/main/java/togos/minecraft/maprend/core/RegionRenderer.java:208 | a column's biome id is its biome byte read unsigned, in 0..255 |
| RegionRenderer.CellIndex | src/main/java/togos/minecraft/maprend/core/RegionRenderer.java:222 | the sample index z*16+x+256*y lies inside a section |
| RegionRenderer.PixelIndexDecodes | src/main/java/togos/minecraft/maprend/core/RegionRenderer.java:244 | the pixel index 512(16cz+z)+16cx+x lies in [0, 262144) and gives back its chunk and column |
| RegionRenderer.PixelIndexInjective | src/main/java/togos/minecraft/maprend/core/RegionRenderer.java:244 | different (cx, cz, x, z) never share a pixel |
| RegionRenderer.PixelParts | src/main/java/togos/minecraft/maprend/core/RegionRenderer.java:244 | every pixel of the buffer is the index of exactly one chunk column |
| RegionRenderer.LoadedChunkHeld | src/main/java/togos/minecraft/maprend/core/RegionRenderer.java:194 | after loadChunkData the caller's buffers hold the chunk's sections, used flags and biomes |
| RegionRenderer.FirstFailure | src/main/java/togos/minecraft/maprend/core/RegionRenderer.java:187-194 | the first chunk from k on on which preRender throws past its IOException handler, or the end of the list: no chunk before it fails |
| RegionRenderer.FirstFailureAt | src/main/java/togos/minecraft/maprend/core/RegionRenderer.java:187-194 | the first failure is k when the chunks before k succeed and chunk k fails |
| RegionRenderer.ChunkAt | src/main/java/togos/minecraft/maprend/core/RegionRenderer.java:187-194 | chunk 32cz+cx of the region is what loadChunk makes of the table entry (cx, cz) |
| RegionRenderer.RegionRenderer.CompositeAppend | src/main/java/togos/minecraft/maprend/core/RegionRenderer.java:229 | overlaying layers in ascending order composes: the lower layers first, then the upper ones |
| RegionRenderer.RegionRenderer.TopOpaqueIsHighest | src/main/java/togos/minecraft/maprend/core/RegionRenderer.java:230-231 | the height of a column is 0 or the highest in-window y whose block colour has alpha at least 0x20 |
| RegionRenderer.RegionRenderer.SlotsTopIsTopOpaque | src/main/java/togos/minecraft/maprend/core/RegionRenderer.java:210-241 | the section-by-section "last opaque" rule of the loop computes that highest opaque height |
| RegionRenderer.RegionRenderer.ColumnStep | src/main/java/togos/minecraft/maprend/core/RegionRenderer.java:210-241 | one section slot of the column: above or below the window it is skipped, an unused slot fully inside overlays air16Color, a partly inside unused slot adds nothing, a used slot overlays its cells |
| RegionRenderer.RegionRenderer.CellStep | src/main/java/togos/minecraft/maprend/core/RegionRenderer.java:222-233 | one cell outside the height window changes nothing; inside it is overlaid and raises the height when opaque |
| RegionRenderer.RegionRenderer.ComposeCell | src/main/java/togos/minecraft/maprend/core/RegionRenderer.java:224-232 | the cell's colour is overlaid on the pixel and the height becomes absY when its alpha reaches 0x20; the records gain exactly that look-up's defaults |
| RegionRenderer.RegionRenderer.ComposeCellTurn | src/main/java/togos/minecraft/maprend/core/RegionRenderer.java:222-233 | one turn of the cell loop extends the composited colour, the opaque height and the records by cell y |
| RegionRenderer.RegionRenderer.ComposeSlot | src/main/java/togos/minecraft/maprend/core/RegionRenderer.java:218-233 | the 16 cells of a used section are composited in ascending y within the window, and the records gain exactly the look-ups of those cells |
| RegionRenderer.RegionRenderer.ComposeSlotTurn | src/main/java/togos/minecraft/maprend/core/RegionRenderer.java:210-241 | one slot: its layers are overlaid on the colour so far, the height is raised by its opaque cells, and the records gain exactly its in-window look-ups |
| RegionRenderer.RegionRenderer.SlotLooksNothingUp | src/main/java/togos/minecraft/maprend/core/RegionRenderer.java:210-216 | a slot outside the height window, or one without a section, looks up nothing |
| RegionRenderer.RegionRenderer.ComposeColumn | src/main/java/togos/minecraft/maprend/core/RegionRenderer.java:204-242 | a column's colour and height are those of the column specification over all section slots, and the records gain exactly the look-ups of its in-window cells, bottom up |
| RegionRenderer.RegionRenderer.ColumnFromSlots | src/main/java/togos/minecraft/maprend/core/RegionRenderer.java:204-242 | a column's colour is its slots' layers composited over 0, and its height is the section-by-section last opaque height |
| RegionRenderer.RegionRenderer.LoopRecordsSound | src/main/java/togos/minecraft/maprend/core/RegionRenderer.java:204-242 | the loops over a chunk only add to the records, and only ids that fell back to a default |
| RegionRenderer.RegionRenderer.RenderColumn | src/main/java/togos/minecraft/maprend/core/RegionRenderer.java:204-246 | one column is composited into its pixel and its look-ups recorded; every other pixel keeps its value |
| RegionRenderer.RegionRenderer.RenderRow | src/main/java/togos/minecraft/maprend/core/RegionRenderer.java:204-246 | the 16 columns of one row z are composited into their pixels and their look-ups recorded, x ascending |
| RegionRenderer.RegionRenderer.RenderColumns | src/main/java/togos/minecraft/maprend/core/RegionRenderer.java:204-246 | the 256 columns of a chunk are composited into their pixels, z outer and x inner, and their look-ups recorded |
| RegionRenderer.RegionRenderer.RenderLoaded | src/main/java/togos/minecraft/maprend/core/RegionRenderer.java:194-246 | a chunk with a "Level" tag fails before any pixel or look-up iff it does not fit the buffers; otherwise its 256 pixels are written and its look-ups recorded |
| RegionRenderer.RegionRenderer.RenderChunk | src/main/java/togos/minecraft/maprend/core/RegionRenderer.java:187-254 | one chunk fails iff reading it throws a runtime exception or its sections do not fit the buffers, and then leaves pixels and records untouched; otherwise a drawn chunk writes its 256 pixels and records its look-ups, and an absent or unreadable chunk changes nothing |
| RegionRenderer.RegionRenderer.RenderRegionRow | src/main/java/togos/minecraft/maprend/core/RegionRenderer.java:187-254 | one row cz of chunks: it stops at the region's first failure, and otherwise draws the 32 chunks of the row |
| RegionRenderer.RegionRenderer.RenderRegionRows | src/main/java/togos/minecraft/maprend/core/RegionRenderer.java:187-254 | the 32 rows of chunks: it succeeds iff no chunk fails, and has drawn and recorded the chunks before the first failure |
| RegionRenderer.RegionRenderer.DrawnPixels | src/main/java/togos/minecraft/maprend/core/RegionRenderer.java:244-246 | the pixels of every drawn chunk before a stop hold their columns' colours and heights, and every other pixel what it held before |
| RegionRenderer.RegionRenderer.PreRender | src/main/java/togos/minecraft/maprend/core/RegionRenderer.java:180-256 | succeeds iff no chunk of the region fails; the chunks before the first failure are drawn iff loaded; their pixels hold their columns' colours and opaque heights; all other pixels are untouched; the records are exactly those of the drawn chunks before the first failure |
| RegionRenderer.RegionRenderer.RecordRegionSound | src/main/java/togos/minecraft/maprend/core/RegionRenderer.java:180-256 | the records preRender leaves keep everything they held, and every id they gained fell back to a default |
| RegionRenderer.FlatShade | src/main/java/togos/minecraft/maprend/core/RegionRenderer.java:261-308 | on a flat height map both gradients are 0, so each drawn pixel gets the shade of its own height and blank pixels stay blank |
| RegionRenderer.Shade | src/main/java/togos/minecraft/maprend/core/RegionRenderer.java:261-308 | every pixel with colour 0 stays 0; every other pixel is shaded from the one-sided edge or central height differences and its height; heights are only read |
| RegionRenderer.ShadeOne | src/main/java/togos/minecraft/maprend/core/RegionRenderer.java:267-306 | one pixel is shaded and no other pixel changes |
| RegionRenderer.Partition | src/main/java/togos/minecraft/maprend/core/RegionRenderer.java:320-337 | the thread count is clamped to the region count; 0 threads or 0 regions divide by zero and a negative count fails; otherwise thread i gets [q*i, q*(i+1)-1] with the last ending at N-1, and the ranges tile 0..N-1 |
| RegionRenderer.ThreadWork | src/main/java/togos/minecraft/maprend/core/RegionRenderer.java:326-336 | defined as thread i's inclusive range [q*i, q*(i+1)-1] with q = N / threads, the last thread ending at N-1; stated by RegionRenderer.Partition and RegionRenderer.ThreadWorkTiles |
| RegionRenderer.ThreadWorkTiles | src/main/java/togos/minecraft/maprend/core/RegionRenderer.java:326-335 | the ranges start at 0, follow each other without gap or overlap, and end at N-1 |
| RegionRenderer.TilingVisitsAll | src/main/java/togos/minecraft/maprend/core/RegionRenderer.java:329-341 | walking the threads' ranges in order visits each index 0..N-1 exactly once, in order |
| RegionRenderer.RenderRegions | src/main/java/togos/minecraft/maprend/core/RegionRenderer.java:346-350 | the regions startIndex..endIndex go through renderRegion in order; the thread stops at the first region that fails, or at the first index outside the list, and reports where; the directory is the run of the steps up to there |
| RegionRenderer.StepsAppend | src/main/java/togos/minecraft/maprend/core/RegionRenderer.java:346-350 | running two lists in turn is running their concatenation: a failure in the first ends the run |
| RegionRenderer.Steps | src/main/java/togos/minecraft/maprend/core/RegionRenderer.java:346-350 | defined as the regions of one thread run in turn, stopping at the first that fails; the failing index lies in the list; stated by RegionRenderer.StepsAppend, RegionRenderer.StepsStopAtFirstFailure and RegionRenderer.RenderRegions |
| RegionRenderer.StepsStopAtFirstFailure | src/main/java/togos/minecraft/maprend/core/RegionRenderer.java:346-350 | every region before the failing one succeeds, and the run ends in the failing region's error state |
| RegionRenderer.StepsFailureEnds | src/main/java/togos/minecraft/maprend/core/RegionRenderer.java:346-350 | once a prefix of the regions fails, the regions after it are never rendered |
| RegionRenderer.ThreadsInSequence | src/main/java/togos/minecraft/maprend/core/RegionRenderer.java:329-350 | when no region fails, running the threads' ranges one after the other has the effect of rendering the whole list in order |
| RegionRenderer.RunThreads | src/main/java/togos/minecraft/maprend/core/RegionRenderer.java:329-341 | defined as the threads' ranges run one after another, each from the state the previous left; stated by RegionRenderer.RunThreadsPrefix and RegionRenderer.ThreadsInSequence |
| RegionRenderer.RunThreadsPrefix | src/main/java/togos/minecraft/maprend/core/RegionRenderer.java:329-350 | while no region up to the end of thread j-1 fails, the first j threads leave what one pass over their regions leaves |
| RegionRenderer.AnyScaleStaleIff | src/main/java/togos/minecraft/maprend/core/RegionRenderer.java:370-378 | some scale is stale iff a scale other than 1 has a tile that is forced, missing or older than the region file |
| RegionRenderer.TileSide | src/main/java/togos/minecraft/maprend/core/RegionRenderer.java:414 | a scaled tile side 512 / scale is positive exactly for scales 1..512 |
| RegionRenderer.Rescaled | src/main/java/togos/minecraft/maprend/core/RegionRenderer.java:408-410 | every rescaled scale is a configured scale other than 1, and every configured scale other than 1 is rescaled |
| RegionRenderer.RescaledAppend | src/main/java/togos/minecraft/maprend/core/RegionRenderer.java:408-410 | rescaling keeps order: it distributes over concatenation |
| RegionRenderer.ScaledWritesTiles | src/main/java/togos/minecraft/maprend/core/RegionRenderer.java:408-421 | with valid scales, each scale other than 1 gets tile.rx.rz.1-scale.png at 512/scale pixels, in order |
| RegionRenderer.PlanDecision | src/main/java/togos/minecraft/maprend/core/RegionRenderer.java:352-406 | the full-size tile is re-rendered iff it is forced, missing or older than the region file; the region is skipped iff no tile is stale; otherwise every scale other than 1 is rewritten |
| RegionRenderer.PlanRegion | src/main/java/togos/minecraft/maprend/core/RegionRenderer.java:352-406 | defined as the tiles renderRegion writes: a null region nothing, a stale full-size tile re-rendered with every scale, else the scales alone when one is stale, else nothing; stated by RegionRenderer.PlanDecision and RegionRenderer.PlanSettles |
| RegionRenderer.PlanSettles | src/main/java/togos/minecraft/maprend/core/RegionRenderer.java:352-422 | after one pass writes a region's tiles no earlier than the region file changed, an unforced second pass skips the region |
| RegionRenderer.RunOneOutcome | src/main/java/togos/minecraft/maprend/core/RegionRenderer.java:352-421 | a region fails iff it has tiles to write and its image cannot be had or a scale is invalid; success gives the planned directory; a missing image writes nothing, leaving a stale full-size tile deleted; an invalid scale comes after the full-size tile and the tiles of earlier scales are written |
| RegionRenderer.RunOne | src/main/java/togos/minecraft/maprend/core/RegionRenderer.java:352-422 | defined as renderRegion on one region: the plan carried out, failing when the image cannot be had or at an invalid scale; stated by RegionRenderer.RunOneOutcome |
| RegionRenderer.Pad | src/main/java/togos/minecraft/maprend/core/RegionRenderer.java:529-533 | the text is left-padded with spaces to the target length and kept whole when longer |
| RegionRenderer.PadInt | src/main/java/togos/minecraft/maprend/core/RegionRenderer.java:535-537 | the decimal text of the number, left-padded with spaces |
| RenderedMap.Shr | src/main/java/togos/minecraft/maprend/gui/RenderedMap.java:245-246 | an arithmetic right shift is floor division by 2 to the shift distance mod 32, negatives included |
| RenderedMap.AboveGround | src/main/java/togos/minecraft/maprend/gui/RenderedMap.java:241-247 | abovePos of groundPos(p, k) is groundPos(p, k+1) |
| RenderedMap.AboveOfBelow | src/main/java/togos/minecraft/maprend/gui/RenderedMap.java:249-257 | belowPos gives four distinct children, and abovePos of each is the parent |
| RenderedMap.GroundPos | src/main/java/togos/minecraft/maprend/gui/RenderedMap.java:245-247 | defined as both coordinates shifted right by the level difference; stated by RenderedMap.AboveGround |
| RenderedMap.AbovePos | src/main/java/togos/minecraft/maprend/gui/RenderedMap.java:241-243 | defined as groundPos by one level; stated by RenderedMap.AboveOfBelow and RenderedMap.BelowOfAbove |
| RenderedMap.BelowPos | src/main/java/togos/minecraft/maprend/gui/RenderedMap.java:249-257 | defined as the doubled position plus (0,0), (1,0), (0,1), (1,1), wrapping like Java ints; stated by RenderedMap.AboveOfBelow and RenderedMap.BelowOfAbove |
| RenderedMap.BelowOfAbove | src/main/java/togos/minecraft/maprend/gui/RenderedMap.java:241-257 | every position is one of the children of its parent |
| RenderedMap.Channel | src/main/java/togos/minecraft/maprend/gui/RenderedMap.java:294-300 | each ARGB channel is in 0..255 |
| RenderedMap.ChannelsPack | src/main/java/togos/minecraft/maprend/gui/RenderedMap.java:294-301 | packing the four channels of an int gives the int back |
| RenderedMap.PackChannels | src/main/java/togos/minecraft/maprend/gui/RenderedMap.java:294-301 | each channel of a packed int is the channel packed into it |
| RenderedMap.SampleColor | src/main/java/togos/minecraft/maprend/gui/RenderedMap.java:286-302 | each of the four channels of the result is the floor of the mean of the four pixels' channels |
| RenderedMap.SampleColorSame | src/main/java/togos/minecraft/maprend/gui/RenderedMap.java:286-302 | four equal pixels average to that pixel |
| RenderedMap.SampleColorAsWrittenAgrees | src/main/java/togos/minecraft/maprend/gui/RenderedMap.java:286-302 | the code as written gives the per-channel mean whenever the four alphas share their top bit |
| RenderedMap.SampleColorAsWritten | src/main/java/togos/minecraft/maprend/gui/RenderedMap.java:286-302 | defined as sampleColor as written, the alpha mask sign-extended; stated by RenderedMap.SampleColorAsWrittenAgrees, RenderedMap.SampleColorMixedAlpha and RenderedMap.SampleAtMean |
| RenderedMap.SampleColorMixedAlpha | src/main/java/togos/minecraft/maprend/gui/RenderedMap.java:294 | two opaque and two clear pixels: the code as written gives alpha 0xFF, the per-channel mean gives 0x7F |
| RenderedMap.SampleAtMean | src/main/java/togos/minecraft/maprend/gui/RenderedMap.java:286-302 | on a block whose four alphas share their top bit, sampleColor as written is the per-channel floor mean |
| RenderedMap.HalfStep | src/main/java/togos/minecraft/maprend/gui/RenderedMap.java:275-280 | one loop step writes the four quadrant pixels of (x, y) and nothing else |
| RenderedMap.HalfSize | src/main/java/togos/minecraft/maprend/gui/RenderedMap.java:263-284 | the old image is reused when given; output (x, y) is sampleColor as written, sign-extended alpha included, of the 2 x 2 block at (2x, 2y) of the quadrant's image, offset by 256 in x and/or y, or 0 for a missing quadrant |
| RenderedMap.HalfSizeUniform | src/main/java/togos/minecraft/maprend/gui/RenderedMap.java:263-284 | four images of one colour halve to that colour |
| RenderedMap.HalfSizeVarargsAsWritten | src/main/java/togos/minecraft/maprend/gui/RenderedMap.java:259-261 | as written the varargs overload always fails with an out-of-bounds index |
| RenderedMap.HalfSizeVarargs | src/main/java/togos/minecraft/maprend/gui/RenderedMap.java:259-284 | with four corners it is the five-argument halfSize; with fewer it fails at the first missing index |
| RenderedMap.TileGeometry | src/main/java/togos/minecraft/maprend/gui/RenderedMap.java:310-311 | for a shift distance n (the level difference mod 32) up to 9, tileSize 512 >> n times scaleFactor 1 << n is 512 |
| RenderedMap.TileVanishes | src/main/java/togos/minecraft/maprend/gui/RenderedMap.java:310 | for a shift distance n (the level difference mod 32) from 10 on, the tile size 512 >> n is 0 |
| RenderedMap.FillBlock | src/main/java/togos/minecraft/maprend/gui/RenderedMap.java:320-323 | the scale x scale block of one source pixel takes its colour and nothing else changes |
| RenderedMap.EnlargeStep | src/main/java/togos/minecraft/maprend/gui/RenderedMap.java:315-323 | one source pixel of the sub-tile is read and written to its block |
| RenderedMap.DoubleSize | src/main/java/togos/minecraft/maprend/gui/RenderedMap.java:304-327 | the old image is reused when given; when the level difference mod 32 is at most 9, every output pixel (x, y) is input(x/s + sub.x*t, y/s + sub.y*t); when it is 10 or more, nothing is written |
| RenderedMap.HalvingUndoesDoubling | src/main/java/togos/minecraft/maprend/gui/RenderedMap.java:286-327 | sampling a tile doubled one level at (2x, 2y) gives back the source pixel |
| RenderedMap.DoubledBlock | src/main/java/togos/minecraft/maprend/gui/RenderedMap.java:315-323 | doubling by one level writes each sub-tile pixel to all four pixels of its 2 x 2 block |
| RenderedMap.LevelKeys | src/main/java/togos/minecraft/maprend/gui/RenderedMap.java:191-203 | the keys of every memoised level are the ground positions of the plain regions, shifted by the level's distance from 0 |
| RenderedMap.RenderedMap.Get | src/main/java/togos/minecraft/maprend/gui/RenderedMap.java:191-203 | a level beyond 20 either way fails; otherwise the level's map is built once from the level next to it toward 0, with the parents of its keys and no values; existing levels are never changed, and a second call returns the same map |
| RenderedMap.RenderedMap.ClearReload | src/main/java/togos/minecraft/maprend/gui/RenderedMap.java:128-136 | the plain regions become the given positions at level 0, and the level maps are reset to level 0 alone |
| RenderedMap.RenderedMap.constructor | src/main/java/togos/minecraft/maprend/gui/RenderedMap.java:114-117 | a new map holds exactly the given positions at level 0 |
| RegionRendererCommand.Initial | src/togos/minecraft/maprend/commandstandalone/RegionRendererCommand.java:124-144 | the field defaults: no output dir, no files, no error, every flag off, tile html and image tree unset, an infinite limit rect, the full height window, shading 64/36/-20/+20, scales {1}, title "Regions" |
| RegionRendererCommand.IntArg | src/togos/minecraft/maprend/commandstandalone/RegionRendererCommand.java:61 | a number argument is an int; a missing one fails at its index |
| RegionRendererCommand.IntArgs | src/togos/minecraft/maprend/commandstandalone/RegionRendererCommand.java:69-72 | the four numbers of -region-limit-rect are consecutive int arguments |
| RegionRendererCommand.JavaSplit | src/togos/minecraft/maprend/commandstandalone/RegionRendererCommand.java:93 | text without a separator splits into itself; otherwise the pieces are those of the full split with the trailing empty pieces, and only those, removed |
| RegionRendererCommand.SplitAll | src/togos/minecraft/maprend/commandstandalone/RegionRendererCommand.java:93 | there is at least one piece, no piece holds the separator, and the pieces joined with the separator give the text back |
| RegionRendererCommand.DropTrailingEmpty | src/togos/minecraft/maprend/commandstandalone/RegionRendererCommand.java:93 | the result is a prefix that is empty or ends in a non-empty piece, and every dropped piece is empty |
| RegionRendererCommand.ParseScales | src/togos/minecraft/maprend/commandstandalone/RegionRendererCommand.java:94-105 | the list is accepted iff every piece is a scale; then it has one value per piece, each the value of its piece; otherwise the error is that of the first bad piece |
| RegionRendererCommand.ScaleOf | src/togos/minecraft/maprend/commandstandalone/RegionRendererCommand.java:97-104 | defined as one piece of a -scales value: "1" is 1, "1:n" is n when n parses, otherwise an invalid scale; stated by RegionRendererCommand.ParseScales and RegionRendererCommand.ScalesRoundTrip |
| RegionRendererCommand.ReadScales | src/togos/minecraft/maprend/commandstandalone/RegionRendererCommand.java:94-105 | the scale loop yields exactly the scale list specification: "1" is 1, "1:n" is n, anything else stops with the invalid-scale error |
| RegionRendererCommand.ScalesRoundTrip | src/togos/minecraft/maprend/commandstandalone/RegionRendererCommand.java:92-105 | scales written as "1:n", joined with commas and split again are read back unchanged |
| RegionRendererCommand.Step | src/togos/minecraft/maprend/commandstandalone/RegionRendererCommand.java:52-108 | one argument moves the index forward, past its values; a stop always carries an error message |
| RegionRendererCommand.OptionNamed | src/togos/minecraft/maprend/commandstandalone/RegionRendererCommand.java:52-108 | defined as the option an argument names, the help option under its four spellings; stated by RegionRendererCommand.Step |
| RegionRendererCommand.ApplyArgument | src/togos/minecraft/maprend/commandstandalone/RegionRendererCommand.java:52-108 | the loop body, which advances i by hand, is exactly one step of the parse specification |
| RegionRendererCommand.FromArguments | src/togos/minecraft/maprend/commandstandalone/RegionRendererCommand.java:49-113 | the loop yields exactly the parse of the argument list, errors included |
| RegionRendererCommand.ParseFrom | src/togos/minecraft/maprend/commandstandalone/RegionRendererCommand.java:51-112 | defined as the arguments from index i on applied in turn, a stop or a failure ending the parse and the end validated; stated by RegionRendererCommand.FromArguments and RegionRendererCommand.ParsedIsValid |
| RegionRendererCommand.Parse | src/togos/minecraft/maprend/commandstandalone/RegionRendererCommand.java:49-113 | defined as ParseFrom from the first argument and the initial command; stated by RegionRendererCommand.FromArguments |
| RegionRendererCommand.UnrecognisedStops | src/togos/minecraft/maprend/commandstandalone/RegionRendererCommand.java:106-108 | an unknown option stops parsing at once with "Unrecognised argument: " and the option, without validation |
| RegionRendererCommand.Validate | src/togos/minecraft/maprend/commandstandalone/RegionRendererCommand.java:115-122 | no message iff there are region files and an output dir; the missing-regions message comes first |
| RegionRendererCommand.ParsedIsValid | src/togos/minecraft/maprend/commandstandalone/RegionRendererCommand.java:111-122 | a parse that ends without an error has at least one region file and an output dir |
| RegionRendererCommand.FilesThenOutput | src/togos/minecraft/maprend/commandstandalone/RegionRendererCommand.java:52-55 | positional arguments are appended to the region files in order, and "-o dir" sets the output dir |
| RegionRendererCommand.FilesThenOutputValid | src/togos/minecraft/maprend/commandstandalone/RegionRendererCommand.java:49-122 | "files... -o dir" parses to the defaults with those files and that output dir, and no error |
| RegionRendererCommand.GetDefault | src/togos/minecraft/maprend/commandstandalone/RegionRendererCommand.java:146-148 | an explicit value wins over the default |
| RegionRendererCommand.ShouldCreateTileHtml | src/togos/minecraft/maprend/commandstandalone/RegionRendererCommand.java:45-152 | tile html is made iff it was asked for, or it was left unset and exactly one directory was given |
| RegionRendererCommand.ShouldCreateImageTree | src/togos/minecraft/maprend/commandstandalone/RegionRendererCommand.java:154-156 | the image tree is made iff it was asked for |
| RegionRendererCommand.SettingsOf | src/togos/minecraft/maprend/commandstandalone/RegionRendererCommand.java:170-173 | the render settings carry the command's own colour map, biome map, debug, height window, shading, title and scales |
| RegionRendererCommand.DefaultsAgree | src/togos/minecraft/maprend/commandstandalone/RegionRendererCommand.java:124-142 | the command's defaults give exactly the default render settings |
| RegionRendererCommand.Run | src/togos/minecraft/maprend/commandstandalone/RegionRendererCommand.java:158-176 | an error message is reported before the help flag is looked at; help without an error prints the usage; otherwise the regions are rendered with the command's settings, files, limit, output dir and force flag, and the extra outputs it asks for |
| RegionRendererCommand.ExitCode | src/togos/minecraft/maprend/commandstandalone/RegionRendererCommand.java:158-240 | run returns 1 iff it reports an error, 0 otherwise |
| RegionRendererCommand.RunRendersValid | src/togos/minecraft/maprend/commandstandalone/RegionRendererCommand.java:111-176 | rendering only starts with at least one region file and an output dir |
| RegionRendererCommand.HelpAloneFails | src/togos/minecraft/maprend/commandstandalone/RegionRendererCommand.java:88-166 | "-h" alone sets the help flag but fails validation, so run exits with 1 |

## Left out

- DoubleSize: requires that the old image is not the input and, when the level difference mod 32 is at most 9, that the sub-tile lies inside the input. What the image reader does with out-of-range coordinates is not modelled.
- HalfSize: requires that the old image is none of the four corners. Reading and writing one image at the same time is not modelled.
- HalfSizeVarargs: models the evidently intended call, so it shares HalfSize's requirement.
- RenderedMap.RenderedMap.Get: the values of the level maps are left empty.
  - RenderedRegion is not part of this model.
  - So `get(level, pos, create)`, `putImage`, `isNothingLoaded` and `invalidateAll` are left out.
- The MapDB caches, their serializers and the expiry executor of RenderedMap are left out. So are its JavaFX drawing (`draw`, `updateImage`) and `close`, because they are external storage and UI.
- RegionFile.RegionFile.LoadChunk: zlib inflation (RFC 1950) and NBT parsing are the function parameter `inflate`. It is not part of this model, so which payloads inflate and parse is not stated. The parsed "Level" tag is an abstract record of optional byte arrays and a list of sections.
- RegionFile.RegionFile.LoadChunk: a huge length prefix makes the buffer allocation throw `OutOfMemoryError`. This is not modelled; any non-negative length is read.
- RandomAccessFile is modelled as the file's contents. Reading past the end yields -1; the file handle and I/O errors are not modelled.
- RegionRenderer.BlockColor: `BlockColors`, `Color.overlay`, `Color.multiplySolid` and `Color.alpha` are not part of this model. They enter as a table and functions.
- RegionRenderer.Shade: the shading amount, computed in floating point with `Math.tanh`, is a function parameter, and `Color.shade` is one too. The settings field it reads is not in this tree's RenderSettings.
- The `Timer` counters, `System.currentTimeMillis`, and the starting and joining of render threads are left out. Threads are modelled as their index ranges run one after another, each from the directory the one before left. A failing region ends only its own thread.
- ThreadsInSequence: states the effect of the threads only when no region fails. Running them one after another does not capture their interleaving.
- `renderRegion(RegionFile)` (the 512 x 512 image assembly around `preRender` and `shade`) and `ImageIO` PNG reading and writing are left out. So are bilinear rescaling with `Graphics2D`, and file existence, modification times and deletion. Existence and modification times become a map from file names to times.
- RunOne: whether the full-size image could be had is the parameter `imageOk`. It is not tied to `PreRender`'s `ok`, nor to the outcome of reading the tile back.
- RunOne: an IOException from writing a scaled tile is not modelled; such a write always succeeds. A failed write of the full-size tile is caught and reported by `renderRegion`; the model records that tile as written.
- RegionRenderer.RegionRenderer.PreRender: after a failure, the section buffers hold whatever the failing chunk left in them. This is not stated. Pixels and records are stated up to the failing chunk.
- `createTileHtml`, `createImageTree`, `createBigImage` and `RegionMap` are left out, because they generate HTML and files. The model records only whether `run` asks for them.
- `run`'s debug statistics output is left out, as are the printing of the usage text and error message.
- `run`'s call of `renderAll` takes three arguments, while this tree's `renderAll` takes four. The call is modelled as the rendering request it makes.
- Files are modelled as their path text. Java's path normalisation is not modelled, and whether a path is a directory is a function parameter.
- BoundingRect is not part of this model. `-region-limit-rect` keeps its four numbers.
- `Integer.parseInt` is modelled as an optional sign followed by ASCII decimal digits. The non-ASCII digits Java also accepts are not modelled.
- BiomeColors.Load: the reader is a sequence of lines. The diagnostic for a short line is the list of its line numbers. `IDUtil.parseInt` is a function parameter; it is not part of this model.

## Findings

| source | as written | input that shows it | evidently intended | confidence | as-written member | corrected member |
|---|---|---|---|---|---|---|
| src/main/java/togos/minecraft/maprend/gui/RenderedMap.java:286-302 | the alpha bytes are summed as sign-extended values and then shifted, so alpha 0x80..0xFF counts as negative | two pixels with alpha 0xFF and two with alpha 0x00 give alpha 0xFF | the floor of the mean of the four unsigned alphas, 0x7F here | not executed | RenderedMap.SampleColorMixedAlpha | RenderedMap.SampleColorAsWrittenAgrees |
| src/main/java/togos/minecraft/maprend/gui/RenderedMap.java:259-261 | the four-argument call resolves only to the varargs overload itself, whose inner `corners` has length 3 | any four corners: `corners[3]` of the inner call is out of bounds | call the five-argument `halfSize(old, corners[0], corners[1], corners[2], corners[3])` | not executed | RenderedMap.HalfSizeVarargsAsWritten | RenderedMap.HalfSizeVarargs |
