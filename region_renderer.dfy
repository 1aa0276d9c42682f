/** The renderer: colour look-up with a record of every id that fell back to
    a default, the column compositing that turns one region's chunks into
    512 x 512 colour and height buffers, the split of the region list among
    render threads, and the decision whether a region's tiles are stale. */
module RegionRenderer {
  import opened Common
  import opened RegionFile
  import opened BiomeColors
  import opened RenderSettings

  //// Block colours ////

  /** One entry of the block colour table: a base colour and influence, and
      per data value an optional sub-colour with its own influence. */
  datatype Block = Block(baseColor: Argb, baseInfluence: Influence,
                         subColors: seq<Argb>, subColorInfluences: seq<Influence>,
                         hasSubColors: seq<bool>, isDefault: bool)

  /** Every data value with a sub-colour flag also has the colour and influence. */
  predicate BlockOk(b: Block) {
    |b.subColors| >= |b.hasSubColors| && |b.subColorInfluences| >= |b.hasSubColors|
  }

  /** The data value `datum` selects a sub-colour of `b`. */
  predicate UsesSubColor(b: Block, datum: int) {
    0 <= datum < |b.hasSubColors| && b.hasSubColors[datum]
  }

  /** A block colour table that covers every 12-bit block id a section can
      hold, indexed by 16-bit ids, whose every entry is well formed. */
  type BlockTable = t: seq<Block> | 4096 <= |t| <= 0x1_0000 && forall i :: 0 <= i < |t| ==> BlockOk(t[i])
    witness seq(4096, i => Block(0, NoInfluence, [], [], [], false))

  /** The colour `getColor` returns: the block's sub-colour for its data
      value when it has one, its base colour otherwise, multiplied by the
      biome's multiplier for that colour's influence. */
  function BlockColor(blocks: seq<Block>, biomes: BiomeTable, multiplySolid: (Argb, Argb) -> Argb,
                      blockId: int, datum: int, biomeId: int): (c: Argb)
    requires 0 <= blockId < |blocks| && BlockOk(blocks[blockId]) && datum >= 0
    ensures UsesSubColor(blocks[blockId], datum) ==>
      c == multiplySolid(blocks[blockId].subColors[datum],
                         GetBiome(biomes, biomeId).GetMultiplier(blocks[blockId].subColorInfluences[datum]))
    ensures !UsesSubColor(blocks[blockId], datum) ==>
      c == multiplySolid(blocks[blockId].baseColor,
                         GetBiome(biomes, biomeId).GetMultiplier(blocks[blockId].baseInfluence))
  {
    var b := blocks[blockId];
    var color, influence :=
      if UsesSubColor(b, datum) then b.subColors[datum] else b.baseColor,
      if UsesSubColor(b, datum) then b.subColorInfluences[datum] else b.baseInfluence;
    multiplySolid(color, GetBiome(biomes, biomeId).GetMultiplier(influence))
  }

  /** `blockId | blockDatum << 16` as a Java `int`, for a 16-bit block id:
      the shift keeps the low 16 bits of the data value, which land in the
      high half of the 32-bit word. */
  function DatumKey(blockId: int, datum: int): int
    requires 0 <= blockId < 0x1_0000
  {
    var high := (datum % 0x1_0000) * 0x1_0000;
    (if high <= INT_MAX then high else high - TWO_32) + blockId
  }

  /** The key is the shifted data value wrapped to 32 bits plus the block
      id; it keeps the block id in its low 16 bits and, for a data value
      below 0x8000, the data value above them, so distinct pairs get
      distinct keys. */
  lemma DatumKeyParts(blockId: int, datum: int)
    requires 0 <= blockId < 0x1_0000
    ensures DatumKey(blockId, datum) == Wrap32(datum * 0x1_0000) + blockId
    ensures IsInt32(DatumKey(blockId, datum))
    ensures DatumKey(blockId, datum) % 0x1_0000 == blockId
    ensures 0 <= datum < 0x8000 ==> DatumKey(blockId, datum) / 0x1_0000 == datum
  {
    var m := (datum * 0x1_0000) % TWO_32;
    var high := (datum % 0x1_0000) * 0x1_0000;
    var q := datum / 0x1_0000;
    assert datum * 0x1_0000 == q * TWO_32 + high;
    assert m == high;
  }

  /** The height at and above which a block counts as opaque for the height map. */
  const SHADE_OPACITY_CUTOFF: int := 0x20

  /** `maxSectionCount`: the slots of a chunk's section buffers. */
  const SECTION_SLOTS: int := 16

  /** The side of a region image in pixels and its pixel count. */
  const REGION_SIDE: int := 512
  const PIXELS: int := 512 * 512

  /** The section whose arrays end up in slot `s` of the buffers. */
  function SlotSection(level: Level, s: int): Option<Section> {
    LastSection(level.sections, s)
  }

  /** The biome id of column (x, z): the chunk's byte read as unsigned, or
      0xFF when the chunk has no biome array. */
  function ColumnBiome(level: Level, x: int, z: int): (b: int)
    requires 0 <= x < 16 && 0 <= z < 16
    requires level.biomes.Some? ==> |level.biomes.value| >= BIOME_COUNT
    ensures 0 <= b < 256
  {
    if level.biomes.Some? then level.biomes.value[z * 16 + x] as int else 0xFF
  }

  /** The cell index of (x, y, z) inside a section. */
  function CellIndex(x: int, y: int, z: int): (i: int)
    requires 0 <= x < 16 && 0 <= y < 16 && 0 <= z < 16
    ensures 0 <= i < SECTION_VOLUME
  {
    z * 16 + x + 256 * y
  }

  /** A chunk on which `preRender` throws past its IOException handler,
      so that the region is abandoned: reading it threw a runtime exception,
      or its "Level" tag does not fit the 16 buffer slots and
      `loadChunkData` meets an index it cannot use. */
  predicate Fails(c: ChunkLoad) {
    c.Broken? || (c.Loaded? && !LevelFits(c.level, SECTION_SLOTS))
  }

  /** The first chunk from k on that fails, or |chunks| when none does. */
  function FirstFailure(chunks: seq<ChunkLoad>, k: nat): (f: nat)
    requires k <= |chunks|
    ensures k <= f <= |chunks|
    ensures forall j {:trigger chunks[j]} :: k <= j < f ==> !Fails(chunks[j])
    ensures f < |chunks| ==> Fails(chunks[f])
    decreases |chunks| - k
  {
    if k == |chunks| || Fails(chunks[k]) then k else FirstFailure(chunks, k + 1)
  }

  /** The first failure from i on is k when no chunk in [i, k) fails and
      chunk k, if there is one, does. */
  lemma {:induction false} FirstFailureAt(chunks: seq<ChunkLoad>, i: nat, k: nat)
    requires i <= k <= |chunks|
    requires forall j {:trigger chunks[j]} :: i <= j < k ==> !Fails(chunks[j])
    requires k < |chunks| ==> Fails(chunks[k])
    ensures FirstFailure(chunks, i) == k
    decreases k - i
  {
    if i < k {
      assert !Fails(chunks[i]);
      FirstFailureAt(chunks, i + 1, k);
    }
  }

  /** The region's 1024 chunks as `preRender` reads them from a region
      file's contents and position table, chunk (cx, cz) at 32 * cz + cx. */
  function RegionChunks(data: seq<byte>, table: map<ChunkPos, int>, inflate: seq<byte> -> Inflated)
    : (chunks: seq<ChunkLoad>)
    requires forall p :: p in table ==> table[p] > 0
    ensures |chunks| == HEADER_ENTRIES
  {
    ChunksUpTo(data, table, inflate, HEADER_ENTRIES)
  }

  /** The first n of the region's chunks, in `preRender`'s order. */
  function ChunksUpTo(data: seq<byte>, table: map<ChunkPos, int>, inflate: seq<byte> -> Inflated, n: nat)
    : (chunks: seq<ChunkLoad>)
    requires forall p :: p in table ==> table[p] > 0
    ensures |chunks| == n
  {
    if n == 0 then []
    else ChunksUpTo(data, table, inflate, n - 1) + [ChunkLoadOf(ReadChunk(data, table, EntryPos(n - 1)), inflate)]
  }

  /** Chunk k of the region is what reading the table entry k gives. */
  lemma {:induction false} ChunkAt(data: seq<byte>, table: map<ChunkPos, int>, inflate: seq<byte> -> Inflated,
                                   n: nat, k: int)
    requires forall p :: p in table ==> table[p] > 0
    requires 0 <= k < n
    ensures ChunksUpTo(data, table, inflate, n)[k] == ChunkLoadOf(ReadChunk(data, table, EntryPos(k)), inflate)
  {
    if k < n - 1 {
      ChunkAt(data, table, inflate, n - 1, k);
    }
  }

  /** One `getColor` call as the compositor makes it: a 12-bit block id, a
      data value and the column's biome id. */
  datatype Lookup = Lookup(blockId: BlockId, datum: byte, biomeId: int)

  type BlockId = i: int | 0 <= i < 4096

  /** The three records of ids that fell back to a default: block ids,
      `blockId | datum << 16` keys, and biome ids. */
  datatype Defaulted = Defaulted(blockIds: set<int>, dataValues: set<int>, biomeIds: set<int>)

  /** One of the nested loops in which `preRender` composites a chunk:
      the heights y of slot s of column (x, z), the slots of column (x, z),
      the columns x of row z, or the rows z. */
  datatype Loop = Heights(x: int, z: int, s: int) | Slots(x: int, z: int) | Columns(z: int) | Rows

  /** How deep the loop sits: the heights loop is the innermost. */
  function Nesting(loop: Loop): nat {
    match loop
    case Heights(_, _, _) => 0
    case Slots(_, _) => 1
    case Columns(_) => 2
    case Rows => 3
  }

  /** The loop lies inside the chunk: its column or row is one of the 16. */
  predicate LoopFits(loop: Loop) {
    match loop
    case Heights(x, z, _) => 0 <= x < 16 && 0 <= z < 16
    case Slots(x, z) => 0 <= x < 16 && 0 <= z < 16
    case Columns(z) => 0 <= z < 16
    case Rows => true
  }

  /** Where column (x, z) of chunk (cx, cz) lands in the 512 x 512 buffers. */
  function PixelIndex(cx: int, cz: int, x: int, z: int): int {
    512 * (cz * 16 + z) + 16 * cx + x
  }

  /** The column x and row z, inside its chunk, of a pixel. */
  function PixelX(d: int): int {
    d % 512 % 16
  }

  function PixelZ(d: int): int {
    d / 512 % 16
  }

  /** The chunk index 32 * cz + cx of the chunk a pixel belongs to. */
  function ChunkOfPixel(d: int): int {
    32 * (d / 512 / 16) + d % 512 / 16
  }

  /** The position of a pixel's column inside its chunk, z * 16 + x. */
  function ColumnOfPixel(d: int): int {
    16 * PixelZ(d) + PixelX(d)
  }

  /** Every chunk column has its own pixel inside the buffers, and the
      pixel tells back the chunk and the column. */
  lemma PixelIndexDecodes(cx: int, cz: int, x: int, z: int)
    requires 0 <= cx < 32 && 0 <= cz < 32 && 0 <= x < 16 && 0 <= z < 16
    ensures 0 <= PixelIndex(cx, cz, x, z) < PIXELS
    ensures ChunkOfPixel(PixelIndex(cx, cz, x, z)) == 32 * cz + cx
    ensures ColumnOfPixel(PixelIndex(cx, cz, x, z)) == z * 16 + x
    ensures PixelX(PixelIndex(cx, cz, x, z)) == x && PixelZ(PixelIndex(cx, cz, x, z)) == z
  {
    var d := PixelIndex(cx, cz, x, z);
    DivModOf(d, 512, 16 * cz + z, 16 * cx + x);
    DivModOf(16 * cz + z, 16, cz, z);
    DivModOf(16 * cx + x, 16, cx, x);
  }

  /** Distinct chunk columns never share a pixel. */
  lemma PixelIndexInjective(cx: int, cz: int, x: int, z: int, cx': int, cz': int, x': int, z': int)
    requires 0 <= cx < 32 && 0 <= cz < 32 && 0 <= x < 16 && 0 <= z < 16
    requires 0 <= cx' < 32 && 0 <= cz' < 32 && 0 <= x' < 16 && 0 <= z' < 16
    requires PixelIndex(cx, cz, x, z) == PixelIndex(cx', cz', x', z')
    ensures cx == cx' && cz == cz' && x == x' && z == z'
  {
    PixelIndexDecodes(cx, cz, x, z);
    PixelIndexDecodes(cx', cz', x', z');
    DivModOf(32 * cz + cx, 32, cz, cx);
    DivModOf(32 * cz' + cx', 32, cz', cx');
    DivModOf(16 * z + x, 16, z, x);
    DivModOf(16 * z' + x', 16, z', x');
  }

  /** Every pixel is the PixelIndex of one chunk column. */
  lemma PixelParts(d: int) returns (cx: int, cz: int, x: int, z: int)
    requires 0 <= d < PIXELS
    ensures 0 <= cx < 32 && 0 <= cz < 32 && 0 <= x < 16 && 0 <= z < 16
    ensures d == PixelIndex(cx, cz, x, z)
    ensures ChunkOfPixel(d) == 32 * cz + cx && ColumnOfPixel(d) == 16 * z + x
  {
    var q, r := d / 512, d % 512;
    cz, z := q / 16, q % 16;
    cx, x := r / 16, r % 16;
  }

  /** A pixel of chunk k at column j is the one PixelIndex gives them. */
  lemma PixelOfColumn(d: int, cx: int, cz: int, x: int, z: int)
    requires 0 <= d < PIXELS
    requires 0 <= cx < 32 && 0 <= cz < 32 && 0 <= x < 16 && 0 <= z < 16
    requires ChunkOfPixel(d) == 32 * cz + cx && ColumnOfPixel(d) == 16 * z + x
    ensures d == PixelIndex(cx, cz, x, z)
  {
    var cx', cz', x', z' := PixelParts(d);
    DivModOf(32 * cz + cx, 32, cz, cx);
    DivModOf(32 * cz' + cx', 32, cz', cx');
    DivModOf(16 * z + x, 16, z, x);
    DivModOf(16 * z' + x', 16, z', x');
  }

  /** Which chunk indices of the region are drawn: chunk k has a "Level"
      tag that fits the buffers. */
  function Drawn(chunks: seq<ChunkLoad>): int -> bool {
    k => 0 <= k < |chunks| && chunks[k].Loaded? && LevelFits(chunks[k].level, SECTION_SLOTS)
  }

  /** Pixel d is written once the chunks before k, and the columns before
      j of chunk k, are done: it belongs to a readable chunk in that range. */
  predicate PixelDone(loaded: int -> bool, d: int, k: int, j: int) {
    && 0 <= d < PIXELS
    && loaded(ChunkOfPixel(d))
    && (ChunkOfPixel(d) < k || (ChunkOfPixel(d) == k && ColumnOfPixel(d) < j))
  }

  /** A pixel buffer part-way through `preRender`: written pixels hold
      their target value, all others what they held before. */
  predicate Written<T(==)>(cs: seq<T>, olds: seq<T>, target: int -> T, loaded: int -> bool, k: int, j: int) {
    && |cs| == |olds|
    && forall d :: 0 <= d < |cs| ==> cs[d] == if PixelDone(loaded, d, k, j) then target(d) else olds[d]
  }

  /** Writing column (x, z) of readable chunk (cx, cz) to its pixel
      advances a buffer by one column. */
  lemma WriteColumn<T>(cs: seq<T>, olds: seq<T>, target: int -> T, loaded: int -> bool,
                       cx: int, cz: int, x: int, z: int)
    requires 0 <= cx < 32 && 0 <= cz < 32 && 0 <= x < 16 && 0 <= z < 16 && loaded(32 * cz + cx)
    requires |cs| >= PIXELS
    requires Written(cs, olds, target, loaded, 32 * cz + cx, 16 * z + x)
    ensures Written(cs[PixelIndex(cx, cz, x, z) := target(PixelIndex(cx, cz, x, z))],
                    olds, target, loaded, 32 * cz + cx, 16 * z + x + 1)
  {
    var i := PixelIndex(cx, cz, x, z);
    PixelIndexDecodes(cx, cz, x, z);
    var k, j, j' := 32 * cz + cx, 16 * z + x, 16 * z + x + 1;
    forall d | 0 <= d < PIXELS && ChunkOfPixel(d) == k && ColumnOfPixel(d) == j
      ensures d == i
    {
      PixelOfColumn(d, cx, cz, x, z);
    }
  }

  /** Once its 256 columns are written, or when it is not readable, a
      chunk is done and the next one starts. */
  lemma FinishChunk<T>(cs: seq<T>, olds: seq<T>, target: int -> T, loaded: int -> bool, k: int)
    requires 0 <= k < HEADER_ENTRIES
    requires Written(cs, olds, target, loaded, k, if loaded(k) then 256 else 0)
    ensures Written(cs, olds, target, loaded, k + 1, 0)
  {
    var j := if loaded(k) then 256 else 0;
    forall d | 0 <= d < PIXELS
      ensures PixelDone(loaded, d, k + 1, 0) == PixelDone(loaded, d, k, j)
    {
      var cx, cz, x, z := PixelParts(d);
    }
  }

  /** A buffer written up to chunk `stop`: a pixel of a loaded chunk
      before `stop` holds its target, every other pixel what it held before. */
  lemma WrittenUpTo<T>(cs: seq<T>, olds: seq<T>, target: int -> T, loaded: int -> bool, stop: int)
    requires Written(cs, olds, target, loaded, stop, 0)
    ensures |cs| == |olds|
    ensures forall d :: 0 <= d < |cs| ==>
      cs[d] == if d < PIXELS && loaded(ChunkOfPixel(d)) && ChunkOfPixel(d) < stop then target(d) else olds[d]
  {
    forall d | 0 <= d < |cs|
      ensures PixelDone(loaded, d, stop, 0) == (d < PIXELS && loaded(ChunkOfPixel(d)) && ChunkOfPixel(d) < stop)
    {
      assert ColumnOfPixel(d) >= 0;
    }
  }

  /** Slot s of the buffers holds the block ids and data values of section `sec`. */
  predicate SectionHeld(sec: Section, s: int, blockIds: array2<int>, blockData: array2<byte>)
    reads blockIds, blockData
  {
    && 0 <= s < SECTION_SLOTS && ArraysFit(sec)
    && blockIds.Length0 == SECTION_SLOTS && blockIds.Length1 == SECTION_VOLUME
    && blockData.Length0 == SECTION_SLOTS && blockData.Length1 == SECTION_VOLUME
    && (forall i :: 0 <= i < SECTION_VOLUME ==> blockIds[s, i] == BlockIdAt(sec, i))
    && (forall i :: 0 <= i < SECTION_VOLUME ==> blockData[s, i] == DataAt(sec, i))
  }

  /** Slot s of the buffers holds the arrays of the section `loadChunkData` put there. */
  predicate SlotHeld(level: Level, s: int, blockIds: array2<int>, blockData: array2<byte>)
    reads blockIds, blockData
  {
    && LevelFits(level, SECTION_SLOTS) && SlotSection(level, s).Some?
    && SectionHeld(SlotSection(level, s).value, s, blockIds, blockData)
  }

  /** What `loadChunkData` leaves in the buffers for a chunk: the used flag
      of each of the 16 slots, the arrays of the section in every used slot,
      and the chunk's biome ids (0xFF each when it has none). */
  predicate ChunkHeld(level: Level, blockIds: array2<int>, blockData: array2<byte>,
                      used: array<bool>, biomeIds: array<byte>)
    reads blockIds, blockData, used, biomeIds
  {
    && LevelFits(level, SECTION_SLOTS)
    && used.Length == SECTION_SLOTS && biomeIds.Length == BIOME_COUNT
    && (forall t :: 0 <= t < SECTION_SLOTS ==> used[t] == SlotSection(level, t).Some?)
    && (forall t :: 0 <= t < SECTION_SLOTS && used[t] ==> SlotHeld(level, t, blockIds, blockData))
    && (forall i :: 0 <= i < BIOME_COUNT ==> biomeIds[i] == if level.biomes.Some? then level.biomes.value[i] else 0xFF)
  }

  /** What `loadChunkData` leaves in 16-slot buffers is what the
      compositor reads: every slot flag is fresh, since all 16 were cleared. */
  lemma LoadedChunkHeld(level: Level, blockIds: array2<int>, blockData: array2<byte>,
                        used: array<bool>, biomeIds: array<byte>)
    requires LevelFits(level, SECTION_SLOTS)
    requires blockIds.Length0 == SECTION_SLOTS && blockIds.Length1 == SECTION_VOLUME
    requires blockData.Length0 == SECTION_SLOTS && blockData.Length1 == SECTION_VOLUME
    requires used.Length == SECTION_SLOTS && biomeIds.Length == BIOME_COUNT
    requires forall t :: 0 <= t < used.Length ==> used[t] == HasSection(level, t)
    requires forall i :: 0 <= i < biomeIds.Length ==>
      biomeIds[i] == if level.biomes.Some? then level.biomes.value[i] else 0xFF
    requires forall t, i :: 0 <= t < SECTION_SLOTS && 0 <= i < SECTION_VOLUME && SlotSection(level, t).Some? ==>
      blockIds[t, i] == BlockIdAt(SlotSection(level, t).value, i) &&
      blockData[t, i] == DataAt(SlotSection(level, t).value, i)
    ensures ChunkHeld(level, blockIds, blockData, used, biomeIds)
  {
    forall t | 0 <= t < SECTION_SLOTS
      ensures used[t] == SlotSection(level, t).Some?
    {
      assert HasSection(level, t) <==> SlotSection(level, t).Some?;
    }
  }

  /** The renderer's tables, the colour operations it uses (Color.overlay
      once and repeated, Color.multiplySolid, Color.alpha), the colour of 16
      stacked air blocks and the three sets of ids that fell back to a
      default. */
  class RegionRenderer {
    const settings: Settings
    const blocks: BlockTable
    const biomes: BiomeTable
    const multiplySolid: (Argb, Argb) -> Argb
    const overlay: (Argb, Argb) -> Argb
    const alpha: Argb -> int
    const air16Color: Argb
    var defaultedBlockIds: set<int>
    var defaultedBlockIdDataValues: set<int>
    var defaultedBiomeIds: set<int>

    /** The renderer's three records of defaulted ids. */
    function Records(): Defaulted
      reads this`defaultedBlockIds, this`defaultedBlockIdDataValues, this`defaultedBiomeIds
    {
      Defaulted(defaultedBlockIds, defaultedBlockIdDataValues, defaultedBiomeIds)
    }

    /** The records after one look-up, as `getColor` keeps them. */
    function AddLookup(r: Defaulted, l: Lookup): Defaulted {
      var b := blocks[l.blockId];
      Defaulted(r.blockIds + (if b.isDefault then {l.blockId as int} else {}),
                r.dataValues + (if !UsesSubColor(b, l.datum as int) && l.datum != 0
                                then {DatumKey(l.blockId, l.datum as int)} else {}),
                r.biomeIds + (if GetBiome(biomes, l.biomeId).isDefault then {l.biomeId} else {}))
    }

    /** Every id `r` records beyond `r0` fell back to a default, and
        nothing `r0` records is lost: a block id has a default table entry,
        a key is `blockId | datum << 16` for a data value other than 0
        without a sub-colour, a biome id falls back to the default biome. */
    ghost predicate Sound(r0: Defaulted, r: Defaulted) {
      && r0.blockIds <= r.blockIds && r0.dataValues <= r.dataValues && r0.biomeIds <= r.biomeIds
      && (forall id :: id in r.blockIds && id !in r0.blockIds ==> 0 <= id < |blocks| && blocks[id].isDefault)
      && (forall b :: b in r.biomeIds && b !in r0.biomeIds ==> GetBiome(biomes, b).isDefault)
      && (forall key :: key in r.dataValues && key !in r0.dataValues ==>
            exists l: Lookup :: DefaultedDatum(l) && DatumKey(l.blockId, l.datum as int) == key)
    }

    /** The look-up falls back to the base colour for a data value other than 0. */
    predicate DefaultedDatum(l: Lookup) {
      l.datum != 0 && !UsesSubColor(blocks[l.blockId], l.datum as int)
    }

    lemma AddLookupSound(r: Defaulted, l: Lookup)
      ensures Sound(r, AddLookup(r, l))
    {
      var r' := AddLookup(r, l);
      forall key | key in r'.dataValues && key !in r.dataValues
        ensures exists l': Lookup :: DefaultedDatum(l') && DatumKey(l'.blockId, l'.datum as int) == key
      {
        assert DefaultedDatum(l) && DatumKey(l.blockId, l.datum as int) == key;
      }
    }

    lemma SoundTrans(a: Defaulted, b: Defaulted, c: Defaulted)
      requires Sound(a, b) && Sound(b, c)
      ensures Sound(a, c)
    {
    }

    /** The constructor: the loaded tables and colour operations, the colour
        of block 0 (air) in biome 0 overlaid 16 times on transparent black,
        and the default records that this first look-up leaves. */
    constructor (settings: Settings, blocks: BlockTable, biomes: BiomeTable,
                 multiplySolid: (Argb, Argb) -> Argb, overlay: (Argb, Argb) -> Argb,
                 overlayRepeated: (Argb, Argb, int) -> Argb, alpha: Argb -> int)
      ensures this.settings == settings && this.blocks == blocks && this.biomes == biomes
      ensures this.multiplySolid == multiplySolid && this.overlay == overlay && this.alpha == alpha
      ensures air16Color == overlayRepeated(0, BlockColor(blocks, biomes, multiplySolid, 0, 0, 0), 16)
      ensures defaultedBlockIdDataValues == {}
      ensures defaultedBlockIds == if blocks[0].isDefault then {0} else {}
      ensures defaultedBiomeIds == if GetBiome(biomes, 0).isDefault then {0} else {}
    {
      this.settings := settings;
      this.blocks := blocks;
      this.biomes := biomes;
      this.multiplySolid := multiplySolid;
      this.overlay := overlay;
      this.alpha := alpha;
      air16Color := overlayRepeated(0, BlockColor(blocks, biomes, multiplySolid, 0, 0, 0), 16);
      defaultedBlockIds, defaultedBlockIdDataValues, defaultedBiomeIds := {}, {}, {};
      new;
      var c := GetColor(0, 0, 0);
    }

    /** `getColor`: the colour of a block in a biome. A data value other than
        0 with no sub-colour records `blockId | datum << 16`; a default block
        records its id; a biome id that falls back to the default biome
        records that id. The sets only grow. */
    method GetColor(blockId: int, blockDatum: int, biomeId: int) returns (c: Argb)
      requires 0 <= blockId < |blocks| && blockDatum >= 0
      modifies this`defaultedBlockIds, this`defaultedBlockIdDataValues, this`defaultedBiomeIds
      ensures c == BlockColor(blocks, biomes, multiplySolid, blockId, blockDatum, biomeId)
      ensures defaultedBlockIdDataValues == old(defaultedBlockIdDataValues) +
        (if !UsesSubColor(blocks[blockId], blockDatum) && blockDatum != 0
         then {DatumKey(blockId, blockDatum)} else {})
      ensures defaultedBlockIds == old(defaultedBlockIds) + (if blocks[blockId].isDefault then {blockId} else {})
      ensures defaultedBiomeIds == old(defaultedBiomeIds) +
        (if GetBiome(biomes, biomeId).isDefault then {biomeId} else {})
    {
      var blockColor: Argb;
      var biomeInfluence: Influence;
      var bc := blocks[blockId];
      if |bc.hasSubColors| > blockDatum && bc.hasSubColors[blockDatum] {
        blockColor := bc.subColors[blockDatum];
        biomeInfluence := bc.subColorInfluences[blockDatum];
      } else {
        if blockDatum != 0 {
          defaultedBlockIdDataValues := defaultedBlockIdDataValues + {DatumKey(blockId, blockDatum)};
        }
        blockColor := bc.baseColor;
        biomeInfluence := bc.baseInfluence;
      }
      if bc.isDefault {
        defaultedBlockIds := defaultedBlockIds + {blockId};
      }
      var biome := GetBiome(biomes, biomeId);
      var biomeColor := biome.GetMultiplier(biomeInfluence);
      if biome.isDefault {
        defaultedBiomeIds := defaultedBiomeIds + {biomeId};
      }
      c := multiplySolid(blockColor, biomeColor);
    }

    //// Column compositing ////

    /** The colour of cell (x, y, z) of a section in the given biome: the
        table colour of the cell's block id and data value. The functions
        below are total: a section without all its cells, or a position
        outside one, yields transparent black, which `preRender` never asks
        for. */
    function CellColor(sec: Section, x: int, y: int, z: int, biomeId: int): Argb {
      if ArraysFit(sec) && 0 <= x < 16 && 0 <= y < 16 && 0 <= z < 16 then
        var i := CellIndex(x, y, z);
        BlockColor(blocks, biomes, multiplySolid, BlockIdAt(sec, i), DataAt(sec, i) as int, biomeId)
      else 0
    }

    /** The colours overlaid for the cells y < n of a section in slot s:
        those inside the height window, bottom up. */
    function CellLayers(sec: Section, s: int, x: int, z: int, biomeId: int, n: int): seq<Argb>
      decreases n
    {
      if n <= 0 then []
      else
        var cell := if InHeightWindow(settings, 16 * s + n - 1) then [CellColor(sec, x, n - 1, z, biomeId)] else [];
        CellLayers(sec, s, x, z, biomeId, n - 1) + cell
    }

    /** The height after the cells y < n of a section in slot s, starting
        from h0: the highest of them inside the window with an opaque colour. */
    function CellTop(sec: Section, s: int, x: int, z: int, biomeId: int, h0: int, n: int): int
      decreases n
    {
      if n <= 0 then h0
      else if InHeightWindow(settings, 16 * s + n - 1) && alpha(CellColor(sec, x, n - 1, z, biomeId)) >= SHADE_OPACITY_CUTOFF
      then 16 * s + n - 1
      else CellTop(sec, s, x, z, biomeId, h0, n - 1)
    }

    /** The slot lies wholly above or wholly below the height window. */
    predicate SlotOutsideWindow(s: int) {
      16 * s >= settings.maxHeight || 16 * s + 16 <= settings.minHeight
    }

    /** The colours slot s contributes to column (x, z): none for a slot
        outside the window; the cells inside the window for a used slot;
        the stacked-air colour for an unused slot wholly inside the window,
        nothing for one only partly inside. */
    function SlotLayers(level: Level, s: int, x: int, z: int, biomeId: int): seq<Argb> {
      if SlotOutsideWindow(s) then []
      else match SlotSection(level, s)
        case Some(sec) => CellLayers(sec, s, x, z, biomeId, 16)
        case None =>
          if settings.minHeight <= 16 * s && settings.maxHeight >= 16 * s + 16 then [air16Color] else []
    }

    /** The colours of slots s < n of column (x, z), bottom up. */
    function ColumnLayers(level: Level, x: int, z: int, biomeId: int, n: int): seq<Argb>
      decreases n
    {
      if n <= 0 then [] else ColumnLayers(level, x, z, biomeId, n - 1) + SlotLayers(level, n - 1, x, z, biomeId)
    }

    /** Painter's order: each colour is overlaid on what lies below it,
        starting from `base`. */
    function CompositeOver(base: Argb, layers: seq<Argb>): Argb {
      if layers == [] then base else overlay(CompositeOver(base, layers[..|layers| - 1]), layers[|layers| - 1])
    }

    /** The block at absolute height a of column (x, z) is drawn and
        counts as opaque. */
    predicate Opaque(level: Level, x: int, z: int, biomeId: int, a: int) {
      && InHeightWindow(settings, a)
      && SlotSection(level, a / 16).Some?
      && alpha(CellColor(SlotSection(level, a / 16).value, x, a % 16, z, biomeId)) >= SHADE_OPACITY_CUTOFF
    }

    /** The highest opaque height below n, or 0 when there is none. */
    function TopOpaque(level: Level, x: int, z: int, biomeId: int, n: int): int
      decreases n
    {
      if n <= 0 then 0
      else if Opaque(level, x, z, biomeId, n - 1) then n - 1
      else TopOpaque(level, x, z, biomeId, n - 1)
    }

    /** The height after slot s of column (x, z), from the height h below
        it: slots outside the window and unused slots keep it, a used
        slot's cells may raise it. */
    function SlotTopAfter(level: Level, s: int, x: int, z: int, biomeId: int, h: int): int {
      if SlotOutsideWindow(s) || SlotSection(level, s).None? then h
      else CellTop(SlotSection(level, s).value, s, x, z, biomeId, h, 16)
    }

    /** The height after slots s < n of column (x, z), slot by slot as
        `preRender` finds it. */
    function SlotsTop(level: Level, x: int, z: int, biomeId: int, n: int): int
      decreases n
    {
      if n <= 0 then 0 else SlotTopAfter(level, n - 1, x, z, biomeId, SlotsTop(level, x, z, biomeId, n - 1))
    }

    /** The pixel colour `preRender` computes for column (x, z) of a chunk. */
    function ColumnColor(level: Level, x: int, z: int): Argb
      requires LevelFits(level, SECTION_SLOTS) && 0 <= x < 16 && 0 <= z < 16
    {
      CompositeOver(0, ColumnLayers(level, x, z, ColumnBiome(level, x, z), SECTION_SLOTS))
    }

    /** The height `preRender` stores for column (x, z) of a chunk. */
    function ColumnHeight(level: Level, x: int, z: int): int
      requires LevelFits(level, SECTION_SLOTS) && 0 <= x < 16 && 0 <= z < 16
    {
      TopOpaque(level, x, z, ColumnBiome(level, x, z), 16 * SECTION_SLOTS)
    }

    /** The records after `preRender` reaches cell y of slot s of column
        (x, z): a cell of a used slot inside the height window is looked
        up in the column's biome; any other cell looks nothing up. */
    function RecordCell(r: Defaulted, level: Level, x: int, z: int, s: int, y: int): Defaulted
      requires LevelFits(level, SECTION_SLOTS) && 0 <= x < 16 && 0 <= z < 16 && 0 <= y < 16
    {
      match SlotSection(level, s)
      case Some(sec) =>
        if InHeightWindow(settings, 16 * s + y) && ArraysFit(sec) then
          var i := CellIndex(x, y, z);
          AddLookup(r, Lookup(BlockIdAt(sec, i), DataAt(sec, i), ColumnBiome(level, x, z)))
        else r
      case None => r
    }

    /** The records after the first n rounds of a loop over a chunk, each
        round running the whole of the loop nested in it: a round of the
        heights loop looks up one cell, a round of the slots loop runs the
        16 heights of that slot, and so on. */
    function LoopRecords(r: Defaulted, level: Level, loop: Loop, n: int): Defaulted
      requires LevelFits(level, SECTION_SLOTS) && LoopFits(loop) && n <= 16
      decreases Nesting(loop), n
    {
      if n <= 0 then r
      else
        var before := LoopRecords(r, level, loop, n - 1);
        match loop
        case Heights(x, z, s) => RecordCell(before, level, x, z, s, n - 1)
        case Slots(x, z) => LoopRecords(before, level, Heights(x, z, n - 1), 16)
        case Columns(z) => LoopRecords(before, level, Slots(n - 1, z), 16)
        case Rows => LoopRecords(before, level, Columns(n - 1), 16)
    }

    /** The records after the drawn chunks among the first n of a region. */
    function RecordRegion(r: Defaulted, chunks: seq<ChunkLoad>, n: int): Defaulted
      requires n <= |chunks|
      decreases n
    {
      if n <= 0 then r
      else
        var before := RecordRegion(r, chunks, n - 1);
        if Drawn(chunks)(n - 1) then LoopRecords(before, chunks[n - 1].level, Rows, 16) else before
    }

    /** A slot outside the window, or one without a section, looks nothing
        up: its first k heights leave the records as they were. */
    lemma {:induction false} SlotLooksNothingUp(r: Defaulted, level: Level, x: int, z: int, s: int, k: int)
      requires LevelFits(level, SECTION_SLOTS) && 0 <= x < 16 && 0 <= z < 16 && k <= 16
      requires SlotOutsideWindow(s) || SlotSection(level, s).None?
      ensures LoopRecords(r, level, Heights(x, z, s), k) == r
    {
      if k > 0 {
        SlotLooksNothingUp(r, level, x, z, s, k - 1);
        assert !InHeightWindow(settings, 16 * s + k - 1) || SlotSection(level, s).None?;
      }
    }

    lemma RecordCellSound(r: Defaulted, level: Level, x: int, z: int, s: int, y: int)
      requires LevelFits(level, SECTION_SLOTS) && 0 <= x < 16 && 0 <= z < 16 && 0 <= y < 16
      ensures Sound(r, RecordCell(r, level, x, z, s, y))
    {
      match SlotSection(level, s)
      case Some(sec) =>
        if InHeightWindow(settings, 16 * s + y) && ArraysFit(sec) {
          var i := CellIndex(x, y, z);
          AddLookupSound(r, Lookup(BlockIdAt(sec, i), DataAt(sec, i), ColumnBiome(level, x, z)));
        }
      case None =>
    }

    lemma {:induction false} LoopRecordsSound(r: Defaulted, level: Level, loop: Loop, n: int)
      requires LevelFits(level, SECTION_SLOTS) && LoopFits(loop) && n <= 16
      ensures Sound(r, LoopRecords(r, level, loop, n))
      decreases Nesting(loop), n
    {
      if n > 0 {
        var before := LoopRecords(r, level, loop, n - 1);
        LoopRecordsSound(r, level, loop, n - 1);
        if loop.Heights? {
          RecordCellSound(before, level, loop.x, loop.z, loop.s, n - 1);
        } else {
          var inner := match loop
            case Slots(x, z) => Heights(x, z, n - 1)
            case Columns(z) => Slots(n - 1, z)
            case Rows => Columns(n - 1);
          assert LoopRecords(r, level, loop, n) == LoopRecords(before, level, inner, 16);
          LoopRecordsSound(before, level, inner, 16);
        }
        SoundTrans(r, before, LoopRecords(r, level, loop, n));
      }
    }

    /** The records `preRender` leaves hold everything they held before,
        and every id they gained fell back to a default. */
    lemma {:induction false} RecordRegionSound(r: Defaulted, chunks: seq<ChunkLoad>, n: int)
      requires n <= |chunks|
      ensures Sound(r, RecordRegion(r, chunks, n))
      decreases n
    {
      if n > 0 {
        var before := RecordRegion(r, chunks, n - 1);
        RecordRegionSound(r, chunks, n - 1);
        if Drawn(chunks)(n - 1) {
          LoopRecordsSound(before, chunks[n - 1].level, Rows, 16);
          SoundTrans(r, before, RecordRegion(r, chunks, n));
        }
      }
    }

    lemma CompositeSnoc(base: Argb, layers: seq<Argb>, c: Argb)
      ensures CompositeOver(base, layers + [c]) == overlay(CompositeOver(base, layers), c)
    {
      assert (layers + [c])[..|layers|] == layers;
    }

    /** Overlaying two runs of colours in turn is overlaying their concatenation. */
    lemma {:induction false} CompositeAppend(base: Argb, lower: seq<Argb>, upper: seq<Argb>)
      ensures CompositeOver(base, lower + upper) == CompositeOver(CompositeOver(base, lower), upper)
    {
      if upper == [] {
        assert lower + upper == lower;
      } else {
        var init, last := upper[..|upper| - 1], upper[|upper| - 1];
        assert upper == init + [last];
        assert lower + upper == (lower + init) + [last];
        CompositeAppend(base, lower, init);
        CompositeSnoc(base, lower + init, last);
        CompositeSnoc(CompositeOver(base, lower), init, last);
      }
    }

    /** The height map holds the highest drawn opaque block of the column,
        or 0 when the column has none. */
    lemma {:induction false} TopOpaqueIsHighest(level: Level, x: int, z: int, biomeId: int, n: int)
      requires n >= 0
      ensures var h := TopOpaque(level, x, z, biomeId, n);
        && 0 <= h && (n == 0 || h < n)
        && (h == 0 || Opaque(level, x, z, biomeId, h))
        && forall a :: h < a < n ==> !Opaque(level, x, z, biomeId, a)
    {
      if n > 0 && !Opaque(level, x, z, biomeId, n - 1) {
        TopOpaqueIsHighest(level, x, z, biomeId, n - 1);
      }
    }

    /** Heights with no opaque block leave the height where it was. */
    lemma {:induction false} TopOpaqueSkips(level: Level, x: int, z: int, biomeId: int, lo: int, hi: int)
      requires 0 <= lo <= hi
      requires forall a :: lo <= a < hi ==> !Opaque(level, x, z, biomeId, a)
      ensures TopOpaque(level, x, z, biomeId, hi) == TopOpaque(level, x, z, biomeId, lo)
      decreases hi - lo
    {
      if lo < hi {
        TopOpaqueSkips(level, x, z, biomeId, lo, hi - 1);
      }
    }

    /** One slot more of the column, as `preRender` composes it: a slot
        outside the window changes nothing; a used slot overlays its cells;
        an unused slot leaves the height, and overlays stacked air when it
        lies wholly inside the window. */
    lemma ColumnStep(level: Level, x: int, z: int, biomeId: int, s: int)
      requires 0 <= s
      ensures var below := CompositeOver(0, ColumnLayers(level, x, z, biomeId, s));
        var above := CompositeOver(0, ColumnLayers(level, x, z, biomeId, s + 1));
        && (SlotOutsideWindow(s) ==> above == below)
        && (!SlotOutsideWindow(s) && SlotSection(level, s).Some? ==>
              above == CompositeOver(below, CellLayers(SlotSection(level, s).value, s, x, z, biomeId, 16)))
        && (!SlotOutsideWindow(s) && SlotSection(level, s).None? ==>
              above == if settings.minHeight <= 16 * s && settings.maxHeight >= 16 * s + 16
                       then overlay(below, air16Color) else below)
    {
      var lower, slot := ColumnLayers(level, x, z, biomeId, s), SlotLayers(level, s, x, z, biomeId);
      CompositeAppend(0, lower, slot);
      if slot == [air16Color] {
        CompositeSnoc(0, lower, air16Color);
        assert [] + [air16Color] == slot;
      }
    }

    /** Within a used slot the column's height follows the slot's cells. */
    lemma {:induction false} SlotTop(level: Level, x: int, z: int, biomeId: int, s: int, n: int)
      requires 0 <= s && 0 <= n <= 16
      requires SlotSection(level, s).Some?
      ensures TopOpaque(level, x, z, biomeId, 16 * s + n)
           == CellTop(SlotSection(level, s).value, s, x, z, biomeId, TopOpaque(level, x, z, biomeId, 16 * s), n)
    {
      if n > 0 {
        SlotTop(level, x, z, biomeId, s, n - 1);
        DivModOf(16 * s + n - 1, 16, s, n - 1);
      }
    }

    /** One cell of a used slot inside the height window: its colour is
        looked up and overlaid, and an opaque one becomes the height. */
    method ComposeCell(blockId: int, blockDatum: byte, biomeId: int, absY: int, color0: Argb, height0: int)
      returns (pixelColor: Argb, pixelHeight: int)
      requires 0 <= blockId < 4096
      modifies this`defaultedBlockIds, this`defaultedBlockIdDataValues, this`defaultedBiomeIds
      ensures pixelColor == overlay(color0, BlockColor(blocks, biomes, multiplySolid, blockId, blockDatum as int, biomeId))
      ensures pixelHeight ==
        if alpha(BlockColor(blocks, biomes, multiplySolid, blockId, blockDatum as int, biomeId)) >= SHADE_OPACITY_CUTOFF
        then absY else height0
      ensures Records() == AddLookup(old(Records()), Lookup(blockId, blockDatum, biomeId))
    {
      var blockColor := GetColor(blockId, blockDatum as int, biomeId);
      pixelColor, pixelHeight := overlay(color0, blockColor), height0;
      if alpha(blockColor) >= SHADE_OPACITY_CUTOFF {
        pixelHeight := absY;
      }
    }

    /** A slot outside the window or unused holds no opaque drawn block. */
    lemma SlotSkips(level: Level, x: int, z: int, biomeId: int, s: int)
      requires 0 <= s && (SlotOutsideWindow(s) || SlotSection(level, s).None?)
      ensures TopOpaque(level, x, z, biomeId, 16 * s + 16) == TopOpaque(level, x, z, biomeId, 16 * s)
    {
      forall a | 16 * s <= a < 16 * s + 16 ensures !Opaque(level, x, z, biomeId, a) {
        DivModOf(a, 16, s, a - 16 * s);
      }
      TopOpaqueSkips(level, x, z, biomeId, 16 * s, 16 * s + 16);
    }

    /** Slot s raises the column's height exactly as SlotTopAfter says. */
    lemma SlotTopAfterIsTopOpaque(level: Level, x: int, z: int, biomeId: int, s: int)
      requires 0 <= s
      ensures TopOpaque(level, x, z, biomeId, 16 * s + 16)
           == SlotTopAfter(level, s, x, z, biomeId, TopOpaque(level, x, z, biomeId, 16 * s))
    {
      if SlotOutsideWindow(s) || SlotSection(level, s).None? {
        SlotSkips(level, x, z, biomeId, s);
      } else {
        SlotTop(level, x, z, biomeId, s, 16);
      }
    }

    /** Finding the height slot by slot gives the highest drawn opaque
        block of the column. */
    lemma {:induction false} SlotsTopIsTopOpaque(level: Level, x: int, z: int, biomeId: int, n: int)
      requires n >= 0
      ensures SlotsTop(level, x, z, biomeId, n) == TopOpaque(level, x, z, biomeId, 16 * n)
    {
      if n > 0 {
        SlotsTopIsTopOpaque(level, x, z, biomeId, n - 1);
        SlotTopAfterIsTopOpaque(level, x, z, biomeId, n - 1);
      }
    }

    /** The column's pixel is what the slots loop leaves: its colour is
        the slots' layers composited in order, its height the one found
        slot by slot. */
    lemma ColumnFromSlots(level: Level, x: int, z: int)
      requires LevelFits(level, SECTION_SLOTS) && 0 <= x < 16 && 0 <= z < 16
      ensures ColumnColor(level, x, z) == CompositeOver(0, ColumnLayers(level, x, z, ColumnBiome(level, x, z), 16))
      ensures ColumnHeight(level, x, z) == SlotsTop(level, x, z, ColumnBiome(level, x, z), 16)
    {
      SlotsTopIsTopOpaque(level, x, z, ColumnBiome(level, x, z), SECTION_SLOTS);
    }

    /** One cell more of a section, holding block id `id` and data value
        `datum`: a cell inside the window overlays its table colour, and
        becomes the height when that colour is opaque. */
    lemma CellStep(sec: Section, s: int, x: int, z: int, biomeId: int, color0: Argb, h0: int, y: int,
                   id: int, datum: byte)
      requires ArraysFit(sec) && 0 <= x < 16 && 0 <= y < 16 && 0 <= z < 16
      requires id == BlockIdAt(sec, z * 16 + x + 256 * y) && datum == DataAt(sec, z * 16 + x + 256 * y)
      ensures 0 <= id < 4096
      ensures !InHeightWindow(settings, 16 * s + y) ==>
        && CompositeOver(color0, CellLayers(sec, s, x, z, biomeId, y + 1))
           == CompositeOver(color0, CellLayers(sec, s, x, z, biomeId, y))
        && CellTop(sec, s, x, z, biomeId, h0, y + 1) == CellTop(sec, s, x, z, biomeId, h0, y)
      ensures InHeightWindow(settings, 16 * s + y) ==>
        var c := BlockColor(blocks, biomes, multiplySolid, id, datum as int, biomeId);
        && CompositeOver(color0, CellLayers(sec, s, x, z, biomeId, y + 1))
           == overlay(CompositeOver(color0, CellLayers(sec, s, x, z, biomeId, y)), c)
        && CellTop(sec, s, x, z, biomeId, h0, y + 1)
           == if alpha(c) >= SHADE_OPACITY_CUTOFF then 16 * s + y else CellTop(sec, s, x, z, biomeId, h0, y)
    {
      var below := CellLayers(sec, s, x, z, biomeId, y);
      if InHeightWindow(settings, 16 * s + y) {
        CompositeSnoc(color0, below, CellColor(sec, x, y, z, biomeId));
      } else {
        assert below + [] == below;
      }
    }

    /** The cells of a used slot s of column (x, z), bottom up: every cell
        inside the height window is looked up and overlaid, and an opaque
        one becomes the height. */
    method ComposeSlot(ghost level: Level, s: int, x: int, z: int, biomeId: int,
                       blockIds: array2<int>, blockData: array2<byte>, color0: Argb, height0: int)
      returns (pixelColor: Argb, pixelHeight: int)
      requires 0 <= x < 16 && 0 <= z < 16 && SlotHeld(level, s, blockIds, blockData)
      requires biomeId == ColumnBiome(level, x, z)
      modifies this`defaultedBlockIds, this`defaultedBlockIdDataValues, this`defaultedBiomeIds
      ensures pixelColor == CompositeOver(color0, CellLayers(SlotSection(level, s).value, s, x, z, biomeId, 16))
      ensures pixelHeight == CellTop(SlotSection(level, s).value, s, x, z, biomeId, height0, 16)
      ensures Records() == LoopRecords(old(Records()), level, Heights(x, z, s), 16)
    {
      ghost var sec := SlotSection(level, s).value;
      pixelColor, pixelHeight := color0, height0;
      var absY := s * 16;
      var idx := z * 16 + x;
      var y := 0;
      while y < 16
        invariant 0 <= y <= 16 && idx == z * 16 + x + 256 * y && absY == 16 * s + y
        invariant pixelColor == CompositeOver(color0, CellLayers(sec, s, x, z, biomeId, y))
        invariant pixelHeight == CellTop(sec, s, x, z, biomeId, height0, y)
        invariant Records() == LoopRecords(old(Records()), level, Heights(x, z, s), y)
      {
        pixelColor, pixelHeight := ComposeCellTurn(level, sec, s, x, z, biomeId, color0, height0, old(Records()), y, absY,
                                                   blockIds[s, idx], blockData[s, idx], pixelColor, pixelHeight);
        y := y + 1;
        idx := idx + 256;
        absY := absY + 1;
      }
    }

    /** One turn of the cells loop of slot s: the cell at height y is
        looked up and overlaid when it lies inside the window. */
    method ComposeCellTurn(ghost level: Level, ghost sec: Section, s: int, x: int, z: int, biomeId: int,
                           ghost color0: Argb, ghost height0: int, ghost r0: Defaulted, y: int, absY: int,
                           id: int, datum: byte, c: Argb, h: int) returns (pixelColor: Argb, pixelHeight: int)
      requires LevelFits(level, SECTION_SLOTS) && SlotSection(level, s) == Some(sec)
      requires ArraysFit(sec) && 0 <= x < 16 && 0 <= y < 16 && 0 <= z < 16 && absY == 16 * s + y
      requires biomeId == ColumnBiome(level, x, z)
      requires id == BlockIdAt(sec, z * 16 + x + 256 * y) && datum == DataAt(sec, z * 16 + x + 256 * y)
      requires c == CompositeOver(color0, CellLayers(sec, s, x, z, biomeId, y))
      requires h == CellTop(sec, s, x, z, biomeId, height0, y)
      requires Records() == LoopRecords(r0, level, Heights(x, z, s), y)
      modifies this`defaultedBlockIds, this`defaultedBlockIdDataValues, this`defaultedBiomeIds
      ensures pixelColor == CompositeOver(color0, CellLayers(sec, s, x, z, biomeId, y + 1))
      ensures pixelHeight == CellTop(sec, s, x, z, biomeId, height0, y + 1)
      ensures Records() == LoopRecords(r0, level, Heights(x, z, s), y + 1)
    {
      CellStep(sec, s, x, z, biomeId, color0, height0, y, id, datum);
      pixelColor, pixelHeight := c, h;
      if absY < settings.minHeight || absY >= settings.maxHeight {
      } else {
        // `preRender` masks the stored short with 0xFFFF; the stored ids are 0..4095
        pixelColor, pixelHeight := ComposeCell(id, datum, biomeId, absY, c, h);
      }
    }

    /** `preRender`'s loop for one column: slots bottom up, skipping slots
        outside the height window; in a used slot every cell inside the
        window is looked up and overlaid, and an opaque one sets the height;
        an unused slot wholly inside the window overlays stacked air. */
    method ComposeColumn(ghost level: Level, x: int, z: int, blockIds: array2<int>, blockData: array2<byte>,
                         used: array<bool>, biomeIds: array<byte>) returns (pixelColor: Argb, pixelHeight: int)
      requires ChunkHeld(level, blockIds, blockData, used, biomeIds)
      requires 0 <= x < 16 && 0 <= z < 16
      modifies this`defaultedBlockIds, this`defaultedBlockIdDataValues, this`defaultedBiomeIds
      ensures pixelColor == ColumnColor(level, x, z) && pixelHeight == ColumnHeight(level, x, z)
      ensures Records() == LoopRecords(old(Records()), level, Slots(x, z), 16)
    {
      var biomeId := biomeIds[z * 16 + x] as int;
      assert biomeId == ColumnBiome(level, x, z);
      pixelColor := 0;
      pixelHeight := 0;
      for s := 0 to SECTION_SLOTS
        invariant pixelColor == CompositeOver(0, ColumnLayers(level, x, z, biomeId, s))
        invariant pixelHeight == SlotsTop(level, x, z, biomeId, s)
        invariant Records() == LoopRecords(old(Records()), level, Slots(x, z), s)
      {
        CompositeAppend(0, ColumnLayers(level, x, z, biomeId, s), SlotLayers(level, s, x, z, biomeId));
        pixelColor, pixelHeight := ComposeSlotTurn(level, x, z, biomeId, s, blockIds, blockData, used, biomeIds,
                                                   pixelColor, pixelHeight);
      }
      ColumnFromSlots(level, x, z);
    }

    /** One turn of the slots loop of column (x, z): a slot wholly outside
        the window is skipped, a used slot composes its cells, an unused
        slot wholly inside the window overlays stacked air. Together: the
        slot's layers are overlaid on the colour so far, the height is
        raised as SlotTopAfter says, and the slot's heights are looked up
        as LoopRecords says. */
    method ComposeSlotTurn(ghost level: Level, x: int, z: int, biomeId: int, s: int,
                           blockIds: array2<int>, blockData: array2<byte>, used: array<bool>, biomeIds: array<byte>,
                           color0: Argb, height0: int) returns (pixelColor: Argb, pixelHeight: int)
      requires ChunkHeld(level, blockIds, blockData, used, biomeIds)
      requires 0 <= x < 16 && 0 <= z < 16 && 0 <= s < SECTION_SLOTS
      requires biomeId == ColumnBiome(level, x, z)
      modifies this`defaultedBlockIds, this`defaultedBlockIdDataValues, this`defaultedBiomeIds
      ensures pixelColor == CompositeOver(color0, SlotLayers(level, s, x, z, biomeId))
      ensures pixelHeight == SlotTopAfter(level, s, x, z, biomeId, height0)
      ensures Records() == LoopRecords(old(Records()), level, Heights(x, z, s), 16)
    {
      var absY := s * 16;
      pixelColor, pixelHeight := color0, height0;
      if absY >= settings.maxHeight || absY + 16 <= settings.minHeight {
        SlotLooksNothingUp(Records(), level, x, z, s, 16);
      } else if used[s] {
        pixelColor, pixelHeight := ComposeSlot(level, s, x, z, biomeId, blockIds, blockData, color0, height0);
      } else {
        SlotLooksNothingUp(Records(), level, x, z, s, 16);
        if settings.minHeight <= absY && settings.maxHeight >= absY + 16 {
          pixelColor := overlay(color0, air16Color);
          CompositeSnoc(color0, [], air16Color);
          assert [] + [air16Color] == [air16Color];
        }
      }
    }

    /** The colour `preRender` writes to each pixel of a drawn chunk. */
    function PixelColors(chunks: seq<ChunkLoad>): int -> Argb {
      d => if 0 <= d < PIXELS && Drawn(chunks)(ChunkOfPixel(d))
           then ColumnColor(chunks[ChunkOfPixel(d)].level, PixelX(d), PixelZ(d)) else 0
    }

    /** The height `preRender` writes to each pixel of a drawn chunk. */
    function PixelHeights(chunks: seq<ChunkLoad>): int -> int {
      d => if 0 <= d < PIXELS && Drawn(chunks)(ChunkOfPixel(d))
           then ColumnHeight(chunks[ChunkOfPixel(d)].level, PixelX(d), PixelZ(d)) else 0
    }

    /** `preRender`: for each chunk, z outer and x inner, the chunk is read
        from the region file with `inflate` inflating and parsing it; a
        chunk with a "Level" tag is unpacked into the section buffers and
        each of its 256 columns is composited into the pixel 512 * (cz * 16
        + z) + 16 * cx + x; a missing or unreadable chunk leaves its pixels
        as they were. The first chunk that throws past the IOException
        handler ends it with a failure: the chunks before it are drawn,
        and every look-up they made is recorded, in order. */
    method PreRender(rf: RegionFile, inflate: seq<byte> -> Inflated, colors: array<Argb>, heights: array<int>)
      returns (ok: bool)
      requires rf.Valid()
      requires colors.Length >= PIXELS && heights.Length >= PIXELS && colors as object != heights as object
      modifies this`defaultedBlockIds, this`defaultedBlockIdDataValues, this`defaultedBiomeIds, colors, heights
      ensures var chunks := RegionChunks(rf.data, rf.chunkPositions, inflate);
        ok <==> forall k :: 0 <= k < HEADER_ENTRIES ==> !Fails(chunks[k])
      ensures var chunks := RegionChunks(rf.data, rf.chunkPositions, inflate);
        forall k :: 0 <= k < FirstFailure(chunks, 0) ==> (chunks[k].Loaded? <==> Drawn(chunks)(k))
      ensures var chunks := RegionChunks(rf.data, rf.chunkPositions, inflate);
        var stop := FirstFailure(chunks, 0);
        forall cx, cz, x, z ::
          0 <= cx < 32 && 0 <= cz < 32 && 0 <= x < 16 && 0 <= z < 16 &&
          32 * cz + cx < stop && Drawn(chunks)(32 * cz + cx) ==>
            && colors[PixelIndex(cx, cz, x, z)] == ColumnColor(chunks[32 * cz + cx].level, x, z)
            && heights[PixelIndex(cx, cz, x, z)] == ColumnHeight(chunks[32 * cz + cx].level, x, z)
      ensures var chunks := RegionChunks(rf.data, rf.chunkPositions, inflate);
        var stop := FirstFailure(chunks, 0);
        forall d :: 0 <= d < colors.Length && !(d < PIXELS && Drawn(chunks)(ChunkOfPixel(d)) && ChunkOfPixel(d) < stop) ==>
          colors[d] == old(colors[d]) && (d < heights.Length ==> heights[d] == old(heights[d]))
      ensures var chunks := RegionChunks(rf.data, rf.chunkPositions, inflate);
        forall d :: colors.Length <= d < heights.Length ==> heights[d] == old(heights[d])
      ensures var chunks := RegionChunks(rf.data, rf.chunkPositions, inflate);
        Records() == RecordRegion(old(Records()), chunks, FirstFailure(chunks, 0))
    {
      ghost var chunks := RegionChunks(rf.data, rf.chunkPositions, inflate);
      ghost var oldColors, oldHeights := colors[..], heights[..];
      var blockIds := new int[SECTION_SLOTS, SECTION_VOLUME];
      var blockData := new byte[SECTION_SLOTS, SECTION_VOLUME];
      var used := new bool[SECTION_SLOTS];
      var biomeIds := new byte[BIOME_COUNT];
      ok := RenderRegionRows(rf, inflate, blockIds, blockData, used, biomeIds, colors, heights,
                             chunks, oldColors, oldHeights);
      if ok {
        FirstFailureAt(chunks, 0, HEADER_ENTRIES);
      }
      DrawnPixels(chunks, colors, heights, oldColors, oldHeights, FirstFailure(chunks, 0));
    }

    /** `preRender`'s chunk loop, rows cz = 0 to 31: it stops at the
        region's first failure; until then the chunks are drawn and their
        look-ups recorded. */
    method RenderRegionRows(rf: RegionFile, inflate: seq<byte> -> Inflated,
                            blockIds: array2<int>, blockData: array2<byte>, used: array<bool>, biomeIds: array<byte>,
                            colors: array<Argb>, heights: array<int>,
                            ghost chunks: seq<ChunkLoad>, ghost oldColors: seq<Argb>, ghost oldHeights: seq<int>)
      returns (ok: bool)
      requires rf.Valid() && chunks == RegionChunks(rf.data, rf.chunkPositions, inflate)
      requires blockIds.Length0 == SECTION_SLOTS && blockIds.Length1 == SECTION_VOLUME
      requires blockData.Length0 == SECTION_SLOTS && blockData.Length1 == SECTION_VOLUME
      requires used.Length == SECTION_SLOTS && biomeIds.Length == BIOME_COUNT
      requires colors.Length >= PIXELS && heights.Length >= PIXELS && colors as object != heights as object
      requires colors[..] == oldColors && heights[..] == oldHeights
      modifies this`defaultedBlockIds, this`defaultedBlockIdDataValues, this`defaultedBiomeIds
      modifies blockIds, blockData, used, biomeIds, colors, heights
      ensures ok <==> forall j :: 0 <= j < HEADER_ENTRIES ==> !Fails(chunks[j])
      ensures ok ==> Written(colors[..], oldColors, PixelColors(chunks), Drawn(chunks), HEADER_ENTRIES, 0)
      ensures ok ==> Written(heights[..], oldHeights, PixelHeights(chunks), Drawn(chunks), HEADER_ENTRIES, 0)
      ensures ok ==> Records() == RecordRegion(old(Records()), chunks, HEADER_ENTRIES)
      ensures !ok ==> Written(colors[..], oldColors, PixelColors(chunks), Drawn(chunks), FirstFailure(chunks, 0), 0)
      ensures !ok ==> Written(heights[..], oldHeights, PixelHeights(chunks), Drawn(chunks), FirstFailure(chunks, 0), 0)
      ensures !ok ==> Records() == RecordRegion(old(Records()), chunks, FirstFailure(chunks, 0))
    {
      for cz := 0 to 32
        invariant forall j :: 0 <= j < 32 * cz ==> !Fails(chunks[j])
        invariant Written(colors[..], oldColors, PixelColors(chunks), Drawn(chunks), 32 * cz, 0)
        invariant Written(heights[..], oldHeights, PixelHeights(chunks), Drawn(chunks), 32 * cz, 0)
        invariant Records() == RecordRegion(old(Records()), chunks, 32 * cz)
      {
        ok := RenderRegionRow(rf, inflate, cz, blockIds, blockData, used, biomeIds, colors, heights,
                              chunks, oldColors, oldHeights, old(Records()));
        if !ok {
          assert Fails(chunks[FirstFailure(chunks, 0)]);
          return;
        }
      }
      ok := true;
    }

    /** Row cz of `preRender`'s chunk loop, chunks (0, cz) to (31, cz) in
        turn: it stops at the first chunk that fails, which is then the
        region's first failure; until then the chunks are drawn and their
        look-ups recorded. */
    method RenderRegionRow(rf: RegionFile, inflate: seq<byte> -> Inflated, cz: int,
                           blockIds: array2<int>, blockData: array2<byte>, used: array<bool>, biomeIds: array<byte>,
                           colors: array<Argb>, heights: array<int>,
                           ghost chunks: seq<ChunkLoad>, ghost oldColors: seq<Argb>, ghost oldHeights: seq<int>,
                           ghost r0: Defaulted)
      returns (ok: bool)
      requires rf.Valid() && chunks == RegionChunks(rf.data, rf.chunkPositions, inflate)
      requires 0 <= cz < 32
      requires blockIds.Length0 == SECTION_SLOTS && blockIds.Length1 == SECTION_VOLUME
      requires blockData.Length0 == SECTION_SLOTS && blockData.Length1 == SECTION_VOLUME
      requires used.Length == SECTION_SLOTS && biomeIds.Length == BIOME_COUNT
      requires colors.Length >= PIXELS && heights.Length >= PIXELS && colors as object != heights as object
      requires forall j :: 0 <= j < 32 * cz ==> !Fails(chunks[j])
      requires Written(colors[..], oldColors, PixelColors(chunks), Drawn(chunks), 32 * cz, 0)
      requires Written(heights[..], oldHeights, PixelHeights(chunks), Drawn(chunks), 32 * cz, 0)
      requires Records() == RecordRegion(r0, chunks, 32 * cz)
      modifies this`defaultedBlockIds, this`defaultedBlockIdDataValues, this`defaultedBiomeIds
      modifies blockIds, blockData, used, biomeIds, colors, heights
      ensures ok ==> forall j :: 0 <= j < 32 * cz + 32 ==> !Fails(chunks[j])
      ensures !ok ==> 32 * cz <= FirstFailure(chunks, 0) < 32 * cz + 32
      ensures ok ==> Written(colors[..], oldColors, PixelColors(chunks), Drawn(chunks), 32 * cz + 32, 0)
      ensures ok ==> Written(heights[..], oldHeights, PixelHeights(chunks), Drawn(chunks), 32 * cz + 32, 0)
      ensures ok ==> Records() == RecordRegion(r0, chunks, 32 * cz + 32)
      ensures !ok ==> Written(colors[..], oldColors, PixelColors(chunks), Drawn(chunks), FirstFailure(chunks, 0), 0)
      ensures !ok ==> Written(heights[..], oldHeights, PixelHeights(chunks), Drawn(chunks), FirstFailure(chunks, 0), 0)
      ensures !ok ==> Records() == RecordRegion(r0, chunks, FirstFailure(chunks, 0))
    {
      for cx := 0 to 32
        invariant forall j :: 0 <= j < 32 * cz + cx ==> !Fails(chunks[j])
        invariant Written(colors[..], oldColors, PixelColors(chunks), Drawn(chunks), 32 * cz + cx, 0)
        invariant Written(heights[..], oldHeights, PixelHeights(chunks), Drawn(chunks), 32 * cz + cx, 0)
        invariant Records() == RecordRegion(r0, chunks, 32 * cz + cx)
      {
        ghost var k := 32 * cz + cx;
        ok := RenderChunk(rf, inflate, cx, cz, blockIds, blockData, used, biomeIds, colors, heights,
                          chunks, oldColors, oldHeights);
        if !ok {
          FirstFailureAt(chunks, 0, k);
          return;
        }
        assert !Fails(chunks[k]);
      }
      ok := true;
    }

    /** Once the chunks before `stop` are done, every pixel of a drawn
        chunk among them holds its column's colour and height, and every
        other pixel what it held before. */
    lemma DrawnPixels(chunks: seq<ChunkLoad>, colors: array<Argb>, heights: array<int>,
                      oldColors: seq<Argb>, oldHeights: seq<int>, stop: int)
      requires |chunks| == HEADER_ENTRIES && 0 <= stop <= HEADER_ENTRIES
      requires colors.Length >= PIXELS && heights.Length >= PIXELS
      requires Written(colors[..], oldColors, PixelColors(chunks), Drawn(chunks), stop, 0)
      requires Written(heights[..], oldHeights, PixelHeights(chunks), Drawn(chunks), stop, 0)
      ensures forall cx, cz, x, z ::
        0 <= cx < 32 && 0 <= cz < 32 && 0 <= x < 16 && 0 <= z < 16 &&
        32 * cz + cx < stop && Drawn(chunks)(32 * cz + cx) ==>
          && colors[PixelIndex(cx, cz, x, z)] == ColumnColor(chunks[32 * cz + cx].level, x, z)
          && heights[PixelIndex(cx, cz, x, z)] == ColumnHeight(chunks[32 * cz + cx].level, x, z)
      ensures forall d :: 0 <= d < colors.Length && !(d < PIXELS && Drawn(chunks)(ChunkOfPixel(d)) && ChunkOfPixel(d) < stop) ==>
        colors[d] == oldColors[d] && (d < heights.Length ==> heights[d] == oldHeights[d])
      ensures forall d :: colors.Length <= d < heights.Length ==> heights[d] == oldHeights[d]
    {
      WrittenUpTo(colors[..], oldColors, PixelColors(chunks), Drawn(chunks), stop);
      WrittenUpTo(heights[..], oldHeights, PixelHeights(chunks), Drawn(chunks), stop);
      forall cx, cz, x, z | 0 <= cx < 32 && 0 <= cz < 32 && 0 <= x < 16 && 0 <= z < 16 &&
        32 * cz + cx < stop && Drawn(chunks)(32 * cz + cx)
        ensures colors[PixelIndex(cx, cz, x, z)] == ColumnColor(chunks[32 * cz + cx].level, x, z)
        ensures heights[PixelIndex(cx, cz, x, z)] == ColumnHeight(chunks[32 * cz + cx].level, x, z)
      {
        PixelIndexDecodes(cx, cz, x, z);
        assert colors[PixelIndex(cx, cz, x, z)] == colors[..][PixelIndex(cx, cz, x, z)];
        assert heights[PixelIndex(cx, cz, x, z)] == heights[..][PixelIndex(cx, cz, x, z)];
      }
      forall d | 0 <= d < heights.Length
        ensures heights[d] == heights[..][d]
      {
      }
    }

    /** One turn of `preRender`'s chunk loop: chunk (cx, cz) is read and,
        when it has a "Level" tag, unpacked and its columns written. It
        fails, leaving pixels and records as they were, exactly when the
        chunk fails. */
    method RenderChunk(rf: RegionFile, inflate: seq<byte> -> Inflated, cx: int, cz: int,
                       blockIds: array2<int>, blockData: array2<byte>, used: array<bool>, biomeIds: array<byte>,
                       colors: array<Argb>, heights: array<int>,
                       ghost chunks: seq<ChunkLoad>, ghost oldColors: seq<Argb>, ghost oldHeights: seq<int>)
      returns (ok: bool)
      requires rf.Valid() && chunks == RegionChunks(rf.data, rf.chunkPositions, inflate)
      requires 0 <= cx < 32 && 0 <= cz < 32
      requires blockIds.Length0 == SECTION_SLOTS && blockIds.Length1 == SECTION_VOLUME
      requires blockData.Length0 == SECTION_SLOTS && blockData.Length1 == SECTION_VOLUME
      requires used.Length == SECTION_SLOTS && biomeIds.Length == BIOME_COUNT
      requires colors.Length >= PIXELS && heights.Length >= PIXELS && colors as object != heights as object
      requires Written(colors[..], oldColors, PixelColors(chunks), Drawn(chunks), 32 * cz + cx, 0)
      requires Written(heights[..], oldHeights, PixelHeights(chunks), Drawn(chunks), 32 * cz + cx, 0)
      modifies this`defaultedBlockIds, this`defaultedBlockIdDataValues, this`defaultedBiomeIds
      modifies blockIds, blockData, used, biomeIds, colors, heights
      ensures ok <==> !Fails(chunks[32 * cz + cx])
      ensures ok ==> Written(colors[..], oldColors, PixelColors(chunks), Drawn(chunks), 32 * cz + cx + 1, 0)
      ensures ok ==> Written(heights[..], oldHeights, PixelHeights(chunks), Drawn(chunks), 32 * cz + cx + 1, 0)
      ensures ok ==> Drawn(chunks)(32 * cz + cx) ==>
        Records() == LoopRecords(old(Records()), chunks[32 * cz + cx].level, Rows, 16)
      ensures ok ==> !Drawn(chunks)(32 * cz + cx) ==> Records() == old(Records())
      ensures !ok ==> colors[..] == old(colors[..]) && heights[..] == old(heights[..]) && Records() == old(Records())
    {
      var k := 32 * cz + cx;
      DivModOf(k, 32, cz, cx);
      assert EntryPos(k) == ChunkPos(cx, cz);
      var c := rf.LoadChunk(ChunkPos(cx, cz), inflate);
      ChunkAt(rf.data, rf.chunkPositions, inflate, HEADER_ENTRIES, k);
      assert c == chunks[k];
      match c {
        case Loaded(level) =>
          ok := RenderLoaded(cx, cz, level, blockIds, blockData, used, biomeIds, colors, heights,
                             chunks, oldColors, oldHeights);
          if !ok {
            return;
          }
        case Broken =>
          return false;
        case _ =>
          ok := true;
      }
      FinishChunk(colors[..], oldColors, PixelColors(chunks), Drawn(chunks), k);
      FinishChunk(heights[..], oldHeights, PixelHeights(chunks), Drawn(chunks), k);
    }

    /** The pixels of drawn chunk (cx, cz) are to receive its columns'
        colours and heights. */
    lemma ChunkPixels(chunks: seq<ChunkLoad>, cx: int, cz: int, level: Level)
      requires |chunks| == HEADER_ENTRIES && 0 <= cx < 32 && 0 <= cz < 32
      requires chunks[32 * cz + cx] == Loaded(level) && LevelFits(level, SECTION_SLOTS)
      ensures forall x, z :: 0 <= x < 16 && 0 <= z < 16 ==>
        PixelColors(chunks)(PixelIndex(cx, cz, x, z)) == ColumnColor(level, x, z) &&
        PixelHeights(chunks)(PixelIndex(cx, cz, x, z)) == ColumnHeight(level, x, z)
    {
      forall x, z | 0 <= x < 16 && 0 <= z < 16
        ensures PixelColors(chunks)(PixelIndex(cx, cz, x, z)) == ColumnColor(level, x, z)
        ensures PixelHeights(chunks)(PixelIndex(cx, cz, x, z)) == ColumnHeight(level, x, z)
      {
        var d := PixelIndex(cx, cz, x, z);
        PixelIndexDecodes(cx, cz, x, z);
        assert ChunkOfPixel(d) == 32 * cz + cx && Drawn(chunks)(ChunkOfPixel(d));
        assert chunks[ChunkOfPixel(d)].level == level && PixelX(d) == x && PixelZ(d) == z;
      }
    }

    /** A chunk with a "Level" tag: `loadChunkData` unpacks it into the
        buffers, which fails, before any pixel is written or colour looked
        up, exactly when the chunk does not fit them; then its columns are
        written. */
    method RenderLoaded(cx: int, cz: int, level: Level,
                        blockIds: array2<int>, blockData: array2<byte>, used: array<bool>, biomeIds: array<byte>,
                        colors: array<Argb>, heights: array<int>,
                        ghost chunks: seq<ChunkLoad>, ghost oldColors: seq<Argb>, ghost oldHeights: seq<int>)
      returns (ok: bool)
      requires |chunks| == HEADER_ENTRIES && 0 <= cx < 32 && 0 <= cz < 32 && chunks[32 * cz + cx] == Loaded(level)
      requires blockIds.Length0 == SECTION_SLOTS && blockIds.Length1 == SECTION_VOLUME
      requires blockData.Length0 == SECTION_SLOTS && blockData.Length1 == SECTION_VOLUME
      requires used.Length == SECTION_SLOTS && biomeIds.Length == BIOME_COUNT
      requires colors.Length >= PIXELS && heights.Length >= PIXELS && colors as object != heights as object
      requires Written(colors[..], oldColors, PixelColors(chunks), Drawn(chunks), 32 * cz + cx, 0)
      requires Written(heights[..], oldHeights, PixelHeights(chunks), Drawn(chunks), 32 * cz + cx, 0)
      modifies this`defaultedBlockIds, this`defaultedBlockIdDataValues, this`defaultedBiomeIds
      modifies blockIds, blockData, used, biomeIds, colors, heights
      ensures ok <==> LevelFits(level, SECTION_SLOTS)
      ensures ok ==> Written(colors[..], oldColors, PixelColors(chunks), Drawn(chunks), 32 * cz + cx, 256)
      ensures ok ==> Written(heights[..], oldHeights, PixelHeights(chunks), Drawn(chunks), 32 * cz + cx, 256)
      ensures ok ==> Records() == LoopRecords(old(Records()), level, Rows, 16)
      ensures !ok ==> colors[..] == old(colors[..]) && heights[..] == old(heights[..]) && Records() == old(Records())
    {
      ok := LoadChunkData(level, SECTION_SLOTS, blockIds, blockData, used, biomeIds);
      LevelLoadsIffFits(level, SECTION_SLOTS, blockIds, blockData, used, biomeIds);
      if !ok {
        return;
      }
      LoadedChunkHeld(level, blockIds, blockData, used, biomeIds);
      ChunkPixels(chunks, cx, cz, level);
      RenderColumns(level, cx, cz, blockIds, blockData, used, biomeIds, colors, heights,
                    Drawn(chunks), PixelColors(chunks), PixelHeights(chunks), oldColors, oldHeights);
    }

    /** `colors[dIdx] = pixelColor; heights[dIdx] = pixelHeight;` */
    static method StorePixel(colors: array<Argb>, heights: array<int>, dIdx: int, pixelColor: Argb, pixelHeight: int)
      requires 0 <= dIdx < colors.Length && dIdx < heights.Length
      requires colors as object != heights as object
      modifies colors, heights
      ensures colors[..] == old(colors[..])[dIdx := pixelColor]
      ensures heights[..] == old(heights[..])[dIdx := pixelHeight]
    {
      colors[dIdx] := pixelColor;
      heights[dIdx] := pixelHeight;
    }

    /** The 256 columns of drawn chunk (cx, cz), z outer and x inner,
        each composited from the buffers into its own pixel. */
    method RenderColumns(ghost level: Level, cx: int, cz: int,
                         blockIds: array2<int>, blockData: array2<byte>, used: array<bool>, biomeIds: array<byte>,
                         colors: array<Argb>, heights: array<int>,
                         ghost loaded: int -> bool, ghost colorOf: int -> Argb, ghost heightOf: int -> int,
                         ghost oldColors: seq<Argb>, ghost oldHeights: seq<int>)
      requires 0 <= cx < 32 && 0 <= cz < 32 && loaded(32 * cz + cx)
      requires ChunkHeld(level, blockIds, blockData, used, biomeIds)
      requires forall x, z :: 0 <= x < 16 && 0 <= z < 16 ==>
        colorOf(PixelIndex(cx, cz, x, z)) == ColumnColor(level, x, z) &&
        heightOf(PixelIndex(cx, cz, x, z)) == ColumnHeight(level, x, z)
      requires colors.Length >= PIXELS && heights.Length >= PIXELS && colors as object != heights as object
      requires Written(colors[..], oldColors, colorOf, loaded, 32 * cz + cx, 0)
      requires Written(heights[..], oldHeights, heightOf, loaded, 32 * cz + cx, 0)
      modifies this`defaultedBlockIds, this`defaultedBlockIdDataValues, this`defaultedBiomeIds, colors, heights
      ensures Written(colors[..], oldColors, colorOf, loaded, 32 * cz + cx, 256)
      ensures Written(heights[..], oldHeights, heightOf, loaded, 32 * cz + cx, 256)
      ensures Records() == LoopRecords(old(Records()), level, Rows, 16)
    {
      for z := 0 to 16
        invariant Written(colors[..], oldColors, colorOf, loaded, 32 * cz + cx, 16 * z)
        invariant Written(heights[..], oldHeights, heightOf, loaded, 32 * cz + cx, 16 * z)
        invariant Records() == LoopRecords(old(Records()), level, Rows, z)
      {
        RenderRow(level, cx, cz, z, blockIds, blockData, used, biomeIds, colors, heights,
                  loaded, colorOf, heightOf, oldColors, oldHeights);
      }
    }

    /** The 16 columns of row z of drawn chunk (cx, cz), x ascending. */
    method RenderRow(ghost level: Level, cx: int, cz: int, z: int,
                     blockIds: array2<int>, blockData: array2<byte>, used: array<bool>, biomeIds: array<byte>,
                     colors: array<Argb>, heights: array<int>,
                     ghost loaded: int -> bool, ghost colorOf: int -> Argb, ghost heightOf: int -> int,
                     ghost oldColors: seq<Argb>, ghost oldHeights: seq<int>)
      requires 0 <= cx < 32 && 0 <= cz < 32 && 0 <= z < 16 && loaded(32 * cz + cx)
      requires ChunkHeld(level, blockIds, blockData, used, biomeIds)
      requires forall x :: 0 <= x < 16 ==>
        colorOf(PixelIndex(cx, cz, x, z)) == ColumnColor(level, x, z) &&
        heightOf(PixelIndex(cx, cz, x, z)) == ColumnHeight(level, x, z)
      requires colors.Length >= PIXELS && heights.Length >= PIXELS && colors as object != heights as object
      requires Written(colors[..], oldColors, colorOf, loaded, 32 * cz + cx, 16 * z)
      requires Written(heights[..], oldHeights, heightOf, loaded, 32 * cz + cx, 16 * z)
      modifies this`defaultedBlockIds, this`defaultedBlockIdDataValues, this`defaultedBiomeIds, colors, heights
      ensures Written(colors[..], oldColors, colorOf, loaded, 32 * cz + cx, 16 * z + 16)
      ensures Written(heights[..], oldHeights, heightOf, loaded, 32 * cz + cx, 16 * z + 16)
      ensures Records() == LoopRecords(old(Records()), level, Columns(z), 16)
    {
      for x := 0 to 16
        invariant Written(colors[..], oldColors, colorOf, loaded, 32 * cz + cx, 16 * z + x)
        invariant Written(heights[..], oldHeights, heightOf, loaded, 32 * cz + cx, 16 * z + x)
        invariant Records() == LoopRecords(old(Records()), level, Columns(z), x)
      {
        RenderColumn(level, cx, cz, x, z, blockIds, blockData, used, biomeIds, colors, heights,
                     loaded, colorOf, heightOf, oldColors, oldHeights);
      }
    }

    /** Column (x, z) of drawn chunk (cx, cz), composited from the buffers
        and stored in its own pixel. */
    method RenderColumn(ghost level: Level, cx: int, cz: int, x: int, z: int,
                        blockIds: array2<int>, blockData: array2<byte>, used: array<bool>, biomeIds: array<byte>,
                        colors: array<Argb>, heights: array<int>,
                        ghost loaded: int -> bool, ghost colorOf: int -> Argb, ghost heightOf: int -> int,
                        ghost oldColors: seq<Argb>, ghost oldHeights: seq<int>)
      requires 0 <= cx < 32 && 0 <= cz < 32 && 0 <= x < 16 && 0 <= z < 16 && loaded(32 * cz + cx)
      requires ChunkHeld(level, blockIds, blockData, used, biomeIds)
      requires forall x :: 0 <= x < 16 ==>
        colorOf(PixelIndex(cx, cz, x, z)) == ColumnColor(level, x, z) &&
        heightOf(PixelIndex(cx, cz, x, z)) == ColumnHeight(level, x, z)
      requires colors.Length >= PIXELS && heights.Length >= PIXELS && colors as object != heights as object
      requires Written(colors[..], oldColors, colorOf, loaded, 32 * cz + cx, 16 * z + x)
      requires Written(heights[..], oldHeights, heightOf, loaded, 32 * cz + cx, 16 * z + x)
      modifies this`defaultedBlockIds, this`defaultedBlockIdDataValues, this`defaultedBiomeIds, colors, heights
      ensures Written(colors[..], oldColors, colorOf, loaded, 32 * cz + cx, 16 * z + x + 1)
      ensures Written(heights[..], oldHeights, heightOf, loaded, 32 * cz + cx, 16 * z + x + 1)
      ensures Records() == LoopRecords(old(Records()), level, Slots(x, z), 16)
    {
      var pixelColor, pixelHeight := ComposeColumn(level, x, z, blockIds, blockData, used, biomeIds);
      var dIdx := 512 * (cz * 16 + z) + 16 * cx + x;
      WriteColumn(colors[..], oldColors, colorOf, loaded, cx, cz, x, z);
      WriteColumn(heights[..], oldHeights, heightOf, loaded, cx, cz, x, z);
      StorePixel(colors, heights, dIdx, pixelColor, pixelHeight);
    }
  }

  //// Shading ////

  /** The height difference along x at column (x, z) of a 512 x 512 height
      map: at the two edges a one-sided difference halved with Java's int
      division, inside the full central difference. */
  function GradientX(h: seq<int>, x: int, z: int): int
    requires |h| == PIXELS && 0 <= x < 512 && 0 <= z < 512
  {
    var idx := 512 * z + x;
    if x == 0 then JavaDiv(h[idx + 1] - h[idx], 2)
    else if x == 511 then JavaDiv(h[idx] - h[idx - 1], 2)
    else h[idx + 1] - h[idx - 1]
  }

  /** The height difference along z, with the same edge rule. */
  function GradientZ(h: seq<int>, x: int, z: int): int
    requires |h| == PIXELS && 0 <= x < 512 && 0 <= z < 512
  {
    var idx := 512 * z + x;
    if z == 0 then JavaDiv(h[idx + 512] - h[idx], 2)
    else if z == 511 then JavaDiv(h[idx] - h[idx - 512], 2)
    else h[idx + 512] - h[idx - 512]
  }

  /** The colour `shade` leaves at pixel d: a blank (0) pixel is kept, any
      other goes through Color.shade with the amount `tone` derives from
      the two gradients and the pixel's own height. */
  function ShadedPixel(h: seq<int>, colors: seq<Argb>, d: int,
                       tone: (int, int, int) -> int, shadeColor: (Argb, int) -> Argb): Argb
    requires |h| == PIXELS && |colors| == PIXELS && 0 <= d < PIXELS
  {
    if colors[d] == 0 then 0
    else shadeColor(colors[d], tone(GradientX(h, d % 512, d / 512), GradientZ(h, d % 512, d / 512), h[d]))
  }

  /** On a flat height map both gradients vanish, so every drawn pixel gets
      the shade of its height alone and blank pixels stay blank. */
  lemma FlatShade(h: seq<int>, colors: seq<Argb>, d: int, level: int,
                  tone: (int, int, int) -> int, shadeColor: (Argb, int) -> Argb)
    requires |h| == PIXELS && |colors| == PIXELS && 0 <= d < PIXELS
    requires forall i :: 0 <= i < PIXELS ==> h[i] == level
    ensures ShadedPixel(h, colors, d, tone, shadeColor)
            == if colors[d] == 0 then 0 else shadeColor(colors[d], tone(0, 0, level))
  {
    var x, z := d % 512, d / 512;
    DivModOf(d, 512, z, x);
    assert GradientX(h, x, z) == 0 && GradientZ(h, x, z) == 0;
  }

  /** `shade`: every non-blank pixel of the buffer is replaced, in place,
      by its shaded colour; the heights are only read. */
  method Shade(heights: array<int>, colors: array<Argb>,
               tone: (int, int, int) -> int, shadeColor: (Argb, int) -> Argb)
    requires heights.Length == PIXELS && colors.Length == PIXELS && colors as object != heights as object
    modifies colors
    ensures forall d :: 0 <= d < PIXELS ==>
      colors[d] == ShadedPixel(heights[..], old(colors[..]), d, tone, shadeColor)
  {
    ghost var olds := colors[..];
    var idx := 0;
    for z := 0 to 512
      invariant idx == 512 * z
      invariant forall d :: 0 <= d < idx ==> colors[d] == ShadedPixel(heights[..], olds, d, tone, shadeColor)
      invariant forall d :: idx <= d < PIXELS ==> colors[d] == olds[d]
    {
      for x := 0 to 512
        invariant idx == 512 * z + x
        invariant forall d :: 0 <= d < idx ==> colors[d] == ShadedPixel(heights[..], olds, d, tone, shadeColor)
        invariant forall d :: idx <= d < PIXELS ==> colors[d] == olds[d]
      {
        ShadeOne(heights, colors, idx, x, z, tone, shadeColor);
        idx := idx + 1;
      }
    }
  }

  /** One pixel of `shade`: pixel 512 * z + x, and only it, is shaded. */
  method ShadeOne(heights: array<int>, colors: array<Argb>, idx: int, x: int, z: int,
                  tone: (int, int, int) -> int, shadeColor: (Argb, int) -> Argb)
    requires heights.Length == PIXELS && colors.Length == PIXELS && colors as object != heights as object
    requires 0 <= x < 512 && 0 <= z < 512 && idx == 512 * z + x
    modifies colors
    ensures colors[idx] == ShadedPixel(heights[..], old(colors[..]), idx, tone, shadeColor)
    ensures forall d :: 0 <= d < PIXELS && d != idx ==> colors[d] == old(colors[d])
  {
    DivModOf(idx, 512, z, x);
    if colors[idx] == 0 {
      return;
    }
    var dyx, dyz;
    if x == 0 {
      dyx := JavaDiv(heights[idx + 1] - heights[idx], 2);
    } else if x == 511 {
      dyx := JavaDiv(heights[idx] - heights[idx - 1], 2);
    } else {
      dyx := heights[idx + 1] - heights[idx - 1];
    }
    if z == 0 {
      dyz := JavaDiv(heights[idx + 512] - heights[idx], 2);
    } else if z == 511 {
      dyz := JavaDiv(heights[idx] - heights[idx - 512], 2);
    } else {
      dyz := heights[idx + 512] - heights[idx - 512];
    }
    assert dyx == GradientX(heights[..], x, z) && dyz == GradientZ(heights[..], x, z);
    colors[idx] := shadeColor(colors[idx], tone(dyx, dyz, heights[idx]));
  }

  //// Splitting the regions among render threads ////

  /** The inclusive range of region indices one render thread is given. */
  datatype Work = Work(startIndex: int, endIndex: int)

  /** Why `renderAll` fails before any thread starts: a thread count of 0
      divides by zero, a negative one is an illegal array size. */
  datatype PartitionError = DivisionByZero | NegativeArraySize

  /** The range of thread i of `threads`: `numRegions / threads` regions
      each, the last thread running on to the final region. */
  function ThreadWork(numRegions: int, threads: int, i: int): Work
    requires threads >= 1
  {
    var interval := numRegions / threads;
    Work(interval * i, if i == threads - 1 then numRegions - 1 else interval * (i + 1) - 1)
  }

  /** The indices lo, lo + 1, ..., hi; none when hi < lo. */
  function Indices(lo: int, hi: int): (r: seq<int>)
    decreases hi - lo
    ensures |r| == if hi < lo then 0 else hi - lo + 1
    ensures forall k :: 0 <= k < |r| ==> r[k] == lo + k
  {
    if hi < lo then [] else Indices(lo, hi - 1) + [hi]
  }

  /** Two adjacent index ranges make up the range that spans both. */
  lemma IndicesAppend(lo: int, m: int, hi: int)
    requires lo - 1 <= m <= hi
    ensures Indices(lo, m) + Indices(m + 1, hi) == Indices(lo, hi)
  {
    var a, b, c := Indices(lo, m), Indices(m + 1, hi), Indices(lo, hi);
    assert |a + b| == |c|;
    forall k | 0 <= k < |c| ensures (a + b)[k] == c[k] {
      if k >= |a| {
        assert (a + b)[k] == b[k - |a|];
      }
    }
  }

  /** The region indices the threads visit, thread after thread. */
  function Visited(works: seq<Work>): seq<int> {
    if works == [] then []
    else Visited(works[..|works| - 1]) + Indices(works[|works| - 1].startIndex, works[|works| - 1].endIndex)
  }

  /** The ranges are non-empty, the first starts at 0, the last ends at
      n - 1, and each starts right after the one before it ends. */
  predicate Tiling(works: seq<Work>, n: int) {
    && |works| >= 1
    && works[0].startIndex == 0
    && works[|works| - 1].endIndex == n - 1
    && (forall i :: 0 <= i < |works| ==> works[i].startIndex <= works[i].endIndex)
    && (forall i :: 0 <= i < |works| - 1 ==> works[i + 1].startIndex == works[i].endIndex + 1)
  }

  lemma {:induction false} VisitedPrefix(works: seq<Work>, n: int, j: int)
    requires Tiling(works, n) && 1 <= j <= |works|
    ensures works[j - 1].endIndex >= 0
    ensures Visited(works[..j]) == Indices(0, works[j - 1].endIndex)
  {
    var ws := works[..j];
    assert ws[..j - 1] == works[..j - 1];
    if j == 1 {
      assert Visited(ws) == Visited([]) + Indices(works[0].startIndex, works[0].endIndex);
    } else {
      VisitedPrefix(works, n, j - 1);
      IndicesAppend(0, works[j - 2].endIndex, works[j - 1].endIndex);
    }
  }

  /** Ranges that tile 0..n - 1 visit every region index exactly once, in
      increasing order: no region is skipped and none is rendered twice. */
  lemma TilingVisitsAll(works: seq<Work>, n: int)
    requires Tiling(works, n)
    ensures Visited(works) == Indices(0, n - 1)
  {
    VisitedPrefix(works, n, |works|);
    assert works[..|works|] == works;
  }

  /** With between 1 and n threads, `renderAll`'s ranges tile 0..n - 1. */
  lemma ThreadWorkTiles(works: seq<Work>, n: int, w: int)
    requires 1 <= w <= n && |works| == w
    requires forall i :: 0 <= i < w ==> works[i] == ThreadWork(n, w, i)
    ensures Tiling(works, n)
  {
    var q := n / w;
    assert n == q * w + n % w;
    if q <= 0 {
      assert false;
    }
    forall i | 0 <= i < w ensures works[i].startIndex <= works[i].endIndex {
      if i < w - 1 {
        assert q * (i + 1) == q * i + q;
      } else {
        assert q * w == q * (w - 1) + q;
      }
    }
    assert works[0].startIndex == q * 0;
  }

  /** `renderAll`'s split: the thread count is clamped to the number of
      regions, thread i gets regionInterval * i to regionInterval * (i + 1) - 1
      and the last thread runs on to the final region; so the threads
      together visit every region exactly once. */
  method Partition(numRegions: nat, numThreads: int) returns (r: Result<seq<Work>, PartitionError>)
    ensures r == Err(DivisionByZero) <==> numThreads == 0 || (numRegions == 0 && numThreads > 0)
    ensures r == Err(NegativeArraySize) <==> numThreads < 0
    ensures r.Ok? ==> |r.value| == if numRegions < numThreads then numRegions else numThreads
    ensures r.Ok? ==> forall i :: 0 <= i < |r.value| ==> r.value[i] == ThreadWork(numRegions, |r.value|, i)
    ensures r.Ok? ==> Tiling(r.value, numRegions) && Visited(r.value) == Indices(0, numRegions - 1)
  {
    var threads := numThreads;
    if numRegions < threads {
      threads := numRegions;
    }
    if threads == 0 {
      return Err(DivisionByZero);
    }
    if threads < 0 {
      return Err(NegativeArraySize);
    }
    var interval := numRegions / threads;
    var works: seq<Work> := [];
    for i := 0 to threads
      invariant |works| == i
      invariant forall k :: 0 <= k < i ==> works[k] == ThreadWork(numRegions, threads, k)
    {
      var startIndex := interval * i;
      var endIndex := interval * (i + 1) - 1;
      if i == threads - 1 {
        endIndex := numRegions - 1;
      }
      works := works + [Work(startIndex, endIndex)];
    }
    ThreadWorkTiles(works, numRegions, threads);
    TilingVisitsAll(works, numRegions);
    return Ok(works);
  }

  //// Deciding which tiles of a region to write ////

  /** A region file found on disk: its region coordinates and the time it
      was last modified. */
  datatype Region = Region(rx: int, rz: int, regionMtime: int)

  /** The files of the output directory, with their modification times. */
  type Stat = map<string, int>

  /** "tile.<rx>.<rz>.png", the full-size tile. */
  function FullTileName(rx: int, rz: int): string {
    "tile." + IntToString(rx) + "." + IntToString(rz) + ".png"
  }

  /** "tile.<rx>.<rz>.1-<scale>.png", the tile at 1:scale. */
  function ScaledTileName(rx: int, rz: int, scale: int): string {
    "tile." + IntToString(rx) + "." + IntToString(rz) + ".1-" + IntToString(scale) + ".png"
  }

  /** A tile must be written when forced, when missing, or when older than
      its region file. */
  predicate Stale(stat: Stat, name: string, regionMtime: int, force: bool) {
    force || name !in stat || stat[name] < regionMtime
  }

  /** `anyScalesNeedReRender`: the loop over the scales other than 1. */
  predicate AnyScaleStale(stat: Stat, r: Region, scales: seq<int>, force: bool) {
    if scales == [] then false
    else (scales[0] != 1 && Stale(stat, ScaledTileName(r.rx, r.rz, scales[0]), r.regionMtime, force))
         || AnyScaleStale(stat, r, scales[1..], force)
  }

  /** Some scale other than 1 has a stale tile, and conversely. */
  lemma {:induction false} AnyScaleStaleIff(stat: Stat, r: Region, scales: seq<int>, force: bool)
    ensures AnyScaleStale(stat, r, scales, force) <==>
      exists k :: 0 <= k < |scales| && scales[k] != 1 &&
        Stale(stat, ScaledTileName(r.rx, r.rz, scales[k]), r.regionMtime, force)
  {
    if scales != [] {
      AnyScaleStaleIff(stat, r, scales[1..], force);
      if AnyScaleStale(stat, r, scales[1..], force) {
        var k :| 0 <= k < |scales[1..]| && scales[1..][k] != 1 &&
          Stale(stat, ScaledTileName(r.rx, r.rz, scales[1..][k]), r.regionMtime, force);
        assert scales[k + 1] == scales[1..][k];
      }
      if exists k :: 0 <= k < |scales| && scales[k] != 1 &&
           Stale(stat, ScaledTileName(r.rx, r.rz, scales[k]), r.regionMtime, force)
      {
        var k :| 0 <= k < |scales| && scales[k] != 1 &&
          Stale(stat, ScaledTileName(r.rx, r.rz, scales[k]), r.regionMtime, force);
        if k > 0 {
          assert scales[1..][k - 1] == scales[k];
        }
      }
    }
  }

  /** A scaled tile that was written: its file name and its side in pixels. */
  datatype Tile = Tile(name: string, size: int)

  /** The scaled tiles written, in the order of the scales, and the scale
      at which writing stopped, if it did. */
  datatype Writes = Writes(tiles: seq<Tile>, failedScale: Option<int>)

  /** A scale whose tile side 512 / scale is a positive number of pixels. */
  predicate ValidScale(scale: int) {
    1 <= scale <= 512
  }

  /** The tile side 512 / scale, in Java's int division, is positive
      exactly for the valid scales, and is then the plain quotient. */
  lemma TileSide(scale: int)
    requires scale != 0
    ensures JavaDiv(512, scale) > 0 <==> ValidScale(scale)
    ensures ValidScale(scale) ==> JavaDiv(512, scale) == 512 / scale
  {
    if scale > 512 {
      DivModOf(512, scale, 0, 512);
    } else if scale >= 1 {
      var q := 512 / scale;
      assert 512 == q * scale + 512 % scale;
    }
  }

  /** The scales other than 1, in order: the ones that get a tile of their own. */
  function Rescaled(scales: seq<int>): (r: seq<int>)
    ensures forall k :: 0 <= k < |r| ==> r[k] != 1 && r[k] in scales
    ensures forall k :: 0 <= k < |scales| && scales[k] != 1 ==> scales[k] in r
  {
    if scales == [] then []
    else if scales[0] == 1 then Rescaled(scales[1..])
    else [scales[0]] + Rescaled(scales[1..])
  }

  /** Rescaled keeps the scales in their order: it distributes over
      concatenation, and on one scale drops a 1 and keeps anything else. */
  lemma {:induction false} RescaledAppend(a: seq<int>, b: seq<int>)
    ensures Rescaled(a + b) == Rescaled(a) + Rescaled(b)
  {
    if a == [] {
      assert a + b == b;
    } else {
      var ab := a + b;
      assert ab[0] == a[0] && ab[1..] == a[1..] + b;
      RescaledAppend(a[1..], b);
      if a[0] != 1 {
        assert Rescaled(ab) == [a[0]] + (Rescaled(a[1..]) + Rescaled(b));
        assert Rescaled(a) == [a[0]] + Rescaled(a[1..]);
      }
    }
  }

  /** The loop writing the scaled tiles: each scale other than 1 gets
      tile.<rx>.<rz>.1-<scale>.png at 512 / scale pixels, until a scale of
      0 (a division by zero) or one whose side is not positive (refused by
      the image buffer) stops it. */
  function ScaledWrites(rx: int, rz: int, scales: seq<int>): (w: Writes)
    ensures w.failedScale.None? <==> forall k :: 0 <= k < |scales| ==> ValidScale(scales[k])
    ensures w.failedScale.Some? ==> !ValidScale(w.failedScale.value) && w.failedScale.value in scales
  {
    if scales == [] then Writes([], None)
    else if scales[0] == 1 then ScaledWrites(rx, rz, scales[1..])
    else if scales[0] == 0 then Writes([], Some(0))
    else
      TileSide(scales[0]);
      var size := JavaDiv(512, scales[0]);
      if size <= 0 then Writes([], Some(scales[0]))
      else
        var rest := ScaledWrites(rx, rz, scales[1..]);
        Writes([Tile(ScaledTileName(rx, rz, scales[0]), size)] + rest.tiles, rest.failedScale)
  }

  /** With every scale valid, the tiles written are those of the scales
      other than 1, in order, each named for its scale and 512 / scale
      pixels wide. */
  lemma {:induction false} ScaledWritesTiles(rx: int, rz: int, scales: seq<int>)
    requires forall k :: 0 <= k < |scales| ==> ValidScale(scales[k])
    ensures var w, rs := ScaledWrites(rx, rz, scales), Rescaled(scales);
      && |w.tiles| == |rs|
      && forall k :: 0 <= k < |rs| ==> w.tiles[k] == Tile(ScaledTileName(rx, rz, rs[k]), 512 / rs[k])
  {
    if scales != [] {
      ScaledWritesTiles(rx, rz, scales[1..]);
      if scales[0] != 1 {
        TileSide(scales[0]);
        var w, rs := ScaledWrites(rx, rz, scales), Rescaled(scales);
        var w', rs' := ScaledWrites(rx, rz, scales[1..]), Rescaled(scales[1..]);
        assert w.tiles == [Tile(ScaledTileName(rx, rz, scales[0]), 512 / scales[0])] + w'.tiles;
        assert rs == [scales[0]] + rs';
      }
    }
  }

  /** What `renderRegion` does to one region: nothing, or write the tiles,
      the full-size one rendered afresh or read back from disk. */
  datatype Action =
    | Skipped
    | Write(renderFull: bool, full: string, scaled: Writes)

  /** `renderRegion(Region, File, boolean)`: a null region is skipped; the
      full-size tile is re-rendered when stale; otherwise, when some
      scaled tile is stale, the full-size tile is read back to rescale;
      otherwise nothing is written. */
  function PlanRegion(r: Option<Region>, stat: Stat, scales: seq<int>, force: bool): Action {
    match r
    case None => Skipped
    case Some(region) =>
      var full := FullTileName(region.rx, region.rz);
      if Stale(stat, full, region.regionMtime, force) then
        Write(true, full, ScaledWrites(region.rx, region.rz, scales))
      else if AnyScaleStale(stat, region, scales, force) then
        Write(false, full, ScaledWrites(region.rx, region.rz, scales))
      else Skipped
  }

  /** The full-size tile is rendered iff it is stale; the region is
      skipped iff no tile at all is stale; when anything is written, every
      scale other than 1 is rewritten. */
  lemma PlanDecision(r: Region, stat: Stat, scales: seq<int>, force: bool)
    ensures var a := PlanRegion(Some(r), stat, scales, force);
      && (a.Write? && a.renderFull <==> Stale(stat, FullTileName(r.rx, r.rz), r.regionMtime, force))
      && (a.Skipped? <==>
            !Stale(stat, FullTileName(r.rx, r.rz), r.regionMtime, force) &&
            forall k :: 0 <= k < |scales| && scales[k] != 1 ==>
              !Stale(stat, ScaledTileName(r.rx, r.rz, scales[k]), r.regionMtime, force))
      && (a.Write? ==> a.full == FullTileName(r.rx, r.rz) && a.scaled == ScaledWrites(r.rx, r.rz, scales))
  {
    AnyScaleStaleIff(stat, r, scales, force);
  }

  /** The directory after writing `tiles` at time `now`. */
  function WriteTiles(stat: Stat, tiles: seq<Tile>, now: int): (s: Stat)
    ensures forall k :: 0 <= k < |tiles| ==> tiles[k].name in s && s[tiles[k].name] == now
    ensures forall n :: n in stat ==> n in s && (s[n] == stat[n] || s[n] == now)
    decreases |tiles|
  {
    if tiles == [] then stat else WriteTiles(stat[tiles[0].name := now], tiles[1..], now)
  }

  /** The directory after carrying out an action at time `now`. */
  function Perform(stat: Stat, a: Action, now: int): Stat {
    match a
    case Skipped => stat
    case Write(renderFull, full, writes) =>
      WriteTiles(if renderFull then stat[full := now] else stat, writes.tiles, now)
  }

  /** Rendering settles: once a region's tiles are written no earlier than
      its region file changed, and every scale is valid, a second pass
      without force finds nothing stale and writes nothing. */
  lemma PlanSettles(r: Region, stat: Stat, scales: seq<int>, force: bool, now: int)
    requires now >= r.regionMtime
    requires forall k :: 0 <= k < |scales| ==> ValidScale(scales[k])
    ensures PlanRegion(Some(r), Perform(stat, PlanRegion(Some(r), stat, scales, force), now), scales, false).Skipped?
  {
    var a := PlanRegion(Some(r), stat, scales, force);
    var s := Perform(stat, a, now);
    PlanDecision(r, stat, scales, force);
    PlanDecision(r, s, scales, false);
    if a.Write? {
      var full := FullTileName(r.rx, r.rz);
      var w := ScaledWrites(r.rx, r.rz, scales);
      var rs := Rescaled(scales);
      ScaledWritesTiles(r.rx, r.rz, scales);
      forall k | 0 <= k < |scales| && scales[k] != 1
        ensures !Stale(s, ScaledTileName(r.rx, r.rz, scales[k]), r.regionMtime, false)
      {
        var j :| 0 <= j < |rs| && rs[j] == scales[k];
        assert w.tiles[j].name == ScaledTileName(r.rx, r.rz, scales[k]);
      }
    }
  }

  /** `renderRegion(Region, File, boolean)` on one region at time `now`;
      `imageOk` says whether the full-size image could be had, rendered
      from the region file or read back from disk. A skipped region leaves
      the directory as it is. Otherwise a stale full-size tile is deleted
      and, once rendered, written; then the scaled tiles are written in
      turn. The region fails, with an exception that ends its thread, when
      the image cannot be had or at a scale that divides by zero or gives
      no pixels; the error holds the directory as far as the region got. */
  function RunOne(stat: Stat, r: Option<Region>, scales: seq<int>, force: bool, now: int, imageOk: bool)
    : Result<Stat, Stat>
  {
    match PlanRegion(r, stat, scales, force)
    case Skipped => Ok(stat)
    case Write(renderFull, full, writes) =>
      if !imageOk then Err(if renderFull then stat - {full} else stat)
      else
        var written := WriteTiles(if renderFull then stat[full := now] else stat, writes.tiles, now);
        if writes.failedScale.Some? then Err(written) else Ok(written)
  }

  /** A region fails exactly when it has tiles to write and either its
      image cannot be had or one of the scales is invalid. Success leaves
      the directory its plan describes. A failure to get the image writes
      nothing and leaves a stale full-size tile deleted; a failing scale
      comes after the full-size tile and the scaled tiles before it are
      written. */
  lemma RunOneOutcome(stat: Stat, r: Option<Region>, scales: seq<int>, force: bool, now: int, imageOk: bool)
    ensures var a, res := PlanRegion(r, stat, scales, force), RunOne(stat, r, scales, force, now, imageOk);
      && (res.Err? <==> a.Write? && (!imageOk || exists k :: 0 <= k < |scales| && !ValidScale(scales[k])))
      && (res.Ok? ==> res.value == Perform(stat, a, now))
      && (res.Err? && !imageOk ==> res.error.Keys <= stat.Keys && (a.renderFull ==> a.full !in res.error))
      && (res.Err? && imageOk ==>
            && (a.renderFull ==> a.full in res.error && res.error[a.full] == now)
            && forall k :: 0 <= k < |a.scaled.tiles| ==>
                 a.scaled.tiles[k].name in res.error && res.error[a.scaled.tiles[k].name] == now)
  {
    var a := PlanRegion(r, stat, scales, force);
    if a.Write? {
      var w := ScaledWrites(r.value.rx, r.value.rz, scales);
      assert a.scaled == w;
    }
  }

  /** How a run of steps ended: the state reached, and the index of the
      item whose step failed, if one did. */
  datatype Run<S> = Run(state: S, failedAt: Option<int>)

  /** `step` applied to each of `rs` in turn from `s`, stopping at the
      first item whose step fails: that step's error state ends the run. */
  function Steps<S, R>(rs: seq<R>, s: S, step: (S, R) -> Result<S, S>): (run: Run<S>)
    ensures run.failedAt.Some? ==> 0 <= run.failedAt.value < |rs|
  {
    if rs == [] then Run(s, None)
    else
      var before := Steps(rs[..|rs| - 1], s, step);
      if before.failedAt.Some? then before
      else match step(before.state, rs[|rs| - 1])
        case Ok(t) => Run(t, None)
        case Err(t) => Run(t, Some(|rs| - 1))
  }

  /** A run over items that come after n others: its failing index moved up by n. */
  function Shifted<S>(run: Run<S>, n: int): Run<S> {
    Run(run.state, if run.failedAt.Some? then Some(run.failedAt.value + n) else None)
  }

  /** Running two lists in turn is running their concatenation: a failure
      in the first ends the whole run, otherwise the second carries on
      from where the first stopped. */
  lemma {:induction false} StepsAppend<S, R>(a: seq<R>, b: seq<R>, s: S, step: (S, R) -> Result<S, S>)
    ensures Steps(a + b, s, step)
            == (var first := Steps(a, s, step);
                if first.failedAt.Some? then first else Shifted(Steps(b, first.state, step), |a|))
    decreases |b|
  {
    if b == [] {
      assert a + b == a;
    } else {
      var ab, b' := a + b, b[..|b| - 1];
      StepsAppend(a, b', s, step);
      assert ab[..|ab| - 1] == a + b' && ab[|ab| - 1] == b[|b| - 1];
    }
  }

  /** The run stops at its first failing item: every item before it
      succeeds, and the run ends in the error state of that item's step. */
  lemma {:induction false} StepsStopAtFirstFailure<S, R>(rs: seq<R>, s: S, step: (S, R) -> Result<S, S>)
    requires Steps(rs, s, step).failedAt.Some?
    ensures var f := Steps(rs, s, step).failedAt.value;
      && Steps(rs[..f], s, step).failedAt.None?
      && step(Steps(rs[..f], s, step).state, rs[f]) == Err(Steps(rs, s, step).state)
  {
    var rs' := rs[..|rs| - 1];
    if Steps(rs', s, step).failedAt.Some? {
      StepsStopAtFirstFailure(rs', s, step);
      var f := Steps(rs, s, step).failedAt.value;
      assert rs'[..f] == rs[..f] && rs'[f] == rs[f];
    } else {
      assert rs[..|rs| - 1] == rs';
    }
  }

  /** Once a prefix of the items fails, the items after it are never run. */
  lemma StepsFailureEnds<S, R>(rs: seq<R>, n: int, s: S, step: (S, R) -> Result<S, S>)
    requires 0 <= n <= |rs| && Steps(rs[..n], s, step).failedAt.Some?
    ensures Steps(rs, s, step) == Steps(rs[..n], s, step)
  {
    StepsAppend(rs[..n], rs[n..], s, step);
    assert rs[..n] + rs[n..] == rs;
  }

  /** The end of the range startIndex..endIndex that lies inside a list of n. */
  function RangeEnd(endIndex: int, n: int): int {
    if endIndex < n then endIndex + 1 else n
  }

  /** `renderRegions`: regions startIndex..endIndex, both inclusive, go
      through `renderRegion` in turn (RunOne is that step). The thread
      stops at the first region whose step fails, or at the first index
      outside the list; `failedIndex` is where it stopped and `dir` the
      directory at that point. */
  method RenderRegions(regions: seq<Option<Region>>, startIndex: int, endIndex: int,
                       stat: Stat, renderRegion: (Stat, Option<Region>) -> Result<Stat, Stat>)
    returns (dir: Stat, failedIndex: Option<int>)
    ensures endIndex < startIndex ==> dir == stat && failedIndex.None?
    ensures startIndex <= endIndex && !(0 <= startIndex < |regions|) ==>
      dir == stat && failedIndex == Some(startIndex)
    ensures startIndex <= endIndex && 0 <= startIndex < |regions| ==>
      var run := Steps(regions[startIndex..RangeEnd(endIndex, |regions|)], stat, renderRegion);
      && dir == run.state
      && failedIndex == if run.failedAt.Some? then Some(startIndex + run.failedAt.value)
                        else if endIndex < |regions| then None else Some(|regions|)
  {
    dir := stat;
    var i := startIndex;
    while i <= endIndex
      invariant startIndex <= i <= (if startIndex <= endIndex then endIndex + 1 else startIndex)
      invariant i > startIndex ==> 0 <= startIndex && i <= |regions|
      invariant i > startIndex ==> Steps(regions[startIndex..i], stat, renderRegion) == Run(dir, None)
      invariant i == startIndex ==> dir == stat
      decreases endIndex - i
    {
      if i < 0 || i >= |regions| {
        return dir, Some(i);
      }
      var done, next := regions[startIndex..i], regions[startIndex..i + 1];
      assert next[..|next| - 1] == done && next[|next| - 1] == regions[i];
      assert i == startIndex ==> Steps(done, stat, renderRegion) == Run(stat, None);
      var res := renderRegion(dir, regions[i]);
      if res.Err? {
        var rest := regions[startIndex..RangeEnd(endIndex, |regions|)];
        assert rest[..|next|] == next;
        StepsFailureEnds(rest, |next|, stat, renderRegion);
        return res.error, Some(i);
      }
      dir := res.value;
      i := i + 1;
    }
    return dir, None;
  }

  /** Ranges that tile 0..n - 1 start at or after their own thread number. */
  lemma {:induction false} TilingStarts(works: seq<Work>, n: int, i: int)
    requires Tiling(works, n) && 0 <= i < |works|
    ensures works[i].startIndex >= i
  {
    if i > 0 {
      TilingStarts(works, n, i - 1);
    }
  }

  /** ... and end no later than n - 1. */
  lemma {:induction false} TilingEnds(works: seq<Work>, n: int, i: int)
    requires Tiling(works, n) && 0 <= i < |works|
    ensures works[i].endIndex <= n - 1
    decreases |works| - i
  {
    if i < |works| - 1 {
      TilingEnds(works, n, i + 1);
    }
  }

  /** Every range lies inside a list of n items. */
  predicate RangesInside(works: seq<Work>, n: int) {
    forall i :: 0 <= i < |works| ==> 0 <= works[i].startIndex <= works[i].endIndex + 1 <= n
  }

  lemma TilingInside(works: seq<Work>, n: int)
    requires Tiling(works, n)
    ensures RangesInside(works, n)
  {
    forall i | 0 <= i < |works|
      ensures 0 <= works[i].startIndex <= works[i].endIndex + 1 <= n
    {
      TilingStarts(works, n, i);
      TilingEnds(works, n, i);
    }
  }

  /** The first n threads' ranges run one after another, each from the
      directory the one before left; a failing region ends only its own
      thread. */
  function RunThreads<S, R>(works: seq<Work>, n: int, items: seq<R>, s: S, step: (S, R) -> Result<S, S>): S
    requires RangesInside(works, |items|) && n <= |works|
    decreases n
  {
    if n <= 0 then s
    else
      var w := works[n - 1];
      Steps(items[w.startIndex..w.endIndex + 1], RunThreads(works, n - 1, items, s, step), step).state
  }

  /** While no region up to the end of thread j - 1 fails, the first j
      threads leave what one pass over those regions leaves. */
  lemma {:induction false} RunThreadsPrefix<S, R>(works: seq<Work>, items: seq<R>, s: S,
                                                  step: (S, R) -> Result<S, S>, j: int)
    requires Tiling(works, |items|) && RangesInside(works, |items|) && 1 <= j <= |works|
    requires Steps(items[..works[j - 1].endIndex + 1], s, step).failedAt.None?
    ensures RunThreads(works, j, items, s, step) == Steps(items[..works[j - 1].endIndex + 1], s, step).state
  {
    var e := works[j - 1].endIndex;
    if j == 1 {
      assert items[works[0].startIndex..e + 1] == items[..e + 1];
    } else {
      var e' := works[j - 2].endIndex;
      StepsAppend(items[..e' + 1], items[e' + 1..e + 1], s, step);
      assert items[..e' + 1] + items[e' + 1..e + 1] == items[..e + 1];
      RunThreadsPrefix(works, items, s, step, j - 1);
    }
  }

  /** `renderAll`'s threads, were they run one after another, would
      leave the same directory as one `renderRegions` pass over every
      region, as long as no region fails: the partition neither drops nor
      repeats nor reorders work. */
  lemma ThreadsInSequence<S, R>(works: seq<Work>, items: seq<R>, s: S, step: (S, R) -> Result<S, S>)
    requires Tiling(works, |items|)
    requires Steps(items, s, step).failedAt.None?
    ensures RangesInside(works, |items|)
    ensures RunThreads(works, |works|, items, s, step) == Steps(items, s, step).state
  {
    TilingInside(works, |items|);
    assert items[..|items|] == items;
    RunThreadsPrefix(works, items, s, step, |works|);
  }

  //// Debug text ////

  /** `pad`: spaces are put in front of `v` until it is `targetLength` long;
      a longer `v` is left as it is. */
  method Pad(v: string, targetLength: int) returns (r: string)
    ensures |r| == if |v| < targetLength then targetLength else |v|
    ensures r[|r| - |v|..] == v
    ensures forall i :: 0 <= i < |r| - |v| ==> r[i] == ' '
  {
    r := v;
    while |r| < targetLength
      invariant |v| <= |r| <= if |v| < targetLength then targetLength else |v|
      invariant r[|r| - |v|..] == v
      invariant forall i :: 0 <= i < |r| - |v| ==> r[i] == ' '
      decreases targetLength - |r|
    {
      r := " " + r;
    }
  }

  /** `pad` of a number: its decimal text, padded. */
  method PadInt(v: int, targetLength: int) returns (r: string)
    ensures |r| == if |IntToString(v)| < targetLength then targetLength else |IntToString(v)|
    ensures r[|r| - |IntToString(v)|..] == IntToString(v)
    ensures forall i :: 0 <= i < |r| - |IntToString(v)| ==> r[i] == ' '
  {
    r := Pad(IntToString(v), targetLength);
  }
}
