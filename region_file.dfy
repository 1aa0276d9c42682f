/** The region file reader: the 8 KiB header that locates up to 32x32 chunks,
    the framing of one chunk record, and the unpacking of a chunk's section
    arrays into buffers owned by the caller.

    The file itself is its contents, a sequence of bytes; reading past the end
    yields -1, as RandomAccessFile.read() does. Inflating the payload and
    parsing its tag tree are not modelled: a parsed "Level" tag is a `Level`. */
module RegionFile {
  import opened Common

  /** Position of a chunk inside its region, as (x, z). */
  datatype ChunkPos = ChunkPos(x: int, z: int)

  const CHUNKS_PER_SIDE: int := 32
  const HEADER_ENTRIES: int := 1024
  const SECTOR_SIZE: int := 4096
  const SECTION_VOLUME: int := 4096
  const BIOME_COUNT: int := 256

  //// Reading bytes ////

  /** RandomAccessFile.read() at position `p`: the unsigned byte there, or -1
      once `p` is at or past the end of the file. */
  function ReadAt(data: seq<byte>, p: nat): (r: int)
    ensures -1 <= r <= 255
    ensures r == -1 <==> p >= |data|
  {
    if p < |data| then data[p] as int else -1
  }

  /** Three consecutive reads combined as `b0 << 16 | b1 << 8 | b2`. A read
      past the end stays past the end, so when any read hit the end the last
      one did; its -1 has every bit set and the whole OR is -1. */
  function SectorOffset(b0: int, b1: int, b2: int): (r: int)
    requires -1 <= b0 <= 255 && -1 <= b1 <= 255 && -1 <= b2 <= 255
    requires b0 < 0 ==> b1 < 0
    requires b1 < 0 ==> b2 < 0
    ensures r > 0 <==> b0 >= 0 && b1 >= 0 && b2 >= 0 && (b0 > 0 || b1 > 0 || b2 > 0)
    ensures r >= 0 ==> r < 0x100_0000
  {
    if b2 < 0 then -1 else b0 * 0x1_0000 + b1 * 0x100 + b2
  }

  /** The big-endian value of three bytes. */
  function BigEndian3(b0: byte, b1: byte, b2: byte): nat {
    (b0 as nat) * 0x1_0000 + (b1 as nat) * 0x100 + b2 as nat
  }

  /** The sector offset read for header entry `i` (bytes 4i .. 4i+2). */
  function EntryOffset(data: seq<byte>, i: nat): int {
    SectorOffset(ReadAt(data, 4 * i), ReadAt(data, 4 * i + 1), ReadAt(data, 4 * i + 2))
  }

  /** Entry `i` of the header describes chunk (i mod 32, i div 32): z outer, x inner. */
  function EntryPos(i: nat): ChunkPos {
    ChunkPos(i % CHUNKS_PER_SIDE, i / CHUNKS_PER_SIDE)
  }

  /** The chunk-position table after the first `n` header entries. */
  function TableUpTo(data: seq<byte>, n: nat): map<ChunkPos, int> {
    if n == 0 then map[]
    else
      var t := TableUpTo(data, n - 1);
      var offset := EntryOffset(data, n - 1);
      if offset > 0 then t[EntryPos(n - 1) := offset * SECTOR_SIZE] else t
  }

  /** The table after `n` entries holds exactly the positions of the entries
      before `n` whose offset is positive, each at offset * 4096. */
  lemma {:induction false} TableUpToEntries(data: seq<byte>, n: nat, x: int, z: int)
    requires n <= HEADER_ENTRIES
    ensures ChunkPos(x, z) in TableUpTo(data, n) <==>
      0 <= x < 32 && 0 <= z < 32 && 32 * z + x < n && EntryOffset(data, 32 * z + x) > 0
    ensures ChunkPos(x, z) in TableUpTo(data, n) ==>
      TableUpTo(data, n)[ChunkPos(x, z)] == EntryOffset(data, 32 * z + x) * SECTOR_SIZE
  {
    if n > 0 {
      TableUpToEntries(data, n - 1, x, z);
      var i := n - 1;
      if 0 <= x < 32 && 0 <= z < 32 && 32 * z + x == i {
        assert EntryPos(i) == ChunkPos(x, z);
      } else {
        assert EntryPos(i) != ChunkPos(x, z);
      }
    }
  }

  /** The whole header: chunk (x, z) is listed exactly when the four bytes at
      4 * (32z + x) are inside the file and the big-endian value of the first
      three is positive; it is then stored at that value times 4096. The fourth
      byte (the sector count) plays no part. A header cut short by the end of
      the file marks the missing chunks absent. */
  lemma HeaderTable(data: seq<byte>, x: int, z: int)
    requires 0 <= x < 32 && 0 <= z < 32
    ensures var k := 4 * (32 * z + x);
      ChunkPos(x, z) in TableUpTo(data, HEADER_ENTRIES) <==>
        k + 2 < |data| && BigEndian3(data[k], data[k + 1], data[k + 2]) > 0
    ensures var k := 4 * (32 * z + x);
      ChunkPos(x, z) in TableUpTo(data, HEADER_ENTRIES) ==>
        TableUpTo(data, HEADER_ENTRIES)[ChunkPos(x, z)] ==
          BigEndian3(data[k], data[k + 1], data[k + 2]) * SECTOR_SIZE
  {
    TableUpToEntries(data, HEADER_ENTRIES, x, z);
  }

  /** Only positions inside the 32x32 grid are ever listed. */
  lemma TableWithinGrid(data: seq<byte>, p: ChunkPos)
    requires p in TableUpTo(data, HEADER_ENTRIES)
    ensures 0 <= p.x < 32 && 0 <= p.z < 32
    ensures TableUpTo(data, HEADER_ENTRIES)[p] > 0
    ensures TableUpTo(data, HEADER_ENTRIES)[p] % SECTOR_SIZE == 0
  {
    TableUpToEntries(data, HEADER_ENTRIES, p.x, p.z);
  }

  //// Framing one chunk record ////

  /** `(b0 << 24 | b1 << 16 | b2 << 8 | b3) - 1` in Java `int` arithmetic,
      where the four bytes are consecutive reads (so a -1 in one of them
      means -1 in every later one). */
  function FrameLength(b0: int, b1: int, b2: int, b3: int): (r: int)
    requires -1 <= b0 <= 255 && -1 <= b1 <= 255 && -1 <= b2 <= 255 && -1 <= b3 <= 255
    requires b0 < 0 ==> b1 < 0
    requires b1 < 0 ==> b2 < 0
    requires b2 < 0 ==> b3 < 0
    ensures IsInt32(r)
  {
    if b3 < 0 then -2
    else Wrap32(Wrap32(b0 * 0x100_0000 + b1 * 0x1_0000 + b2 * 0x100 + b3) - 1)
  }

  /** With a length prefix below 2^31 the payload length is the big-endian
      prefix minus one (the compression byte is counted in the prefix); a
      prefix of 0 or a prefix cut off by the end of the file gives a negative
      length. */
  lemma FrameLengthValue(b0: int, b1: int, b2: int, b3: int)
    requires -1 <= b0 <= 255 && -1 <= b1 <= 255 && -1 <= b2 <= 255 && -1 <= b3 <= 255
    requires b0 < 0 ==> b1 < 0
    requires b1 < 0 ==> b2 < 0
    requires b2 < 0 ==> b3 < 0
    ensures 0 <= b0 < 128 && b3 >= 0 ==>
      FrameLength(b0, b1, b2, b3) == b0 * 0x100_0000 + b1 * 0x1_0000 + b2 * 0x100 + b3 - 1
    ensures b3 < 0 ==> FrameLength(b0, b1, b2, b3) < 0
    ensures b0 == 0 && b1 == 0 && b2 == 0 && b3 == 0 ==> FrameLength(b0, b1, b2, b3) == -1
  {
  }

  /** What `loadChunk` gets from the file before it inflates the payload:
      no chunk (Java's null), a negative length (Java's
      NegativeArraySizeException when the buffer is allocated), or the
      compression byte and the payload buffer. */
  datatype ChunkRead =
    | NoChunk
    | NegativeLength(length: int)
    | Framed(compression: int, payload: seq<byte>)

  /** The framing `loadChunk` reads at a chunk's position before it
      inflates the payload: nothing for a position missing from `table`;
      otherwise the length is the 4-byte prefix minus one, a negative
      length is refused by the array allocation, the compression byte is
      read and ignored, and the payload is the following bytes, zero past
      the end of the file. */
  function ReadChunk(data: seq<byte>, table: map<ChunkPos, int>, pos: ChunkPos): (r: ChunkRead)
    requires forall p :: p in table ==> table[p] > 0
    ensures r.NoChunk? <==> pos !in table
    ensures pos in table ==>
      var p := table[pos];
      var len := FrameLength(ReadAt(data, p), ReadAt(data, p + 1), ReadAt(data, p + 2), ReadAt(data, p + 3));
      && (r.NegativeLength? <==> len < 0)
      && (r.NegativeLength? ==> r.length == len)
      && (r.Framed? ==> r.compression == ReadAt(data, p + 4)
                        && |r.payload| == len
                        && forall i :: 0 <= i < len ==>
                             r.payload[i] == if p + 5 + i < |data| then data[p + 5 + i] else 0)
  {
    if pos !in table then NoChunk
    else
      var p := table[pos];
      var len := FrameLength(ReadAt(data, p), ReadAt(data, p + 1), ReadAt(data, p + 2), ReadAt(data, p + 3));
      if len < 0 then NegativeLength(len) else Framed(ReadAt(data, p + 4), PayloadAt(data, p + 5, len))
  }

  /** What inflating a payload (RFC 1950) and parsing its tag tree gives,
      neither of which is part of this model: an IOException (a corrupt
      stream), another exception (a root or "Level" tag of another type),
      a root without "Level" (null), or the "Level" tag. */
  datatype Inflated = InflateFailed | ParseBroken | NoLevel | LevelTag(level: Level)

  /** What `loadChunk` gives its caller: null (no chunk), an IOException,
      a runtime exception, or the chunk's "Level" tag. */
  datatype ChunkLoad = Absent | Unreadable | Broken | Loaded(level: Level)

  /** `loadChunk` after the framing: a missing chunk or a missing "Level"
      tag is null, a negative length throws NegativeArraySizeException, and
      a framed payload gives whatever inflating and parsing it gives. */
  function ChunkLoadOf(r: ChunkRead, inflate: seq<byte> -> Inflated): ChunkLoad {
    match r
    case NoChunk => Absent
    case NegativeLength(_) => Broken
    case Framed(_, payload) =>
      match inflate(payload)
      case InflateFailed => Unreadable
      case ParseBroken => Broken
      case NoLevel => Absent
      case LevelTag(level) => Loaded(level)
  }

  /** The bytes `readFully`-style `read(buf)` leaves in a buffer of `len`
      bytes filled from position `p`: the file's bytes while they last, then
      the zeros the buffer was created with. */
  function PayloadAt(data: seq<byte>, p: nat, len: nat): (r: seq<byte>)
    ensures |r| == len
    ensures forall i :: 0 <= i < len ==> r[i] == if p + i < |data| then data[p + i] else 0
  {
    seq(len, i requires 0 <= i < len => if p + i < |data| then data[p + i] else 0)
  }

  //// Section arrays ////

  /** One entry of the "Sections" list: its index `y`, the low bytes of its
      4096 block ids, its 4-bit packed data values and its optional 4-bit
      packed "Add" array (the high bits of the block ids). */
  datatype Section = Section(y: int, blocks: seq<byte>, data: seq<byte>, add: Option<seq<byte>>)

  /** The parsed "Level" tag: an optional 256-byte "Biomes" array and the
      entries of "Sections" (a missing list is an empty one). */
  datatype Level = Level(biomes: Option<seq<byte>>, sections: seq<Section>)

  /** The section's arrays are long enough for 4096 cells. */
  predicate ArraysFit(s: Section) {
    && |s.blocks| >= SECTION_VOLUME
    && |s.data| >= SECTION_VOLUME / 2
    && (s.add.Some? ==> |s.add.value| >= SECTION_VOLUME / 2)
  }

  /** `loadChunkData` gets through section `s` without an index error: its
      Y names a row of both section buffers and a used flag, and each of
      its 4096 cells can be read from its arrays and stored in the rows. */
  predicate SectionLoads(s: Section, blockIds: array2<int>, blockData: array2<byte>, used: array<bool>) {
    && 0 <= s.y && s.y < blockIds.Length0 && s.y < blockData.Length0 && s.y < used.Length
    && ArraysFit(s) && blockIds.Length1 >= SECTION_VOLUME && blockData.Length1 >= SECTION_VOLUME
  }

  /** The biome ids can be copied or filled without an index error. */
  predicate BiomesLoad(biomes: Option<seq<byte>>, biomeIds: array<byte>) {
    biomeIds.Length >= BIOME_COUNT && (biomes.Some? ==> |biomes.value| >= BIOME_COUNT)
  }

  /** `loadChunkData` returns normally: the used flags it clears exist, the
      biome ids load, and so does every listed section. */
  predicate LevelLoads(level: Level, maxSectionCount: int, blockIds: array2<int>, blockData: array2<byte>,
                       used: array<bool>, biomeIds: array<byte>) {
    && maxSectionCount <= used.Length
    && BiomesLoad(level.biomes, biomeIds)
    && forall k :: 0 <= k < |level.sections| ==> SectionLoads(level.sections[k], blockIds, blockData, used)
  }

  /** A section that names one of `slots` slots and holds full arrays. */
  predicate SectionFits(s: Section, slots: nat) {
    0 <= s.y < slots && ArraysFit(s)
  }

  /** A chunk that loads into `slots` rows of 4096 cells, `slots` used
      flags and 256 biome ids: its biome array, if any, holds 256 ids and
      every section fits. */
  predicate LevelFits(level: Level, slots: nat) {
    && (level.biomes.Some? ==> |level.biomes.value| >= BIOME_COUNT)
    && forall k :: 0 <= k < |level.sections| ==> SectionFits(level.sections[k], slots)
  }

  /** For buffers of `slots` rows of 4096 cells, `slots` flags and 256
      biome ids, with all flags cleared, a chunk loads iff it fits. */
  lemma LevelLoadsIffFits(level: Level, slots: nat, blockIds: array2<int>, blockData: array2<byte>,
                          used: array<bool>, biomeIds: array<byte>)
    requires blockIds.Length0 == slots && blockIds.Length1 == SECTION_VOLUME
    requires blockData.Length0 == slots && blockData.Length1 == SECTION_VOLUME
    requires used.Length == slots && biomeIds.Length == BIOME_COUNT
    ensures LevelLoads(level, slots, blockIds, blockData, used, biomeIds) <==> LevelFits(level, slots)
  {
    if LevelFits(level, slots) {
      forall k | 0 <= k < |level.sections|
        ensures SectionLoads(level.sections[k], blockIds, blockData, used)
      {
        assert SectionFits(level.sections[k], slots);
      }
    }
    if LevelLoads(level, slots, blockIds, blockData, used, biomeIds) {
      forall k | 0 <= k < |level.sections|
        ensures SectionFits(level.sections[k], slots)
      {
        assert SectionLoads(level.sections[k], blockIds, blockData, used);
      }
    }
  }

  /** The 4-bit value number `index` of a packed array: the low half of byte
      index/2 for an even index, the high half for an odd one. */
  function Nybble(arr: seq<byte>, index: nat): (r: int)
    requires index / 2 < |arr|
    ensures 0 <= r < 16
  {
    if index % 2 == 0 then arr[index / 2] as int % 16 else arr[index / 2] as int / 16
  }

  /** `lo | hi << 4`: two 4-bit values in one byte. */
  function PackNybbles(lo: int, hi: int): (b: byte)
    requires 0 <= lo < 16 && 0 <= hi < 16
  {
    (lo + 16 * hi) as byte
  }

  /** Unpacking a packed pair gives back both halves, in order. */
  lemma NybbleRoundTrip(arr: seq<byte>, k: nat, lo: int, hi: int)
    requires k < |arr| && 0 <= lo < 16 && 0 <= hi < 16
    requires arr[k] == PackNybbles(lo, hi)
    ensures Nybble(arr, 2 * k) == lo && Nybble(arr, 2 * k + 1) == hi
  {
  }

  /** Every byte is the packing of its two nybbles, so packing what was
      unpacked gives the byte back. */
  lemma NybblePackRoundTrip(arr: seq<byte>, k: nat)
    requires k < |arr|
    ensures PackNybbles(Nybble(arr, 2 * k), Nybble(arr, 2 * k + 1)) == arr[k]
  {
  }

  /** The block id `loadChunkData` stores for cell `index` of a section: the
      low byte, with the "Add" nybble as bits 8..11 when that array exists. */
  function BlockIdAt(s: Section, index: nat): (id: int)
    requires index < SECTION_VOLUME && ArraysFit(s)
    ensures 0 <= id < 4096
    ensures id % 256 == s.blocks[index] as int
    ensures id / 256 == if s.add.Some? then Nybble(s.add.value, index) else 0
  {
    var low := s.blocks[index] as int;
    if s.add.Some? then low + Nybble(s.add.value, index) * 256 else low
  }

  /** The data value `loadChunkData` stores for cell `index`. */
  function DataAt(s: Section, index: nat): (d: byte)
    requires index < SECTION_VOLUME && ArraysFit(s)
    ensures d < 16
  {
    Nybble(s.data, index) as byte
  }

  /** The last entry of `sections` whose index is `y`: the one whose arrays
      are left in slot `y` when the list is unpacked in order. */
  function LastSection(sections: seq<Section>, y: int): (r: Option<Section>)
    ensures r.Some? ==> r.value in sections && r.value.y == y
    ensures r.None? <==> forall k :: 0 <= k < |sections| ==> sections[k].y != y
  {
    if sections == [] then None
    else if sections[|sections| - 1].y == y then Some(sections[|sections| - 1])
    else LastSection(sections[..|sections| - 1], y)
  }

  /** Slot `y` is marked used exactly when some section lists index `y`. */
  predicate HasSection(level: Level, y: int) {
    exists k :: 0 <= k < |level.sections| && level.sections[k].y == y
  }

  /** A later section with the same index wins over every earlier one. */
  lemma LastSectionOverrides(sections: seq<Section>, s: Section)
    ensures LastSection(sections + [s], s.y) == Some(s)
    ensures forall y :: y != s.y ==> LastSection(sections + [s], y) == LastSection(sections, y)
  {
    assert (sections + [s])[..|sections|] == sections;
  }

  /** One turn of the sections loop: the rows for `s.y` are looked up and
      the slot is marked used, then the 4096 cells, index y * 256 + z * 16
      + x, are copied into the rows. It fails, as `loadChunkData` throws, when Y
      names no row or flag, or when a cell cannot be read or stored; the
      cells copied before that are never read afterwards and are not
      stated. Every other slot is left alone. */
  method UnpackSection(s: Section, blockIds: array2<int>, blockData: array2<byte>, used: array<bool>)
    returns (ok: bool)
    modifies blockIds, blockData, used
    ensures ok <==> SectionLoads(s, blockIds, blockData, used)
    ensures ok ==> forall t :: 0 <= t < used.Length ==> used[t] == (t == s.y || old(used[t]))
    ensures ok ==> forall t, i :: 0 <= t < blockIds.Length0 && 0 <= i < blockIds.Length1 ==>
      blockIds[t, i] == if t == s.y && i < SECTION_VOLUME then BlockIdAt(s, i) else old(blockIds[t, i])
    ensures ok ==> forall t, i :: 0 <= t < blockData.Length0 && 0 <= i < blockData.Length1 ==>
      blockData[t, i] == if t == s.y && i < SECTION_VOLUME then DataAt(s, i) else old(blockData[t, i])
  {
    if !(0 <= s.y && s.y < blockIds.Length0 && s.y < blockData.Length0 && s.y < used.Length) {
      return false;
    }
    used[s.y] := true;
    if !(ArraysFit(s) && blockIds.Length1 >= SECTION_VOLUME && blockData.Length1 >= SECTION_VOLUME) {
      return false;
    }
    for y := 0 to 16
      modifies blockIds, blockData
      invariant forall t, i :: 0 <= t < blockIds.Length0 && 0 <= i < blockIds.Length1 ==>
        blockIds[t, i] == if t == s.y && i < y * 256 then BlockIdAt(s, i) else old(blockIds[t, i])
      invariant forall t, i :: 0 <= t < blockData.Length0 && 0 <= i < blockData.Length1 ==>
        blockData[t, i] == if t == s.y && i < y * 256 then DataAt(s, i) else old(blockData[t, i])
    {
      for z := 0 to 16
        invariant forall t, i :: 0 <= t < blockIds.Length0 && 0 <= i < blockIds.Length1 ==>
          blockIds[t, i] == if t == s.y && i < y * 256 + z * 16 then BlockIdAt(s, i) else old(blockIds[t, i])
        invariant forall t, i :: 0 <= t < blockData.Length0 && 0 <= i < blockData.Length1 ==>
          blockData[t, i] == if t == s.y && i < y * 256 + z * 16 then DataAt(s, i) else old(blockData[t, i])
      {
        for x := 0 to 16
          invariant forall t, i :: 0 <= t < blockIds.Length0 && 0 <= i < blockIds.Length1 ==>
            blockIds[t, i] == if t == s.y && i < y * 256 + z * 16 + x then BlockIdAt(s, i) else old(blockIds[t, i])
          invariant forall t, i :: 0 <= t < blockData.Length0 && 0 <= i < blockData.Length1 ==>
            blockData[t, i] == if t == s.y && i < y * 256 + z * 16 + x then DataAt(s, i) else old(blockData[t, i])
        {
          var index := y * 256 + z * 16 + x;
          var blockType := s.blocks[index] as int;
          if s.add.Some? {
            blockType := blockType + Nybble(s.add.value, index) * 256;
          }
          blockIds[s.y, index] := blockType;
          blockData[s.y, index] := Nybble(s.data, index) as byte;
        }
      }
    }
    return true;
  }

  /** `loadChunkData`: clears the first `maxSectionCount` used flags, copies
      or fills the 256 biome ids, and unpacks every listed section into its
      slot in list order. Slots no section names keep whatever they held.
      It fails exactly where `loadChunkData` throws an index exception: more
      flags to clear than there are, a short biome array or biome buffer,
      or a section that does not load. What the buffers hold after a
      failure is not stated. */
  method LoadChunkData(level: Level, maxSectionCount: int, blockIds: array2<int>,
                       blockData: array2<byte>, used: array<bool>, biomeIds: array<byte>) returns (ok: bool)
    modifies blockIds, blockData, used, biomeIds
    ensures ok <==> LevelLoads(level, maxSectionCount, blockIds, blockData, used, biomeIds)
    ensures ok ==> forall t :: 0 <= t < used.Length ==>
      used[t] == (HasSection(level, t) || (t >= maxSectionCount && old(used[t])))
    ensures ok ==> forall i :: 0 <= i < biomeIds.Length ==>
      biomeIds[i] == if i >= BIOME_COUNT then old(biomeIds[i])
                     else if level.biomes.Some? then level.biomes.value[i] else 0xFF
    ensures ok ==> forall t, i :: 0 <= t < blockIds.Length0 && 0 <= i < blockIds.Length1 ==>
      blockIds[t, i] == match LastSection(level.sections, t)
                          case Some(s) => if i < SECTION_VOLUME then BlockIdAt(s, i) else old(blockIds[t, i])
                          case None => old(blockIds[t, i])
    ensures ok ==> forall t, i :: 0 <= t < blockData.Length0 && 0 <= i < blockData.Length1 ==>
      blockData[t, i] == match LastSection(level.sections, t)
                           case Some(s) => if i < SECTION_VOLUME then DataAt(s, i) else old(blockData[t, i])
                           case None => old(blockData[t, i])
  {
    ClearUsed(used, if maxSectionCount < 0 then 0 else if maxSectionCount > used.Length then used.Length else maxSectionCount);
    if maxSectionCount > used.Length {
      return false;
    }
    ok := FillBiomes(level, biomeIds);
    if !ok {
      return false;
    }
    ok := UnpackSections(level, blockIds, blockData, used);
  }

  /** The first `n` used flags are cleared. */
  method ClearUsed(used: array<bool>, n: nat)
    requires n <= used.Length
    modifies used
    ensures forall t :: 0 <= t < used.Length ==> used[t] == (t >= n && old(used[t]))
  {
    for i := 0 to n
      invariant forall t :: 0 <= t < used.Length ==> used[t] == (t >= i && old(used[t]))
    {
      used[i] := false;
    }
  }

  /** The chunk's 256 biome ids are copied, or 0xFF stored when it has none.
      A copy from a short array or into a short buffer fails before it
      writes anything; the fill of a short buffer fails once it has filled
      the whole buffer. */
  method FillBiomes(level: Level, biomeIds: array<byte>) returns (ok: bool)
    modifies biomeIds
    ensures ok <==> BiomesLoad(level.biomes, biomeIds)
    ensures forall i :: 0 <= i < biomeIds.Length ==>
      biomeIds[i] == if i >= BIOME_COUNT || (level.biomes.Some? && !ok) then old(biomeIds[i])
                     else if level.biomes.Some? then level.biomes.value[i] else 0xFF
  {
    if level.biomes.Some? {
      var src := level.biomes.value;
      if |src| < BIOME_COUNT || biomeIds.Length < BIOME_COUNT {
        return false;
      }
      forall i | 0 <= i < BIOME_COUNT {
        biomeIds[i] := src[i];
      }
    } else {
      for i := 0 to BIOME_COUNT
        invariant i <= biomeIds.Length
        invariant forall j :: 0 <= j < biomeIds.Length ==>
          biomeIds[j] == if j < i then 0xFF else old(biomeIds[j])
      {
        if i >= biomeIds.Length {
          return false;
        }
        biomeIds[i] := 0xFF;
      }
    }
    return true;
  }

  /** Every listed section, in list order, is unpacked into its slot and
      marks the slot used; the first section that does not load stops
      the loop with a failure. */
  method UnpackSections(level: Level, blockIds: array2<int>, blockData: array2<byte>, used: array<bool>)
    returns (ok: bool)
    modifies blockIds, blockData, used
    ensures ok <==> forall k :: 0 <= k < |level.sections| ==> SectionLoads(level.sections[k], blockIds, blockData, used)
    ensures ok ==> forall t :: 0 <= t < used.Length ==> used[t] == (HasSection(level, t) || old(used[t]))
    ensures ok ==> forall t, i :: 0 <= t < blockIds.Length0 && 0 <= i < blockIds.Length1 ==>
      blockIds[t, i] == match LastSection(level.sections, t)
                          case Some(s) => if i < SECTION_VOLUME then BlockIdAt(s, i) else old(blockIds[t, i])
                          case None => old(blockIds[t, i])
    ensures ok ==> forall t, i :: 0 <= t < blockData.Length0 && 0 <= i < blockData.Length1 ==>
      blockData[t, i] == match LastSection(level.sections, t)
                           case Some(s) => if i < SECTION_VOLUME then DataAt(s, i) else old(blockData[t, i])
                           case None => old(blockData[t, i])
  {
    var sections := level.sections;
    for k := 0 to |sections|
      invariant forall j :: 0 <= j < k ==> SectionLoads(sections[j], blockIds, blockData, used)
      invariant forall t :: 0 <= t < used.Length ==>
        used[t] == ((exists j :: 0 <= j < k && sections[j].y == t) || old(used[t]))
      invariant forall t, i :: 0 <= t < blockIds.Length0 && 0 <= i < blockIds.Length1 ==>
        blockIds[t, i] == match LastSection(sections[..k], t)
                            case Some(s) => if i < SECTION_VOLUME then BlockIdAt(s, i) else old(blockIds[t, i])
                            case None => old(blockIds[t, i])
      invariant forall t, i :: 0 <= t < blockData.Length0 && 0 <= i < blockData.Length1 ==>
        blockData[t, i] == match LastSection(sections[..k], t)
                             case Some(s) => if i < SECTION_VOLUME then DataAt(s, i) else old(blockData[t, i])
                             case None => old(blockData[t, i])
    {
      var s := sections[k];
      var loaded := UnpackSection(s, blockIds, blockData, used);
      if !loaded {
        return false;
      }
      LastSectionOverrides(sections[..k], s);
      assert sections[..k + 1] == sections[..k] + [s];
    }
    assert sections[..|sections|] == sections;
    return true;
  }

  /** The constructor's header loop: the 1024 entries, z outer and x
      inner, keeping the positions whose offset is positive. */
  method ReadHeader(data: seq<byte>) returns (positions: map<ChunkPos, int>)
    ensures positions == TableUpTo(data, HEADER_ENTRIES)
  {
    positions := map[];
    for z := 0 to CHUNKS_PER_SIDE
      invariant positions == TableUpTo(data, 32 * z)
    {
      for x := 0 to CHUNKS_PER_SIDE
        invariant positions == TableUpTo(data, 32 * z + x)
      {
        var i := 32 * z + x;
        var chunkPos := SectorOffset(ReadAt(data, 4 * i), ReadAt(data, 4 * i + 1), ReadAt(data, 4 * i + 2));
        DivModOf(i, 32, z, x);
        if chunkPos > 0 {
          positions := positions[ChunkPos(x, z) := chunkPos * SECTOR_SIZE];
        }
      }
    }
  }

  /** An open region file: its contents and the chunk-position table read
      from its header. */
  class RegionFile {
    const data: seq<byte>
    var chunkPositions: map<ChunkPos, int>

    /** Every listed chunk lies at a positive, sector-aligned position. */
    predicate Valid()
      reads this
    {
      forall p :: p in chunkPositions ==> chunkPositions[p] > 0 && chunkPositions[p] % SECTOR_SIZE == 0
    }

    /** Reads the header; every listed position is valid. */
    constructor (data: seq<byte>)
      ensures this.data == data
      ensures chunkPositions == TableUpTo(data, HEADER_ENTRIES)
      ensures Valid()
    {
      this.data := data;
      var positions := ReadHeader(data);
      forall p | p in positions
        ensures positions[p] > 0 && positions[p] % SECTOR_SIZE == 0
      {
        TableWithinGrid(data, p);
      }
      chunkPositions := positions;
    }

    /** `loadChunk`: an unlisted position reads nothing; otherwise the
        4-byte length prefix minus one sizes the payload buffer, the
        compression byte is read and ignored, and the payload is inflated
        and parsed by `inflate`. */
    method LoadChunk(pos: ChunkPos, inflate: seq<byte> -> Inflated) returns (r: ChunkLoad)
      requires Valid()
      ensures r == ChunkLoadOf(ReadChunk(data, chunkPositions, pos), inflate)
      ensures pos !in chunkPositions ==> r.Absent?
    {
      if pos !in chunkPositions {
        return Absent;
      }
      var p := chunkPositions[pos];
      var chunkLength := FrameLength(ReadAt(data, p), ReadAt(data, p + 1), ReadAt(data, p + 2), ReadAt(data, p + 3));
      var compression := ReadAt(data, p + 4);
      if chunkLength < 0 {
        return Broken;
      }
      var buf := PayloadAt(data, p + 5, chunkLength);
      match inflate(buf)
      case InflateFailed => r := Unreadable;
      case ParseBroken => r := Broken;
      case NoLevel => r := Absent;
      case LevelTag(level) => r := Loaded(level);
    }

    /** `close` forgets every chunk position, so later lookups find nothing. */
    method Close()
      modifies this
      ensures chunkPositions == map[] && Valid()
    {
      chunkPositions := map[];
    }
  }
}
