/** The streamOptimized VMDK format: a finished file as a function of the writes. */
module StreamVmdk {
  import opened Bytes

  const VMDK_MAGIC: u32 := 0x564D444B
  const GRAIN_SIZE: nat := 128
  const GRAIN_BYTES: nat := GRAIN_SIZE * SECTOR_SIZE
  const GTES_PER_GT: nat := 512
  const STREAM_OPTIMIZED_FLAGS: u32 := 0x30001
  const GD_AT_END: u64 := 0xFFFF_FFFF_FFFF_FFFF

  type NewlineChars = s: seq<byte> | |s| == 4 witness [10, 32, 13, 10]

  datatype SparseExtentHeader = SparseExtentHeader(
    magic: u32,
    version: u32,
    flags: u32,
    capacity: u64,
    grainSize: u64,
    descriptorOffset: u64,
    descriptorSize: u64,
    numGtesPerGt: u32,
    rgdOffset: u64,
    gdOffset: u64,
    overhead: u64,
    uncleanShutdown: byte,
    newlineChars: NewlineChars,
    compressAlgorithm: u16)

  function NewHeader(capacityBytes: u64): SparseExtentHeader {
    SparseExtentHeader(VMDK_MAGIC, 3, STREAM_OPTIMIZED_FLAGS, capacityBytes / SECTOR_SIZE, GRAIN_SIZE,
                       0, 0, GTES_PER_GT, 0, GD_AT_END, 0, 0, [10, 32, 13, 10], 1)
  }

  function AsFooter(h: SparseExtentHeader, gdOffset: u64): SparseExtentHeader {
    h.(gdOffset := gdOffset)
  }

  /** The header as the format lays it out: packed little-endian fields, then zeros up to one sector. */
  function HeaderBytes(h: SparseExtentHeader): (s: seq<byte>)
    ensures |s| == SECTOR_SIZE
  {
    Le(h.magic, 4) + (Le(h.version, 4) + (Le(h.flags, 4) + (Le(h.capacity, 8) + (Le(h.grainSize, 8)
    + (Le(h.descriptorOffset, 8) + (Le(h.descriptorSize, 8) + (Le(h.numGtesPerGt, 4)
    + (Le(h.rgdOffset, 8) + (Le(h.gdOffset, 8) + (Le(h.overhead, 8) + ([h.uncleanShutdown]
    + (h.newlineChars + (Le(h.compressAlgorithm, 2) + Zeros(433))))))))))))))
  }

  /** Every field sits at its documented offset. */
  lemma HeaderLayout(h: SparseExtentHeader)
    ensures var s := HeaderBytes(h);
            && Holds(s, 0, Le(h.magic, 4)) && Holds(s, 4, Le(h.version, 4)) && Holds(s, 8, Le(h.flags, 4))
            && Holds(s, 12, Le(h.capacity, 8)) && Holds(s, 20, Le(h.grainSize, 8))
            && Holds(s, 28, Le(h.descriptorOffset, 8)) && Holds(s, 36, Le(h.descriptorSize, 8))
            && Holds(s, 44, Le(h.numGtesPerGt, 4)) && Holds(s, 48, Le(h.rgdOffset, 8))
            && Holds(s, 56, Le(h.gdOffset, 8)) && Holds(s, 64, Le(h.overhead, 8))
            && Holds(s, 72, [h.uncleanShutdown]) && Holds(s, 73, h.newlineChars)
            && Holds(s, 77, Le(h.compressAlgorithm, 2)) && Holds(s, 79, Zeros(433))
  {
    var t13 := Le(h.compressAlgorithm, 2) + Zeros(433);
    var t12 := h.newlineChars + t13;
    var t11 := [h.uncleanShutdown] + t12;
    var t10 := Le(h.overhead, 8) + t11;
    var t9 := Le(h.gdOffset, 8) + t10;
    var t8 := Le(h.rgdOffset, 8) + t9;
    var t7 := Le(h.numGtesPerGt, 4) + t8;
    var t6 := Le(h.descriptorSize, 8) + t7;
    var t5 := Le(h.descriptorOffset, 8) + t6;
    var t4 := Le(h.grainSize, 8) + t5;
    var t3 := Le(h.capacity, 8) + t4;
    var t2 := Le(h.flags, 4) + t3;
    var t1 := Le(h.version, 4) + t2;
    var s := HeaderBytes(h);
    assert s == Le(h.magic, 4) + t1;
    assert Holds(s, 0, s);
    HoldsParts(s, 0, Le(h.magic, 4), t1);
    HoldsParts(s, 4, Le(h.version, 4), t2);
    HoldsParts(s, 8, Le(h.flags, 4), t3);
    HoldsParts(s, 12, Le(h.capacity, 8), t4);
    HoldsParts(s, 20, Le(h.grainSize, 8), t5);
    HoldsParts(s, 28, Le(h.descriptorOffset, 8), t6);
    HoldsParts(s, 36, Le(h.descriptorSize, 8), t7);
    HoldsParts(s, 44, Le(h.numGtesPerGt, 4), t8);
    HoldsParts(s, 48, Le(h.rgdOffset, 8), t9);
    HoldsParts(s, 56, Le(h.gdOffset, 8), t10);
    HoldsParts(s, 64, Le(h.overhead, 8), t11);
    HoldsParts(s, 72, [h.uncleanShutdown], t12);
    HoldsParts(s, 73, h.newlineChars, t13);
    HoldsParts(s, 77, Le(h.compressAlgorithm, 2), Zeros(433));
  }

  /** The bytes every header must show, the directory offset apart: "KDMV", version 3, flags, the capacity in sectors,
      128-sector grains, no descriptor, 512 entries a table, no redundant directory, no overhead, the line-end probe and
      DEFLATE. */
  ghost predicate HeaderShows(s: seq<byte>, at: nat, capacitySectors: nat, gdOffset: seq<byte>) {
    && Holds(s, at, [0x4B, 0x44, 0x4D, 0x56]) && Holds(s, at + 4, [3, 0, 0, 0]) && Holds(s, at + 8, [1, 0, 3, 0])
    && Holds(s, at + 12, Le(capacitySectors, 8)) && Holds(s, at + 20, [128, 0, 0, 0, 0, 0, 0, 0])
    && Holds(s, at + 28, Zeros(8)) && Holds(s, at + 36, Zeros(8)) && Holds(s, at + 44, [0, 2, 0, 0])
    && Holds(s, at + 48, Zeros(8)) && Holds(s, at + 56, gdOffset) && Holds(s, at + 64, Zeros(8)) && Holds(s, at + 72, [0])
    && Holds(s, at + 73, [10, 32, 13, 10]) && Holds(s, at + 77, [1, 0]) && Holds(s, at + 79, Zeros(433))
  }

  lemma NewHeaderShows(capacityBytes: u64, gdOffset: u64)
    ensures HeaderShows(HeaderBytes(AsFooter(NewHeader(capacityBytes), gdOffset)), 0, capacityBytes / 512, Le(gdOffset, 8))
  {
    hide HeaderBytes, Holds, Le;
    HeaderLayout(AsFooter(NewHeader(capacityBytes), gdOffset));
    HeaderWords();
  }

  /** The words of a header in little-endian bytes. */
  lemma HeaderWords()
    ensures Le(0x564D444B, 4) == [0x4B, 0x44, 0x4D, 0x56] && Le(3, 4) == [3, 0, 0, 0] && Le(0x30001, 4) == [1, 0, 3, 0]
    ensures Le(128, 8) == [128, 0, 0, 0, 0, 0, 0, 0] && Le(512, 4) == [0, 2, 0, 0] && Le(0, 8) == Zeros(8)
    ensures Le(0xFFFF_FFFF_FFFF_FFFF, 8) == [255, 255, 255, 255, 255, 255, 255, 255]
    ensures Le(1, 8) == [1, 0, 0, 0, 0, 0, 0, 0] && Le(1, 2) == [1, 0]
  {
    hide LeByte, Le;
    FourBytes(0x564D444B);
    FourBytes(3);
    FourBytes(0x30001);
    EightBytes(128);
    FourBytes(512);
    EightBytes(0);
    assert Zeros(8) == [0, 0, 0, 0, 0, 0, 0, 0];
    EightBytes(0xFFFF_FFFF_FFFF_FFFF);
    EightBytes(1);
    FourBytes(1);
  }

  lemma FourBytes(n: nat)
    ensures Le(n, 4) == [n % 256, n / 0x100 % 256, n / 0x1_0000 % 256, n / 0x100_0000 % 256]
    ensures Le(n, 2) == [n % 256, n / 0x100 % 256]
  {
    hide LeByte;
    LowBytes(n);
  }

  lemma EightBytes(n: nat)
    ensures Le(n, 8)
         == [n % 256, n / 0x100 % 256, n / 0x1_0000 % 256, n / 0x100_0000 % 256, n / 0x1_0000_0000 % 256,
             n / 0x100_0000_0000 % 256, n / 0x1_0000_0000_0000 % 256, n / 0x100_0000_0000_0000 % 256]
  {
    hide LeByte;
    LowBytes(n);
  }

  lemma LowBytes(n: nat)
    ensures LeByte(n, 0) == n % 256 && LeByte(n, 1) == n / 0x100 % 256 && LeByte(n, 2) == n / 0x1_0000 % 256
    ensures LeByte(n, 3) == n / 0x100_0000 % 256 && LeByte(n, 4) == n / 0x1_0000_0000 % 256
    ensures LeByte(n, 5) == n / 0x100_0000_0000 % 256 && LeByte(n, 6) == n / 0x1_0000_0000_0000 % 256
    ensures LeByte(n, 7) == n / 0x100_0000_0000_0000 % 256
  {
    assert Pow256(0) == 1 && Pow256(1) == 0x100;
    assert Pow256(2) == 0x1_0000;
    assert Pow256(3) == 0x100_0000;
    assert Pow256(4) == 0x1_0000_0000;
    assert Pow256(5) == 0x100_0000_0000;
    assert Pow256(6) == 0x1_0000_0000_0000;
    assert Pow256(7) == 0x100_0000_0000_0000;
  }

  /** Serialisation fills a zeroed sector field by field and reaches the packed layout. */
  method SerializeHeader(h: SparseExtentHeader) returns (bytes: seq<byte>)
    ensures bytes == HeaderBytes(h)
  {
    hide HeaderBytes, Le, Holds, FilledTo;
    ghost var s := HeaderBytes(h);
    HeaderLayout(h);
    var buf := new byte[SECTOR_SIZE](i => 0);
    FillStart(buf[..], s);
    PutField(buf, s, 0, Le(h.magic, 4));
    PutField(buf, s, 4, Le(h.version, 4));
    PutField(buf, s, 8, Le(h.flags, 4));
    PutField(buf, s, 12, Le(h.capacity, 8));
    PutField(buf, s, 20, Le(h.grainSize, 8));
    PutField(buf, s, 28, Le(h.descriptorOffset, 8));
    PutField(buf, s, 36, Le(h.descriptorSize, 8));
    PutField(buf, s, 44, Le(h.numGtesPerGt, 4));
    PutField(buf, s, 48, Le(h.rgdOffset, 8));
    PutField(buf, s, 56, Le(h.gdOffset, 8));
    PutField(buf, s, 64, Le(h.overhead, 8));
    PutField(buf, s, 72, [h.uncleanShutdown]);
    PutField(buf, s, 73, h.newlineChars);
    PutField(buf, s, 77, Le(h.compressAlgorithm, 2));
    FillSkip(buf[..], s, 79, 433);
    FillEnd(buf[..], s);
    bytes := buf[..];
  }

  datatype MarkerType = EndOfStream | GrainTable | GrainDirectory | Footer {
    function Code(): (c: nat)
      ensures c < 4
    {
      match this
      case EndOfStream => 0
      case GrainTable => 1
      case GrainDirectory => 2
      case Footer => 3
    }
  }

  /** A metadata marker: sector count, a zero size, the type, and padding to one sector. */
  function MarkerBytes(t: MarkerType, numSectors: nat): (s: seq<byte>)
    ensures |s| == SECTOR_SIZE
  {
    Le(numSectors, 8) + (Le(0, 4) + (Le(t.Code(), 4) + Zeros(496)))
  }

  /** A marker announces its sectors, an empty payload and its type: 1 a table, 2 the directory, 3 the footer. The end of
      the stream is all zeros. */
  lemma MarkersShow(n: nat)
    ensures Holds(MarkerBytes(GrainTable, n), 0, Le(n, 8) + [0, 0, 0, 0, 1, 0, 0, 0])
    ensures Holds(MarkerBytes(GrainDirectory, n), 0, Le(n, 8) + [0, 0, 0, 0, 2, 0, 0, 0])
    ensures Holds(MarkerBytes(Footer, n), 0, Le(n, 8) + [0, 0, 0, 0, 3, 0, 0, 0])
    ensures MarkerBytes(EndOfStream, 0) == Zeros(512)
  {
    hide LeByte;
    FourBytes(0);
    FourBytes(1);
    FourBytes(2);
    FourBytes(3);
    EightBytes(0);
    assert Le(0, 4) == [0, 0, 0, 0] && Le(1, 4) == [1, 0, 0, 0] && Le(2, 4) == [2, 0, 0, 0] && Le(3, 4) == [3, 0, 0, 0];
  }

  datatype Grain = Grain(lba: u64, data: seq<byte>)

  function GrainIndex(g: Grain): nat {
    g.lba / GRAIN_SIZE
  }

  /** A grain as stored: 12-byte marker (LBA, size cast to u32), payload, padding to a sector. */
  function GrainRecord(g: Grain): (s: seq<byte>)
    ensures |s| % SECTOR_SIZE == 0 && |s| >= SECTOR_SIZE
  {
    PadToSector(Le(g.lba, 8) + (Le(AsU32(|g.data|), 4) + g.data))
  }

  /** The records of a history of writes, oldest first. */
  function Body(gs: seq<Grain>): (s: seq<byte>)
    ensures |s| % SECTOR_SIZE == 0
  {
    if gs == [] then []
    else
      var init, record := Body(gs[..|gs| - 1]), GrainRecord(gs[|gs| - 1]);
      AlignedSum(|init|, |record|);
      init + record
  }

  /** Sector at which the next record lands after the header and the records of `gs`. */
  function NextSector(gs: seq<Grain>): nat {
    (SECTOR_SIZE + |Body(gs)|) / SECTOR_SIZE
  }

  /** What the writer remembers: grain index to sector of the last record for it. */
  function Offsets(gs: seq<Grain>): map<nat, nat> {
    if gs == [] then map[]
    else
      var init, last := gs[..|gs| - 1], gs[|gs| - 1];
      Offsets(init)[GrainIndex(last) := NextSector(init)]
  }

  /** The simple map the index must agree with: grain index to the last grain written there. */
  function Latest(gs: seq<Grain>): map<nat, Grain> {
    if gs == [] then map[]
    else
      var init, last := gs[..|gs| - 1], gs[|gs| - 1];
      Latest(init)[GrainIndex(last) := last]
  }

  function NumGrains(capacitySectors: nat): nat {
    (capacitySectors + GRAIN_SIZE - 1) / GRAIN_SIZE
  }

  function NumGts(capacitySectors: nat): nat {
    (NumGrains(capacitySectors) + GTES_PER_GT - 1) / GTES_PER_GT
  }

  /** A table entry: the recorded sector cast to u32, or zero where nothing was written. */
  function Entry(offsets: map<nat, nat>, g: nat): nat {
    if g in offsets then AsU32(offsets[g]) else 0
  }

  function Entries(offsets: map<nat, nat>, t: nat): (es: seq<nat>)
    ensures |es| == GTES_PER_GT
    ensures forall j | 0 <= j < GTES_PER_GT :: es[j] == Entry(offsets, t * GTES_PER_GT + j)
  {
    seq<nat>(GTES_PER_GT, (j: nat) => Entry(offsets, t * GTES_PER_GT + j))
  }

  predicate AnyNonZero(es: seq<nat>) {
    exists i | 0 <= i < |es| :: es[i] != 0
  }

  /** One grain table: marker and entries, or nothing at all when every entry is zero. */
  function TableRegion(offsets: map<nat, nat>, t: nat): (s: seq<byte>)
    ensures |s| == if AnyNonZero(Entries(offsets, t)) then 5 * SECTOR_SIZE else 0
    ensures |s| % SECTOR_SIZE == 0
  {
    if AnyNonZero(Entries(offsets, t)) then MarkerBytes(GrainTable, 4) + Words(Entries(offsets, t)) else []
  }

  function Tables(offsets: map<nat, nat>, n: nat): (s: seq<byte>)
    ensures |s| % SECTOR_SIZE == 0
  {
    if n == 0 then []
    else
      var init, region := Tables(offsets, n - 1), TableRegion(offsets, n - 1);
      AlignedSum(|init|, |region|);
      init + region
  }

  /** Directory entry of table `t` when its region starts at byte `pos`: the sector after its marker, or 0. */
  function TableSector(offsets: map<nat, nat>, t: nat, pos: nat): nat {
    if AnyNonZero(Entries(offsets, t)) then (pos + SECTOR_SIZE) / SECTOR_SIZE else 0
  }

  /** Directory entries of the first `n` tables when the table area starts at byte `base`. */
  function TableOffsets(offsets: map<nat, nat>, n: nat, base: nat): (os: seq<nat>)
    ensures |os| == n
  {
    if n == 0 then []
    else TableOffsets(offsets, n - 1, base) + [TableSector(offsets, n - 1, base + |Tables(offsets, n - 1)|)]
  }

  function DirectoryBytes(tableOffsets: seq<nat>): (s: seq<byte>)
    ensures |s| % SECTOR_SIZE == 0 && |s| == (|tableOffsets| * 4 + SECTOR_SIZE - 1) / SECTOR_SIZE * SECTOR_SIZE
  {
    PadToSector(Words(tableOffsets))
  }

  /** Everything up to the directory's own marker. */
  function BeforeDirectory(capacityBytes: u64, gs: seq<Grain>): (s: seq<byte>)
    ensures |s| % SECTOR_SIZE == 0 && |s| >= SECTOR_SIZE
  {
    var body, tables := Body(gs), Tables(Offsets(gs), NumGts(capacityBytes / SECTOR_SIZE));
    AlignedSum(|body|, |tables|);
    AlignedSum(SECTOR_SIZE, |body| + |tables|);
    HeaderBytes(NewHeader(capacityBytes)) + body + tables
  }

  /** The sector recorded as the directory's place: the one after its marker. */
  function DirectorySector(capacityBytes: u64, gs: seq<Grain>): nat {
    (|BeforeDirectory(capacityBytes, gs)| + SECTOR_SIZE) / SECTOR_SIZE
  }

  function Directory(capacityBytes: u64, gs: seq<Grain>): (os: seq<nat>)
    ensures |os| == NumGts(capacityBytes / SECTOR_SIZE)
  {
    TableOffsets(Offsets(gs), NumGts(capacityBytes / SECTOR_SIZE), SECTOR_SIZE + |Body(gs)|)
  }

  function FooterHeader(capacityBytes: u64, gs: seq<Grain>): SparseExtentHeader
  {
    AsFooter(NewHeader(capacityBytes), AsU64(DirectorySector(capacityBytes, gs)))
  }

  /** What follows the directory: footer marker, footer, end-of-stream marker. */
  function Trailer(footer: SparseExtentHeader): (s: seq<byte>)
    ensures |s| == 3 * SECTOR_SIZE
  {
    MarkerBytes(Footer, 1) + (HeaderBytes(footer) + MarkerBytes(EndOfStream, 0))
  }

  function DirectoryRegion(tableOffsets: seq<nat>): (s: seq<byte>)
    ensures |s| % SECTOR_SIZE == 0
  {
    MarkerBytes(GrainDirectory, (|tableOffsets| * 4 + SECTOR_SIZE - 1) / SECTOR_SIZE)
    + DirectoryBytes(tableOffsets)
  }

  /** The finished file for a history of writes. */
  function Image(capacityBytes: u64, gs: seq<Grain>): (s: seq<byte>)
  {
    BeforeDirectory(capacityBytes, gs)
    + (DirectoryRegion(Directory(capacityBytes, gs)) + Trailer(FooterHeader(capacityBytes, gs)))
  }
}
