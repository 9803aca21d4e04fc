/** What an exported image preserves of the source disk: always in stream order, and through the tables
    exactly under an alignment condition on capacity and chunk size. */
module RoundTrip {
  import opened Bytes
  import opened Results
  import opened Chunking
  import opened StreamVmdk
  import opened StreamIndex
  import opened StreamScan
  import opened Readback
  import opened ExportedDisk

  // ---- Where the chunks go

  /** Chunk `i` lands in grain floor(i * chunkSize / 65536). */
  lemma ChunkGrain(disk: seq<byte>, codec: Codec, chunkSize: Positive, i: nat)
    requires |disk| < U64_LIMIT && i < CountChunks(|disk|, chunkSize)
    ensures GrainIndex(ExportedGrains(disk, codec, chunkSize)[i])
         == i * chunkSize / GRAIN_BYTES
  {
    hide CountChunks, ExportedGrains;
    var x := i * chunkSize;
    assert x / 512 / 128 == x / 65536;
  }

  predicate Increasing(gs: seq<Grain>) {
    forall i, j | 0 <= i < j < |gs| :: GrainIndex(gs[i]) < GrainIndex(gs[j])
  }

  lemma StepsApart(i: nat, j: nat, chunkSize: nat)
    requires i < j && chunkSize >= GRAIN_BYTES
    ensures i * chunkSize / GRAIN_BYTES < j * chunkSize / GRAIN_BYTES
  {
    MulOrder(chunkSize, i, j);
    var x, y := i * chunkSize, j * chunkSize;
    assert x + 65536 <= y;
  }

  /** No table entry is overwritten exactly when chunks are at least one grain long (or there is only one). */
  lemma GrainsIncreaseIff(disk: seq<byte>, codec: Codec, chunkSize: Positive)
    requires |disk| < U64_LIMIT
    ensures var gs := ExportedGrains(disk, codec, chunkSize);
            Increasing(gs) <==> chunkSize >= GRAIN_BYTES || |gs| <= 1
  {
    hide CountChunks, ExportedGrains;
    var gs := ExportedGrains(disk, codec, chunkSize);
    if chunkSize >= GRAIN_BYTES {
      forall i, j | 0 <= i < j < |gs|
        ensures GrainIndex(gs[i]) < GrainIndex(gs[j])
      {
        ChunkGrain(disk, codec, chunkSize, i);
        ChunkGrain(disk, codec, chunkSize, j);
        StepsApart(i, j, chunkSize);
      }
    } else if |gs| > 1 {
      ChunkGrain(disk, codec, chunkSize, 0);
      ChunkGrain(disk, codec, chunkSize, 1);
      assert !(GrainIndex(gs[0]) < GrainIndex(gs[1]));
    }
  }

  lemma {:induction false} WrittenIsLatest(gs: seq<Grain>, i: nat)
    requires i < |gs|
    ensures GrainIndex(gs[i]) in Latest(gs)
  {
    if i < |gs| - 1 {
      WrittenIsLatest(gs[..|gs| - 1], i);
    }
  }

  /** Without overwriting, every write is the latest for its grain. */
  lemma EachIsLatest(gs: seq<Grain>, i: nat)
    requires Increasing(gs) && i < |gs|
    ensures GrainIndex(gs[i]) in Latest(gs) && Latest(gs)[GrainIndex(gs[i])] == gs[i]
  {
    hide Latest, GrainIndex;
    var g := GrainIndex(gs[i]);
    WrittenIsLatest(gs, i);
    LatestWritten(gs, g);
    var j :| 0 <= j < |gs| && gs[j] == Latest(gs)[g];
  }

  // ---- Stream order

  /** Inflated payloads of the grain items, concatenated. */
  function Contents(items: seq<Item>, inflate: seq<byte> -> seq<byte>): seq<byte> {
    if items == [] then []
    else
      var last := items[|items| - 1];
      Contents(items[..|items| - 1], inflate) + if last.GrainItem? then inflate(last.grain.data) else []
  }

  predicate MetaOnly(items: seq<Item>) {
    forall i | 0 <= i < |items| :: items[i].MetaItem?
  }

  lemma {:induction false} MetaAddsNothing(items: seq<Item>, meta: seq<Item>, inflate: seq<byte> -> seq<byte>)
    requires MetaOnly(meta)
    ensures Contents(items + meta, inflate) == Contents(items, inflate)
  {
    if meta == [] {
      assert items + meta == items;
    } else {
      var n := |meta| - 1;
      MetaAddsNothing(items, meta[..n], inflate);
      assert (items + meta)[..|items + meta| - 1] == items + meta[..n];
      assert Contents(items, inflate) + [] == Contents(items, inflate);
    }
  }

  lemma {:induction false} TablesAreMeta(offsets: map<nat, nat>, n: nat)
    ensures MetaOnly(TableItems(offsets, n))
  {
    if n > 0 {
      TablesAreMeta(offsets, n - 1);
    }
  }

  /** The first `k` stored grains inflate to the first `k` chunks. */
  lemma {:induction false} ContentsOfGrains(gs: seq<Grain>, chunks: seq<seq<byte>>, inflate: seq<byte> -> seq<byte>, k: nat)
    requires k <= |gs| == |chunks|
    requires forall i | 0 <= i < |gs| :: inflate(gs[i].data) == chunks[i]
    ensures Contents(GrainItems(gs)[..k], inflate) == Join(chunks[..k])
  {
    if k > 0 {
      ContentsOfGrains(gs, chunks, inflate, k - 1);
      JoinTake(chunks, k - 1);
      assert GrainItems(gs)[..k][..k - 1] == GrainItems(gs)[..k - 1];
    }
  }

  /** A scan of the whole image ends cleanly, and its payloads, inflated and concatenated, are the disk. */
  ghost predicate InStreamOrder(image: seq<byte>, disk: seq<byte>, inflate: seq<byte> -> seq<byte>) {
    && ScanFile(image).Some?
    && var scan := ScanFile(image).value.1;
    scan.rest == [] && Contents(scan.items, inflate) == disk
  }

  /** Scanning an export from front to back: grain `i` carries address i * chunkSize / 512, and the payloads,
      inflated and concatenated, are the source disk. For every chunk size. */
  lemma StreamOrderPreserved(disk: seq<byte>, capacityBytes: u64, codec: Codec, chunkSize: Positive)
    requires |disk| < U64_LIMIT && codec.Lossless()
    requires forall g | g in ExportedGrains(disk, codec, chunkSize) :: |g.data| < U32_LIMIT
    ensures var img := Image(capacityBytes, ExportedGrains(disk, codec, chunkSize));
            && InStreamOrder(img, disk, codec.inflate)
            && var items := ScanFile(img).value.1.items;
            && |items| >= CountChunks(|disk|, chunkSize)
            && forall i | 0 <= i < CountChunks(|disk|, chunkSize) ::
                 items[i].GrainItem? && items[i].grain.lba == i * chunkSize / 512
  {
    hide CountChunks, ExportedGrains, ScanFile, Image, ExpectedItems, Chunks, Contents, Join, MetaOnly;
    var gs, chunks := ExportedGrains(disk, codec, chunkSize), Chunks(disk, chunkSize);
    assert Scannable(gs);
    ScanInvertsWriter(capacityBytes, gs);
    ExpectedStart(capacityBytes, gs);
    ExpectedMeta(capacityBytes, gs);
    var items := ExpectedItems(capacityBytes, gs);
    MetaAddsNothing(GrainItems(gs), items[|gs|..], codec.inflate);
    ContentsOfGrains(gs, chunks, codec.inflate, |gs|);
    assert GrainItems(gs)[..|gs|] == GrainItems(gs) && chunks[..|gs|] == chunks;
    ChunksAreChunking(disk, chunkSize);
  }

  lemma ExpectedMeta(capacityBytes: u64, gs: seq<Grain>)
    ensures |ExpectedItems(capacityBytes, gs)| >= |gs|
    ensures MetaOnly(ExpectedItems(capacityBytes, gs)[|gs|..])
  {
    TablesAreMeta(Offsets(gs), NumGts(capacityBytes / SECTOR_SIZE));
  }

  // ---- Through the tables

  /** The condition under which one stored chunk is one grain: whole grains, and chunks that are grains
      (a single-grain disk may also sit in one larger chunk). */
  predicate GrainAligned(capacity: nat, chunkSize: nat) {
    && capacity % GRAIN_BYTES == 0
    && (capacity == 0 || chunkSize == GRAIN_BYTES || (capacity == GRAIN_BYTES && chunkSize > GRAIN_BYTES))
  }

  /** Some chunk starts at grain `g` and fills it. */
  ghost predicate ChunkFills(capacity: nat, chunkSize: Positive, g: nat)
  {
    exists i: nat | i < CountChunks(capacity, chunkSize) ::
      i * chunkSize == g * GRAIN_BYTES && Min(chunkSize, capacity - i * chunkSize) >= GRAIN_BYTES
  }

  /** If a chunk fills grain `g`, the reader sees the disk there. */
  lemma FilledGrainReads(disk: seq<byte>, codec: Codec, chunkSize: nat, i: nat, p: nat)
    requires chunkSize >= GRAIN_BYTES && |disk| < U64_LIMIT && codec.Lossless()
    requires i < CountChunks(|disk|, chunkSize) && p < |disk|
    requires i * chunkSize == p / GRAIN_BYTES * GRAIN_BYTES
    requires Min(chunkSize, |disk| - i * chunkSize) >= GRAIN_BYTES
    ensures ContentAt(ExportedGrains(disk, codec, chunkSize), codec.inflate, p)
         == Some(disk[p])
  {
    hide CountChunks, ExportedGrains, Chunks, Latest;
    var gs := ExportedGrains(disk, codec, chunkSize);
    var g, at := p / GRAIN_BYTES, i * chunkSize;
    GrainsIncreaseIff(disk, codec, chunkSize);
    ChunkGrain(disk, codec, chunkSize, i);
    assert GrainIndex(gs[i]) == g;
    EachIsLatest(gs, i);
    assert codec.inflate(gs[i].data) == ChunkAt(disk, chunkSize, i);
    assert p == at + p % GRAIN_BYTES;
  }

  /** An aligned export, read back through footer, directory, tables and markers, is the source disk. */
  lemma ReadbackWhenAligned(disk: seq<byte>, codec: Codec, chunkSize: Positive)
    requires |disk| < U64_LIMIT && codec.Lossless()
    requires Fits(|disk|, ExportedGrains(disk, codec, chunkSize))
    requires GrainAligned(|disk|, chunkSize)
    ensures ReadsBack(Image(|disk|, ExportedGrains(disk, codec, chunkSize)), codec.inflate, disk)
  {
    hide ExportedGrains, Fits, ReadsBack, ContentAt, Image;
    var gs := ExportedGrains(disk, codec, chunkSize);
    ReadsBackBytes(|disk|, gs, codec.inflate, disk);
    WholeSectors(|disk|);
    forall p: nat | p < |disk|
      ensures ContentAt(gs, codec.inflate, p) == Some(disk[p])
    {
      AlignedChunk(|disk|, chunkSize, p);
      FilledGrainReads(disk, codec, chunkSize, p / GRAIN_BYTES, p);
    }
  }

  lemma WholeSectors(capacity: nat)
    requires capacity % GRAIN_BYTES == 0
    ensures capacity == capacity / SECTOR_SIZE * SECTOR_SIZE
  {
    var q := capacity / GRAIN_BYTES;
    RemainderUnique(capacity, SECTOR_SIZE, GRAIN_SIZE * q, 0);
  }

  lemma AlignedChunk(capacity: nat, chunkSize: Positive, p: nat)
    requires GrainAligned(capacity, chunkSize) && p < capacity
    ensures chunkSize >= GRAIN_BYTES
    ensures var i := p / GRAIN_BYTES;
            && i < CountChunks(capacity, chunkSize)
            && i * chunkSize == p / GRAIN_BYTES * GRAIN_BYTES
            && Min(chunkSize, capacity - i * chunkSize) >= GRAIN_BYTES
  {
    hide CountChunks;
    var i, q := p / GRAIN_BYTES, capacity / GRAIN_BYTES;
    assert capacity == q * GRAIN_BYTES && i * GRAIN_BYTES <= p;
    if chunkSize != GRAIN_BYTES {
      assert i == 0;
    }
    ChunkStart(capacity, chunkSize, i);
  }

  function OneHot(size: nat, p: nat): (s: seq<byte>)
    ensures |s| == size && forall i | 0 <= i < size :: s[i] == if i == p then 1 else 0
  {
    seq<byte>(size, i => if i == p then 1 else 0)
  }

  /** If no chunk fills grain `g`, a disk whose only non-zero byte opens that grain is not read back. */
  lemma UnfilledGrainMisreads(capacity: nat, codec: Codec, chunkSize: Positive, g: nat)
    requires capacity < U64_LIMIT && codec.Lossless()
    requires !ChunkFills(capacity, chunkSize, g) && g * GRAIN_BYTES < capacity
    ensures ContentAt(ExportedGrains(OneHot(capacity, g * GRAIN_BYTES), codec, chunkSize), codec.inflate, g * GRAIN_BYTES)
         != Some(1)
  {
    hide CountChunks, ExportedGrains, Chunks, Latest, GrainIndex;
    var disk := OneHot(capacity, g * GRAIN_BYTES);
    var gs := ExportedGrains(disk, codec, chunkSize);
    RemainderUnique(g * GRAIN_BYTES, GRAIN_BYTES, g, 0);
    if g in Latest(gs) {
      LatestWritten(gs, g);
      var i :| 0 <= i < |gs| && gs[i] == Latest(gs)[g];
      var data := codec.inflate(gs[i].data);
      assert data == ChunkAt(disk, chunkSize, i);
      if |data| >= GRAIN_BYTES {
        assert data[..GRAIN_BYTES][0] == disk[i * chunkSize];
      }
    }
  }

  /** When the alignment condition fails there is such a grain. */
  lemma UnalignedHasUnfilledGrain(capacity: nat, chunkSize: Positive)
    requires !GrainAligned(capacity, chunkSize) && capacity % SECTOR_SIZE == 0
    ensures exists g: nat :: g * GRAIN_BYTES < capacity && !ChunkFills(capacity, chunkSize, g)
  {
    hide CountChunks;
    var g: nat;
    if chunkSize < GRAIN_BYTES {
      g := 0;
    } else if capacity % GRAIN_BYTES != 0 {
      g := capacity / GRAIN_BYTES;
    } else {
      g := 1;
      forall i: nat | i * chunkSize == GRAIN_BYTES
        ensures false
      {
        MulOrder(chunkSize, 0, i);
      }
    }
    assert g * GRAIN_BYTES < capacity && !ChunkFills(capacity, chunkSize, g);
  }

  /** For a capacity and chunk size, every disk of that capacity is read back from its export through the
      tables if and only if the alignment condition holds. */
  lemma ReadbackExactly(capacity: nat, codec: Codec, chunkSize: Positive)
    requires capacity < U64_LIMIT && codec.Lossless()
    requires forall disk: seq<byte> | |disk| == capacity :: Fits(capacity, ExportedGrains(disk, codec, chunkSize))
    ensures (forall disk: seq<byte> | |disk| == capacity ::
               ReadsBack(Image(capacity, ExportedGrains(disk, codec, chunkSize)), codec.inflate, disk))
            <==> GrainAligned(capacity, chunkSize)
  {
    hide ExportedGrains, Fits, ReadsBack, Image, ContentAt, ChunkFills, GrainAligned;
    if GrainAligned(capacity, chunkSize) {
      forall disk: seq<byte> | |disk| == capacity
        ensures ReadsBack(Image(capacity, ExportedGrains(disk, codec, chunkSize)), codec.inflate, disk)
      {
        ReadbackWhenAligned(disk, codec, chunkSize);
      }
    } else {
      var g: nat := 0;
      if capacity % SECTOR_SIZE == 0 {
        UnalignedHasUnfilledGrain(capacity, chunkSize);
        g :| g * GRAIN_BYTES < capacity && !ChunkFills(capacity, chunkSize, g);
      }
      var disk := OneHot(capacity, g * GRAIN_BYTES);
      var gs := ExportedGrains(disk, codec, chunkSize);
      ReadsBackBytes(capacity, gs, codec.inflate, disk);
      if capacity % SECTOR_SIZE == 0 {
        UnfilledGrainMisreads(capacity, codec, chunkSize, g);
      }
      assert !ReadsBack(Image(capacity, gs), codec.inflate, disk);
    }
  }

  // ---- When the index fits, from what a caller knows

  lemma {:induction false} BodySectorsBound(gs: seq<Grain>, bound: nat)
    requires forall g | g in gs :: |g.data| <= bound
    ensures BodySectors(gs) <= RecordBound(|gs|, bound)
  {
    if gs != [] {
      var init, last := gs[..|gs| - 1], gs[|gs| - 1];
      BodySectorsBound(init, bound);
      var a, b := 12 + |last.data| + SECTOR_SIZE - 1, 12 + bound + SECTOR_SIZE - 1;
      assert a / SECTOR_SIZE <= b / SECTOR_SIZE;
      NextStart(|init|, b / SECTOR_SIZE);
    }
  }

  lemma {:induction false} TableCount(offsets: map<nat, nat>, n: nat)
    ensures |TableItems(offsets, n)| <= n
  {
    if n > 0 {
      TableCount(offsets, n - 1);
    }
  }

  /** Sectors of `n` records with payloads of at most `bound` bytes. */
  function RecordBound(n: nat, bound: nat): nat {
    n * ((12 + bound + SECTOR_SIZE - 1) / SECTOR_SIZE)
  }

  /** A bound on the sectors of the image of any disk of a size, given a bound on compressed chunks. */
  function SectorBound(size: nat, capacityBytes: u64, chunkSize: Positive, bound: nat): nat
  {
    var n := NumGts(capacityBytes / SECTOR_SIZE);
    RecordBound(CountChunks(size, chunkSize), bound) + 5 * n + (n * 4 + SECTOR_SIZE - 1) / SECTOR_SIZE + 5
  }

  /** The index of an export fits when the compressor's expansion and the capacity are bounded. */
  lemma FitsWhenBounded(disk: seq<byte>, capacityBytes: u64, codec: Codec, chunkSize: Positive, bound: nat)
    requires |disk| < U64_LIMIT && codec.Bounded(chunkSize, bound)
    requires bound < U32_LIMIT && SectorBound(|disk|, capacityBytes, chunkSize, bound) <= U32_LIMIT
    ensures Fits(capacityBytes, ExportedGrains(disk, codec, chunkSize))
  {
    hide ExportedGrains, Image, CountChunks, NumGts, BodySectors, TableItems, Fits, Offsets, RecordBound;
    var gs, n := ExportedGrains(disk, codec, chunkSize), NumGts(capacityBytes / SECTOR_SIZE);
    forall g | g in gs
      ensures |g.data| <= bound
    {
      var i :| 0 <= i < |gs| && gs[i] == g;
      assert |Chunks(disk, chunkSize)[i]| <= chunkSize;
    }
    BodySectorsBound(gs, bound);
    TableCount(Offsets(gs), n);
    ImageSectors(capacityBytes, gs);
    SmallImageFits(capacityBytes, gs);
  }

  /** The exact condition again, from facts known before any export: every disk of a capacity reads back through the
      tables if and only if capacity and chunk size are aligned. */
  lemma ReadbackExactlyBounded(capacity: nat, codec: Codec, chunkSize: Positive, bound: nat)
    requires capacity < U64_LIMIT && codec.Lossless() && codec.Bounded(chunkSize, bound)
    requires bound < U32_LIMIT && SectorBound(capacity, capacity, chunkSize, bound) <= U32_LIMIT
    ensures (forall disk: seq<byte> | |disk| == capacity ::
               ReadsBack(Image(capacity, ExportedGrains(disk, codec, chunkSize)), codec.inflate, disk))
            <==> GrainAligned(capacity, chunkSize)
  {
    hide ExportedGrains, Fits, ReadsBack, Image, GrainAligned, SectorBound, Codec.Lossless, Codec.Bounded;
    forall disk: seq<byte> | |disk| == capacity
      ensures Fits(capacity, ExportedGrains(disk, codec, chunkSize))
    {
      FitsWhenBounded(disk, capacity, codec, chunkSize, bound);
    }
    ReadbackExactly(capacity, codec, chunkSize);
  }

  /** For instance, every disk of 1 GiB exported in grain-sized chunks with the storing codec reads back, and none of
      the conditions is empty. */
  lemma GigabyteReadsBack(disk: seq<byte>)
    requires |disk| == 0x4000_0000
    ensures ReadsBack(Image(|disk|, ExportedGrains(disk, StoringCodec(), GRAIN_BYTES)), StoringCodec().inflate, disk)
  {
    hide ExportedGrains, ReadsBack, Image, StoringCodec;
    LosslessCodecExists(GRAIN_BYTES);
    ReadbackExactlyBounded(0x4000_0000, StoringCodec(), GRAIN_BYTES, GRAIN_BYTES + 1);
  }
}
