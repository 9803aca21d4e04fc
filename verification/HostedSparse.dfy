/** Hosted sparse files, the kind the reader accepts: whatever their layout, reading one gives the disk laid out in it. */
module HostedSparse {
  import opened Bytes
  import opened Results
  import opened Chunking
  import opened StreamVmdk
  import opened StreamIndex
  import opened SparseChunks
  import opened SplitExtents
  import SR = SparseReader

  // ---- One grain

  /** Reading a grain of a file without compressed grains: a zero word in directory or table means zeros, any other pair of
      words leads to the bytes of the grain; words and grain must lie inside the file. */
  lemma PlainGrain(r: SR.OpenReader, inflate: Inflate, g: nat)
    requires r.header.flags / 0x1_0000 % 2 == 0 && g / r.header.numGtesPerGt < |r.directory|
    ensures var grain, size := r.ReadGrain(inflate, g), r.header.grainSize * SECTOR_SIZE;
            var d := r.directory[g / r.header.numGtesPerGt];
            var entry := 512 * d + 4 * (g % r.header.numGtesPerGt);
            if size >= 0x1_0000_0000_0000_0000 then grain == Err(SR.Overflow)
            else if d == 0 then grain == Ok(Zeros(size))
            else if entry + 4 > |r.file| then grain == Err(SR.TableEntryBeyondFile)
            else
              var s := ReadLe(r.file, entry, 4);
              if s == 0 then grain == Ok(Zeros(size))
              else if 512 * s + size >= 0x1_0000_0000_0000_0000 then grain == Err(SR.Overflow)
              else if 512 * s + size > |r.file| then grain == Err(SR.GrainBeyondFile)
              else grain == Ok(r.file[512 * s..512 * s + size])
  {
    hide ReadLe, Zeros;
  }

  /** A compressed grain: twelve bytes, the last four of them the length of the compressed data behind them; the grain is
      the front of what this inflates to. */
  lemma CompressedGrain(r: SR.OpenReader, inflate: Inflate, g: nat, sector: nat)
    requires r.header.flags / 0x1_0000 % 2 == 1
    requires r.GrainSector(g) == Ok(sector) && sector > 0
    ensures var grain, size, at := r.ReadGrain(inflate, g), r.header.grainSize * SECTOR_SIZE, 512 * sector;
            if size >= 0x1_0000_0000_0000_0000 then grain == Err(SR.Overflow)
            else if at + 12 > |r.file| then grain == Err(SR.CompressedHeaderBeyondFile)
            else
              var n := ReadLe(r.file, at + 8, 4);
              if at + 12 + n > |r.file| then grain == Err(SR.CompressedDataBeyondFile)
              else
                var data := inflate(r.file[at + 12..at + 12 + n]);
                if |data| < size then grain == Err(SR.DecompressFailed) else grain == Ok(data[..size])
  {
    hide ReadLe;
  }

  // ---- A disk laid out in a file

  /** Grain `k` of the disk, of `size` bytes, is where the directory at byte `gd` and a table of `n` entries say, or
      nowhere if it is zero. */
  ghost predicate GrainLies(file: seq<byte>, gd: nat, n: Positive, size: nat, disk: seq<byte>, k: nat) {
    && gd + 4 * (k / n) + 4 <= |file|
    && var d := ReadLe(file, gd + 4 * (k / n), 4);
    if d == 0 then Shows(disk, StartOf(k, size), Zeros(size))
    else
      var entry := 512 * d + 4 * (k % n);
      && entry + 4 <= |file|
      && var s := ReadLe(file, entry, 4);
      if s == 0 then Shows(disk, StartOf(k, size), Zeros(size))
      else 512 * s + size <= |file| && Shows(disk, StartOf(k, size), file[512 * s..512 * s + size])
  }

  /** Where grain `k` starts on the disk. */
  function StartOf(k: nat, size: nat): nat {
    k * size
  }

  /** The disk shows `part` from position `at` on, as far as it reaches. */
  predicate Shows(disk: seq<byte>, at: nat, part: seq<byte>) {
    forall i | 0 <= i < |part| && at + i < |disk| :: disk[at + i] == part[i]
  }

  /** A header the reader accepts, without compressed grains. */
  predicate PlainHeader(h: SparseExtentHeader) {
    && h.magic == 0x564D444B && h.version <= 3 && h.flags < 0x1_0000
    && h.grainSize > 0 && h.numGtesPerGt > 0
  }

  /** The number of grains of a disk. */
  function GrainCount(h: SparseExtentHeader): nat
    requires h.grainSize > 0
  {
    (h.capacity + h.grainSize - 1) / h.grainSize
  }

  /** A file in which a disk is laid out, wherever directory, tables and grains lie. */
  ghost predicate LaidOut(file: seq<byte>, h: SparseExtentHeader, disk: seq<byte>) {
    && PlainHeader(h) && HeaderBytes(h) <= file && |file| < U64_LIMIT
    && |disk| == 512 * h.capacity < U64_LIMIT && h.grainSize * SECTOR_SIZE < U64_LIMIT
    && KeptFields(h).NonZeroSizes() && KeptFields(h).DirectoryFits()
    && 512 * h.gdOffset + 4 * KeptFields(h).NumGdEntries() <= |file|
    && forall k: nat | k < GrainCount(h) :: GrainLies(file, 512 * h.gdOffset, h.numGtesPerGt, h.grainSize * SECTOR_SIZE, disk, k)
  }

  /** The same, seen from an opened reader: its directory holds the words at byte `gd`. */
  ghost predicate Follows(r: SR.OpenReader, gd: nat, disk: seq<byte>) {
    && r.header.flags / 0x1_0000 % 2 == 0 && |r.file| < U64_LIMIT && r.header.grainSize * SECTOR_SIZE < U64_LIMIT
    && r.capacityBytes == r.header.capacity * SECTOR_SIZE == |disk|
    && |r.directory| == r.header.NumGdEntries() && gd + 4 * |r.directory| <= |r.file|
    && (forall t | 0 <= t < |r.directory| :: r.directory[t] == ReadLe(r.file, gd + 4 * t, 4))
    && forall k: nat | k < r.header.NumGrains() ::
         GrainLies(r.file, gd, r.header.numGtesPerGt, r.header.grainSize * SECTOR_SIZE, disk, k)
  }

  lemma Opens(file: seq<byte>, h: SparseExtentHeader, disk: seq<byte>) returns (r: SR.OpenReader)
    requires LaidOut(file, h, disk)
    ensures SR.OpenSpec(file) == Ok(r) && Follows(r, 512 * h.gdOffset, disk)
  {
    hide HeaderBytes, SR.ParseHeader, GrainLies, SR.SparseHeader.DirectoryFits, ReadLe;
    var rest := file[512..];
    assert file == HeaderBytes(h) + rest;
    OpenIff(h, rest);
    HeaderCodec(h, rest);
    r := SR.OpenSpec(file).value;
  }

  lemma TableInside(k: nat, count: nat, n: Positive)
    requires k < count
    ensures k / n < (count + n - 1) / n
  {
    CeilBounds(count, n);
    DivBelow(k, n, (count + n - 1) / n);
  }

  /** A grain that lies in the file reads as the disk shows it. */
  lemma GrainFound(r: SR.OpenReader, gd: nat, disk: seq<byte>, inflate: Inflate, k: nat)
    requires r.header.flags / 0x1_0000 % 2 == 0 && |r.file| < U64_LIMIT && r.header.grainSize * SECTOR_SIZE < U64_LIMIT
    requires var t := k / r.header.numGtesPerGt;
             t < |r.directory| && gd + 4 * t + 4 <= |r.file| && r.directory[t] == ReadLe(r.file, gd + 4 * t, 4)
    requires GrainLies(r.file, gd, r.header.numGtesPerGt, r.header.grainSize * SECTOR_SIZE, disk, k)
    ensures var grain := r.ReadGrain(inflate, k);
            grain.Ok? && |grain.value| == r.GrainBytes() && Shows(disk, StartOf(k, r.GrainBytes()), grain.value)
  {
    hide SR.Reader.ReadGrain, Shows, ReadLe, StartOf, Zeros;
    PlainGrain(r, inflate, k);
  }

  lemma GrainShown(r: SR.OpenReader, gd: nat, disk: seq<byte>, inflate: Inflate, k: nat)
    requires Follows(r, gd, disk) && k < r.header.NumGrains()
    ensures var grain := r.ReadGrain(inflate, k);
            grain.Ok? && |grain.value| == r.GrainBytes() && Shows(disk, StartOf(k, r.GrainBytes()), grain.value)
  {
    hide SR.Reader.ReadGrain, Shows, ReadLe, StartOf, SR.SparseHeader.NumGrains, GrainLies, SR.Reader.GrainBytes;
    TableInside(k, r.header.NumGrains(), r.header.numGtesPerGt);
    GrainFound(r, gd, disk, inflate, k);
  }

  /** The reader `r` shows `disk` grain by grain. */
  ghost predicate ShownBy(r: SR.OpenReader, inflate: Inflate, disk: seq<byte>) {
    forall k: nat | k < r.header.NumGrains() ::
      var grain := r.ReadGrain(inflate, k);
      grain.Ok? && |grain.value| == r.GrainBytes() && Shows(disk, StartOf(k, r.GrainBytes()), grain.value)
  }

  lemma AllShown(r: SR.OpenReader, gd: nat, disk: seq<byte>, inflate: Inflate)
    requires Follows(r, gd, disk)
    ensures ShownBy(r, inflate, disk)
  {
    hide Follows, SR.Reader.ReadGrain, SR.Reader.GrainBytes, Shows, SR.SparseHeader.NumGrains, StartOf;
    forall k: nat | k < r.header.NumGrains()
      ensures var grain := r.ReadGrain(inflate, k);
              grain.Ok? && |grain.value| == r.GrainBytes() && Shows(disk, StartOf(k, r.GrainBytes()), grain.value)
    {
      GrainShown(r, gd, disk, inflate, k);
    }
  }

  lemma DiskShown(r: SR.OpenReader, disk: seq<byte>, inflate: Inflate)
    requires r.capacityBytes == r.header.capacity * SECTOR_SIZE == |disk| && ShownBy(r, inflate, disk)
    ensures RangeReads(r, inflate, 0, r.capacityBytes) && VirtualDisk(r, inflate) == disk
  {
    hide ShownBy, PositionReads, ByteAt;
    forall p: nat | p < |disk|
      ensures PositionReads(r, inflate, p) && ByteAt(r, inflate, p) == disk[p]
    {
      ByteShown(r, inflate, disk, p);
    }
    var read := VirtualDisk(r, inflate);
    forall p | 0 <= p < |disk|
      ensures read[p] == disk[p]
    {
      assert read[p] == ByteAt(r, inflate, 0 + p);
    }
  }

  /** Reading a file in which a disk is laid out, from its header to its grains, gives that disk. */
  lemma LaidOutReads(file: seq<byte>, h: SparseExtentHeader, disk: seq<byte>, inflate: Inflate)
    requires LaidOut(file, h, disk)
    ensures ExtentReads(file, inflate) && ExtentDisk(file, inflate) == disk
  {
    hide SR.OpenSpec, ShownBy, LaidOut, RangeReads;
    var r := Opens(file, h, disk);
    AllShown(r, 512 * h.gdOffset, disk, inflate);
    DiskShown(r, disk, inflate);
  }

  lemma ByteShown(r: SR.OpenReader, inflate: Inflate, disk: seq<byte>, p: nat)
    requires r.capacityBytes == r.header.capacity * SECTOR_SIZE == |disk| && p < |disk| && ShownBy(r, inflate, disk)
    ensures PositionReads(r, inflate, p) && ByteAt(r, inflate, p) == disk[p]
  {
    hide SR.Reader.ReadGrain, SR.Reader.GrainBytes, SR.SparseHeader.NumGrains;
    var size := r.GrainBytes();
    GrainTotals(r);
    DivBelow(p, size, r.header.NumGrains());
    assert p == (p / size) * size + p % size;
  }

  /** Opening such a file and draining the iterator gives the canonical chunks of the disk, for every chunk size. */
  method CollectHosted(file: seq<byte>, inflate: Inflate, chunkSize: Positive, ghost h: SparseExtentHeader, ghost disk: seq<byte>)
      returns (chunks: seq<seq<byte>>)
    requires LaidOut(file, h, disk)
    ensures chunks == Chunks(disk, chunkSize)
  {
    hide LaidOut, SR.OpenSpec, Chunks, FirstError;
    LaidOutReads(file, h, disk, inflate);
    var reader := SR.Open(file);
    var res := CollectChunks(reader.value, inflate, chunkSize);
    chunks := res.value;
  }
}
