/** Iterating over a sparse disk chunk by chunk is iterating over the flat disk it stands for. */
module SparseChunks {
  import opened Bytes
  import opened Results
  import opened Chunking
  import opened SparseReader

  type Inflate = seq<byte> -> seq<byte>

  predicate GrainReads(r: OpenReader, inflate: Inflate, g: nat)
  {
    r.ReadGrain(inflate, g).Ok?
  }

  /** Every grain that holds a byte below the capacity reads without error. */
  ghost predicate AllGrainsRead(r: OpenReader, inflate: Inflate)
  {
    forall g: nat | g < r.header.NumGrains() :: GrainReads(r, inflate, g)
  }

  /** Position `p` lies in a grain that reads. */
  predicate PositionReads(r: OpenReader, inflate: Inflate, p: nat)
  {
    GrainReads(r, inflate, p / r.GrainBytes())
  }

  /** Every byte position in [lo, hi) lies in a grain that reads. */
  ghost predicate RangeReads(r: OpenReader, inflate: Inflate, lo: nat, hi: nat)
  {
    forall p: nat | lo <= p < hi :: PositionReads(r, inflate, p)
  }

  /** The byte the address translation gives for position `p`; 0 where the grain does not read. */
  ghost function ByteAt(r: OpenReader, inflate: Inflate, p: nat): byte
  {
    ByteOf(r.ReadGrain(inflate, p / r.GrainBytes()), p % r.GrainBytes())
  }

  function ByteOf(grain: Result<seq<byte>, VmdkError>, k: nat): byte {
    if grain.Ok? && k < |grain.value| then grain.value[k] else 0
  }

  ghost function Range(r: OpenReader, inflate: Inflate, lo: nat, hi: nat): (s: seq<byte>)
    requires lo <= hi && RangeReads(r, inflate, lo, hi)
    ensures |s| == hi - lo && forall k | 0 <= k < hi - lo :: s[k] == ByteAt(r, inflate, lo + k)
  {
    seq<byte>(hi - lo, k requires 0 <= k < hi - lo => ByteAt(r, inflate, lo + k))
  }

  /** The flat disk a sparse file stands for. */
  ghost function VirtualDisk(r: OpenReader, inflate: Inflate): (s: seq<byte>)
    requires RangeReads(r, inflate, 0, r.capacityBytes)
    ensures |s| == r.capacityBytes
  {
    Range(r, inflate, 0, r.capacityBytes)
  }

  lemma DivBelow(p: nat, d: Positive, n: nat)
    ensures p / d < n <==> p < n * d
  {
    assert p == d * (p / d) + p % d;
    MulOrder(d, p / d, n);
    if n <= p / d {
      if n < p / d {
        MulOrder(d, n, p / d);
      }
    }
  }

  lemma CeilBounds(c: nat, d: Positive)
    ensures var k := (c + d - 1) / d;
            c <= k * d && (k > 0 ==> (k - 1) * d < c)
  {
    var k := (c + d - 1) / d;
    assert c + d - 1 == d * k + (c + d - 1) % d;
    assert (k - 1) * d == k * d - d;
  }

  /** A grain count in bytes. */
  lemma GrainTotals(r: OpenReader)
    requires r.capacityBytes == r.header.capacity * SECTOR_SIZE
    ensures var n, gb := r.header.NumGrains(), r.GrainBytes();
            r.capacityBytes <= n * gb && (n > 0 ==> (n - 1) * gb < r.capacityBytes)
  {
    var n, gs := r.header.NumGrains(), r.header.grainSize;
    CeilBounds(r.header.capacity, gs);
    assert n * (gs * SECTOR_SIZE) == (n * gs) * SECTOR_SIZE;
    assert (n - 1) * (gs * SECTOR_SIZE) == ((n - 1) * gs) * SECTOR_SIZE;
  }

  lemma GrainStart(size: nat, gb: nat, n: nat, g: nat)
    requires gb > 0 && g < n && (n - 1) * gb < size
    ensures g * gb < size && g * gb / gb == g
  {
    if g < n - 1 {
      MulOrder(gb, g, n - 1);
    }
    RemainderUnique(g * gb, gb, g, 0);
  }

  lemma RangeIsGrains(r: OpenReader, inflate: Inflate)
    requires r.capacityBytes == r.header.capacity * SECTOR_SIZE
    ensures RangeReads(r, inflate, 0, r.capacityBytes)
       <==> AllGrainsRead(r, inflate)
  {
    hide GrainReads, Reader.GrainBytes, SparseHeader.NumGrains;
    var gb, n := r.GrainBytes(), r.header.NumGrains();
    GrainTotals(r);
    if RangeReads(r, inflate, 0, r.capacityBytes) {
      forall g: nat | g < n
        ensures GrainReads(r, inflate, g)
      {
        GrainStart(r.capacityBytes, gb, n, g);
        assert PositionReads(r, inflate, g * gb);
      }
    }
    if AllGrainsRead(r, inflate) {
      forall p: nat | p < r.capacityBytes
        ensures PositionReads(r, inflate, p)
      {
        DivBelow(p, gb, n);
      }
    }
  }

  lemma TwoLevels(p: nat, n: nat, gb: nat, m: nat)
    requires gb > 0 && m > 0 && p < n * gb
    ensures p / gb / m < (n + m - 1) / m
  {
    DivBelow(p, gb, n);
    CeilBounds(n, m);
    DivBelow(p / gb, m, (n + m - 1) / m);
  }

  /** A position below the capacity never falls off the grain directory. */
  lemma NeverBeyondDirectory(r: OpenReader, p: nat)
    requires r.Valid() && p < r.capacityBytes
    ensures p / r.GrainBytes() / r.header.numGtesPerGt < |r.directory|
  {
    GrainTotals(r);
    TwoLevels(p, r.header.NumGrains(), r.GrainBytes(), r.header.numGtesPerGt);
  }

  class SparseChunkIterator {
    const reader: OpenReader
    const inflate: Inflate
    const chunkSize: nat
    var currentOffset: nat

    ghost predicate Valid()
      reads this
    {
      chunkSize > 0 && currentOffset <= reader.capacityBytes
    }

    constructor (reader: OpenReader, inflate: Inflate, chunkSize: Positive)
        ensures Valid() && currentOffset == 0
      ensures this.reader == reader && this.inflate == inflate && this.chunkSize == chunkSize
    {
      this.reader, this.inflate, this.chunkSize := reader, inflate, chunkSize;
      currentOffset := 0;
    }

    /** Stitches grains into the next slice of the flat disk. If a grain in the slice does not read,
        the error of the first such grain comes out and the position stays. */
    method Next() returns (item: Option<Result<seq<byte>, VmdkError>>)
      requires Valid()
      modifies this
      ensures Valid()
      ensures old(currentOffset) == reader.capacityBytes ==> item == None && currentOffset == old(currentOffset)
      ensures old(currentOffset) < reader.capacityBytes ==>
                var lo, hi := old(currentOffset), Min(old(currentOffset) + chunkSize, reader.capacityBytes);
                if RangeReads(reader, inflate, lo, hi) then
                  item == Some(Ok(Range(reader, inflate, lo, hi))) && currentOffset == hi
                else
                  && item.Some? && item.value.Err? && currentOffset == lo
                  && FirstError(reader, inflate, lo, hi, item.value.error)
    {
      if currentOffset >= reader.capacityBytes {
        return None;
      }
      hide PositionReads, ByteAt, Reader.GrainBytes, Reader.ReadGrain;
      var remaining := reader.capacityBytes - currentOffset;
      var chunkLen := Min(remaining, chunkSize);
      var chunkData: seq<byte> := [];
      var grainBytes := reader.GrainBytes();
      var bytesRead := 0;
      while bytesRead < chunkLen
        invariant 0 <= bytesRead <= chunkLen && currentOffset == old(currentOffset)
        invariant RangeReads(reader, inflate, currentOffset, currentOffset + bytesRead)
        invariant chunkData == Range(reader, inflate, currentOffset, currentOffset + bytesRead)
      {
        var currentPos := currentOffset + bytesRead;
        var grainIndex := currentPos / grainBytes;
        var offsetInGrain := currentPos % grainBytes;
        var grain := reader.ReadGrain(inflate, grainIndex);
        if grain.Err? {
          assert FailsAt(reader, inflate, currentOffset, currentPos, grain.error);
          FailedGrain(reader, inflate, currentOffset, currentPos, grain.error);
          return Some(Err(grain.error));
        }
        var bytesNeeded := chunkLen - bytesRead;
        var bytesAvailable := grainBytes - offsetInGrain;
        var bytesToTake := Min(bytesNeeded, bytesAvailable);
        RangeExtends(reader, inflate, currentOffset, currentPos, bytesToTake, grain.value, offsetInGrain);
        chunkData := chunkData + grain.value[offsetInGrain..offsetInGrain + bytesToTake];
        bytesRead := bytesRead + bytesToTake;
      }
      currentOffset := currentOffset + chunkLen;
      item := Some(Ok(chunkData));
    }
  }

  /** Everything in [lo, p) reads, and the grain at `p` fails with `e`. */
  ghost predicate FailsAt(r: OpenReader, inflate: Inflate, lo: nat, p: nat, e: VmdkError)
  {
    RangeReads(r, inflate, lo, p) && r.ReadGrain(inflate, p / r.GrainBytes()) == Err(e)
  }

  /** `e` is the error of the first grain in [lo, hi) that does not read. */
  ghost predicate FirstError(r: OpenReader, inflate: Inflate, lo: nat, hi: nat, e: VmdkError)
  {
    exists p: nat | lo <= p < hi :: FailsAt(r, inflate, lo, p, e)
  }

  /** A position further on in the same grain. */
  lemma ByteInGrain(r: OpenReader, inflate: Inflate, mid: nat, p: nat, data: seq<byte>, at: nat)
    requires r.ReadGrain(inflate, mid / r.GrainBytes()) == Ok(data)
    requires at == mid % r.GrainBytes() && mid <= p && at + (p - mid) < |data|
    ensures PositionReads(r, inflate, p) && ByteAt(r, inflate, p) == data[at + (p - mid)]
  {
    hide Reader.ReadGrain, Reader.GrainBytes;
    var gb := r.GrainBytes();
    RemainderUnique(p, gb, mid / gb, at + (p - mid));
  }

  /** The bytes of one grain from `mid` on, as many as the grain still has, extend the range. */
  lemma RangeExtends(r: OpenReader, inflate: Inflate, lo: nat, mid: nat, n: nat, data: seq<byte>, at: nat)
    requires lo <= mid && RangeReads(r, inflate, lo, mid)
    requires r.ReadGrain(inflate, mid / r.GrainBytes()) == Ok(data)
    requires at == mid % r.GrainBytes() && at + n <= |data|
    ensures RangeReads(r, inflate, lo, mid + n)
    ensures Range(r, inflate, lo, mid + n)
         == Range(r, inflate, lo, mid) + data[at..at + n]
  {
    hide PositionReads, ByteAt, Reader.ReadGrain, Reader.GrainBytes;
    forall p: nat | mid <= p < mid + n
      ensures PositionReads(r, inflate, p) && ByteAt(r, inflate, p) == data[at + (p - mid)]
    {
      ByteInGrain(r, inflate, mid, p, data, at);
    }
    var whole, parts := Range(r, inflate, lo, mid + n), Range(r, inflate, lo, mid) + data[at..at + n];
    forall k | 0 <= k < |whole|
      ensures whole[k] == parts[k]
    {
      assert whole[k] == ByteAt(r, inflate, lo + k);
    }
  }

  /** The chunks gathered so far cover [0, offset) and are full, except possibly when the end is reached. */
  ghost predicate Gathered(chunks: seq<seq<byte>>, disk: seq<byte>, chunkSize: nat, size: nat) {
    && Join(chunks) == disk
    && |disk| <= size
    && (forall i | 0 <= i < |chunks| :: 0 < |chunks[i]| <= chunkSize)
    && (forall i | 0 <= i < |chunks| :: (i < |chunks| - 1 || |disk| < size) ==> |chunks[i]| == chunkSize)
  }

  lemma GatherNext(chunks: seq<seq<byte>>, disk: seq<byte>, c: seq<byte>, chunkSize: Positive, size: nat)
    requires Gathered(chunks, disk, chunkSize, size) && |disk| < size
    requires |c| == Min(chunkSize, size - |disk|)
    ensures Gathered(chunks + [c], disk + c, chunkSize, size)
  {
    JoinSnoc(chunks, c);
  }

  lemma RangeSplit(r: OpenReader, inflate: Inflate, mid: nat, hi: nat)
    requires mid <= hi
    requires RangeReads(r, inflate, 0, mid) && RangeReads(r, inflate, mid, hi)
    ensures RangeReads(r, inflate, 0, hi)
    ensures Range(r, inflate, 0, hi) == Range(r, inflate, 0, mid) + Range(r, inflate, mid, hi)
  {
    hide PositionReads, ByteAt;
  }

  lemma ErrorAfterPrefix(r: OpenReader, inflate: Inflate, mid: nat, hi: nat, size: nat, e: VmdkError)
    requires mid <= hi <= size
    requires RangeReads(r, inflate, 0, mid) && FirstError(r, inflate, mid, hi, e)
    ensures FirstError(r, inflate, 0, size, e)
  {
    var p: nat :| mid <= p < hi && FailsAt(r, inflate, mid, p, e);
    RangeSplit(r, inflate, mid, p);
    assert FailsAt(r, inflate, 0, p, e);
  }

  lemma ErrorMeansUnread(r: OpenReader, inflate: Inflate, lo: nat, hi: nat, e: VmdkError)
    requires FirstError(r, inflate, lo, hi, e)
    ensures !RangeReads(r, inflate, lo, hi)
  {
    hide PositionReads, FailsAt;
    var p: nat :| lo <= p < hi && FailsAt(r, inflate, lo, p, e);
    FailedGrain(r, inflate, lo, p, e);
  }

  lemma FailedGrain(r: OpenReader, inflate: Inflate, lo: nat, p: nat, e: VmdkError)
    requires FailsAt(r, inflate, lo, p, e)
    ensures !PositionReads(r, inflate, p)
  {
  }

  /** Draining the iterator gives the canonical chunking of the flat disk; if some grain below the capacity
      does not read, the error of the first such grain. */
  method CollectChunks(r: OpenReader, inflate: Inflate, chunkSize: Positive) returns (res: Result<seq<seq<byte>>, VmdkError>)
    ensures RangeReads(r, inflate, 0, r.capacityBytes) ==> res == Ok(Chunks(VirtualDisk(r, inflate), chunkSize))
    ensures !RangeReads(r, inflate, 0, r.capacityBytes) ==>
              res.Err? && FirstError(r, inflate, 0, r.capacityBytes, res.error)
  {
    var it := new SparseChunkIterator(r, inflate, chunkSize);
    var chunks: seq<seq<byte>> := [];
    while true
      invariant it.Valid() && it.reader == r && it.inflate == inflate && it.chunkSize == chunkSize
      invariant RangeReads(r, inflate, 0, it.currentOffset)
      invariant Gathered(chunks, Range(r, inflate, 0, it.currentOffset), chunkSize, r.capacityBytes)
      decreases r.capacityBytes - it.currentOffset
    {
      ghost var lo := it.currentOffset;
      ghost var hi := Min(lo + chunkSize, r.capacityBytes);
      var item := it.Next();
      if item.None? {
        break;
      }
      if item.value.Err? {
        ErrorAfterPrefix(r, inflate, lo, hi, r.capacityBytes, item.value.error);
        ErrorMeansUnread(r, inflate, 0, r.capacityBytes, item.value.error);
        return Err(item.value.error);
      }
      RangeSplit(r, inflate, lo, hi);
      GatherNext(chunks, Range(r, inflate, 0, lo), item.value.value, chunkSize, r.capacityBytes);
      chunks := chunks + [item.value.value];
    }
    ChunkingUnique(chunks, VirtualDisk(r, inflate), chunkSize);
    return Ok(chunks);
  }
}
