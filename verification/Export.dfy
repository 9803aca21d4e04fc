/** The three disk processors: chunk, compress in parallel, store each chunk as one grain, finish the image. */
module Export {
  import opened Bytes
  import opened Results
  import opened Chunking
  import opened StreamVmdk
  import opened StreamWriter
  import opened SparseChunks
  import opened ExportedDisk
  import opened RoundTrip
  import opened StreamIndex
  import Readback
  import SR = SparseReader
  import FlatReader
  import SplitExtents
  import Pipeline

  /** Wrapping subtraction and addition cancel. */
  lemma WrapCancels(a: nat, c: u64)
    ensures (a + (c - a) % U64_LIMIT) % U64_LIMIT == c
  {
    var r, q := (c - a) % U64_LIMIT, (c - a) / U64_LIMIT;
    assert a + r == c + U64_LIMIT * (-q);
    assert (a + r) % U64_LIMIT == c by {
      RemainderUnique(a + r, U64_LIMIT, -q, c);
    }
  }

  /** The byte count after chunk `i` of `n`, in 64-bit arithmetic. */
  function NextCount(count: nat, i: nat, n: nat, chunkSize: nat, total: u64): nat {
    var originalSize := if i < n - 1 then chunkSize else (total - i * chunkSize) % U64_LIMIT;
    (count + originalSize) % U64_LIMIT
  }

  /** The byte count before chunk `i`. */
  function CountBefore(i: nat, n: nat, chunkSize: nat, total: u64): nat {
    if i < n then i * chunkSize else if i == 0 then 0 else total
  }

  lemma CountStep(i: nat, n: nat, chunkSize: nat, total: u64)
    requires i < n && (i + 1 < n ==> (i + 1) * chunkSize < U64_LIMIT)
    ensures NextCount(CountBefore(i, n, chunkSize, total), i, n, chunkSize, total)
         == CountBefore(i + 1, n, chunkSize, total)
  {
    NextStart(i, chunkSize);
    if i == n - 1 {
      WrapCancels(i * chunkSize, total);
    }
  }

  lemma CountEnds(n: nat, chunkSize: nat, total: u64)
    ensures CountBefore(0, n, chunkSize, total) == 0
    ensures CountBefore(n, n, chunkSize, total) == if n == 0 then 0 else total
  {
  }

  /** What a processor returns: the image, the running byte count after the last chunk, and whether the subtraction for
      that chunk went below zero, where a build with overflow checks panics instead of wrapping around. */
  datatype Exported = Exported(image: seq<byte>, bytesProcessed: nat, underflow: bool)

  /** Writes the compressed chunks in order and finishes the image. The byte count ends at `total`, also when its last
      step wraps around. */
  method WriteImage(payloads: seq<seq<byte>>, capacityBytes: u64, chunkSize: nat, total: u64) returns (r: Exported)
    requires forall i | 0 <= i < |payloads| :: i * chunkSize < U64_LIMIT && Lba(i, chunkSize) < U64_LIMIT
    ensures r.image == Image(capacityBytes, GrainsOf(payloads, chunkSize))
    ensures r.bytesProcessed == if payloads == [] then 0 else total
    ensures r.underflow <==> payloads != [] && total < (|payloads| - 1) * chunkSize
  {
    hide Image, DirectorySector, CountChunks, NextCount, CountBefore;
    var gs := GrainsOf(payloads, chunkSize);
    CountEnds(|payloads|, chunkSize, total);
    var writer := new StreamVmdkWriter(capacityBytes);
    var bytesProcessed, underflow := 0, false;
    for i := 0 to |payloads|
      invariant fresh(writer) && writer.Valid() && writer.capacityBytes == capacityBytes
      invariant writer.written == gs[..i]
      invariant bytesProcessed == CountBefore(i, |payloads|, chunkSize, total)
      invariant underflow <==> i == |payloads| && i > 0 && total < (i - 1) * chunkSize
    {
      var lba := i * chunkSize / 512;
      assert lba == Lba(i, chunkSize);
      writer.WriteGrain(lba, payloads[i]);
      CountStep(i, |payloads|, chunkSize, total);
      bytesProcessed := NextCount(bytesProcessed, i, |payloads|, chunkSize, total);
      underflow := i == |payloads| - 1 && total < i * chunkSize;
      assert gs[..i + 1] == gs[..i] + [gs[i]];
    }
    assert gs[..|gs|] == gs;
    var image := writer.Finish();
    r := Exported(image, bytesProcessed, underflow);
  }

  /** Compresses all chunks on the pipeline. Writing into memory cannot fail, so neither can the compressor. */
  method CompressAll(chunks: seq<seq<byte>>, codec: Codec) returns (payloads: seq<seq<byte>>)
    ensures payloads == Compressed(chunks, codec)
  {
    var f: Pipeline.Processor<seq<byte>, ()> :=
      (i: nat, c: seq<byte>) => Ok((codec.compress(c), |codec.compress(c)|));
    var r := Pipeline.Process(chunks, f);
    assert Pipeline.AllSucceed(chunks, f);
    payloads := r.value;
  }

  /** Chunk starts lie inside the disk. */
  lemma LastStart(size: nat, chunkSize: Positive)
    ensures var n := CountChunks(size, chunkSize); (n == 0 <==> size == 0) && (n > 0 ==> (n - 1) * chunkSize < size)
  {
    CountBounds(size, chunkSize);
  }

  /** What every image of a disk satisfies: payloads that fit their size field are the disk in stream order, and if the
      index fits too, an aligned disk also reads back through the tables. */
  ghost predicate Preserves(image: seq<byte>, disk: seq<byte>, capacityBytes: u64, codec: Codec, chunkSize: Positive)
    requires |disk| < U64_LIMIT
  {
    var gs := ExportedGrains(disk, codec, chunkSize);
    codec.Lossless() ==>
      && ((forall g | g in gs :: |g.data| < U32_LIMIT) ==> InStreamOrder(image, disk, codec.inflate))
      && (Fits(capacityBytes, gs) && capacityBytes == |disk| && GrainAligned(|disk|, chunkSize) ==>
            Readback.ReadsBack(image, codec.inflate, disk))
  }

  lemma ImagePreserves(disk: seq<byte>, capacityBytes: u64, codec: Codec, chunkSize: Positive)
    requires |disk| < U64_LIMIT
    ensures Preserves(Image(capacityBytes, ExportedGrains(disk, codec, chunkSize)), disk, capacityBytes, codec, chunkSize)
  {
    hide Image, ExportedGrains, InStreamOrder, GrainAligned, Readback.ReadsBack, Fits;
    var gs := ExportedGrains(disk, codec, chunkSize);
    if codec.Lossless() {
      if forall g | g in gs :: |g.data| < U32_LIMIT {
        StreamOrderPreserved(disk, capacityBytes, codec, chunkSize);
      }
      if Fits(capacityBytes, gs) && capacityBytes == |disk| && GrainAligned(|disk|, chunkSize) {
        ReadbackWhenAligned(disk, codec, chunkSize);
      }
    }
  }

  /** `process_disk`: a flat file becomes an image that stores its canonical chunks. */
  method ProcessDisk(file: seq<byte>, capacityBytes: u64, codec: Codec, chunkSize: Positive) returns (r: Exported)
    requires |file| < U64_LIMIT
    ensures r == Exported(Image(capacityBytes, ExportedGrains(file, codec, chunkSize)), |file|, false)
    ensures Preserves(r.image, file, capacityBytes, codec, chunkSize)
  {
    hide Image, DirectorySector, CountChunks;
    var chunks := FlatReader.CollectChunks(file, chunkSize);
    var payloads := CompressAll(chunks, codec);
    LbasFit(|file|, chunkSize);
    LastStart(|file|, chunkSize);
    r := WriteImage(payloads, capacityBytes, chunkSize, |file|);
    ImagePreserves(file, capacityBytes, codec, chunkSize);
  }

  /** `process_sparse_disk`: the same image the flat disk behind the sparse file would give. */
  method ProcessSparseDisk(file: seq<byte>, capacityBytes: u64, codec: Codec, chunkSize: Positive)
      returns (res: Result<Exported, SR.VmdkError>)
    ensures SplitExtents.ExtentReads(file, codec.inflate) ==>
              var disk := SplitExtents.ExtentDisk(file, codec.inflate);
              && res.Ok? && res.value.image == Image(capacityBytes, ExportedGrains(disk, codec, chunkSize))
              && Preserves(res.value.image, disk, capacityBytes, codec, chunkSize)
              && res.value.bytesProcessed == (if disk == [] then 0 else capacityBytes)
              && (capacityBytes >= |disk| ==> !res.value.underflow)
    ensures !SplitExtents.ExtentReads(file, codec.inflate) ==>
              res.Err? && SplitExtents.ExtentFails(file, codec.inflate, res.error)
  {
    hide Image, DirectorySector, SR.OpenSpec, FirstError, CountChunks;
    var reader := SR.Open(file);
    if reader.Err? {
      return Err(reader.error);
    }
    var r := reader.value;
    var chunks := CollectChunks(r, codec.inflate, chunkSize);
    if chunks.Err? {
      SplitExtents.FailsMeansUnread(file, codec.inflate, chunks.error);
      return Err(chunks.error);
    }
    var payloads := CompressAll(chunks.value, codec);
    LbasFit(r.capacityBytes, chunkSize);
    LastStart(r.capacityBytes, chunkSize);
    var exported := WriteImage(payloads, capacityBytes, chunkSize, capacityBytes);
    ImagePreserves(SplitExtents.ExtentDisk(file, codec.inflate), capacityBytes, codec, chunkSize);
    return Ok(exported);
  }

  /** `process_split_sparse_disk`: the same image the concatenated flat disks would give, wherever the extent
      boundaries fall; otherwise the error of the first extent that fails. */
  method ProcessSplitDisk(files: seq<seq<byte>>, capacityBytes: u64, codec: Codec, chunkSize: Positive)
      returns (res: Result<Exported, SR.VmdkError>)
    requires (forall f | f in files :: SplitExtents.ExtentReads(f, codec.inflate)) ==>
               |SplitExtents.WholeDisk(files, codec.inflate)| < U64_LIMIT
    ensures (forall f | f in files :: SplitExtents.ExtentReads(f, codec.inflate)) ==>
              var disk := SplitExtents.WholeDisk(files, codec.inflate);
              && res.Ok? && res.value.image == Image(capacityBytes, ExportedGrains(disk, codec, chunkSize))
              && Preserves(res.value.image, disk, capacityBytes, codec, chunkSize)
              && res.value.bytesProcessed == (if disk == [] then 0 else capacityBytes)
              && (capacityBytes >= |disk| ==> !res.value.underflow)
    ensures res.Ok? <==> forall f | f in files :: SplitExtents.ExtentReads(f, codec.inflate)
    ensures res.Err? ==> exists k: nat | k < |files| ::
              && (forall f | f in files[..k] :: SplitExtents.ExtentReads(f, codec.inflate))
              && SplitExtents.ExtentFails(files[k], codec.inflate, res.error)
  {
    hide Image, DirectorySector, SplitExtents.ExtentReads, SplitExtents.ExtentFails, SplitExtents.WholeDisk, CountChunks;
    var chunks := SplitExtents.RechunkExtents(files, codec.inflate, chunkSize);
    if chunks.Err? {
      return Err(chunks.error);
    }
    ghost var disk := SplitExtents.WholeDisk(files, codec.inflate);
    var payloads := CompressAll(chunks.value, codec);
    LbasFit(|disk|, chunkSize);
    LastStart(|disk|, chunkSize);
    var exported := WriteImage(payloads, capacityBytes, chunkSize, capacityBytes);
    ImagePreserves(disk, capacityBytes, codec, chunkSize);
    return Ok(exported);
  }
}
