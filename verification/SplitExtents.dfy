/** Re-chunking a disk that is split over several sparse extent files. */
module SplitExtents {
  import opened Bytes
  import opened Results
  import opened Chunking
  import opened SparseReader
  import opened SparseChunks

  /** The carried state: only full chunks are out, and less than one chunk is carried. */
  ghost predicate Carry(all: seq<seq<byte>>, partial: seq<byte>, consumed: seq<byte>, chunkSize: nat) {
    && (forall i | 0 <= i < |all| :: |all[i]| == chunkSize)
    && |partial| < chunkSize
    && Join(all) + partial == consumed
  }

  /** One incoming chunk: joined to the carry and cut again, passed through when full, or carried. */
  method Feed(all: seq<seq<byte>>, partial: seq<byte>, chunk: seq<byte>, chunkSize: Positive, ghost consumed: seq<byte>)
      returns (all': seq<seq<byte>>, partial': seq<byte>)
    requires |chunk| <= chunkSize
    requires Carry(all, partial, consumed, chunkSize)
    ensures Carry(all', partial', consumed + chunk, chunkSize)
  {
    all', partial' := all, partial;
    Assoc(Join(all), partial, chunk);
    if partial' != [] {
      partial' := partial' + chunk;
      while |partial'| >= chunkSize
        invariant forall i | 0 <= i < |all'| :: |all'[i]| == chunkSize
        invariant Join(all') + partial' == consumed + chunk
        decreases |partial'|
      {
        var full := partial'[..chunkSize];
        JoinSnoc(all', full);
        Assoc(Join(all'), full, partial'[chunkSize..]);
        assert full + partial'[chunkSize..] == partial';
        partial' := partial'[chunkSize..];
        all' := all' + [full];
      }
    } else if |chunk| == chunkSize {
      JoinSnoc(all', chunk);
      assert Join(all') + partial == Join(all');
      all' := all' + [chunk];
      assert Join(all') + [] == Join(all');
    } else {
      partial' := chunk;
      assert [] + chunk == chunk;
    }
  }

  /** What is left over becomes the last chunk. */
  lemma CarryFinishes(all: seq<seq<byte>>, partial: seq<byte>, consumed: seq<byte>, chunkSize: Positive)
    requires Carry(all, partial, consumed, chunkSize)
    ensures (if partial == [] then all else all + [partial])
         == Chunks(consumed, chunkSize)
  {
    JoinSnoc(all, partial);
    assert partial == [] ==> Join(all) + partial == Join(all);
    ChunkingUnique(if partial == [] then all else all + [partial], consumed, chunkSize);
  }

  /** An extent file that opens and whose grains all read. */
  ghost predicate ExtentReads(file: seq<byte>, inflate: Inflate) {
    OpenSpec(file).Ok? && RangeReads(OpenSpec(file).value, inflate, 0, OpenSpec(file).value.capacityBytes)
  }

  ghost function ExtentDisk(file: seq<byte>, inflate: Inflate): seq<byte>
    requires ExtentReads(file, inflate)
  {
    VirtualDisk(OpenSpec(file).value, inflate)
  }

  /** The concatenation of the flat disks of the extents. */
  ghost function WholeDisk(files: seq<seq<byte>>, inflate: Inflate): seq<byte>
    requires forall f | f in files :: ExtentReads(f, inflate)
  {
    if files == [] then []
    else WholeDisk(files[..|files| - 1], inflate) + ExtentDisk(files[|files| - 1], inflate)
  }

  ghost predicate ExtentFails(file: seq<byte>, inflate: Inflate, e: VmdkError) {
    || OpenSpec(file) == Err(e)
    || (OpenSpec(file).Ok? && FirstError(OpenSpec(file).value, inflate, 0, OpenSpec(file).value.capacityBytes, e))
  }

  lemma FailsMeansUnread(file: seq<byte>, inflate: Inflate, e: VmdkError)
    requires ExtentFails(file, inflate, e)
    ensures !ExtentReads(file, inflate)
  {
    hide OpenSpec;
    if OpenSpec(file).Ok? {
      var r := OpenSpec(file).value;
      ErrorMeansUnread(r, inflate, 0, r.capacityBytes, e);
    }
  }

  /** Chunks of one opened extent, fed in turn. */
  method FeedExtent(reader: OpenReader, inflate: Inflate, chunkSize: Positive, all: seq<seq<byte>>, partial: seq<byte>,
                    ghost consumed: seq<byte>)
      returns (res: Result<(seq<seq<byte>>, seq<byte>), VmdkError>)
    requires Carry(all, partial, consumed, chunkSize)
    ensures RangeReads(reader, inflate, 0, reader.capacityBytes) ==>
              res.Ok? && Carry(res.value.0, res.value.1, consumed + VirtualDisk(reader, inflate), chunkSize)
    ensures !RangeReads(reader, inflate, 0, reader.capacityBytes) ==>
              res.Err? && FirstError(reader, inflate, 0, reader.capacityBytes, res.error)
  {
    hide FirstError, PositionReads, ByteAt, Carry;
    var it := new SparseChunkIterator(reader, inflate, chunkSize);
    var all', partial' := all, partial;
    assert consumed + [] == consumed;
    while true
      invariant it.Valid() && it.reader == reader && it.inflate == inflate && it.chunkSize == chunkSize
      invariant RangeReads(reader, inflate, 0, it.currentOffset)
      invariant Carry(all', partial', consumed + Range(reader, inflate, 0, it.currentOffset), chunkSize)
      decreases reader.capacityBytes - it.currentOffset
    {
      ghost var lo := it.currentOffset;
      ghost var hi := Min(lo + chunkSize, reader.capacityBytes);
      ghost var done := Range(reader, inflate, 0, lo);
      var item := it.Next();
      if item.None? {
        break;
      }
      if item.value.Err? {
        ErrorAfterPrefix(reader, inflate, lo, hi, reader.capacityBytes, item.value.error);
        ErrorMeansUnread(reader, inflate, 0, reader.capacityBytes, item.value.error);
        return Err(item.value.error);
      }
      RangeSplit(reader, inflate, lo, hi);
      Assoc(consumed, done, item.value.value);
      all', partial' := Feed(all', partial', item.value.value, chunkSize, consumed + done);
    }
    return Ok((all', partial'));
  }

  /** The chunks handed to the compressor are the canonical chunking of the concatenated extents, wherever
      the extent boundaries fall; otherwise the error is that of the first extent that fails. */
  method RechunkExtents(files: seq<seq<byte>>, inflate: Inflate, chunkSize: Positive)
      returns (res: Result<seq<seq<byte>>, VmdkError>)
    ensures (forall f | f in files :: ExtentReads(f, inflate)) ==>
              res == Ok(Chunks(WholeDisk(files, inflate), chunkSize))
    ensures res.Err? ==> exists k: nat | k < |files| ::
              && (forall f | f in files[..k] :: ExtentReads(f, inflate))
              && ExtentFails(files[k], inflate, res.error)
    ensures res.Ok? <==> forall f | f in files :: ExtentReads(f, inflate)
  {
    hide FirstError, OpenSpec;
    var all: seq<seq<byte>>, partial: seq<byte> := [], [];
    for k := 0 to |files|
      invariant forall f | f in files[..k] :: ExtentReads(f, inflate)
      invariant Carry(all, partial, WholeDisk(files[..k], inflate), chunkSize)
    {
      var extent := Open(files[k]);
      if extent.Err? {
        assert ExtentFails(files[k], inflate, extent.error);
        FailsMeansUnread(files[k], inflate, extent.error);
        return Err(extent.error);
      }
      var fed := FeedExtent(extent.value, inflate, chunkSize, all, partial, WholeDisk(files[..k], inflate));
      if fed.Err? {
        assert ExtentFails(files[k], inflate, fed.error);
        FailsMeansUnread(files[k], inflate, fed.error);
        return Err(fed.error);
      }
      all, partial := fed.value.0, fed.value.1;
      assert files[..k + 1] == files[..k] + [files[k]];
    }
    assert files[..|files|] == files;
    CarryFinishes(all, partial, WholeDisk(files, inflate), chunkSize);
    if partial != [] {
      all := all + [partial];
    }
    return Ok(all);
  }
}
