/** The iterators over a flat, memory-mapped disk file. */
module FlatReader {
  import opened Bytes
  import opened Results
  import opened Chunking

  class ChunkIterator {
    const file: seq<byte>
    const chunkSize: nat
    var currentOffset: nat
    ghost var yielded: nat

    ghost predicate Valid()
      reads this
    {
      && chunkSize > 0
      && yielded <= CountChunks(|file|, chunkSize)
      && currentOffset == Min(yielded * chunkSize, |file|)
    }

    constructor (file: seq<byte>, chunkSize: Positive)
      ensures Valid() && yielded == 0 && this.file == file && this.chunkSize == chunkSize
    {
      this.file, this.chunkSize := file, chunkSize;
      currentOffset := 0;
      yielded := 0;
    }

    /** The i-th call yields the i-th canonical chunk; afterwards there is nothing left. */
    method Next() returns (item: Option<seq<byte>>)
      requires Valid()
      modifies this
      ensures Valid()
      ensures old(yielded) < CountChunks(|file|, chunkSize) ==>
                item == Some(Chunks(file, chunkSize)[old(yielded)]) && yielded == old(yielded) + 1
      ensures old(yielded) == CountChunks(|file|, chunkSize) ==>
                item == None && yielded == old(yielded) && currentOffset == old(currentOffset)
    {
      ChunkStart(|file|, chunkSize, yielded);
      if currentOffset >= |file| {
        return None;
      }
      var remaining := |file| - currentOffset;
      var chunkLen := Min(remaining, chunkSize);
      item := Some(file[currentOffset..currentOffset + chunkLen]);
      currentOffset := currentOffset + chunkLen;
      assert (yielded + 1) * chunkSize == yielded * chunkSize + chunkSize;
      yielded := yielded + 1;
    }
  }

  datatype IndexedChunk = IndexedChunk(index: nat, data: seq<byte>, isLast: bool)

  class IndexedChunkIterator {
    const file: seq<byte>
    const chunkSize: nat
    const totalChunks: nat
    var currentOffset: nat
    var currentIndex: nat

    ghost predicate Valid()
      reads this
    {
      && chunkSize > 0
      && totalChunks == CountChunks(|file|, chunkSize)
      && currentIndex <= totalChunks
      && currentOffset == Min(currentIndex * chunkSize, |file|)
    }

    constructor (file: seq<byte>, chunkSize: Positive)
      ensures Valid() && currentIndex == 0 && this.file == file && this.chunkSize == chunkSize
    {
      this.file, this.chunkSize := file, chunkSize;
      totalChunks := CountChunks(|file|, chunkSize);
      currentOffset, currentIndex := 0, 0;
    }

    /** Each chunk carries its own index, and exactly the final one is marked as last. */
    method Next() returns (item: Option<IndexedChunk>)
      requires Valid()
      modifies this
      ensures Valid()
      ensures old(currentIndex) < totalChunks ==>
                && item == Some(IndexedChunk(old(currentIndex), Chunks(file, chunkSize)[old(currentIndex)],
                                             old(currentIndex) == totalChunks - 1))
                && currentIndex == old(currentIndex) + 1
      ensures old(currentIndex) == totalChunks ==> item == None && currentIndex == old(currentIndex)
    {
      ChunkStart(|file|, chunkSize, currentIndex);
      if currentOffset >= |file| {
        return None;
      }
      var remaining := |file| - currentOffset;
      var chunkLen := Min(remaining, chunkSize);
      var data := file[currentOffset..currentOffset + chunkLen];
      item := Some(IndexedChunk(currentIndex, data, currentIndex == totalChunks - 1));
      currentOffset := currentOffset + chunkLen;
      assert (currentIndex + 1) * chunkSize == currentIndex * chunkSize + chunkSize;
      currentIndex := currentIndex + 1;
    }
  }

  /** Draining the iterator gives the canonical chunking of the file. */
  method CollectChunks(file: seq<byte>, chunkSize: Positive) returns (chunks: seq<seq<byte>>)
    ensures chunks == Chunks(file, chunkSize)
  {
    var it := new ChunkIterator(file, chunkSize);
    chunks := [];
    var item := it.Next();
    while item.Some?
      invariant it.Valid() && it.file == file && it.chunkSize == chunkSize
      invariant item.Some? ==> 1 <= it.yielded && item.value == Chunks(file, chunkSize)[it.yielded - 1]
      invariant chunks == Chunks(file, chunkSize)[..it.yielded - if item.Some? then 1 else 0]
      invariant item.None? ==> it.yielded == CountChunks(|file|, chunkSize)
      decreases CountChunks(|file|, chunkSize) - it.yielded, item.Some?
    {
      chunks := chunks + [item.value];
      item := it.Next();
    }
  }
}
