/** What an export of a disk writes: its chunks, compressed, each as one grain. */
module ExportedDisk {
  import opened Bytes
  import opened Chunking
  import opened StreamVmdk

  /** DEFLATE as a parameter: a compressor, and the bytes a decoder produces. */
  datatype Codec = Codec(compress: seq<byte> -> seq<byte>, inflate: seq<byte> -> seq<byte>) {
    ghost predicate Lossless() {
      forall d: seq<byte> :: inflate(compress(d)) == d && compress(d) != []
    }

    /** Chunks of at most `chunkSize` bytes compress to at most `bound` bytes. */
    ghost predicate Bounded(chunkSize: nat, bound: nat) {
      forall d: seq<byte> | |d| <= chunkSize :: |compress(d)| <= bound
    }
  }

  /** A codec that only puts a byte in front. */
  function StoringCodec(): Codec {
    Codec((d: seq<byte>) => [0] + d, (z: seq<byte>) => if z == [] then [] else z[1..])
  }

  /** The assumptions on the codec can be met. */
  lemma LosslessCodecExists(n: nat)
    ensures StoringCodec().Lossless() && StoringCodec().Bounded(n, n + 1)
  {
    var c := StoringCodec();
    forall d: seq<byte>
      ensures c.inflate(c.compress(d)) == d && c.compress(d) != []
    {
      assert ([0] + d)[1..] == d;
    }
    assert c.Lossless();
  }

  /** Sector address given to chunk `i`. */
  function Lba(i: nat, chunkSize: nat): nat {
    i * chunkSize / 512
  }

  /** The writes made for a list of compressed chunks. */
  function GrainsOf(payloads: seq<seq<byte>>, chunkSize: nat): (gs: seq<Grain>)
    requires forall i | 0 <= i < |payloads| :: Lba(i, chunkSize) < U64_LIMIT
    ensures |gs| == |payloads|
    ensures forall i | 0 <= i < |gs| :: gs[i] == Grain(Lba(i, chunkSize), payloads[i])
  {
    seq(|payloads|, i requires 0 <= i < |payloads| => Grain(Lba(i, chunkSize), payloads[i]))
  }

  function Compressed(chunks: seq<seq<byte>>, codec: Codec): (ps: seq<seq<byte>>)
    ensures |ps| == |chunks| && forall i | 0 <= i < |ps| :: ps[i] == codec.compress(chunks[i])
  {
    seq(|chunks|, i requires 0 <= i < |chunks| => codec.compress(chunks[i]))
  }

  lemma LbasFit(size: nat, chunkSize: Positive)
    requires size < U64_LIMIT
    ensures forall i: nat | i < CountChunks(size, chunkSize) :: i * chunkSize < U64_LIMIT && Lba(i, chunkSize) < U64_LIMIT
  {
    forall i: nat | i < CountChunks(size, chunkSize)
      ensures i * chunkSize < U64_LIMIT && Lba(i, chunkSize) < U64_LIMIT
    {
      ChunkStart(size, chunkSize, i);
    }
  }

  /** The writes an export of `disk` makes. */
  function ExportedGrains(disk: seq<byte>, codec: Codec, chunkSize: Positive): (gs: seq<Grain>)
    requires |disk| < U64_LIMIT
    ensures |gs| == CountChunks(|disk|, chunkSize)
    ensures forall i | 0 <= i < |gs| ::
              gs[i].lba == Lba(i, chunkSize) && gs[i].data == codec.compress(Chunks(disk, chunkSize)[i])
  {
    LbasFit(|disk|, chunkSize);
    GrainsOf(Compressed(Chunks(disk, chunkSize), codec), chunkSize)
  }
}
