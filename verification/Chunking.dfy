/** Cutting a byte string into chunks of one size. */
module Chunking {
  import opened Bytes

  function Min(a: int, b: int): int {
    if a < b then a else b
  }

  /** The count the iterators announce. */
  function CountChunks(size: nat, chunkSize: Positive): nat
  {
    if size == 0 then 0
    else size / chunkSize + if size % chunkSize > 0 then 1 else 0
  }

  /** `k` chunks are just enough. */
  lemma CountBounds(size: nat, chunkSize: Positive)
    ensures var k := CountChunks(size, chunkSize);
            size <= k * chunkSize && (k > 0 ==> (k - 1) * chunkSize < size) && (k == 0 <==> size == 0)
  {
    var q := size / chunkSize;
    assert size == chunkSize * q + size % chunkSize;
    assert (q + 1) * chunkSize == q * chunkSize + chunkSize;
    if size > 0 && q > 0 && size % chunkSize == 0 {
      assert (q - 1) * chunkSize == q * chunkSize - chunkSize;
    }
  }

  /** A full chunk starts inside the string; so `i` chunks fit below the count. */
  lemma ChunkStart(size: nat, chunkSize: Positive, i: nat)
    ensures i < CountChunks(size, chunkSize) <==> i * chunkSize < size
  {
    var k := CountChunks(size, chunkSize);
    CountBounds(size, chunkSize);
    MulOrder(chunkSize, i, k);
    MulOrder(chunkSize, k, i + 1);
    assert i < k ==> i * chunkSize <= (k - 1) * chunkSize by {
      if i < k - 1 {
        MulOrder(chunkSize, i, k - 1);
      }
    }
    assert i >= k ==> i * chunkSize >= k * chunkSize by {
      if k < i {
        MulOrder(chunkSize, k, i);
      }
    }
  }

  function ChunkAt(s: seq<byte>, chunkSize: nat, i: nat): seq<byte>
    requires i * chunkSize <= |s|
  {
    s[i * chunkSize..Min(i * chunkSize + chunkSize, |s|)]
  }

  /** The canonical chunking: consecutive slices, all full but possibly the last. */
  function Chunks(s: seq<byte>, chunkSize: Positive): (cs: seq<seq<byte>>)
    ensures |cs| == CountChunks(|s|, chunkSize)
    ensures forall i | 0 <= i < |cs| :: i * chunkSize < |s| && cs[i] == ChunkAt(s, chunkSize, i)
  {
    assert forall i: nat | i < CountChunks(|s|, chunkSize) :: i * chunkSize < |s| by {
      forall i: nat | i < CountChunks(|s|, chunkSize)
        ensures i * chunkSize < |s|
      {
        ChunkStart(|s|, chunkSize, i);
      }
    }
    seq(CountChunks(|s|, chunkSize), i requires 0 <= i < CountChunks(|s|, chunkSize) => ChunkAt(s, chunkSize, i))
  }

  function Join(cs: seq<seq<byte>>): seq<byte> {
    if cs == [] then [] else Join(cs[..|cs| - 1]) + cs[|cs| - 1]
  }

  lemma {:induction false} JoinSnoc(cs: seq<seq<byte>>, c: seq<byte>)
    ensures Join(cs + [c]) == Join(cs) + c
  {
    assert (cs + [c])[..|cs + [c]| - 1] == cs;
  }

  lemma {:induction false} JoinConcat(a: seq<seq<byte>>, b: seq<seq<byte>>)
    ensures Join(a + b) == Join(a) + Join(b)
  {
    if b == [] {
      assert a + b == a;
      assert Join(a) + [] == Join(a);
    } else {
      var init, last := b[..|b| - 1], b[|b| - 1];
      JoinConcat(a, init);
      assert a + b == (a + init) + [last];
      JoinSnoc(a + init, last);
      Assoc(Join(a), Join(init), last);
    }
  }

  /** What any cutting into chunks of this size satisfies: nothing lost, all full but the last, none empty. */
  ghost predicate IsChunking(cs: seq<seq<byte>>, s: seq<byte>, chunkSize: nat) {
    && Join(cs) == s
    && (forall i | 0 <= i < |cs| - 1 :: |cs[i]| == chunkSize)
    && (cs != [] ==> 0 < |cs[|cs| - 1]| <= chunkSize)
  }

  lemma SliceExtend(s: seq<byte>, a: nat, b: nat)
    requires a <= b <= |s|
    ensures s[..a] + s[a..b] == s[..b]
  {
  }

  /** The first `i` canonical chunks join to the first `i * chunkSize` bytes. */
  lemma {:induction false} ChunksPrefix(s: seq<byte>, chunkSize: Positive, i: nat)
    requires i <= CountChunks(|s|, chunkSize)
    ensures Join(Chunks(s, chunkSize)[..i]) == s[..Min(i * chunkSize, |s|)]
  {
    hide CountChunks, Chunks, Join;
    var cs := Chunks(s, chunkSize);
    JoinNothing();
    if i > 0 {
      ChunksPrefix(s, chunkSize, i - 1);
      JoinTake(cs, i - 1);
      NextStart(i - 1, chunkSize);
      var at := (i - 1) * chunkSize;
      assert cs[i - 1] == ChunkAt(s, chunkSize, i - 1);
      SliceExtend(s, at, Min(at + chunkSize, |s|));
    }
  }

  lemma JoinNothing()
    ensures Join([]) == []
  {
  }

  lemma JoinTake(cs: seq<seq<byte>>, i: nat)
    requires i < |cs|
    ensures Join(cs[..i + 1]) == Join(cs[..i]) + cs[i]
  {
    assert cs[..i + 1] == cs[..i] + [cs[i]];
    JoinSnoc(cs[..i], cs[i]);
  }

  lemma NextStart(i: nat, chunkSize: nat)
    ensures (i + 1) * chunkSize == i * chunkSize + chunkSize
  {
  }

  /** The canonical chunking is a chunking. */
  lemma ChunksAreChunking(s: seq<byte>, chunkSize: Positive)
    ensures IsChunking(Chunks(s, chunkSize), s, chunkSize)
  {
    hide CountChunks, Chunks;
    var cs := Chunks(s, chunkSize);
    ChunksPrefix(s, chunkSize, |cs|);
    CountBounds(|s|, chunkSize);
    assert cs[..|cs|] == cs && s[..|s|] == s;
    forall i | 0 <= i < |cs| - 1
      ensures |cs[i]| == chunkSize
    {
      FullChunk(s, chunkSize, i);
    }
  }

  lemma FullChunk(s: seq<byte>, chunkSize: Positive, i: nat)
    requires i + 1 < CountChunks(|s|, chunkSize)
    ensures |Chunks(s, chunkSize)[i]| == chunkSize
  {
    hide CountChunks, Chunks;
    var cs := Chunks(s, chunkSize);
    NextStart(i, chunkSize);
    assert cs[i] == ChunkAt(s, chunkSize, i) && cs[i + 1] == ChunkAt(s, chunkSize, i + 1);
  }

  lemma {:induction false} FullJoinLength(cs: seq<seq<byte>>, chunkSize: nat)
    requires forall i | 0 <= i < |cs| :: |cs[i]| == chunkSize
    ensures |Join(cs)| == |cs| * chunkSize
  {
    if cs != [] {
      FullJoinLength(cs[..|cs| - 1], chunkSize);
      NextStart(|cs| - 1, chunkSize);
    }
  }

  /** And the only one. */
  lemma ChunkingUnique(cs: seq<seq<byte>>, s: seq<byte>, chunkSize: Positive)
    requires IsChunking(cs, s, chunkSize)
    ensures cs == Chunks(s, chunkSize)
  {
    hide CountChunks, Chunks;
    ChunkingLength(cs, s, chunkSize);
    forall i | 0 <= i < |cs|
      ensures i * chunkSize < |s| && cs[i] == ChunkAt(s, chunkSize, i)
    {
      var pre, post := cs[..i], cs[i + 1..];
      assert cs == cs[..i + 1] + post;
      JoinConcat(cs[..i + 1], post);
      JoinTake(cs, i);
      FullJoinLength(pre, chunkSize);
      assert s == Join(pre) + cs[i] + Join(post);
      assert |Join(pre)| == i * chunkSize;
      if i == |cs| - 1 {
        assert post == [];
      }
    }
  }

  lemma ChunkingLength(cs: seq<seq<byte>>, s: seq<byte>, chunkSize: Positive)
    requires IsChunking(cs, s, chunkSize)
    ensures |cs| == CountChunks(|s|, chunkSize)
    ensures forall i | 0 <= i < |cs| :: i * chunkSize < |s|
  {
    if cs != [] {
      var init := cs[..|cs| - 1];
      FullJoinLength(init, chunkSize);
      ChunkStart(|s|, chunkSize, |cs| - 1);
      ChunkStart(|s|, chunkSize, |cs|);
      assert |cs| * chunkSize == (|cs| - 1) * chunkSize + chunkSize;
      forall i | 0 <= i < |cs|
        ensures i * chunkSize < |s|
      {
        ChunkStart(|s|, chunkSize, i);
      }
    }
  }
}
