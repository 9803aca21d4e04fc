/** The writer itself: an append-only sector allocator over an output buffer. */
module StreamWriter {
  import opened Bytes
  import opened StreamVmdk

  lemma {:induction false} Appended(gs: seq<Grain>, g: Grain)
    ensures Body(gs + [g]) == Body(gs) + GrainRecord(g)
    ensures Offsets(gs + [g]) == Offsets(gs)[GrainIndex(g) := NextSector(gs)]
    ensures Latest(gs + [g]) == Latest(gs)[GrainIndex(g) := g]
  {
    assert (gs + [g])[..|gs + [g]| - 1] == gs;
  }

  /** Marker, payload and the padding measured on an aligned file position make one record. */
  lemma RecordEmitted(before: seq<byte>, g: Grain, p: nat)
    requires |before| % SECTOR_SIZE == 0 && p < SECTOR_SIZE
    requires (|before| + 12 + |g.data| + p) % SECTOR_SIZE == 0
    ensures before + (Le(g.lba, 8) + Le(AsU32(|g.data|), 4)) + g.data + Zeros(p)
         == before + GrainRecord(g)
  {
    var lba, size := Le(g.lba, 8), Le(AsU32(|g.data|), 4);
    var content := lba + (size + g.data);
    AlignedRest(|before|, 12 + |g.data| + p);
    PaddingUnique(|content|, p);
    Assoc(lba, size, g.data);
    Assoc(before, lba + size, g.data);
    Assoc(before, content, Zeros(p));
  }

  lemma BodyExtended(before: seq<byte>, gs: seq<Grain>, g: Grain, head: seq<byte>)
    requires before == head + Body(gs) && |before| % SECTOR_SIZE == 0
    ensures before + GrainRecord(g) == head + Body(gs + [g])
    ensures |before + GrainRecord(g)| % SECTOR_SIZE == 0
  {
    Appended(gs, g);
    Assoc(head, Body(gs), GrainRecord(g));
    AlignedSum(|before|, |GrainRecord(g)|);
  }

  /** All that one `WriteGrain` changes, in terms of the history of writes. */
  lemma GrainWritten(before: seq<byte>, gs: seq<Grain>, g: Grain, p: nat, head: seq<byte>)
    requires before == head + Body(gs) && |head| == SECTOR_SIZE && |before| % SECTOR_SIZE == 0
    requires p < SECTOR_SIZE && (|before| + 12 + |g.data| + p) % SECTOR_SIZE == 0
    ensures before + (Le(g.lba, 8) + Le(AsU32(|g.data|), 4)) + g.data + Zeros(p)
         == head + Body(gs + [g])
    ensures Offsets(gs + [g]) == Offsets(gs)[g.lba / GRAIN_SIZE := |before| / SECTOR_SIZE]
  {
    hide Body, Le, GrainRecord;
    RecordEmitted(before, g, p);
    BodyExtended(before, gs, g, head);
    Appended(gs, g);
  }

  /** One turn of the table loop extends the table area by one region. */
  lemma TableEmitted(start: seq<byte>, offsets: map<nat, nat>, t: nat)
    ensures start + Tables(offsets, t) + TableRegion(offsets, t)
         == start + Tables(offsets, t + 1)
  {
    Assoc(start, Tables(offsets, t), TableRegion(offsets, t));
  }

  class StreamVmdkWriter {
    var output: seq<byte>
    var header: SparseExtentHeader
    var currentPos: nat
    var grainOffsets: map<nat, nat>
    var grainSizeBytes: nat

    ghost var capacityBytes: u64
    ghost var written: seq<Grain>

    /** After every call: the position is the number of bytes emitted, which is sector aligned,
        and the file so far is the header followed by the records of the writes made. */
    ghost predicate Valid()
      reads this
    {
      && header == NewHeader(capacityBytes)
      && output == HeaderBytes(header) + Body(written)
      && currentPos == |output|
      && currentPos % SECTOR_SIZE == 0
      && grainOffsets == Offsets(written)
      && grainSizeBytes == GRAIN_BYTES
    }

    constructor (capacity: u64)
      ensures Valid() && written == [] && capacityBytes == capacity
    {
      var h := NewHeader(capacity);
      var bytes := SerializeHeader(h);
      header := h;
      output := bytes;
      currentPos := SECTOR_SIZE;
      grainOffsets := map[];
      grainSizeBytes := h.grainSize * SECTOR_SIZE;
      capacityBytes := capacity;
      written := [];
      assert bytes + Body([]) == bytes;
    }

    method WriteGrain(lba: u64, compressed: seq<byte>)
      requires Valid()
      modifies this
      ensures Valid() && capacityBytes == old(capacityBytes)
      ensures written == old(written) + [Grain(lba, compressed)]
    {
      hide Body, HeaderBytes, GrainRecord, Le, Offsets, NextSector;
      ghost var g := Grain(lba, compressed);
      ghost var before := output;
      var grainIndex := lba / header.grainSize;
      output := output + (Le(lba, 8) + Le(AsU32(|compressed|), 4));
      var grainSector := currentPos / SECTOR_SIZE;
      grainOffsets := grainOffsets[grainIndex := grainSector];
      output := output + compressed;
      currentPos := currentPos + 12 + |compressed|;
      var remainder := currentPos % SECTOR_SIZE;
      PaddingAligns(currentPos);
      ghost var p := 0;
      assert output + Zeros(0) == output;
      if remainder != 0 {
        var padding := SECTOR_SIZE - remainder;
        output := output + Zeros(padding);
        currentPos := currentPos + padding;
        p := padding;
      }
      GrainWritten(before, written, g, p, HeaderBytes(header));
      written := written + [g];
    }

    /** One pass over the 512 slots looks each grain of a table up in the recorded offsets. */
    method BuildEntries(gtIndex: nat) returns (entries: seq<nat>)
      ensures entries == Entries(grainOffsets, gtIndex)
    {
      var start := gtIndex * GTES_PER_GT;
      var table := new nat[GTES_PER_GT](i => 0);
      for i := 0 to GTES_PER_GT
        invariant forall j | 0 <= j < i :: table[j] == Entry(grainOffsets, start + j)
        invariant forall j | i <= j < GTES_PER_GT :: table[j] == 0
      {
        if start + i in grainOffsets {
          table[i] := AsU32(grainOffsets[start + i]);
        }
      }
      entries := table[..];
    }

    /** Concatenates the little-endian words and pads the buffer byte by byte to a sector. */
    method WordsPadded(words: seq<nat>) returns (bytes: seq<byte>)
      ensures bytes == PadToSector(Words(words))
    {
      bytes := [];
      for i := 0 to |words|
        invariant bytes == Words(words[..i])
      {
        WordsSnoc(words[..i], words[i]);
        assert words[..i + 1] == words[..i] + [words[i]];
        bytes := bytes + Le(words[i], 4);
      }
      assert words[..|words|] == words;
      ghost var n := |bytes|;
      while |bytes| % SECTOR_SIZE != 0
        invariant n <= |bytes| <= n + Padding(n)
        invariant bytes == Words(words) + Zeros(|bytes| - n)
        decreases n + Padding(n) - |bytes|
      {
        bytes := bytes + [0];
      }
      PaddingUnique(n, |bytes| - n);
    }

    /** One turn of the table loop: a table with no entry takes no space and gets directory entry 0. */
    method WriteTable(gtIndex: nat) returns (gtOffset: nat)
      requires currentPos == |output|
      modifies this`output, this`currentPos
      ensures output == old(output) + TableRegion(grainOffsets, gtIndex)
      ensures currentPos == |output|
      ensures gtOffset == TableSector(grainOffsets, gtIndex, |old(output)|)
    {
      var entries := BuildEntries(gtIndex);
      if !AnyNonZero(entries) {
        assert output + [] == output;
        return 0;
      }
      ghost var before := output;
      var marker := MarkerBytes(GrainTable, (GTES_PER_GT * 4 + SECTOR_SIZE - 1) / SECTOR_SIZE);
      output := output + marker;
      gtOffset := (currentPos + SECTOR_SIZE) / SECTOR_SIZE;
      currentPos := currentPos + SECTOR_SIZE;
      var gtBytes := WordsPadded(entries);
      NoPadding(Words(entries));
      output := output + gtBytes;
      currentPos := currentPos + |gtBytes|;
      Assoc(before, marker, gtBytes);
    }

    method WriteTables(numGts: nat) returns (gtOffsets: seq<nat>)
      requires currentPos == |output|
      modifies this`output, this`currentPos
      ensures output == old(output) + Tables(grainOffsets, numGts)
      ensures currentPos == |output|
      ensures gtOffsets == TableOffsets(grainOffsets, numGts, |old(output)|)
    {
      gtOffsets := [];
      ghost var start := output;
      assert start + [] == start;
      for gtIndex := 0 to numGts
        invariant output == start + Tables(grainOffsets, gtIndex)
        invariant currentPos == |output|
        invariant gtOffsets == TableOffsets(grainOffsets, gtIndex, |start|)
      {
        var gtOffset := WriteTable(gtIndex);
        gtOffsets := gtOffsets + [gtOffset];
        TableEmitted(start, grainOffsets, gtIndex);
      }
    }

    method WriteDirectory(gtOffsets: seq<nat>) returns (gdOffset: nat)
      requires currentPos == |output|
      modifies this`output, this`currentPos
      ensures output == old(output) + DirectoryRegion(gtOffsets)
      ensures currentPos == |output|
      ensures gdOffset == (|old(output)| + SECTOR_SIZE) / SECTOR_SIZE
    {
      ghost var before := output;
      var gdMarker := MarkerBytes(GrainDirectory, (|gtOffsets| * 4 + SECTOR_SIZE - 1) / SECTOR_SIZE);
      output := output + gdMarker;
      gdOffset := (currentPos + SECTOR_SIZE) / SECTOR_SIZE;
      currentPos := currentPos + SECTOR_SIZE;
      var gdBytes := WordsPadded(gtOffsets);
      output := output + gdBytes;
      currentPos := currentPos + |gdBytes|;
      Assoc(before, gdMarker, gdBytes);
    }

    /** Footer marker, footer and end-of-stream marker; the last is not counted in `currentPos`. */
    method WriteTrailer(footer: SparseExtentHeader)
      requires currentPos == |output|
      modifies this`output, this`currentPos
      ensures output == old(output) + Trailer(footer)
      ensures currentPos + SECTOR_SIZE == |output|
    {
      ghost var before := output;
      var footerMarker := MarkerBytes(Footer, 1);
      output := output + footerMarker;
      currentPos := currentPos + SECTOR_SIZE;
      var footerBytes := SerializeHeader(footer);
      output := output + footerBytes;
      currentPos := currentPos + SECTOR_SIZE;
      var eosMarker := MarkerBytes(EndOfStream, 0);
      output := output + eosMarker;
      Assoc(before, footerMarker, footerBytes);
      Assoc(before, footerMarker + footerBytes, eosMarker);
      Assoc(footerMarker, footerBytes, eosMarker);
    }

    /** Emits tables, directory, footer and end marker, and hands out the finished file. */
    method Finish() returns (image: seq<byte>)
      requires Valid()
      modifies this
      ensures capacityBytes == old(capacityBytes) && written == old(written)
      ensures image == Image(capacityBytes, written) == output
      ensures currentPos + SECTOR_SIZE == |image|
    {
      hide Tables, TableOffsets, DirectoryRegion, Trailer, HeaderBytes, Body, Offsets;
      var totalGrains := (header.capacity + header.grainSize - 1) / header.grainSize;
      var numGts := (totalGrains + GTES_PER_GT - 1) / GTES_PER_GT;
      var gtOffsets := WriteTables(numGts);
      ghost var before := output;
      assert before == BeforeDirectory(capacityBytes, written);
      var gdOffset := WriteDirectory(gtOffsets);
      var footer := AsFooter(header, AsU64(gdOffset));
      WriteTrailer(footer);
      Assoc(before, DirectoryRegion(gtOffsets), Trailer(footer));
      image := output;
    }
  }
}
