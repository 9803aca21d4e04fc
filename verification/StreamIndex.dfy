/** The written two-level index, followed the way the reader does, agrees with the map "grain index to last write". */
module StreamIndex {
  import opened Bytes
  import opened Results
  import opened StreamVmdk
  import SR = SparseReader

  // ---- The header codec

  /** The fields the reader keeps of a written header. */
  function KeptFields(h: SparseExtentHeader): SR.SparseHeader {
    SR.SparseHeader(h.version, h.flags, h.capacity, h.grainSize, h.descriptorOffset, h.descriptorSize,
                    h.numGtesPerGt, h.gdOffset)
  }

  /** Reading a header anywhere in a file recovers every kept field; a foreign magic is reported as such. */
  lemma HeaderCodec(h: SparseExtentHeader, rest: seq<byte>)
    ensures SR.ParseHeader(HeaderBytes(h) + rest)
         == if h.magic == VMDK_MAGIC then Ok(KeptFields(h)) else Err(SR.InvalidMagic(h.magic))
  {
    hide HeaderBytes, Le;
    var s, f := HeaderBytes(h), HeaderBytes(h) + rest;
    HeaderLayout(h);
    assert Holds(f, 0, s);
    HoldsNested(f, 0, s, 0, Le(h.magic, 4));
    HoldsNested(f, 0, s, 4, Le(h.version, 4));
    HoldsNested(f, 0, s, 8, Le(h.flags, 4));
    HoldsNested(f, 0, s, 12, Le(h.capacity, 8));
    HoldsNested(f, 0, s, 20, Le(h.grainSize, 8));
    HoldsNested(f, 0, s, 28, Le(h.descriptorOffset, 8));
    HoldsNested(f, 0, s, 36, Le(h.descriptorSize, 8));
    HoldsNested(f, 0, s, 44, Le(h.numGtesPerGt, 4));
    HoldsNested(f, 0, s, 56, Le(h.gdOffset, 8));
    ReadHeld32(f, 0, h.magic);
    ReadHeld32(f, 4, h.version);
    ReadHeld32(f, 8, h.flags);
    ReadHeld64(f, 12, h.capacity);
    ReadHeld64(f, 20, h.grainSize);
    ReadHeld64(f, 28, h.descriptorOffset);
    ReadHeld64(f, 36, h.descriptorSize);
    ReadHeld32(f, 44, h.numGtesPerGt);
    ReadHeld64(f, 56, h.gdOffset);
  }

  // ---- Where the regions of a finished file lie

  lemma NextSectorBytes(gs: seq<Grain>)
    ensures SECTOR_SIZE * NextSector(gs) == SECTOR_SIZE + |Body(gs)|
  {
    hide Body;
    AlignedSum(SECTOR_SIZE, |Body(gs)|);
  }

  /** Records: the last record for a grain index lies in the sector remembered for it. */
  lemma {:induction false} RecordsHeld(gs: seq<Grain>, g: nat)
    ensures g in Offsets(gs) <==> g in Latest(gs)
    ensures g in Latest(gs) ==>
              && 1 <= Offsets(gs)[g] < NextSector(gs)
              && Holds(Body(gs), SECTOR_SIZE * (Offsets(gs)[g] - 1), GrainRecord(Latest(gs)[g]))
  {
    if gs != [] {
      var init, last := gs[..|gs| - 1], gs[|gs| - 1];
      var prior, record := Body(init), GrainRecord(last);
      NextSectorBytes(init);
      NextSectorBytes(gs);
      if g == GrainIndex(last) {
        HoldsEnd(prior, record);
      } else {
        RecordsHeld(init, g);
        if g in Latest(init) {
          HoldsLonger(prior, record, SECTOR_SIZE * (Offsets(init)[g] - 1), GrainRecord(Latest(init)[g]));
        }
      }
    }
  }

  /** A non-empty table's directory entry, in bytes. */
  lemma TableSectorBytes(offsets: map<nat, nat>, t: nat, pos: nat)
    requires pos % SECTOR_SIZE == 0 && AnyNonZero(Entries(offsets, t))
    ensures SECTOR_SIZE * TableSector(offsets, t, pos) == pos + SECTOR_SIZE
  {
  }

  /** `o` is the right directory entry for table `t` in a table area starting at byte `base`. */
  ghost predicate TableAt(area: seq<byte>, base: nat, offsets: map<nat, nat>, t: nat, o: nat) {
    var entries := Entries(offsets, t);
    if AnyNonZero(entries) then
      && base + SECTOR_SIZE <= SECTOR_SIZE * o < base + |area|
      && Holds(area, SECTOR_SIZE * o - base - SECTOR_SIZE, MarkerBytes(GrainTable, 4))
      && Holds(area, SECTOR_SIZE * o - base, Words(entries))
    else
      o == 0
  }

  /** Tables: a directory entry is 0 for a table without entries, else the sector where its words lie, behind a marker. */
  lemma {:induction false} TablesHeld(offsets: map<nat, nat>, n: nat, base: nat, t: nat)
    requires t < n && base % SECTOR_SIZE == 0
    ensures TableAt(Tables(offsets, n), base, offsets, t, TableOffsets(offsets, n, base)[t])
  {
    hide TableAt, TableSector, TableRegion;
    var init, region := Tables(offsets, n - 1), TableRegion(offsets, n - 1);
    var os := TableOffsets(offsets, n - 1, base);
    var last := TableSector(offsets, n - 1, base + |init|);
    assert Tables(offsets, n) == init + region;
    assert TableOffsets(offsets, n, base) == os + [last];
    if t < n - 1 {
      assert (os + [last])[t] == os[t];
      TablesHeld(offsets, n - 1, base, t);
      TableAtLonger(init, region, base, offsets, t, os[t]);
    } else {
      assert (os + [last])[t] == last;
      LastTableHeld(offsets, t, base, init);
    }
  }

  lemma TablePlace(area: seq<byte>, base: nat, offsets: map<nat, nat>, t: nat, o: nat)
    requires TableAt(area, base, offsets, t, o)
    ensures if AnyNonZero(Entries(offsets, t)) then base + SECTOR_SIZE <= SECTOR_SIZE * o < base + |area| else o == 0
  {
    hide Words, MarkerBytes, Entries, AnyNonZero;
  }

  lemma TableAtLonger(area: seq<byte>, more: seq<byte>, base: nat, offsets: map<nat, nat>, t: nat, o: nat)
    requires TableAt(area, base, offsets, t, o)
    ensures TableAt(area + more, base, offsets, t, o)
  {
    if AnyNonZero(Entries(offsets, t)) {
      HoldsLonger(area, more, SECTOR_SIZE * o - base - SECTOR_SIZE, MarkerBytes(GrainTable, 4));
      HoldsLonger(area, more, SECTOR_SIZE * o - base, Words(Entries(offsets, t)));
    }
  }

  lemma LastTableHeld(offsets: map<nat, nat>, t: nat, base: nat, init: seq<byte>)
    requires base % SECTOR_SIZE == 0 && |init| % SECTOR_SIZE == 0
    ensures TableAt(init + TableRegion(offsets, t), base, offsets, t, TableSector(offsets, t, base + |init|))
  {
    if AnyNonZero(Entries(offsets, t)) {
      var marker, words := MarkerBytes(GrainTable, 4), Words(Entries(offsets, t));
      AlignedSum(base, |init|);
      TableSectorBytes(offsets, t, base + |init|);
      HoldsEnd(init, marker + words);
      HoldsParts(init + (marker + words), |init|, marker, words);
    }
  }

  lemma BeforeRegions(capacityBytes: u64, gs: seq<Grain>)
    ensures var before := BeforeDirectory(capacityBytes, gs);
            && Holds(before, SECTOR_SIZE, Body(gs))
            && Holds(before, SECTOR_SIZE + |Body(gs)|, Tables(Offsets(gs), NumGts(capacityBytes / SECTOR_SIZE)))
  {
    var tables := Tables(Offsets(gs), NumGts(capacityBytes / SECTOR_SIZE));
    HoldsMiddle(HeaderBytes(NewHeader(capacityBytes)), Body(gs), tables);
    HoldsEnd(HeaderBytes(NewHeader(capacityBytes)) + Body(gs), tables);
  }

  lemma DirectorySectorBytes(capacityBytes: u64, gs: seq<Grain>)
    ensures SECTOR_SIZE * DirectorySector(capacityBytes, gs)
         == |BeforeDirectory(capacityBytes, gs)| + SECTOR_SIZE
  {
    hide BeforeDirectory;
    AlignedSum(|BeforeDirectory(capacityBytes, gs)|, SECTOR_SIZE);
  }

  lemma DirectoryHeld(before: seq<byte>, dir: seq<nat>, after: seq<byte>)
    ensures Holds(before + (DirectoryRegion(dir) + after), |before| + SECTOR_SIZE, Words(dir))
    ensures Holds(before + (DirectoryRegion(dir) + after), |before|,
                  MarkerBytes(GrainDirectory, (|dir| * 4 + SECTOR_SIZE - 1) / SECTOR_SIZE))
  {
    var marker := MarkerBytes(GrainDirectory, (|dir| * 4 + SECTOR_SIZE - 1) / SECTOR_SIZE);
    var words, pad := Words(dir), Zeros(Padding(|Words(dir)|));
    var s := before + (marker + (words + pad) + after);
    HoldsEnd(before, marker + (words + pad) + after);
    HoldsParts(s, |before|, marker + (words + pad), after);
    HoldsParts(s, |before|, marker, words + pad);
    HoldsParts(s, |before| + SECTOR_SIZE, words, pad);
  }

  lemma TrailerSuffix(front: seq<byte>, footer: SparseExtentHeader)
    ensures var s := front + Trailer(footer);
            && s[|s| - 2 * SECTOR_SIZE..] == HeaderBytes(footer) + MarkerBytes(EndOfStream, 0)
            && Holds(s, |s| - 3 * SECTOR_SIZE, MarkerBytes(Footer, 1))
  {
    var marker, rest := MarkerBytes(Footer, 1), HeaderBytes(footer) + MarkerBytes(EndOfStream, 0);
    Assoc(front, marker, rest);
    assert (front + marker + rest)[|front + marker|..] == rest;
  }

  /** The finished file is exactly its regions in order, with nothing between them: header, records, tables, directory
      behind its marker, footer behind its marker, end marker. */
  lemma Tiling(capacityBytes: u64, gs: seq<Grain>)
    ensures Image(capacityBytes, gs)
         == HeaderBytes(NewHeader(capacityBytes)) + Body(gs) + Tables(Offsets(gs), NumGts(capacityBytes / SECTOR_SIZE))
            + MarkerBytes(GrainDirectory, (|Directory(capacityBytes, gs)| * 4 + SECTOR_SIZE - 1) / SECTOR_SIZE)
            + DirectoryBytes(Directory(capacityBytes, gs))
            + MarkerBytes(Footer, 1) + HeaderBytes(FooterHeader(capacityBytes, gs)) + MarkerBytes(EndOfStream, 0)
  {
    hide HeaderBytes, Body, Tables, MarkerBytes, DirectoryBytes, Directory, FooterHeader, Offsets, NumGts;
    var before, footer := BeforeDirectory(capacityBytes, gs), HeaderBytes(FooterHeader(capacityBytes, gs));
    var dir := Directory(capacityBytes, gs);
    var m, d := MarkerBytes(GrainDirectory, (|dir| * 4 + SECTOR_SIZE - 1) / SECTOR_SIZE), DirectoryBytes(dir);
    var f, e := MarkerBytes(Footer, 1), MarkerBytes(EndOfStream, 0);
    Assoc(before, m + d, f + (footer + e));
    Assoc(before, m, d);
    Assoc(before + m + d, f, footer + e);
    Assoc(before + m + d + f, footer, e);
  }

  /** Where each region lies. */
  lemma Regions(capacityBytes: u64, gs: seq<Grain>)
    ensures var img := Image(capacityBytes, gs);
            && Holds(img, 0, HeaderBytes(NewHeader(capacityBytes)))
            && Holds(img, SECTOR_SIZE, Body(gs))
            && Holds(img, SECTOR_SIZE + |Body(gs)|, Tables(Offsets(gs), NumGts(capacityBytes / SECTOR_SIZE)))
            && Holds(img, SECTOR_SIZE * DirectorySector(capacityBytes, gs), Words(Directory(capacityBytes, gs)))
            && DirectorySector(capacityBytes, gs) > 0
            && Holds(img, SECTOR_SIZE * (DirectorySector(capacityBytes, gs) - 1),
                     MarkerBytes(GrainDirectory, (|Directory(capacityBytes, gs)| * 4 + SECTOR_SIZE - 1) / SECTOR_SIZE))
            && |img| >= 3 * SECTOR_SIZE
            && Holds(img, |img| - 3 * SECTOR_SIZE, MarkerBytes(Footer, 1))
            && img[|img| - 2 * SECTOR_SIZE..]
               == HeaderBytes(FooterHeader(capacityBytes, gs)) + MarkerBytes(EndOfStream, 0)
  {
    hide BeforeDirectory, Directory, FooterHeader, DirectoryRegion, Trailer, Tables, Body, Words, NumGts, HeaderBytes, MarkerBytes,
         NewHeader, DirectorySector, Offsets;
    var before := BeforeDirectory(capacityBytes, gs);
    var dir, footer := Directory(capacityBytes, gs), FooterHeader(capacityBytes, gs);
    var after := DirectoryRegion(dir) + Trailer(footer);
    var tables := Tables(Offsets(gs), NumGts(capacityBytes / SECTOR_SIZE));
    BeforeRegions(capacityBytes, gs);
    DirectorySectorBytes(capacityBytes, gs);
    HoldsLonger(before, after, SECTOR_SIZE, Body(gs));
    HoldsLonger(before, after, SECTOR_SIZE + |Body(gs)|, tables);
    DirectoryHeld(before, dir, Trailer(footer));
    Assoc(before, DirectoryRegion(dir), Trailer(footer));
    TrailerSuffix(before + DirectoryRegion(dir), footer);
    HeaderFirst(capacityBytes, gs);
    HoldsLonger(before, after, 0, HeaderBytes(NewHeader(capacityBytes)));
  }

  lemma ShownNested(s: seq<byte>, at: nat, header: seq<byte>, capacitySectors: nat, gdOffset: seq<byte>)
    requires Holds(s, at, header) && HeaderShows(header, 0, capacitySectors, gdOffset)
    ensures HeaderShows(s, at, capacitySectors, gdOffset)
  {
    hide Holds;
    forall k: nat, part: seq<byte> | Holds(header, k, part)
      ensures Holds(s, at + k, part)
    {
      HoldsNested(s, at, header, k, part);
    }
  }

  /** The finished file byte for byte where it does not depend on the writes: the header with the directory announced at
      the end, the same header as footer with the directory's sector, and the three markers around it. */
  lemma ImageShows(capacityBytes: u64, gs: seq<Grain>)
    requires DirectorySector(capacityBytes, gs) < U64_LIMIT
    ensures var img, gd, n := Image(capacityBytes, gs), DirectorySector(capacityBytes, gs), NumGts(capacityBytes / 512);
            && |img| >= 1536 && gd > 0
            && HeaderShows(img, 0, capacityBytes / 512, [255, 255, 255, 255, 255, 255, 255, 255])
            && HeaderShows(img, |img| - 1024, capacityBytes / 512, Le(gd, 8))
            && Holds(img, 512 * (gd - 1), Le((4 * n + 511) / 512, 8) + [0, 0, 0, 0, 2, 0, 0, 0])
            && Holds(img, |img| - 1536, [1, 0, 0, 0, 0, 0, 0, 0, 0, 0, 0, 0, 3, 0, 0, 0])
            && Holds(img, |img| - 512, Zeros(512))
  {
    hide Image, DirectorySector, HeaderBytes, MarkerBytes, Words, Body, Tables, Directory, HeaderShows, Le, NumGts;
    var img, gd, footer := Image(capacityBytes, gs), DirectorySector(capacityBytes, gs), FooterHeader(capacityBytes, gs);
    Regions(capacityBytes, gs);
    NewHeaderShows(capacityBytes, GD_AT_END);
    HeaderWords();
    assert AsFooter(NewHeader(capacityBytes), GD_AT_END) == NewHeader(capacityBytes);
    ShownNested(img, 0, HeaderBytes(NewHeader(capacityBytes)), capacityBytes / 512, Le(GD_AT_END, 8));
    NewHeaderShows(capacityBytes, gd);
    assert img[|img| - 1024..|img| - 512] == img[|img| - 1024..][..512] == HeaderBytes(footer);
    ShownNested(img, |img| - 1024, HeaderBytes(footer), capacityBytes / 512, Le(gd, 8));
    assert img[|img| - 512..] == img[|img| - 1024..][512..] == MarkerBytes(EndOfStream, 0);
    MarkersShow(1);
    HoldsNested(img, |img| - 1536, MarkerBytes(Footer, 1), 0, Le(1, 8) + [0, 0, 0, 0, 3, 0, 0, 0]);
    assert Le(1, 8) + [0, 0, 0, 0, 3, 0, 0, 0] == [1, 0, 0, 0, 0, 0, 0, 0, 0, 0, 0, 0, 3, 0, 0, 0];
    var n := (|Directory(capacityBytes, gs)| * 4 + SECTOR_SIZE - 1) / SECTOR_SIZE;
    MarkersShow(n);
    HoldsNested(img, 512 * (gd - 1), MarkerBytes(GrainDirectory, n), 0, Le(n, 8) + [0, 0, 0, 0, 2, 0, 0, 0]);
  }

  lemma HeaderFirst(capacityBytes: u64, gs: seq<Grain>)
    ensures Holds(BeforeDirectory(capacityBytes, gs), 0, HeaderBytes(NewHeader(capacityBytes)))
  {
    hide HeaderBytes, Body, Tables;
  }

  // ---- Reading through the index

  /** Every sector number in the index fits 32 bits, and so does every payload length. */
  predicate Fits(capacityBytes: u64, gs: seq<Grain>) {
    DirectorySector(capacityBytes, gs) <= U32_LIMIT && forall g | g in gs :: |g.data| < U32_LIMIT
  }

  /** The reader for the footer in the last-but-one sector, with the "no markers" guard set aside. */
  function FooterReader(img: seq<byte>): (r: Result<SR.Reader, SR.VmdkError>)
    requires |img| >= 2 * SECTOR_SIZE
    ensures r.Ok? ==> r.value.Valid()
  {
    match SR.ParseHeader(img[|img| - 2 * SECTOR_SIZE..])
    case Err(e) => Err(e)
    case Ok(h) => SR.ReaderFor(img, h)
  }

  /** The directory check passes on every finished file, the entry count is the writer's table count,
      and the entries are the table sectors cast to 32 bits. */
  lemma FooterOpens(capacityBytes: u64, gs: seq<Grain>)
    requires |Image(capacityBytes, gs)| < U64_LIMIT
    ensures var img := Image(capacityBytes, gs);
            && |img| >= 2 * SECTOR_SIZE
            && FooterReader(img).Ok?
            && var r := FooterReader(img).value;
            && r.file == img && r.header == KeptFields(FooterHeader(capacityBytes, gs))
            && r.header.numGtesPerGt == GTES_PER_GT && r.header.grainSize == GRAIN_SIZE && r.header.IsCompressed()
            && r.header.capacity == capacityBytes / SECTOR_SIZE
            && |r.directory| == NumGts(capacityBytes / SECTOR_SIZE)
            && forall t | 0 <= t < |r.directory| :: r.directory[t] == AsU32(Directory(capacityBytes, gs)[t])
  {
    hide Image, Directory, DirectorySector, HeaderBytes, MarkerBytes, Words, Body, Tables, SR.ParseHeader;
    var img, footer := Image(capacityBytes, gs), FooterHeader(capacityBytes, gs);
    Regions(capacityBytes, gs);
    HeaderCodec(footer, MarkerBytes(EndOfStream, 0));
    FooterSizes(capacityBytes, gs);
    DirectoryLoads(img, KeptFields(footer), Directory(capacityBytes, gs));
  }

  /** The numbers in the footer of a file shorter than 2^64 bytes stay below 2^64. */
  lemma FooterSizes(capacityBytes: u64, gs: seq<Grain>)
    requires |Image(capacityBytes, gs)| < U64_LIMIT
    ensures DirectorySector(capacityBytes, gs) < U64_LIMIT
    ensures var h := KeptFields(FooterHeader(capacityBytes, gs));
            h.NonZeroSizes() && h.DirectoryFits() && h.capacity * SECTOR_SIZE < U64_LIMIT
  {
    hide Image, Directory, DirectorySector, HeaderBytes, MarkerBytes, Body, Tables;
    Regions(capacityBytes, gs);
    var n, c := NumGts(capacityBytes / SECTOR_SIZE), capacityBytes / SECTOR_SIZE;
    assert |Words(Directory(capacityBytes, gs))| == 4 * n;
    assert SECTOR_SIZE * DirectorySector(capacityBytes, gs) + 4 * n < U64_LIMIT;
    assert c * SECTOR_SIZE <= capacityBytes;
  }

  /** A directory of `n` words at the announced place loads as those words, cast to 32 bits. */
  lemma DirectoryLoads(img: seq<byte>, h: SR.SparseHeader, dir: seq<nat>)
    requires h.NonZeroSizes() && |dir| == h.NumGdEntries() && h.DirectoryFits() && h.capacity * SECTOR_SIZE < U64_LIMIT
    requires Holds(img, SECTOR_SIZE * h.gdOffset, Words(dir))
    ensures SR.ReaderFor(img, h).Ok?
    ensures var r := SR.ReaderFor(img, h).value;
            && r.file == img && r.header == h && |r.directory| == |dir|
            && forall t | 0 <= t < |dir| :: r.directory[t] == AsU32(dir[t])
  {
    var r := SR.ReaderFor(img, h).value;
    forall t | 0 <= t < |dir|
      ensures r.directory[t] == AsU32(dir[t])
    {
      ReadWord(img, SECTOR_SIZE * h.gdOffset, dir, t);
    }
  }

  /** The tables that cover a capacity. */
  function TablesFor(capacity: nat, grainSize: Positive, entries: Positive): nat {
    ((capacity + grainSize - 1) / grainSize + entries - 1) / entries
  }

  /** Every number that opening computes from a header stays below 2^64. */
  predicate NumbersFit(capacity: nat, grainSize: Positive, entries: Positive, gdOffset: nat) {
    && capacity + grainSize < 0x1_0000_0000_0000_0000
    && (capacity + grainSize - 1) / grainSize + entries < 0x1_0000_0000_0000_0000
    && 512 * gdOffset + 4 * TablesFor(capacity, grainSize, entries) < 0x1_0000_0000_0000_0000
    && 512 * capacity < 0x1_0000_0000_0000_0000
  }

  /** A file that starts with a header opens if and only if magic, version, marker flag and sizes pass, the numbers fit
      64 bits, and the directory lies inside the file; the reader then has the fields of that header. */
  lemma OpenIff(h: SparseExtentHeader, rest: seq<byte>)
    ensures var file := HeaderBytes(h) + rest;
            var r := SR.OpenSpec(file);
            && (r.Ok? <==>
                  && h.magic == 0x564D444B && h.version <= 3 && h.flags / 0x2_0000 % 2 == 0 && h.grainSize > 0 && h.numGtesPerGt > 0
                  && NumbersFit(h.capacity, h.grainSize, h.numGtesPerGt, h.gdOffset)
                  && 512 * h.gdOffset + 4 * TablesFor(h.capacity, h.grainSize, h.numGtesPerGt) <= |file|)
            && (r.Ok? ==> r.value.file == file && r.value.header == KeptFields(h))
  {
    hide HeaderBytes, SR.ParseHeader;
    HeaderCodec(h, rest);
  }

  /** Otherwise the first test that fails decides the error. */
  lemma OpenFails(h: SparseExtentHeader, rest: seq<byte>)
    ensures var file := HeaderBytes(h) + rest;
            var r := SR.OpenSpec(file);
            if h.magic != 0x564D444B then r == Err(SR.InvalidMagic(h.magic))
            else if h.version > 3 then r == Err(SR.UnsupportedVersion(h.version))
            else if h.flags / 0x2_0000 % 2 == 1 then r == Err(SR.MarkersNotSupported)
            else if h.grainSize == 0 || h.numGtesPerGt == 0 then r == Err(SR.DivisionByZero)
            else r.Ok? || r == Err(SR.Overflow)
                 || (r == Err(SR.DirectoryBeyondFile)
                     && |file| < 512 * h.gdOffset + 4 * TablesFor(h.capacity, h.grainSize, h.numGtesPerGt))
  {
    hide HeaderBytes, SR.ParseHeader;
    HeaderCodec(h, rest);
  }

  /** A file shorter than a header is told so. */
  lemma ShortFile(file: seq<byte>)
    ensures SR.OpenSpec(file) == Err(SR.HeaderTooShort) <==> |file| < 512
  {
    hide ReadLe;
  }

  /** Its directory is the one stored at the announced place, word for word. */
  lemma OpenLoads(h: SparseExtentHeader, rest: seq<byte>, dir: seq<nat>)
    requires SR.OpenSpec(HeaderBytes(h) + rest).Ok? && KeptFields(h).NonZeroSizes() && |dir| == KeptFields(h).NumGdEntries()
    requires Holds(HeaderBytes(h) + rest, SECTOR_SIZE * h.gdOffset, Words(dir))
    ensures var r := SR.OpenSpec(HeaderBytes(h) + rest).value;
            |r.directory| == |dir| && forall t | 0 <= t < |dir| :: r.directory[t] == AsU32(dir[t])
  {
    hide HeaderBytes, SR.ParseHeader, Words;
    HeaderCodec(h, rest);
    DirectoryLoads(HeaderBytes(h) + rest, KeptFields(h), dir);
  }

  /** `open` itself turns every finished file away because of the marker flag. */
  lemma OpenRejectsMarkers(capacityBytes: u64, gs: seq<Grain>)
    ensures SR.OpenSpec(Image(capacityBytes, gs))
         == Err(SR.MarkersNotSupported)
  {
    hide HeaderBytes, Body, Tables, DirectoryRegion, Trailer, SR.ParseHeader, NumGts, Directory, DirectorySector;
    var head := HeaderBytes(NewHeader(capacityBytes));
    var body, tables := Body(gs), Tables(Offsets(gs), NumGts(capacityBytes / SECTOR_SIZE));
    var after := DirectoryRegion(Directory(capacityBytes, gs)) + Trailer(FooterHeader(capacityBytes, gs));
    Assoc(head, body, tables);
    Assoc(head, body + tables, after);
    HeaderCodec(NewHeader(capacityBytes), body + tables + after);
  }

  /** The grain a 12-byte marker at byte `at` announces. */
  function StoredGrain(file: seq<byte>, at: nat): Option<Grain> {
    if at + 12 > |file| then None
    else
      var n := ReadLe(file, at + 8, 4);
      if at + 12 + n > |file| || ReadLe(file, at, 8) >= U64_LIMIT then None
      else Some(Grain(ReadLe(file, at, 8), file[at + 12..at + 12 + n]))
  }

  /** A stored record reads back as written, with the payload cut to its length modulo 2^32. */
  lemma RecordReads(file: seq<byte>, at: nat, g: Grain)
    requires Holds(file, at, GrainRecord(g))
    ensures StoredGrain(file, at) == Some(Grain(g.lba, g.data[..AsU32(|g.data|)]))
  {
    var size := AsU32(|g.data|);
    var content := Le(g.lba, 8) + (Le(size, 4) + g.data);
    HoldsParts(file, at, content, Zeros(Padding(|content|)));
    HoldsParts(file, at, Le(g.lba, 8), Le(size, 4) + g.data);
    HoldsParts(file, at + 8, Le(size, 4), g.data);
    ReadHeld64(file, at, g.lba);
    ReadHeld32(file, at + 8, size);
    assert file[at + 12..at + 12 + size] == file[at + 12..at + 12 + |g.data|][..size];
  }

  /** So the payload survives exactly when its length fits the 32-bit size field. */
  lemma PayloadSurvives(file: seq<byte>, at: nat, g: Grain)
    requires Holds(file, at, GrainRecord(g))
    ensures StoredGrain(file, at) == Some(g) <==> |g.data| < U32_LIMIT
  {
    RecordReads(file, at, g);
    assert g.data[..|g.data|] == g.data;
  }

  lemma SectorsBelowDirectory(capacityBytes: u64, gs: seq<Grain>)
    ensures NextSector(gs) < DirectorySector(capacityBytes, gs)
    ensures forall t | 0 <= t < NumGts(capacityBytes / SECTOR_SIZE) ::
              Directory(capacityBytes, gs)[t] < DirectorySector(capacityBytes, gs)
  {
    NextSectorBytes(gs);
    DirectorySectorBytes(capacityBytes, gs);
    var n := NumGts(capacityBytes / SECTOR_SIZE);
    AlignedSum(SECTOR_SIZE, |Body(gs)|);
    forall t | 0 <= t < n
      ensures Directory(capacityBytes, gs)[t] < DirectorySector(capacityBytes, gs)
    {
      TablesHeld(Offsets(gs), n, SECTOR_SIZE + |Body(gs)|, t);
    }
  }

  /** The word in slot `j` of table `t` of a finished file. */
  lemma TableWord(capacityBytes: u64, gs: seq<Grain>, t: nat, j: nat)
    requires t < NumGts(capacityBytes / SECTOR_SIZE) && j < GTES_PER_GT
    requires AnyNonZero(Entries(Offsets(gs), t))
    ensures var img, at := Image(capacityBytes, gs), SECTOR_SIZE * Directory(capacityBytes, gs)[t] + 4 * j;
            && Directory(capacityBytes, gs)[t] > 0
            && at + 4 <= |img|
            && ReadLe(img, at, 4) == AsU32(Entry(Offsets(gs), t * GTES_PER_GT + j))
  {
    hide Image, Tables, TableOffsets, Words, NumGts, Body, Entries, DirectorySector, HeaderBytes, MarkerBytes,
         FooterHeader, NewHeader, Entry;
    var img, n := Image(capacityBytes, gs), NumGts(capacityBytes / SECTOR_SIZE);
    var offsets, base := Offsets(gs), SECTOR_SIZE + |Body(gs)|;
    AlignedSum(SECTOR_SIZE, |Body(gs)|);
    TablesHeld(offsets, n, base, t);
    var o := Directory(capacityBytes, gs)[t];
    Regions(capacityBytes, gs);
    HoldsNested(img, base, Tables(offsets, n), SECTOR_SIZE * o - base, Words(Entries(offsets, t)));
    ReadWord(img, SECTOR_SIZE * o, Entries(offsets, t), j);
  }

  /** The sector recorded for index `g` and the sector of its table have at most 32 bits. */
  predicate FitsAt(capacityBytes: u64, gs: seq<Grain>, g: nat) {
    var t := g / GTES_PER_GT;
    && |Image(capacityBytes, gs)| < U64_LIMIT
    && (g in Offsets(gs) ==> Offsets(gs)[g] < U32_LIMIT)
    && (t < NumGts(capacityBytes / SECTOR_SIZE) ==> Directory(capacityBytes, gs)[t] < U32_LIMIT)
  }

  /** The casts in the index are harmless exactly below 2^32: a table entry read back is the recorded sector, and a
      directory entry read back is the table's sector, if and only if the number fits. */
  lemma EntriesExactIff(capacityBytes: u64, gs: seq<Grain>, g: nat)
    requires g in Offsets(gs) && g / GTES_PER_GT < NumGts(capacityBytes / SECTOR_SIZE)
    requires AnyNonZero(Entries(Offsets(gs), g / GTES_PER_GT)) && |Image(capacityBytes, gs)| < U64_LIMIT
    ensures var img, t, j := Image(capacityBytes, gs), g / GTES_PER_GT, g % GTES_PER_GT;
            var table, sector := Directory(capacityBytes, gs)[t], Offsets(gs)[g];
            && SECTOR_SIZE * table + 4 * j + 4 <= |img| && |img| >= 2 * SECTOR_SIZE
            && (ReadLe(img, SECTOR_SIZE * table + 4 * j, 4) == sector <==> sector < U32_LIMIT)
            && FooterReader(img).Ok? && t < |FooterReader(img).value.directory|
            && (FooterReader(img).value.directory[t] == table <==> table < U32_LIMIT)
  {
    hide Image, Directory, DirectorySector, FooterReader, Entries, NumGts, Offsets;
    TableWord(capacityBytes, gs, g / GTES_PER_GT, g % GTES_PER_GT);
    FooterOpens(capacityBytes, gs);
  }

  /** A table whose sector number is a multiple of 2^32 is lost: all its grains read as unallocated. */
  lemma WrappedTableLost(capacityBytes: u64, gs: seq<Grain>, g: nat)
    requires |Image(capacityBytes, gs)| < U64_LIMIT && g / GTES_PER_GT < NumGts(capacityBytes / SECTOR_SIZE)
    requires Directory(capacityBytes, gs)[g / GTES_PER_GT] % U32_LIMIT == 0
    ensures var img := Image(capacityBytes, gs);
            |img| >= 2 * SECTOR_SIZE && FooterReader(img).Ok? && FooterReader(img).value.GrainSector(g) == Ok(0)
  {
    hide Image, Directory, DirectorySector, FooterReader, NumGts;
    FooterOpens(capacityBytes, gs);
  }

  /** The record of a payload of 2^41 - 1036 bytes ends two sectors short of 2^32. */
  lemma HugeRecord(g: Grain)
    requires |g.data| == 0x200_0000_0000 - 1036
    ensures |Body([g])| == 0x200_0000_0000 - 1024 && Offsets([g]) == map[GrainIndex(g) := 1]
  {
    assert [g][..0] == [];
    assert |Body([])| == 0 && NextSector([]) == 1;
    assert |GrainRecord(g)| == 0x200_0000_0000 - 1024;
  }

  lemma HugeDirectory(g: Grain)
    requires |g.data| == 0x200_0000_0000 - 1036 && g.lba == 0
    ensures Directory(0x1_0000, [g]) == [U32_LIMIT] && |Image(0x1_0000, [g])| < U64_LIMIT
  {
    hide Body, GrainRecord, Entries;
    HugeRecord(g);
    var offsets, base := Offsets([g]), SECTOR_SIZE + |Body([g])|;
    assert NumGts(0x1_0000 / SECTOR_SIZE) == 1;
    assert Entries(offsets, 0)[0] == 1;
    assert AnyNonZero(Entries(offsets, 0));
    assert |Tables(offsets, 0)| == 0;
    assert |Tables(offsets, 1)| <= 5 * SECTOR_SIZE;
    assert |TableOffsets(offsets, 0, base)| == 0;
    assert TableOffsets(offsets, 1, base) == [U32_LIMIT];
  }

  /** So the only table of that image lies in sector 2^32, its directory entry is 0, and the grain reads as unallocated
      although it was written. */
  lemma HugeGrainLost(g: Grain)
    requires |g.data| == 0x200_0000_0000 - 1036 && g.lba == 0
    ensures 0 in Latest([g]) && Latest([g])[0] == g
    ensures var img := Image(0x1_0000, [g]);
            |img| >= 2 * SECTOR_SIZE && FooterReader(img).Ok? && FooterReader(img).value.GrainSector(0) == Ok(0)
  {
    hide Image, Directory, DirectorySector, FooterReader;
    HugeDirectory(g);
    assert 0 / GTES_PER_GT == 0 && NumGts(0x1_0000 / SECTOR_SIZE) == 1;
    WrappedTableLost(0x1_0000, [g], 0);
    assert [g][..0] == [];
  }

  /** A non-empty table lies behind all records; an empty one has no sector and no recorded grain. */
  lemma TableOf(capacityBytes: u64, gs: seq<Grain>, g: nat)
    requires g / GTES_PER_GT < NumGts(capacityBytes / SECTOR_SIZE)
    ensures var t := g / GTES_PER_GT;
            if AnyNonZero(Entries(Offsets(gs), t)) then NextSector(gs) < Directory(capacityBytes, gs)[t]
            else Directory(capacityBytes, gs)[t] == 0 == Entry(Offsets(gs), g)
  {
    hide Body, NumGts, Offsets, TableAt, Tables, TableOffsets, NextSector, Entry;
    var t, n, base := g / GTES_PER_GT, NumGts(capacityBytes / SECTOR_SIZE), SECTOR_SIZE + |Body(gs)|;
    NextSectorBytes(gs);
    AlignedSum(SECTOR_SIZE, |Body(gs)|);
    TablesHeld(Offsets(gs), n, base, t);
    TablePlace(Tables(Offsets(gs), n), base, Offsets(gs), t, Directory(capacityBytes, gs)[t]);
    assert Entries(Offsets(gs), t)[g % GTES_PER_GT] == Entry(Offsets(gs), g);
  }

  /** The two-level lookup gives exactly the remembered sector, and 0 for everything else. */
  lemma LookupAgrees(capacityBytes: u64, gs: seq<Grain>, g: nat)
    requires FitsAt(capacityBytes, gs, g)
    ensures var img := Image(capacityBytes, gs);
            && |img| >= 2 * SECTOR_SIZE && FooterReader(img).Ok?
            && FooterReader(img).value.GrainSector(g)
               == Ok(if g < GTES_PER_GT * NumGts(capacityBytes / SECTOR_SIZE) && g in Offsets(gs)
                     then Offsets(gs)[g] else 0)
  {
    hide Image, Offsets, Latest, NumGts, DirectorySector, Directory, FooterReader, NextSector, Entries, AnyNonZero;
    hide FooterHeader, KeptFields, Holds, Body, GrainRecord;
    var offsets := Offsets(gs);
    FooterOpens(capacityBytes, gs);
    RecordsHeld(gs, g);
    var t, j := g / GTES_PER_GT, g % GTES_PER_GT;
    if t < NumGts(capacityBytes / SECTOR_SIZE) {
      TableOf(capacityBytes, gs, g);
      if AnyNonZero(Entries(offsets, t)) {
        TableWord(capacityBytes, gs, t, j);
      }
    }
  }

  /** Following footer, directory, table and marker yields the last grain written to an index,
      and "unallocated" for an index that was never written or lies beyond the tables. */
  lemma IndexAgreesWithMap(capacityBytes: u64, gs: seq<Grain>, g: nat)
    requires FitsAt(capacityBytes, gs, g) && (g in Latest(gs) ==> |Latest(gs)[g].data| < U32_LIMIT)
    ensures var img := Image(capacityBytes, gs);
            && |img| >= 2 * SECTOR_SIZE && FooterReader(img).Ok?
            && var sector := FooterReader(img).value.GrainSector(g);
            && sector.Ok?
            && if g < GTES_PER_GT * NumGts(capacityBytes / SECTOR_SIZE) && g in Latest(gs) then
                 sector.value > 0 && StoredGrain(img, SECTOR_SIZE * sector.value) == Some(Latest(gs)[g])
               else
                 sector.value == 0
  {
    hide Image, Offsets, Latest, NumGts, FooterReader, NextSector, StoredGrain, GrainRecord, FitsAt;
    LookupAgrees(capacityBytes, gs, g);
    RecordsHeld(gs, g);
    if g in Latest(gs) {
      LatestHeld(capacityBytes, gs, g);
      PayloadSurvives(Image(capacityBytes, gs), SECTOR_SIZE * Offsets(gs)[g], Latest(gs)[g]);
    }
  }

  /** The last record for a written index lies in the finished file at its remembered sector. */
  lemma LatestHeld(capacityBytes: u64, gs: seq<Grain>, g: nat)
    requires g in Latest(gs)
    ensures g in Offsets(gs) && Offsets(gs)[g] > 0
    ensures Holds(Image(capacityBytes, gs), SECTOR_SIZE * Offsets(gs)[g], GrainRecord(Latest(gs)[g]))
  {
    RecordsHeld(gs, g);
    Regions(capacityBytes, gs);
    hide Image, Offsets, Latest, Body, GrainRecord, NextSector, Holds;
    var at := SECTOR_SIZE * (Offsets(gs)[g] - 1);
    HoldsNested(Image(capacityBytes, gs), SECTOR_SIZE, Body(gs), at, GrainRecord(Latest(gs)[g]));
  }

  lemma {:induction false} LatestWritten(gs: seq<Grain>, g: nat)
    requires g in Latest(gs)
    ensures Latest(gs)[g] in gs && GrainIndex(Latest(gs)[g]) == g
  {
    var init := gs[..|gs| - 1];
    if g != GrainIndex(gs[|gs| - 1]) {
      LatestWritten(init, g);
    }
  }

  /** A file whose index fits is far shorter than 2^64 bytes. */
  lemma FittingIsFile(capacityBytes: u64, gs: seq<Grain>)
    requires DirectorySector(capacityBytes, gs) <= U32_LIMIT
    ensures |Image(capacityBytes, gs)| < U64_LIMIT
  {
    hide BeforeDirectory, Directory, FooterHeader;
    DirectorySectorBytes(capacityBytes, gs);
    var n := NumGts(capacityBytes / SECTOR_SIZE);
    assert n <= 0x80_0000_0000;
    assert |DirectoryBytes(Directory(capacityBytes, gs))| <= 4 * n + SECTOR_SIZE;
  }

  /** A caller can tell from the output size: an image of at most 2 TiB has an index that fits. */
  lemma SmallImageFits(capacityBytes: u64, gs: seq<Grain>)
    requires |Image(capacityBytes, gs)| <= SECTOR_SIZE * U32_LIMIT
    requires forall g | g in gs :: |g.data| < U32_LIMIT
    ensures Fits(capacityBytes, gs)
  {
    hide BeforeDirectory, Directory, FooterHeader, DirectoryBytes, Trailer;
    DirectorySectorBytes(capacityBytes, gs);
  }
}
