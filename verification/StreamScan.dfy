/** A one-pass scan of a streamOptimized file, marker by marker, inverts the writer. */
module StreamScan {
  import opened Bytes
  import opened Results
  import opened StreamVmdk
  import opened StreamIndex
  import SR = SparseReader

  datatype Item =
    | GrainItem(grain: Grain)
    | MetaItem(markerType: MarkerType, content: seq<byte>)

  /** The items up to the end-of-stream marker and the bytes after it. */
  datatype Scanned = Scanned(items: seq<Item>, rest: seq<byte>)

  function Prepend(items: seq<Item>, scan: Option<Scanned>): Option<Scanned> {
    match scan
    case None => None
    case Some(s) => Some(Scanned(items + s.items, s.rest))
  }

  function TypeOf(code: nat): (t: Option<MarkerType>)
    ensures t.Some? ==> t.value.Code() == code
    ensures t.None? ==> code > 3
  {
    if code == 0 then Some(EndOfStream)
    else if code == 1 then Some(GrainTable)
    else if code == 2 then Some(GrainDirectory)
    else if code == 3 then Some(Footer)
    else None
  }

  /** A positive size announces a grain, size 0 a metadata marker of the given type. */
  function Scan(s: seq<byte>): Option<Scanned>
    decreases |s|
  {
    if |s| < SECTOR_SIZE then None
    else
      var first, size := ReadLe(s, 0, 8), ReadLe(s, 8, 4);
      if size > 0 then
        var total := 12 + size + Padding(12 + size);
        if total > |s| || first >= U64_LIMIT then None
        else Prepend([GrainItem(Grain(first, s[12..12 + size]))], Scan(s[total..]))
      else
        match TypeOf(ReadLe(s, 12, 4))
        case None => None
        case Some(EndOfStream) => Some(Scanned([], s[SECTOR_SIZE..]))
        case Some(t) =>
          var end := SECTOR_SIZE + first * SECTOR_SIZE;
          if end > |s| then None
          else Prepend([MetaItem(t, s[SECTOR_SIZE..end])], Scan(s[end..]))
  }

  lemma PrependTwice(a: seq<Item>, b: seq<Item>, scan: Option<Scanned>)
    ensures Prepend(a, Prepend(b, scan)) == Prepend(a + b, scan)
  {
    if scan.Some? {
      assert a + (b + scan.value.items) == a + b + scan.value.items;
    }
  }

  /** The three words a record starts with. */
  lemma GrainMarkerReads(g: Grain, rest: seq<byte>)
    ensures var s, size := GrainRecord(g) + rest, AsU32(|g.data|);
            && ReadLe(s, 0, 8) == g.lba
            && ReadLe(s, 8, 4) == size
            && 12 + |g.data| <= |s|
            && s[12..12 + |g.data|] == g.data
  {
    hide Le, PadToSector;
    var lba, size := Le(g.lba, 8), Le(AsU32(|g.data|), 4);
    var content := lba + (size + g.data);
    var pad := Zeros(Padding(|content|));
    var s := GrainRecord(g) + rest;
    assert Holds(s, 0, GrainRecord(g)) by {
      HoldsMiddle([], GrainRecord(g), rest);
      assert [] + GrainRecord(g) == GrainRecord(g);
    }
    assert GrainRecord(g) == content + pad by { PadDef(content); }
    HoldsParts(s, 0, content, pad);
    HoldsParts(s, 0, lba, size + g.data);
    HoldsParts(s, 8, size, g.data);
    ReadHeld64(s, 0, g.lba);
    ReadHeld32(s, 8, AsU32(|g.data|));
  }

  lemma PadDef(s: seq<byte>)
    ensures PadToSector(s) == s + Zeros(Padding(|s|))
  {
  }

  lemma ScanGrain(g: Grain, rest: seq<byte>)
    requires 0 < |g.data| < U32_LIMIT
    ensures Scan(GrainRecord(g) + rest)
         == Prepend([GrainItem(g)], Scan(rest))
  {
    GrainMarkerReads(g, rest);
    var s := GrainRecord(g) + rest;
    assert |GrainRecord(g)| == 12 + |g.data| + Padding(12 + |g.data|);
    assert s[|GrainRecord(g)|..] == rest;
  }

  /** A payload that is empty, or too long for the size field, does not scan as itself. */
  lemma ScanMisreads(g: Grain, rest: seq<byte>)
    requires !(0 < |g.data| < U32_LIMIT)
    ensures var r := Scan(GrainRecord(g) + rest);
            r.None? || r.value.items == [] || r.value.items[0] != GrainItem(g)
  {
    GrainMarkerReads(g, rest);
  }

  lemma MarkerReads(t: MarkerType, n: nat, rest: seq<byte>)
    requires n < U64_LIMIT
    ensures var s := MarkerBytes(t, n) + rest;
            (ReadLe(s, 0, 8), ReadLe(s, 8, 4), ReadLe(s, 12, 4)) == (n, 0, t.Code())
  {
    hide Le;
    var count, zero, code := Le(n, 8), Le(0, 4), Le(t.Code(), 4);
    var s := MarkerBytes(t, n) + rest;
    HoldsMiddle([], MarkerBytes(t, n), rest);
    assert [] + MarkerBytes(t, n) == MarkerBytes(t, n);
    HoldsParts(s, 0, count, zero + (code + Zeros(496)));
    HoldsParts(s, 8, zero, code + Zeros(496));
    HoldsParts(s, 12, code, Zeros(496));
    ReadHeld64(s, 0, n);
    ReadHeld32(s, 8, 0);
    ReadHeld32(s, 12, t.Code());
  }

  lemma ScanMeta(t: MarkerType, n: nat, content: seq<byte>, rest: seq<byte>)
    requires t != EndOfStream && n < U64_LIMIT && |content| == n * SECTOR_SIZE
    ensures Scan(MarkerBytes(t, n) + content + rest)
         == Prepend([MetaItem(t, content)], Scan(rest))
  {
    hide MarkerBytes;
    var s := MarkerBytes(t, n) + content + rest;
    Assoc(MarkerBytes(t, n), content, rest);
    MarkerReads(t, n, content + rest);
    assert s[SECTOR_SIZE..SECTOR_SIZE + n * SECTOR_SIZE] == content;
    assert s[SECTOR_SIZE + n * SECTOR_SIZE..] == rest;
  }

  lemma ScanEnd(rest: seq<byte>)
    ensures Scan(MarkerBytes(EndOfStream, 0) + rest)
         == Some(Scanned([], rest))
  {
    hide MarkerBytes;
    MarkerReads(EndOfStream, 0, rest);
    assert (MarkerBytes(EndOfStream, 0) + rest)[SECTOR_SIZE..] == rest;
  }

  // ---- Whole regions

  function GrainItems(gs: seq<Grain>): (items: seq<Item>)
    ensures |items| == |gs| && forall i | 0 <= i < |gs| :: items[i] == GrainItem(gs[i])
  {
    seq(|gs|, i requires 0 <= i < |gs| => GrainItem(gs[i]))
  }

  predicate Scannable(gs: seq<Grain>) {
    forall g | g in gs :: 0 < |g.data| < U32_LIMIT
  }

  lemma {:induction false} ScanBody(gs: seq<Grain>, rest: seq<byte>)
    requires Scannable(gs)
    ensures Scan(Body(gs) + rest) == Prepend(GrainItems(gs), Scan(rest))
  {
    hide Scan;
    if gs == [] {
      assert Body(gs) + rest == rest;
      PrependNothing(Scan(rest));
      assert GrainItems(gs) == [];
    } else {
      hide GrainRecord;
      var init, last := gs[..|gs| - 1], gs[|gs| - 1];
      Assoc(Body(init), GrainRecord(last), rest);
      ScanBody(init, GrainRecord(last) + rest);
      ScanGrain(last, rest);
      PrependTwice(GrainItems(init), [GrainItem(last)], Scan(rest));
      assert GrainItems(gs) == GrainItems(init) + [GrainItem(last)];
    }
  }

  lemma PrependNothing(scan: Option<Scanned>)
    ensures Prepend([], scan) == scan
  {
    if scan.Some? {
      assert [] + scan.value.items == scan.value.items;
    }
  }

  /** The items of the non-empty tables among the first `n`. */
  function TableItems(offsets: map<nat, nat>, n: nat): seq<Item> {
    if n == 0 then []
    else if AnyNonZero(Entries(offsets, n - 1)) then
      TableItems(offsets, n - 1) + [MetaItem(GrainTable, Words(Entries(offsets, n - 1)))]
    else TableItems(offsets, n - 1)
  }

  lemma {:induction false} ScanTables(offsets: map<nat, nat>, n: nat, rest: seq<byte>)
    ensures Scan(Tables(offsets, n) + rest)
         == Prepend(TableItems(offsets, n), Scan(rest))
  {
    hide Scan, Words, Entries, AnyNonZero, MarkerBytes;
    if n == 0 {
      assert Tables(offsets, n) + rest == rest;
      PrependNothing(Scan(rest));
    } else {
      var init, region := Tables(offsets, n - 1), TableRegion(offsets, n - 1);
      Assoc(init, region, rest);
      ScanTables(offsets, n - 1, region + rest);
      if AnyNonZero(Entries(offsets, n - 1)) {
        ScanMeta(GrainTable, 4, Words(Entries(offsets, n - 1)), rest);
        PrependTwice(TableItems(offsets, n - 1), [MetaItem(GrainTable, Words(Entries(offsets, n - 1)))], Scan(rest));
      } else {
        assert region + rest == rest;
      }
    }
  }

  /** What a scan of the finished file must yield after its header. */
  function ExpectedItems(capacityBytes: u64, gs: seq<Grain>): seq<Item>
  {
    GrainItems(gs) + (TableItems(Offsets(gs), NumGts(capacityBytes / SECTOR_SIZE))
    + [MetaItem(GrainDirectory, DirectoryBytes(Directory(capacityBytes, gs))),
       MetaItem(Footer, HeaderBytes(FooterHeader(capacityBytes, gs)))])
  }

  lemma ScanTail(dir: seq<nat>, footer: SparseExtentHeader)
    requires |dir| < U32_LIMIT * U32_LIMIT / 4
    ensures Scan(DirectoryRegion(dir) + Trailer(footer))
         == Some(Scanned([MetaItem(GrainDirectory, DirectoryBytes(dir)), MetaItem(Footer, HeaderBytes(footer))], []))
  {
    hide Scan, MarkerBytes, HeaderBytes, DirectoryBytes;
    var n := (|dir| * 4 + SECTOR_SIZE - 1) / SECTOR_SIZE;
    var end := MarkerBytes(EndOfStream, 0);
    ScanMeta(GrainDirectory, n, DirectoryBytes(dir), Trailer(footer));
    Assoc(MarkerBytes(Footer, 1), HeaderBytes(footer), end);
    ScanMeta(Footer, 1, HeaderBytes(footer), end);
    ScanEnd([]);
    assert end + [] == end;
    var a, b := MetaItem(GrainDirectory, DirectoryBytes(dir)), MetaItem(Footer, HeaderBytes(footer));
    assert [a] + ([b] + []) == [a, b];
    Assoc(MarkerBytes(GrainDirectory, n), DirectoryBytes(dir), Trailer(footer));
  }

  lemma GtCountFits(capacityBytes: u64)
    ensures NumGts(capacityBytes / SECTOR_SIZE) < U32_LIMIT * U32_LIMIT / 4
  {
  }

  /** Everything behind the grain records scans to the index, the footer and the end, leaving nothing. */
  lemma ScanAfterBody(capacityBytes: u64, gs: seq<Grain>)
    ensures Scan(AfterBody(capacityBytes, gs))
         == Some(Scanned(ExpectedItems(capacityBytes, gs)[|gs|..], []))
  {
    hide Scan, DirectoryRegion, Trailer, Tables, FooterHeader, Directory, TableItems, NumGts, GrainItems;
    var n := NumGts(capacityBytes / SECTOR_SIZE);
    var dir, footer := Directory(capacityBytes, gs), FooterHeader(capacityBytes, gs);
    ScanTables(Offsets(gs), n, DirectoryRegion(dir) + Trailer(footer));
    GtCountFits(capacityBytes);
    ScanTail(dir, footer);
  }

  function AfterBody(capacityBytes: u64, gs: seq<Grain>): seq<byte>
  {
    Tables(Offsets(gs), NumGts(capacityBytes / SECTOR_SIZE))
    + (DirectoryRegion(Directory(capacityBytes, gs)) + Trailer(FooterHeader(capacityBytes, gs)))
  }

  lemma AfterHeader(capacityBytes: u64, gs: seq<Grain>)
    ensures var img := Image(capacityBytes, gs);
            |img| >= SECTOR_SIZE && img[SECTOR_SIZE..] == Body(gs) + AfterBody(capacityBytes, gs)
  {
    hide HeaderBytes, Body, Tables, DirectoryRegion, Trailer, Directory;
    var head, tables := HeaderBytes(NewHeader(capacityBytes)), Tables(Offsets(gs), NumGts(capacityBytes / SECTOR_SIZE));
    var after := DirectoryRegion(Directory(capacityBytes, gs)) + Trailer(FooterHeader(capacityBytes, gs));
    Assoc(head, Body(gs), tables);
    Assoc(head, Body(gs) + tables, after);
    Assoc(Body(gs), tables, after);
    assert (head + (Body(gs) + (tables + after)))[SECTOR_SIZE..] == Body(gs) + (tables + after);
  }

  lemma {:induction false} BodyConcat(a: seq<Grain>, b: seq<Grain>)
    ensures Body(a + b) == Body(a) + Body(b)
  {
    hide GrainRecord;
    if b == [] {
      assert a + b == a;
      assert Body(a) + [] == Body(a);
    } else {
      var init, last := b[..|b| - 1], b[|b| - 1];
      BodyConcat(a, init);
      assert (a + b)[..|a + b| - 1] == a + init;
      Assoc(Body(a), Body(init), GrainRecord(last));
    }
  }

  /** The header, then the items. */
  function ScanFile(file: seq<byte>): Option<(SR.SparseHeader, Scanned)> {
    match SR.ParseHeader(file)
    case Err(_) => None
    case Ok(header) =>
      if |file| < SECTOR_SIZE then None
      else
        match Scan(file[SECTOR_SIZE..])
        case None => None
        case Some(scan) => Some((header, scan))
  }

  /** Scanning the finished file recovers the header, the written grains in order, then the non-empty
      tables, the directory and the footer, and consumes every byte, exactly when every payload is
      non-empty and fits the 32-bit size field. */
  lemma ScanInvertsWriter(capacityBytes: u64, gs: seq<Grain>)
    ensures ScanFile(Image(capacityBytes, gs))
         == Some((KeptFields(NewHeader(capacityBytes)), Scanned(ExpectedItems(capacityBytes, gs), [])))
       <==> Scannable(gs)
  {
    hide Scan, Image, ExpectedItems, AfterBody, SR.ParseHeader, HeaderBytes, Body, Tables, KeptFields, NewHeader, Words, FooterHeader;
    var img, after := Image(capacityBytes, gs), AfterBody(capacityBytes, gs);
    Regions(capacityBytes, gs);
    assert img == HeaderBytes(NewHeader(capacityBytes)) + img[SECTOR_SIZE..];
    HeaderCodec(NewHeader(capacityBytes), img[SECTOR_SIZE..]);
    NewMagic(capacityBytes);
    AfterHeader(capacityBytes, gs);
    ScanAfterBody(capacityBytes, gs);
    ExpectedStart(capacityBytes, gs);
    if Scannable(gs) {
      ScanBody(gs, after);
    } else {
      ScanStopsAt(gs, after, ExpectedItems(capacityBytes, gs));
    }
  }

  lemma NewMagic(capacityBytes: u64)
    ensures NewHeader(capacityBytes).magic == VMDK_MAGIC
  {
  }

  lemma ExpectedStart(capacityBytes: u64, gs: seq<Grain>)
    ensures var items := ExpectedItems(capacityBytes, gs);
            |items| >= |gs| && items == GrainItems(gs) + items[|gs|..]
  {
  }

  /** The first unscannable payload spoils the item in its place. */
  lemma ScanStopsAt(gs: seq<Grain>, after: seq<byte>, expected: seq<Item>)
    requires !Scannable(gs)
    requires |expected| >= |gs| && expected == GrainItems(gs) + expected[|gs|..]
    ensures Scan(Body(gs) + after) != Some(Scanned(expected, []))
  {
    hide Scan, Body;
    var k := 0;
    assert gs[..|gs|] == gs;
    while 0 < |gs[k].data| < U32_LIMIT
      invariant k < |gs| && Scannable(gs[..k])
      decreases |gs| - k
    {
      assert gs[..k + 1] == gs[..k] + [gs[k]];
      k := k + 1;
    }
    var pre, bad, post := gs[..k], gs[k], gs[k + 1..];
    assert gs == pre + ([bad] + post);
    BodyConcat(pre, [bad] + post);
    BodyConcat([bad], post);
    BodyOne(bad);
    Assoc(Body(pre), GrainRecord(bad) + Body(post), after);
    Assoc(GrainRecord(bad), Body(post), after);
    ScanBody(pre, GrainRecord(bad) + (Body(post) + after));
    ScanMisreads(bad, Body(post) + after);
    assert expected[k] == GrainItem(bad);
  }

  lemma BodyOne(g: Grain)
    ensures Body([g]) == GrainRecord(g)
  {
    assert [g][..0] == [];
    assert [] + GrainRecord(g) == GrainRecord(g);
  }

  // ---- Size of the finished file

  function RecordSectors(g: Grain): nat {
    (12 + |g.data| + SECTOR_SIZE - 1) / SECTOR_SIZE
  }

  function BodySectors(gs: seq<Grain>): nat {
    if gs == [] then 0 else BodySectors(gs[..|gs| - 1]) + RecordSectors(gs[|gs| - 1])
  }

  lemma {:induction false} BodySize(gs: seq<Grain>)
    ensures |Body(gs)| == BodySectors(gs) * SECTOR_SIZE
  {
    if gs != [] {
      BodySize(gs[..|gs| - 1]);
      PaddedSize(12 + |gs[|gs| - 1].data|);
    }
  }

  lemma {:induction false} TablesSize(offsets: map<nat, nat>, n: nat)
    ensures |Tables(offsets, n)| == 5 * |TableItems(offsets, n)| * SECTOR_SIZE
  {
    if n > 0 {
      TablesSize(offsets, n - 1);
    }
  }

  /** Closed form of the file size in sectors: header, one rounded-up record per write, five sectors per
      non-empty table, the directory with its marker, footer marker, footer and end marker. */
  lemma ImageSectors(capacityBytes: u64, gs: seq<Grain>)
    ensures var n := NumGts(capacityBytes / SECTOR_SIZE);
            |Image(capacityBytes, gs)|
            == SECTOR_SIZE * (1 + BodySectors(gs) + 5 * |TableItems(Offsets(gs), n)|
                              + (1 + (n * 4 + SECTOR_SIZE - 1) / SECTOR_SIZE) + 3)
  {
    hide Body, Tables, TableItems, NumGts, BodySectors, Directory, FooterHeader, Trailer, DirectoryBytes;
    BodySize(gs);
    TablesSize(Offsets(gs), NumGts(capacityBytes / SECTOR_SIZE));
  }
}
