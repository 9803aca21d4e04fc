/** One way to lay a disk out as a hosted sparse file: directory, tables, then a slot for every grain. */
module HostedLayout {
  import opened Bytes
  import opened StreamVmdk
  import opened SparseChunks
  import opened SplitExtents
  import opened HostedSparse

  // ---- Equal blocks in a row

  function Row(block: nat -> seq<byte>, count: nat): seq<byte> {
    if count == 0 then [] else Row(block, count - 1) + block(count - 1)
  }

  lemma {:induction false} RowHolds(block: nat -> seq<byte>, count: nat, size: nat, i: nat)
    requires forall k | 0 <= k < count :: |block(k)| == size
    ensures |Row(block, count)| == StartOf(count, size)
    ensures i < count ==> Holds(Row(block, count), StartOf(i, size), block(i))
  {
    if count > 0 {
      var init, last := Row(block, count - 1), block(count - 1);
      RowHolds(block, count - 1, size, if i < count - 1 then i else 0);
      assert StartOf(count, size) == StartOf(count - 1, size) + size;
      if i < count - 1 {
        HoldsLonger(init, last, StartOf(i, size), block(i));
      } else {
        HoldsEnd(init, last);
      }
    }
  }

  // ---- The layout

  /** Grains of `grainSectors`, tables of `entries`. */
  datatype Layout = Layout(disk: seq<byte>, grainSectors: Positive, entries: Positive) {
    function GrainSize(): Positive {
      grainSectors * SECTOR_SIZE
    }

    function Grains(): nat {
      (|disk| / SECTOR_SIZE + grainSectors - 1) / grainSectors
    }

    function Tables(): nat {
      (Grains() + entries - 1) / entries
    }

    /** Sectors of the directory, and of one table. */
    function DirectorySectors(): nat {
      (Tables() * 4 + SECTOR_SIZE - 1) / SECTOR_SIZE
    }

    function TableSectors(): nat {
      (entries * 4 + SECTOR_SIZE - 1) / SECTOR_SIZE
    }

    function FirstTable(): nat {
      1 + DirectorySectors()
    }

    function FirstGrain(): nat {
      FirstTable() + StartOf(Tables(), TableSectors())
    }

    function End(): nat {
      FirstGrain() + StartOf(Grains(), grainSectors)
    }

    /** Whole sectors, and sector numbers that fit 32 bits. */
    predicate Fits() {
      |disk| % SECTOR_SIZE == 0 && grainSectors < U32_LIMIT && entries < U32_LIMIT && End() <= U32_LIMIT
    }

    /** The bytes of a grain, filled up with zeros at the end of the disk. */
    function Block(k: nat): (s: seq<byte>)
      ensures |s| == GrainSize() && Shows(disk, StartOf(k, GrainSize()), s)
    {
      var at := StartOf(k, GrainSize());
      seq<byte>(GrainSize(), i requires 0 <= i => if at + i < |disk| then disk[at + i] else 0)
    }

    /** Zero grains are left out. */
    function Entry(k: nat): nat {
      if k < Grains() && !AllZero(Block(k)) then FirstGrain() + StartOf(k, grainSectors) else 0
    }

    function Table(t: nat): (es: seq<nat>)
      ensures |es| == entries && forall j | 0 <= j < entries :: es[j] == Entry(StartOf(t, entries) + j)
    {
      seq<nat>(entries, j requires 0 <= j => Entry(StartOf(t, entries) + j))
    }

    /** So are empty tables. */
    function Word(t: nat): nat {
      if AnyNonZero(Table(t)) then FirstTable() + StartOf(t, TableSectors()) else 0
    }

    function Directory(): (ws: seq<nat>)
      ensures |ws| == Tables() && forall t | 0 <= t < |ws| :: ws[t] == Word(t)
    {
      seq<nat>(Tables(), t requires 0 <= t => Word(t))
    }

    function AllTables(): seq<byte> {
      Row(t => PadToSector(Words(Table(t))), Tables())
    }

    function AllGrains(): seq<byte> {
      Row(k => Block(k), Grains())
    }

    function Header(): SparseExtentHeader
      requires Fits()
    {
      SizesBounded(this);
      SparseExtentHeader(0x564D444B, 1, 3, |disk| / SECTOR_SIZE, grainSectors, 0, 0, entries, 0, 1, 0, 0, [10, 32, 13, 10], 0)
    }

    function File(): seq<byte>
      requires Fits()
    {
      HeaderBytes(Header()) + (PadToSector(Words(Directory())) + (AllTables() + AllGrains()))
    }
  }

  /** The disk is not larger than its grains, which fit 32-bit sectors. */
  lemma SizesBounded(l: Layout)
    requires l.Fits()
    ensures |l.disk| / SECTOR_SIZE <= StartOf(l.Grains(), l.grainSectors) <= U32_LIMIT
    ensures l.Grains() <= U32_LIMIT
  {
    CeilBounds(|l.disk| / SECTOR_SIZE, l.grainSectors);
    NotLess(l.Grains(), l.grainSectors);
  }

  lemma NotLess(k: nat, d: Positive)
    ensures k <= StartOf(k, d)
  {
    assert k * d == k + k * (d - 1);
  }

  // ---- Where the parts lie

  /** A sector number times the sector size. */
  lemma SectorBytes(k: nat, sectors: nat)
    ensures StartOf(k, sectors * SECTOR_SIZE) == SECTOR_SIZE * StartOf(k, sectors)
  {
    assert k * (sectors * 512) == 512 * (k * sectors);
  }

  lemma Padded(ws: seq<nat>)
    ensures |PadToSector(Words(ws))| == (|ws| * 4 + SECTOR_SIZE - 1) / SECTOR_SIZE * SECTOR_SIZE
  {
    PaddedSize(|Words(ws)|);
  }

  lemma DirectoryPart(file: seq<byte>, at: nat, ws: seq<nat>)
    requires Holds(file, at, PadToSector(Words(ws)))
    ensures Holds(file, at, Words(ws))
  {
    hide Words;
    HoldsParts(file, at, Words(ws), Zeros(Padding(|Words(ws)|)));
  }

  lemma TablesInRow(l: Layout, t: nat)
    ensures |l.AllTables()| == SECTOR_SIZE * StartOf(l.Tables(), l.TableSectors())
    ensures t < l.Tables() ==> Holds(l.AllTables(), SECTOR_SIZE * StartOf(t, l.TableSectors()), PadToSector(Words(l.Table(t))))
  {
    hide Words, Layout.Table, Row, StartOf, PadToSector, Layout.Tables;
    var tableOf := (t: nat) => PadToSector(Words(l.Table(t)));
    var size := l.TableSectors() * SECTOR_SIZE;
    forall i: nat
      ensures |tableOf(i)| == size
    {
      Padded(l.Table(i));
    }
    RowHolds(tableOf, l.Tables(), size, t);
    SectorBytes(l.Tables(), l.TableSectors());
    SectorBytes(t, l.TableSectors());
  }

  lemma GrainsInRow(l: Layout, k: nat)
    ensures |l.AllGrains()| == SECTOR_SIZE * StartOf(l.Grains(), l.grainSectors)
    ensures k < l.Grains() ==> Holds(l.AllGrains(), SECTOR_SIZE * StartOf(k, l.grainSectors), l.Block(k))
  {
    hide Layout.Block, Row, StartOf, Layout.Grains;
    RowHolds(k => l.Block(k), l.Grains(), l.GrainSize(), k);
    SectorBytes(l.Grains(), l.grainSectors);
    SectorBytes(k, l.grainSectors);
  }

  /** The three parts behind the header. */
  lemma PartsPlaced(l: Layout)
    requires l.Fits()
    ensures |l.File()| == SECTOR_SIZE * l.End() && HeaderBytes(l.Header()) <= l.File()
    ensures Holds(l.File(), SECTOR_SIZE, Words(l.Directory()))
    ensures Holds(l.File(), SECTOR_SIZE * l.FirstTable(), l.AllTables())
    ensures Holds(l.File(), SECTOR_SIZE * l.FirstGrain(), l.AllGrains())
  {
    hide HeaderBytes, Words, Layout.Directory, StartOf, PadToSector, Layout.Tables, Layout.Grains, Layout.AllTables,
         Layout.AllGrains, Layout.Header;
    var head, dir := HeaderBytes(l.Header()), PadToSector(Words(l.Directory()));
    var tables, grains := l.AllTables(), l.AllGrains();
    Padded(l.Directory());
    TablesInRow(l, 0);
    GrainsInRow(l, 0);
    var file := l.File();
    HoldsEnd(head, dir + (tables + grains));
    HoldsParts(file, 512, dir, tables + grains);
    HoldsParts(file, 512 + |dir|, tables, grains);
    DirectoryPart(file, 512, l.Directory());
  }

  /** Directory, tables and grains lie at their sectors, and nothing lies behind them. */
  lemma Placed(l: Layout, t: nat, k: nat)
    requires l.Fits()
    ensures |l.File()| == SECTOR_SIZE * l.End() && HeaderBytes(l.Header()) <= l.File()
    ensures Holds(l.File(), SECTOR_SIZE, Words(l.Directory()))
    ensures t < l.Tables() ==>
              Holds(l.File(), SECTOR_SIZE * (l.FirstTable() + StartOf(t, l.TableSectors())), Words(l.Table(t)))
    ensures k < l.Grains() ==>
              Holds(l.File(), SECTOR_SIZE * (l.FirstGrain() + StartOf(k, l.grainSectors)), l.Block(k))
  {
    hide HeaderBytes, Words, Layout.Directory, Layout.Block, Layout.Table, StartOf, PadToSector, Layout.Tables, Layout.Grains,
         Layout.AllTables, Layout.AllGrains, Layout.Header,
         Layout.File, Layout.FirstTable, Layout.FirstGrain, Layout.TableSectors, Layout.End, Holds;
    PartsPlaced(l);
    TablesInRow(l, t);
    GrainsInRow(l, k);
    var file, table, grain := l.File(), SECTOR_SIZE * StartOf(t, l.TableSectors()), SECTOR_SIZE * StartOf(k, l.grainSectors);
    if t < l.Tables() {
      HoldsNested(file, SECTOR_SIZE * l.FirstTable(), l.AllTables(), table, PadToSector(Words(l.Table(t))));
      DirectoryPart(file, SECTOR_SIZE * l.FirstTable() + table, l.Table(t));
    }
    if k < l.Grains() {
      HoldsNested(file, SECTOR_SIZE * l.FirstGrain(), l.AllGrains(), grain, l.Block(k));
    }
  }

  lemma Before(i: nat, count: nat, size: Positive)
    requires i < count
    ensures StartOf(i, size) + size <= StartOf(count, size)
  {
    MulOrder(size, i, count);
  }

  /** The numbers in directory and tables fit 32 bits. */
  lemma WordsFit(l: Layout, t: nat, k: nat)
    requires l.Fits() && t < l.Tables()
    ensures l.Word(t) < U32_LIMIT && l.Entry(k) < U32_LIMIT && (l.Word(t) > 0 <==> AnyNonZero(l.Table(t)))
  {
    hide Layout.Block, Layout.Table, StartOf;
    Before(t, l.Tables(), l.TableSectors());
    if k < l.Grains() {
      Before(k, l.Grains(), l.grainSectors);
    }
  }

  lemma LeftOut(l: Layout, k: nat)
    requires k < l.Grains() && l.Entry(k) == 0
    ensures Shows(l.disk, StartOf(k, l.GrainSize()), Zeros(l.GrainSize()))
  {
    hide Shows, StartOf;
    assert l.Block(k) == Zeros(l.GrainSize());
  }

  lemma Slot(l: Layout, k: nat)
    requires k < l.Grains()
    ensures k / l.entries < l.Tables() && l.Table(k / l.entries)[k % l.entries] == l.Entry(k)
  {
    hide Layout.Entry;
    TableInside(k, l.Grains(), l.entries);
    assert k == StartOf(k / l.entries, l.entries) + k % l.entries;
  }

  lemma BlockFound(l: Layout, k: nat)
    requires l.Fits() && k < l.Grains() && l.Entry(k) != 0
    ensures var at := SECTOR_SIZE * l.Entry(k);
            at + l.GrainSize() <= |l.File()| && Shows(l.disk, StartOf(k, l.GrainSize()), l.File()[at..at + l.GrainSize()])
  {
    hide Layout.File, Layout.Table, Layout.Grains, Layout.Tables, Layout.Fits, Words, HeaderBytes, Shows, StartOf, Layout.FirstTable,
         Layout.FirstGrain, Layout.End;
    Placed(l, 0, k);
  }

  /** Directory word `t` is `d`; entry `j` of the table in sector `d` is `s`. */
  ghost predicate Leads(file: seq<byte>, t: nat, d: nat, j: nat, s: nat) {
    && 512 + 4 * t + 4 <= |file| && ReadLe(file, 512 + 4 * t, 4) == d
    && if d == 0 then s == 0 else 512 * d + 4 * j + 4 <= |file| && ReadLe(file, 512 * d + 4 * j, 4) == s
  }

  /** The directory leads to the table of grain `k`, and the table to its entry. */
  lemma EntryFound(l: Layout, k: nat, t: nat, j: nat)
    requires l.Fits() && k < l.Grains() && t < l.Tables() && j < l.entries && l.Table(t)[j] == l.Entry(k)
    ensures Leads(l.File(), t, l.Word(t), j, l.Entry(k))
  {
    hide Layout.File, Layout.Block, Layout.Table, Layout.Grains, Layout.Tables, Layout.Fits, Words, HeaderBytes, StartOf, ReadLe,
         Layout.FirstTable, Layout.FirstGrain, Layout.End, Holds, Layout.Directory, Layout.Entry, AsU32;
    var file := l.File();
    Placed(l, t, k);
    WordsFit(l, t, k);
    ReadWord(file, SECTOR_SIZE, l.Directory(), t);
    if AnyNonZero(l.Table(t)) {
      ReadWord(file, SECTOR_SIZE * l.Word(t), l.Table(t), j);
    }
  }

  /** Every grain can be found. */
  lemma GrainPlaced(l: Layout, k: nat)
    requires l.Fits() && k < l.Grains()
    ensures GrainLies(l.File(), SECTOR_SIZE, l.entries, l.GrainSize(), l.disk, k)
  {
    hide Layout.File, Layout.Grains, Layout.Fits, Shows, StartOf, ReadLe, Layout.Entry, Layout.Word;
    Slot(l, k);
    EntryFound(l, k, k / l.entries, k % l.entries);
    if l.Entry(k) == 0 {
      LeftOut(l, k);
    } else {
      BlockFound(l, k);
    }
  }

  /** Any disk of whole sectors, laid out with any grain and table sizes for which 32-bit sector numbers suffice, is
      opened and read back. */
  lemma LayoutReads(l: Layout, inflate: Inflate)
    requires l.Fits()
    ensures LaidOut(l.File(), l.Header(), l.disk)
    ensures ExtentReads(l.File(), inflate) && ExtentDisk(l.File(), inflate) == l.disk
  {
    assert LaidOut(l.File(), l.Header(), l.disk) by { LayoutIsLaidOut(l); }
    LaidOutReads(l.File(), l.Header(), l.disk, inflate);
  }

  lemma LayoutIsLaidOut(l: Layout)
    requires l.Fits()
    ensures LaidOut(l.File(), l.Header(), l.disk)
  {
    hide Layout.File, Layout.Block, Layout.Table, Words, HeaderBytes, GrainLies, Layout.Directory, StartOf;
    SizesBounded(l);
    Placed(l, 0, 0);
    forall k: nat | k < GrainCount(l.Header())
      ensures GrainLies(l.File(), SECTOR_SIZE * l.Header().gdOffset, l.Header().numGtesPerGt, l.Header().grainSize * SECTOR_SIZE, l.disk, k)
    {
      GrainPlaced(l, k);
    }
  }
}
