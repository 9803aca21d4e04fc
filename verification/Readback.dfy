/** What the reader's grain lookup yields on a finished image, in terms of the writes alone. */
module Readback {
  import opened Bytes
  import opened Results
  import opened StreamVmdk
  import opened StreamIndex
  import SR = SparseReader
  import opened SparseChunks

  /** The content of grain `g` as a reader must see it: the first 64 KiB of the last payload inflated,
      a failure when that is too short, and zeros when nothing was written. */
  function GrainContent(gs: seq<Grain>, inflate: Inflate, g: nat): (r: Result<seq<byte>, SR.VmdkError>)
    ensures r.Ok? ==> |r.value| == GRAIN_BYTES
  {
    if g !in Latest(gs) then Ok(Zeros(GRAIN_BYTES))
    else
      var data := inflate(Latest(gs)[g].data);
      if |data| < GRAIN_BYTES then Err(SR.DecompressFailed) else Ok(data[..GRAIN_BYTES])
  }

  lemma StoredReads(r: SR.Reader, inflate: Inflate, at: nat, g: Grain, size: nat)
    requires StoredGrain(r.file, at) == Some(g)
    ensures r.ReadCompressedGrain(inflate, at, size)
         == var data := inflate(g.data);
            if |data| < size then Err(SR.DecompressFailed) else Ok(data[..size])
  {
  }

  /** Reading any grain below the table range through footer, directory and table gives its content. */
  lemma ImageGrain(capacityBytes: u64, gs: seq<Grain>, inflate: Inflate, g: nat)
    requires Fits(capacityBytes, gs) && g < GTES_PER_GT * NumGts(capacityBytes / SECTOR_SIZE)
    ensures var img := Image(capacityBytes, gs);
            && |img| >= 2 * SECTOR_SIZE && FooterReader(img).Ok?
            && var r := FooterReader(img).value;
            && r.GrainBytes() == GRAIN_BYTES
            && r.capacityBytes == capacityBytes / SECTOR_SIZE * SECTOR_SIZE
            && r.ReadGrain(inflate, g) == GrainContent(gs, inflate, g)
  {
    hide Image, FooterReader, NumGts, StoredGrain, Latest, DirectorySector, Offsets, NextSector, Body, GrainRecord, Holds, Directory;
    FittingIsFile(capacityBytes, gs);
    FooterOpens(capacityBytes, gs);
    SectorsBelowDirectory(capacityBytes, gs);
    RecordsHeld(gs, g);
    if g in Latest(gs) {
      LatestWritten(gs, g);
    }
    IndexAgreesWithMap(capacityBytes, gs, g);
    if g in Latest(gs) {
      var r := FooterReader(Image(capacityBytes, gs)).value;
      StoredReads(r, inflate, SECTOR_SIZE * r.GrainSector(g).value, Latest(gs)[g], GRAIN_BYTES);
    }
  }

  /** The index-driven reader shows exactly this disk. */
  ghost predicate ReadsBack(img: seq<byte>, inflate: Inflate, disk: seq<byte>) {
    && |img| >= 2 * SECTOR_SIZE
    && FooterReader(img).Ok?
    && var r := FooterReader(img).value;
    && RangeReads(r, inflate, 0, r.capacityBytes)
    && VirtualDisk(r, inflate) == disk
  }

  /** Grains below the capacity are below the table range. */
  lemma GrainInTables(capacityBytes: u64, p: nat)
    requires p < capacityBytes / SECTOR_SIZE * SECTOR_SIZE
    ensures p / GRAIN_BYTES < GTES_PER_GT * NumGts(capacityBytes / SECTOR_SIZE)
  {
    var c := capacityBytes / SECTOR_SIZE;
    CeilBounds(c, GRAIN_SIZE);
    CeilBounds(NumGrains(c), GTES_PER_GT);
    DivBelow(p, GRAIN_BYTES, NumGrains(c));
  }

  /** The disk the reader shows, byte by byte, decides whether it reads back. */
  lemma ReadsBackBytes(capacityBytes: u64, gs: seq<Grain>, inflate: Inflate, disk: seq<byte>)
    requires Fits(capacityBytes, gs)
    ensures ReadsBack(Image(capacityBytes, gs), inflate, disk) <==>
            && |disk| == capacityBytes / SECTOR_SIZE * SECTOR_SIZE
            && forall p: nat | p < |disk| :: ContentAt(gs, inflate, p) == Some(disk[p])
  {
    hide Image, FooterReader, NumGts, GrainContent, DirectorySector;
    var img, size := Image(capacityBytes, gs), capacityBytes / SECTOR_SIZE * SECTOR_SIZE;
    FittingIsFile(capacityBytes, gs);
    FooterOpens(capacityBytes, gs);
    var r := FooterReader(img).value;
    assert r.capacityBytes == size && r.GrainBytes() == GRAIN_BYTES;
    forall p: nat | p < size
      ensures r.ReadGrain(inflate, p / GRAIN_BYTES) == GrainContent(gs, inflate, p / GRAIN_BYTES)
    {
      GrainInTables(capacityBytes, p);
      ImageGrain(capacityBytes, gs, inflate, p / GRAIN_BYTES);
    }
    ByBytes(r, inflate, gs, disk);
  }

  /** The byte at position `p` as the writes define it. */
  function ContentAt(gs: seq<Grain>, inflate: Inflate, p: nat): Option<byte> {
    match GrainContent(gs, inflate, p / GRAIN_BYTES)
    case Ok(data) => Some(data[p % GRAIN_BYTES])
    case Err(_) => None
  }

  lemma ByBytes(r: SR.OpenReader, inflate: Inflate, gs: seq<Grain>, disk: seq<byte>)
    requires r.GrainBytes() == GRAIN_BYTES
    requires forall p: nat | p < r.capacityBytes ::
               r.ReadGrain(inflate, p / GRAIN_BYTES) == GrainContent(gs, inflate, p / GRAIN_BYTES)
    ensures (RangeReads(r, inflate, 0, r.capacityBytes) && VirtualDisk(r, inflate) == disk) <==>
            (|disk| == r.capacityBytes && forall p: nat | p < |disk| :: ContentAt(gs, inflate, p) == Some(disk[p]))
  {
    hide GrainContent;
    if |disk| == r.capacityBytes && forall p: nat | p < |disk| :: ContentAt(gs, inflate, p) == Some(disk[p]) {
      forall p: nat | 0 <= p < r.capacityBytes
        ensures PositionReads(r, inflate, p)
      {
        assert ContentAt(gs, inflate, p) == Some(disk[p]);
      }
      forall p: nat | p < r.capacityBytes
        ensures VirtualDisk(r, inflate)[p] == disk[p]
      {
        assert ContentAt(gs, inflate, p) == Some(disk[p]);
      }
    }
    if RangeReads(r, inflate, 0, r.capacityBytes) && VirtualDisk(r, inflate) == disk {
      forall p: nat | p < |disk|
        ensures ContentAt(gs, inflate, p) == Some(disk[p])
      {
        assert PositionReads(r, inflate, p);
        assert disk[p] == ByteAt(r, inflate, 0 + p);
      }
    }
  }
}
