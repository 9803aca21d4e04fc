/** The hosted sparse VMDK reader: header, grain directory, and the address translation of a grain index. */
module SparseReader {
  import opened Bytes
  import opened Results
  import StreamVmdk

  datatype VmdkError =
    | HeaderTooShort
    | InvalidMagic(got: nat)
    | UnsupportedVersion(version: nat)
    | MarkersNotSupported
    | DivisionByZero // the source panics
    | Overflow // the source panics, or wraps around when built without overflow checks
    | DirectoryBeyondFile
    | TableEntryBeyondFile
    | GrainBeyondFile
    | CompressedHeaderBeyondFile
    | CompressedDataBeyondFile
    | DecompressFailed

  datatype SparseHeader = SparseHeader(
    version: nat,
    flags: nat,
    capacity: nat,
    grainSize: nat,
    descriptorOffset: nat,
    descriptorSize: nat,
    numGtesPerGt: nat,
    gdOffset: nat)
  {
    predicate IsCompressed() {
      flags / 0x1_0000 % 2 == 1
    }

    predicate HasMarkers() {
      flags / 0x2_0000 % 2 == 1
    }

    predicate NonZeroSizes() {
      grainSize > 0 && numGtesPerGt > 0
    }

    function NumGrains(): nat
      requires NonZeroSizes()
    {
      (capacity + grainSize - 1) / grainSize
    }

    function NumGdEntries(): nat
      requires NonZeroSizes()
    {
      (NumGrains() + numGtesPerGt - 1) / numGtesPerGt
    }

    /** The size and the place of the directory can be computed in 64 bits. */
    predicate DirectoryFits()
      requires NonZeroSizes()
    {
      && capacity + grainSize < U64_LIMIT
      && NumGrains() + numGtesPerGt < U64_LIMIT
      && gdOffset * SECTOR_SIZE + NumGdEntries() * 4 < U64_LIMIT
    }
  }

  function ParseHeader(data: seq<byte>): Result<SparseHeader, VmdkError> {
    if |data| < 512 then Err(HeaderTooShort)
    else if ReadLe(data, 0, 4) != StreamVmdk.VMDK_MAGIC then Err(InvalidMagic(ReadLe(data, 0, 4)))
    else
      Ok(SparseHeader(ReadLe(data, 4, 4), ReadLe(data, 8, 4), ReadLe(data, 12, 8), ReadLe(data, 20, 8),
                      ReadLe(data, 28, 8), ReadLe(data, 36, 8), ReadLe(data, 44, 4), ReadLe(data, 56, 8)))
  }

  datatype Reader = Reader(file: seq<byte>, header: SparseHeader, directory: seq<nat>, capacityBytes: nat) {
    /** What a successful load guarantees. */
    predicate Valid() {
      && header.NonZeroSizes()
      && |directory| == header.NumGdEntries()
      && capacityBytes == header.capacity * SECTOR_SIZE < U64_LIMIT
    }

    function GrainBytes(): (n: nat)
      ensures header.grainSize > 0 ==> n > 0
    {
      header.grainSize * SECTOR_SIZE
    }

    /** The sector the two-level index gives for a grain; 0 means "not allocated". */
    function GrainSector(g: nat): Result<nat, VmdkError>
      requires header.NonZeroSizes()
    {
      var gt, gte := g / header.numGtesPerGt, g % header.numGtesPerGt;
      if gt >= |directory| then Ok(0)
      else if directory[gt] == 0 then Ok(0)
      else
        var at := directory[gt] * SECTOR_SIZE + gte * 4;
        if at + 4 > |file| then Err(TableEntryBeyondFile) else Ok(ReadLe(file, at, 4))
    }

    /** Reads the size behind the LBA, then takes the first `size` inflated bytes.
        `inflate` gives the bytes the decoder can produce before it ends or fails. */
    function ReadCompressedGrain(inflate: seq<byte> -> seq<byte>, at: nat, size: nat)
        : (r: Result<seq<byte>, VmdkError>)
      ensures r.Ok? ==> |r.value| == size
    {
      if at + 12 > |file| then Err(CompressedHeaderBeyondFile)
      else
        var n := ReadLe(file, at + 8, 4);
        if at + 12 + n > |file| then Err(CompressedDataBeyondFile)
        else
          var data := inflate(file[at + 12..at + 12 + n]);
          if |data| < size then Err(DecompressFailed) else Ok(data[..size])
    }

    /** The grain stored in a sector, plain or compressed. */
    function StoredIn(inflate: seq<byte> -> seq<byte>, sector: nat): (r: Result<seq<byte>, VmdkError>)
      ensures r.Ok? ==> |r.value| == GrainBytes()
    {
      var at, end := sector * SECTOR_SIZE, sector * SECTOR_SIZE + GrainBytes();
      if header.IsCompressed() then ReadCompressedGrain(inflate, at, GrainBytes())
      else if end >= U64_LIMIT then Err(Overflow)
      else if end > |file| then Err(GrainBeyondFile)
      else Ok(file[at..end])
    }

    function ReadGrain(inflate: seq<byte> -> seq<byte>, g: nat): (r: Result<seq<byte>, VmdkError>)
      requires header.NonZeroSizes()
      ensures r.Ok? ==> |r.value| == GrainBytes()
    {
      if GrainBytes() >= U64_LIMIT then Err(Overflow)
      else
        match GrainSector(g)
        case Err(e) => Err(e)
        case Ok(sector) => if sector == 0 then Ok(Zeros(GrainBytes())) else StoredIn(inflate, sector)
    }
  }

  /** Readers whose sizes can be divided by. */
  type OpenReader = r: Reader | r.header.NonZeroSizes() witness Reader([], SparseHeader(0, 0, 0, 1, 0, 0, 1, 0), [], 0)

  /** The directory words `n` entries long at byte `at`. */
  function DirectoryWords(file: seq<byte>, at: nat, n: nat): (ds: seq<nat>)
    requires at + 4 * n <= |file|
    ensures |ds| == n && forall i | 0 <= i < n :: ds[i] == ReadLe(file, at + 4 * i, 4)
  {
    seq<nat>(n, i requires 0 <= i < n => ReadLe(file, at + 4 * i, 4))
  }

  /** The reader for a file whose header is already known: the part of `open` after the header checks. */
  function ReaderFor(file: seq<byte>, header: SparseHeader): (r: Result<Reader, VmdkError>)
    ensures r.Ok? ==> r.value.Valid()
  {
    var at := header.gdOffset * SECTOR_SIZE;
    if !header.NonZeroSizes() then Err(DivisionByZero)
    else if !header.DirectoryFits() then Err(Overflow)
    else if at + header.NumGdEntries() * 4 > |file| then Err(DirectoryBeyondFile)
    else if header.capacity * SECTOR_SIZE >= U64_LIMIT then Err(Overflow)
    else Ok(Reader(file, header, DirectoryWords(file, at, header.NumGdEntries()), header.capacity * SECTOR_SIZE))
  }

  method LoadDirectory(file: seq<byte>, header: SparseHeader) returns (r: Result<Reader, VmdkError>)
    ensures r == ReaderFor(file, header)
  {
    var at := header.gdOffset * SECTOR_SIZE;
    if !header.NonZeroSizes() {
      return Err(DivisionByZero);
    }
    if !header.DirectoryFits() {
      return Err(Overflow);
    }
    var n := header.NumGdEntries();
    if at + n * 4 > |file| {
      return Err(DirectoryBeyondFile);
    }
    var directory: seq<nat> := [];
    for i := 0 to n
      invariant directory == DirectoryWords(file, at, i)
    {
      directory := directory + [ReadLe(file, at + i * 4, 4)];
    }
    if header.capacity * SECTOR_SIZE >= U64_LIMIT {
      return Err(Overflow);
    }
    return Ok(Reader(file, header, directory, header.capacity * SECTOR_SIZE));
  }

  /** `open`: header, version and marker checks, then the directory. */
  function OpenSpec(file: seq<byte>): (r: Result<Reader, VmdkError>)
    ensures r.Ok? ==> r.value.Valid()
  {
    match ParseHeader(file)
    case Err(e) => Err(e)
    case Ok(h) =>
      if h.version > 3 then Err(UnsupportedVersion(h.version))
      else if h.HasMarkers() then Err(MarkersNotSupported)
      else ReaderFor(file, h)
  }

  method Open(file: seq<byte>) returns (r: Result<Reader, VmdkError>)
    ensures r == OpenSpec(file)
  {
    var parsed := ParseHeader(file);
    if parsed.Err? {
      return Err(parsed.error);
    }
    var h := parsed.value;
    if h.version > 3 {
      return Err(UnsupportedVersion(h.version));
    }
    if h.HasMarkers() {
      return Err(MarkersNotSupported);
    }
    r := LoadDirectory(file, h);
  }
}
