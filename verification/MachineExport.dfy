/** The export of a machine from its source disks to the archive, and what is left of the disks in it. */
module MachineExport {
  import Bytes
  import opened Results
  import opened StreamVmdk
  import opened ExportedDisk
  import opened Export
  import opened SparseReader
  import opened SplitExtents
  import opened Ovf
  import opened Ova
  import opened OvaRoundTrip
  import opened ExportVm
  import TarWalk

  /** A disk to export, with the capacity announced for it. */
  datatype Source =
    | FlatSource(file: seq<Bytes.byte>, capacity: Bytes.u64)
    | SparseSource(file: seq<Bytes.byte>, capacity: Bytes.u64)
    | SplitSource(files: seq<seq<Bytes.byte>>, capacity: Bytes.u64)

  ghost predicate SourceReads(s: Source, inflate: seq<Bytes.byte> -> seq<Bytes.byte>) {
    match s
    case FlatSource(_, _) => true
    case SparseSource(file, _) => ExtentReads(file, inflate)
    case SplitSource(files, _) => forall f | f in files :: ExtentReads(f, inflate)
  }

  /** The bytes of the disk. */
  ghost function DiskOf(s: Source, inflate: seq<Bytes.byte> -> seq<Bytes.byte>): seq<Bytes.byte>
    requires SourceReads(s, inflate)
  {
    match s
    case FlatSource(file, _) => file
    case SparseSource(file, _) => ExtentDisk(file, inflate)
    case SplitSource(files, _) => WholeDisk(files, inflate)
  }

  /** The source can be read, and its disk is not larger than a 64-bit file. */
  ghost predicate Exportable(s: Source, inflate: seq<Bytes.byte> -> seq<Bytes.byte>) {
    SourceReads(s, inflate) && |DiskOf(s, inflate)| < Bytes.U64_LIMIT
  }

  ghost predicate AllExportable(sources: seq<Source>, inflate: seq<Bytes.byte> -> seq<Bytes.byte>) {
    forall i | 0 <= i < |sources| :: Exportable(sources[i], inflate)
  }

  ghost function ImageOf(s: Source, codec: Codec, chunkSize: Bytes.Positive): DiskImage
    requires Exportable(s, codec.inflate)
  {
    DiskImage(Image(s.capacity, ExportedGrains(DiskOf(s, codec.inflate), codec, chunkSize)), s.capacity)
  }

  ghost function ImagesOf(sources: seq<Source>, codec: Codec, chunkSize: Bytes.Positive): (ds: seq<DiskImage>)
    requires AllExportable(sources, codec.inflate)
    ensures |ds| == |sources| && forall i | 0 <= i < |ds| :: ds[i] == ImageOf(sources[i], codec, chunkSize)
  {
    seq(|sources|, i requires 0 <= i < |sources| => ImageOf(sources[i], codec, chunkSize))
  }

  /** Reading and compressing one disk, by kind. */
  method ConvertDisk(s: Source, codec: Codec, chunkSize: Bytes.Positive) returns (r: Result<DiskImage, VmdkError>)
    requires SourceReads(s, codec.inflate) ==> Exportable(s, codec.inflate)
    ensures r.Ok? <==> SourceReads(s, codec.inflate)
    ensures r.Ok? ==> r.value == ImageOf(s, codec, chunkSize)
  {
    hide Image, ExtentReads, ExtentFails, ExtentDisk, WholeDisk, Preserves, ExportedGrains;
    match s
    case FlatSource(file, capacity) =>
      var exported := ProcessDisk(file, capacity, codec, chunkSize);
      r := Ok(DiskImage(exported.image, capacity));
    case SparseSource(file, capacity) =>
      var exported := ProcessSparseDisk(file, capacity, codec, chunkSize);
      r := if exported.Ok? then Ok(DiskImage(exported.value.image, capacity)) else Err(exported.error);
    case SplitSource(files, capacity) =>
      var exported := ProcessSplitDisk(files, capacity, codec, chunkSize);
      r := if exported.Ok? then Ok(DiskImage(exported.value.image, capacity)) else Err(exported.error);
  }

  /** An image preserves a source disk. */
  ghost predicate Keeps(image: seq<Bytes.byte>, s: Source, codec: Codec, chunkSize: Bytes.Positive)
    requires Exportable(s, codec.inflate)
  {
    Preserves(image, DiskOf(s, codec.inflate), s.capacity, codec, chunkSize)
  }

  /** Everything added to the archive. */
  ghost function MachineFiles(config: VmxConfig, sources: seq<Source>, codec: Codec, chunkSize: Bytes.Positive, ovfName: string,
                              alphanumeric: Alphanumeric, utf8: string -> seq<Bytes.byte>, mtime: nat): seq<Ova.File>
    requires |sources| == |config.disks| && AllExportable(sources, codec.inflate)
  {
    ExportedFiles(config, ImagesOf(sources, codec, chunkSize), ovfName, alphanumeric, utf8, mtime)
  }

  /** Member `i` of the archive is an image that preserves source disk `i`. */
  ghost predicate HoldsDisks(archive: seq<Bytes.byte>, sources: seq<Source>, codec: Codec, chunkSize: Bytes.Positive)
    requires AllExportable(sources, codec.inflate)
  {
    var walk := TarWalk.Walk(archive, 0, name => true);
    && walk.Some? && |walk.value.entries| >= |sources|
    && forall i | 0 <= i < |sources| ::
         Keeps(MemberData(archive, walk.value.entries[i]), sources[i], codec, chunkSize)
  }

  /** Walking the archive of an export finds every source disk again: the i-th member, scanned in stream order or, when
      aligned, read through its tables, is the i-th disk. */
  lemma ArchiveHoldsDisks(config: VmxConfig, sources: seq<Source>, codec: Codec, chunkSize: Bytes.Positive, ovfName: string,
                          alphanumeric: Alphanumeric, utf8: string -> seq<Bytes.byte>, sha: Sha, mtime: nat)
    requires |sources| == |config.disks| && AllExportable(sources, codec.inflate)
    requires var files := MachineFiles(config, sources, codec, chunkSize, ovfName, alphanumeric, utf8, mtime);
             forall f | f in AllMembers(sha, files, mtime) :: Writable(f)
    ensures var files := MachineFiles(config, sources, codec, chunkSize, ovfName, alphanumeric, utf8, mtime);
            HoldsDisks(Finished(AddedAll(sha, files), mtime), sources, codec, chunkSize)
  {
    hide Writable, Finished, AddedAll, DocumentText, TarWalk.Visible, TarWalk.Walk, Members, EntriesFrom, Exportable, Keeps, Infos,
         ImageOf;
    var ds := ImagesOf(sources, codec, chunkSize);
    var files := ExportedFiles(config, ds, ovfName, alphanumeric, utf8, mtime);
    var archive, all := Finished(AddedAll(sha, files), mtime), AllMembers(sha, files, mtime);
    ArchiveRoundTrip(sha, files, mtime, name => true);
    forall i | 0 <= i < |sources|
      ensures MemberData(archive, EntriesFrom(all, 0)[i]) == ds[i].image
      ensures Keeps(ds[i].image, sources[i], codec, chunkSize)
    {
      assert all[i] == files[i];
      MemberShown(archive, all, i);
      ImageKept(sources[i], codec, chunkSize);
    }
  }

  lemma ImageKept(s: Source, codec: Codec, chunkSize: Bytes.Positive)
    requires Exportable(s, codec.inflate)
    ensures Keeps(ImageOf(s, codec, chunkSize).image, s, codec, chunkSize)
  {
    hide Image, ExportedGrains, DiskOf, Preserves;
    ImagePreserves(DiskOf(s, codec.inflate), s.capacity, codec, chunkSize);
  }

  /** `export_vm` after parsing: every disk is converted, then the archive is written. It fails exactly when a source
      cannot be read; otherwise the archive holds all source disks. */
  method ExportMachine(config: VmxConfig, sources: seq<Source>, codec: Codec, chunkSize: Bytes.Positive, ovfName: string,
                       alphanumeric: Alphanumeric, utf8: string -> seq<Bytes.byte>, sha: Sha, mtime: nat)
      returns (r: Result<seq<Bytes.byte>, VmdkError>)
    requires |sources| == |config.disks|
    requires forall i | 0 <= i < |sources| :: SourceReads(sources[i], codec.inflate) ==> Exportable(sources[i], codec.inflate)
    requires AllExportable(sources, codec.inflate) ==>
               var files := MachineFiles(config, sources, codec, chunkSize, ovfName, alphanumeric, utf8, mtime);
               forall f | f in AllMembers(sha, files, mtime) :: Writable(f)
    ensures r.Ok? <==> forall i | 0 <= i < |sources| :: SourceReads(sources[i], codec.inflate)
    ensures r.Ok? ==>
              var files := MachineFiles(config, sources, codec, chunkSize, ovfName, alphanumeric, utf8, mtime);
              r.value == Finished(AddedAll(sha, files), mtime) && HoldsDisks(r.value, sources, codec, chunkSize)
  {
    hide Writable, Finished, AddedAll, AllMembers, ExportedFiles, HoldsDisks, ImageOf, Exportable, SourceReads;
    var images: seq<DiskImage> := [];
    for i := 0 to |sources|
      invariant |images| == i
      invariant forall k | 0 <= k < i :: SourceReads(sources[k], codec.inflate)
      invariant forall k | 0 <= k < i :: Exportable(sources[k], codec.inflate) && images[k] == ImageOf(sources[k], codec, chunkSize)
    {
      var image := ConvertDisk(sources[i], codec, chunkSize);
      if image.Err? {
        return Err(image.error);
      }
      images := images + [image.value];
    }
    assert images == ImagesOf(sources, codec, chunkSize);
    var archive := WriteArchive(config, images, ovfName, alphanumeric, utf8, sha, mtime);
    ArchiveHoldsDisks(config, sources, codec, chunkSize, ovfName, alphanumeric, utf8, sha, mtime);
    r := Ok(archive);
  }
}
