/** The last stage of an export: disks into the archive, then the descriptor that refers to them. */
module ExportVm {
  import Bytes
  import opened Results
  import opened Text
  import opened Xml
  import opened XmlReader
  import opened XmlWriter
  import opened Ovf
  import opened OvfDocument
  import opened OvfIds
  import opened OvfReferences
  import opened Ova
  import opened OvaRoundTrip
  import TarWalk

  /** A converted disk: its image and the capacity it stands for. */
  datatype DiskImage = DiskImage(image: seq<Bytes.byte>, capacityBytes: nat)

  const DISK_PREFIX := "vmdisk"
  const FILE_PREFIX := "file"

  /** The description of disk `i`. */
  function InfoOf(d: DiskImage, i: nat): DiskInfo {
    DiskInfo(DISK_PREFIX + Decimal(i + 1), FILE_PREFIX + Decimal(i + 1), d.capacityBytes, |d.image|)
  }

  function Infos(ds: seq<DiskImage>): (infos: seq<DiskInfo>)
    ensures |infos| == |ds| && forall i | 0 <= i < |infos| :: infos[i] == InfoOf(ds[i], i)
  {
    seq(|ds|, i requires 0 <= i < |ds| => InfoOf(ds[i], i))
  }

  /** Numbered names are fixed words, and different for different numbers. */
  lemma NumberedOk(prefix: string, n: nat)
    requires FixedOk(prefix)
    ensures PlainValue(prefix + Decimal(n))
  {
    hide Decimal;
    NumberOk(n);
  }

  lemma PrefixesOk()
    ensures FixedOk(DISK_PREFIX) && FixedOk(FILE_PREFIX)
  {
  }

  lemma NumberedDiffer(prefix: string, i: nat, j: nat)
    ensures prefix + Decimal(i + 1) == prefix + Decimal(j + 1) <==> i == j
  {
    hide Decimal;
    var a, b := prefix + Decimal(i + 1), prefix + Decimal(j + 1);
    assert a[|prefix|..] == Decimal(i + 1) && b[|prefix|..] == Decimal(j + 1);
    if a == b {
      DecimalInjective(i + 1, j + 1);
    }
  }

  // ---- References inside the descriptor

  /** What the descriptor of an export must say: instance ids differ; each disk item names exactly one Disk; each Disk
      names exactly one File; the i-th File carries the i-th name and image size, the i-th Disk the i-th capacity. */
  ghost predicate Linked(config: VmxConfig, ds: seq<DiskImage>, ts: seq<Token>)
    requires |ds| == |config.disks|
  {
    var files, rows, hosts := Rows(ts, "ovf:File"), Rows(ts, "ovf:Disk"), Values(ts, "rasd:HostResource");
    && Distinct(InstanceIds(ts))
    && |files| == |rows| == |hosts| == |ds|
    && (forall i, j | 0 <= i < |ds| && 0 <= j < |ds| :: NamesDisk(hosts[i], rows[j]) <==> i == j)
    && (forall i, j | 0 <= i < |ds| && 0 <= j < |ds| :: NamesFile(rows[i], files[j]) <==> i == j)
    && (forall i | 0 <= i < |ds| ::
          && ValueOf(files[i], "ovf:href") == Some(config.disks[i].fileName)
          && ValueOf(files[i], "ovf:id") == Some("file" + Decimal(i + 1))
          && ValueOf(files[i], "ovf:size") == Some(Decimal(|ds[i].image|))
          && ValueOf(rows[i], "ovf:diskId") == Some("vmdisk" + Decimal(i + 1))
          && ValueOf(rows[i], "ovf:capacity") == Some(Decimal(ds[i].capacityBytes)))
  }

  predicate NamesDisk(host: string, row: seq<Attr>) {
    var id := ValueOf(row, "ovf:diskId");
    id.Some? && host == "ovf:/disk/" + id.value
  }

  predicate NamesFile(row: seq<Attr>, file: seq<Attr>) {
    var fileRef, id := ValueOf(row, "ovf:fileRef"), ValueOf(file, "ovf:id");
    fileRef.Some? && id == fileRef
  }

  /** The document that is meant is linked, for every export. */
  lemma MeantIsLinked(config: VmxConfig, ds: seq<DiskImage>, alphanumeric: Alphanumeric)
    requires |ds| == |config.disks|
    ensures Linked(config, ds, DocumentTokens(config, Infos(ds), alphanumeric))
  {
    hide DocumentTokens, Rows, Values, ValueOf, Decimal, Distinct, InstanceIds;
    var disks := Infos(ds);
    InstanceIdsDistinctIff(config, disks, alphanumeric);
    HostResources(config, disks, alphanumeric);
    FilesSay(config, disks, alphanumeric);
    DisksSay(config, disks, alphanumeric);
    forall i, j | 0 <= i < |ds| && 0 <= j < |ds|
      ensures "ovf:/disk/" + disks[i].id == "ovf:/disk/" + disks[j].id <==> i == j
      ensures disks[i].fileRef == disks[j].fileRef <==> i == j
    {
      NumberedDiffer(DISK_PREFIX, i, j);
      NumberedDiffer(FILE_PREFIX, i, j);
      var x, y := "ovf:/disk/" + disks[i].id, "ovf:/disk/" + disks[j].id;
      assert x[10..] == disks[i].id && y[10..] == disks[j].id;
    }
  }

  /** What a configuration must satisfy for its descriptor to be readable: file names, which go in unescaped, are plain;
      networks are fit for attributes; the names of machine, guest and devices are fit for text. */
  predicate ExportClean(config: VmxConfig) {
    && CleanText(config.displayName) && CleanText(config.guestOs)
    && (forall d | d in config.disks :: PlainValue(d.fileName))
    && (forall n | n in config.networks :: CleanValue(NetworkOf(n)) && CleanText(DeviceOf(n)))
  }

  lemma GeneratedNames(ds: seq<DiskImage>, i: nat)
    requires i < |ds|
    ensures PlainValue(Infos(ds)[i].fileRef) && CleanValue(Infos(ds)[i].id)
  {
    hide Decimal;
    PrefixesOk();
    NumberedOk(FILE_PREFIX, i + 1);
    NumberedOk(DISK_PREFIX, i + 1);
  }

  /** An export's descriptor is read as meant if and only if the configuration is clean. */
  lemma ExportReadsIff(config: VmxConfig, ds: seq<DiskImage>, alphanumeric: Alphanumeric)
    requires |ds| == |config.disks|
    ensures ReadXml(DocumentText(config, Infos(ds), alphanumeric)) == Some(DocumentTokens(config, Infos(ds), alphanumeric))
       <==> ExportClean(config)
  {
    hide ReadXml, DocumentText, DocumentTokens, PlainValue, CleanValue, CleanText, Decimal, NetworkOf, DeviceOf, InfoOf;
    DocumentReadsIff(config, Infos(ds), alphanumeric);
    forall i | 0 <= i < |ds|
      ensures PlainValue(Infos(ds)[i].fileRef) && CleanValue(Infos(ds)[i].id)
      ensures FileName(config, i) == config.disks[i].fileName && config.disks[i] in config.disks
    {
      GeneratedNames(ds, i);
    }
    if DocumentClean(config, Infos(ds)) {
      forall i | 0 <= i < |ds|
        ensures PlainValue(config.disks[i].fileName)
      {
        assert PlainValue(FileName(config, i));
      }
    }
  }

  /** Reading the whole descriptor of an export of a clean configuration shows every reference in its place. */
  lemma ReferenceIntegrity(config: VmxConfig, ds: seq<DiskImage>, alphanumeric: Alphanumeric)
    requires |ds| == |config.disks| && ExportClean(config)
    ensures var read := ReadXml(DocumentText(config, Infos(ds), alphanumeric));
            read.Some? && Linked(config, ds, read.value)
  {
    hide ReadXml, DocumentText, DocumentTokens, ExportClean, Linked;
    ExportReadsIff(config, ds, alphanumeric);
    MeantIsLinked(config, ds, alphanumeric);
  }

  // ---- The archive

  /** The members added for the disks, in order. */
  function DiskFiles(config: VmxConfig, ds: seq<DiskImage>, utf8: string -> seq<Bytes.byte>, mtime: nat): (fs: seq<Ova.File>)
    requires |ds| == |config.disks|
    ensures |fs| == |ds| && forall i | 0 <= i < |fs| :: fs[i] == Ova.File.File(utf8(config.disks[i].fileName), ds[i].image, mtime)
  {
    seq(|ds|, i requires 0 <= i < |ds| => Ova.File.File(utf8(config.disks[i].fileName), ds[i].image, mtime))
  }

  /** Everything added: the disks first, the descriptor after them. */
  function ExportedFiles(config: VmxConfig, ds: seq<DiskImage>, ovfName: string, alphanumeric: Alphanumeric,
                         utf8: string -> seq<Bytes.byte>, mtime: nat): seq<Ova.File>
    requires |ds| == |config.disks|
  {
    DiskFiles(config, ds, utf8, mtime)
    + [Ova.File.File(utf8(ovfName), utf8(DocumentText(config, Infos(ds), alphanumeric)), mtime)]
  }

  /** Planning phase: every disk is described before its image size is known. */
  method DescribeDisks(ds: seq<DiskImage>) returns (infos: seq<DiskInfo>)
    ensures |infos| == |ds| && forall k | 0 <= k < |ds| :: infos[k] == InfoOf(ds[k], k).(fileSizeBytes := 0)
  {
    hide Decimal;
    infos := [];
    for i := 0 to |ds|
      invariant |infos| == i && forall k | 0 <= k < i :: infos[k] == InfoOf(ds[k], k).(fileSizeBytes := 0)
    {
      infos := infos + [DiskInfo(DISK_PREFIX + Decimal(i + 1), FILE_PREFIX + Decimal(i + 1), ds[i].capacityBytes, 0)];
    }
  }

  /** The sizes filled in one by one are the final descriptions. */
  lemma SizeFilled(d: DiskImage, i: nat)
    ensures InfoOf(d, i).(fileSizeBytes := 0).(fileSizeBytes := |d.image|)
         == InfoOf(d, i)
  {
  }

  /** Writing phase and finalising phase of `export_vm`. */
  method WriteArchive(config: VmxConfig, ds: seq<DiskImage>, ovfName: string, alphanumeric: Alphanumeric,
                      utf8: string -> seq<Bytes.byte>, sha: Sha, mtime: nat)
      returns (file: seq<Bytes.byte>)
    requires |ds| == |config.disks|
    requires forall f | f in AllMembers(sha, ExportedFiles(config, ds, ovfName, alphanumeric, utf8, mtime), mtime) :: Writable(f)
    ensures file == Finished(AddedAll(sha, ExportedFiles(config, ds, ovfName, alphanumeric, utf8, mtime)), mtime)
  {
    hide Writable, Finished, Added, InfoOf, Infos, DocumentText;
    ghost var all := ExportedFiles(config, ds, ovfName, alphanumeric, utf8, mtime);
    assert forall i | 0 <= i < |all| :: AllMembers(sha, all, mtime)[i] == all[i];
    assert AllMembers(sha, all, mtime)[|all|] == ManifestFile(AddedAll(sha, all).entries, mtime);
    var infos := DescribeDisks(ds);
    var writer := new OvaWriter(sha);
    assert all[..0] == [];
    for i := 0 to |ds|
      invariant fresh(writer) && writer.sha == sha && writer.State() == AddedAll(sha, all[..i])
      invariant |infos| == |ds|
      invariant forall k | 0 <= k < |ds| ::
                  infos[k] == if k < i then InfoOf(ds[k], k) else InfoOf(ds[k], k).(fileSizeBytes := 0)
    {
      SizeFilled(ds[i], i);
      infos := infos[i := infos[i].(fileSizeBytes := |ds[i].image|)];
      var name := utf8(config.disks[i].fileName);
      assert all[i] == Ova.File.File(name, ds[i].image, mtime);
      writer.AddFile(name, ds[i].image, mtime);
      assert all[..i + 1][..i] == all[..i];
    }
    assert infos == Infos(ds);
    var xml := Build(config, infos, alphanumeric);
    assert all[|ds|] == Ova.File.File(utf8(ovfName), utf8(xml), mtime);
    writer.AddFile(utf8(ovfName), utf8(xml), mtime);
    assert all[..|ds|] == all[..|all| - 1];
    file := writer.Finish(mtime);
  }

  /** The bytes of a listed member. */
  function MemberData(archive: seq<Bytes.byte>, e: TarWalk.Entry): seq<Bytes.byte> {
    if e.at + 512 + e.size <= |archive| then archive[e.at + 512..e.at + 512 + e.size] else []
  }

  /** Walking the archive of an export lists the disks, then the descriptor. The descriptor, decoded and read from the
      archive itself, is linked, and its i-th File names the i-th member, as far as the archive can show the name, with
      its size; the i-th member holds the i-th image. */
  lemma RowsMatchMembers(config: VmxConfig, ds: seq<DiskImage>, ovfName: string, alphanumeric: Alphanumeric,
                         utf8: string -> seq<Bytes.byte>, text: seq<Bytes.byte> -> string, sha: Sha, mtime: nat)
    requires |ds| == |config.disks| && ExportClean(config)
    requires forall f | f in AllMembers(sha, ExportedFiles(config, ds, ovfName, alphanumeric, utf8, mtime), mtime) :: Writable(f)
    requires forall s: string :: text(utf8(s)) == s
    ensures var archive := Finished(AddedAll(sha, ExportedFiles(config, ds, ovfName, alphanumeric, utf8, mtime)), mtime);
            var walk := TarWalk.Walk(archive, 0, name => true);
            && walk.Some? && |walk.value.entries| == |ds| + 2
            && var entries := walk.value.entries;
            && entries[|ds|].name == TarWalk.Visible(utf8(ovfName))
            && var read := ReadXml(text(MemberData(archive, entries[|ds|])));
            && read.Some? && Linked(config, ds, read.value)
            && forall i | 0 <= i < |ds| ::
                 && entries[i].name == TarWalk.Visible(utf8(config.disks[i].fileName))
                 && ValueOf(Rows(read.value, "ovf:File")[i], "ovf:size") == Some(Decimal(entries[i].size))
                 && MemberData(archive, entries[i]) == ds[i].image
  {
    hide Writable, Finished, AddedAll, ReadXml, DocumentText, ExportClean, TarWalk.Visible, Members, Rows, Values, ValueOf,
         Decimal, Distinct, InstanceIds, TarWalk.Walk, EntriesFrom;
    var files := ExportedFiles(config, ds, ovfName, alphanumeric, utf8, mtime);
    var archive, all := Finished(AddedAll(sha, files), mtime), AllMembers(sha, files, mtime);
    ReferenceIntegrity(config, ds, alphanumeric);
    ArchiveRoundTrip(sha, files, mtime, name => true);
    assert forall i | 0 <= i < |files| :: all[i] == files[i];
    forall k | 0 <= k < |all|
      ensures MemberData(archive, EntryOf(all, k)) == all[k].data
    {
      MemberShown(archive, all, k);
    }
  }

  lemma MemberShown(archive: seq<Bytes.byte>, all: seq<Ova.File>, k: nat)
    requires k < |all| && Bytes.Holds(archive, EntryOf(all, k).at + 512, all[k].data)
    ensures MemberData(archive, EntryOf(all, k)) == all[k].data
  {
  }
}
