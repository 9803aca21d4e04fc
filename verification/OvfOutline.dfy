/** The whole descriptor, tag by tag, as a template of plain names and words. */
module OvfOutline {
  import Bytes
  import opened Results
  import opened Text
  import opened XmlReader
  import opened XmlWriter
  import opened OvfNames
  import opened OvfVocabulary
  import opened Vmx
  import opened Ovf
  import opened OvfDocument
  import GuestOs

  /** One line of a template: a tag that opens, closes or stands alone, or an element with its text. */
  datatype Said =
    | Starts(indent: nat, tag: string, attrs: seq<Attr>)
    | Ends(indent: nat, tag: string)
    | Stands(indent: nat, tag: string, attrs: seq<Attr>)
    | Says(indent: nat, tag: string, text: string)

  function SaidTokens(s: Said): seq<Token> {
    [Chars("\n" + Spaces(s.indent))] +
    match s
    case Starts(_, tag, attrs) => [Open(tag, attrs)]
    case Ends(_, tag) => [Close(tag)]
    case Stands(_, tag, attrs) => [Empty(tag, attrs)]
    case Says(_, tag, text) => [Open(tag, [])] + TextTokens(text) + [Close(tag)]
  }

  function AllSaid(ss: seq<Said>): seq<Token> {
    if ss == [] then [] else SaidTokens(ss[0]) + AllSaid(ss[1..])
  }

  // ---- The template

  function Namespaces(): seq<Attr> {
    [Attr("xmlns:ovf", "http://schemas.dmtf.org/" + "ovf/envelope/1"),
     Attr("xmlns:rasd", "http://schemas.dmtf.org/" + "wbem/wscim/1/cim-schema/2/" + "CIM_ResourceAllocationSettingData"),
     Attr("xmlns:vssd", "http://schemas.dmtf.org/" + "wbem/wscim/1/cim-schema/2/" + "CIM_VirtualSystemSettingData"),
     Attr("xmlns:vmw", "http://www.vmware.com/" + "schema/ovf"),
     Attr("xmlns:xsi", "http://www.w3.org/2001/" + "XMLSchema-instance")]
  }

  function FileSaid(name: string, disk: DiskInfo): Said {
    Stands(4, "ovf:File", [Attr("ovf:href", name), Attr("ovf:id", disk.fileRef), Attr("ovf:size", Decimal(disk.fileSizeBytes))])
  }

  function DiskSaid(disk: DiskInfo): Said {
    Stands(4, "ovf:Disk",
           [Attr("ovf:capacity", Decimal(disk.capacityBytes)),
            Attr("ovf:capacityAllocationUnits", "byte"),
            Attr("ovf:diskId", disk.id),
            Attr("ovf:fileRef", disk.fileRef),
            Attr("ovf:format", "http://www.vmware.com/" + "interfaces/specifications/" + "vmdk.html#streamOptimized")])
  }

  function ReferencesSaid(config: VmxConfig, disks: seq<DiskInfo>): seq<Said> {
    [Starts(2, "ovf:References", [])]
    + seq(|disks|, i requires 0 <= i < |disks| =>
        FileSaid(if i < |config.disks| then config.disks[i].fileName else "disk.vmdk", disks[i]))
    + [Ends(2, "ovf:References")]
  }

  function DiskSectionSaid(disks: seq<DiskInfo>): seq<Said> {
    [Starts(2, "ovf:DiskSection", []), Says(4, "ovf:Info", "Virtual disk information")]
    + seq(|disks|, i requires 0 <= i < |disks| => DiskSaid(disks[i]))
    + [Ends(2, "ovf:DiskSection")]
  }

  /** A network and its description. */
  function NetworkSaid(name: string, text: string): seq<Said> {
    [Starts(4, "ovf:Network", [Attr("ovf:name", name)]), Says(6, "ovf:Description", text), Ends(4, "ovf:Network")]
  }

  /** An adapter without a network, or without a kind, gets the usual one. */
  function NetworkName(adapter: NetworkConfig): string {
    match adapter.networkName
    case Some(name) => name
    case None => "VM Network"
  }

  function DeviceName(adapter: NetworkConfig): string {
    match adapter.virtualDev
    case Some(device) => device
    case None => "E1000"
  }

  function NetworksSaid(adapters: seq<NetworkConfig>): seq<Said> {
    if adapters == [] then []
    else
      var name := NetworkName(adapters[|adapters| - 1]);
      NetworksSaid(adapters[..|adapters| - 1]) + NetworkSaid(name, "The " + name + " network")
  }

  function NetworkSectionSaid(config: VmxConfig): seq<Said> {
    [Starts(2, "ovf:NetworkSection", []), Says(4, "ovf:Info", "Network configuration")]
    + (if config.networks == [] then NetworkSaid("VM Network", "The VM Network") else NetworksSaid(config.networks))
    + [Ends(2, "ovf:NetworkSection")]
  }

  // ---- Hardware

  datatype Field = Field(name: string, text: string)

  function SystemFields(config: VmxConfig): seq<Field> {
    [Field("vssd:ElementName", "Virtual Hardware Family"), Field("vssd:InstanceID", "0"),
     Field("vssd:VirtualSystemIdentifier", config.displayName), Field("vssd:VirtualSystemType", "vmx-21")]
  }

  function CpuFields(config: VmxConfig): seq<Field> {
    [Field("rasd:AllocationUnits", "hertz * 10^6"), Field("rasd:Description", "Number of Virtual CPUs"),
     Field("rasd:ElementName", "CPU"), Field("rasd:InstanceID", "1"), Field("rasd:ResourceType", "3"),
     Field("rasd:VirtualQuantity", Decimal(config.numCpus))]
  }

  function MemoryFields(config: VmxConfig): seq<Field> {
    [Field("rasd:AllocationUnits", "byte * 2^20"), Field("rasd:Description", "Memory Size"),
     Field("rasd:ElementName", "Memory"), Field("rasd:InstanceID", "2"), Field("rasd:ResourceType", "4"),
     Field("rasd:VirtualQuantity", Decimal(config.memoryMb))]
  }

  function ScsiFields(): seq<Field> {
    [Field("rasd:Address", "0"), Field("rasd:Description", "SCSI Controller"), Field("rasd:ElementName", "SCSI Controller 0"),
     Field("rasd:InstanceID", "3"), Field("rasd:ResourceSubType", "lsilogic"), Field("rasd:ResourceType", "6")]
  }

  function DiskFields(i: nat, disk: DiskInfo): seq<Field> {
    [Field("rasd:AddressOnParent", Decimal(i)), Field("rasd:Description", "Hard Disk"),
     Field("rasd:ElementName", "Hard Disk " + Decimal(i + 1)), Field("rasd:HostResource", "ovf:/disk/" + disk.id),
     Field("rasd:InstanceID", Decimal(4 + i)), Field("rasd:Parent", "3"), Field("rasd:ResourceType", "17")]
  }

  function AdapterFields(id: nat, i: nat, network: string, device: string): seq<Field> {
    [Field("rasd:AddressOnParent", "0"), Field("rasd:AutomaticAllocation", "true"), Field("rasd:Connection", network),
     Field("rasd:Description", "Network Adapter"), Field("rasd:ElementName", "Network Adapter " + Decimal(i + 1)),
     Field("rasd:InstanceID", Decimal(id)), Field("rasd:ResourceSubType", device), Field("rasd:ResourceType", "10")]
  }

  /** The fields of all items, in order; adapter ids continue after the disks of the configuration. */
  function AllFields(config: VmxConfig, disks: seq<DiskInfo>): seq<seq<Field>> {
    [SystemFields(config), CpuFields(config), MemoryFields(config), ScsiFields()]
    + seq(|disks|, i requires 0 <= i < |disks| => DiskFields(i, disks[i]))
    + (if config.networks == [] then [AdapterFields(4 + |config.disks|, 0, "VM Network", "E1000")]
       else seq(|config.networks|, i requires 0 <= i < |config.networks| =>
              AdapterFields(4 + |config.disks| + i, i, NetworkName(config.networks[i]), DeviceName(config.networks[i]))))
  }

  function FieldsSaid(fields: seq<Field>): seq<Said> {
    seq(|fields|, i requires 0 <= i < |fields| => Says(8, fields[i].name, fields[i].text))
  }

  function ItemSaid(tag: string, fields: seq<Field>): seq<Said> {
    [Starts(6, tag, [])] + FieldsSaid(fields) + [Ends(6, tag)]
  }

  /** The first item describes the system. */
  function ItemsSaid(items: seq<seq<Field>>): seq<Said> {
    if items == [] then []
    else
      var n := |items| - 1;
      ItemsSaid(items[..n]) + ItemSaid(if n == 0 then "ovf:System" else "ovf:Item", items[n])
  }

  function HardwareSaid(config: VmxConfig, disks: seq<DiskInfo>): seq<Said> {
    [Starts(4, "ovf:VirtualHardwareSection", []), Says(6, "ovf:Info", "Virtual hardware requirements")]
    + ItemsSaid(AllFields(config, disks)) + [Ends(4, "ovf:VirtualHardwareSection")]
  }

  function SystemSaid(config: VmxConfig, alphanumeric: Alphanumeric): seq<Said> {
    [Starts(2, "ovf:VirtualSystem", [Attr("ovf:id", SanitizeId(config.displayName, alphanumeric))]),
     Says(4, "ovf:Info", "A virtual machine"),
     Says(4, "ovf:Name", config.displayName)]
  }

  function OsSaid(config: VmxConfig): seq<Said> {
    var kind := GuestOs.KindOf(config.guestOs);
    [Starts(4, "ovf:OperatingSystemSection",
            [Attr("ovf:id", Decimal(GuestOs.OsId(kind))), Attr("vmw:osType", GuestOs.OsTypeName(kind))]),
     Says(6, "ovf:Info", "The guest operating system"),
     Says(6, "ovf:Description", config.guestOs),
     Ends(4, "ovf:OperatingSystemSection")]
  }

  function DocumentSaid(config: VmxConfig, disks: seq<DiskInfo>, alphanumeric: Alphanumeric): seq<Said> {
    [Starts(0, "ovf:Envelope", Namespaces())] + ReferencesSaid(config, disks) + DiskSectionSaid(disks) + NetworkSectionSaid(config)
    + SystemSaid(config, alphanumeric) + OsSaid(config) + HardwareSaid(config, disks)
    + [Ends(2, "ovf:VirtualSystem"), Ends(0, "ovf:Envelope")]
  }

  // ---- Lines say what the template says

  function LineSaid(l: Line): Said {
    match l
    case OpenLine(indent, name, attrs, _) => Starts(|indent|, name, Meant(attrs))
    case EmptyLine(indent, name, attrs) => Stands(|indent|, name, Meant(attrs))
    case CloseLine(indent, name) => Ends(|indent|, name)
    case ElementLine(indent, name, content) => Says(|indent|, name, Meaning(content))
  }

  function LinesSaid(ls: seq<Line>): (ss: seq<Said>)
    ensures |ss| == |ls| && forall i | 0 <= i < |ls| :: ss[i] == LineSaid(ls[i])
  {
    seq(|ls|, i requires 0 <= i < |ls| => LineSaid(ls[i]))
  }

  lemma {:induction false} SaidIsMeant(ls: seq<Line>)
    ensures AllSaid(LinesSaid(ls)) == LinesTokens(ls)
  {
    if ls != [] {
      hide LineSaid, LineTokens, SaidTokens;
      SaidIsMeant(ls[1..]);
      assert LinesSaid(ls)[1..] == LinesSaid(ls[1..]);
      LineMeant(ls[0]);
    }
  }

  lemma LineMeant(l: Line)
    ensures SaidTokens(LineSaid(l)) == LineTokens(l)
  {
    hide Meaning, Meant;
    assert Spaces(|l.indent|) == l.indent;
  }

  lemma SaidConcat(a: seq<Line>, b: seq<Line>)
    ensures LinesSaid(a + b) == LinesSaid(a) + LinesSaid(b)
  {
    hide LineSaid;
  }

  /** What single contents mean. */
  lemma Meanings(n: nat, s: string)
    ensures Meaning(Num(n)) == Decimal(n) && Meaning(Esc(s)) == s && Meaning(Verbatim(s)) == s
  {
    hide Decimal;
    assert "" + Decimal(n) == Decimal(n) && "" + (s + "") == s;
  }

  lemma FileLineSays(name: string, disk: DiskInfo)
    ensures LineSaid(FileLine(name, disk)) == FileSaid(name, disk)
  {
    hide AttributeName, OvfTag, Decimal, Meaning, Num;
    FileAttributes();
    ReferenceNames();
    Meanings(disk.fileSizeBytes, name);
    Meanings(0, disk.fileRef);
    assert Meant(FileAttrs(name, disk)) == FileSaid(name, disk).attrs;
  }

  lemma DiskLineSays(disk: DiskInfo)
    ensures LineSaid(DiskLine(disk)) == DiskSaid(disk)
  {
    hide AttributeName, OvfTag, Decimal, Meaning, Num, Esc, Words, Url;
    CapacityAttributes();
    DiskAttributes();
    DiskNames();
    DiskTexts();
    Addresses();
    Meanings(disk.capacityBytes, disk.id);
    Meanings(0, disk.fileRef);
    SayMeans(Byte);
    FixedMeans(Url(StreamFormat));
    assert Meant(DiskAttrs(disk)) == DiskSaid(disk).attrs;
  }

  lemma SayMeans(l: Label)
    ensures Meaning(Say(l)) == Words(l)
  {
  }

  lemma FixedMeans(s: Literal)
    ensures Meaning(Fixed(s)) == s
  {
  }

  lemma ReferencesSay(config: VmxConfig, disks: seq<DiskInfo>)
    ensures LinesSaid(ReferencesLines(config, disks)) == ReferencesSaid(config, disks)
  {
    hide FileLine, OvfTag, FileSaid, LineSaid;
    var open, files, close := [OpenTag(2, References, [])], FileLines(config, disks), [CloseTag(2, References)];
    SaidConcat(open, files);
    SaidConcat(open + files, close);
    TagSays(2, References);
    ReferenceNames();
    forall i | 0 <= i < |disks|
      ensures LineSaid(files[i]) == FileSaid(FileName(config, i), disks[i])
    {
      FileLineSays(FileName(config, i), disks[i]);
    }
  }

  /** A bare tag, and its end. */
  lemma TagSays(indent: nat, s: Section)
    ensures LineSaid(OpenTag(indent, s, [])) == Starts(indent, OvfTag(s), [])
    ensures LineSaid(CloseTag(indent, s)) == Ends(indent, OvfTag(s))
  {
    hide OvfTag;
  }

  lemma ElemSays(indent: nat, s: Section, content: Inner)
    ensures LineSaid(Elem(indent, s, content)) == Says(indent, OvfTag(s), Meaning(content))
  {
    hide OvfTag, Meaning;
  }

  lemma DiskSectionSays(disks: seq<DiskInfo>)
    ensures LinesSaid(DiskSectionLines(disks)) == DiskSectionSaid(disks)
  {
    hide DiskLine, OvfTag, DiskSaid, LineSaid, Words;
    var head := [OpenTag(2, DiskSection, []), Elem(4, Info, Say(DiskInfoText))];
    var rows, close := DiskLines(disks), [CloseTag(2, DiskSection)];
    SaidConcat(head, rows);
    SaidConcat(head + rows, close);
    TagSays(2, DiskSection);
    ElemSays(4, Info, Say(DiskInfoText));
    DiskNames();
    DiskInfoWords();
    forall i | 0 <= i < |disks|
      ensures LineSaid(rows[i]) == DiskSaid(disks[i])
    {
      DiskLineSays(disks[i]);
    }
  }

  lemma NetworkBlockSays(name: Inner, text: Inner)
    ensures LinesSaid([OpenTag(4, Network, AttrsOf([OvfNames.NetworkName], [name])), Elem(6, SectionDescription, text),
                       CloseTag(4, Network)])
         == NetworkSaid(Meaning(name), Meaning(text))
  {
    hide OvfTag, AttributeName, Meaning;
    NetworkNames();
    DescriptionName();
    OtherAttributes();
    var attrs := AttrsOf([OvfNames.NetworkName], [name]);
    assert Meant(attrs) == [Attr("ovf:name", Meaning(name))];
  }

  lemma NetworkOfSays(adapter: NetworkConfig)
    ensures NetworkOf(adapter) == NetworkName(adapter) && DeviceOf(adapter) == DeviceName(adapter)
  {
    hide Words;
    NetworkTexts();
  }

  lemma BlockSays(config: VmxConfig, i: nat)
    requires i < |config.networks|
    ensures var name := NetworkName(config.networks[i]);
            LinesSaid(NetworkBlock(config, i)) == NetworkSaid(name, "The " + name + " network")
  {
    hide OvfTag, Words, NetworkSaid, LinesSaid, NetworkOf, NetworkName, AttrsOf;
    NetworkOfSays(config.networks[i]);
    var name := NetworkOf(config.networks[i]);
    NetworkBlockSays(Esc(name), Escaped(Words(The), name, Words(AfterThe)));
    Meanings(0, name);
    DescriptionTexts();
    assert Meaning(Escaped(Words(The), name, Words(AfterThe))) == "The " + name + " network";
  }

  lemma {:induction false} NetworksSay(config: VmxConfig, k: nat)
    requires config.networks != [] && k <= |config.networks|
    ensures LinesSaid(Flatten(NetworkBlocks(config)[..k])) == NetworksSaid(config.networks[..k])
  {
    hide NetworkBlock, NetworkSaid, NetworkName, LineSaid;
    if k > 0 {
      var blocks, adapters := NetworkBlocks(config), config.networks[..k];
      NetworksSay(config, k - 1);
      assert blocks[..k][..k - 1] == blocks[..k - 1] && adapters[..k - 1] == config.networks[..k - 1];
      SaidConcat(Flatten(blocks[..k - 1]), blocks[k - 1]);
      BlockSays(config, k - 1);
    }
  }

  lemma NetworkSectionSays(config: VmxConfig)
    ensures LinesSaid(NetworkSectionLines(config)) == NetworkSectionSaid(config)
  {
    hide OvfTag, LineSaid, Words, NetworksSaid, NetworkSaid, NetworkBlocks, Flatten, LinesSaid;
    var head, close := [OpenTag(2, NetworkSection, []), Elem(4, Info, Say(NetworkInfo))], [CloseTag(2, NetworkSection)];
    var blocks := NetworkBlocks(config);
    SaidConcat(head, Flatten(blocks));
    SaidConcat(head + Flatten(blocks), close);
    TagSays(2, NetworkSection);
    ElemSays(4, Info, Say(NetworkInfo));
    NetworkNames();
    DiskNames();
    NetworkInfoWords();
    assert LinesSaid(head) == [LineSaid(head[0]), LineSaid(head[1])] && LinesSaid(close) == [LineSaid(close[0])];
    if config.networks == [] {
      DefaultSays(config);
    } else {
      NetworksSay(config, |config.networks|);
      assert blocks[..|config.networks|] == blocks && config.networks[..|config.networks|] == config.networks;
    }
  }

  lemma DefaultSays(config: VmxConfig)
    requires config.networks == []
    ensures LinesSaid(Flatten(NetworkBlocks(config))) == NetworkSaid("VM Network", "The VM Network")
  {
    hide OvfTag, LinesSaid, Words, NetworkSaid, AttrsOf;
    NetworkBlockSays(Say(VmNetwork), Say(TheNetwork));
    NetworkTexts();
    DescriptionTexts();
    SayMeans(VmNetwork);
    SayMeans(TheNetwork);
    var block := DefaultNetworkBlock();
    assert [block][..0] == [] && [] + block == block;
  }

  // ---- Items

  function FieldsOf(es: seq<Entry>): (fields: seq<Field>)
    ensures |fields| == |es| && forall i | 0 <= i < |es| :: fields[i] == Field(Tag(es[i].e), Meaning(es[i].content))
  {
    seq(|es|, i requires 0 <= i < |es| => Field(Tag(es[i].e), Meaning(es[i].content)))
  }

  lemma ItemSays(item: HardwareItem)
    ensures LinesSaid(ItemLines(item)) == ItemSaid(OvfTag(item.wrapper), FieldsOf(item.entries))
  {
    hide OvfTag, Tag, Meaning;
    var open, inner, close := [OpenTag(6, item.wrapper, [])], EntryLines(item.entries), [CloseTag(6, item.wrapper)];
    SaidConcat(open, inner);
    SaidConcat(open + inner, close);
    TagSays(6, item.wrapper);
  }

  lemma Digits()
    ensures Decimal(0) == "0" && Decimal(1) == "1" && Decimal(2) == "2" && Decimal(3) == "3" && Decimal(4) == "4" && Decimal(6) == "6"
    ensures Decimal(10) == "10" && Decimal(17) == "17"
  {
    DecimalPlaces(1, 0);
    DecimalPlaces(1, 7);
  }

  lemma NumberMeans(l: Label, n: nat)
    ensures Meaning(Number(Words(l), n)) == Words(l) + Decimal(n)
  {
    hide Words;
  }

  lemma PathMeans(id: string)
    ensures Meaning(Escaped(Words(DiskPath), id, Words(Nothing))) == "ovf:/disk/" + id
  {
    hide Words;
    DiskTexts();
    NetworkTexts();
    assert id + "" == id;
  }

  lemma SystemItemFields(config: VmxConfig)
    ensures FieldsOf(SystemItem(config).entries) == SystemFields(config)
  {
    hide Tag, Words, Meaning, Num, Say, Esc, Decimal;
    SystemTags();
    SystemIdentifierTag();
    SystemTypeTag();
    SystemTexts();
    Digits();
    Meanings(0, config.displayName);
    SayMeans(HardwareFamily);
    SayMeans(HardwareVersion);
  }

  lemma CpuItemFields(config: VmxConfig)
    ensures FieldsOf(CpuItem(config).entries) == CpuFields(config)
  {
    hide Tag, Words, Meaning, Num, Say, Decimal;
    ElementNames();
    CpuTexts();
    Digits();
    Meanings(1, "");
    Meanings(3, "");
    Meanings(config.numCpus, "");
    SayMeans(Megahertz);
    SayMeans(Cpus);
    SayMeans(Cpu);
  }

  lemma MemoryItemFields(config: VmxConfig)
    ensures FieldsOf(MemoryItem(config).entries) == MemoryFields(config)
  {
    hide Tag, Words, Meaning, Num, Say, Decimal;
    ElementNames();
    MemoryTexts();
    Digits();
    Meanings(2, "");
    Meanings(4, "");
    Meanings(config.memoryMb, "");
    SayMeans(Megabytes);
    SayMeans(MemorySize);
    SayMeans(Memory);
  }

  lemma ScsiItemFields()
    ensures FieldsOf(ScsiItem().entries) == ScsiFields()
  {
    hide Tag, Words, Meaning, Num, Say, Decimal;
    ElementNames();
    ScsiTexts();
    Digits();
    Meanings(0, "");
    Meanings(3, "");
    Meanings(6, "");
    SayMeans(ScsiController);
    SayMeans(ScsiController0);
    SayMeans(LsiLogic);
  }

  lemma DiskItemFields(i: nat, disk: DiskInfo)
    ensures FieldsOf(DiskItem(i, disk).entries) == DiskFields(i, disk) && DiskItem(i, disk).wrapper == Item
  {
    hide Tag, Words, Meaning, Num, Say, Decimal;
    ElementNames();
    DiskTexts();
    Digits();
    Meanings(i, "");
    Meanings(4 + i, "");
    Meanings(3, "");
    Meanings(17, "");
    SayMeans(HardDisk);
    NumberMeans(HardDiskNumber, i + 1);
    PathMeans(disk.id);
  }

  lemma AdapterItemFields(id: nat, i: nat, connection: Inner, adapter: Inner)
    ensures FieldsOf(AdapterItem(id, i, connection, adapter).entries) == AdapterFields(id, i, Meaning(connection), Meaning(adapter))
  {
    hide Tag, Words, Meaning, Num, Say, Decimal;
    ElementNames();
    AdapterTexts();
    Digits();
    Meanings(0, "");
    Meanings(id, "");
    Meanings(10, "");
    SayMeans(True);
    SayMeans(NetworkAdapter);
    NumberMeans(NetworkAdapterNumber, i + 1);
  }

  /** The fields by position. */
  lemma FieldsAt(config: VmxConfig, disks: seq<DiskInfo>)
    ensures var all, n := AllFields(config, disks), 4 + |disks|;
            && |all| == n + (if config.networks == [] then 1 else |config.networks|)
            && all[0] == SystemFields(config) && all[1] == CpuFields(config)
            && all[2] == MemoryFields(config) && all[3] == ScsiFields()
            && (forall i | 0 <= i < |disks| :: all[4 + i] == DiskFields(i, disks[i]))
            && (forall i | 0 <= i < |config.networks| ::
                  all[n + i]
                  == AdapterFields(4 + |config.disks| + i, i, NetworkName(config.networks[i]), DeviceName(config.networks[i])))
            && (config.networks == [] ==> all[n] == AdapterFields(4 + |config.disks|, 0, "VM Network", "E1000"))
  {
    hide SystemFields, CpuFields, MemoryFields, ScsiFields, DiskFields, AdapterFields, NetworkName, DeviceName;
  }

  /** Item `k` has the fields of the template; only the first is the system. */
  lemma ItemAt(config: VmxConfig, disks: seq<DiskInfo>, k: nat)
    requires k < |Items(config, disks)|
    ensures k < |AllFields(config, disks)| && FieldsOf(Items(config, disks)[k].entries) == AllFields(config, disks)[k]
    ensures OvfTag(Items(config, disks)[k].wrapper) == if k == 0 then "ovf:System" else "ovf:Item"
  {
    hide Items, AllFields, FieldsOf, DiskItem, Tag, OvfTag, Words, Say, SystemFields, CpuFields, MemoryFields, ScsiFields,
         DiskFields, AdapterFields, NetworkOf, DeviceOf, NetworkName, DeviceName, Esc, Meaning;
    var items, n := Items(config, disks), 4 + |disks|;
    ItemsAt(config, disks);
    FieldsAt(config, disks);
    ItemNames();
    if k == 0 {
      SystemItemFields(config);
    } else if k == 1 {
      CpuItemFields(config);
    } else if k == 2 {
      MemoryItemFields(config);
    } else if k == 3 {
      ScsiItemFields();
    } else if k < n {
      var i := k - 4;
      assert items[4 + i] == DiskItem(i, disks[i]) && AllFields(config, disks)[4 + i] == DiskFields(i, disks[i]);
      DiskItemFields(i, disks[i]);
    } else if config.networks == [] {
      AdapterItemFields(4 + |config.disks|, 0, Say(VmNetwork), Say(E1000));
      SayMeans(VmNetwork);
      SayMeans(E1000);
      NetworkTexts();
    } else {
      var i := k - n;
      var adapter := config.networks[i];
      assert items[n + i] == NetworkItem(config, i);
      AdapterItemFields(4 + |config.disks| + i, i, Esc(NetworkOf(adapter)), Esc(DeviceOf(adapter)));
      NetworkOfSays(adapter);
      Meanings(0, NetworkOf(adapter));
      Meanings(0, DeviceOf(adapter));
    }
  }

  lemma {:induction false} ItemsSay(config: VmxConfig, disks: seq<DiskInfo>, k: nat)
    requires k <= |Items(config, disks)| == |AllFields(config, disks)|
    ensures LinesSaid(Flatten(ItemBlocks(Items(config, disks))[..k])) == ItemsSaid(AllFields(config, disks)[..k])
  {
    hide Items, AllFields, ItemLines, ItemSaid, LineSaid, OvfTag, Tag;
    if k > 0 {
      var items, fields := Items(config, disks), AllFields(config, disks);
      var blocks := ItemBlocks(items);
      ItemsSay(config, disks, k - 1);
      assert blocks[..k][..k - 1] == blocks[..k - 1] && fields[..k][..k - 1] == fields[..k - 1];
      SaidConcat(Flatten(blocks[..k - 1]), blocks[k - 1]);
      ItemSays(items[k - 1]);
      ItemAt(config, disks, k - 1);
    }
  }

  lemma AllItemsSay(config: VmxConfig, disks: seq<DiskInfo>)
    ensures LinesSaid(Flatten(ItemBlocks(Items(config, disks)))) == ItemsSaid(AllFields(config, disks))
  {
    hide ItemsSaid, ItemBlocks, Flatten, LinesSaid, Items, AllFields;
    var blocks, n := ItemBlocks(Items(config, disks)), |Items(config, disks)|;
    FieldCount(config, disks);
    ItemsSay(config, disks, n);
    assert blocks[..n] == blocks && AllFields(config, disks)[..n] == AllFields(config, disks);
  }

  lemma HardwareSays(config: VmxConfig, disks: seq<DiskInfo>)
    ensures LinesSaid(HardwareLines(config, disks)) == HardwareSaid(config, disks)
  {
    hide OvfTag, LineSaid, Words, ItemsSaid, ItemBlocks, Flatten, LinesSaid, Items, AllFields;
    var head, close := HardwareHead(), [CloseTag(4, VirtualHardwareSection)];
    var blocks := ItemBlocks(Items(config, disks));
    SaidConcat(head, Flatten(blocks));
    SaidConcat(head + Flatten(blocks), close);
    TagSays(4, VirtualHardwareSection);
    ElemSays(6, Info, Say(HardwareInfo));
    HardwareName();
    DiskNames();
    HardwareInfoWords();
    assert LinesSaid(head) == [LineSaid(head[0]), LineSaid(head[1])] && LinesSaid(close) == [LineSaid(close[0])];
    AllItemsSay(config, disks);
  }

  lemma FieldCount(config: VmxConfig, disks: seq<DiskInfo>)
    ensures |Items(config, disks)| == |AllFields(config, disks)| == |ItemBlocks(Items(config, disks))|
  {
    hide SystemItem, CpuItem, MemoryItem, ScsiItem, DiskItem, NetworkItem, DefaultNetworkItem, SystemFields, CpuFields, MemoryFields,
         ScsiFields, DiskFields, AdapterFields, NetworkName, DeviceName, ItemLines;
  }

  // ---- The document

  lemma SystemSays(config: VmxConfig, alphanumeric: Alphanumeric)
    ensures LinesSaid(SystemHead(config, alphanumeric)) == SystemSaid(config, alphanumeric)
  {
    hide OvfTag, AttributeName, Words, Meaning, Esc, Say, SanitizeId, Decimal;
    SystemNames();
    DiskNames();
    FileAttributes();
    SystemInfoWords();
    var id := SanitizeId(config.displayName, alphanumeric);
    Meanings(0, config.displayName);
    Meanings(0, id);
    SayMeans(SystemInfo);
    assert Meant(SystemHead(config, alphanumeric)[0].attrs) == [Attr("ovf:id", id)];
  }

  lemma OsSays(config: VmxConfig)
    ensures LinesSaid(OsLines(config)) == OsSaid(config)
  {
    hide OvfTag, AttributeName, Words, Meaning, Num, Esc, Say, Decimal, GuestOs.KindOf, GuestOs.OsId, GuestOs.OsTypeName;
    OsName();
    DiskNames();
    DescriptionName();
    FileAttributes();
    OtherAttributes();
    OsInfoWords();
    var kind := GuestOs.KindOf(config.guestOs);
    Meanings(GuestOs.OsId(kind), config.guestOs);
    FixedMeans(GuestOs.OsTypeName(kind));
    SayMeans(OsInfo);
    assert Meant(OsLines(config)[0].attrs)
        == [Attr("ovf:id", Decimal(GuestOs.OsId(kind))), Attr("vmw:osType", GuestOs.OsTypeName(kind))];
  }

  lemma EnvelopeSays()
    ensures LineSaid(EnvelopeLine()) == Starts(0, "ovf:Envelope", Namespaces())
  {
    hide OvfTag, AttributeName, Url;
    ReferenceNames();
    NamespaceAttributes();
    Addresses();
    assert Meant(EnvelopeAttrs()) == Namespaces();
  }

  /** What the document is meant to say is the template, word for word. */
  lemma DocumentSays(config: VmxConfig, disks: seq<DiskInfo>, alphanumeric: Alphanumeric)
    ensures DocumentTokens(config, disks, alphanumeric) == AllSaid(DocumentSaid(config, disks, alphanumeric)) + [Chars("\n")]
  {
    hide EnvelopeLine, ReferencesLines, DiskSectionLines, NetworkSectionLines, SystemHead, OsLines, HardwareLines, CloseTag, LinesSaid,
         ReferencesSaid, DiskSectionSaid, NetworkSectionSaid, SystemSaid, OsSaid, HardwareSaid, LineSaid, LinesTokens, AllSaid,
         OvfTag, Namespaces;
    var e, r, d, n := [EnvelopeLine()], ReferencesLines(config, disks), DiskSectionLines(disks), NetworkSectionLines(config);
    var s, o, h := SystemHead(config, alphanumeric), OsLines(config), HardwareLines(config, disks);
    var last := [CloseTag(2, VirtualSystem), CloseTag(0, Envelope)];
    assert DocumentLines(config, disks, alphanumeric) == e + r + d + n + s + o + h + last;
    SaidConcat(e, r);
    SaidConcat(e + r, d);
    SaidConcat(e + r + d, n);
    SaidConcat(e + r + d + n, s);
    SaidConcat(e + r + d + n + s, o);
    SaidConcat(e + r + d + n + s + o, h);
    SaidConcat(e + r + d + n + s + o + h, last);
    EnvelopeSays();
    ReferencesSay(config, disks);
    DiskSectionSays(disks);
    NetworkSectionSays(config);
    SystemSays(config, alphanumeric);
    OsSays(config);
    HardwareSays(config, disks);
    TagSays(2, VirtualSystem);
    TagSays(0, Envelope);
    ReferenceNames();
    SystemNames();
    assert LinesSaid(e) == [LineSaid(e[0])] && LinesSaid(last) == [LineSaid(last[0]), LineSaid(last[1])];
    SaidIsMeant(DocumentLines(config, disks, alphanumeric));
  }
}
