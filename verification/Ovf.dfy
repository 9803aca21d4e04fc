/** The OVF descriptor as lines of XML, and the builders that write it. */
module Ovf {
  import Bytes
  import opened Results
  import opened Xml
  import opened XmlReader
  import opened XmlWriter
  import opened OvfNames
  import opened Vmx
  import GuestOs

  datatype DiskInfo = DiskInfo(id: string, fileRef: string, capacityBytes: nat, fileSizeBytes: nat)

  datatype VmxConfig = VmxConfig(
    displayName: string,
    guestOs: string,
    memoryMb: nat,
    numCpus: nat,
    disks: seq<DiskConfig>,
    networks: seq<NetworkConfig>)

  function Spaces(n: nat): Indent {
    seq(n, _ => ' ')
  }

  // ---- Kinds of line

  function OpenTag(indent: nat, s: Section, attrs: AttrList): Line {
    OpenLine(Spaces(indent), OvfTag(s), attrs, " ")
  }

  function EmptyTag(indent: nat, s: Section, attrs: AttrList): Line {
    EmptyLine(Spaces(indent), OvfTag(s), attrs)
  }

  function CloseTag(indent: nat, s: Section): Line {
    CloseLine(Spaces(indent), OvfTag(s))
  }

  function Elem(indent: nat, s: Section, content: Inner): Line {
    ElementLine(Spaces(indent), OvfTag(s), content)
  }

  function With(a: Attribute, content: Content): RawAttr {
    RawAttr(AttributeName(a), content)
  }

  type Attributes = names: seq<Attribute> | forall i, j | 0 <= i < j < |names| :: names[i] != names[j] witness []

  lemma NamesDiffer(names: Attributes)
    ensures forall i, j | 0 <= i < j < |names| :: AttributeName(names[i]) != AttributeName(names[j])
  {
    hide AttributeName;
    forall i, j | 0 <= i < j < |names|
      ensures AttributeName(names[i]) != AttributeName(names[j])
    {
      AttributesDiffer(names[i], names[j]);
    }
  }

  /** Different attributes with their contents. */
  function AttrsOf(names: Attributes, contents: seq<Content>): (attrs: AttrList)
    requires |names| == |contents|
    ensures |attrs| == |names| && forall i | 0 <= i < |names| :: attrs[i] == With(names[i], contents[i])
  {
    NamesDiffer(names);
    seq(|names|, i requires 0 <= i < |names| => With(names[i], contents[i]))
  }

  function Say(l: Label): Inner {
    Fixed(Words(l))
  }

  function Num(n: nat): Inner {
    Number(Words(Nothing), n)
  }

  function Esc(s: string): Inner {
    Escaped(Words(Nothing), s, Words(Nothing))
  }

  // ---- References and disks

  /** The file name is the configured one for as long as there is one; it is not escaped. */
  function FileName(config: VmxConfig, i: nat): string {
    if i < |config.disks| then config.disks[i].fileName else "disk.vmdk"
  }

  function FileAttrs(name: string, disk: DiskInfo): AttrList {
    AttrsOf([Href, Id, Size], [Verbatim(name), Verbatim(disk.fileRef), Num(disk.fileSizeBytes)])
  }

  function FileLine(name: string, disk: DiskInfo): Line {
    EmptyTag(4, File, FileAttrs(name, disk))
  }

  function FileLines(config: VmxConfig, disks: seq<DiskInfo>): (ls: seq<Line>)
    ensures |ls| == |disks| && forall i | 0 <= i < |ls| :: ls[i] == FileLine(FileName(config, i), disks[i])
  {
    seq(|disks|, i requires 0 <= i < |disks| => FileLine(FileName(config, i), disks[i]))
  }

  function ReferencesLines(config: VmxConfig, disks: seq<DiskInfo>): seq<Line> {
    [OpenTag(2, References, [])] + FileLines(config, disks) + [CloseTag(2, References)]
  }

  function DiskAttrs(disk: DiskInfo): AttrList {
    AttrsOf([Capacity, CapacityUnits, DiskId, FileRef, Format],
            [Num(disk.capacityBytes), Say(Byte), Esc(disk.id), Verbatim(disk.fileRef), Fixed(Url(StreamFormat))])
  }

  function DiskLine(disk: DiskInfo): Line {
    EmptyTag(4, Disk, DiskAttrs(disk))
  }

  function DiskLines(disks: seq<DiskInfo>): (ls: seq<Line>)
    ensures |ls| == |disks| && forall i | 0 <= i < |ls| :: ls[i] == DiskLine(disks[i])
  {
    seq(|disks|, i requires 0 <= i < |disks| => DiskLine(disks[i]))
  }

  function DiskSectionLines(disks: seq<DiskInfo>): seq<Line> {
    [OpenTag(2, DiskSection, []), Elem(4, Info, Say(DiskInfoText))] + DiskLines(disks) + [CloseTag(2, DiskSection)]
  }

  // ---- Networks

  function GetOr(o: Option<string>, default: string): string {
    match o
    case None => default
    case Some(s) => s
  }

  /** The network an adapter is connected to, and its kind. */
  function NetworkOf(adapter: NetworkConfig): string {
    GetOr(adapter.networkName, Words(VmNetwork))
  }

  function DeviceOf(adapter: NetworkConfig): string {
    GetOr(adapter.virtualDev, Words(E1000))
  }

  function NetworkBlock(config: VmxConfig, i: nat): seq<Line>
    requires i < |config.networks|
  {
    var name := NetworkOf(config.networks[i]);
    [OpenTag(4, Network, AttrsOf([NetworkName], [Esc(name)])),
     Elem(6, SectionDescription, Escaped(Words(The), name, Words(AfterThe))),
     CloseTag(4, Network)]
  }

  function DefaultNetworkBlock(): seq<Line> {
    [OpenTag(4, Network, AttrsOf([NetworkName], [Say(VmNetwork)])),
     Elem(6, SectionDescription, Say(TheNetwork)),
     CloseTag(4, Network)]
  }

  /** Blocks of lines, one after the other. */
  function Flatten(bs: seq<seq<Line>>): seq<Line> {
    if bs == [] then [] else Flatten(bs[..|bs| - 1]) + bs[|bs| - 1]
  }

  function NetworkBlocks(config: VmxConfig): (bs: seq<seq<Line>>)
    ensures config.networks == [] ==> bs == [DefaultNetworkBlock()]
    ensures config.networks != [] ==> |bs| == |config.networks| && forall i | 0 <= i < |bs| :: bs[i] == NetworkBlock(config, i)
  {
    if config.networks == [] then [DefaultNetworkBlock()]
    else seq(|config.networks|, i requires 0 <= i < |config.networks| => NetworkBlock(config, i))
  }

  function NetworkSectionLines(config: VmxConfig): seq<Line> {
    [OpenTag(2, NetworkSection, []), Elem(4, Info, Say(NetworkInfo))]
    + Flatten(NetworkBlocks(config)) + [CloseTag(2, NetworkSection)]
  }

  // ---- Hardware items

  datatype Entry = Entry(e: Element, content: Inner)

  /** An item: what it is wrapped in, and its entries. */
  datatype HardwareItem = HardwareItem(wrapper: Section, entries: seq<Entry>)

  function SystemItem(config: VmxConfig): HardwareItem {
    HardwareItem(System, [
      Entry(SystemElementName, Say(HardwareFamily)),
      Entry(SystemInstanceId, Num(0)),
      Entry(SystemIdentifier, Esc(config.displayName)),
      Entry(SystemType, Say(HardwareVersion))])
  }

  function CpuItem(config: VmxConfig): HardwareItem {
    HardwareItem(Item, [
      Entry(AllocationUnits, Say(Megahertz)),
      Entry(Description, Say(Cpus)),
      Entry(ElementName, Say(Cpu)),
      Entry(InstanceId, Num(1)),
      Entry(ResourceType, Num(3)),
      Entry(VirtualQuantity, Num(config.numCpus))])
  }

  function MemoryItem(config: VmxConfig): HardwareItem {
    HardwareItem(Item, [
      Entry(AllocationUnits, Say(Megabytes)),
      Entry(Description, Say(MemorySize)),
      Entry(ElementName, Say(Memory)),
      Entry(InstanceId, Num(2)),
      Entry(ResourceType, Num(4)),
      Entry(VirtualQuantity, Num(config.memoryMb))])
  }

  function ScsiItem(): HardwareItem {
    HardwareItem(Item, [
      Entry(Address, Num(0)),
      Entry(Description, Say(ScsiController)),
      Entry(ElementName, Say(ScsiController0)),
      Entry(InstanceId, Num(3)),
      Entry(ResourceSubType, Say(LsiLogic)),
      Entry(ResourceType, Num(6))])
  }

  function DiskItem(index: nat, disk: DiskInfo): HardwareItem {
    HardwareItem(Item, [
      Entry(AddressOnParent, Num(index)),
      Entry(Description, Say(HardDisk)),
      Entry(ElementName, Number(Words(HardDiskNumber), index + 1)),
      Entry(HostResource, Escaped(Words(DiskPath), disk.id, Words(Nothing))),
      Entry(InstanceId, Num(4 + index)),
      Entry(Parent, Num(3)),
      Entry(ResourceType, Num(17))])
  }

  function AdapterItem(instanceId: nat, index: nat, connection: Inner, adapter: Inner): HardwareItem {
    HardwareItem(Item, [
      Entry(AddressOnParent, Num(0)),
      Entry(AutomaticAllocation, Say(True)),
      Entry(Connection, connection),
      Entry(Description, Say(NetworkAdapter)),
      Entry(ElementName, Number(Words(NetworkAdapterNumber), index + 1)),
      Entry(InstanceId, Num(instanceId)),
      Entry(ResourceSubType, adapter),
      Entry(ResourceType, Num(10))])
  }

  /** Adapter ids continue after the disks of the configuration, whatever disk list is being described. */
  function NetworkItem(config: VmxConfig, index: nat): HardwareItem
    requires index < |config.networks|
  {
    AdapterItem(4 + |config.disks| + index, index,
                Esc(NetworkOf(config.networks[index])), Esc(DeviceOf(config.networks[index])))
  }

  function DefaultNetworkItem(config: VmxConfig): HardwareItem {
    AdapterItem(4 + |config.disks|, 0, Say(VmNetwork), Say(E1000))
  }

  /** All items in document order; without networks one default adapter is described. */
  function Items(config: VmxConfig, disks: seq<DiskInfo>): seq<HardwareItem> {
    [SystemItem(config), CpuItem(config), MemoryItem(config), ScsiItem()]
    + seq(|disks|, i requires 0 <= i < |disks| => DiskItem(i, disks[i]))
    + (if config.networks == [] then [DefaultNetworkItem(config)]
       else seq(|config.networks|, i requires 0 <= i < |config.networks| => NetworkItem(config, i)))
  }

  /** The items by position. */
  lemma ItemsAt(config: VmxConfig, disks: seq<DiskInfo>)
    ensures var all, n := Items(config, disks), 4 + |disks|;
            && |all| == n + (if config.networks == [] then 1 else |config.networks|)
            && all[0] == SystemItem(config) && all[1] == CpuItem(config)
            && all[2] == MemoryItem(config) && all[3] == ScsiItem()
            && (forall i | 0 <= i < |disks| :: all[4 + i] == DiskItem(i, disks[i]))
            && (forall i | 0 <= i < |config.networks| :: all[n + i] == NetworkItem(config, i))
            && (config.networks == [] ==> all[n] == DefaultNetworkItem(config))
  {
    hide SystemItem, CpuItem, MemoryItem, ScsiItem, DiskItem, NetworkItem, DefaultNetworkItem;
  }

  function EntryLines(es: seq<Entry>): (ls: seq<Line>)
    ensures |ls| == |es| && forall i | 0 <= i < |ls| :: ls[i] == ElementLine(Spaces(8), Tag(es[i].e), es[i].content)
  {
    seq(|es|, i requires 0 <= i < |es| => ElementLine(Spaces(8), Tag(es[i].e), es[i].content))
  }

  function ItemLines(item: HardwareItem): seq<Line> {
    [OpenTag(6, item.wrapper, [])] + EntryLines(item.entries) + [CloseTag(6, item.wrapper)]
  }

  function ItemBlocks(items: seq<HardwareItem>): (bs: seq<seq<Line>>)
    ensures |bs| == |items| && forall i | 0 <= i < |bs| :: bs[i] == ItemLines(items[i])
  {
    seq(|items|, i requires 0 <= i < |items| => ItemLines(items[i]))
  }

  function HardwareHead(): seq<Line> {
    [OpenTag(4, VirtualHardwareSection, []), Elem(6, Info, Say(HardwareInfo))]
  }

  function HardwareLines(config: VmxConfig, disks: seq<DiskInfo>): seq<Line> {
    HardwareHead() + Flatten(ItemBlocks(Items(config, disks))) + [CloseTag(4, VirtualHardwareSection)]
  }

  // ---- The machine and the document

  /** `char::is_alphanumeric`: any choice of characters that are neither white space nor outside XML. */
  type Alphanumeric = test: char -> bool | forall c :: test(c) ==> !Odd(c) witness (c: char) => false

  /** An XML id: letters and digits as `alphanumeric` knows them, underscores and dashes; anything else becomes `_`. */
  function SanitizeId(s: string, alphanumeric: Alphanumeric): string {
    seq(|s|, i requires 0 <= i < |s| => if alphanumeric(s[i]) || s[i] == '_' || s[i] == '-' then s[i] else '_')
  }

  /** Exactly letters, digits, underscores and dashes stay; ids stay as they are. */
  lemma SanitizedId(s: string, alphanumeric: Alphanumeric)
    ensures var id := SanitizeId(s, alphanumeric);
            && |id| == |s| && SanitizeId(id, alphanumeric) == id
            && forall i | 0 <= i < |s| ::
                 && (alphanumeric(s[i]) || s[i] in "_-" ==> id[i] == s[i])
                 && (!alphanumeric(s[i]) && s[i] !in "_-" ==> id[i] == '_')
  {
    assert SanitizeId(SanitizeId(s, alphanumeric), alphanumeric) == SanitizeId(s, alphanumeric);
  }

  function OsLines(config: VmxConfig): seq<Line> {
    var kind := GuestOs.KindOf(config.guestOs);
    [OpenTag(4, OperatingSystemSection, AttrsOf([Id, OsType], [Num(GuestOs.OsId(kind)), Fixed(GuestOs.OsTypeName(kind))])),
     Elem(6, Info, Say(OsInfo)),
     Elem(6, SectionDescription, Esc(config.guestOs)),
     CloseTag(4, OperatingSystemSection)]
  }

  function SystemHead(config: VmxConfig, alphanumeric: Alphanumeric): seq<Line> {
    [OpenTag(2, VirtualSystem, AttrsOf([Id], [Esc(SanitizeId(config.displayName, alphanumeric))])),
     Elem(4, Info, Say(SystemInfo)),
     Elem(4, SystemName, Esc(config.displayName))]
  }

  function VirtualSystemLines(config: VmxConfig, disks: seq<DiskInfo>, alphanumeric: Alphanumeric): seq<Line> {
    SystemHead(config, alphanumeric) + OsLines(config) + HardwareLines(config, disks) + [CloseTag(2, VirtualSystem)]
  }

  function EnvelopeAttrs(): AttrList {
    AttrsOf([NsOvf, NsRasd, NsVssd, NsVmw, NsXsi],
            [Fixed(Url(EnvelopeSchema)), Fixed(Url(RasdSchema)), Fixed(Url(VssdSchema)), Fixed(Url(VmwareSchema)),
             Fixed(Url(InstanceSchema))])
  }

  /** The envelope's namespaces stand on lines of their own. */
  function EnvelopeLine(): Line {
    OpenLine("", OvfTag(Envelope), EnvelopeAttrs(), "\n    ")
  }

  function DocumentLines(config: VmxConfig, disks: seq<DiskInfo>, alphanumeric: Alphanumeric): seq<Line> {
    [EnvelopeLine()] + ReferencesLines(config, disks) + DiskSectionLines(disks) + NetworkSectionLines(config)
    + VirtualSystemLines(config, disks, alphanumeric) + [CloseTag(0, Envelope)]
  }

  function DocumentText(config: VmxConfig, disks: seq<DiskInfo>, alphanumeric: Alphanumeric): string {
    PROLOG + ("\n" + LinesText(DocumentLines(config, disks, alphanumeric)))
  }

  // ---- The builders

  lemma {:induction false} TextConcat(a: seq<Line>, b: seq<Line>)
    ensures LinesText(a + b) == LinesText(a) + LinesText(b)
    decreases |a|
  {
    hide LineText;
    if a == [] {
      assert a + b == b;
    } else {
      TextConcat(a[1..], b);
      assert (a + b)[1..] == a[1..] + b;
      Bytes.Assoc(LineText(a[0]), LinesText(a[1..]), LinesText(b));
    }
  }

  lemma FlattenSnoc(bs: seq<seq<Line>>, b: seq<Line>)
    ensures Flatten(bs + [b]) == Flatten(bs) + b
  {
    assert (bs + [b])[..|bs + [b]| - 1] == bs;
  }

  /** Appends one line to a section being written. */
  method AppendLine(xml: string, l: Line, ghost ls: seq<Line>) returns (xml': string)
    requires xml == LinesText(ls)
    ensures xml' == LinesText(ls + [l])
  {
    hide LineText;
    TextConcat(ls, [l]);
    assert [l][1..] == [];
    assert LineText(l) + "" == LineText(l);
    xml' := xml + LineText(l);
  }

  /** Appends lines one by one. */
  method AppendLines(xml: string, more: seq<Line>, ghost ls: seq<Line>) returns (xml': string)
    requires xml == LinesText(ls)
    ensures xml' == LinesText(ls + more)
  {
    hide LineText, LinesText;
    xml' := xml;
    assert ls + more[..0] == ls;
    for i := 0 to |more|
      invariant xml' == LinesText(ls + more[..i])
    {
      xml' := AppendLine(xml', more[i], ls + more[..i]);
      assert ls + more[..i] + [more[i]] == ls + more[..i + 1];
    }
    assert more[..|more|] == more;
  }

  lemma NoText()
    ensures LinesText([]) == ""
  {
  }

  method BuildReferences(config: VmxConfig, disks: seq<DiskInfo>) returns (xml: string)
    ensures xml == LinesText(ReferencesLines(config, disks))
  {
    hide LinesText, FileLine, OpenTag, CloseTag;
    ghost var files := FileLines(config, disks);
    ghost var head := [OpenTag(2, References, [])];
    NoText();
    assert [] + head == head;
    xml := AppendLine("", OpenTag(2, References, []), []);
    assert head + files[..0] == head;
    for i := 0 to |disks|
      invariant xml == LinesText(head + files[..i])
    {
      xml := AppendLine(xml, FileLine(FileName(config, i), disks[i]), head + files[..i]);
      assert head + files[..i] + [files[i]] == head + files[..i + 1];
    }
    assert files[..|disks|] == files;
    xml := AppendLine(xml, CloseTag(2, References), head + files);
  }

  method BuildDiskSection(disks: seq<DiskInfo>) returns (xml: string)
    ensures xml == LinesText(DiskSectionLines(disks))
  {
    hide LinesText, DiskLine, OpenTag, CloseTag, Elem;
    ghost var rows := DiskLines(disks);
    ghost var head := [OpenTag(2, DiskSection, []), Elem(4, Info, Say(DiskInfoText))];
    NoText();
    assert [] + head == head;
    xml := AppendLines("", [OpenTag(2, DiskSection, []), Elem(4, Info, Say(DiskInfoText))], []);
    assert head + rows[..0] == head;
    for i := 0 to |disks|
      invariant xml == LinesText(head + rows[..i])
    {
      xml := AppendLine(xml, DiskLine(disks[i]), head + rows[..i]);
      assert head + rows[..i] + [rows[i]] == head + rows[..i + 1];
    }
    assert rows[..|disks|] == rows;
    xml := AppendLine(xml, CloseTag(2, DiskSection), head + rows);
  }

  /** One more block of a section. */
  lemma NextBlock(head: seq<Line>, bs: seq<seq<Line>>, i: nat)
    requires i < |bs|
    ensures head + Flatten(bs[..i]) + bs[i] == head + Flatten(bs[..i + 1])
  {
    FlattenSnoc(bs[..i], bs[i]);
    assert bs[..i + 1] == bs[..i] + [bs[i]];
    Bytes.Assoc(head, Flatten(bs[..i]), bs[i]);
  }

  lemma NoBlocks(head: seq<Line>, bs: seq<seq<Line>>)
    ensures head + Flatten(bs[..0]) == head
  {
    assert bs[..0] == [];
  }

  method BuildNetworkSection(config: VmxConfig) returns (xml: string)
    ensures xml == LinesText(NetworkSectionLines(config))
  {
    hide LinesText, NetworkBlock, DefaultNetworkBlock, OpenTag, CloseTag, Elem, Flatten;
    ghost var blocks := NetworkBlocks(config);
    ghost var head := [OpenTag(2, NetworkSection, []), Elem(4, Info, Say(NetworkInfo))];
    NoText();
    assert [] + head == head;
    xml := AppendLines("", [OpenTag(2, NetworkSection, []), Elem(4, Info, Say(NetworkInfo))], []);
    NoBlocks(head, blocks);
    if config.networks == [] {
      xml := AppendLines(xml, DefaultNetworkBlock(), head + Flatten(blocks[..0]));
      NextBlock(head, blocks, 0);
    } else {
      for i := 0 to |config.networks|
        invariant xml == LinesText(head + Flatten(blocks[..i]))
      {
        xml := AppendLines(xml, NetworkBlock(config, i), head + Flatten(blocks[..i]));
        NextBlock(head, blocks, i);
      }
    }
    assert blocks[..|blocks|] == blocks;
    xml := AppendLine(xml, CloseTag(2, NetworkSection), head + Flatten(blocks));
  }

  /** One more item of the hardware section. */
  method AppendItem(xml: string, item: HardwareItem, ghost head: seq<Line>, ghost all: seq<HardwareItem>, ghost k: nat)
      returns (xml': string)
    requires k < |all| && all[k] == item
    requires xml == LinesText(head + Flatten(ItemBlocks(all)[..k]))
    ensures xml' == LinesText(head + Flatten(ItemBlocks(all)[..k + 1]))
  {
    hide LinesText, ItemLines, Flatten;
    xml' := AppendLines(xml, ItemLines(item), head + Flatten(ItemBlocks(all)[..k]));
    NextBlock(head, ItemBlocks(all), k);
  }

  method BuildHardwareSection(config: VmxConfig, disks: seq<DiskInfo>) returns (xml: string)
    ensures xml == LinesText(HardwareLines(config, disks))
  {
    hide *;
    ghost var all := Items(config, disks);
    var head := HardwareHead();
    ItemsAt(config, disks);
    NoText();
    assert [] + head == head;
    xml := AppendLines("", head, []);
    NoBlocks(head, ItemBlocks(all));
    xml := AppendItem(xml, SystemItem(config), head, all, 0);
    xml := AppendItem(xml, CpuItem(config), head, all, 1);
    xml := AppendItem(xml, MemoryItem(config), head, all, 2);
    xml := AppendItem(xml, ScsiItem(), head, all, 3);
    for i := 0 to |disks|
      invariant xml == LinesText(head + Flatten(ItemBlocks(all)[..4 + i]))
    {
      xml := AppendItem(xml, DiskItem(i, disks[i]), head, all, 4 + i);
    }
    ghost var n := 4 + |disks|;
    for i := 0 to |config.networks|
      invariant xml == LinesText(head + Flatten(ItemBlocks(all)[..n + i]))
    {
      xml := AppendItem(xml, NetworkItem(config, i), head, all, n + i);
    }
    if config.networks == [] {
      xml := AppendItem(xml, DefaultNetworkItem(config), head, all, n);
    }
    assert ItemBlocks(all)[..|all|] == ItemBlocks(all);
    xml := AppendLine(xml, CloseTag(4, VirtualHardwareSection), head + Flatten(ItemBlocks(all)));
    HardwareWhole(config, disks);
  }

  lemma HardwareWhole(config: VmxConfig, disks: seq<DiskInfo>)
    ensures HardwareLines(config, disks)
         == HardwareHead() + Flatten(ItemBlocks(Items(config, disks))) + [CloseTag(4, VirtualHardwareSection)]
  {
    hide HardwareHead, Flatten, ItemBlocks, Items;
  }

  method BuildVirtualSystem(config: VmxConfig, disks: seq<DiskInfo>, alphanumeric: Alphanumeric) returns (xml: string)
    ensures xml == LinesText(VirtualSystemLines(config, disks, alphanumeric))
  {
    hide LinesText, SystemHead, OsLines, HardwareLines, CloseTag;
    var head, os := SystemHead(config, alphanumeric), OsLines(config);
    NoText();
    assert [] + head == head;
    xml := AppendLines("", head, []);
    xml := AppendLines(xml, os, head);
    var hardware := BuildHardwareSection(config, disks);
    TextConcat(head + os, HardwareLines(config, disks));
    xml := xml + hardware;
    xml := AppendLine(xml, CloseTag(2, VirtualSystem), head + os + HardwareLines(config, disks));
  }

  /** `build`: the whole document, section by section. */
  method Build(config: VmxConfig, disks: seq<DiskInfo>, alphanumeric: Alphanumeric) returns (xml: string)
    ensures xml == DocumentText(config, disks, alphanumeric)
  {
    hide LinesText, EnvelopeLine, ReferencesLines, DiskSectionLines, NetworkSectionLines, VirtualSystemLines, CloseTag;
    ghost var r, d, n := ReferencesLines(config, disks), DiskSectionLines(disks), NetworkSectionLines(config);
    ghost var v := VirtualSystemLines(config, disks, alphanumeric);
    NoText();
    assert [] + [EnvelopeLine()] == [EnvelopeLine()];
    xml := AppendLine("", EnvelopeLine(), []);
    var section := BuildReferences(config, disks);
    TextConcat([EnvelopeLine()], r);
    xml := xml + section;
    section := BuildDiskSection(disks);
    TextConcat([EnvelopeLine()] + r, d);
    xml := xml + section;
    section := BuildNetworkSection(config);
    TextConcat([EnvelopeLine()] + r + d, n);
    xml := xml + section;
    section := BuildVirtualSystem(config, disks, alphanumeric);
    TextConcat([EnvelopeLine()] + r + d + n, v);
    xml := xml + section;
    xml := AppendLine(xml, CloseTag(0, Envelope), [EnvelopeLine()] + r + d + n + v);
    xml := PROLOG + ("\n" + xml);
  }
}
