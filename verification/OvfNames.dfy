/** The fixed vocabulary of an OVF descriptor. Every word states what the reader needs to know about it. */
module OvfNames {
  import opened XmlReader
  import opened XmlWriter

  // Long words are put together from shorter ones, because each literal is checked character by character.

  /** Two names, or two pieces of text, in a row. */
  function Compound(a: Name, b: Name): Name {
    a + b
  }

  function Phrase(a: Literal, b: Literal): Literal {
    a + b
  }

  function Phrase3(a: Literal, b: Literal, c: Literal): Literal {
    a + b + c
  }

  // ---- Elements of hardware items

  datatype Element =
    | SystemElementName | SystemInstanceId | SystemIdentifier | SystemType
    | Address | AddressOnParent | AllocationUnits | AutomaticAllocation | Connection | Description | ElementName
    | HostResource | InstanceId | Parent | ResourceSubType | ResourceType | VirtualQuantity

  function Vssd(e: Element): Name {
    if e.SystemInstanceId? then "InstanceID"
    else if e.SystemIdentifier? then Compound("VirtualSystem", "Identifier")
    else if e.SystemType? then "VirtualSystemType"
    else "ElementName"
  }

  function RasdPlace(e: Element): Name {
    if e.Address? then "Address"
    else if e.AddressOnParent? then "AddressOnParent"
    else if e.AllocationUnits? then "AllocationUnits"
    else if e.Connection? then "Connection"
    else if e.Parent? then "Parent"
    else "AutomaticAllocation"
  }

  function RasdKind(e: Element): Name {
    if e.Description? then "Description"
    else if e.ElementName? then "ElementName"
    else if e.HostResource? then "HostResource"
    else if e.ResourceSubType? then Compound("Resource", "SubType")
    else if e.ResourceType? then Compound("Resource", "Type")
    else if e.VirtualQuantity? then Compound("Virtual", "Quantity")
    else "InstanceID"
  }

  function Rasd(e: Element): Name {
    if e.Address? || e.AddressOnParent? || e.AllocationUnits? || e.AutomaticAllocation? || e.Connection? || e.Parent?
    then RasdPlace(e) else RasdKind(e)
  }

  function Tag(e: Element): (s: Name)
    ensures s[0] != 'o'
  {
    if e.SystemElementName? || e.SystemInstanceId? || e.SystemIdentifier? || e.SystemType? then "vssd:" + Vssd(e)
    else "rasd:" + Rasd(e)
  }

  /** The elements read back have names of their own. */
  lemma TagsDiffer(a: Element, b: Element)
    requires a != b && (b == InstanceId || b == HostResource || b == SystemInstanceId || b == Connection)
    ensures Tag(a) != Tag(b)
  {
    var va, vb := Tag(a)[0] == 'v', Tag(b)[0] == 'v';
    if va == vb {
      assert Tag(a)[5..] == (if va then Vssd(a) else Rasd(a));
      assert Tag(b)[5..] == (if vb then Vssd(b) else Rasd(b));
      if va { VssdDiffer(a); } else { RasdDiffer(a, b); }
    }
  }

  lemma VssdDiffer(a: Element)
    requires a != SystemInstanceId && Tag(a)[0] == 'v'
    ensures Vssd(a) != Vssd(SystemInstanceId)
  {
    assert Vssd(a)[0] != Vssd(SystemInstanceId)[0];
  }

  lemma RasdDiffer(a: Element, b: Element)
    requires a != b && (b == InstanceId || b == HostResource || b == Connection) && Tag(a)[0] == 'r'
    ensures Rasd(a) != Rasd(b)
  {
    assert Rasd(a)[0] != Rasd(b)[0];
  }

  // ---- Elements of the envelope

  datatype Section =
    | Envelope | References | File | DiskSection | Info | Disk | NetworkSection | Network | SectionDescription
    | VirtualSystem | SystemName | OperatingSystemSection | VirtualHardwareSection | System | Item

  function InnerName(s: Section): Name {
    if s.File? then "File"
    else if s.Info? then "Info"
    else if s.Disk? then "Disk"
    else if s.Network? then "Network"
    else if s.SectionDescription? then "Description"
    else if s.SystemName? then "Name"
    else if s.System? then "System"
    else "Item"
  }

  function OuterName(s: Section): Name {
    if s.Envelope? then "Envelope"
    else if s.References? then "References"
    else if s.DiskSection? then Compound("Disk", "Section")
    else if s.NetworkSection? then Compound("Network", "Section")
    else if s.OperatingSystemSection? then Compound("OperatingSystem", "Section")
    else if s.VirtualHardwareSection? then Compound("VirtualHardware", "Section")
    else "VirtualSystem"
  }

  function SectionName(s: Section): Name {
    if s.Envelope? || s.References? || s.DiskSection? || s.NetworkSection? || s.OperatingSystemSection?
       || s.VirtualHardwareSection? || s.VirtualSystem?
    then OuterName(s) else InnerName(s)
  }

  function OvfTag(s: Section): (n: Name)
    ensures n[0] == 'o'
  {
    "ovf:" + SectionName(s)
  }

  /** The elements looked up by their attributes have names of their own. */
  lemma SectionsDiffer(a: Section, b: Section)
    requires a != b && (b == File || b == Disk || b == Network)
    ensures OvfTag(a) != OvfTag(b)
  {
    assert OvfTag(a)[4..] == SectionName(a) && OvfTag(b)[4..] == SectionName(b);
    assert |SectionName(a)| != |SectionName(b)| || SectionName(a)[0] != SectionName(b)[0];
  }

  // ---- Attributes

  datatype Attribute =
    | Href | Id | Size | Capacity | CapacityUnits | DiskId | FileRef | Format | NetworkName
    | OsType | NsOvf | NsRasd | NsVssd | NsVmw | NsXsi

  function OvfAttribute(a: Attribute): Name {
    if a.Href? then "href"
    else if a.Id? then "id"
    else if a.Size? then "size"
    else if a.Capacity? then "capacity"
    else if a.CapacityUnits? then Compound("capacity", "AllocationUnits")
    else if a.DiskId? then "diskId"
    else if a.FileRef? then "fileRef"
    else if a.Format? then "format"
    else "name"
  }

  function AttributeName(a: Attribute): Name {
    if a.OsType? then "vmw:osType"
    else if a.NsOvf? then "xmlns:ovf"
    else if a.NsRasd? then "xmlns:rasd"
    else if a.NsVssd? then "xmlns:vssd"
    else if a.NsVmw? then "xmlns:vmw"
    else if a.NsXsi? then "xmlns:xsi"
    else Compound("ovf:", OvfAttribute(a))
  }

  /** Attributes have names of their own. */
  lemma AttributesDiffer(a: Attribute, b: Attribute)
    requires a != b
    ensures AttributeName(a) != AttributeName(b)
  {
    AttributeStart(a);
    AttributeStart(b);
    hide AttributeName, OvfAttribute;
    if AttributeName(a)[0] == 'o' && AttributeName(b)[0] == 'o' {
      OvfAttributesDiffer(a, b);
    } else if AttributeName(a)[0] == 'x' && AttributeName(b)[0] == 'x' {
      NamespacesDiffer(a, b);
    }
  }

  lemma AttributeStart(a: Attribute)
    ensures AttributeName(a)[0] == 'o' || AttributeName(a)[0] == 'x' || (AttributeName(a)[0] == 'v' && a.OsType?)
    ensures AttributeName(a)[0] == 'o' ==> |AttributeName(a)| >= 4 && AttributeName(a)[4..] == OvfAttribute(a)
  {
    hide OvfAttribute;
  }

  /** Length and first letter tell the attributes of the format apart. */
  lemma OvfAttributesDiffer(a: Attribute, b: Attribute)
    requires a != b && AttributeName(a)[0] == 'o' && AttributeName(b)[0] == 'o'
    ensures OvfAttribute(a) != OvfAttribute(b)
  {
    assert |OvfAttribute(a)| != |OvfAttribute(b)| || OvfAttribute(a)[0] != OvfAttribute(b)[0];
  }

  lemma NamespacesDiffer(a: Attribute, b: Attribute)
    requires a != b && AttributeName(a)[0] == 'x' && AttributeName(b)[0] == 'x'
    ensures AttributeName(a) != AttributeName(b)
  {
    var x, y := AttributeName(a), AttributeName(b);
    assert |x| != |y| || x[6] != y[6] || x[7] != y[7];
  }

  // ---- Words

  datatype Label =
    | Nothing
    | HardwareFamily | HardwareVersion | Megahertz | Cpus | Cpu | Megabytes | MemorySize | Memory
    | ScsiController | ScsiController0 | LsiLogic | HardDisk | HardDiskNumber | DiskPath | True
    | NetworkAdapter | NetworkAdapterNumber | VmNetwork | E1000 | TheNetwork | The | AfterThe
    | DiskInfoText | NetworkInfo | SystemInfo | OsInfo | HardwareInfo | Byte

  function MachineWords(l: Label): Literal {
    if l.HardwareFamily? then Phrase("Virtual ", "Hardware Family")
    else if l.HardwareVersion? then "vmx-21"
    else if l.Megahertz? then "hertz * 10^6"
    else if l.Cpus? then Phrase("Number of ", "Virtual CPUs")
    else if l.Megabytes? then "byte * 2^20"
    else "CPU"
  }

  /** Host resources name a disk by this path and its id. */
  const DISK_PATH: Literal := "ovf:/disk/"

  function StorageWords(l: Label): Literal {
    if l.MemorySize? then "Memory Size"
    else if l.Memory? then "Memory"
    else if l.ScsiController? then "SCSI Controller"
    else if l.ScsiController0? then "SCSI Controller 0"
    else if l.LsiLogic? then "lsilogic"
    else if l.HardDisk? then "Hard Disk"
    else if l.HardDiskNumber? then "Hard Disk "
    else DISK_PATH
  }

  function NetworkWords(l: Label): Literal {
    if l.True? then "true"
    else if l.NetworkAdapter? then "Network Adapter"
    else if l.NetworkAdapterNumber? then "Network Adapter "
    else if l.VmNetwork? then "VM Network"
    else if l.E1000? then "E1000"
    else if l.TheNetwork? then "The VM Network"
    else if l.The? then "The "
    else if l.AfterThe? then " network"
    else ""
  }

  function InfoWords(l: Label): Literal {
    if l.DiskInfoText? then Phrase("Virtual disk", " information")
    else if l.NetworkInfo? then Phrase("Network", " configuration")
    else if l.SystemInfo? then Phrase("A virtual", " machine")
    else "byte"
  }

  function LongInfoWords(l: Label): Literal {
    if l.OsInfo? then Phrase3("The guest", " operating", " system")
    else Phrase3("Virtual", " hardware", " requirements")
  }

  function Words(l: Label): Literal {
    if l.HardwareFamily? || l.HardwareVersion? || l.Megahertz? || l.Cpus? || l.Megabytes? || l.Cpu? then MachineWords(l)
    else if l.MemorySize? || l.Memory? || l.ScsiController? || l.ScsiController0? || l.LsiLogic? || l.HardDisk?
            || l.HardDiskNumber? || l.DiskPath? then StorageWords(l)
    else if l.DiskInfoText? || l.NetworkInfo? || l.SystemInfo? || l.Byte? then InfoWords(l)
    else if l.OsInfo? || l.HardwareInfo? then LongInfoWords(l)
    else NetworkWords(l)
  }

  // ---- Web addresses

  datatype WebAddress = EnvelopeSchema | RasdSchema | VssdSchema | VmwareSchema | InstanceSchema | StreamFormat

  function Host(a: WebAddress): Literal {
    match a
    case EnvelopeSchema | RasdSchema | VssdSchema => Phrase("http://schemas", ".dmtf.org/")
    case VmwareSchema | StreamFormat => Phrase("http://www", ".vmware.com/")
    case InstanceSchema => Phrase("http://www", ".w3.org/2001/")
  }

  function Folder(a: WebAddress): Literal {
    if a.RasdSchema? || a.VssdSchema? then Phrase("wbem/wscim/1/", "cim-schema/2/")
    else if a.StreamFormat? then Phrase("interfaces/", "specifications/")
    else ""
  }

  function CimPage(a: WebAddress): Literal {
    if a.RasdSchema? then Phrase3("CIM_Resource", "Allocation", "SettingData")
    else Phrase3("CIM_", "VirtualSystem", "SettingData")
  }

  function Page(a: WebAddress): Literal {
    if a.EnvelopeSchema? then "ovf/envelope/1"
    else if a.VmwareSchema? then "schema/ovf"
    else if a.InstanceSchema? then Phrase("XMLSchema", "-instance")
    else if a.StreamFormat? then Phrase("vmdk.html#", "streamOptimized")
    else CimPage(a)
  }

  function Url(a: WebAddress): Literal {
    Phrase3(Host(a), Folder(a), Page(a))
  }
}
