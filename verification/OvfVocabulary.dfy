/** The names and words of a descriptor in full. */
module OvfVocabulary {
  import opened XmlReader
  import opened XmlWriter
  import opened OvfNames

  lemma PrologText()
    ensures PROLOG == "<?xml version=\"1.0\" encoding=\"UTF-8\"?>"
  {
  }

  // ---- Elements of hardware items

  lemma SystemTags()
    ensures Tag(SystemElementName) == "vssd:ElementName" && Tag(SystemInstanceId) == "vssd:InstanceID"
  {
  }

  lemma SystemIdentifierTag()
    ensures Tag(SystemIdentifier) == "vssd:VirtualSystemIdentifier"
  {
  }

  lemma SystemTypeTag()
    ensures Tag(SystemType) == "vssd:VirtualSystemType"
  {
  }

  lemma AddressTags()
    ensures Tag(Address) == "rasd:Address" && Tag(AddressOnParent) == "rasd:AddressOnParent"
  {
  }

  lemma AllocationTags()
    ensures Tag(AllocationUnits) == "rasd:AllocationUnits"
  {
  }

  lemma AutomaticTag()
    ensures Tag(AutomaticAllocation) == "rasd:AutomaticAllocation"
  {
  }

  lemma LinkTags()
    ensures Tag(Connection) == "rasd:Connection" && Tag(Parent) == "rasd:Parent"
  {
  }

  lemma NameTags()
    ensures Tag(Description) == "rasd:Description" && Tag(ElementName) == "rasd:ElementName"
  {
  }

  lemma HostTags()
    ensures Tag(HostResource) == "rasd:HostResource" && Tag(InstanceId) == "rasd:InstanceID"
  {
  }

  lemma SubTypeTag()
    ensures Tag(ResourceSubType) == "rasd:ResourceSubType"
  {
  }

  lemma TypeTag()
    ensures Tag(ResourceType) == "rasd:ResourceType"
  {
  }

  lemma QuantityTag()
    ensures Tag(VirtualQuantity) == "rasd:VirtualQuantity"
  {
  }

  lemma ElementNames()
    ensures Tag(SystemElementName) == "vssd:ElementName" && Tag(SystemInstanceId) == "vssd:InstanceID"
    ensures Tag(SystemIdentifier) == "vssd:VirtualSystemIdentifier" && Tag(SystemType) == "vssd:VirtualSystemType"
    ensures Tag(Address) == "rasd:Address" && Tag(AddressOnParent) == "rasd:AddressOnParent"
    ensures Tag(AllocationUnits) == "rasd:AllocationUnits" && Tag(AutomaticAllocation) == "rasd:AutomaticAllocation"
    ensures Tag(Connection) == "rasd:Connection" && Tag(Parent) == "rasd:Parent"
    ensures Tag(Description) == "rasd:Description" && Tag(ElementName) == "rasd:ElementName"
    ensures Tag(HostResource) == "rasd:HostResource" && Tag(InstanceId) == "rasd:InstanceID"
    ensures Tag(ResourceSubType) == "rasd:ResourceSubType" && Tag(ResourceType) == "rasd:ResourceType"
    ensures Tag(VirtualQuantity) == "rasd:VirtualQuantity"
  {
    hide Tag;
    SystemTags();
    SystemIdentifierTag();
    SystemTypeTag();
    AddressTags();
    AllocationTags();
    AutomaticTag();
    LinkTags();
    NameTags();
    HostTags();
    SubTypeTag();
    TypeTag();
    QuantityTag();
  }

  // ---- Elements of the envelope

  lemma ReferenceNames()
    ensures OvfTag(Envelope) == "ovf:Envelope" && OvfTag(References) == "ovf:References" && OvfTag(File) == "ovf:File"
  {
  }

  lemma DiskNames()
    ensures OvfTag(DiskSection) == "ovf:DiskSection" && OvfTag(Info) == "ovf:Info" && OvfTag(Disk) == "ovf:Disk"
  {
  }

  lemma NetworkNames()
    ensures OvfTag(NetworkSection) == "ovf:NetworkSection" && OvfTag(Network) == "ovf:Network"
  {
  }

  lemma DescriptionName()
    ensures OvfTag(SectionDescription) == "ovf:Description"
  {
  }

  lemma SystemNames()
    ensures OvfTag(VirtualSystem) == "ovf:VirtualSystem" && OvfTag(SystemName) == "ovf:Name"
  {
  }

  lemma OsName()
    ensures OvfTag(OperatingSystemSection) == "ovf:OperatingSystemSection"
  {
  }

  lemma HardwareName()
    ensures OvfTag(VirtualHardwareSection) == "ovf:VirtualHardwareSection"
  {
  }

  lemma ItemNames()
    ensures OvfTag(System) == "ovf:System" && OvfTag(Item) == "ovf:Item"
  {
  }

  // ---- Attributes

  lemma FileAttributes()
    ensures AttributeName(Href) == "ovf:href" && AttributeName(Id) == "ovf:id" && AttributeName(Size) == "ovf:size"
  {
  }

  lemma CapacityAttributes()
    ensures AttributeName(Capacity) == "ovf:capacity" && AttributeName(CapacityUnits) == "ovf:capacityAllocationUnits"
  {
  }

  lemma DiskAttributes()
    ensures AttributeName(DiskId) == "ovf:diskId" && AttributeName(FileRef) == "ovf:fileRef"
    ensures AttributeName(Format) == "ovf:format"
  {
  }

  lemma OtherAttributes()
    ensures AttributeName(NetworkName) == "ovf:name" && AttributeName(OsType) == "vmw:osType"
  {
  }

  lemma NamespaceAttributes()
    ensures AttributeName(NsOvf) == "xmlns:ovf" && AttributeName(NsRasd) == "xmlns:rasd"
    ensures AttributeName(NsVssd) == "xmlns:vssd" && AttributeName(NsVmw) == "xmlns:vmw"
    ensures AttributeName(NsXsi) == "xmlns:xsi"
  {
  }

  // ---- Words

  lemma SystemTexts()
    ensures Words(HardwareFamily) == "Virtual Hardware Family" && Words(HardwareVersion) == "vmx-21"
  {
  }

  lemma CpuTexts()
    ensures Words(Megahertz) == "hertz * 10^6" && Words(Cpus) == "Number of Virtual CPUs" && Words(Cpu) == "CPU"
  {
  }

  lemma MemoryTexts()
    ensures Words(Megabytes) == "byte * 2^20" && Words(MemorySize) == "Memory Size" && Words(Memory) == "Memory"
  {
  }

  lemma ScsiTexts()
    ensures Words(ScsiController) == "SCSI Controller" && Words(ScsiController0) == "SCSI Controller 0"
    ensures Words(LsiLogic) == "lsilogic"
  {
  }

  lemma DiskTexts()
    ensures Words(HardDisk) == "Hard Disk" && Words(HardDiskNumber) == "Hard Disk " && Words(DiskPath) == "ovf:/disk/"
    ensures Words(Byte) == "byte"
  {
  }

  lemma AdapterTexts()
    ensures Words(True) == "true" && Words(NetworkAdapter) == "Network Adapter"
    ensures Words(NetworkAdapterNumber) == "Network Adapter "
  {
  }

  lemma NetworkTexts()
    ensures Words(VmNetwork) == "VM Network" && Words(E1000) == "E1000" && Words(Nothing) == ""
  {
  }

  lemma DescriptionTexts()
    ensures Words(TheNetwork) == "The VM Network" && Words(The) == "The " && Words(AfterThe) == " network"
  {
  }

  lemma DiskInfoWords()
    ensures Words(DiskInfoText) == "Virtual disk information"
  {
  }

  lemma NetworkInfoWords()
    ensures Words(NetworkInfo) == "Network configuration"
  {
  }

  lemma SystemInfoWords()
    ensures Words(SystemInfo) == "A virtual machine"
  {
  }

  lemma OsInfoWords()
    ensures Words(OsInfo) == "The guest operating system"
  {
  }

  lemma HardwareInfoWords()
    ensures Words(HardwareInfo) == "Virtual hardware requirements"
  {
  }

  // ---- Web addresses

  lemma Hosts()
    ensures Host(EnvelopeSchema) == Host(RasdSchema) == Host(VssdSchema) == "http://schemas.dmtf.org/"
    ensures Host(VmwareSchema) == Host(StreamFormat) == "http://www.vmware.com/"
    ensures Host(InstanceSchema) == "http://www.w3.org/2001/"
  {
  }

  lemma Folders()
    ensures Folder(RasdSchema) == Folder(VssdSchema) == "wbem/wscim/1/cim-schema/2/"
    ensures Folder(EnvelopeSchema) == Folder(VmwareSchema) == Folder(InstanceSchema) == ""
    ensures Folder(StreamFormat) == "interfaces/specifications/"
  {
  }

  lemma RasdPage()
    ensures Page(RasdSchema) == "CIM_ResourceAllocationSettingData"
  {
  }

  lemma VssdPage()
    ensures Page(VssdSchema) == "CIM_VirtualSystemSettingData"
  {
  }

  lemma OtherPages()
    ensures Page(EnvelopeSchema) == "ovf/envelope/1" && Page(VmwareSchema) == "schema/ovf"
    ensures Page(InstanceSchema) == "XMLSchema-instance" && Page(StreamFormat) == "vmdk.html#streamOptimized"
  {
  }

  lemma Addresses()
    ensures Url(EnvelopeSchema) == "http://schemas.dmtf.org/" + "ovf/envelope/1"
    ensures Url(RasdSchema) == "http://schemas.dmtf.org/" + "wbem/wscim/1/cim-schema/2/" + "CIM_ResourceAllocationSettingData"
    ensures Url(VssdSchema) == "http://schemas.dmtf.org/" + "wbem/wscim/1/cim-schema/2/" + "CIM_VirtualSystemSettingData"
    ensures Url(VmwareSchema) == "http://www.vmware.com/" + "schema/ovf"
    ensures Url(InstanceSchema) == "http://www.w3.org/2001/" + "XMLSchema-instance"
    ensures Url(StreamFormat) == "http://www.vmware.com/" + "interfaces/specifications/" + "vmdk.html#streamOptimized"
  {
    hide Host, Folder, Page;
    Hosts();
    Folders();
    RasdPage();
    VssdPage();
    OtherPages();
    NoFolder(Host(EnvelopeSchema));
    NoFolder(Host(VmwareSchema));
    NoFolder(Host(InstanceSchema));
  }

  lemma NoFolder(host: string)
    ensures host + "" == host
  {
  }
}
