/** The hardware items of a descriptor, read from its tokens: what they ask for and how they refer to each other. */
module OvfItems {
  import Bytes
  import opened Results
  import opened Text
  import opened XmlReader
  import opened XmlWriter
  import opened Ovf
  import opened OvfDocument
  import opened OvfOutline
  import GuestOs
  import Vmx

  // ---- Reading items

  predicate IsItem(tag: string) {
    tag == "ovf:System" || tag == "ovf:Item"
  }

  /** The elements up to the end of an item, each with its text. */
  function FieldsFrom(ts: seq<Token>, tag: string): seq<Field> {
    if ts == [] || ts[0] == Close(tag) then []
    else (if ts[0].Open? then [Field(ts[0].name, TextAt(ts[1..]))] else []) + FieldsFrom(ts[1..], tag)
  }

  /** All items of a document, in order. */
  function ItemsIn(ts: seq<Token>): seq<seq<Field>> {
    if ts == [] then []
    else (if ts[0].Open? && IsItem(ts[0].name) then [FieldsFrom(ts[1..], ts[0].name)] else []) + ItemsIn(ts[1..])
  }

  /** The text an item gives under a name. */
  function TextIn(item: seq<Field>, name: string): Option<string> {
    if item == [] then None else if item[0].name == name then Some(item[0].text) else TextIn(item[1..], name)
  }

  // ---- What the lines of the template give

  lemma FieldsCons(t: Token, rest: seq<Token>, tag: string)
    ensures FieldsFrom([t] + rest, tag)
         == if t == Close(tag) then [] else (if t.Open? then [Field(t.name, TextAt(rest))] else []) + FieldsFrom(rest, tag)
  {
    assert ([t] + rest)[1..] == rest;
  }

  lemma ItemsCons(t: Token, rest: seq<Token>)
    ensures ItemsIn([t] + rest) == (if t.Open? && IsItem(t.name) then [FieldsFrom(rest, t.name)] else []) + ItemsIn(rest)
  {
    assert ([t] + rest)[1..] == rest;
  }

  /** An element inside an item. */
  lemma FieldRead(f: Field, rest: seq<Token>, tag: string)
    requires f.name != tag
    ensures FieldsFrom(SaidTokens(Says(8, f.name, f.text)) + rest, tag) == [f] + FieldsFrom(rest, tag)
  {
    hide FieldsFrom, Spaces;
    var s, o, c := Chars("\n" + Spaces(8)), Open(f.name, []), Close(f.name);
    var inner := TextTokens(f.text) + ([c] + rest);
    assert SaidTokens(Says(8, f.name, f.text)) + rest == [s] + ([o] + inner);
    FieldsCons(s, [o] + inner, tag);
    FieldsCons(o, inner, tag);
    FieldsCons(c, rest, tag);
    if f.text == "" {
      assert inner == [c] + rest;
    } else {
      assert inner == [Chars(f.text)] + ([c] + rest);
      FieldsCons(Chars(f.text), [c] + rest, tag);
    }
  }

  lemma {:induction false} FieldsRead(fields: seq<Field>, rest: seq<Token>, tag: string)
    requires forall i | 0 <= i < |fields| :: fields[i].name != tag
    ensures FieldsFrom(AllSaid(FieldsSaid(fields)) + (SaidTokens(Ends(6, tag)) + rest), tag) == fields
  {
    hide FieldsFrom, SaidTokens;
    var end := SaidTokens(Ends(6, tag)) + rest;
    if fields == [] {
      assert AllSaid([]) + end == end;
      EndRead(rest, tag);
    } else {
      var f, more := fields[0], fields[1..];
      assert FieldsSaid(fields)[1..] == FieldsSaid(more);
      FieldsRead(more, rest, tag);
      FieldRead(f, AllSaid(FieldsSaid(more)) + end, tag);
      Bytes.Assoc(SaidTokens(Says(8, f.name, f.text)), AllSaid(FieldsSaid(more)), end);
    }
  }

  lemma EndRead(rest: seq<Token>, tag: string)
    ensures FieldsFrom(SaidTokens(Ends(6, tag)) + rest, tag) == []
  {
    hide FieldsFrom, Spaces;
    var s, c := Chars("\n" + Spaces(6)), Close(tag);
    assert SaidTokens(Ends(6, tag)) + rest == [s] + ([c] + rest);
    FieldsCons(s, [c] + rest, tag);
    FieldsCons(c, rest, tag);
  }

  predicate Plain(s: Said) {
    s.Ends? || s.Stands? || !IsItem(s.tag)
  }

  /** Lines that start no item. */
  lemma PlainRead(s: Said, rest: seq<Token>)
    requires Plain(s)
    ensures ItemsIn(SaidTokens(s) + rest) == ItemsIn(rest)
  {
    hide ItemsIn, FieldsFrom, Spaces, IsItem;
    var space := Chars("\n" + Spaces(s.indent));
    if s.Says? {
      var o, c := Open(s.tag, []), Close(s.tag);
      var inner := TextTokens(s.text) + ([c] + rest);
      assert SaidTokens(s) + rest == [space] + ([o] + inner);
      ItemsCons(space, [o] + inner);
      ItemsCons(o, inner);
      ItemsCons(c, rest);
      if s.text == "" {
        assert inner == [c] + rest;
      } else {
        assert inner == [Chars(s.text)] + ([c] + rest);
        ItemsCons(Chars(s.text), [c] + rest);
      }
    } else {
      var t := SaidTokens(s)[1];
      assert SaidTokens(s) + rest == [space] + ([t] + rest);
      ItemsCons(space, [t] + rest);
      ItemsCons(t, rest);
    }
  }

  lemma {:induction false} PlainLines(ss: seq<Said>, rest: seq<Token>)
    requires forall i | 0 <= i < |ss| :: Plain(ss[i])
    ensures ItemsIn(AllSaid(ss) + rest) == ItemsIn(rest)
  {
    hide ItemsIn, SaidTokens, Plain;
    if ss == [] {
      assert AllSaid(ss) + rest == rest;
    } else {
      PlainLines(ss[1..], rest);
      PlainRead(ss[0], AllSaid(ss[1..]) + rest);
      Bytes.Assoc(SaidTokens(ss[0]), AllSaid(ss[1..]), rest);
    }
  }

  lemma {:induction false} SaidTwice(a: seq<Said>, b: seq<Said>)
    ensures AllSaid(a + b) == AllSaid(a) + AllSaid(b)
  {
    hide SaidTokens;
    if a == [] {
      assert a + b == b;
    } else {
      SaidTwice(a[1..], b);
      assert (a + b)[1..] == a[1..] + b;
      Bytes.Assoc(SaidTokens(a[0]), AllSaid(a[1..]), AllSaid(b));
    }
  }

  predicate Unmistakable(fields: seq<Field>) {
    forall i | 0 <= i < |fields| :: fields[i].name != "" && fields[i].name[0] != 'o'
  }

  /** An item is read with all its fields. */
  lemma ItemRead(tag: string, fields: seq<Field>, rest: seq<Token>)
    requires IsItem(tag) && Unmistakable(fields)
    ensures ItemsIn(AllSaid(ItemSaid(tag, fields)) + rest) == [fields] + ItemsIn(rest)
  {
    hide ItemsIn, FieldsFrom, AllSaid, Spaces, FieldsSaid;
    var open, inner, close := Starts(6, tag, []), FieldsSaid(fields), Ends(6, tag);
    SaidTwice([open], inner);
    SaidTwice([open] + inner, [close]);
    OneSaid(open);
    OneSaid(close);
    var within := AllSaid(inner) + (SaidTokens(close) + rest);
    var space, o := Chars("\n" + Spaces(6)), Open(tag, []);
    assert AllSaid(ItemSaid(tag, fields)) + rest == [space] + ([o] + within);
    ItemsCons(space, [o] + within);
    ItemsCons(o, within);
    assert forall i | 0 <= i < |fields| :: fields[i].name != tag;
    FieldsRead(fields, rest, tag);
    FieldsPlain(fields);
    PlainLines(inner, SaidTokens(close) + rest);
    PlainRead(close, rest);
  }

  lemma FieldsPlain(fields: seq<Field>)
    requires Unmistakable(fields)
    ensures forall i | 0 <= i < |FieldsSaid(fields)| :: Plain(FieldsSaid(fields)[i])
  {
  }

  lemma OneSaid(s: Said)
    ensures AllSaid([s]) == SaidTokens(s)
  {
    hide SaidTokens;
    assert [s][1..] == [];
    assert SaidTokens(s) + [] == SaidTokens(s);
  }

  lemma {:induction false} ItemsRead(items: seq<seq<Field>>, rest: seq<Token>)
    requires forall i | 0 <= i < |items| :: Unmistakable(items[i])
    ensures ItemsIn(AllSaid(ItemsSaid(items)) + rest) == items + ItemsIn(rest)
  {
    hide ItemsIn, AllSaid, ItemSaid, Unmistakable;
    if items == [] {
      NothingSaid();
      assert [] + rest == rest;
    } else {
      var n := |items| - 1;
      var tag := if n == 0 then "ovf:System" else "ovf:Item";
      var last := ItemSaid(tag, items[n]);
      SaidTwice(ItemsSaid(items[..n]), last);
      Bytes.Assoc(AllSaid(ItemsSaid(items[..n])), AllSaid(last), rest);
      ItemsRead(items[..n], AllSaid(last) + rest);
      ItemRead(tag, items[n], rest);
      assert items == items[..n] + [items[n]];
      Bytes.Assoc(items[..n], [items[n]], ItemsIn(rest));
    }
  }

  lemma NothingSaid()
    ensures AllSaid([]) == []
  {
  }

  // ---- The document

  predicate AllPlain(ss: seq<Said>) {
    forall i | 0 <= i < |ss| :: Plain(ss[i])
  }

  lemma OtherTags()
    ensures !IsItem("ovf:Info") && !IsItem("ovf:Name") && !IsItem("ovf:Network") && !IsItem("ovf:Description")
    ensures !IsItem("ovf:Envelope") && !IsItem("ovf:References") && !IsItem("ovf:DiskSection") && !IsItem("ovf:NetworkSection")
    ensures !IsItem("ovf:VirtualSystem") && !IsItem("ovf:OperatingSystemSection") && !IsItem("ovf:VirtualHardwareSection")
  {
    assert "ovf:Item"[5] == 't' && "ovf:Info"[5] == 'n' && "ovf:Name"[5] == 'a';
  }

  lemma {:induction false} NetworksPlain(adapters: seq<Vmx.NetworkConfig>)
    ensures AllPlain(NetworksSaid(adapters))
  {
    hide IsItem, NetworkName;
    OtherTags();
    if adapters != [] {
      NetworksPlain(adapters[..|adapters| - 1]);
    }
  }

  lemma RowsPlain(name: string, disk: DiskInfo)
    ensures Plain(FileSaid(name, disk)) && Plain(DiskSaid(disk))
  {
    hide Decimal;
  }

  lemma DisksPlain(config: VmxConfig, disks: seq<DiskInfo>)
    ensures AllPlain(ReferencesSaid(config, disks)) && AllPlain(DiskSectionSaid(disks))
  {
    hide IsItem, DiskSaid, FileSaid;
    OtherTags();
    forall i | 0 <= i < |disks|
      ensures Plain(FileSaid(if i < |config.disks| then config.disks[i].fileName else "disk.vmdk", disks[i])) && Plain(DiskSaid(disks[i]))
    {
      RowsPlain(if i < |config.disks| then config.disks[i].fileName else "disk.vmdk", disks[i]);
    }
  }

  lemma FrontPlain(config: VmxConfig, alphanumeric: Alphanumeric)
    ensures AllPlain([Starts(0, "ovf:Envelope", Namespaces())]) && AllPlain(NetworkSectionSaid(config))
    ensures AllPlain(SystemSaid(config, alphanumeric)) && AllPlain(OsSaid(config))
  {
    hide IsItem, Namespaces, NetworksSaid, GuestOs.KindOf, GuestOs.OsId, GuestOs.OsTypeName, SanitizeId, Decimal;
    OtherTags();
    NetworksPlain(config.networks);
  }

  lemma FieldsUnmistakable(config: VmxConfig, disks: seq<DiskInfo>)
    ensures forall k | 0 <= k < |AllFields(config, disks)| :: Unmistakable(AllFields(config, disks)[k])
  {
    hide AllFields, Unmistakable, SystemFields, CpuFields, MemoryFields, ScsiFields, DiskFields, AdapterFields, NetworkName, DeviceName;
    FieldsAt(config, disks);
    FixedUnmistakable(config);
    var all, n := AllFields(config, disks), 4 + |disks|;
    forall k | 4 <= k < |all|
      ensures Unmistakable(all[k])
    {
      if k < n {
        assert all[4 + (k - 4)] == DiskFields(k - 4, disks[k - 4]);
        DiskUnmistakable(k - 4, disks[k - 4]);
      } else {
        var i := k - n;
        assert all[n + i] == all[k];
        AdapterUnmistakable(4 + |config.disks| + i, i, if config.networks == [] then "VM Network" else NetworkName(config.networks[i]),
                            if config.networks == [] then "E1000" else DeviceName(config.networks[i]));
      }
    }
  }

  lemma FixedUnmistakable(config: VmxConfig)
    ensures Unmistakable(SystemFields(config)) && Unmistakable(CpuFields(config))
    ensures Unmistakable(MemoryFields(config)) && Unmistakable(ScsiFields())
  {
    hide Decimal;
  }

  lemma DiskUnmistakable(i: nat, disk: DiskInfo)
    ensures Unmistakable(DiskFields(i, disk))
  {
    hide Decimal;
  }

  lemma AdapterUnmistakable(id: nat, i: nat, network: string, device: string)
    ensures Unmistakable(AdapterFields(id, i, network, device))
  {
    hide Decimal;
  }

  /** The items of the whole document are those of the template. */
  lemma ItemsOfDocument(config: VmxConfig, disks: seq<DiskInfo>, alphanumeric: Alphanumeric)
    ensures ItemsIn(DocumentTokens(config, disks, alphanumeric)) == AllFields(config, disks)
  {
    hide ItemsIn, AllSaid, AllPlain, AllFields, ReferencesSaid, DiskSectionSaid, NetworkSectionSaid, SystemSaid, OsSaid, ItemsSaid,
         Namespaces, DocumentTokens, Unmistakable;
    DocumentSays(config, disks, alphanumeric);
    var e, r := [Starts(0, "ovf:Envelope", Namespaces())], ReferencesSaid(config, disks);
    var d, n := DiskSectionSaid(disks), NetworkSectionSaid(config);
    var s, o, items := SystemSaid(config, alphanumeric), OsSaid(config), ItemsSaid(AllFields(config, disks));
    var head := [Starts(4, "ovf:VirtualHardwareSection", []), Says(6, "ovf:Info", "Virtual hardware requirements")];
    var tail := [Ends(4, "ovf:VirtualHardwareSection")] + [Ends(2, "ovf:VirtualSystem"), Ends(0, "ovf:Envelope")];
    var front := e + r + d + n + s + o + head;
    assert DocumentSaid(config, disks, alphanumeric) == front + items + tail;
    SaidTwice(front, items);
    SaidTwice(front + items, tail);
    FrontPlain(config, alphanumeric);
    DisksPlain(config, disks);
    EdgesPlain();
    PlainTwice(e, r);
    PlainTwice(e + r, d);
    PlainTwice(e + r + d, n);
    PlainTwice(e + r + d + n, s);
    PlainTwice(e + r + d + n + s, o);
    PlainTwice(e + r + d + n + s + o, head);
    var last := [Chars("\n")];
    var rest := AllSaid(items) + (AllSaid(tail) + last);
    assert DocumentTokens(config, disks, alphanumeric) == AllSaid(front) + rest;
    PlainAll(front, rest);
    FieldsUnmistakable(config, disks);
    ItemsRead(AllFields(config, disks), AllSaid(tail) + last);
    PlainAll(tail, last);
    LastReads();
    assert AllFields(config, disks) + [] == AllFields(config, disks);
  }

  lemma PlainAll(ss: seq<Said>, rest: seq<Token>)
    requires AllPlain(ss)
    ensures ItemsIn(AllSaid(ss) + rest) == ItemsIn(rest)
  {
    PlainLines(ss, rest);
  }

  lemma PlainTwice(a: seq<Said>, b: seq<Said>)
    requires AllPlain(a) && AllPlain(b)
    ensures AllPlain(a + b)
  {
    hide Plain;
  }

  lemma EdgesPlain()
    ensures AllPlain([Starts(4, "ovf:VirtualHardwareSection", []), Says(6, "ovf:Info", "Virtual hardware requirements")])
    ensures AllPlain([Ends(4, "ovf:VirtualHardwareSection")] + [Ends(2, "ovf:VirtualSystem"), Ends(0, "ovf:Envelope")])
  {
    hide IsItem;
    OtherTags();
  }

  lemma LastReads()
    ensures ItemsIn([Chars("\n")]) == []
  {
    ItemsCons(Chars("\n"), []);
    assert [Chars("\n")] + [] == [Chars("\n")];
  }

  // ---- What the items mean

  lemma {:induction false} TextFound(item: seq<Field>, name: string, k: nat)
    requires k < |item| && item[k].name == name && forall i | 0 <= i < k :: item[i].name != name
    ensures TextIn(item, name) == Some(item[k].text)
  {
    if k > 0 {
      TextFound(item[1..], name, k - 1);
    }
  }

  lemma {:induction false} TextMissing(item: seq<Field>, name: string)
    requires forall i | 0 <= i < |item| :: item[i].name != name
    ensures TextIn(item, name) == None
  {
    if item != [] {
      TextMissing(item[1..], name);
    }
  }

  /** Length and the letter behind the prefix tell names apart. */
  predicate Apart(a: string, b: string) {
    |a| > 5 && |b| > 5 && (|a| != |b| || a[5] != b[5])
  }

  lemma MachineItems(config: VmxConfig)
    ensures TextIn(CpuFields(config), "rasd:VirtualQuantity") == Some(Decimal(config.numCpus))
    ensures TextIn(CpuFields(config), "rasd:ResourceType") == Some("3")
    ensures TextIn(MemoryFields(config), "rasd:VirtualQuantity") == Some(Decimal(config.memoryMb))
    ensures TextIn(MemoryFields(config), "rasd:ResourceType") == Some("4")
  {
    hide TextIn, Decimal;
    var cpu, memory, quantity, kind := CpuFields(config), MemoryFields(config), "rasd:VirtualQuantity", "rasd:ResourceType";
    assert forall i | 0 <= i < 5 :: Apart(cpu[i].name, quantity) && Apart(memory[i].name, quantity);
    assert forall i | 0 <= i < 4 :: Apart(cpu[i].name, kind) && Apart(memory[i].name, kind);
    TextFound(cpu, quantity, 5);
    TextFound(cpu, kind, 4);
    TextFound(memory, quantity, 5);
    TextFound(memory, kind, 4);
  }

  lemma ControllerItems(config: VmxConfig)
    ensures TextIn(SystemFields(config), "rasd:VirtualQuantity") == None
    ensures TextIn(ScsiFields(), "rasd:VirtualQuantity") == None
    ensures TextIn(ScsiFields(), "rasd:ResourceType") == Some("6") && TextIn(ScsiFields(), "rasd:InstanceID") == Some("3")
  {
    hide TextIn;
    var system, scsi := SystemFields(config), ScsiFields();
    var quantity, kind, id := "rasd:VirtualQuantity", "rasd:ResourceType", "rasd:InstanceID";
    assert forall i | 0 <= i < 4 :: system[i].name[0] == 'v';
    assert quantity[0] == 'r';
    assert forall i | 0 <= i < 6 :: Apart(scsi[i].name, quantity);
    assert forall i | 0 <= i < 5 :: Apart(scsi[i].name, kind);
    assert forall i | 0 <= i < 3 :: Apart(scsi[i].name, id);
    TextMissing(system, quantity);
    TextMissing(scsi, quantity);
    TextFound(scsi, kind, 5);
    TextFound(scsi, id, 3);
  }

  lemma DiskItems(i: nat, disk: DiskInfo)
    ensures var item := DiskFields(i, disk);
            && TextIn(item, "rasd:VirtualQuantity") == None && TextIn(item, "rasd:ResourceType") == Some("17")
            && TextIn(item, "rasd:Parent") == Some("3") && TextIn(item, "rasd:HostResource") == Some("ovf:/disk/" + disk.id)
            && TextIn(item, "rasd:AddressOnParent") == Some(Decimal(i))
  {
    hide TextIn, Decimal;
    var item, quantity, kind := DiskFields(i, disk), "rasd:VirtualQuantity", "rasd:ResourceType";
    var parent, host := "rasd:Parent", "rasd:HostResource";
    assert forall i | 0 <= i < 7 :: Apart(item[i].name, quantity);
    assert forall i | 0 <= i < 6 :: Apart(item[i].name, kind);
    assert forall i | 0 <= i < 5 :: Apart(item[i].name, parent);
    assert forall i | 0 <= i < 3 :: Apart(item[i].name, host);
    TextMissing(item, quantity);
    TextFound(item, kind, 6);
    TextFound(item, parent, 5);
    TextFound(item, host, 3);
    TextFound(item, "rasd:AddressOnParent", 0);
  }

  lemma AdapterItems(id: nat, i: nat, network: string, device: string)
    ensures var item := AdapterFields(id, i, network, device);
            && TextIn(item, "rasd:VirtualQuantity") == None && TextIn(item, "rasd:ResourceType") == Some("10")
            && TextIn(item, "rasd:ResourceSubType") == Some(device) && TextIn(item, "rasd:Connection") == Some(network)
  {
    hide TextIn, Decimal;
    var item, quantity, kind := AdapterFields(id, i, network, device), "rasd:VirtualQuantity", "rasd:ResourceType";
    var sub, connection := "rasd:ResourceSubType", "rasd:Connection";
    assert forall i | 0 <= i < 8 :: Apart(item[i].name, quantity);
    assert forall i | 0 <= i < 7 :: Apart(item[i].name, kind);
    assert forall i | 0 <= i < 6 :: Apart(item[i].name, sub);
    assert forall i | 0 <= i < 2 :: Apart(item[i].name, connection);
    TextMissing(item, quantity);
    TextFound(item, kind, 7);
    TextFound(item, sub, 6);
    TextFound(item, connection, 2);
  }

  /** A disk hangs on the controller `scsi` and names its image. */
  predicate DiskMeans(item: seq<Field>, scsi: seq<Field>, i: nat, disk: DiskInfo) {
    && TextIn(item, "rasd:ResourceType") == Some("17") && TextIn(item, "rasd:VirtualQuantity") == None
    && TextIn(item, "rasd:Parent") == TextIn(scsi, "rasd:InstanceID") == Some("3")
    && TextIn(item, "rasd:AddressOnParent") == Some(Decimal(i))
    && TextIn(item, "rasd:HostResource") == Some("ovf:/disk/" + disk.id)
  }

  /** An adapter has a kind and a network. */
  predicate AdapterMeans(item: seq<Field>, network: string, device: string) {
    && TextIn(item, "rasd:ResourceType") == Some("10") && TextIn(item, "rasd:VirtualQuantity") == None
    && TextIn(item, "rasd:ResourceSubType") == Some(device) && TextIn(item, "rasd:Connection") == Some(network)
  }

  /** The items ask for the configured processors and memory and for nothing else; every disk hangs on the controller, and
      every adapter has the configured kind and network. */
  lemma HardwareMeans(config: VmxConfig, disks: seq<DiskInfo>, alphanumeric: Alphanumeric)
    ensures var items, n := ItemsIn(DocumentTokens(config, disks, alphanumeric)), 4 + |disks|;
            && |items| == n + (if config.networks == [] then 1 else |config.networks|)
            && TextIn(items[0], "rasd:VirtualQuantity") == None
            && TextIn(items[1], "rasd:ResourceType") == Some("3")
            && TextIn(items[1], "rasd:VirtualQuantity") == Some(Decimal(config.numCpus))
            && TextIn(items[2], "rasd:ResourceType") == Some("4")
            && TextIn(items[2], "rasd:VirtualQuantity") == Some(Decimal(config.memoryMb))
            && TextIn(items[3], "rasd:ResourceType") == Some("6") && TextIn(items[3], "rasd:VirtualQuantity") == None
            && (forall i | 0 <= i < |disks| :: DiskMeans(items[4 + i], items[3], i, disks[i]))
            && (forall i | 0 <= i < |config.networks| ::
                  AdapterMeans(items[n + i], NetworkName(config.networks[i]), DeviceName(config.networks[i])))
            && (config.networks == [] ==> AdapterMeans(items[n], "VM Network", "E1000"))
  {
    hide ItemsIn, DocumentTokens, AllFields, TextIn, SystemFields, CpuFields, MemoryFields, ScsiFields, DiskFields, AdapterFields,
         Decimal, NetworkName, DeviceName;
    ItemsOfDocument(config, disks, alphanumeric);
    FieldsAt(config, disks);
    MachineItems(config);
    ControllerItems(config);
    var items, n := AllFields(config, disks), 4 + |disks|;
    forall i | 0 <= i < |disks|
      ensures DiskMeans(items[4 + i], items[3], i, disks[i])
    {
      DiskItems(i, disks[i]);
    }
    forall i | 0 <= i < |config.networks|
      ensures AdapterMeans(items[n + i], NetworkName(config.networks[i]), DeviceName(config.networks[i]))
    {
      AdapterItems(4 + |config.disks| + i, i, NetworkName(config.networks[i]), DeviceName(config.networks[i]));
    }
    if config.networks == [] {
      AdapterItems(4 + |config.disks|, 0, "VM Network", "E1000");
    }
  }
}
