/** Files, disks and networks with their attributes, read from the tokens of a descriptor. */
module OvfReferences {
  import Bytes
  import opened Results
  import opened Text
  import opened Xml
  import opened XmlReader
  import opened XmlWriter
  import opened OvfNames
  import opened OvfVocabulary
  import opened Ovf
  import opened OvfDocument
  import GuestOs

  // ---- Rows by line

  function LineRows(l: Line, name: string): seq<seq<Attr>> {
    if l.CloseLine? || l.name != name then [] else if l.ElementLine? then [[]] else [Meant(l.attrs)]
  }

  function AllRows(ls: seq<Line>, name: string): seq<seq<Attr>> {
    if ls == [] then [] else LineRows(ls[0], name) + AllRows(ls[1..], name)
  }

  lemma RowsCons(t: Token, rest: seq<Token>, name: string)
    ensures Rows([t] + rest, name) == (if (t.Open? || t.Empty?) && t.name == name then [t.attrs] else []) + Rows(rest, name)
  {
    assert ([t] + rest)[1..] == rest;
  }

  lemma LineRowsRead(l: Line, rest: seq<Token>, name: string)
    ensures Rows(LineTokens(l) + rest, name)
         == LineRows(l, name) + Rows(rest, name)
  {
    hide Rows, Meaning, Meant;
    var s := Chars("\n" + l.indent);
    if l.ElementLine? {
      var text, close := TextTokens(Meaning(l.content)), [Close(l.name)] + rest;
      assert LineTokens(l) + rest == [s] + ([Open(l.name, [])] + (text + close));
      RowsCons(s, [Open(l.name, [])] + (text + close), name);
      RowsCons(Open(l.name, []), text + close, name);
      RowsCons(Close(l.name), rest, name);
      if Meaning(l.content) == "" {
        assert text + close == close;
      } else {
        assert text + close == [Chars(Meaning(l.content))] + close;
        RowsCons(Chars(Meaning(l.content)), close, name);
      }
    } else {
      var tag := LineTokens(l)[1];
      assert LineTokens(l) + rest == [s] + ([tag] + rest);
      RowsCons(s, [tag] + rest, name);
      RowsCons(tag, rest, name);
    }
  }

  /** The rows in a document are those of its lines. */
  lemma {:induction false} RowsRead(ls: seq<Line>, name: string)
    ensures Rows(LinesTokens(ls) + LAST, name) == AllRows(ls, name)
  {
    if ls == [] {
      assert LinesTokens(ls) + LAST == [LAST[0]] + [];
      RowsCons(LAST[0], [], name);
    } else {
      hide Rows, LineTokens, LineRows;
      RowsRead(ls[1..], name);
      LineRowsRead(ls[0], LinesTokens(ls[1..]) + LAST, name);
      Bytes.Assoc(LineTokens(ls[0]), LinesTokens(ls[1..]), LAST);
    }
  }

  lemma {:induction false} RowsConcat(a: seq<Line>, b: seq<Line>, name: string)
    ensures AllRows(a + b, name) == AllRows(a, name) + AllRows(b, name)
    decreases |a|
  {
    hide LineRows;
    if a == [] {
      assert a + b == b;
    } else {
      RowsConcat(a[1..], b, name);
      assert (a + b)[1..] == a[1..] + b;
      Bytes.Assoc(LineRows(a[0], name), AllRows(a[1..], name), AllRows(b, name));
    }
  }

  /** The elements looked up. */
  type RowQuery = s: Section | s == File || s == Disk || s == Network witness File

  /** Lines that start other elements. */
  predicate Others(ls: seq<Line>, q: RowQuery) {
    forall i | 0 <= i < |ls| :: ls[i].CloseLine? || ls[i].name != OvfTag(q)
  }

  lemma {:induction false} NoRows(ls: seq<Line>, q: RowQuery)
    requires Others(ls, q)
    ensures AllRows(ls, OvfTag(q)) == []
  {
    hide SectionName;
    if ls != [] {
      NoRows(ls[1..], q);
    }
  }

  /** Lines that are all rows of one kind. */
  lemma {:induction false} OnlyRows(ls: seq<Line>, q: RowQuery)
    requires forall i | 0 <= i < |ls| :: ls[i].EmptyLine? && ls[i].name == OvfTag(q)
    ensures |AllRows(ls, OvfTag(q))| == |ls| && forall i | 0 <= i < |ls| :: AllRows(ls, OvfTag(q))[i] == Meant(ls[i].attrs)
  {
    hide SectionName, Meant;
    if ls != [] {
      OnlyRows(ls[1..], q);
      assert AllRows(ls, OvfTag(q)) == [Meant(ls[0].attrs)] + AllRows(ls[1..], OvfTag(q));
    }
  }

  /** Blocks with one row each. */
  lemma {:induction false} BlocksRows(bs: seq<seq<Line>>, name: string)
    requires forall i | 0 <= i < |bs| :: |AllRows(bs[i], name)| == 1
    ensures var rows := AllRows(Flatten(bs), name);
            |rows| == |bs| && forall i | 0 <= i < |bs| :: rows[i] == AllRows(bs[i], name)[0]
  {
    if bs != [] {
      hide AllRows;
      hide Flatten;
      var init, last := bs[..|bs| - 1], bs[|bs| - 1];
      BlocksRows(init, name);
      FlattenSnoc(init, last);
      assert bs == init + [last];
      RowsConcat(Flatten(init), last, name);
    }
  }

  // ---- Where rows are

  /** Names of the elements looked up are not used for anything else. */
  lemma OtherSections(q: RowQuery)
    ensures forall s: Section | s != q :: OvfTag(s) != OvfTag(q)
  {
    hide SectionName;
    forall s: Section | s != q
      ensures OvfTag(s) != OvfTag(q)
    {
      SectionsDiffer(s, q);
    }
  }

  /** A section with its rows between other lines. */
  lemma SectionRows(head: seq<Line>, rows: seq<Line>, last: Line, q: RowQuery)
    requires Others(head, q) && last.CloseLine?
    ensures AllRows(head + rows + [last], OvfTag(q))
         == AllRows(rows, OvfTag(q))
  {
    hide AllRows, SectionName;
    NoRows(head, q);
    NoRows([last], q);
    RowsConcat(head, rows, OvfTag(q));
    RowsConcat(head + rows, [last], OvfTag(q));
  }

  lemma FileRows(config: VmxConfig, disks: seq<DiskInfo>, q: RowQuery)
    ensures var rows := AllRows(ReferencesLines(config, disks), OvfTag(q));
            if q == File then
              |rows| == |disks| && forall i | 0 <= i < |disks| :: rows[i] == Meant(FileAttrs(FileName(config, i), disks[i]))
            else rows == []
  {
    hide AllRows, SectionName, Meant, FileAttrs, FileName;
    var ls := FileLines(config, disks);
    OtherSections(q);
    SectionRows([OpenTag(2, References, [])], ls, CloseTag(2, References), q);
    if q == File { OnlyRows(ls, q); } else { NoRows(ls, q); }
  }

  lemma DiskRows(disks: seq<DiskInfo>, q: RowQuery)
    ensures var rows := AllRows(DiskSectionLines(disks), OvfTag(q));
            if q == Disk then
              |rows| == |disks| && forall i | 0 <= i < |disks| :: rows[i] == Meant(DiskAttrs(disks[i]))
            else rows == []
  {
    hide AllRows, SectionName, Meant, DiskAttrs, Words;
    var ls := DiskLines(disks);
    OtherSections(q);
    SectionRows([OpenTag(2, DiskSection, []), Elem(4, Info, Say(DiskInfoText))], ls, CloseTag(2, DiskSection), q);
    if q == Disk { OnlyRows(ls, q); } else { NoRows(ls, q); }
  }

  /** The attributes of a network, as content. */
  function NetworkAttrs(config: VmxConfig, i: nat): AttrList {
    AttrsOf([NetworkName], [if i < |config.networks| then Esc(NetworkOf(config.networks[i])) else Say(VmNetwork)])
  }

  lemma NetworkBlockRows(config: VmxConfig, i: nat, q: RowQuery)
    requires i < |NetworkBlocks(config)|
    ensures AllRows(NetworkBlocks(config)[i], OvfTag(q)) == if q == Network then [Meant(NetworkAttrs(config, i))] else []
  {
    hide SectionName, Meant, AttributeName, Words, AllRows, NetworkOf;
    OtherSections(q);
    var block := NetworkBlocks(config)[i];
    var first, rest := [block[0]], [block[1], block[2]];
    assert block == first + rest;
    RowsConcat(first, rest, OvfTag(q));
    NoRows(rest, q);
    OneRow(block[0], OvfTag(q));
  }

  lemma OneRow(l: Line, name: string)
    ensures AllRows([l], name) == LineRows(l, name)
  {
    assert [l][1..] == [];
  }

  lemma NetworkRows(config: VmxConfig, q: RowQuery)
    ensures var rows := AllRows(NetworkSectionLines(config), OvfTag(q));
            if q == Network then
              |rows| == |NetworkBlocks(config)| && forall i | 0 <= i < |rows| :: rows[i] == Meant(NetworkAttrs(config, i))
            else rows == []
  {
    hide AllRows, SectionName, Meant, Words, Flatten, NetworkAttrs, NetworkBlocks;
    var blocks := NetworkBlocks(config);
    OtherSections(q);
    SectionRows([OpenTag(2, NetworkSection, []), Elem(4, Info, Say(NetworkInfo))], Flatten(blocks), CloseTag(2, NetworkSection), q);
    forall i | 0 <= i < |blocks|
      ensures AllRows(blocks[i], OvfTag(q)) == if q == Network then [Meant(NetworkAttrs(config, i))] else []
    {
      NetworkBlockRows(config, i, q);
    }
    if q == Network { BlocksRows(blocks, OvfTag(q)); } else { NoBlockRows(blocks, OvfTag(q)); }
  }

  lemma {:induction false} NoBlockRows(bs: seq<seq<Line>>, name: string)
    requires forall i | 0 <= i < |bs| :: AllRows(bs[i], name) == []
    ensures AllRows(Flatten(bs), name) == []
  {
    if bs != [] {
      hide AllRows;
      NoBlockRows(bs[..|bs| - 1], name);
      RowsConcat(Flatten(bs[..|bs| - 1]), bs[|bs| - 1], name);
    }
  }

  lemma ItemRows(item: HardwareItem, q: RowQuery)
    requires item.wrapper == System || item.wrapper == Item
    ensures AllRows(ItemLines(item), OvfTag(q)) == []
  {
    hide AllRows, SectionName, Tag;
    OtherSections(q);
    NoRows(ItemLines(item), q);
  }

  lemma ItemWrappers(config: VmxConfig, disks: seq<DiskInfo>)
    ensures forall item | item in Items(config, disks) :: item.wrapper == System || item.wrapper == Item
  {
    hide Words;
  }

  lemma MachineRows(config: VmxConfig, disks: seq<DiskInfo>, alphanumeric: Alphanumeric, q: RowQuery)
    ensures AllRows(VirtualSystemLines(config, disks, alphanumeric), OvfTag(q))
         == []
  {
    hide AllRows, SectionName, Words, Flatten, Items, ItemLines, SanitizeId, AttributeName, GuestOs.KindOf, GuestOs.OsId,
         GuestOs.OsTypeName;
    OtherSections(q);
    var head, os, blocks := SystemHead(config, alphanumeric), OsLines(config), ItemBlocks(Items(config, disks));
    ItemWrappers(config, disks);
    forall i | 0 <= i < |blocks|
      ensures AllRows(blocks[i], OvfTag(q)) == []
    {
      ItemRows(Items(config, disks)[i], q);
    }
    NoBlockRows(blocks, OvfTag(q));
    SectionRows(HardwareHead(), Flatten(blocks), CloseTag(4, VirtualHardwareSection), q);
    SectionRows(head + os, HardwareLines(config, disks), CloseTag(2, VirtualSystem), q);
  }

  /** The rows of the whole document are those of its first three sections. */
  lemma RowsOfDocument(config: VmxConfig, disks: seq<DiskInfo>, alphanumeric: Alphanumeric, q: RowQuery)
    ensures Rows(DocumentTokens(config, disks, alphanumeric), OvfTag(q))
         == AllRows(ReferencesLines(config, disks), OvfTag(q)) + AllRows(DiskSectionLines(disks), OvfTag(q))
            + AllRows(NetworkSectionLines(config), OvfTag(q))
  {
    hide AllRows, Rows, LinesTokens, ReferencesLines, DiskSectionLines, NetworkSectionLines, VirtualSystemLines, CloseTag, SectionName,
         EnvelopeLine, DocumentLines;
    var e, r, d, n := [EnvelopeLine()], ReferencesLines(config, disks), DiskSectionLines(disks), NetworkSectionLines(config);
    var v, name := VirtualSystemLines(config, disks, alphanumeric), OvfTag(q);
    MachineRows(config, disks, alphanumeric, q);
    EnvelopeRow(q);
    SectionRows(e, r + d + n + v, CloseTag(0, Envelope), q);
    DocumentParts(config, disks, alphanumeric);
    RowsConcat(r, d, name);
    RowsConcat(r + d, n, name);
    RowsConcat(r + d + n, v, name);
    RowsRead(DocumentLines(config, disks, alphanumeric), name);
  }

  lemma EnvelopeRow(q: RowQuery)
    ensures Others([EnvelopeLine()], q) && CloseTag(0, Envelope).CloseLine?
  {
    hide SectionName, Url, AttributeName;
    OtherSections(q);
  }

  // ---- What the rows say

  lemma {:induction false} ValueAt(attrs: seq<Attr>, name: string, k: nat)
    requires k < |attrs| && attrs[k].name == name && forall i | 0 <= i < k :: attrs[i].name != name
    ensures ValueOf(attrs, name) == Some(attrs[k].value)
  {
    if k > 0 {
      ValueAt(attrs[1..], name, k - 1);
    }
  }

  /** The attribute in place `k`. */
  lemma ValueIs(names: Attributes, contents: seq<Content>, k: nat)
    requires |names| == |contents| && k < |names|
    ensures ValueOf(Meant(AttrsOf(names, contents)), AttributeName(names[k]))
         == Some(Meaning(contents[k]))
  {
    hide AttributeName, Meaning, ValueOf;
    var attrs := AttrsOf(names, contents);
    assert forall i | 0 <= i < k :: attrs[i].name != attrs[k].name;
    ValueAt(Meant(attrs), AttributeName(names[k]), k);
  }

  lemma Plainly(n: nat, s: string)
    ensures Meaning(Num(n)) == Decimal(n) && Meaning(Esc(s)) == s && Meaning(Verbatim(s)) == s
  {
    hide Decimal;
    assert "" + Decimal(n) == Decimal(n) && "" + (s + "") == s;
  }

  /** A File gives name, reference and size as they are. */
  lemma FileSays(name: string, disk: DiskInfo)
    ensures var file := Meant(FileAttrs(name, disk));
            && ValueOf(file, AttributeName(Href)) == Some(name)
            && ValueOf(file, AttributeName(Id)) == Some(disk.fileRef)
            && ValueOf(file, AttributeName(Size)) == Some(Decimal(disk.fileSizeBytes))
  {
    hide AttributeName, ValueOf, Num, Decimal, Meant, Meaning, AttrsOf;
    Plainly(disk.fileSizeBytes, name);
    Plainly(0, disk.fileRef);
    var names: Attributes := [Href, Id, Size];
    var contents: seq<Content> := [Verbatim(name), Verbatim(disk.fileRef), Num(disk.fileSizeBytes)];
    ValueIs(names, contents, 0);
    ValueIs(names, contents, 1);
    ValueIs(names, contents, 2);
  }

  /** A Disk gives capacity, id and reference. */
  lemma DiskSays(disk: DiskInfo)
    ensures var row := Meant(DiskAttrs(disk));
            && ValueOf(row, AttributeName(Capacity)) == Some(Decimal(disk.capacityBytes))
            && ValueOf(row, AttributeName(DiskId)) == Some(disk.id)
            && ValueOf(row, AttributeName(FileRef)) == Some(disk.fileRef)
  {
    hide AttributeName, ValueOf, Num, Esc, Say, Decimal, Url, Meant, Meaning, AttrsOf;
    Plainly(disk.capacityBytes, disk.id);
    Plainly(0, disk.fileRef);
    var names: Attributes := [Capacity, CapacityUnits, DiskId, FileRef, Format];
    var contents: seq<Content> :=
      [Num(disk.capacityBytes), Say(Byte), Esc(disk.id), Verbatim(disk.fileRef), Fixed(Url(StreamFormat))];
    ValueIs(names, contents, 0);
    ValueIs(names, contents, 2);
    ValueIs(names, contents, 3);
  }

  /** All files of a document, in order. */
  lemma FilesSay(config: VmxConfig, disks: seq<DiskInfo>, alphanumeric: Alphanumeric)
    ensures var files := Rows(DocumentTokens(config, disks, alphanumeric), "ovf:File");
            && |files| == |disks|
            && forall i | 0 <= i < |disks| ::
                 && ValueOf(files[i], "ovf:href") == Some(FileName(config, i))
                 && ValueOf(files[i], "ovf:id") == Some(disks[i].fileRef)
                 && ValueOf(files[i], "ovf:size") == Some(Decimal(disks[i].fileSizeBytes))
  {
    hide DocumentTokens, Rows, AllRows, ValueOf, Meant, FileAttrs, AttributeName, Decimal, FileName, OvfTag, ReferencesLines,
         DiskSectionLines, NetworkSectionLines, DiskAttrs, NetworkAttrs, NetworkBlocks;
    ReferenceNames();
    FileAttributes();
    RowsOfDocument(config, disks, alphanumeric, File);
    FileRows(config, disks, File);
    DiskRows(disks, File);
    NetworkRows(config, File);
    forall i | 0 <= i < |disks|
      ensures var file := Meant(FileAttrs(FileName(config, i), disks[i]));
              && ValueOf(file, AttributeName(Href)) == Some(FileName(config, i))
              && ValueOf(file, AttributeName(Id)) == Some(disks[i].fileRef)
              && ValueOf(file, AttributeName(Size)) == Some(Decimal(disks[i].fileSizeBytes))
    {
      FileSays(FileName(config, i), disks[i]);
    }
  }

  /** All disks of a document, in order. */
  lemma DisksSay(config: VmxConfig, disks: seq<DiskInfo>, alphanumeric: Alphanumeric)
    ensures var rows := Rows(DocumentTokens(config, disks, alphanumeric), "ovf:Disk");
            && |rows| == |disks|
            && forall i | 0 <= i < |disks| ::
                 && ValueOf(rows[i], "ovf:capacity") == Some(Decimal(disks[i].capacityBytes))
                 && ValueOf(rows[i], "ovf:diskId") == Some(disks[i].id)
                 && ValueOf(rows[i], "ovf:fileRef") == Some(disks[i].fileRef)
  {
    hide DocumentTokens, Rows, AllRows, ValueOf, Meant, DiskAttrs, AttributeName, Decimal, OvfTag, ReferencesLines,
         DiskSectionLines, NetworkSectionLines, FileAttrs, NetworkAttrs, NetworkBlocks;
    DiskNames();
    CapacityAttributes();
    DiskAttributes();
    RowsOfDocument(config, disks, alphanumeric, Disk);
    FileRows(config, disks, Disk);
    DiskRows(disks, Disk);
    NetworkRows(config, Disk);
    forall i | 0 <= i < |disks|
      ensures var row := Meant(DiskAttrs(disks[i]));
              && ValueOf(row, AttributeName(Capacity)) == Some(Decimal(disks[i].capacityBytes))
              && ValueOf(row, AttributeName(DiskId)) == Some(disks[i].id)
              && ValueOf(row, AttributeName(FileRef)) == Some(disks[i].fileRef)
    {
      DiskSays(disks[i]);
    }
  }
}
