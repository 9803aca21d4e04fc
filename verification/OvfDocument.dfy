/** The descriptor read as XML: exactly when the reader sees what was meant. */
module OvfDocument {
  import Bytes
  import opened Results
  import opened Xml
  import opened XmlReader
  import opened XmlWriter
  import opened OvfNames
  import opened Ovf
  import GuestOs

  // ---- Nesting

  lemma {:induction false} NestConcat(a: seq<Token>, b: seq<Token>, open: seq<string>)
    requires Nest(a, open).Some?
    ensures Nest(a + b, open) == Nest(b, Nest(a, open).value)
    decreases |a|
  {
    if a == [] {
      assert a + b == b;
    } else if open == [] {
      assert forall i | 0 <= i < |a| :: (a + b)[i] == a[i];
      assert forall i | 0 <= i < |b| :: (a + b)[|a| + i] == b[i];
    } else {
      assert (a + b)[0] == a[0] && (a + b)[1..] == a[1..] + b;
      match a[0]
      case Open(name, _) => NestConcat(a[1..], b, open + [name]);
      case Empty(_, _) => NestConcat(a[1..], b, open);
      case Chars(_) => NestConcat(a[1..], b, open);
      case Close(name) => NestConcat(a[1..], b, open[..|open| - 1]);
    }
  }

  lemma {:induction false} TokensConcat(a: seq<Line>, b: seq<Line>)
    ensures LinesTokens(a + b) == LinesTokens(a) + LinesTokens(b)
    decreases |a|
  {
    hide LineTokens;
    if a == [] {
      assert a + b == b;
    } else {
      TokensConcat(a[1..], b);
      assert (a + b)[1..] == a[1..] + b;
      Bytes.Assoc(LineTokens(a[0]), LinesTokens(a[1..]), LinesTokens(b));
    }
  }

  lemma OneLine(l: Line)
    ensures LinesTokens([l]) == LineTokens(l)
  {
    hide LineTokens;
    assert [l][1..] == [];
    assert LineTokens(l) + [] == LineTokens(l);
  }

  lemma NestOne(t: Token, open: seq<string>)
    requires open != []
    ensures t.Open? ==> Nest([t], open) == Some(open + [t.name])
    ensures t.Empty? || t.Chars? ==> Nest([t], open) == Some(open)
    ensures Nest([], open) == Some(open)
  {
    assert [t][1..] == [];
  }

  lemma NestClose(name: string, open: seq<string>)
    ensures Nest([Close(name)], open + [name]) == Some(open)
  {
    assert [Close(name)][1..] == [];
    assert (open + [name])[..|open|] == open;
  }

  /** Lines with all elements closed again, the tags around other lines in the envelope's name space, that are readable
      exactly when `ok`. */
  ghost predicate Reads(ls: seq<Line>, ok: bool) {
    var ts := LinesTokens(ls);
    && (forall i | 0 <= i < |ls| :: ls[i].OpenLine? ==> ls[i].name[0] == 'o')
    && (forall open: seq<string> {:trigger Nest(ts, open)} ::
          open != [] ==> Nest(ts, open) == Some(open))
    && ((forall i | 0 <= i < |ls| :: LineReadable(ls[i])) <==> ok)
  }

  lemma ReadsConcat(a: seq<Line>, p: bool, b: seq<Line>, q: bool)
    requires Reads(a, p) && Reads(b, q)
    ensures Reads(a + b, p && q)
  {
    hide Nest, LinesTokens, LineReadable;
    TokensConcat(a, b);
    forall open: seq<string> | open != []
      ensures Nest(LinesTokens(a + b), open) == Some(open)
    {
      NestConcat(LinesTokens(a), LinesTokens(b), open);
    }
    assert forall i | 0 <= i < |a| :: (a + b)[i] == a[i];
    assert forall i | 0 <= i < |b| :: (a + b)[|a| + i] == b[i];
  }

  lemma ReadsElement(l: Line)
    requires l.ElementLine?
    ensures Reads([l], TextReadable(l.content))
  {
    hide Nest, LinesTokens, Meaning, TextReadable;
    OneLine(l);
    var s, o, t, c := [Chars("\n" + l.indent)], [Open(l.name, [])], TextTokens(Meaning(l.content)), [Close(l.name)];
    assert LineTokens(l) == s + o + t + c;
    forall open: seq<string> | open != []
      ensures Nest(LinesTokens([l]), open) == Some(open)
    {
      var inner := open + [l.name];
      NestOne(s[0], open);
      NestOne(o[0], open);
      NestOne(Chars(Meaning(l.content)), inner);
      NestClose(l.name, open);
      NestConcat(s, o, open);
      NestConcat(s + o, t, open);
      NestConcat(s + o + t, c, open);
    }
    assert [l][0] == l;
  }

  lemma ReadsEmpty(l: Line)
    requires l.EmptyLine?
    ensures Reads([l], AttrsReadable(l.attrs))
  {
    hide LinesTokens, Nest, Meant, AttrsReadable;
    OneLine(l);
    var s, t := Chars("\n" + l.indent), Empty(l.name, Meant(l.attrs));
    forall open: seq<string> | open != []
      ensures Nest(LinesTokens([l]), open) == Some(open)
    {
      NestOne(s, open);
      NestOne(t, open);
      NestConcat([s], [t], open);
    }
    assert [l][0] == l;
  }

  /** Lines between an opening and a closing tag: what is opened is closed again. */
  lemma NestBlock(first: Line, inner: seq<Line>, ok: bool, last: Line, open: seq<string>)
    requires first.OpenLine? && last.CloseLine? && first.name == last.name && Reads(inner, ok) && open != []
    ensures Nest(LinesTokens([first] + inner + [last]), open) == Some(open)
  {
    hide Nest, LinesTokens, LineReadable, Meant;
    OneLine(first);
    OneLine(last);
    TokensConcat([first], inner);
    TokensConcat([first] + inner, [last]);
    var s, o, e, c := Chars("\n" + first.indent), Open(first.name, Meant(first.attrs)), Chars("\n" + last.indent), Close(last.name);
    var within := open + [first.name];
    NestOne(s, open);
    NestOne(o, open);
    NestConcat([s], [o], open);
    NestConcat(LinesTokens([first]), LinesTokens(inner), open);
    NestOne(e, within);
    NestClose(last.name, open);
    NestConcat([e], [c], within);
    NestConcat(LinesTokens([first] + inner), LinesTokens([last]), open);
  }

  lemma ReadsBetween(first: Line, inner: seq<Line>, ok: bool, last: Line)
    requires first.OpenLine? && first.name[0] == 'o' && last.CloseLine? && first.name == last.name && Reads(inner, ok)
    ensures Reads([first] + inner + [last], AttrsReadable(first.attrs) && ok)
  {
    hide Nest, LinesTokens, AttrsReadable;
    var ls := [first] + inner + [last];
    forall open: seq<string> | open != []
      ensures Nest(LinesTokens(ls), open) == Some(open)
    {
      NestBlock(first, inner, ok, last, open);
    }
    assert ls[0] == first && ls[|ls| - 1] == last && forall i | 0 <= i < |inner| :: ls[1 + i] == inner[i];
  }

  /** A block of lines in its own pair of tags. */
  lemma ReadsBlock(indent: nat, s: Section, attrs: AttrList, inner: seq<Line>, ok: bool)
    requires Reads(inner, ok)
    ensures Reads([OpenTag(indent, s, attrs)] + inner + [CloseTag(indent, s)], AttrsReadable(attrs) && ok)
  {
    hide Reads, AttrsReadable, SectionName;
    ReadsBetween(OpenTag(indent, s, attrs), inner, ok, CloseTag(indent, s));
  }

  lemma ReadsNothing()
    ensures Reads([], true)
  {
  }

  lemma {:induction false} ReadsBlocks(bs: seq<seq<Line>>, ok: nat -> bool)
    requires forall i | 0 <= i < |bs| :: Reads(bs[i], ok(i))
    ensures Reads(Flatten(bs), forall i | 0 <= i < |bs| :: ok(i))
  {
    hide Reads;
    if bs == [] {
      ReadsNothing();
    } else {
      var n := |bs| - 1;
      ReadsBlocks(bs[..n], ok);
      ReadsConcat(Flatten(bs[..n]), forall i | 0 <= i < n :: ok(i), bs[n], ok(n));
      assert (forall i | 0 <= i < |bs| :: ok(i)) <==> (forall i | 0 <= i < n :: ok(i)) && ok(n);
    }
  }

  /** The same for lines, one by one. */
  lemma {:induction false} ReadsLines(ls: seq<Line>, ok: nat -> bool)
    requires forall i | 0 <= i < |ls| :: Reads([ls[i]], ok(i))
    ensures Reads(ls, forall i | 0 <= i < |ls| :: ok(i))
  {
    hide Reads;
    if ls == [] {
      ReadsNothing();
    } else {
      var n := |ls| - 1;
      ReadsLines(ls[..n], ok);
      ReadsConcat(ls[..n], forall i | 0 <= i < n :: ok(i), [ls[n]], ok(n));
      assert ls == ls[..n] + [ls[n]];
      assert (forall i | 0 <= i < |ls| :: ok(i)) <==> (forall i | 0 <= i < n :: ok(i)) && ok(n);
    }
  }

  // ---- Sections

  predicate FileClean(config: VmxConfig, disks: seq<DiskInfo>, i: nat) {
    i < |disks| ==> PlainValue(FileName(config, i)) && PlainValue(disks[i].fileRef)
  }

  lemma FileReads(name: string, disk: DiskInfo)
    ensures AttrsReadable(FileAttrs(name, disk))
       <==> PlainValue(name) && PlainValue(disk.fileRef)
    ensures AttrsReadable(DiskAttrs(disk))
       <==> PlainValue(disk.fileRef) && CleanValue(disk.id)
  {
    hide PlainValue, CleanValue, AttributeName, Words, Url;
    var file, row := FileAttrs(name, disk), DiskAttrs(disk);
    assert AttrsReadable(file) <==> Readable(file[0].content) && Readable(file[1].content) && Readable(file[2].content);
    assert row[2].content == Esc(disk.id) && row[3].content == Verbatim(disk.fileRef);
    assert AttrsReadable(row) <==> Readable(row[2].content) && Readable(row[3].content);
  }

  lemma ReferencesReads(config: VmxConfig, disks: seq<DiskInfo>)
    ensures Reads(ReferencesLines(config, disks), forall i | 0 <= i < |disks| :: FileClean(config, disks, i))
  {
    hide Reads, FileAttrs, FileName, AttrsReadable, SectionName, PlainValue;
    var ls, ok := FileLines(config, disks), (i: nat) => FileClean(config, disks, i);
    forall i | 0 <= i < |ls|
      ensures Reads([ls[i]], ok(i))
    {
      FileReads(FileName(config, i), disks[i]);
      ReadsEmpty(ls[i]);
    }
    ReadsLines(ls, ok);
    ReadsBlock(2, References, [], ls, forall i | 0 <= i < |ls| :: ok(i));
    NoAttrsNeeded();
    assert (forall i | 0 <= i < |ls| :: ok(i)) <==> forall i | 0 <= i < |disks| :: FileClean(config, disks, i);
  }

  lemma NoAttrsNeeded()
    ensures AttrsReadable([])
  {
  }

  predicate DiskClean(disks: seq<DiskInfo>, i: nat) {
    i < |disks| ==> PlainValue(disks[i].fileRef) && CleanValue(disks[i].id)
  }

  lemma DiskSectionReads(disks: seq<DiskInfo>)
    ensures Reads(DiskSectionLines(disks), forall i | 0 <= i < |disks| :: DiskClean(disks, i))
  {
    hide Reads, DiskAttrs, AttrsReadable, SectionName, PlainValue, CleanValue, Words;
    var ls, ok := DiskLines(disks), (i: nat) => DiskClean(disks, i);
    forall i | 0 <= i < |ls|
      ensures Reads([ls[i]], ok(i))
    {
      FileReads("", disks[i]);
      ReadsEmpty(ls[i]);
    }
    ReadsLines(ls, ok);
    var info, all := Elem(4, Info, Say(DiskInfoText)), forall i | 0 <= i < |ls| :: ok(i);
    ReadsElement(info);
    ReadsConcat([info], true, ls, all);
    ReadsBlock(2, DiskSection, [], [info] + ls, all);
    NoAttrsNeeded();
    assert DiskSectionLines(disks) == [OpenTag(2, DiskSection, [])] + ([info] + ls) + [CloseTag(2, DiskSection)];
    assert all <==> forall i | 0 <= i < |disks| :: DiskClean(disks, i);
  }

  /** A clean value is clean text. */
  lemma CleanBoth(s: string)
    ensures CleanValue(s) ==> CleanText(s)
  {
  }

  lemma NetworkReads(name: Inner, text: Inner)
    ensures Reads([OpenTag(4, Network, AttrsOf([NetworkName], [name])), Elem(6, SectionDescription, text), CloseTag(4, Network)],
                  Readable(name) && TextReadable(text))
  {
    hide Reads, SectionName, Readable, TextReadable, With;
    var attrs, inner := AttrsOf([NetworkName], [name]), Elem(6, SectionDescription, text);
    ReadsElement(inner);
    ReadsBlock(4, Network, attrs, [inner], TextReadable(text));
    OneAttrReadable(NetworkName, name);
    assert [OpenTag(4, Network, attrs), inner, CloseTag(4, Network)] == [OpenTag(4, Network, attrs)] + [inner] + [CloseTag(4, Network)];
  }

  lemma OneAttrReadable(a: Attribute, c: Content)
    ensures AttrsReadable(AttrsOf([a], [c])) <==> Readable(c)
  {
    hide AttributeName, Readable;
    assert AttrsOf([a], [c])[0].content == c;
  }

  predicate NetworkClean(config: VmxConfig, i: nat) {
    i < |config.networks| ==> CleanValue(NetworkOf(config.networks[i]))
  }

  lemma NetworkSectionReads(config: VmxConfig)
    ensures Reads(NetworkSectionLines(config), forall i | 0 <= i < |config.networks| :: NetworkClean(config, i))
  {
    hide Reads, Words, Flatten, CleanValue, CleanText, NetworkOf, SectionName, AttrsOf, AttrsReadable;
    var blocks, ok := NetworkBlocks(config), (i: nat) => NetworkClean(config, i);
    forall i | 0 <= i < |blocks|
      ensures Reads(blocks[i], ok(i))
    {
      if config.networks == [] {
        NetworkReads(Say(VmNetwork), Say(TheNetwork));
      } else {
        var name := NetworkOf(config.networks[i]);
        CleanBoth(name);
        NetworkReads(Esc(name), Escaped(Words(The), name, Words(AfterThe)));
      }
    }
    ReadsBlocks(blocks, ok);
    var info, all := Elem(4, Info, Say(NetworkInfo)), forall i | 0 <= i < |blocks| :: ok(i);
    ReadsElement(info);
    ReadsConcat([info], true, Flatten(blocks), all);
    ReadsBlock(2, NetworkSection, [], [info] + Flatten(blocks), all);
    NoAttrsNeeded();
    assert NetworkSectionLines(config)
        == [OpenTag(2, NetworkSection, [])] + ([info] + Flatten(blocks)) + [CloseTag(2, NetworkSection)];
    if config.networks == [] {
      assert all;
    } else if all {
      forall i | 0 <= i < |config.networks|
        ensures NetworkClean(config, i)
      {
        assert ok(i);
      }
    }
  }

  predicate EntriesReadable(es: seq<Entry>) {
    forall i | 0 <= i < |es| :: TextReadable(es[i].content)
  }

  lemma ItemReads(item: HardwareItem)
    ensures Reads(ItemLines(item), EntriesReadable(item.entries))
  {
    hide Reads, Tag, TextReadable, SectionName, AttrsReadable;
    var ls, es := EntryLines(item.entries), item.entries;
    var ok := (i: nat) => i < |es| ==> TextReadable(es[i].content);
    forall i | 0 <= i < |ls|
      ensures Reads([ls[i]], ok(i))
    {
      ReadsElement(ls[i]);
    }
    ReadsLines(ls, ok);
    ReadsBlock(6, item.wrapper, [], ls, forall i | 0 <= i < |ls| :: ok(i));
    NoAttrsNeeded();
    assert (forall i | 0 <= i < |ls| :: ok(i)) <==> EntriesReadable(es);
  }

  lemma FixedItemsReadable(config: VmxConfig)
    ensures EntriesReadable(SystemItem(config).entries)
       <==> CleanText(config.displayName)
    ensures EntriesReadable(CpuItem(config).entries) && EntriesReadable(MemoryItem(config).entries)
    ensures EntriesReadable(ScsiItem().entries) && EntriesReadable(DefaultNetworkItem(config).entries)
  {
    hide Words, CleanText;
    assert SystemItem(config).entries[2].content == Esc(config.displayName);
  }

  lemma DiskItemReadable(index: nat, disk: DiskInfo)
    ensures EntriesReadable(DiskItem(index, disk).entries)
       <==> CleanText(disk.id)
  {
    hide Words, CleanText;
    assert DiskItem(index, disk).entries[3].content == Escaped(Words(DiskPath), disk.id, Words(Nothing));
  }

  lemma NetworkItemReadable(config: VmxConfig, i: nat)
    requires i < |config.networks|
    ensures EntriesReadable(NetworkItem(config, i).entries)
       <==> CleanText(NetworkOf(config.networks[i])) && CleanText(DeviceOf(config.networks[i]))
  {
    hide Words, CleanText, NetworkOf, DeviceOf;
    var es := NetworkItem(config, i).entries;
    assert es[2].content == Esc(NetworkOf(config.networks[i])) && es[6].content == Esc(DeviceOf(config.networks[i]));
  }

  /** The strings that the hardware section shows. */
  predicate HardwareClean(config: VmxConfig, disks: seq<DiskInfo>) {
    && CleanText(config.displayName)
    && (forall i | 0 <= i < |disks| :: CleanText(disks[i].id))
    && (forall n | n in config.networks :: CleanText(NetworkOf(n)) && CleanText(DeviceOf(n)))
  }

  lemma ItemsReadable(config: VmxConfig, disks: seq<DiskInfo>)
    ensures (forall k | 0 <= k < |Items(config, disks)| :: EntriesReadable(Items(config, disks)[k].entries))
       <==> HardwareClean(config, disks)
  {
    hide Items, Words, SystemItem, CpuItem, MemoryItem, ScsiItem, DiskItem, NetworkItem, DefaultNetworkItem, EntriesReadable,
         CleanText, NetworkOf, DeviceOf;
    var all, n := Items(config, disks), 4 + |disks|;
    ItemsAt(config, disks);
    FixedItemsReadable(config);
    forall i | 0 <= i < |disks|
      ensures EntriesReadable(all[4 + i].entries) <==> CleanText(disks[i].id)
    {
      DiskItemReadable(i, disks[i]);
    }
    forall i | 0 <= i < |config.networks|
      ensures EntriesReadable(all[n + i].entries)
         <==> CleanText(NetworkOf(config.networks[i])) && CleanText(DeviceOf(config.networks[i]))
    {
      NetworkItemReadable(config, i);
    }
    if HardwareClean(config, disks) {
      forall k | 0 <= k < |all|
        ensures EntriesReadable(all[k].entries)
      {
        if 4 <= k < n {
          assert CleanText(disks[k - 4].id);
          assert EntriesReadable(all[4 + (k - 4)].entries);
        } else if k >= n && config.networks != [] {
          assert config.networks[k - n] in config.networks;
          assert EntriesReadable(all[n + (k - n)].entries);
        }
      }
    }
  }

  lemma HardwareReads(config: VmxConfig, disks: seq<DiskInfo>)
    ensures Reads(HardwareLines(config, disks), HardwareClean(config, disks))
  {
    hide Reads, Words, SectionName, Flatten, Items, ItemLines, EntriesReadable, HardwareClean, AttrsReadable;
    var items := Items(config, disks);
    var blocks, ok := ItemBlocks(items), (i: nat) => i < |items| ==> EntriesReadable(items[i].entries);
    forall i | 0 <= i < |blocks|
      ensures Reads(blocks[i], ok(i))
    {
      ItemReads(items[i]);
    }
    ReadsBlocks(blocks, ok);
    var info, all := Elem(6, Info, Say(HardwareInfo)), forall i | 0 <= i < |blocks| :: ok(i);
    ReadsElement(info);
    ReadsConcat([info], true, Flatten(blocks), all);
    ReadsBlock(4, VirtualHardwareSection, [], [info] + Flatten(blocks), all);
    NoAttrsNeeded();
    ItemsReadable(config, disks);
    assert all <==> HardwareClean(config, disks);
    assert HardwareLines(config, disks)
        == [OpenTag(4, VirtualHardwareSection, [])] + ([info] + Flatten(blocks)) + [CloseTag(4, VirtualHardwareSection)];
  }

  lemma OsReads(config: VmxConfig)
    ensures Reads(OsLines(config), CleanText(config.guestOs))
  {
    hide Reads, Words, AttributeName, CleanText, SectionName, GuestOs.KindOf, GuestOs.OsId, GuestOs.OsTypeName;
    var open, info, text, close := OsLines(config)[0], OsLines(config)[1], OsLines(config)[2], OsLines(config)[3];
    ReadsElement(info);
    ReadsElement(text);
    ReadsConcat([info], true, [text], CleanText(config.guestOs));
    assert AttrsReadable(open.attrs);
    ReadsBlock(4, OperatingSystemSection, open.attrs, [info] + [text], CleanText(config.guestOs));
    assert OsLines(config) == [open] + ([info] + [text]) + [close];
  }

  /** Sanitising makes any name fit for an attribute. */
  lemma IdIsClean(s: string, alphanumeric: Alphanumeric)
    ensures CleanValue(SanitizeId(s, alphanumeric))
  {
  }

  lemma VirtualSystemReads(config: VmxConfig, disks: seq<DiskInfo>, alphanumeric: Alphanumeric)
    ensures Reads(VirtualSystemLines(config, disks, alphanumeric), CleanText(config.guestOs) && HardwareClean(config, disks))
  {
    hide Reads, Words, AttrsOf, OsLines, HardwareLines, SanitizeId, CleanText, CleanValue, SectionName, AttrsReadable;
    var head, os, hardware := SystemHead(config, alphanumeric), OsLines(config), HardwareLines(config, disks);
    var open, info, name := head[0], head[1], head[2];
    var shown, guest := CleanText(config.displayName), CleanText(config.guestOs);
    ReadsElement(info);
    ReadsElement(name);
    ReadsConcat([info], true, [name], shown);
    OsReads(config);
    ReadsConcat([info] + [name], shown, os, guest);
    HardwareReads(config, disks);
    ReadsConcat([info] + [name] + os, shown && guest, hardware, HardwareClean(config, disks));
    IdIsClean(config.displayName, alphanumeric);
    OneAttrReadable(Id, Esc(SanitizeId(config.displayName, alphanumeric)));
    var inner := [info] + [name] + os + hardware;
    ReadsBlock(2, VirtualSystem, open.attrs, inner, shown && guest && HardwareClean(config, disks));
    assert VirtualSystemLines(config, disks, alphanumeric) == [open] + inner + [CloseTag(2, VirtualSystem)];
  }

  /** Exactly the strings that readers can recover: names and references that go in unescaped are plain, ids and networks
      are fit for attributes, and the other strings for text. */
  predicate DocumentClean(config: VmxConfig, disks: seq<DiskInfo>) {
    && CleanText(config.displayName) && CleanText(config.guestOs)
    && (forall i | 0 <= i < |disks| ::
          PlainValue(FileName(config, i)) && PlainValue(disks[i].fileRef) && CleanValue(disks[i].id))
    && (forall n | n in config.networks :: CleanValue(NetworkOf(n)) && CleanText(DeviceOf(n)))
  }

  /** Everything inside the envelope. */
  function Sections(config: VmxConfig, disks: seq<DiskInfo>, alphanumeric: Alphanumeric): seq<Line> {
    ReferencesLines(config, disks) + DiskSectionLines(disks) + NetworkSectionLines(config)
    + VirtualSystemLines(config, disks, alphanumeric)
  }

  lemma SectionsRead(config: VmxConfig, disks: seq<DiskInfo>, alphanumeric: Alphanumeric)
    ensures Reads(Sections(config, disks, alphanumeric), DocumentClean(config, disks))
  {
    hide Reads, ReferencesLines, DiskSectionLines, NetworkSectionLines, VirtualSystemLines, FileClean, DiskClean, NetworkClean,
         HardwareClean, CleanText, DocumentClean;
    var r, d, n := ReferencesLines(config, disks), DiskSectionLines(disks), NetworkSectionLines(config);
    var files, rows := forall i | 0 <= i < |disks| :: FileClean(config, disks, i), forall i | 0 <= i < |disks| :: DiskClean(disks, i);
    var networks := forall i | 0 <= i < |config.networks| :: NetworkClean(config, i);
    var machine := CleanText(config.guestOs) && HardwareClean(config, disks);
    ReferencesReads(config, disks);
    DiskSectionReads(disks);
    NetworkSectionReads(config);
    VirtualSystemReads(config, disks, alphanumeric);
    ReadsConcat(r, files, d, rows);
    ReadsConcat(r + d, files && rows, n, networks);
    ReadsConcat(r + d + n, files && rows && networks, VirtualSystemLines(config, disks, alphanumeric), machine);
    CleanParts(config, disks);
  }

  lemma CleanParts(config: VmxConfig, disks: seq<DiskInfo>)
    ensures DocumentClean(config, disks)
       <==> && (forall i | 0 <= i < |disks| :: FileClean(config, disks, i))
            && (forall i | 0 <= i < |disks| :: DiskClean(disks, i))
            && (forall i | 0 <= i < |config.networks| :: NetworkClean(config, i))
            && CleanText(config.guestOs) && HardwareClean(config, disks)
  {
    hide PlainValue, CleanValue, CleanText, FileName, NetworkOf, DeviceOf;
    forall s: string
      ensures CleanValue(s) ==> CleanText(s)
    {
      CleanBoth(s);
    }
    if && (forall i | 0 <= i < |disks| :: FileClean(config, disks, i)) && (forall i | 0 <= i < |disks| :: DiskClean(disks, i))
       && (forall i | 0 <= i < |config.networks| :: NetworkClean(config, i)) {
      forall i | 0 <= i < |disks|
        ensures PlainValue(FileName(config, i)) && PlainValue(disks[i].fileRef) && CleanValue(disks[i].id)
      {
        assert FileClean(config, disks, i) && DiskClean(disks, i);
      }
      forall i | 0 <= i < |config.networks|
        ensures CleanValue(NetworkOf(config.networks[i]))
      {
        assert NetworkClean(config, i);
      }
    }
  }

  lemma DocumentParts(config: VmxConfig, disks: seq<DiskInfo>, alphanumeric: Alphanumeric)
    ensures DocumentLines(config, disks, alphanumeric)
         == [EnvelopeLine()] + Sections(config, disks, alphanumeric) + [CloseTag(0, Envelope)]
  {
    hide EnvelopeLine, ReferencesLines, DiskSectionLines, NetworkSectionLines, VirtualSystemLines, CloseTag;
  }

  /** What the document is meant to say, to its last line end. */
  function DocumentTokens(config: VmxConfig, disks: seq<DiskInfo>, alphanumeric: Alphanumeric): seq<Token> {
    LinesTokens(DocumentLines(config, disks, alphanumeric)) + LAST
  }

  /** The tokens meant are one well-nested element, and every generated line is readable exactly under the conditions. */
  lemma DocumentSound(config: VmxConfig, disks: seq<DiskInfo>, alphanumeric: Alphanumeric)
    ensures OneRoot(DocumentTokens(config, disks, alphanumeric))
    ensures Reads(DocumentLines(config, disks, alphanumeric), DocumentClean(config, disks))
  {
    hide EnvelopeAttrs, Sections, DocumentLines, Reads, SectionName, AttrsReadable, DocumentClean, OneRoot;
    SectionsRead(config, disks, alphanumeric);
    DocumentParts(config, disks, alphanumeric);
    EnvelopeReadable();
    ReadsBetween(EnvelopeLine(), Sections(config, disks, alphanumeric), DocumentClean(config, disks), CloseTag(0, Envelope));
    RootOfBlock(EnvelopeLine(), Sections(config, disks, alphanumeric), DocumentClean(config, disks), CloseTag(0, Envelope));
  }

  lemma EnvelopeReadable()
    ensures AttrsReadable(EnvelopeAttrs())
  {
    hide AttributeName, Url;
  }

  /** One block of lines is one element. */
  lemma RootOfBlock(first: Line, inner: seq<Line>, ok: bool, last: Line)
    requires first.OpenLine? && last.CloseLine? && first.name == last.name && Reads(inner, ok)
    requires first.indent == ""
    ensures OneRoot(LinesTokens([first] + inner + [last]) + LAST)
  {
    hide Nest, LinesTokens, LineReadable, Meant;
    OneLine(first);
    OneLine(last);
    TokensConcat([first], inner);
    TokensConcat([first] + inner, [last]);
    var o, name := Open(first.name, Meant(first.attrs)), first.name;
    var body, end := LinesTokens(inner), [Chars("\n" + last.indent), Close(name)];
    NestOne(end[0], [name]);
    NestClose(name, []);
    assert [] + [name] == [name];
    NestConcat([end[0]], [end[1]], [name]);
    assert [end[0]] + [end[1]] == end;
    NestConcat(body, end, [name]);
    LastOutside();
    NestConcat(body + end, LAST, [name]);
    var ts := LinesTokens([first] + inner + [last]) + LAST;
    assert ts == [Chars("\n" + "")] + ([o] + (body + end + LAST));
    assert ts[0] == Chars("\n") && ts[1..][0] == o && ts[1..][1..] == body + end + LAST;
  }

  lemma LastOutside()
    ensures Nest(LAST, []) == Some([]) && Blank("\n")
  {
  }

  // ---- The document

  /** An XML reader sees exactly the document that was meant, as one well-nested element, if and only if file names and
      references, which go in unescaped, are plain, and no other string holds a character that its place cannot show. */
  lemma DocumentReadsIff(config: VmxConfig, disks: seq<DiskInfo>, alphanumeric: Alphanumeric)
    ensures ReadXml(DocumentText(config, disks, alphanumeric)) == Some(DocumentTokens(config, disks, alphanumeric))
       <==> DocumentClean(config, disks)
  {
    hide LinesText, LinesTokens, DocumentLines, DocumentClean, LineReadable, OneRoot, ReadTokens;
    var ls := DocumentLines(config, disks, alphanumeric);
    DocumentSound(config, disks, alphanumeric);
    LinesExact(ls);
    var doc := DocumentText(config, disks, alphanumeric);
    assert PROLOG <= doc && doc[|PROLOG|..] == "\n" + LinesText(ls);
  }

  /** A disk called R&D.vmdk makes the descriptor unreadable as meant, whatever else it describes. */
  lemma AmpersandNameFails(config: VmxConfig, disks: seq<DiskInfo>, alphanumeric: Alphanumeric)
    requires disks != [] && FileName(config, 0) == "R&D.vmdk"
    ensures ReadXml(DocumentText(config, disks, alphanumeric)) != Some(DocumentTokens(config, disks, alphanumeric))
  {
    hide DocumentText, DocumentTokens, ReadXml;
    assert "R&D.vmdk"[1] == '&';
    assert !PlainValue(FileName(config, 0));
    DocumentReadsIff(config, disks, alphanumeric);
  }

  lemma {:induction false} LinesLegal(ls: seq<Line>, k: nat)
    requires k < |ls| && XmlChars(LinesText(ls))
    ensures XmlChars(LineText(ls[k]))
  {
    hide LineText, XmlChars;
    LegalConcat(LineText(ls[0]), LinesText(ls[1..]));
    if k > 0 {
      LinesLegal(ls[1..], k - 1);
    }
  }

  /** Escaping does not help a character outside XML. */
  lemma IllegalElement(l: Line)
    requires l.ElementLine? && l.content.Escaped? && !XmlChars(l.content.s)
    ensures !XmlChars(LineText(l))
  {
    var i :| 0 <= i < |l.content.s| && !XmlChar(l.content.s[i]);
    var c := l.content;
    OddCharsStay(c.s, c.s[i]);
    var j :| 0 <= j < |EscapeXml(c.s)| && EscapeXml(c.s)[j] == c.s[i];
    hide EscapeXml, XmlChars, NameOk;
    var tail := "</" + (l.name + ">\n");
    assert !XmlChars(EscapeXml(c.s)) by { IllegalAt(EscapeXml(c.s), j); }
    LegalConcat(EscapeXml(c.s), c.after);
    LegalConcat(c.words, EscapeXml(c.s) + c.after);
    LegalConcat(Raw(c), tail);
    LegalConcat(">", Raw(c) + tail);
    LegalConcat(l.name, ">" + (Raw(c) + tail));
    LegalConcat("<", l.name + (">" + (Raw(c) + tail)));
    LegalConcat(l.indent, "<" + (l.name + (">" + (Raw(c) + tail))));
  }

  lemma IllegalAt(s: string, i: nat)
    requires i < |s| && !XmlChar(s[i])
    ensures !XmlChars(s)
  {
  }

  /** A display name with a character outside XML makes the descriptor unreadable altogether. */
  lemma IllegalNameUnreadable(config: VmxConfig, disks: seq<DiskInfo>, alphanumeric: Alphanumeric)
    requires !XmlChars(config.displayName)
    ensures ReadXml(DocumentText(config, disks, alphanumeric)) == None
  {
    hide LinesText, LineText, ReadXml, XmlChars, SectionName, EnvelopeLine, ReferencesLines, DiskSectionLines,
         NetworkSectionLines, OsLines, HardwareLines, CloseTag, OpenTag, Words, PROLOG;
    var ls, l := DocumentLines(config, disks, alphanumeric), Elem(4, SystemName, Esc(config.displayName));
    assert l == SystemHead(config, alphanumeric)[2];
    assert l in VirtualSystemLines(config, disks, alphanumeric);
    assert l in ls;
    var k :| 0 <= k < |ls| && ls[k] == l;
    IllegalElement(l);
    if XmlChars(LinesText(ls)) {
      LinesLegal(ls, k);
    }
    LegalConcat("\n", LinesText(ls));
    LegalConcat(PROLOG, "\n" + LinesText(ls));
    IllegalUnreadable(DocumentText(config, disks, alphanumeric));
  }

  /** For instance a name with the control character U+0001 in it. */
  lemma ControlNameFails(config: VmxConfig, disks: seq<DiskInfo>, alphanumeric: Alphanumeric)
    requires config.displayName == "a\U{0001}b"
    ensures !DocumentClean(config, disks) && ReadXml(DocumentText(config, disks, alphanumeric)) == None
  {
    hide DocumentText, ReadXml;
    assert !XmlChar(config.displayName[1]);
    IllegalNameUnreadable(config, disks, alphanumeric);
  }
}
