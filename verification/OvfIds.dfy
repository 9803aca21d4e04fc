/** Instance ids and host resources, read from the tokens of a descriptor. */
module OvfIds {
  import Bytes
  import opened Text
  import opened XmlReader
  import opened XmlWriter
  import opened OvfNames
  import opened OvfVocabulary
  import opened Ovf
  import opened OvfDocument

  // ---- Values by line

  function LineValues(l: Line, name: string): seq<string> {
    if l.ElementLine? && l.name == name then [Meaning(l.content)] else []
  }

  function AllValues(ls: seq<Line>, name: string): seq<string> {
    if ls == [] then [] else LineValues(ls[0], name) + AllValues(ls[1..], name)
  }

  lemma ValuesCons(t: Token, rest: seq<Token>, name: string)
    ensures Values([t] + rest, name) == (if t.Open? && t.name == name then [TextAt(rest)] else []) + Values(rest, name)
  {
    assert ([t] + rest)[1..] == rest;
  }

  lemma LineValuesRead(l: Line, rest: seq<Token>, name: string)
    requires !(l.OpenLine? && l.name == name)
    ensures Values(LineTokens(l) + rest, name)
         == LineValues(l, name) + Values(rest, name)
  {
    hide Values, Meaning, Meant;
    var s := Chars("\n" + l.indent);
    if l.ElementLine? {
      var text, close := TextTokens(Meaning(l.content)), [Close(l.name)] + rest;
      assert LineTokens(l) + rest == [s] + ([Open(l.name, [])] + (text + close));
      ValuesCons(s, [Open(l.name, [])] + (text + close), name);
      ValuesCons(Open(l.name, []), text + close, name);
      ValuesCons(Close(l.name), rest, name);
      if Meaning(l.content) == "" {
        assert text + close == close;
      } else {
        assert text + close == [Chars(Meaning(l.content))] + close;
        ValuesCons(Chars(Meaning(l.content)), close, name);
      }
      assert [] + Values(rest, name) == Values(rest, name);
    } else {
      var tag := LineTokens(l)[1];
      assert LineTokens(l) + rest == [s] + ([tag] + rest);
      ValuesCons(s, [tag] + rest, name);
      ValuesCons(tag, rest, name);
    }
  }

  /** The values in a document are those of its lines, for names that only stand on element lines. */
  lemma {:induction false} ValuesRead(ls: seq<Line>, name: string)
    requires forall i | 0 <= i < |ls| :: !(ls[i].OpenLine? && ls[i].name == name)
    ensures Values(LinesTokens(ls) + LAST, name) == AllValues(ls, name)
  {
    if ls == [] {
      assert LinesTokens(ls) + LAST == [LAST[0]] + [];
      ValuesCons(LAST[0], [], name);
    } else {
      hide Values, LineTokens, LineValues;
      ValuesRead(ls[1..], name);
      LineValuesRead(ls[0], LinesTokens(ls[1..]) + LAST, name);
      Bytes.Assoc(LineTokens(ls[0]), LinesTokens(ls[1..]), LAST);
    }
  }

  lemma {:induction false} ValuesConcat(a: seq<Line>, b: seq<Line>, name: string)
    ensures AllValues(a + b, name) == AllValues(a, name) + AllValues(b, name)
    decreases |a|
  {
    hide LineValues;
    if a == [] {
      assert a + b == b;
    } else {
      ValuesConcat(a[1..], b, name);
      assert (a + b)[1..] == a[1..] + b;
      Bytes.Assoc(LineValues(a[0], name), AllValues(a[1..], name), AllValues(b, name));
    }
  }

  /** Lines with other names contribute nothing. */
  lemma {:induction false} NoValues(ls: seq<Line>, name: string)
    requires forall i | 0 <= i < |ls| :: ls[i].name != name
    ensures AllValues(ls, name) == []
  {
    if ls != [] {
      NoValues(ls[1..], name);
    }
  }

  // ---- Items

  /** The elements read back. */
  type Query = e: Element | e == InstanceId || e == HostResource || e == SystemInstanceId || e == Connection witness InstanceId

  /** The texts an item shows for an element. */
  function ShownBy(es: seq<Entry>, q: Query): seq<string> {
    if es == [] then [] else (if es[0].e == q then [Meaning(es[0].content)] else []) + ShownBy(es[1..], q)
  }

  lemma {:induction false} EntriesShow(es: seq<Entry>, q: Query)
    ensures AllValues(EntryLines(es), Tag(q)) == ShownBy(es, q)
  {
    if es != [] {
      hide Tag, Meaning;
      EntriesShow(es[1..], q);
      assert EntryLines(es)[1..] == EntryLines(es[1..]);
      if es[0].e != q {
        TagsDiffer(es[0].e, q);
      }
    }
  }

  lemma ItemShows(item: HardwareItem, q: Query)
    ensures AllValues(ItemLines(item), Tag(q)) == ShownBy(item.entries, q)
  {
    hide AllValues, Tag, SectionName, ShownBy;
    var open, close, inner := [OpenTag(6, item.wrapper, [])], [CloseTag(6, item.wrapper)], EntryLines(item.entries);
    NoValues(open, Tag(q));
    NoValues(close, Tag(q));
    EntriesShow(item.entries, q);
    ValuesConcat(open, inner, Tag(q));
    ValuesConcat(open + inner, close, Tag(q));
  }

  lemma {:induction false} NoneShown(es: seq<Entry>, q: Query)
    requires forall i | 0 <= i < |es| :: es[i].e != q
    ensures ShownBy(es, q) == []
  {
    if es != [] {
      NoneShown(es[1..], q);
    }
  }

  lemma {:induction false} OneShown(es: seq<Entry>, q: Query, k: nat)
    requires k < |es| && es[k].e == q && forall i | 0 <= i < |es| && i != k :: es[i].e != q
    ensures ShownBy(es, q) == [Meaning(es[k].content)]
  {
    hide Meaning;
    if k > 0 {
      OneShown(es[1..], q, k - 1);
    } else {
      NoneShown(es[1..], q);
    }
  }

  lemma NumberShown(n: nat)
    ensures Meaning(Num(n)) == Decimal(n)
  {
    hide Decimal;
    assert "" + Decimal(n) == Decimal(n);
  }

  lemma PathShown(id: string)
    ensures Meaning(Escaped(Words(DiskPath), id, Words(Nothing)))
         == DISK_PATH + id
  {
    assert id + "" == id;
  }

  lemma StringShown(s: string)
    ensures Meaning(Esc(s)) == s
  {
    assert "" + (s + "") == s;
  }

  /** The networks that adapters are connected to, one for each adapter. */
  function Networks(config: VmxConfig): (names: seq<string>)
    ensures config.networks == [] ==> names == [Words(VmNetwork)]
    ensures config.networks != [] ==>
              |names| == |config.networks| && forall i | 0 <= i < |names| :: names[i] == NetworkOf(config.networks[i])
  {
    if config.networks == [] then [Words(VmNetwork)]
    else seq(|config.networks|, i requires 0 <= i < |config.networks| => NetworkOf(config.networks[i]))
  }

  lemma ItemCount(config: VmxConfig, disks: seq<DiskInfo>)
    ensures |Items(config, disks)| == 4 + |disks| + |Networks(config)|
  {
    hide SystemItem, CpuItem, MemoryItem, ScsiItem, DiskItem, NetworkItem, DefaultNetworkItem, Networks;
  }

  /** The number item `k` carries: its position, shifted after the disks by the length difference of the two lists. */
  function IdAt(config: VmxConfig, disks: seq<DiskInfo>, k: nat): nat {
    if k < 4 + |disks| then k else k - |disks| + |config.disks|
  }

  /** What item `k` shows for a queried element. */
  function Shows(config: VmxConfig, disks: seq<DiskInfo>, q: Query, k: nat): seq<string> {
    if q == HostResource then if 4 <= k < 4 + |disks| then [DISK_PATH + disks[k - 4].id] else []
    else if q == Connection then
      if 4 + |disks| <= k < 4 + |disks| + |Networks(config)| then [Networks(config)[k - 4 - |disks|]] else []
    else if (q == SystemInstanceId) == (k == 0) then [Decimal(IdAt(config, disks, k))]
    else []
  }

  lemma SystemShows(config: VmxConfig, q: Query)
    ensures ShownBy(SystemItem(config).entries, q) == if q == SystemInstanceId then [Decimal(0)] else []
  {
    hide ShownBy, Meaning, Words, Num, Esc, Say, Decimal;
    NumberShown(0);
    var es := SystemItem(config).entries;
    if q == SystemInstanceId { OneShown(es, q, 1); } else { NoneShown(es, q); }
  }

  /** An item that shows nothing but its id, in place 3. */
  lemma IdShown(es: seq<Entry>, n: nat, q: Query)
    requires |es| == 6 && es[3] == Entry(InstanceId, Num(n))
    requires forall i | 0 <= i < 6 && i != 3 ::
               es[i].e != InstanceId && es[i].e != HostResource && es[i].e != SystemInstanceId && es[i].e != Connection
    ensures ShownBy(es, q) == if q == InstanceId then [Decimal(n)] else []
  {
    hide ShownBy, Meaning, Num, Decimal;
    NumberShown(n);
    if q == InstanceId { OneShown(es, q, 3); } else { NoneShown(es, q); }
  }

  lemma FixedItemsShow(config: VmxConfig, q: Query)
    ensures ShownBy(SystemItem(config).entries, q) == if q == SystemInstanceId then [Decimal(0)] else []
    ensures ShownBy(CpuItem(config).entries, q) == if q == InstanceId then [Decimal(1)] else []
    ensures ShownBy(MemoryItem(config).entries, q) == if q == InstanceId then [Decimal(2)] else []
    ensures ShownBy(ScsiItem().entries, q) == if q == InstanceId then [Decimal(3)] else []
  {
    hide ShownBy, Meaning, Words, Num, Say, Decimal, SystemItem;
    SystemShows(config, q);
    IdShown(CpuItem(config).entries, 1, q);
    IdShown(MemoryItem(config).entries, 2, q);
    IdShown(ScsiItem().entries, 3, q);
  }

  lemma DiskItemShows(index: nat, disk: DiskInfo, q: Query)
    ensures ShownBy(DiskItem(index, disk).entries, q)
         == if q == InstanceId then [Decimal(4 + index)] else if q == HostResource then [DISK_PATH + disk.id] else []
  {
    hide ShownBy, Meaning, Words, Num, Say, Decimal;
    var es := DiskItem(index, disk).entries;
    NumberShown(4 + index);
    PathShown(disk.id);
    if q == InstanceId { OneShown(es, q, 4); } else if q == HostResource { OneShown(es, q, 3); } else { NoneShown(es, q); }
  }

  lemma AdapterItemShows(id: nat, index: nat, connection: Inner, adapter: Inner, q: Query)
    ensures ShownBy(AdapterItem(id, index, connection, adapter).entries, q)
         == if q == InstanceId then [Decimal(id)] else if q == Connection then [Meaning(connection)] else []
  {
    hide ShownBy, Meaning, Words, Num, Say, Decimal;
    var es := AdapterItem(id, index, connection, adapter).entries;
    NumberShown(id);
    if q == InstanceId { OneShown(es, q, 5); } else if q == Connection { OneShown(es, q, 2); } else { NoneShown(es, q); }
  }

  lemma ItemShowsAt(config: VmxConfig, disks: seq<DiskInfo>, q: Query, k: nat)
    requires k < |Items(config, disks)|
    ensures ShownBy(Items(config, disks)[k].entries, q)
         == Shows(config, disks, q, k)
  {
    hide Items, SystemItem, CpuItem, MemoryItem, ScsiItem, DiskItem, AdapterItem, ShownBy, Decimal, Words, Esc, NetworkOf, DeviceOf,
         Networks;
    ItemsAt(config, disks);
    FixedItemsShow(config, q);
    var n := 4 + |disks|;
    if 4 <= k < n {
      assert Items(config, disks)[4 + (k - 4)] == DiskItem(k - 4, disks[k - 4]);
      DiskItemShows(k - 4, disks[k - 4], q);
    } else if k >= n {
      if config.networks == [] {
        AdapterItemShows(4 + |config.disks|, 0, Say(VmNetwork), Say(E1000), q);
      } else {
        var i := k - n;
        assert Items(config, disks)[n + i] == NetworkItem(config, i);
        StringShown(NetworkOf(config.networks[i]));
        AdapterItemShows(4 + |config.disks| + i, i, Esc(NetworkOf(config.networks[i])), Esc(DeviceOf(config.networks[i])), q);
      }
    }
  }

  /** Values shown by the first `k` items. */
  function FirstShow(config: VmxConfig, disks: seq<DiskInfo>, q: Query, k: nat): seq<string> {
    if k == 0 then [] else FirstShow(config, disks, q, k - 1) + Shows(config, disks, q, k - 1)
  }

  lemma {:induction false} BlocksShow(config: VmxConfig, disks: seq<DiskInfo>, q: Query, k: nat)
    requires k <= |Items(config, disks)|
    ensures AllValues(Flatten(ItemBlocks(Items(config, disks))[..k]), Tag(q))
         == FirstShow(config, disks, q, k)
  {
    hide Items, AllValues, Tag, Shows, ItemLines;
    var items := Items(config, disks);
    var blocks := ItemBlocks(items);
    if k == 0 {
      NoValues([], Tag(q));
    } else {
      BlocksShow(config, disks, q, k - 1);
      assert blocks[..k][..k - 1] == blocks[..k - 1];
      ValuesConcat(Flatten(blocks[..k - 1]), blocks[k - 1], Tag(q));
      ItemShows(items[k - 1], q);
      ItemShowsAt(config, disks, q, k - 1);
    }
  }

  lemma HardwareShows(config: VmxConfig, disks: seq<DiskInfo>, q: Query)
    ensures AllValues(HardwareLines(config, disks), Tag(q))
         == FirstShow(config, disks, q, |Items(config, disks)|)
  {
    hide Items, AllValues, Tag, SectionName, Flatten, FirstShow, Words;
    var items := Items(config, disks);
    var blocks := ItemBlocks(items);
    var head, close := HardwareHead(), [CloseTag(4, VirtualHardwareSection)];
    NoValues(head, Tag(q));
    NoValues(close, Tag(q));
    BlocksShow(config, disks, q, |items|);
    assert blocks[..|items|] == blocks;
    ValuesConcat(head, Flatten(blocks), Tag(q));
    ValuesConcat(head + Flatten(blocks), close, Tag(q));
  }

  // ---- The rest of the document

  /** All names in these lines belong to the envelope. */
  predicate EnvelopeNames(ls: seq<Line>) {
    forall i | 0 <= i < |ls| :: ls[i].name != "" && ls[i].name[0] == 'o'
  }

  lemma {:induction false} NetworkNames(bs: seq<seq<Line>>)
    requires forall i | 0 <= i < |bs| :: EnvelopeNames(bs[i])
    ensures EnvelopeNames(Flatten(bs))
  {
    if bs != [] {
      NetworkNames(bs[..|bs| - 1]);
    }
  }

  lemma SectionsShowNothing(config: VmxConfig, disks: seq<DiskInfo>, alphanumeric: Alphanumeric)
    ensures EnvelopeNames(ReferencesLines(config, disks)) && EnvelopeNames(DiskSectionLines(disks))
    ensures EnvelopeNames(SystemHead(config, alphanumeric)) && EnvelopeNames(OsLines(config))
    ensures EnvelopeNames([EnvelopeLine()])
  {
    hide SectionName, Words, AttributeName, Url, SanitizeId;
  }

  lemma NetworksShowNothing(config: VmxConfig)
    ensures EnvelopeNames(NetworkSectionLines(config))
  {
    hide SectionName, Words, AttributeName, Flatten;
    NetworkNames(NetworkBlocks(config));
  }

  lemma EnvelopeShows(ls: seq<Line>, q: Query)
    requires EnvelopeNames(ls)
    ensures AllValues(ls, Tag(q)) == []
  {
    hide Tag;
    NoValues(ls, Tag(q));
  }

  lemma TagNames(indent: nat, s: Section)
    ensures EnvelopeNames([CloseTag(indent, s)])
  {
    hide SectionName;
  }

  /** The lines before the hardware section, and after it. */
  function Front(config: VmxConfig, disks: seq<DiskInfo>, alphanumeric: Alphanumeric): seq<Line> {
    [EnvelopeLine()] + ReferencesLines(config, disks) + DiskSectionLines(disks) + NetworkSectionLines(config)
    + (SystemHead(config, alphanumeric) + OsLines(config))
  }

  function Back(): seq<Line> {
    [CloseTag(2, VirtualSystem), CloseTag(0, Envelope)]
  }

  lemma FrontAndBack(config: VmxConfig, disks: seq<DiskInfo>, alphanumeric: Alphanumeric)
    ensures DocumentLines(config, disks, alphanumeric)
         == Front(config, disks, alphanumeric) + HardwareLines(config, disks) + Back()
  {
    hide EnvelopeLine, ReferencesLines, DiskSectionLines, NetworkSectionLines, HardwareLines, SystemHead, OsLines, CloseTag;
    var f := [EnvelopeLine()] + ReferencesLines(config, disks) + DiskSectionLines(disks) + NetworkSectionLines(config);
    var h, o, w := SystemHead(config, alphanumeric), OsLines(config), HardwareLines(config, disks);
    var v, e := [CloseTag(2, VirtualSystem)], [CloseTag(0, Envelope)];
    Bytes.Assoc(f, h + o, w);
    Bytes.Assoc(f, h + o + w, v);
    Bytes.Assoc(f + (h + o + w), v, e);
    assert Back() == v + e;
  }

  lemma FrontNames(config: VmxConfig, disks: seq<DiskInfo>, alphanumeric: Alphanumeric)
    ensures EnvelopeNames(Front(config, disks, alphanumeric)) && EnvelopeNames(Back())
  {
    hide EnvelopeLine, ReferencesLines, DiskSectionLines, NetworkSectionLines, SystemHead, OsLines, CloseTag, EnvelopeNames;
    SectionsShowNothing(config, disks, alphanumeric);
    NetworksShowNothing(config);
    TagNames(2, VirtualSystem);
    TagNames(0, Envelope);
    var e, r, d, n := [EnvelopeLine()], ReferencesLines(config, disks), DiskSectionLines(disks), NetworkSectionLines(config);
    NamesConcat(e, r);
    NamesConcat(e + r, d);
    NamesConcat(e + r + d, n);
    NamesConcat(SystemHead(config, alphanumeric), OsLines(config));
    NamesConcat(e + r + d + n, SystemHead(config, alphanumeric) + OsLines(config));
    NamesConcat([CloseTag(2, VirtualSystem)], [CloseTag(0, Envelope)]);
    assert Back() == [CloseTag(2, VirtualSystem)] + [CloseTag(0, Envelope)];
  }

  lemma NamesConcat(a: seq<Line>, b: seq<Line>)
    requires EnvelopeNames(a) && EnvelopeNames(b)
    ensures EnvelopeNames(a + b)
  {
  }

  /** The queried names stand on no opening line of the document. */
  lemma OnlyElements(config: VmxConfig, disks: seq<DiskInfo>, alphanumeric: Alphanumeric, q: Query)
    ensures var ls := DocumentLines(config, disks, alphanumeric);
            forall i | 0 <= i < |ls| :: !(ls[i].OpenLine? && ls[i].name == Tag(q))
  {
    hide DocumentLines, LinesTokens, LineReadable, DocumentClean, Rasd, Vssd;
    DocumentSound(config, disks, alphanumeric);
  }

  /** Looking for an element in the whole document yields what the hardware items show, in order, and nothing else. */
  lemma DocumentShows(config: VmxConfig, disks: seq<DiskInfo>, alphanumeric: Alphanumeric, q: Query)
    ensures Values(DocumentTokens(config, disks, alphanumeric), Tag(q))
         == FirstShow(config, disks, q, |Items(config, disks)|)
  {
    hide Items, Values, AllValues, Tag, FirstShow, EnvelopeNames, LinesTokens, HardwareLines, Front, Back, DocumentLines;
    var front, hardware, back := Front(config, disks, alphanumeric), HardwareLines(config, disks), Back();
    FrontAndBack(config, disks, alphanumeric);
    FrontNames(config, disks, alphanumeric);
    EnvelopeShows(front, q);
    EnvelopeShows(back, q);
    HardwareShows(config, disks, q);
    OnlyElements(config, disks, alphanumeric, q);
    ValuesConcat(front, hardware, Tag(q));
    ValuesConcat(front + hardware, back, Tag(q));
    ValuesRead(DocumentLines(config, disks, alphanumeric), Tag(q));
  }

  // ---- Distinct ids

  /** All instance ids in a document: the system's own, then those of the items. */
  function InstanceIds(ts: seq<Token>): seq<string> {
    Values(ts, "vssd:InstanceID") + Values(ts, "rasd:InstanceID")
  }

  ghost predicate Distinct(ss: seq<string>) {
    forall i, j | 0 <= i < j < |ss| :: ss[i] != ss[j]
  }

  lemma {:induction false} SystemShown(config: VmxConfig, disks: seq<DiskInfo>, k: nat)
    ensures FirstShow(config, disks, SystemInstanceId, k) == if k == 0 then [] else [Decimal(0)]
  {
    hide Decimal;
    if k > 0 {
      SystemShown(config, disks, k - 1);
    }
  }

  lemma {:induction false} ItemsShown(config: VmxConfig, disks: seq<DiskInfo>, k: nat)
    requires k >= 1
    ensures |FirstShow(config, disks, InstanceId, k)| == k - 1
    ensures forall i | 0 <= i < k - 1 :: FirstShow(config, disks, InstanceId, k)[i] == Decimal(IdAt(config, disks, i + 1))
  {
    hide Decimal, IdAt;
    if k > 1 {
      ItemsShown(config, disks, k - 1);
    } else {
      assert FirstShow(config, disks, InstanceId, 0) == [];
    }
  }

  /** The ids in the document are pairwise distinct if and only if the described disks are not more than the
      configured ones, from whose number the adapter ids are counted. */
  lemma InstanceIdsDistinctIff(config: VmxConfig, disks: seq<DiskInfo>, alphanumeric: Alphanumeric)
    ensures var ids := InstanceIds(DocumentTokens(config, disks, alphanumeric));
            && |ids| == 4 + |disks| + (if config.networks == [] then 1 else |config.networks|)
            && (forall k | 0 <= k < |ids| :: ids[k] == Decimal(IdAt(config, disks, k)))
            && (Distinct(ids) <==> |disks| <= |config.disks|)
  {
    hide Items, DocumentTokens, Values, Tag, Decimal, FirstShow;
    SystemTags();
    HostTags();
    DocumentShows(config, disks, alphanumeric, SystemInstanceId);
    DocumentShows(config, disks, alphanumeric, InstanceId);
    ItemCount(config, disks);
    var n := |Items(config, disks)|;
    SystemShown(config, disks, n);
    ItemsShown(config, disks, n);
    DistinctIff(config, disks, InstanceIds(DocumentTokens(config, disks, alphanumeric)));
  }

  lemma DistinctIff(config: VmxConfig, disks: seq<DiskInfo>, ids: seq<string>)
    requires |ids| > 4 + |disks|
    requires forall k | 0 <= k < |ids| :: ids[k] == Decimal(IdAt(config, disks, k))
    ensures Distinct(ids) <==> |disks| <= |config.disks|
  {
    hide Decimal;
    if |disks| <= |config.disks| {
      forall i, j | 0 <= i < j < |ids|
        ensures ids[i] != ids[j]
      {
        if ids[i] == ids[j] {
          DecimalInjective(IdAt(config, disks, i), IdAt(config, disks, j));
        }
      }
    } else {
      var j, k := 4 + |config.disks|, 4 + |disks|;
      assert ids[j] == ids[k];
    }
  }

  lemma {:induction false} HostsShown(config: VmxConfig, disks: seq<DiskInfo>, k: nat)
    ensures var n := if k <= 4 then 0 else if k < 4 + |disks| then k - 4 else |disks|;
            && |FirstShow(config, disks, HostResource, k)| == n
            && forall i | 0 <= i < n :: FirstShow(config, disks, HostResource, k)[i] == DISK_PATH + disks[i].id
  {
    if k > 0 {
      HostsShown(config, disks, k - 1);
    }
  }

  /** The i-th host resource in the document names the i-th disk id. */
  lemma HostResources(config: VmxConfig, disks: seq<DiskInfo>, alphanumeric: Alphanumeric)
    ensures var hosts := Values(DocumentTokens(config, disks, alphanumeric), "rasd:HostResource");
            && |hosts| == |disks|
            && forall i | 0 <= i < |disks| :: hosts[i] == "ovf:/disk/" + disks[i].id
  {
    hide Items, DocumentTokens, Values, Tag, FirstShow;
    HostTags();
    DocumentShows(config, disks, alphanumeric, HostResource);
    ItemCount(config, disks);
    HostsShown(config, disks, |Items(config, disks)|);
  }

  lemma {:induction false} ConnectionsShown(config: VmxConfig, disks: seq<DiskInfo>, k: nat)
    requires k <= 4 + |disks| + |Networks(config)|
    ensures FirstShow(config, disks, Connection, k)
         == Networks(config)[..if k <= 4 + |disks| then 0 else k - 4 - |disks|]
  {
    hide Networks;
    if k > 0 {
      ConnectionsShown(config, disks, k - 1);
    }
  }

  /** The i-th connection in the document names the network of the i-th adapter. */
  lemma Connections(config: VmxConfig, disks: seq<DiskInfo>, alphanumeric: Alphanumeric)
    ensures Values(DocumentTokens(config, disks, alphanumeric), "rasd:Connection")
         == Networks(config)
  {
    hide Items, DocumentTokens, Values, Tag, FirstShow, Networks;
    LinkTags();
    DocumentShows(config, disks, alphanumeric, Connection);
    ItemCount(config, disks);
    ConnectionsShown(config, disks, |Items(config, disks)|);
  }
}
