/** Adapters and networks: which connection in a descriptor leads to exactly one network. */
module OvfNetworks {
  import opened Results
  import opened XmlReader
  import opened XmlWriter
  import opened OvfNames
  import opened OvfVocabulary
  import opened Ovf
  import opened OvfDocument
  import opened OvfIds
  import opened OvfReferences

  /** The networks described, in order: one for each adapter. */
  lemma NetworksSay(config: VmxConfig, disks: seq<DiskInfo>, alphanumeric: Alphanumeric)
    ensures var rows := Rows(DocumentTokens(config, disks, alphanumeric), "ovf:Network");
            && |rows| == |Networks(config)|
            && forall i | 0 <= i < |rows| :: ValueOf(rows[i], "ovf:name") == Some(Networks(config)[i])
  {
    hide DocumentTokens, Rows, AllRows, ValueOf, Meant, FileAttrs, AttributeName, OvfTag, ReferencesLines, DiskSectionLines,
         NetworkSectionLines, DiskAttrs, NetworkAttrs, Networks, FileName;
    OvfVocabulary.NetworkNames();
    OtherAttributes();
    RowsOfDocument(config, disks, alphanumeric, Network);
    FileRows(config, disks, Network);
    DiskRows(disks, Network);
    NetworkRows(config, Network);
    forall i | 0 <= i < |Networks(config)|
      ensures ValueOf(Meant(NetworkAttrs(config, i)), AttributeName(NetworkName)) == Some(Networks(config)[i])
    {
      NetworkSays(config, i);
    }
  }

  lemma NetworkSays(config: VmxConfig, i: nat)
    requires i < |Networks(config)|
    ensures ValueOf(Meant(NetworkAttrs(config, i)), AttributeName(NetworkName))
         == Some(Networks(config)[i])
  {
    hide ValueOf, Meant, AttributeName, Words, NetworkOf, Esc, AttrsOf;
    ValueIs([NetworkName], [if i < |config.networks| then Esc(NetworkOf(config.networks[i])) else Say(VmNetwork)], 0);
    if config.networks != [] {
      Plainly(0, NetworkOf(config.networks[i]));
    }
  }

  predicate NamesNetwork(connection: string, row: seq<Attr>) {
    ValueOf(row, "ovf:name") == Some(connection)
  }

  /** The connection leads to exactly one of the networks. */
  ghost predicate LeadsToOne(connection: string, rows: seq<seq<Attr>>) {
    exists j | 0 <= j < |rows| ::
      NamesNetwork(connection, rows[j]) && forall k | 0 <= k < |rows| && NamesNetwork(connection, rows[k]) :: k == j
  }

  /** Every adapter in a document leads to exactly one network. */
  ghost predicate Connected(ts: seq<Token>) {
    var connections, rows := Values(ts, "rasd:Connection"), Rows(ts, "ovf:Network");
    forall i | 0 <= i < |connections| :: LeadsToOne(connections[i], rows)
  }

  /** Each network described is that of one adapter; so every adapter leads to exactly one network if and only if no two
      adapters share one. Adapters without a network share the default one. */
  lemma ConnectedIff(config: VmxConfig, disks: seq<DiskInfo>, alphanumeric: Alphanumeric)
    ensures var ts := DocumentTokens(config, disks, alphanumeric);
            var connections, rows := Values(ts, "rasd:Connection"), Rows(ts, "ovf:Network");
            && |connections| == |rows| && (forall i | 0 <= i < |rows| :: NamesNetwork(connections[i], rows[i]))
            && (Connected(ts) <==> Distinct(Networks(config)))
  {
    hide DocumentTokens, Rows, Values, ValueOf, Networks;
    NetworksSay(config, disks, alphanumeric);
    Connections(config, disks, alphanumeric);
    var ts, names := DocumentTokens(config, disks, alphanumeric), Networks(config);
    var rows := Rows(ts, "ovf:Network");
    assert forall i, j | 0 <= i < |names| && 0 <= j < |rows| :: NamesNetwork(names[i], rows[j]) <==> names[i] == names[j];
    if Connected(ts) {
      forall i, j | 0 <= i < j < |names|
        ensures names[i] != names[j]
      {
        assert LeadsToOne(names[i], rows);
        assert NamesNetwork(names[i], rows[i]);
      }
    }
    if Distinct(names) {
      forall i | 0 <= i < |names|
        ensures LeadsToOne(names[i], rows)
      {
        assert NamesNetwork(names[i], rows[i]);
      }
    }
  }

  /** The same for the descriptor as it is read. */
  lemma ConnectionIntegrity(config: VmxConfig, disks: seq<DiskInfo>, alphanumeric: Alphanumeric)
    requires DocumentClean(config, disks)
    ensures var read := ReadXml(DocumentText(config, disks, alphanumeric));
            read.Some? && (Connected(read.value) <==> Distinct(Networks(config)))
  {
    hide ReadXml, DocumentText, DocumentTokens, DocumentClean, Connected, Networks;
    DocumentReadsIff(config, disks, alphanumeric);
    ConnectedIff(config, disks, alphanumeric);
  }

  /** Two adapters that name no network make two equal networks, and neither connection is unique. */
  lemma SharedDefault(config: VmxConfig, disks: seq<DiskInfo>, alphanumeric: Alphanumeric)
    requires |config.networks| == 2 && forall n | n in config.networks :: n.networkName == None
    ensures !Connected(DocumentTokens(config, disks, alphanumeric))
  {
    hide DocumentTokens, Connected, Words;
    ConnectedIff(config, disks, alphanumeric);
    assert config.networks[0] in config.networks && config.networks[1] in config.networks;
    assert Networks(config)[0] == Networks(config)[1];
  }
}
