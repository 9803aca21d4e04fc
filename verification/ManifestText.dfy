/** The manifest text determines the list of names and hashes, exactly when no name contains a newline. */
module ManifestText {
  import opened Bytes
  import opened Results
  import opened Ova
  import opened Text

  /** The last place in [7, k] where ")= " starts. */
  function LastMiddle(line: seq<byte>, k: nat): (r: Option<nat>)
    ensures r.Some? ==> 7 <= r.value <= k && r.value + 3 <= |line|
    decreases k
  {
    if k < 7 then None
    else if k + 3 <= |line| && line[k..k + 3] == LINE_MIDDLE then Some(k)
    else LastMiddle(line, k - 1)
  }

  /** Name between the opening and the last ")= ", hash after it. */
  function ParseLine(line: seq<byte>): Option<ManifestEntry> {
    if !(LINE_START <= line) then None
    else
      match LastMiddle(line, |line|)
      case None => None
      case Some(k) => Some(ManifestEntry(line[7..k], line[k + 3..]))
  }

  function ParseManifest(s: seq<byte>): (ps: seq<Option<ManifestEntry>>)
    ensures |ps| == |Lines(s, NEWLINE)| && forall i | 0 <= i < |ps| :: ps[i] == ParseLine(Lines(s, NEWLINE)[i])
  {
    seq(|Lines(s, NEWLINE)|, i requires 0 <= i < |Lines(s, NEWLINE)| => ParseLine(Lines(s, NEWLINE)[i]))
  }

  predicate HexText(s: seq<byte>) {
    forall i | 0 <= i < |s| :: 48 <= s[i] < 58 || 97 <= s[i] < 103
  }

  /** No ")= " starts later than the one before a hexadecimal hash. */
  lemma {:induction false} MiddleFound(e: ManifestEntry, k: nat)
    requires HexText(e.hash) && 7 + |e.filename| <= k <= |ManifestLine(e)|
    ensures LastMiddle(ManifestLine(e), k) == Some(7 + |e.filename|)
  {
    var line, at := ManifestLine(e), 7 + |e.filename|;
    assert line[at..at + 3] == LINE_MIDDLE;
    if k > at {
      if k < |line| {
        assert line[k] == if k < at + 3 then LINE_MIDDLE[k - at] else e.hash[k - at - 3];
        assert k + 3 <= |line| ==> line[k..k + 3][0] == line[k];
      }
      MiddleFound(e, k - 1);
    }
  }

  lemma LineParses(e: ManifestEntry)
    requires HexText(e.hash)
    ensures ParseLine(ManifestLine(e)) == Some(e)
  {
    var line, at := ManifestLine(e), 7 + |e.filename|;
    MiddleFound(e, |line|);
    assert line[7..at] == e.filename && line[at + 3..] == e.hash;
  }

  lemma FixedTexts()
    ensures LINE_START == Ascii("SHA256(") && LINE_MIDDLE == Ascii(")= ") && MANIFEST_NAME == Ascii("manifest.mf")
  {
  }

  lemma LineNewlines(e: ManifestEntry)
    requires HexText(e.hash)
    ensures NEWLINE in ManifestLine(e) <==> NEWLINE in e.filename
  {
    var line := ManifestLine(e);
    if NEWLINE in e.filename {
      var i :| 0 <= i < |e.filename| && e.filename[i] == NEWLINE;
      assert line[7 + i] == NEWLINE;
    }
  }

  /** The text of a manifest whose names have no newline, line by line. */
  lemma ManifestReads(entries: seq<ManifestEntry>)
    requires forall e | e in entries :: 10 !in e.filename && HexText(e.hash)
    ensures var lines := Lines(Manifest(entries), 10);
            && |lines| == |entries|
            && forall i | 0 <= i < |entries| ::
                 lines[i] == Ascii("SHA256(") + entries[i].filename + Ascii(")= ") + entries[i].hash
  {
    hide ManifestLine, Lines;
    FixedTexts();
    forall e | e in entries
      ensures NEWLINE !in ManifestLine(e)
    {
      LineNewlines(e);
    }
    LinesOfManifest(entries);
    forall i | 0 <= i < |entries|
      ensures ManifestLine(entries[i]) == Ascii("SHA256(") + entries[i].filename + Ascii(")= ") + entries[i].hash
    {
      LineIs(entries[i]);
    }
  }

  lemma LineIs(e: ManifestEntry)
    ensures ManifestLine(e) == LINE_START + e.filename + LINE_MIDDLE + e.hash
  {
  }

  lemma {:induction false} LinesOfManifest(entries: seq<ManifestEntry>)
    requires forall e | e in entries :: NEWLINE !in ManifestLine(e)
    ensures |Lines(Manifest(entries), NEWLINE)| == |entries|
    ensures forall i | 0 <= i < |entries| :: Lines(Manifest(entries), NEWLINE)[i] == ManifestLine(entries[i])
  {
    hide ManifestLine, Lines;
    if entries == [] {
      NoLines();
    } else {
      LinesOfManifest(entries[1..]);
      LinesCons(ManifestLine(entries[0]), NEWLINE, Manifest(entries[1..]));
    }
  }

  lemma NoLines()
    ensures Lines(Manifest([]), NEWLINE) == []
  {
  }

  lemma {:induction false} ManifestNewlines(entries: seq<ManifestEntry>)
    ensures Count(Manifest(entries), NEWLINE) >= |entries|
    ensures (exists e :: e in entries && NEWLINE in ManifestLine(e)) ==> Count(Manifest(entries), NEWLINE) > |entries|
  {
    if entries != [] {
      hide ManifestLine;
      var line, rest := ManifestLine(entries[0]), Manifest(entries[1..]);
      ManifestNewlines(entries[1..]);
      CountConcat(line + [NEWLINE], rest, NEWLINE);
      CountConcat(line, [NEWLINE], NEWLINE);
      assert Count([NEWLINE], NEWLINE) == 1 + Count([], NEWLINE);
      CountZero(line, NEWLINE);
      assert entries == [entries[0]] + entries[1..];
    }
  }

  /** Parsing the manifest gives back the recorded entries, in order, if and only if no name has a newline. */
  lemma ManifestParsesIff(entries: seq<ManifestEntry>)
    requires forall e | e in entries :: HexText(e.hash)
    ensures (|ParseManifest(Manifest(entries))| == |entries|
             && forall i | 0 <= i < |entries| :: ParseManifest(Manifest(entries))[i] == Some(entries[i]))
            <==> forall e | e in entries :: NEWLINE !in e.filename
  {
    hide ManifestLine, Manifest, Lines, ParseLine;
    forall e | e in entries
      ensures NEWLINE in ManifestLine(e) <==> NEWLINE in e.filename
    {
      LineNewlines(e);
    }
    if forall e | e in entries :: NEWLINE !in e.filename {
      LinesOfManifest(entries);
      forall i | 0 <= i < |entries|
        ensures ParseManifest(Manifest(entries))[i] == Some(entries[i])
      {
        LineParses(entries[i]);
      }
    } else {
      ManifestNewlines(entries);
      EveryNewlineEndsALine(Manifest(entries), NEWLINE);
    }
  }
}
