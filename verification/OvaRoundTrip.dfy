/** Walking a finished archive recovers exactly what was added. */
module OvaRoundTrip {
  import opened Bytes
  import opened Results
  import opened Tar
  import opened TarWalk
  import opened Ova
  import opened ManifestText

  function Members(files: seq<File>): seq<byte> {
    if files == [] then [] else Members(files[..|files| - 1]) + MemberBytes(files[|files| - 1])
  }

  /** An archive after more `add_file` calls. */
  function AddedTo(a: Archive, sha: Sha, files: seq<File>): Archive {
    if files == [] then a else Added(AddedTo(a, sha, files[..|files| - 1]), sha, files[|files| - 1])
  }

  /** The archive after a history of `add_file` calls. */
  function AddedAll(sha: Sha, files: seq<File>): Archive {
    AddedTo(Archive([], [], 0), sha, files)
  }

  /** Output, position and entries after more calls. */
  lemma {:induction false} AfterMore(a: Archive, sha: Sha, files: seq<File>)
    ensures var after, n := AddedTo(a, sha, files), |a.entries|;
            && after.output == a.output + Members(files) && after.position == a.position + |Members(files)|
            && |after.entries| == n + |files| && after.entries[..n] == a.entries
            && forall i | 0 <= i < |files| :: after.entries[n + i] == ManifestEntry(files[i].name, HashText(sha, files[i].data))
  {
    hide MemberBytes, HashText;
    if files == [] {
      assert a.output + [] == a.output;
    } else {
      AfterMore(a, sha, files[..|files| - 1]);
      Assoc(a.output, Members(files[..|files| - 1]), MemberBytes(files[|files| - 1]));
    }
  }

  /** Output, position and entries after any history of calls. */
  lemma AfterCalls(sha: Sha, files: seq<File>)
    ensures var a := AddedAll(sha, files);
            && a.output == Members(files) && a.position == |a.output|
            && |a.entries| == |files|
            && forall i | 0 <= i < |files| ::
                 && a.entries[i] == ManifestEntry(files[i].name, HashText(sha, files[i].data))
                 && HexDecode(a.entries[i].hash) == Some(sha(files[i].data))
  {
    hide AddedTo, Members, HexEncode, HexDecode;
    AfterMore(Archive([], [], 0), sha, files);
    assert forall i | 0 <= i < |files| :: AddedAll(sha, files).entries[0 + i] == AddedAll(sha, files).entries[i];
    forall i | 0 <= i < |files|
      ensures HexDecode(HashText(sha, files[i].data)) == Some(sha(files[i].data))
    {
      HexRoundTrip(sha(files[i].data));
    }
  }

  /** All members of the finished file: the manifest is last, and only there when something was added. */
  function AllMembers(sha: Sha, files: seq<File>, mtime: nat): seq<File> {
    if files == [] then [] else files + [ManifestFile(AddedAll(sha, files).entries, mtime)]
  }

  lemma FinishedIsMembers(sha: Sha, files: seq<File>, mtime: nat)
    ensures Finished(AddedAll(sha, files), mtime)
         == Members(AllMembers(sha, files, mtime)) + Zeros(1024)
  {
    hide MemberBytes, AddedAll;
    AfterCalls(sha, files);
    var all := AllMembers(sha, files, mtime);
    if files == [] {
      assert Members(files) + [] == Members(files);
    } else {
      assert all[..|all| - 1] == files;
    }
  }

  /** How the walker sees member `k`. */
  function EntryOf(all: seq<File>, k: nat): Entry
    requires k < |all|
  {
    Entry(|Members(all[..k])|, Visible(all[k].name), |all[k].data|)
  }

  function EntriesFrom(all: seq<File>, k: nat): (es: seq<Entry>)
    requires k <= |all|
    ensures |es| == |all| - k
    decreases |all| - k
  {
    if k == |all| then [] else [EntryOf(all, k)] + EntriesFrom(all, k + 1)
  }

  lemma {:induction false} EntryAt(all: seq<File>, k: nat, i: nat)
    requires k <= |all| && i < |all| - k
    ensures EntriesFrom(all, k)[i] == EntryOf(all, k + i)
    decreases i
  {
    hide EntryOf;
    if i > 0 {
      EntryAt(all, k + 1, i - 1);
    }
  }

  /** Member `k` starts where the earlier members end. */
  lemma {:induction false} MemberHeld(all: seq<File>, k: nat)
    requires k < |all|
    ensures Holds(Members(all), |Members(all[..k])|, MemberBytes(all[k]))
    ensures |Members(all[..k + 1])| == |Members(all[..k])| + |MemberBytes(all[k])|
  {
    hide MemberBytes;
    var n := |all| - 1;
    assert all[..k + 1][..k] == all[..k];
    if k < n {
      MemberHeld(all[..n], k);
      assert all[..n][..k] == all[..k];
      HoldsLonger(Members(all[..n]), MemberBytes(all[n]), |Members(all[..k])|, MemberBytes(all[k]));
    } else {
      HoldsEnd(Members(all[..n]), MemberBytes(all[n]));
    }
  }

  predicate NamesAreText(all: seq<File>, valid: seq<byte> -> bool, k: nat) {
    forall i | k <= i < |all| :: valid(Visible(all[i].name))
  }

  lemma WalkMember(all: seq<File>, valid: seq<byte> -> bool, k: nat)
    requires k < |all| && Writable(all[k])
    ensures var data := Members(all) + Zeros(1024);
            Walk(data, |Members(all[..k])|, valid)
            == if valid(Visible(all[k].name))
               then Prepend(EntryOf(all, k), Walk(data, |Members(all[..k + 1])|, valid)) else None
  {
    hide Walk, TarHeader, Visible, Pow8, Members, Prepend;
    var data, pos, f := Members(all) + Zeros(1024), |Members(all[..k])|, all[k];
    MemberHeld(all, k);
    HoldsLonger(Members(all), Zeros(1024), pos, MemberBytes(f));
    MemberParts(data, pos, f);
    WalkHeader(data, pos, f.name, |f.data|, f.mtime, valid);
  }

  /** From member `k` on the walk lists the remaining members and stops at the zero blocks. */
  lemma {:induction false} WalkFrom(all: seq<File>, valid: seq<byte> -> bool, k: nat)
    requires k <= |all| && forall f | f in all :: Writable(f)
    ensures Walk(Members(all) + Zeros(1024), |Members(all[..k])|, valid)
         == if NamesAreText(all, valid, k) then Some(Listing(EntriesFrom(all, k), |Members(all)|)) else None
    decreases |all| - k
  {
    hide Walk, Members, Visible, Writable, EntryOf;
    if k == |all| {
      assert all[..k] == all;
      HoldsEnd(Members(all), Zeros(1024));
      WalkStops(Members(all) + Zeros(1024), |Members(all)|, valid);
    } else {
      assert all[k] in all;
      WalkMember(all, valid, k);
      WalkFrom(all, valid, k + 1);
    }
  }

  lemma MemberParts(data: seq<byte>, pos: nat, f: File)
    requires Holds(data, pos, MemberBytes(f))
    ensures Holds(data, pos, TarHeader(f.name, |f.data|, f.mtime))
    ensures Holds(data, pos + 512, f.data)
  {
    hide TarHeader;
    HoldsParts(data, pos, TarHeader(f.name, |f.data|, f.mtime), PadToSector(f.data));
    HoldsParts(data, pos + 512, f.data, Zeros(Padding(|f.data|)));
  }

  lemma NoMembers(all: seq<File>)
    ensures Members(all[..0]) == []
  {
  }

  /** For any history of additions: the walker lists every member and then the manifest with its visible name,
      size and position, finds the contents behind each header, and stops at the two zero blocks; it gives up
      exactly when some visible name is not text. */
  lemma ArchiveRoundTrip(sha: Sha, files: seq<File>, mtime: nat, valid: seq<byte> -> bool)
    requires forall f | f in AllMembers(sha, files, mtime) :: Writable(f)
    ensures var file, all := Finished(AddedAll(sha, files), mtime), AllMembers(sha, files, mtime);
            && |file| >= 1024
            && Walk(file, 0, valid)
               == (if NamesAreText(all, valid, 0)
                   then Some(Listing(EntriesFrom(all, 0), |file| - 1024)) else None)
            && Holds(file, |file| - 1024, Zeros(1024))
            && forall k | 0 <= k < |all| ::
                 EntriesFrom(all, 0)[k] == EntryOf(all, k) && Holds(file, EntryOf(all, k).at + 512, all[k].data)
  {
    hide Walk, MemberBytes, AddedAll, AllMembers, Visible, Pow8, Members, NamesAreText, Finished, Writable, EntriesFrom;
    var all := AllMembers(sha, files, mtime);
    var file := Finished(AddedAll(sha, files), mtime);
    FinishedIsMembers(sha, files, mtime);
    WalkFrom(all, valid, 0);
    NoMembers(all);
    HoldsEnd(Members(all), Zeros(1024));
    forall k | 0 <= k < |all|
      ensures EntriesFrom(all, 0)[k] == EntryOf(all, k) && Holds(file, EntryOf(all, k).at + 512, all[k].data)
    {
      EntryAt(all, 0, k);
      MemberHeld(all, k);
      HoldsLonger(Members(all), Zeros(1024), |Members(all[..k])|, MemberBytes(all[k]));
      MemberParts(file, |Members(all[..k])|, all[k]);
    }
  }

  /** The last member's text parses to the names and hashes of all the others, in order, if and only if
      no name contains a newline. */
  lemma ManifestRoundTrip(sha: Sha, files: seq<File>, mtime: nat)
    requires files != []
    ensures var all := AllMembers(sha, files, mtime);
            && |all| == |files| + 1 && all[|files|].name == Ascii("manifest.mf")
            && var parsed := ParseManifest(all[|files|].data);
            (|parsed| == |files|
             && forall i | 0 <= i < |files| ::
                  && parsed[i] == Some(ManifestEntry(files[i].name, HashText(sha, files[i].data)))
                  && HexDecode(parsed[i].value.hash) == Some(sha(files[i].data)))
            <==> forall f | f in files :: 10 !in f.name
  {
    hide AddedAll, Manifest, ParseManifest, HexText, HashText, Members, HexDecode;
    AfterCalls(sha, files);
    FixedTexts();
    var entries := AddedAll(sha, files).entries;
    forall i | 0 <= i < |entries|
      ensures HexText(entries[i].hash)
    {
      HashIsHex(sha, files[i].data);
    }
    ManifestParsesIff(entries);
    NamesListed(files, entries);
  }

  lemma NamesListed(files: seq<File>, entries: seq<ManifestEntry>)
    requires |files| == |entries| && forall i | 0 <= i < |files| :: entries[i].filename == files[i].name
    ensures (forall e | e in entries :: NEWLINE !in e.filename)
       <==> (forall f | f in files :: NEWLINE !in f.name)
  {
    if forall e | e in entries :: NEWLINE !in e.filename {
      forall i | 0 <= i < |files|
        ensures NEWLINE !in files[i].name
      {
        assert entries[i] in entries;
      }
    }
  }

  lemma HashIsHex(sha: Sha, data: seq<byte>)
    ensures HexText(HashText(sha, data))
  {
    hide HexEncode;
  }

  // ---- A member that was not completed

  /** Where the walker goes on after a member of the announced size that starts at `start`. */
  function Resume(start: nat, size: nat): nat {
    start + 512 + size + Padding(size)
  }

  /** Where later member `k` has its header when `left` bytes were left behind. */
  function HeaderAt(start: nat, left: nat, more: seq<File>, k: nat): nat
    requires k <= |more|
  {
    start + 512 + left + |Members(more[..k])|
  }

  /** A stream closed too early leaves its header and its bytes behind, and the position lags by those bytes. Members
      added afterwards follow these bytes without a gap, but the walker goes by the announced size. */
  lemma FailedFinish(a: Archive, sha: Sha, name: seq<byte>, size: nat, mtime: nat, calls: seq<WriteCall>, more: seq<File>,
                     valid: seq<byte> -> bool)
    requires forall c | c in calls :: c.taken <= |c.buf|
    requires a.position == |a.output| && size < Pow8(11)
    requires Closed(WrittenAll(Opened(a, name, size, mtime), calls), sha).Err?
    ensures var s := WrittenAll(Opened(a, name, size, mtime), calls);
            var left, start := |s.hashed|, |a.output|;
            var after := AddedTo(s.archive, sha, more);
            && left < size && s.archive.entries == a.entries
            && after.position + left == |after.output|
            && (forall k | 0 <= k < |more| :: Holds(after.output, HeaderAt(start, left, more, k), MemberBytes(more[k])))
            && Walk(after.output, start, valid)
               == if valid(Visible(name))
                  then Prepend(Entry(start, Visible(name), size), Walk(after.output, Resume(start, size), valid))
                  else None
  {
    hide TarHeader, WrittenAll, HexEncode, Walk, Visible, Pow8, MemberBytes, Members, AddedTo;
    StreamInvariant(a, name, size, mtime, calls);
    var s := WrittenAll(Opened(a, name, size, mtime), calls);
    var h, after := TarHeader(name, size, mtime), AddedTo(s.archive, sha, more);
    AfterMore(s.archive, sha, more);
    Assoc(a.output, h, s.hashed);
    Assoc(a.output, h + s.hashed, Members(more));
    Assoc(h, s.hashed, Members(more));
    assert after.output == a.output + (h + (s.hashed + Members(more)));
    assert Holds(after.output, |a.output|, h);
    WalkHeader(after.output, |a.output|, name, size, mtime, valid);
    HoldsEnd(s.archive.output, Members(more));
    forall k | 0 <= k < |more|
      ensures Holds(after.output, HeaderAt(|a.output|, |s.hashed|, more, k), MemberBytes(more[k]))
    {
      MemberHeld(more, k);
      HoldsNested(after.output, |s.archive.output|, Members(more), |Members(more[..k])|, MemberBytes(more[k]));
    }
  }

  /** Which later members are found: one whose header comes before the place where the walk goes on is never listed, so
      the first one never is; the walk finds one next exactly when its header lies in that place. */
  lemma LaterMemberFoundIff(a: Archive, sha: Sha, name: seq<byte>, size: nat, mtime: nat, calls: seq<WriteCall>, more: seq<File>,
                            valid: seq<byte> -> bool, k: nat)
    requires forall c | c in calls :: c.taken <= |c.buf|
    requires a.position == |a.output| && size < Pow8(11)
    requires Closed(WrittenAll(Opened(a, name, size, mtime), calls), sha).Err?
    requires k < |more| && Writable(more[k])
    ensures var s := WrittenAll(Opened(a, name, size, mtime), calls);
            var start := |a.output|;
            var at, walk := HeaderAt(start, |s.hashed|, more, k), Walk(AddedTo(s.archive, sha, more).output, start, valid);
            && (k == 0 ==> at < Resume(start, size))
            && (walk.Some? ==>
                  && (at < Resume(start, size) ==> forall e | e in walk.value.entries :: e.at != at)
                  && (at == Resume(start, size) <==>
                        && |walk.value.entries| >= 2
                        && walk.value.entries[1] == Entry(at, Visible(more[k].name), |more[k].data|)))
  {
    hide WrittenAll, Walk, Visible, Pow8, MemberBytes, Members, AddedTo, Resume;
    FailedFinish(a, sha, name, size, mtime, calls, more, valid);
    NoMembers(more);
    var s := WrittenAll(Opened(a, name, size, mtime), calls);
    var start, left, data := |a.output|, |s.hashed|, AddedTo(s.archive, sha, more).output;
    var at, resume := HeaderAt(start, left, more, k), Resume(start, size);
    ResumeBehind(start, size);
    if Walk(data, start, valid).Some? {
      WalkAscends(data, resume, valid);
      if at == resume {
        MemberParts(data, at, more[k]);
        WalkHeader(data, at, more[k].name, |more[k].data|, more[k].mtime, valid);
      }
    }
  }

  lemma ResumeBehind(start: nat, size: nat)
    ensures Resume(start, size) >= start + 512 + size
  {
  }

  /** For instance: 1024 bytes are announced and none written; a member of 512 bytes added next is not listed, but the
      one after it is. */
  lemma LostAndFound(sha: Sha, name: seq<byte>, mtime: nat, lost: File, found: File)
    requires |lost.data| == 512 && Writable(found)
    ensures var s := WrittenAll(Opened(Archive([], [], 0), name, 1024, mtime), []);
            && Closed(s, sha).Err?
            && var data := AddedTo(s.archive, sha, [lost, found]).output;
            Walk(data, 0, name => true)
            == Some(Listing([Entry(0, Visible(name), 1024), Entry(1536, Visible(found.name), |found.data|)], |data|))
  {
    hide Walk, Visible, TarHeader, AddedTo, Members, MemberBytes, Pow8;
    var more, a := [lost, found], Archive([], [], 0);
    var s := WrittenAll(Opened(a, name, 1024, mtime), []);
    var data := AddedTo(s.archive, sha, more).output;
    Pow8Values();
    TwoMembers(lost, found);
    AfterMore(s.archive, sha, more);
    FailedFinish(a, sha, name, 1024, mtime, [], more, name => true);
    assert HeaderAt(0, 0, more, 1) == 1536 && Holds(data, 1536, MemberBytes(found));
    MemberParts(data, 1536, found);
    WalkHeader(data, 1536, found.name, |found.data|, found.mtime, name => true);
    WalkEnds(data, name => true);
    var first, last := Entry(0, Visible(name), 1024), Entry(1536, Visible(found.name), |found.data|);
    assert [last] + [] == [last] && [first] + [last] == [first, last];
  }

  lemma TwoMembers(lost: File, found: File)
    requires |lost.data| == 512
    ensures |Members([lost, found][..1])| == 1024 && |Members([lost, found])| == 1024 + |MemberBytes(found)|
    ensures Resume(0, 1024) == 1536
  {
    hide TarHeader;
    assert [lost, found][..1] == [lost] && [lost][..0] == [];
  }
}
