/** Walking an archive header by header, as the repository's own archive reader does. */
module TarWalk {
  import opened Bytes
  import opened Results
  import opened Tar
  import opened Text

  /** A member as the walker sees it: header position, name and size. */
  datatype Entry = Entry(at: nat, name: seq<byte>, size: nat)

  datatype Listing = Listing(entries: seq<Entry>, stop: nat)

  function CutAtNul(s: seq<byte>): seq<byte> {
    if s == [] || s[0] == 0 then [] else [s[0]] + CutAtNul(s[1..])
  }

  /** What a reader sees of a name: at most 99 bytes, up to the first NUL. */
  function Visible(name: seq<byte>): seq<byte> {
    CutAtNul(if |name| <= 99 then name else name[..99])
  }

  lemma {:induction false} CutWhole(s: seq<byte>)
    ensures CutAtNul(s) == s <==> 0 !in s
    ensures |CutAtNul(s)| <= |s|
  {
    if s != [] && s[0] != 0 {
      CutWhole(s[1..]);
      assert s == [s[0]] + s[1..];
    }
  }

  /** A name is seen unchanged exactly when it has at most 99 bytes and no NUL. */
  lemma NameSeenIff(name: seq<byte>)
    ensures Visible(name) == name <==> |name| <= 99 && 0 !in name
  {
    CutWhole(if |name| <= 99 then name else name[..99]);
  }

  lemma {:induction false} CutPadded(s: seq<byte>, n: nat)
    ensures CutAtNul(s + Zeros(n)) == CutAtNul(s)
  {
    var t := s + Zeros(n);
    if s == [] {
      assert t == Zeros(n);
    } else if s[0] != 0 {
      CutPadded(s[1..], n);
      assert t[1..] == s[1..] + Zeros(n);
    }
  }

  lemma NameFieldSeen(name: seq<byte>)
    ensures CutAtNul(NameField(name)) == Visible(name)
  {
    if |name| <= 99 {
      CutPadded(name, 100 - |name|);
    } else {
      CutPadded(name[..99], 1);
    }
  }

  predicate IsNul(b: byte) {
    b == 0
  }

  /** Bytes after the first of a UTF-8 character. */
  predicate Continues(b: byte) {
    0x80 <= b < 0xC0
  }

  function TwoBytes(a: int, b: int): int {
    (a - 0xC0) * 64 + (b - 0x80)
  }

  function ThreeBytes(a: int, b: int, c: int): int {
    (a - 0xE0) * 4096 + (b - 0x80) * 64 + (c - 0x80)
  }

  /** The UTF-8 form of one white space character; there is none beyond three bytes. */
  predicate IsSpace(c: seq<byte>) {
    || (|c| == 1 && c[0] < 0x80 && IsWhite(c[0]))
    || (|c| == 2 && 0xC2 <= c[0] < 0xE0 && Continues(c[1]) && IsWhite(TwoBytes(c[0], c[1])))
    || (|c| == 3 && 0xE0 <= c[0] < 0xF0 && Continues(c[1]) && Continues(c[2])
        && ThreeBytes(c[0], c[1], c[2]) >= 0x800 && IsWhite(ThreeBytes(c[0], c[1], c[2])))
  }

  /** Length of the white space character at the front, 0 if there is none. */
  function SpaceAtStart(s: seq<byte>): (n: nat)
    ensures n <= |s|
  {
    if |s| >= 1 && IsSpace(s[..1]) then 1
    else if |s| >= 2 && IsSpace(s[..2]) then 2
    else if |s| >= 3 && IsSpace(s[..3]) then 3
    else 0
  }

  function SpaceAtEnd(s: seq<byte>): (n: nat)
    ensures n <= |s|
  {
    if |s| >= 1 && IsSpace(s[|s| - 1..]) then 1
    else if |s| >= 2 && IsSpace(s[|s| - 2..]) then 2
    else if |s| >= 3 && IsSpace(s[|s| - 3..]) then 3
    else 0
  }

  function SkipSpaceStart(s: seq<byte>): seq<byte> {
    var n := SpaceAtStart(s);
    if n == 0 then s else SkipSpaceStart(s[n..])
  }

  function SkipSpaceEnd(s: seq<byte>): seq<byte> {
    var n := SpaceAtEnd(s);
    if n == 0 then s else SkipSpaceEnd(s[..|s| - n])
  }

  /** NULs, then white space around the digits are dropped, and one leading plus sign is accepted. Whatever else is not
      UTF-8 leaves a byte that is no digit. */
  function ParseSize(field: seq<byte>): Option<nat> {
    var t := SkipSpaceEnd(SkipSpaceStart(Trim(field, IsNul)));
    var digits := if |t| > 1 && t[0] == 43 then t[1..] else t;
    if digits == [] then None else OctalValue(digits)
  }

  predicate IsDigit(b: byte) {
    48 <= b < 58
  }

  lemma SpaceIsNoDigit(c: seq<byte>)
    requires c != [] && (IsDigit(c[0]) || IsDigit(c[|c| - 1]))
    ensures !IsSpace(c)
  {
  }

  /** Digits are left alone. */
  lemma NothingSkipped(s: seq<byte>)
    requires s != [] && IsDigit(s[0]) && IsDigit(s[|s| - 1])
    ensures SkipSpaceEnd(SkipSpaceStart(Trim(s, IsNul))) == s
  {
    hide IsSpace, Trim, SpaceAtStart, SpaceAtEnd;
    NoNuls(s);
    NoSpaces(s);
  }

  lemma NoNuls(s: seq<byte>)
    requires s != [] && s[0] != 0 && s[|s| - 1] != 0
    ensures Trim(s, IsNul) == s
  {
  }

  lemma NoSpaces(s: seq<byte>)
    requires s != [] && IsDigit(s[0]) && IsDigit(s[|s| - 1])
    ensures SpaceAtStart(s) == 0 && SpaceAtEnd(s) == 0
  {
    hide IsSpace;
    forall n | 1 <= n <= 3 && n <= |s|
      ensures !IsSpace(s[..n]) && !IsSpace(s[|s| - n..])
    {
      SpaceIsNoDigit(s[..n]);
      SpaceIsNoDigit(s[|s| - n..]);
    }
  }

  lemma ParseOctal(size: nat)
    requires size < Pow8(11)
    ensures ParseSize(Octal(size, 11)) == Some(size)
  {
    hide Octal, Pow8, OctalValue, SkipSpaceStart, SkipSpaceEnd, Trim;
    OctalRoundTrip(size, 11);
    NothingSkipped(Octal(size, 11));
  }

  function Prepend(e: Entry, l: Option<Listing>): Option<Listing> {
    match l
    case None => None
    case Some(ls) => Some(Listing([e] + ls.entries, ls.stop))
  }

  /** Steps from header to header until a zero block or the end; None where a header does not decode.
      `valid` is the test a name must pass to be text. */
  function Walk(data: seq<byte>, pos: nat, valid: seq<byte> -> bool): Option<Listing>
    decreases |data| - pos
  {
    if pos + 512 > |data| || AllZero(data[pos..pos + 512]) then Some(Listing([], pos))
    else
      var name := CutAtNul(data[pos..pos + 100]);
      if !valid(name) then None
      else
        match ParseSize(data[pos + 124..pos + 135])
        case None => None
        case Some(size) => Prepend(Entry(pos, name, size), Walk(data, pos + 512 + (size + 511) / 512 * 512, valid))
  }

  lemma WalkHeader(data: seq<byte>, pos: nat, name: seq<byte>, size: nat, mtime: nat, valid: seq<byte> -> bool)
    requires Holds(data, pos, TarHeader(name, size, mtime)) && size < Pow8(11)
    ensures Walk(data, pos, valid)
         == if valid(Visible(name))
            then Prepend(Entry(pos, Visible(name), size), Walk(data, pos + 512 + size + Padding(size), valid))
            else None
  {
    hide HeaderWith, NameField, Octal, CutAtNul, ParseSize, Checksum;
    var h := TarHeader(name, size, mtime);
    var c := ChecksumField(Checksum(name, size, mtime));
    HeaderFields(name, size, mtime, c);
    HeaderSelfCheck(name, size, mtime);
    HoldsNested(data, pos, h, 0, NameField(name));
    HoldsNested(data, pos, h, 124, Octal(size, 11));
    NameFieldSeen(name);
    ParseOctal(size);
    PaddedSize(size);
  }

  lemma WalkStops(data: seq<byte>, pos: nat, valid: seq<byte> -> bool)
    requires Holds(data, pos, Zeros(1024))
    ensures Walk(data, pos, valid) == Some(Listing([], pos))
  {
    assert Zeros(1024)[..512] == data[pos..pos + 1024][..512];
    assert data[pos..pos + 512] == data[pos..pos + 1024][..512];
  }

  lemma WalkEnds(data: seq<byte>, valid: seq<byte> -> bool)
    ensures Walk(data, |data|, valid) == Some(Listing([], |data|))
  {
  }

  /** Listed members start at the walker's position or behind it, the first one there. */
  lemma {:induction false} WalkAscends(data: seq<byte>, pos: nat, valid: seq<byte> -> bool)
    requires Walk(data, pos, valid).Some?
    ensures var entries := Walk(data, pos, valid).value.entries;
            (entries != [] ==> entries[0].at == pos) && forall e | e in entries :: e.at >= pos
    decreases |data| - pos
  {
    hide ParseSize, CutAtNul;
    if pos + 512 <= |data| && !AllZero(data[pos..pos + 512]) {
      WalkAscends(data, pos + 512 + (ParseSize(data[pos + 124..pos + 135]).value + 511) / 512 * 512, valid);
    }
  }

  // ---- Looking a member up

  /** The position of the first listed member with a name. */
  function FirstNamed(entries: seq<Entry>, name: seq<byte>): Option<nat> {
    if entries == [] then None
    else if entries[0].name == name then Some(entries[0].at)
    else FirstNamed(entries[1..], name)
  }

  /** A member with that name starts at `at`, and none before it has the name. */
  ghost predicate IsFirst(entries: seq<Entry>, name: seq<byte>, at: nat) {
    exists k | 0 <= k < |entries| ::
      entries[k].name == name && entries[k].at == at && forall j | 0 <= j < k :: entries[j].name != name
  }

  lemma {:induction false} FirstIsFirst(entries: seq<Entry>, name: seq<byte>)
    ensures FirstNamed(entries, name).None? <==> forall e | e in entries :: e.name != name
    ensures FirstNamed(entries, name).Some? ==> IsFirst(entries, name, FirstNamed(entries, name).value)
  {
    if entries != [] {
      var rest := entries[1..];
      FirstIsFirst(rest, name);
      assert entries == [entries[0]] + rest;
      if entries[0].name != name && FirstNamed(rest, name).Some? {
        var at := FirstNamed(rest, name).value;
        var k :| 0 <= k < |rest| && rest[k].name == name && rest[k].at == at && forall j | 0 <= j < k :: rest[j].name != name;
        assert forall j | 0 <= j < k + 1 :: entries[j].name != name;
        assert entries[k + 1] == rest[k];
      }
    }
  }

  /** The members whose names a walk gets to see before it ends or fails. */
  function Seen(data: seq<byte>, pos: nat, valid: seq<byte> -> bool): seq<Entry>
    decreases |data| - pos
  {
    if pos + 512 > |data| || AllZero(data[pos..pos + 512]) then []
    else
      var name := CutAtNul(data[pos..pos + 100]);
      if !valid(name) then []
      else
        match ParseSize(data[pos + 124..pos + 135])
        case None => [Entry(pos, name, 0)]
        case Some(size) => [Entry(pos, name, size)] + Seen(data, pos + 512 + (size + 511) / 512 * 512, valid)
  }

  lemma FirstSeen(data: seq<byte>, pos: nat, valid: seq<byte> -> bool, name: seq<byte>)
    ensures FirstNamed(Seen(data, pos, valid), name)
         == if pos + 512 > |data| || AllZero(data[pos..pos + 512]) then None
            else
              var found, size := CutAtNul(data[pos..pos + 100]), ParseSize(data[pos + 124..pos + 135]);
              if !valid(found) then None
              else if found == name then Some(pos)
              else if size.None? then None
              else FirstNamed(Seen(data, pos + 512 + (size.value + 511) / 512 * 512, valid), name)
  {
    hide ParseSize, CutAtNul, AllZero;
  }

  /** On an archive that walks to its end these are all members. */
  lemma {:induction false} WalkSeesAll(data: seq<byte>, pos: nat, valid: seq<byte> -> bool)
    requires Walk(data, pos, valid).Some?
    ensures Seen(data, pos, valid) == Walk(data, pos, valid).value.entries
    decreases |data| - pos
  {
    hide ParseSize, CutAtNul;
    if pos + 512 <= |data| && !AllZero(data[pos..pos + 512]) {
      WalkSeesAll(data, pos + 512 + (ParseSize(data[pos + 124..pos + 135]).value + 511) / 512 * 512, valid);
    }
  }

  /** `find_file_in_tar`: the first member with that name among those seen, on any data. */
  method FindFile(data: seq<byte>, name: seq<byte>, valid: seq<byte> -> bool) returns (at: Option<nat>)
    ensures at == FirstNamed(Seen(data, 0, valid), name)
    ensures at.None? ==> forall e | e in Seen(data, 0, valid) :: e.name != name
    ensures at.Some? ==> IsFirst(Seen(data, 0, valid), name, at.value)
  {
    hide ParseSize, CutAtNul, Seen, FirstNamed;
    FirstIsFirst(Seen(data, 0, valid), name);
    var pos: nat := 0;
    while pos + 512 <= |data|
      invariant FirstNamed(Seen(data, 0, valid), name) == FirstNamed(Seen(data, pos, valid), name)
      decreases |data| - pos
    {
      FirstSeen(data, pos, valid, name);
      if AllZero(data[pos..pos + 512]) {
        break;
      }
      var found := CutAtNul(data[pos..pos + 100]);
      if !valid(found) {
        return None;
      }
      if found == name {
        return Some(pos);
      }
      var size := ParseSize(data[pos + 124..pos + 135]);
      if size.None? {
        return None;
      }
      var contentBlocks := (size.value + 511) / 512;
      pos := pos + 512 + contentBlocks * 512;
    }
    FirstSeen(data, pos, valid, name);
    return None;
  }
}
