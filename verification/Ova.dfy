/** The OVA writer: TAR members, buffered or streamed, and a closing manifest of their hashes. */
module Ova {
  import opened Bytes
  import opened Results
  import opened Tar
  import Text

  /** SHA-256 as a parameter: a function of the bytes fed to it. */
  type Sha = seq<byte> -> seq<byte>

  // ---- Hexadecimal text

  /** A hexadecimal digit as a byte of text. */
  function HexDigit(d: nat): (c: byte)
    requires d < 16
    ensures 48 <= c < 58 || 97 <= c < 103
  {
    Text.HexChar(d) as int
  }

  function HexEncode(s: seq<byte>): (t: seq<byte>)
    ensures |t| == 2 * |s|
    ensures forall i | 0 <= i < |t| :: 48 <= t[i] < 58 || 97 <= t[i] < 103
  {
    if s == [] then [] else HexEncode(s[..|s| - 1]) + [HexDigit(s[|s| - 1] / 16), HexDigit(s[|s| - 1] % 16)]
  }

  /** Its value, 16 for anything else. */
  function HexValue(c: byte): nat {
    match Text.HexDigit(c as char)
    case None => 16
    case Some(d) => d
  }

  function HexDecode(t: seq<byte>): Option<seq<byte>> {
    if t == [] then Some([])
    else if |t| == 1 then None
    else
      var hi, lo := HexValue(t[|t| - 2]), HexValue(t[|t| - 1]);
      match HexDecode(t[..|t| - 2])
      case None => None
      case Some(s) => if hi < 16 && lo < 16 then Some(s + [16 * hi + lo]) else None
  }

  lemma HexByte(b: byte)
    ensures 16 * HexValue(HexDigit(b / 16)) + HexValue(HexDigit(b % 16))
         == b
    ensures HexValue(HexDigit(b / 16)) < 16 && HexValue(HexDigit(b % 16)) < 16
  {
  }

  lemma DecodeLast(t: seq<byte>)
    requires |t| >= 2 && HexDecode(t[..|t| - 2]).Some? && HexValue(t[|t| - 2]) < 16 && HexValue(t[|t| - 1]) < 16
    ensures HexDecode(t) == Some(HexDecode(t[..|t| - 2]).value + [16 * HexValue(t[|t| - 2]) + HexValue(t[|t| - 1])])
  {
    hide HexValue;
  }

  lemma DecodePair(front: seq<byte>, a: byte, b: byte)
    requires HexDecode(front).Some? && HexValue(a) < 16 && HexValue(b) < 16
    ensures HexDecode(front + [a, b]) == Some(HexDecode(front).value + [16 * HexValue(a) + HexValue(b)])
  {
    hide HexValue, HexDecode;
    var t := front + [a, b];
    assert t[|t| - 2] == a && t[|t| - 1] == b && t[..|t| - 2] == front;
    DecodeLast(t);
  }

  lemma EncodeSnoc(s: seq<byte>, b: byte)
    ensures HexEncode(s + [b]) == HexEncode(s) + [HexDigit(b / 16), HexDigit(b % 16)]
  {
    assert (s + [b])[..|s + [b]| - 1] == s;
  }

  lemma {:induction false} HexRoundTrip(s: seq<byte>)
    ensures HexDecode(HexEncode(s)) == Some(s)
  {
    hide HexDecode, HexEncode, HexDigit, HexValue;
    if s == [] {
      HexOfNothing();
    } else {
      var init, b := s[..|s| - 1], s[|s| - 1];
      HexRoundTrip(init);
      EncodeSnoc(init, b);
      HexByte(b);
      DecodePair(HexEncode(init), HexDigit(b / 16), HexDigit(b % 16));
      assert s == init + [b];
    }
  }

  /** Two digits for every byte, the upper half first. */
  lemma {:induction false} HexDigits(s: seq<byte>, i: nat)
    requires i < |s|
    ensures HexEncode(s)[2 * i] == Ascii("0123456789abcdef")[s[i] / 16]
    ensures HexEncode(s)[2 * i + 1] == Ascii("0123456789abcdef")[s[i] % 16]
  {
    var init, b := s[..|s| - 1], s[|s| - 1];
    if i == |s| - 1 {
      HexLetters(b / 16);
      HexLetters(b % 16);
    } else {
      HexDigits(init, i);
    }
  }

  lemma HexLetters(d: nat)
    requires d < 16
    ensures HexDigit(d) == Ascii("0123456789abcdef")[d]
  {
  }

  lemma HexOfNothing()
    ensures HexDecode(HexEncode([])) == Some([])
  {
  }

  function HashText(sha: Sha, data: seq<byte>): seq<byte> {
    HexEncode(sha(data))
  }

  // ---- The archive as a function of the calls

  datatype ManifestEntry = ManifestEntry(filename: seq<byte>, hash: seq<byte>)

  datatype Archive = Archive(output: seq<byte>, entries: seq<ManifestEntry>, position: nat)

  datatype File = File(name: seq<byte>, data: seq<byte>, mtime: nat)

  /** What the header can express: eleven octal digits of size and time. Anything wider panics. */
  predicate Writable(f: File) {
    |f.data| < Pow8(11) && f.mtime < Pow8(11)
  }

  function MemberBytes(f: File): (s: seq<byte>)
    ensures |s| == 512 + |f.data| + Padding(|f.data|)
  {
    TarHeader(f.name, |f.data|, f.mtime) + PadToSector(f.data)
  }

  /** Header, data and padding written one after the other make one member. */
  lemma MemberEmitted(before: seq<byte>, f: File)
    ensures before + TarHeader(f.name, |f.data|, f.mtime) + f.data + Zeros((512 - |f.data| % 512) % 512)
         == before + MemberBytes(f)
  {
    hide TarHeader;
    var h, z := TarHeader(f.name, |f.data|, f.mtime), Zeros(Padding(|f.data|));
    Assoc(before, h, f.data);
    Assoc(before, h + f.data, z);
    Assoc(h, f.data, z);
  }

  /** The archive after one more complete member. */
  function Added(a: Archive, sha: Sha, f: File): Archive {
    Archive(a.output + MemberBytes(f),
            a.entries + [ManifestEntry(f.name, HashText(sha, f.data))],
            a.position + |MemberBytes(f)|)
  }

  /** "SHA256(", ")= " and "manifest.mf". */
  const LINE_START: seq<byte> := [83, 72, 65, 50, 53, 54, 40]
  const LINE_MIDDLE: seq<byte> := [41, 61, 32]
  const NEWLINE: byte := 10
  const MANIFEST_NAME: seq<byte> := [109, 97, 110, 105, 102, 101, 115, 116, 46, 109, 102]

  function ManifestLine(e: ManifestEntry): seq<byte> {
    LINE_START + e.filename + LINE_MIDDLE + e.hash
  }

  function Manifest(entries: seq<ManifestEntry>): seq<byte> {
    if entries == [] then []
    else ManifestLine(entries[0]) + [NEWLINE] + Manifest(entries[1..])
  }

  function ManifestFile(entries: seq<ManifestEntry>, mtime: nat): File {
    File(MANIFEST_NAME, Manifest(entries), mtime)
  }

  /** The finished file: members, the manifest if there is anything to list, and two zero blocks. */
  function Finished(a: Archive, mtime: nat): seq<byte> {
    a.output + (if a.entries == [] then [] else MemberBytes(ManifestFile(a.entries, mtime))) + Zeros(1024)
  }

  class OvaWriter {
    var output: seq<byte>
    var entries: seq<ManifestEntry>
    var currentPosition: nat
    const sha: Sha

    ghost function State(): Archive
      reads this
    {
      Archive(output, entries, currentPosition)
    }

    constructor (sha: Sha)
      ensures State() == Archive([], [], 0) && this.sha == sha
    {
      this.sha := sha;
      output, entries, currentPosition := [], [], 0;
    }

    method AddFile(name: seq<byte>, data: seq<byte>, mtime: nat)
      requires Writable(File(name, data, mtime))
      modifies this
      ensures State() == Added(old(State()), sha, File(name, data, mtime))
    {
      hide Pow8, TarHeader, HexEncode, MemberBytes;
      ghost var before := output;
      var hash := HexEncode(sha(data));
      var header := CreateTarHeader(name, |data|, mtime);
      output := output + header;
      currentPosition := currentPosition + 512;
      output := output + data;
      currentPosition := currentPosition + |data|;
      var paddingNeeded := (512 - |data| % 512) % 512;
      assert Zeros(0) == [] && output + [] == output;
      if paddingNeeded > 0 {
        output := output + Zeros(paddingNeeded);
        currentPosition := currentPosition + paddingNeeded;
      }
      entries := entries + [ManifestEntry(name, hash)];
      MemberEmitted(before, File(name, data, mtime));
    }

    method GenerateManifest() returns (text: seq<byte>)
      ensures text == Manifest(entries)
    {
      text := [];
      for i := 0 to |entries|
        invariant text + Manifest(entries[i..]) == Manifest(entries)
      {
        assert entries[i..][1..] == entries[i + 1..];
        ghost var line := ManifestLine(entries[i]) + [NEWLINE];
        Assoc(text, line, Manifest(entries[i + 1..]));
        text := text + (ManifestLine(entries[i]) + [NEWLINE]);
      }
      assert text + [] == text;
    }

    /** Appends the manifest and the end marker; `currentPosition` is not moved any more. */
    method Finish(mtime: nat) returns (file: seq<byte>)
      requires Writable(ManifestFile(entries, mtime))
      modifies this
      ensures file == Finished(old(State()), mtime) == output
      ensures entries == old(entries) && currentPosition == old(currentPosition)
    {
      hide Pow8, TarHeader, Manifest, MemberBytes;
      ghost var before := output;
      if entries != [] {
        var manifest := GenerateManifest();
        var header := CreateTarHeader(MANIFEST_NAME, |manifest|, mtime);
        output := output + header;
        output := output + manifest;
        var paddingNeeded := (512 - |manifest| % 512) % 512;
        assert Zeros(0) == [] && output + [] == output;
        if paddingNeeded > 0 {
          output := output + Zeros(paddingNeeded);
        }
        MemberEmitted(before, File(MANIFEST_NAME, manifest, mtime));
      } else {
        assert before + [] == before;
      }
      output := output + Zeros(1024);
      file := output;
    }

    /** Writes the header for an announced size; the data comes through the returned writer. */
    method AddFileStreaming(name: seq<byte>, size: nat, mtime: nat) returns (w: StreamingFileWriter)
      requires size < Pow8(11) && mtime < Pow8(11)
      modifies this
      ensures fresh(w) && w.ova == this
      ensures w.State() == Opened(old(State()), name, size, mtime)
    {
      hide Pow8, TarHeader;
      var header := CreateTarHeader(name, size, mtime);
      output := output + header;
      currentPosition := currentPosition + 512;
      w := new StreamingFileWriter(this, name, size);
    }
  }

  // ---- Streaming

  /** A member being streamed: the archive so far, what was announced and what went through. */
  datatype Stream = Stream(archive: Archive, filename: seq<byte>, expected: nat, hashed: seq<byte>, written: nat)

  function Opened(a: Archive, name: seq<byte>, size: nat, mtime: nat): Stream {
    Stream(Archive(a.output + TarHeader(name, size, mtime), a.entries, a.position + 512), name, size, [], 0)
  }

  /** One `write` call: the buffer offered and how many bytes of it the inner writer takes. */
  datatype WriteCall = WriteCall(buf: seq<byte>, taken: nat)

  /** A call that would exceed the announced size is refused and changes nothing. */
  function Written(s: Stream, c: WriteCall): Stream
    requires c.taken <= |c.buf|
  {
    if s.written + |c.buf| > s.expected then s
    else
      var part := c.buf[..c.taken];
      Stream(s.archive.(output := s.archive.output + part), s.filename, s.expected, s.hashed + part, s.written + c.taken)
  }

  /** Closing succeeds only on the announced size; then the member is padded and listed. */
  function Closed(s: Stream, sha: Sha): Result<Archive, ()> {
    if s.written != s.expected then Err(())
    else
      var p := Padding(s.written);
      Ok(Archive(s.archive.output + Zeros(p),
                 s.archive.entries + [ManifestEntry(s.filename, HexEncode(sha(s.hashed)))],
                 s.archive.position + s.written + p))
  }

  class StreamingFileWriter {
    const ova: OvaWriter
    const filename: seq<byte>
    const expectedSize: nat
    var hashed: seq<byte>
    var bytesWritten: nat

    ghost function State(): Stream
      reads this, ova
    {
      Stream(ova.State(), filename, expectedSize, hashed, bytesWritten)
    }

    constructor (ova: OvaWriter, filename: seq<byte>, expectedSize: nat)
      ensures this.ova == ova
      ensures State() == Stream(ova.State(), filename, expectedSize, [], 0)
    {
      this.ova, this.filename, this.expectedSize := ova, filename, expectedSize;
      hashed, bytesWritten := [], 0;
    }

    method Write(buf: seq<byte>, taken: nat) returns (r: Result<nat, ()>)
      requires taken <= |buf|
      modifies this, ova
      ensures State() == Written(old(State()), WriteCall(buf, taken))
      ensures r == if old(bytesWritten) + |buf| > expectedSize then Err(()) else Ok(taken)
    {
      if bytesWritten + |buf| > expectedSize {
        return Err(());
      }
      ova.output := ova.output + buf[..taken];
      hashed := hashed + buf[..taken];
      bytesWritten := bytesWritten + taken;
      return Ok(taken);
    }

    method Finish() returns (r: Result<(), ()>)
      modifies this, ova
      ensures r.Ok? <==> Closed(old(State()), ova.sha).Ok?
      ensures r.Ok? ==> ova.State() == Closed(old(State()), ova.sha).value
      ensures r.Err? ==> State() == old(State())
    {
      if bytesWritten != expectedSize {
        return Err(());
      }
      var hash := HexEncode(ova.sha(hashed));
      ova.currentPosition := ova.currentPosition + bytesWritten;
      var paddingNeeded := (512 - bytesWritten % 512) % 512;
      assert Zeros(0) == [] && ova.output + [] == ova.output;
      if paddingNeeded > 0 {
        ova.output := ova.output + Zeros(paddingNeeded);
        ova.currentPosition := ova.currentPosition + paddingNeeded;
      }
      ova.entries := ova.entries + [ManifestEntry(filename, hash)];
      return Ok(());
    }
  }

  function WrittenAll(s: Stream, calls: seq<WriteCall>): Stream
    requires forall c | c in calls :: c.taken <= |c.buf|
  {
    if calls == [] then s else Written(WrittenAll(s, calls[..|calls| - 1]), calls[|calls| - 1])
  }

  /** What has gone through so far is exactly what the archive gained, and never more than announced. */
  lemma {:induction false} StreamInvariant(a: Archive, name: seq<byte>, size: nat, mtime: nat, calls: seq<WriteCall>)
    requires forall c | c in calls :: c.taken <= |c.buf|
    ensures var s := WrittenAll(Opened(a, name, size, mtime), calls);
            var archive := Archive(a.output + TarHeader(name, size, mtime) + s.hashed, a.entries, a.position + 512);
            s == Stream(archive, name, size, s.hashed, |s.hashed|) && |s.hashed| <= size
  {
    hide TarHeader;
    var open := Opened(a, name, size, mtime);
    if calls == [] {
      assert open.archive.output + [] == open.archive.output;
    } else {
      var c := calls[|calls| - 1];
      StreamInvariant(a, name, size, mtime, calls[..|calls| - 1]);
      var s := WrittenAll(open, calls[..|calls| - 1]);
      Assoc(open.archive.output, s.hashed, c.buf[..c.taken]);
    }
  }

  /** Streaming refines buffering: however the data is cut into writes, short ones and refused ones included,
      closing succeeds exactly when the announced number of bytes went through, and then the archive is the
      one `add_file` leaves for those bytes. */
  lemma StreamingRefinesBuffered(a: Archive, sha: Sha, name: seq<byte>, size: nat, mtime: nat, calls: seq<WriteCall>)
    requires forall c | c in calls :: c.taken <= |c.buf|
    ensures var s := WrittenAll(Opened(a, name, size, mtime), calls);
            Closed(s, sha) == if |s.hashed| == size then Ok(Added(a, sha, File(name, s.hashed, mtime))) else Err(())
  {
    hide TarHeader, WrittenAll, HexEncode;
    StreamInvariant(a, name, size, mtime, calls);
    var data := WrittenAll(Opened(a, name, size, mtime), calls).hashed;
    var h, z := TarHeader(name, size, mtime), Zeros(Padding(|data|));
    Assoc(a.output, h, data);
    Assoc(a.output, h + data, z);
    Assoc(h, data, z);
  }

  function Offered(calls: seq<WriteCall>): seq<byte> {
    if calls == [] then [] else Offered(calls[..|calls| - 1]) + calls[|calls| - 1].buf
  }

  /** When every write is taken whole and the total stays within the announced size, nothing is refused
      and all that was offered goes through in order. */
  lemma {:induction false} WholeWrites(a: Archive, name: seq<byte>, size: nat, mtime: nat, calls: seq<WriteCall>)
    requires forall c | c in calls :: c.taken == |c.buf|
    requires |Offered(calls)| <= size
    ensures WrittenAll(Opened(a, name, size, mtime), calls).hashed
         == Offered(calls)
  {
    hide TarHeader;
    if calls != [] {
      var c := calls[|calls| - 1];
      WholeWrites(a, name, size, mtime, calls[..|calls| - 1]);
      StreamInvariant(a, name, size, mtime, calls[..|calls| - 1]);
      assert c.buf[..c.taken] == c.buf;
    }
  }
}
