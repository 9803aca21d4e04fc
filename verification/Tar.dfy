/** The ustar header block. */
module Tar {
  import opened Bytes
  import opened Results
  import Text

  const BLOCK: nat := 512

  function Pow8(w: nat): (p: nat)
    ensures p > 0
  {
    if w == 0 then 1 else 8 * Pow8(w - 1)
  }

  /** `{:0w o}` of a number below 8^w: `w` octal digits, most significant first. */
  function Octal(n: nat, w: nat): (s: seq<byte>)
    ensures |s| == w
    ensures forall i | 0 <= i < w :: 48 <= s[i] < 56
  {
    if w == 0 then [] else Octal(n / 8, w - 1) + [48 + n % 8]
  }

  /** Base-8 value of a string of octal digits. */
  function OctalValue(s: seq<byte>): Option<nat> {
    if s == [] then Some(0)
    else
      var d := s[|s| - 1];
      match OctalValue(s[..|s| - 1])
      case None => None
      case Some(v) => if 48 <= d < 56 then Some(8 * v + (d - 48)) else None
  }

  lemma {:induction false} OctalRoundTrip(n: nat, w: nat)
    requires n < Pow8(w)
    ensures OctalValue(Octal(n, w)) == Some(n)
  {
    if w > 0 {
      OctalRoundTrip(n / 8, w - 1);
      var s := Octal(n, w);
      assert s[..|s| - 1] == Octal(n / 8, w - 1);
    }
  }

  /** The first digit counts most: in front of `w` digits it stands for 8^w times its value. */
  lemma {:induction false} OctalLeading(d: nat, s: seq<byte>)
    requires d < 8 && OctalValue(s).Some?
    ensures OctalValue([48 + d] + s) == Some(d * Pow8(|s|) + OctalValue(s).value)
  {
    var t := [48 + d] + s;
    if s == [] {
      assert t[..0] == [];
    } else {
      OctalLeading(d, s[..|s| - 1]);
      assert t[..|t| - 1] == [48 + d] + s[..|s| - 1];
    }
  }

  lemma Pow8Values()
    ensures Pow8(6) == 262144 && Pow8(11) == 8589934592
  {
    assert Pow8(3) == 512;
    assert Pow8(6) == 512 * Pow8(3);
    assert Pow8(9) == 512 * Pow8(6);
    assert Pow8(11) == 64 * Pow8(9);
  }

  // ---- The header

  /** Names longer than 99 bytes are cut so that a NUL always ends the field. */
  function NameField(name: seq<byte>): (s: seq<byte>)
    ensures |s| == 100
  {
    if |name| <= 99 then name + Zeros(100 - |name|) else name[..99] + Zeros(1)
  }

  /** "0000644" and "0000000", each with its NUL; eight spaces; "ustar", "00" and "root". */
  const MODE: seq<byte> := [48, 48, 48, 48, 54, 52, 52, 0]
  const ID: seq<byte> := [48, 48, 48, 48, 48, 48, 48, 0]
  const SPACES: seq<byte> := [32, 32, 32, 32, 32, 32, 32, 32]
  const USTAR: seq<byte> := [117, 115, 116, 97, 114, 0, 48, 48]
  const ROOT: seq<byte> := [114, 111, 111, 116]

  /** The block with a given checksum field. */
  function HeaderWith(name: seq<byte>, size: nat, mtime: nat, checksum: seq<byte>): (s: seq<byte>)
    requires |checksum| == 8
    ensures |s| == BLOCK
  {
    NameField(name) + (MODE + (ID + (ID + (Octal(size, 11) + ([0] + (Octal(mtime, 11) + ([0]
    + (checksum + ([48] + (Zeros(100) + (USTAR + (ROOT + (Zeros(28) + (ROOT + Zeros(211)))))))))))))))
  }

  function Sum(s: seq<byte>): nat {
    if s == [] then 0 else Sum(s[..|s| - 1]) + s[|s| - 1]
  }

  lemma {:induction false} SumBound(s: seq<byte>)
    ensures Sum(s) <= 255 * |s|
  {
    if s != [] {
      SumBound(s[..|s| - 1]);
    }
  }

  /** A sum of bytes: nothing for none, a byte for itself, and sums of parts add up. */
  lemma {:induction false} SumAdds(a: seq<byte>, b: seq<byte>)
    ensures Sum(a + b) == Sum(a) + Sum(b)
    ensures Sum([]) == 0 && forall c: byte {:trigger Sum([c])} :: Sum([c]) == c
  {
    forall c: byte
      ensures Sum([c]) == c
    {
      assert [c][..0] == [];
    }
    if b == [] {
      assert a + b == a;
    } else {
      SumAdds(a, b[..|b| - 1]);
      assert (a + b)[..|a + b| - 1] == a + b[..|b| - 1];
    }
  }

  /** The same sum by value instead of by place: each byte value below `n` as often as it occurs. */
  function SumByValue(s: seq<byte>, n: nat): nat {
    if n == 0 then 0 else SumByValue(s, n - 1) + Times(n - 1, Text.Count(s, n - 1))
  }

  function Times(v: nat, k: nat): nat {
    v * k
  }

  lemma TimesNext(v: nat, k: nat)
    ensures Times(v, k + 1) == Times(v, k) + v && Times(v, 0) == 0
  {
  }

  lemma Counted(s: seq<byte>, c: byte, v: int)
    ensures Text.Count(s + [c], v) == Text.Count(s, v) + if c == v then 1 else 0
  {
    Text.CountConcat(s, [c], v);
    assert [c][1..] == [];
  }

  lemma {:induction false} OneMore(s: seq<byte>, c: byte, n: nat)
    ensures SumByValue(s + [c], n) == SumByValue(s, n) + if c < n then c else 0
  {
    if n > 0 {
      hide Text.Count, Times;
      OneMore(s, c, n - 1);
      Counted(s, c, n - 1);
      TimesNext(n - 1, Text.Count(s, n - 1));
    }
  }

  lemma {:induction false} SumIsByValue(s: seq<byte>)
    ensures Sum(s) == SumByValue(s, 256)
  {
    if s == [] {
      NothingToSum(256);
    } else {
      var init := s[..|s| - 1];
      SumIsByValue(init);
      OneMore(init, s[|s| - 1], 256);
      assert s == init + [s[|s| - 1]];
    }
  }

  lemma {:induction false} NothingToSum(n: nat)
    ensures SumByValue([], n) == 0
  {
    if n > 0 {
      hide Times;
      NothingToSum(n - 1);
      TimesNext(n - 1, 0);
    }
  }

  function Checksum(name: seq<byte>, size: nat, mtime: nat): nat {
    Sum(HeaderWith(name, size, mtime, SPACES))
  }

  function ChecksumField(sum: nat): (s: seq<byte>)
    ensures |s| == 8
  {
    Octal(sum, 6) + [0, 32]
  }

  function TarHeader(name: seq<byte>, size: nat, mtime: nat): (s: seq<byte>)
    ensures |s| == BLOCK
  {
    HeaderWith(name, size, mtime, ChecksumField(Checksum(name, size, mtime)))
  }

  /** The fixed fields of a header as text. */
  lemma FixedFields()
    ensures MODE == Ascii("0000644\0") && ID == Ascii("0000000\0") && SPACES == Ascii("        ")
    ensures USTAR == Ascii("ustar\0" + "00") && ROOT == Ascii("root")
  {
  }

  /** Every field sits at its ustar offset. */
  lemma HeaderFields(name: seq<byte>, size: nat, mtime: nat, checksum: seq<byte>)
    requires |checksum| == 8
    ensures var s := HeaderWith(name, size, mtime, checksum);
            && Holds(s, 0, NameField(name))
            && Holds(s, 100, Ascii("0000644\0")) && Holds(s, 108, Ascii("0000000\0")) && Holds(s, 116, Ascii("0000000\0"))
            && Holds(s, 124, Octal(size, 11)) && Holds(s, 135, [0])
            && Holds(s, 136, Octal(mtime, 11)) && Holds(s, 147, [0])
            && Holds(s, 148, checksum) && Holds(s, 156, Ascii("0")) && Holds(s, 157, Zeros(100))
            && Holds(s, 257, Ascii("ustar\0" + "00")) && Holds(s, 265, Ascii("root")) && Holds(s, 269, Zeros(28))
            && Holds(s, 297, Ascii("root")) && Holds(s, 301, Zeros(211))
  {
    hide HeaderWith, Octal, NameField, Holds;
    FieldsAt(name, size, mtime, checksum);
    FixedFields();
    assert Ascii("0") == [48];
  }

  lemma FieldsAt(name: seq<byte>, size: nat, mtime: nat, checksum: seq<byte>)
    requires |checksum| == 8
    ensures var s := HeaderWith(name, size, mtime, checksum);
            && Holds(s, 0, NameField(name)) && Holds(s, 100, MODE) && Holds(s, 108, ID) && Holds(s, 116, ID)
            && Holds(s, 124, Octal(size, 11)) && Holds(s, 135, [0])
            && Holds(s, 136, Octal(mtime, 11)) && Holds(s, 147, [0])
            && Holds(s, 148, checksum) && Holds(s, 156, [48]) && Holds(s, 157, Zeros(100))
            && Holds(s, 257, USTAR) && Holds(s, 265, ROOT) && Holds(s, 269, Zeros(28))
            && Holds(s, 297, ROOT) && Holds(s, 301, Zeros(211))
  {
    hide Octal, NameField;
    var t14 := ROOT + Zeros(211);
    var t13 := Zeros(28) + t14;
    var t12 := ROOT + t13;
    var t11 := USTAR + t12;
    var t10 := Zeros(100) + t11;
    var t9 := [48] + t10;
    var t8 := checksum + t9;
    var t7 := [0] + t8;
    var t6 := Octal(mtime, 11) + t7;
    var t5 := [0] + t6;
    var t4 := Octal(size, 11) + t5;
    var t3 := ID + t4;
    var t2 := ID + t3;
    var t1 := MODE + t2;
    var s := HeaderWith(name, size, mtime, checksum);
    assert s == NameField(name) + t1;
    assert Holds(s, 0, s);
    HoldsParts(s, 0, NameField(name), t1);
    HoldsParts(s, 100, MODE, t2);
    HoldsParts(s, 108, ID, t3);
    HoldsParts(s, 116, ID, t4);
    HoldsParts(s, 124, Octal(size, 11), t5);
    HoldsParts(s, 135, [0], t6);
    HoldsParts(s, 136, Octal(mtime, 11), t7);
    HoldsParts(s, 147, [0], t8);
    HoldsParts(s, 148, checksum, t9);
    HoldsParts(s, 156, [48], t10);
    HoldsParts(s, 157, Zeros(100), t11);
    HoldsParts(s, 257, USTAR, t12);
    HoldsParts(s, 265, ROOT, t13);
    HoldsParts(s, 269, Zeros(28), t14);
    HoldsParts(s, 297, ROOT, Zeros(211));
  }

  /** Overwriting the checksum field changes nothing else. */
  lemma Rechecksum(name: seq<byte>, size: nat, mtime: nat, a: seq<byte>, b: seq<byte>)
    requires |a| == 8 == |b|
    ensures Splice(HeaderWith(name, size, mtime, a), 148, b)
         == HeaderWith(name, size, mtime, b)
  {
    hide Octal, NameField;
    var front := NameField(name) + MODE + ID + ID + Octal(size, 11) + [0] + Octal(mtime, 11) + [0];
    var back := [48] + (Zeros(100) + (USTAR + (ROOT + (Zeros(28) + (ROOT + Zeros(211))))));
    Fronted(name, size, mtime, a);
    Fronted(name, size, mtime, b);
    assert Splice(front + a + back, 148, b) == front + b + back;
  }

  lemma Fronted(name: seq<byte>, size: nat, mtime: nat, c: seq<byte>)
    requires |c| == 8
    ensures HeaderWith(name, size, mtime, c)
         == NameField(name) + MODE + ID + ID + Octal(size, 11) + [0] + Octal(mtime, 11) + [0] + c
            + ([48] + (Zeros(100) + (USTAR + (ROOT + (Zeros(28) + (ROOT + Zeros(211)))))))
  {
    hide Octal, NameField;
    var n, o, m := NameField(name), Octal(size, 11), Octal(mtime, 11);
    var back := [48] + (Zeros(100) + (USTAR + (ROOT + (Zeros(28) + (ROOT + Zeros(211))))));
    var f1 := n + MODE;
    var f2 := f1 + ID;
    var f3 := f2 + ID;
    var f4 := f3 + o;
    var f5 := f4 + [0];
    var f6 := f5 + m;
    var f7 := f6 + [0];
    Assoc(f7, c, back);
    Assoc(f6, [0], c + back);
    Assoc(f5, m, [0] + (c + back));
    Assoc(f4, [0], m + ([0] + (c + back)));
    Assoc(f3, o, [0] + (m + ([0] + (c + back))));
    Assoc(f2, ID, o + ([0] + (m + ([0] + (c + back)))));
    Assoc(f1, ID, ID + (o + ([0] + (m + ([0] + (c + back))))));
    Assoc(n, MODE, ID + (ID + (o + ([0] + (m + ([0] + (c + back)))))));
  }

  /** The stored checksum is the byte sum with the field itself read as spaces; it fits its six digits;
      the size field decodes to the size; the block is not the end marker. */
  lemma HeaderSelfCheck(name: seq<byte>, size: nat, mtime: nat)
    requires size < Pow8(11)
    ensures var h := TarHeader(name, size, mtime);
            && Checksum(name, size, mtime) < Pow8(6)
            && OctalValue(h[148..154]) == Some(SumByValue(Splice(h, 148, Ascii("        ")), 256))
            && h[154..156] == [0, 32]
            && OctalValue(h[124..135]) == Some(size)
            && !AllZero(h)
  {
    hide Octal, OctalValue, HeaderWith, Sum, SumByValue;
    assert SPACES == Ascii("        ");
    var sum := Checksum(name, size, mtime);
    var h := TarHeader(name, size, mtime);
    SumBound(HeaderWith(name, size, mtime, SPACES));
    Pow8Values();
    FieldsAt(name, size, mtime, ChecksumField(sum));
    HoldsParts(h, 148, Octal(sum, 6), [0, 32]);
    Rechecksum(name, size, mtime, ChecksumField(sum), SPACES);
    OctalRoundTrip(sum, 6);
    OctalRoundTrip(size, 11);
    SumIsByValue(Splice(h, 148, SPACES));
    assert h[156..157][0] == 48;
  }

  /** The header is built in place: fields in order over a zeroed block, then the checksum over the spaces. */
  method CreateTarHeader(name: seq<byte>, size: nat, mtime: nat) returns (header: seq<byte>)
    requires size < Pow8(11) && mtime < Pow8(11) // wider numbers panic in the source
    ensures header == TarHeader(name, size, mtime)
  {
    hide Octal, HeaderWith, Sum, Pow8, Holds, FilledTo, NameField, Splice;
    ghost var s := HeaderWith(name, size, mtime, SPACES);
    FieldsAt(name, size, mtime, SPACES);
    var buf := new byte[BLOCK](i => 0);
    FillStart(buf[..], s);
    var nameLen := if |name| < 99 then |name| else 99;
    NameHolds(s, name, nameLen);
    PutField(buf, s, 0, name[..nameLen]);
    FillSkip(buf[..], s, nameLen, 100 - nameLen);
    PutField(buf, s, 100, MODE);
    PutField(buf, s, 108, ID);
    PutField(buf, s, 116, ID);
    PutField(buf, s, 124, Octal(size, 11));
    PutField(buf, s, 135, [0]);
    PutField(buf, s, 136, Octal(mtime, 11));
    PutField(buf, s, 147, [0]);
    PutField(buf, s, 148, SPACES);
    PutField(buf, s, 156, [48]);
    FillSkip(buf[..], s, 157, 100);
    PutField(buf, s, 257, USTAR);
    PutField(buf, s, 265, ROOT);
    FillSkip(buf[..], s, 269, 28);
    PutField(buf, s, 297, ROOT);
    FillSkip(buf[..], s, 301, 211);
    FillEnd(buf[..], s);
    var checksum := SumArray(buf);
    CopyInto(buf, 148, ChecksumField(checksum));
    Rechecksum(name, size, mtime, SPACES, ChecksumField(checksum));
    header := buf[..];
  }

  lemma NameHolds(s: seq<byte>, name: seq<byte>, n: nat)
    requires n == (if |name| < 99 then |name| else 99) && Holds(s, 0, NameField(name))
    ensures Holds(s, 0, name[..n]) && Holds(s, n, Zeros(100 - n))
  {
    assert NameField(name) == name[..n] + Zeros(100 - n);
    HoldsParts(s, 0, name[..n], Zeros(100 - n));
  }

  method SumArray(a: array<byte>) returns (sum: nat)
    ensures sum == Sum(a[..])
  {
    sum := 0;
    for i := 0 to a.Length
      invariant sum == Sum(a[..i])
    {
      assert a[..i + 1][..i] == a[..i];
      sum := sum + a[i];
    }
    assert a[..a.Length] == a[..];
  }
}
