/** Which size fields the archive walker can read, and as which number. */
module SizeField {
  import opened Bytes
  import opened Results
  import opened Tar
  import opened TarWalk
  import opened Text

  /** A character below U+10000 in UTF-8. */
  function Utf8(n: nat): seq<byte>
    requires n < 0x1_0000
  {
    if n < 0x80 then [n]
    else if n < 0x800 then [0xC0 + n / 64, 0x80 + n % 64]
    else [0xE0 + n / 4096, 0x80 + n / 64 % 64, 0x80 + n % 64]
  }

  type White = n: nat | n < 0x1_0000 && IsWhite(n) witness 32

  /** White space, character by character. */
  function WhiteText(ns: seq<White>): seq<byte> {
    if ns == [] then [] else Utf8(ns[0]) + WhiteText(ns[1..])
  }

  /** The field is `n` in octal digits, perhaps after a plus sign, with white space and then NULs around it. */
  ghost predicate SaysSize(field: seq<byte>, n: nat) {
    exists nuls: nat, front: seq<White>, digits: seq<byte>, back: seq<White>, more: nat ::
      && field == Zeros(nuls) + (WhiteText(front) + digits + WhiteText(back)) + Zeros(more)
      && IsOctal(digits, n)
  }

  ghost predicate IsOctal(digits: seq<byte>, n: nat) {
    exists k: nat :: k > 0 && n < Pow8(k) && (digits == Octal(n, k) || digits == [43] + Octal(n, k))
  }

  // ---- White space

  lemma SpaceIsWhite(c: seq<byte>)
    ensures IsSpace(c) <==> exists n: White :: c == Utf8(n)
  {
    hide IsWhite, TwoBytes, ThreeBytes, Utf8;
    if IsSpace(c) {
      if |c| == 1 {
        OneForth(c[0]);
        WhiteBelow(c[0]);
        assert Utf8(c[0]) == c;
      } else if |c| == 2 {
        TwoForth(c[0], c[1]);
        WhiteBelow(TwoBytes(c[0], c[1]));
        assert Utf8(TwoBytes(c[0], c[1])) == c;
      } else {
        ThreeForth(c[0], c[1], c[2]);
        WhiteBelow(ThreeBytes(c[0], c[1], c[2]));
        assert Utf8(ThreeBytes(c[0], c[1], c[2])) == c;
      }
    }
    if n: White :| c == Utf8(n) {
      WhiteIsSpace(n);
    }
  }

  lemma WhiteBelow(n: nat)
    requires IsWhite(n)
    ensures n < 0x1_0000
  {
  }

  lemma OneForth(a: byte)
    requires a < 0x80
    ensures Utf8(a) == [a]
  {
  }

  lemma TwoForth(a: byte, b: byte)
    requires 0xC2 <= a < 0xE0 && Continues(b)
    ensures 0x80 <= TwoBytes(a, b) < 0x800 && Utf8(TwoBytes(a, b)) == [a, b]
  {
  }

  lemma ThreeForth(a: byte, b: byte, c: byte)
    requires 0xE0 <= a < 0xF0 && Continues(b) && Continues(c) && ThreeBytes(a, b, c) >= 0x800
    ensures ThreeBytes(a, b, c) < 0x1_0000 && Utf8(ThreeBytes(a, b, c)) == [a, b, c]
  {
    var n := ThreeBytes(a, b, c);
    assert n / 64 == (a - 0xE0) * 64 + (b - 0x80) && n % 64 == c - 0x80;
    assert n / 4096 == n / 64 / 64;
  }

  lemma WhiteIsSpace(n: White)
    ensures IsSpace(Utf8(n)) && |Utf8(n)| <= 3
  {
    hide IsWhite, TwoBytes, ThreeBytes;
    if 0x80 <= n < 0x800 {
      TwoBack(n);
    } else if n >= 0x800 {
      ThreeBack(n);
    }
  }

  lemma TwoBack(n: nat)
    requires 0x80 <= n < 0x800
    ensures var c := Utf8(n);
            |c| == 2 && TwoBytes(c[0], c[1]) == n && 0xC2 <= c[0] < 0xE0 && Continues(c[1])
  {
  }

  lemma ThreeBack(n: nat)
    requires 0x800 <= n < 0x1_0000
    ensures var c := Utf8(n);
            |c| == 3 && ThreeBytes(c[0], c[1], c[2]) == n && 0xE0 <= c[0] < 0xF0 && Continues(c[1]) && Continues(c[2])
  {
    assert n / 4096 == n / 64 / 64;
  }

  /** No part of a character is white space. */
  lemma PartsAreNone(n: White, k: nat)
    requires 0 < k < |Utf8(n)|
    ensures !IsSpace(Utf8(n)[..k]) && !IsSpace(Utf8(n)[k..])
  {
    hide IsWhite, TwoBytes, ThreeBytes;
    if n < 0x800 {
      TwoBack(n);
    } else {
      ThreeBack(n);
    }
  }

  lemma SpaceFirst(n: White, rest: seq<byte>)
    ensures SpaceAtStart(Utf8(n) + rest) == |Utf8(n)|
  {
    var c := Utf8(n);
    var s := c + rest;
    WhiteIsSpace(n);
    SomeBytes(n);
    hide IsSpace, Utf8, IsWhite;
    assert s[..|c|] == c;
    if |c| > 1 {
      PartsAreNone(n, 1);
      assert s[..1] == c[..1];
    }
    if |c| > 2 {
      PartsAreNone(n, 2);
      assert s[..2] == c[..2];
    }
  }

  lemma EndOfBoth(a: seq<byte>, b: seq<byte>, k: nat)
    requires k <= |b|
    ensures (a + b)[|a + b| - k..] == b[|b| - k..]
  {
  }

  lemma SpaceLast(n: White, rest: seq<byte>)
    ensures SpaceAtEnd(rest + Utf8(n)) == |Utf8(n)|
  {
    var c := Utf8(n);
    WhiteIsSpace(n);
    SomeBytes(n);
    hide IsSpace, Utf8, IsWhite;
    EndOfBoth(rest, c, |c|);
    EndOfBoth(rest, c, 1);
    if |c| > 1 {
      PartsAreNone(n, |c| - 1);
      EndOfBoth(rest, c, 2);
    }
    if |c| > 2 {
      PartsAreNone(n, |c| - 2);
    }
    assert c[0..] == c;
  }

  lemma SomeBytes(n: White)
    ensures |Utf8(n)| > 0 && Utf8(n)[0] != 0 && Utf8(n)[|Utf8(n)| - 1] != 0
  {
    assert IsWhite(n);
  }

  /** Skipping stops at the first byte that is no white space. */
  lemma {:induction false} SkipFront(ns: seq<White>, rest: seq<byte>)
    requires rest != [] && rest[0] < 0x80 && !IsWhite(rest[0])
    ensures SkipSpaceStart(WhiteText(ns) + rest) == rest
  {
    hide IsSpace, IsWhite, SpaceAtStart, Utf8;
    var s := WhiteText(ns) + rest;
    if ns == [] {
      assert s == rest;
      NoSpaceFirst(rest);
    } else {
      var c, more := Utf8(ns[0]), WhiteText(ns[1..]) + rest;
      SkipFront(ns[1..], rest);
      SpaceFirst(ns[0], more);
      SomeBytes(ns[0]);
      assert s == c + more && s[|c|..] == more;
    }
  }

  lemma PlainNoSpace(c: seq<byte>)
    requires c != []
    requires (c[0] < 0x80 && !IsWhite(c[0])) || (c[|c| - 1] < 0x80 && !IsWhite(c[|c| - 1]))
    ensures !IsSpace(c)
  {
    hide IsWhite;
  }

  lemma NoSpaceFirst(s: seq<byte>)
    requires s != [] && s[0] < 0x80 && !IsWhite(s[0])
    ensures SpaceAtStart(s) == 0
  {
    hide IsSpace, IsWhite;
    if |s| >= 1 { PlainNoSpace(s[..1]); }
    if |s| >= 2 { PlainNoSpace(s[..2]); }
    if |s| >= 3 { PlainNoSpace(s[..3]); }
  }

  lemma NoSpaceLast(s: seq<byte>)
    requires s != [] && s[|s| - 1] < 0x80 && !IsWhite(s[|s| - 1])
    ensures SpaceAtEnd(s) == 0
  {
    hide IsSpace, IsWhite;
    if |s| >= 1 { PlainNoSpace(s[|s| - 1..]); }
    if |s| >= 2 { PlainNoSpace(s[|s| - 2..]); }
    if |s| >= 3 { PlainNoSpace(s[|s| - 3..]); }
  }

  lemma {:induction false} WhiteSnoc(ns: seq<White>, n: White)
    ensures WhiteText(ns + [n]) == WhiteText(ns) + Utf8(n)
  {
    hide Utf8;
    if ns == [] {
      assert [n][1..] == [] && Utf8(n) + [] == Utf8(n);
      assert ns + [n] == [n] && [] + Utf8(n) == Utf8(n);
    } else {
      WhiteSnoc(ns[1..], n);
      assert (ns + [n])[1..] == ns[1..] + [n];
      Assoc(Utf8(ns[0]), WhiteText(ns[1..]), Utf8(n));
    }
  }

  lemma {:induction false} SkipBack(rest: seq<byte>, ns: seq<White>)
    requires rest != [] && rest[|rest| - 1] < 0x80 && !IsWhite(rest[|rest| - 1])
    ensures SkipSpaceEnd(rest + WhiteText(ns)) == rest
  {
    hide IsSpace, IsWhite, SpaceAtEnd, Utf8, WhiteText;
    var s := rest + WhiteText(ns);
    if ns == [] {
      NoWhite();
      assert s == rest;
      NoSpaceLast(rest);
    } else {
      var init, n := ns[..|ns| - 1], ns[|ns| - 1];
      var c, more := Utf8(n), rest + WhiteText(init);
      SkipBack(rest, init);
      WhiteSnoc(init, n);
      assert ns == init + [n];
      Assoc(rest, WhiteText(init), c);
      SpaceLast(n, more);
      SomeBytes(n);
      assert s == more + c && s[..|s| - |c|] == more;
    }
  }

  lemma NoWhite()
    ensures WhiteText([]) == []
  {
  }

  lemma WhiteCons(n: White, ns: seq<White>)
    ensures WhiteText([n] + ns) == Utf8(n) + WhiteText(ns)
  {
    assert ([n] + ns)[1..] == ns;
  }

  lemma SkipStep(s: seq<byte>)
    ensures var n := SpaceAtStart(s);
            && SkipSpaceStart(s) == (if n == 0 then s else SkipSpaceStart(s[n..]))
            && (n > 0 ==> IsSpace(s[..n]))
  {
    hide IsSpace;
  }

  /** What is skipped is white space. */
  lemma {:induction false} FrontSkipped(s: seq<byte>) returns (ns: seq<White>)
    ensures s == WhiteText(ns) + SkipSpaceStart(s)
  {
    hide IsSpace, IsWhite, Utf8, WhiteText, SpaceAtStart, SkipSpaceStart;
    var n := SpaceAtStart(s);
    SkipStep(s);
    if n == 0 {
      ns := [];
      NoWhite();
    } else {
      var more := FrontSkipped(s[n..]);
      SpaceIsWhite(s[..n]);
      var w: White :| s[..n] == Utf8(w);
      ns := [w] + more;
      WhiteCons(w, more);
      Assoc(s[..n], WhiteText(more), SkipSpaceStart(s[n..]));
      assert s == s[..n] + s[n..];
    }
  }

  lemma {:induction false} BackSkipped(s: seq<byte>) returns (ns: seq<White>)
    ensures s == SkipSpaceEnd(s) + WhiteText(ns)
  {
    hide IsSpace, IsWhite, Utf8, WhiteText;
    var n := SpaceAtEnd(s);
    if n == 0 {
      ns := [];
      NoWhite();
    } else {
      var k := |s| - n;
      var more := BackSkipped(s[..k]);
      SpaceIsWhite(s[k..]);
      var w: White :| s[k..] == Utf8(w);
      ns := more + [w];
      WhiteSnoc(more, w);
      Assoc(SkipSpaceEnd(s[..k]), WhiteText(more), s[k..]);
      assert s == s[..k] + s[k..];
    }
  }

  // ---- NULs

  lemma {:induction false} NulsSkipped(nuls: nat, s: seq<byte>)
    requires s != [] && s[0] != 0
    ensures TrimStart(Zeros(nuls) + s, IsNul) == s
  {
    var t := Zeros(nuls) + s;
    if nuls == 0 {
      assert t == s;
    } else {
      NulsSkipped(nuls - 1, s);
      assert t[1..] == Zeros(nuls - 1) + s;
    }
  }

  lemma {:induction false} NulsCut(s: seq<byte>, nuls: nat)
    requires s != [] && s[|s| - 1] != 0
    ensures TrimEnd(s + Zeros(nuls), IsNul) == s
  {
    var t := s + Zeros(nuls);
    if nuls == 0 {
      assert t == s;
    } else {
      NulsCut(s, nuls - 1);
      assert t[..|t| - 1] == s + Zeros(nuls - 1);
    }
  }

  lemma {:induction false} NulsBefore(s: seq<byte>) returns (nuls: nat)
    ensures s == Zeros(nuls) + TrimStart(s, IsNul)
  {
    if s != [] && s[0] == 0 {
      nuls := NulsBefore(s[1..]);
      nuls := nuls + 1;
      assert Zeros(nuls) == [0] + Zeros(nuls - 1);
      assert s == [0] + s[1..];
    } else {
      nuls := 0;
    }
  }

  lemma {:induction false} NulsBehind(s: seq<byte>) returns (nuls: nat)
    ensures s == TrimEnd(s, IsNul) + Zeros(nuls)
  {
    if s != [] && s[|s| - 1] == 0 {
      nuls := NulsBehind(s[..|s| - 1]);
      nuls := nuls + 1;
      assert Zeros(nuls) == Zeros(nuls - 1) + [0];
      assert s == s[..|s| - 1] + [0];
    } else {
      nuls := 0;
    }
  }

  // ---- The field

  lemma {:induction false} OctalIff(d: seq<byte>, n: nat)
    ensures OctalValue(d) == Some(n) <==> n < Pow8(|d|) && d == Octal(n, |d|)
  {
    if d != [] {
      var init, x := d[..|d| - 1], d[|d| - 1];
      assert d == init + [x];
      if OctalValue(d) == Some(n) {
        OctalIff(init, OctalValue(init).value);
        assert n / 8 == OctalValue(init).value && n % 8 == x - 48;
      }
      if n < Pow8(|d|) && d == Octal(n, |d|) {
        OctalRoundTrip(n, |d|);
      }
    }
  }

  lemma DigitsRead(t: seq<byte>, n: nat)
    ensures (var digits := if |t| > 1 && t[0] == 43 then t[1..] else t;
             digits != [] && OctalValue(digits) == Some(n))
            <==> IsOctal(t, n)
  {
    hide OctalValue, Pow8, Octal;
    var digits := if |t| > 1 && t[0] == 43 then t[1..] else t;
    OctalIff(digits, n);
    if digits != [] && OctalValue(digits) == Some(n) {
      assert t == digits || t == [43] + digits;
    }
    if k: nat :| k > 0 && n < Pow8(k) && (t == Octal(n, k) || t == [43] + Octal(n, k)) {
      assert Octal(n, k)[0] != 43;
      assert digits == Octal(n, k);
    }
  }

  lemma OctalEnds(t: seq<byte>, n: nat)
    requires IsOctal(t, n)
    ensures t != [] && 43 <= t[0] < 56 && 48 <= t[|t| - 1] < 56
  {
    hide Octal, Pow8;
  }

  lemma WhiteFirst(ns: seq<White>)
    requires ns != []
    ensures WhiteText(ns) != [] && WhiteText(ns)[0] != 0
  {
    SomeBytes(ns[0]);
    hide Utf8, IsWhite;
  }

  lemma WhiteLast(ns: seq<White>)
    requires ns != []
    ensures var w := WhiteText(ns);
            w != [] && w[|w| - 1] != 0
  {
    var init, n := ns[..|ns| - 1], ns[|ns| - 1];
    SomeBytes(n);
    hide Utf8, IsWhite, WhiteText;
    WhiteSnoc(init, n);
    assert ns == init + [n];
  }

  lemma SaidIsParsed(nuls: nat, front: seq<White>, digits: seq<byte>, back: seq<White>, more: nat, n: nat)
    requires IsOctal(digits, n)
    ensures ParseSize(Zeros(nuls) + (WhiteText(front) + digits + WhiteText(back)) + Zeros(more)) == Some(n)
  {
    hide WhiteText, SkipSpaceStart, SkipSpaceEnd, TrimStart, TrimEnd, OctalValue, IsOctal;
    var core := WhiteText(front) + digits + WhiteText(back);
    OctalEnds(digits, n);
    CoreEnds(front, digits, back);
    assert Zeros(nuls) + core + Zeros(more) == Zeros(nuls) + (core + Zeros(more));
    NulsSkipped(nuls, core + Zeros(more));
    NulsCut(core, more);
    var rest := digits + WhiteText(back);
    assert core == WhiteText(front) + rest && rest[0] == digits[0];
    SkipFront(front, rest);
    SkipBack(digits, back);
    DigitsRead(digits, n);
  }

  lemma CoreEnds(front: seq<White>, digits: seq<byte>, back: seq<White>)
    requires digits != [] && digits[0] != 0 && digits[|digits| - 1] != 0
    ensures var core := WhiteText(front) + digits + WhiteText(back);
            core != [] && core[0] != 0 && core[|core| - 1] != 0
  {
    hide WhiteText;
    NoWhite();
    if front != [] {
      WhiteFirst(front);
    }
    if back != [] {
      WhiteLast(back);
    }
  }

  lemma Regroup(a: seq<byte>, b: seq<byte>, c: seq<byte>, d: seq<byte>, e: seq<byte>)
    ensures a + ((b + (c + d)) + e) == a + (b + c + d) + e
  {
  }

  lemma ParsedIsSaid(field: seq<byte>, n: nat)
    requires ParseSize(field) == Some(n)
    ensures SaysSize(field, n)
  {
    hide WhiteText, SkipSpaceStart, SkipSpaceEnd, TrimStart, TrimEnd, OctalValue, IsOctal, Zeros;
    var x := TrimStart(field, IsNul);
    var y := TrimEnd(x, IsNul);
    var z := SkipSpaceStart(y);
    var t := SkipSpaceEnd(z);
    var nuls := NulsBefore(field);
    var more := NulsBehind(x);
    var front := FrontSkipped(y);
    var back := BackSkipped(z);
    DigitsRead(t, n);
    Regroup(Zeros(nuls), WhiteText(front), t, WhiteText(back), Zeros(more));
  }

  /** A field is read as a size if and only if it says that size. */
  lemma ParsesIffSaid(field: seq<byte>, n: nat)
    ensures ParseSize(field) == Some(n) <==> SaysSize(field, n)
  {
    hide ParseSize, WhiteText, IsOctal, Zeros;
    if ParseSize(field) == Some(n) {
      ParsedIsSaid(field, n);
    }
    if SaysSize(field, n) {
      var nuls: nat, front: seq<White>, digits: seq<byte>, back: seq<White>, more: nat :|
        && field == Zeros(nuls) + (WhiteText(front) + digits + WhiteText(back)) + Zeros(more)
        && IsOctal(digits, n);
      SaidIsParsed(nuls, front, digits, back, more, n);
    }
  }
}
