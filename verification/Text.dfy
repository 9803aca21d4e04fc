/** Decimal numbers as text, and cutting text into lines. */
module Text {
  import Bytes
  import opened Results

  function Digit(d: nat): (c: char)
    requires d < 10
    ensures '0' <= c <= '9'
  {
    '0' + d as char
  }

  /** `{}` of an unsigned number. */
  function Decimal(n: nat): (s: string)
    ensures s != "" && forall i | 0 <= i < |s| :: '0' <= s[i] <= '9'
  {
    if n < 10 then [Digit(n)] else Decimal(n / 10) + [Digit(n % 10)]
  }

  function DigitsValue(s: string): Option<nat> {
    if s == "" then Some(0)
    else
      var d := s[|s| - 1];
      match DigitsValue(s[..|s| - 1])
      case None => None
      case Some(v) => if '0' <= d <= '9' then Some(10 * v + (d - '0') as nat) else None
  }

  /** `parse` of an unsigned type with values below `limit`: one leading plus sign, then digits. */
  function ParseUnsigned(s: string, limit: nat): Option<nat> {
    var digits := if |s| > 1 && s[0] == '+' then s[1..] else s;
    if digits == "" then None
    else
      match DigitsValue(digits)
      case None => None
      case Some(v) => if v < limit then Some(v) else None
  }

  lemma DigitBack(d: nat)
    requires d < 10
    ensures (Digit(d) - '0') as nat == d
  {
  }

  lemma {:induction false} DecimalValue(n: nat)
    ensures DigitsValue(Decimal(n)) == Some(n)
  {
    if n < 10 {
      assert [Digit(n)][..0] == "";
      DigitBack(n);
    } else {
      DecimalValue(n / 10);
      DigitBack(n % 10);
      var s := Decimal(n);
      assert s[..|s| - 1] == Decimal(n / 10);
    }
  }

  lemma DecimalParses(n: nat, limit: nat)
    ensures ParseUnsigned(Decimal(n), limit)
         == if n < limit then Some(n) else None
  {
    hide Decimal, DigitsValue;
    DecimalValue(n);
  }

  lemma DecimalInjective(a: nat, b: nat)
    requires Decimal(a) == Decimal(b)
    ensures a == b
  {
    hide Decimal, DigitsValue;
    DecimalValue(a);
    DecimalValue(b);
  }

  // ---- The spellings of a number

  lemma DecimalNext(n: nat, d: nat)
    requires d < 10
    ensures Decimal(d) == [Digit(d)]
    ensures n > 0 ==> Decimal(10 * n + d) == Decimal(n) + [Digit(d)]
  {
    assert (10 * n + d) / 10 == n && (10 * n + d) % 10 == d;
  }

  /** Place value, and the characters of the digits. */
  lemma DecimalPlaces(n: nat, d: nat)
    requires d < 10
    ensures Decimal(d) == ["0123456789"[d]]
    ensures n > 0 ==> Decimal(10 * n + d) == Decimal(n) + ["0123456789"[d]]
  {
    hide Decimal;
    DecimalNext(n, d);
  }

  function ZeroDigits(n: nat): string {
    seq(n, _ => '0')
  }

  /** `s` writes `n`: digits, perhaps after zeros and a plus sign. */
  ghost predicate Spells(s: string, n: nat) {
    exists zeros: nat :: s == ZeroDigits(zeros) + Decimal(n) || s == "+" + (ZeroDigits(zeros) + Decimal(n))
  }

  lemma {:induction false} ZerosCountNothing(zeros: nat, s: string)
    ensures DigitsValue(ZeroDigits(zeros) + s) == DigitsValue(s)
    decreases zeros + |s|
  {
    var whole := ZeroDigits(zeros) + s;
    if s != "" {
      ZerosCountNothing(zeros, s[..|s| - 1]);
      assert whole[..|whole| - 1] == ZeroDigits(zeros) + s[..|s| - 1];
    } else if zeros > 0 {
      ZerosCountNothing(zeros - 1, s);
      assert whole[..|whole| - 1] == ZeroDigits(zeros - 1) + s;
    }
  }

  lemma MoreZeros(zeros: nat)
    ensures ZeroDigits(zeros + 1) == ZeroDigits(zeros) + Decimal(0)
  {
    assert Decimal(0) == "0";
  }

  lemma {:induction false} DigitsSpell(s: string, n: nat) returns (zeros: nat)
    requires s != "" && DigitsValue(s) == Some(n)
    ensures s == ZeroDigits(zeros) + Decimal(n)
  {
    var init, last := s[..|s| - 1], s[|s| - 1];
    var v, d := DigitsValue(init).value, (last - '0') as nat;
    var digit := [Digit(d)];
    assert s == init + digit && n == 10 * v + d;
    DecimalNext(v, d);
    hide Decimal, DigitsValue, Digit;
    if init == "" {
      zeros := 0;
      assert ZeroDigits(0) + digit == "" + digit;
    } else {
      zeros := DigitsSpell(init, v);
      if v == 0 {
        MoreZeros(zeros);
        zeros := zeros + 1;
      } else {
        Bytes.Assoc(ZeroDigits(zeros), Decimal(v), digit);
      }
    }
  }

  /** What is accepted, and as which number. */
  lemma ParsesIffSpelled(s: string, limit: nat, n: nat)
    ensures ParseUnsigned(s, limit) == Some(n) <==> n < limit && Spells(s, n)
  {
    hide DigitsValue, Decimal, ZeroDigits;
    if ParseUnsigned(s, limit) == Some(n) {
      var zeros := DigitsSpell(if |s| > 1 && s[0] == '+' then s[1..] else s, n);
      if |s| > 1 && s[0] == '+' {
        assert s == "+" + s[1..];
      }
    }
    if Spells(s, n) {
      var zeros: nat :| s == ZeroDigits(zeros) + Decimal(n) || s == "+" + (ZeroDigits(zeros) + Decimal(n));
      ZerosCountNothing(zeros, Decimal(n));
      DecimalValue(n);
      NoSign(zeros, n);
      if s == "+" + (ZeroDigits(zeros) + Decimal(n)) {
        assert s[1..] == ZeroDigits(zeros) + Decimal(n);
      }
    }
  }

  lemma NoSign(zeros: nat, n: nat)
    ensures var s := ZeroDigits(zeros) + Decimal(n);
            s != "" && s[0] != '+'
  {
    assert '0' <= Decimal(n)[0];
    assert zeros > 0 ==> ZeroDigits(zeros)[0] == '0';
  }

  // ---- Hexadecimal digits

  function HexChar(d: nat): (c: char)
    requires d < 16
    ensures '0' <= c <= '9' || 'a' <= c <= 'f'
  {
    if d < 10 then '0' + d as char else 'a' + (d - 10) as char
  }

  function HexDigit(c: char): Option<nat> {
    if '0' <= c <= '9' then Some((c - '0') as nat)
    else if 'a' <= c <= 'f' then Some((c - 'a') as nat + 10)
    else if 'A' <= c <= 'F' then Some((c - 'A') as nat + 10)
    else None
  }

  lemma HexCharBack(d: nat)
    requires d < 16
    ensures HexDigit(HexChar(d)) == Some(d)
  {
  }

  // ---- White space and letters

  /** Unicode white space. */
  predicate IsWhite(n: nat) {
    || 9 <= n <= 13 || n == 32 || n == 0x85 || n == 0xA0 || n == 0x1680 || 0x2000 <= n <= 0x200A
    || n == 0x2028 || n == 0x2029 || n == 0x202F || n == 0x205F || n == 0x3000
  }

  /** The white space characters, one by one. */
  lemma WhiteSpaces(c: char)
    ensures IsWhite(c as int)
       <==> || c in "\t\n\U{000B}\U{000C}\r \U{0085}\U{00A0}\U{1680}"
            || c in "\U{2000}\U{2001}\U{2002}\U{2003}\U{2004}\U{2005}\U{2006}\U{2007}\U{2008}\U{2009}\U{200A}"
            || c in "\U{2028}\U{2029}\U{202F}\U{205F}\U{3000}"
  {
  }

  function TrimStart<T>(s: seq<T>, drop: T -> bool): seq<T> {
    if s != [] && drop(s[0]) then TrimStart(s[1..], drop) else s
  }

  function TrimEnd<T>(s: seq<T>, drop: T -> bool): seq<T> {
    if s != [] && drop(s[|s| - 1]) then TrimEnd(s[..|s| - 1], drop) else s
  }

  function Trim<T>(s: seq<T>, drop: T -> bool): seq<T> {
    TrimEnd(TrimStart(s, drop), drop)
  }

  function AsciiUpper(c: char): char {
    if 'a' <= c <= 'z' then 'A' + (c - 'a') else c
  }

  // ---- Lines of any sequence

  function FirstAt<T(==)>(s: seq<T>, x: T): (k: nat)
    ensures k <= |s|
    ensures forall i | 0 <= i < k :: s[i] != x
    ensures k < |s| ==> s[k] == x
  {
    if s == [] || s[0] == x then 0 else 1 + FirstAt(s[1..], x)
  }

  /** The pieces ended by `nl`; a rest without `nl` is a last line of its own. */
  function Lines<T(==)>(s: seq<T>, nl: T): seq<seq<T>>
    decreases |s|
  {
    if s == [] then []
    else
      var k := FirstAt(s, nl);
      if k == |s| then [s] else [s[..k]] + Lines(s[k + 1..], nl)
  }

  lemma FirstAfter<T>(line: seq<T>, nl: T, rest: seq<T>)
    requires nl !in line
    ensures FirstAt(line + [nl] + rest, nl) == |line|
  {
    var s := line + [nl] + rest;
    assert s[|line|] == nl;
    assert forall i | 0 <= i < |line| :: s[i] == line[i];
  }

  /** A complete first line splits off. */
  lemma LinesCons<T>(line: seq<T>, nl: T, rest: seq<T>)
    requires nl !in line
    ensures Lines(line + [nl] + rest, nl) == [line] + Lines(rest, nl)
  {
    var s := line + [nl] + rest;
    FirstAfter(line, nl, rest);
    assert s[..|line|] == line && s[|line| + 1..] == rest;
  }

  function Count<T(==)>(s: seq<T>, x: T): nat {
    if s == [] then 0 else (if s[0] == x then 1 else 0) + Count(s[1..], x)
  }

  lemma {:induction false} CountConcat<T>(a: seq<T>, b: seq<T>, x: T)
    ensures Count(a + b, x) == Count(a, x) + Count(b, x)
  {
    if a == [] {
      assert a + b == b;
    } else {
      CountConcat(a[1..], b, x);
      assert (a + b)[1..] == a[1..] + b;
    }
  }

  lemma {:induction false} CountZero<T>(s: seq<T>, x: T)
    ensures Count(s, x) == 0 <==> x !in s
  {
    if s != [] {
      CountZero(s[1..], x);
      assert s == [s[0]] + s[1..];
    }
  }

  lemma CountOne<T>(x: T)
    ensures Count([x], x) == 1
  {
    assert [x][1..] == [];
  }

  lemma CountLine<T>(s: seq<T>, k: nat, x: T)
    requires k < |s| && s[k] == x && x !in s[..k]
    ensures Count(s, x) == 1 + Count(s[k + 1..], x)
  {
    hide Count;
    var front, rest := s[..k], s[k + 1..];
    assert s == front + ([x] + rest);
    CountConcat(front, [x] + rest, x);
    CountConcat([x], rest, x);
    CountZero(front, x);
    CountOne(x);
  }

  lemma {:induction false} EveryNewlineEndsALine<T>(s: seq<T>, nl: T)
    ensures |Lines(s, nl)| >= Count(s, nl)
    decreases |s|
  {
    if s != [] {
      var k := FirstAt(s, nl);
      if k == |s| {
        CountZero(s, nl);
      } else {
        EveryNewlineEndsALine(s[k + 1..], nl);
        CountLine(s, k, nl);
      }
    }
  }

  /** Lines put back together. */
  function JoinLines(ls: seq<string>): string {
    if ls == [] then "" else JoinLines(ls[..|ls| - 1]) + (ls[|ls| - 1] + "\n")
  }

  lemma JoinLinesSnoc(ls: seq<string>, l: string)
    ensures JoinLines(ls + [l]) == JoinLines(ls) + (l + "\n")
  {
    assert (ls + [l])[..|ls + [l]| - 1] == ls;
  }

  lemma {:induction false} JoinLinesCons(l: string, ls: seq<string>)
    ensures JoinLines([l] + ls) == l + "\n" + JoinLines(ls)
  {
    if ls == [] {
      assert [l] + ls == [] + [l];
      JoinLinesSnoc([], l);
    } else {
      hide JoinLines;
      var init, last := ls[..|ls| - 1], ls[|ls| - 1];
      JoinLinesCons(l, init);
      assert ls == init + [last] && [l] + ls == ([l] + init) + [last];
      JoinLinesSnoc(init, last);
      JoinLinesSnoc([l] + init, last);
      Bytes.Assoc(l + "\n", JoinLines(init), last + "\n");
    }
  }

  /** Cutting undoes joining exactly when no line contains a line end. */
  lemma {:induction false} LinesOfJoin(ls: seq<string>)
    requires forall l | l in ls :: '\n' !in l
    ensures Lines(JoinLines(ls), '\n') == ls
  {
    if ls != [] {
      var first, rest := ls[0], ls[1..];
      assert ls == [first] + rest;
      JoinLinesCons(first, rest);
      LinesOfJoin(rest);
      LinesCons(first, '\n', JoinLines(rest));
      assert first + "\n" + JoinLines(rest) == first + ['\n'] + JoinLines(rest);
    }
  }

  lemma {:induction false} LinesHaveNoEnds<T>(s: seq<T>, nl: T)
    ensures forall l | l in Lines(s, nl) :: nl !in l
    decreases |s|
  {
    if s != [] {
      var k := FirstAt(s, nl);
      if k < |s| {
        LinesHaveNoEnds(s[k + 1..], nl);
      }
    }
  }
}
