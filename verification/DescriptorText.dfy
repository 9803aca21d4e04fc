/** Which descriptors survive being written as text and parsed. */
module DescriptorText {
  import opened Bytes
  import opened Results
  import opened Text
  import opened Descriptor
  import opened ExtentText

  // ---- Writing a descriptor

  function Hex(n: nat): string {
    if n < 16 then [HexChar(n)] else Hex(n / 16) + [HexChar(n % 16)]
  }

  function Quoted(s: string): string {
    "\"" + s + "\""
  }

  function Setting(key: string, text: string): string {
    key + "=" + text
  }

  function HeadLines(d: VmdkDescriptor): seq<string> {
    [Setting("version", Decimal(d.version)),
     Setting("CID", Hex(d.cid)),
     Setting("parentCID", Hex(d.parentCid)),
     Setting("createType", Quoted(d.createType))]
  }

  /** `brief` says which lines leave out an offset of 0. */
  function ExtentLines(extents: seq<Extent>, brief: nat -> bool): seq<string> {
    seq(|extents|, i requires 0 <= i < |extents| => PrintExtent(extents[i], brief(i)))
  }

  function TailLines(d: VmdkDescriptor): seq<string> {
    [Setting("ddb.virtualHWVersion", Quoted(d.hwVersion)),
     Setting("ddb.geometry.cylinders", Quoted(Decimal(d.cylinders))),
     Setting("ddb.geometry.heads", Quoted(Decimal(d.heads))),
     Setting("ddb.geometry.sectors", Quoted(Decimal(d.sectors))),
     Setting("ddb.adapterType", Quoted(d.adapterType))]
  }

  function PrintDescriptor(d: VmdkDescriptor, brief: nat -> bool): string {
    JoinLines(HeadLines(d) + ExtentLines(d.extents, brief) + TailLines(d))
  }

  /** Extents the parser can produce, and one-line strings. */
  predicate PrintableDescriptor(d: VmdkDescriptor) {
    var texts := d.createType + (d.hwVersion + d.adapterType);
    (forall i | 0 <= i < |d.extents| :: Printable(d.extents[i])) && '\n' !in texts
  }

  // ---- One setting

  lemma {:induction false} HexBack(n: nat)
    ensures HexValue(Hex(n)) == Some(n) && IsWord(Hex(n)) && Hex(n)[0] != '+' && Hex(n)[0] != '"'
  {
    var s := Hex(n);
    if n < 16 {
      HexCharBack(n);
      assert [HexChar(n)][..0] == "";
    } else {
      HexBack(n / 16);
      HexCharBack(n % 16);
      assert s[..|s| - 1] == Hex(n / 16);
    }
  }

  /** Place value, and the characters of the digits. */
  lemma HexPlaces(n: nat, d: nat)
    requires d < 16
    ensures Hex(d) == ["0123456789abcdef"[d]]
    ensures n > 0 ==> Hex(16 * n + d) == Hex(n) + ["0123456789abcdef"[d]]
  {
    assert (16 * n + d) / 16 == n && (16 * n + d) % 16 == d;
  }

  /** The digits in lower case. */
  function Lower(s: string): string {
    seq(|s|, i requires 0 <= i < |s| => if 'A' <= s[i] <= 'F' then s[i] - 'A' + 'a' else s[i])
  }

  /** `s` writes `n`: hexadecimal digits of either case, perhaps after zeros and a plus sign. */
  ghost predicate SpellsHex(s: string, n: nat) {
    exists zeros: nat :: Lower(s) == ZeroDigits(zeros) + Hex(n) || Lower(s) == "+" + (ZeroDigits(zeros) + Hex(n))
  }

  lemma {:induction false} ZerosCountNothing(zeros: nat, s: string)
    ensures HexValue(ZeroDigits(zeros) + s) == HexValue(s)
    decreases zeros + |s|
  {
    var whole := ZeroDigits(zeros) + s;
    if s != "" {
      ZerosCountNothing(zeros, s[..|s| - 1]);
      assert whole[..|whole| - 1] == ZeroDigits(zeros) + s[..|s| - 1];
    } else if zeros > 0 {
      ZerosCountNothing(zeros - 1, s);
      assert whole[..|whole| - 1] == ZeroDigits(zeros - 1) + s;
    }
  }

  lemma {:induction false} LowerSameValue(s: string)
    ensures HexValue(Lower(s)) == HexValue(s)
  {
    if s != "" {
      LowerSameValue(s[..|s| - 1]);
      assert Lower(s)[..|s| - 1] == Lower(s[..|s| - 1]);
    }
  }

  lemma {:induction false} HexSpelled(s: string, n: nat) returns (zeros: nat)
    requires s != "" && HexValue(s) == Some(n)
    ensures Lower(s) == ZeroDigits(zeros) + Hex(n)
  {
    var init, last := s[..|s| - 1], s[|s| - 1];
    var v, d := HexValue(init).value, HexDigit(last).value;
    var digit := ["0123456789abcdef"[d]];
    assert Lower(s) == Lower(init) + digit && n == 16 * v + d;
    HexPlaces(v, d);
    HexPlaces(0, d);
    HexPlaces(0, 0);
    hide Hex, HexDigit, HexValue;
    if init == "" {
      zeros := 0;
      assert ZeroDigits(0) + digit == Lower("") + digit;
    } else {
      zeros := HexSpelled(init, v);
      if v == 0 {
        assert ZeroDigits(zeros + 1) == ZeroDigits(zeros) + Hex(0);
        zeros := zeros + 1;
      } else {
        Assoc(ZeroDigits(zeros), Hex(v), digit);
      }
    }
  }

  lemma HexParsesIff(s: string, n: u32)
    ensures ParseHex(s) == Some(n) <==> SpellsHex(s, n)
  {
    hide HexValue, Hex, ZeroDigits;
    var digits := if |s| > 1 && s[0] == '+' then s[1..] else s;
    if ParseHex(s) == Some(n) {
      var zeros := HexSpelled(digits, n);
      if digits != s {
        assert Lower(s) == "+" + Lower(digits);
      }
    }
    if SpellsHex(s, n) {
      var zeros: nat :| Lower(s) == ZeroDigits(zeros) + Hex(n) || Lower(s) == "+" + (ZeroDigits(zeros) + Hex(n));
      SignFirst(s, zeros, n);
      LowerSameValue(digits);
      ZerosCountNothing(zeros, Hex(n));
      HexBack(n);
    }
  }

  lemma HexIsSpelled(n: nat)
    ensures SpellsHex(Hex(n), n) && IsWord(Hex(n)) && Hex(n)[0] != '"'
  {
    hide Hex, HexValue;
    HexBack(n);
    var zeros := HexSpelled(Hex(n), n);
  }

  lemma SignFirst(s: string, zeros: nat, n: nat)
    requires Lower(s) == ZeroDigits(zeros) + Hex(n) || Lower(s) == "+" + (ZeroDigits(zeros) + Hex(n))
    ensures Lower(if |s| > 1 && s[0] == '+' then s[1..] else s) == ZeroDigits(zeros) + Hex(n) != ""
  {
    hide Hex;
    HexBack(n);
    assert s[0] == '+' <==> Lower(s)[0] == '+';
    assert zeros > 0 ==> ZeroDigits(zeros)[0] == '0';
    if s[0] == '+' {
      assert Lower(s[1..]) == Lower(s)[1..];
    }
  }

  lemma UnquoteQuoted(s: string)
    ensures Unquote(Quoted(s)) == s && TrimWs(Quoted(s)) == Quoted(s)
    ensures !IsWs(Quoted(s)[|s| + 1])
  {
    TrimNothing(Quoted(s));
  }

  lemma UnquoteWord(w: Word)
    requires w[0] != '"'
    ensures Unquote(w) == w && TrimWs(w) == w
  {
    TrimNothing(w);
  }

  predicate PlainKey(key: string) {
    IsWord(key) && key[0] != '#' && forall i | 0 <= i < |key| :: key[i] != '='
  }

  type Key = key: string | PlainKey(key) witness "a"

  lemma HasNotPrefix(key: Key, rest: string, w: Word)
    requires key != w && '=' !in w && (rest != "" ==> rest[0] == '=' || IsWs(rest[0]))
    ensures !(w + " " <= key + rest)
  {
    var s, p := key + rest, w + " ";
    if |s| >= |p| {
      if |key| == |w| {
        var j :| 0 <= j < |w| && key[j] != w[j];
        assert s[j] != p[j];
      } else {
        var i := if |key| < |w| then |key| else |w|;
        assert IsWs(' ') && s[i] != p[i];
      }
    }
  }

  lemma SettingIsNotExtent(key: Key, rest: string)
    requires !KnownAccess(key) && (rest != "" ==> rest[0] == '=' || IsWs(rest[0]))
    ensures !IsExtentLine(key + rest)
  {
    hide PlainKey;
    HasNotPrefix(key, rest, "RW");
    HasNotPrefix(key, rest, "RDONLY");
    HasNotPrefix(key, rest, "NOACCESS");
    assert "RW " == "RW" + " " && "RDONLY " == "RDONLY" + " " && "NOACCESS " == "NOACCESS" + " ";
  }

  /** A setting line sets its key to the unquoted text, whatever white space stands around key and text. */
  lemma SettingApplies(d: VmdkDescriptor, start: Gap, key: Key, gap1: Gap, gap2: Gap, text: string, end: Gap)
    requires Trimmed(text) && !KnownAccess(key)
    ensures Apply(d, TrimWs(start + key + gap1 + "=" + (gap2 + text + end)))
         == SetKey(d, key, Unquote(text))
  {
    hide SetKey, Unquote, IsExtentLine, TrimWs, IsWs, KnownAccess;
    var line := start + key + gap1 + "=" + (gap2 + text + end);
    var front, value := key + gap1, if text == "" then "" else gap2 + text;
    var s := front + "=" + value;
    TrimSetting(start, key, gap1, gap2, text, end);
    SettingIsNotExtent(key, gap1 + "=" + value);
    assert s == key + (gap1 + "=" + value);
    assert s[0] == key[0];
    NoEquals(key, gap1);
    FirstAfter(front, '=', value);
    assert s[..|front|] == front && s[|front| + 1..] == value;
    assert front == "" + key + gap1 && value == (if text == "" then "" else gap2) + text + "";
    TrimGaps("", key, gap1);
    TrimGaps(if text == "" then "" else gap2, text, "");
  }

  lemma NoEquals(key: Key, gap: Gap)
    ensures '=' !in key + gap
  {
    assert !IsWs('=');
  }

  lemma TrimSetting(start: Gap, key: Key, gap1: Gap, gap2: Gap, text: string, end: Gap)
    requires Trimmed(text)
    ensures TrimWs(start + key + gap1 + "=" + (gap2 + text + end))
         == key + gap1 + "=" + if text == "" then "" else gap2 + text
  {
    hide TrimWs;
    var s := key + gap1 + "=" + if text == "" then "" else gap2 + text;
    var rest := if text == "" then gap2 + end else end;
    assert !IsWs('=');
    TrimGaps(start, s, rest);
    assert start + key + gap1 + "=" + (gap2 + text + end) == start + s + rest;
  }

  lemma QuotedApplies(d: VmdkDescriptor, key: Key, value: string)
    requires !KnownAccess(key)
    ensures Apply(d, TrimWs(Setting(key, Quoted(value))))
         == SetKey(d, key, value)
  {
    hide SetKey, Unquote, TrimWs, Apply, PlainKey, KnownAccess;
    UnquoteQuoted(value);
    SettingApplies(d, "", key, "", "", Quoted(value), "");
    assert "" + key + "" + "=" + ("" + Quoted(value) + "") == Setting(key, Quoted(value));
  }

  lemma WordApplies(d: VmdkDescriptor, key: Key, w: Word)
    requires w[0] != '"' && !KnownAccess(key)
    ensures Apply(d, TrimWs(Setting(key, w))) == SetKey(d, key, w)
  {
    hide SetKey, Unquote, TrimWs, Apply, PlainKey, KnownAccess;
    UnquoteWord(w);
    SettingApplies(d, "", key, "", "", w, "");
    assert "" + key + "" + "=" + ("" + w + "") == Setting(key, w);
  }

  lemma TrimHasNo(s: string, c: char)
    requires c !in s
    ensures c !in TrimWs(s)
  {
    hide TrimWs;
    var gap, t, end := CutGaps(s);
  }

  /** Blank lines and comments change nothing, and neither does a line that is no extent and has no `=`. */
  lemma LineSkipped(d: VmdkDescriptor, gap: Gap, text: string)
    ensures Apply(d, TrimWs(gap)) == Ok(d) && Apply(d, TrimWs(gap + "#" + text)) == Ok(d)
    ensures '=' !in text && !IsExtentLine(TrimWs(text)) ==> Apply(d, TrimWs(text)) == Ok(d)
  {
    hide TrimWs, IsExtentLine, IsWs;
    TrimGaps(gap, "", "");
    assert gap == gap + "" + "";
    var s := "#" + text;
    var t, end := EndOf(s);
    NotWhite();
    assert s[0] == '#' && (t == "" ==> end == s) && (t != "" ==> t[0] == s[0]);
    TrimGaps(gap, t, end);
    assert gap + "#" + text == gap + s && gap + s == gap + t + end;
    if '=' !in text {
      TrimHasNo(text, '=');
    }
  }

  lemma NotWhite()
    ensures !IsWs('#')
  {
  }

  /** Every form of an extent line adds its extent. */
  lemma WrittenApplies(d: VmdkDescriptor, w: Written, e: Extent)
    requires w.Says(e) && KnownAccess(e.access) && w.gap1[0] == ' '
    ensures Apply(d, TrimWs(w.Text())) == Ok(d.(extents := d.extents + [e]))
  {
    hide TrimWs, ParseExtentLine, Written.Text, IsExtentLine;
    var bare := w.(start := "", end := "");
    assert bare.Says(e);
    hide Written.Says;
    WrittenParses(bare, e);
    TrimWritten(w, e);
    AccessFirst(bare, e);
  }

  lemma AccessFirst(w: Written, e: Extent)
    requires w.Says(e) && KnownAccess(e.access) && w.gap1[0] == ' ' && w.start == ""
    ensures w.Text() != "" && IsExtentLine(w.Text()) && w.Text()[0] != '#'
  {
    hide Written.Quote, Upper, Spells, Collapse, TypeName, IsWs;
    var rest := w.size + (w.gap2 + w.kind + (w.gap3 + (w.Quote() + w.end)));
    assert w.Text() == w.access + (w.gap1 + rest);
    assert w.access + " " <= w.access + (w.gap1 + rest);
  }

  lemma TrimWritten(w: Written, e: Extent)
    requires w.Says(e)
    ensures TrimWs(w.Text()) == w.(start := "", end := "").Text()
  {
    hide TrimWs, IsWs, Written.Quote, Upper, Spells, Collapse, TypeName;
    var bare := w.(start := "", end := "").Text();
    SameQuote(w);
    QuoteEnds(w, e);
    Regroup(w.start, w.access, w.gap1 + w.size, w.gap2 + w.kind, w.gap3, w.Quote(), w.end);
    Regroup("", w.access, w.gap1 + w.size, w.gap2 + w.kind, w.gap3, w.Quote(), "");
    var core := w.access + (w.gap1 + w.size + (w.gap2 + w.kind + (w.gap3 + w.Quote())));
    assert bare == "" + core + "" == core;
    assert bare[0] == w.access[0] && bare[|bare| - 1] == w.Quote()[|w.Quote()| - 1];
    TrimGaps(w.start, bare, w.end);
  }

  lemma Regroup(a: string, b: string, c: string, d: string, e: string, f: string, g: string)
    ensures a + b + (c + (d + (e + (f + g)))) == a + (b + (c + (d + (e + f)))) + g
  {
  }

  lemma SameQuote(w: Written)
    ensures w.Quote() == w.(start := "", end := "").Quote()
  {
  }

  lemma QuoteEnds(w: Written, e: Extent)
    requires w.Says(e)
    ensures w.Quote() != "" && !IsWs(w.Quote()[|w.Quote()| - 1])
  {
    if w.offset != "" {
      SpelledIsWord(w.offset, e.offset);
    }
  }

  // ---- Runs of lines

  lemma {:induction false} ParseConcat(d: VmdkDescriptor, a: seq<string>, b: seq<string>)
    requires ParseFrom(d, a).Ok?
    ensures ParseFrom(d, a + b) == ParseFrom(ParseFrom(d, a).value, b)
    decreases |a|
  {
    hide Apply, TrimWs;
    if a == [] {
      assert a + b == b;
    } else {
      ParseConcat(Apply(d, TrimWs(a[0])).value, a[1..], b);
      assert (a + b)[1..] == a[1..] + b;
    }
  }

  lemma ParseOne(d: VmdkDescriptor, line: string, next: VmdkDescriptor)
    requires Apply(d, TrimWs(line)) == Ok(next)
    ensures ParseFrom(d, [line]) == Ok(next)
  {
    hide Apply, TrimWs;
    assert [line][1..] == [];
  }

  lemma ParseThen(d: VmdkDescriptor, a: seq<string>, mid: VmdkDescriptor, line: string, next: VmdkDescriptor)
    requires ParseFrom(d, a) == Ok(mid) && Apply(mid, TrimWs(line)) == Ok(next)
    ensures ParseFrom(d, a + [line]) == Ok(next)
  {
    hide Apply, TrimWs, ParseFrom;
    ParseOne(mid, line, next);
    ParseConcat(d, a, [line]);
  }

  /** The first line that fails decides the result; the lines behind it do not matter. */
  lemma FirstErrorWins(d: VmdkDescriptor, before: seq<string>, mid: VmdkDescriptor, line: string, after: seq<string>, e: ParseError)
    requires ParseFrom(d, before) == Ok(mid) && Apply(mid, TrimWs(line)) == Err(e)
    ensures ParseFrom(d, before + [line] + after) == Err(e)
  {
    hide Apply, TrimWs;
    var rest := [line] + after;
    assert before + [line] + after == before + rest;
    ParseConcat(d, before, rest);
    assert rest[0] == line;
  }

  /** A line counts wherever it stands. */
  lemma LineAnywhere(d: VmdkDescriptor, before: seq<string>, mid: VmdkDescriptor, line: string, next: VmdkDescriptor, after: seq<string>)
    requires ParseFrom(d, before) == Ok(mid) && Apply(mid, TrimWs(line)) == Ok(next)
    ensures ParseFrom(d, before + [line] + after) == ParseFrom(next, after)
  {
    hide Apply, TrimWs, ParseFrom;
    ParseThen(d, before, mid, line, next);
    ParseConcat(d, before + [line], after);
  }

  predicate IsComment(line: string) {
    exists k: nat | k <= |line| :: IsGap(line[..k]) && (k == |line| || line[k] == '#')
  }

  /** What a text without settings gives. */
  lemma {:induction false} OnlyComments(content: string)
    requires forall line | line in Lines(content, '\n') :: IsComment(line)
    ensures ParsedDescriptor(content) == Ok(VmdkDescriptor(1, 0, 0xffff_ffff, "", [], 0, 0, 0, "", ""))
  {
    hide Lines;
    CommentsSkipped(BLANK, Lines(content, '\n'));
  }

  lemma {:induction false} CommentsSkipped(d: VmdkDescriptor, lines: seq<string>)
    requires forall line | line in lines :: IsComment(line)
    ensures ParseFrom(d, lines) == Ok(d)
    decreases |lines|
  {
    hide Apply, TrimWs, IsGap;
    if lines != [] {
      var line := lines[0];
      assert line in lines && IsComment(line);
      var k: nat :| k <= |line| && IsGap(line[..k]) && (k == |line| || line[k] == '#');
      if k == |line| {
        LineSkipped(d, line[..k], "");
        assert line[..k] == line;
      } else {
        LineSkipped(d, line[..k], line[k + 1..]);
        assert line == line[..k] + "#" + line[k + 1..];
      }
      CommentsSkipped(d, lines[1..]);
    }
  }

  lemma PlainHeadKeys()
    ensures PlainKey("version") && PlainKey("CID") && PlainKey("parentCID") && PlainKey("createType")
    ensures !KnownAccess("version") && !KnownAccess("CID") && !KnownAccess("parentCID") && !KnownAccess("createType")
  {
  }

  lemma PlainTextKeys()
    ensures PlainKey("ddb.virtualHWVersion") && PlainKey("ddb.adapterType")
    ensures !KnownAccess("ddb.virtualHWVersion") && !KnownAccess("ddb.adapterType")
  {
  }

  lemma PlainGeometryKeys()
    ensures PlainKey("ddb.geometry.cylinders") && PlainKey("ddb.geometry.heads") && PlainKey("ddb.geometry.sectors")
    ensures !KnownAccess("ddb.geometry.cylinders") && !KnownAccess("ddb.geometry.heads") && !KnownAccess("ddb.geometry.sectors")
  {
    hide PlainKey, KnownAccess;
    PlainCylinders();
    PlainHeads();
    PlainSectors();
  }

  lemma PlainCylinders()
    ensures PlainKey("ddb.geometry.cylinders") && !KnownAccess("ddb.geometry.cylinders")
  {
    assert "ddb.geometry.cylinders"[0] == 'd';
  }

  lemma PlainHeads()
    ensures PlainKey("ddb.geometry.heads") && !KnownAccess("ddb.geometry.heads")
  {
    assert "ddb.geometry.heads"[0] == 'd';
  }

  lemma PlainSectors()
    ensures PlainKey("ddb.geometry.sectors") && !KnownAccess("ddb.geometry.sectors")
  {
    assert "ddb.geometry.sectors"[0] == 'd';
  }

  lemma TextApplies(d: VmdkDescriptor, value: string)
    ensures SetKey(d, "createType", value) == Ok(d.(createType := value))
    ensures SetKey(d, "ddb.virtualHWVersion", value)
         == Ok(d.(hwVersion := value))
    ensures SetKey(d, "ddb.adapterType", value)
         == Ok(d.(adapterType := value))
  {
  }

  /** Numbers are taken in any spelling, each into its own field. */
  lemma NumberApplies(d: VmdkDescriptor, value: string, n: u32)
    ensures Spells(value, n) ==> SetKey(d, "version", value) == Ok(d.(version := n))
    ensures SpellsHex(value, n) ==> SetKey(d, "CID", value) == Ok(d.(cid := n))
    ensures SpellsHex(value, n) ==> SetKey(d, "parentCID", value) == Ok(d.(parentCid := n))
  {
    hide Spells, ParseUnsigned, SpellsHex, ParseHex;
    ParsesIffSpelled(value, U32_LIMIT, n);
    HexParsesIff(value, n);
  }

  lemma GeometryApplies(d: VmdkDescriptor, value: string, n: u64)
    requires Spells(value, n)
    ensures SetKey(d, "ddb.geometry.cylinders", value) == Ok(d.(cylinders := n))
    ensures n < U32_LIMIT ==> SetKey(d, "ddb.geometry.heads", value) == Ok(d.(heads := n))
    ensures n < U32_LIMIT ==> SetKey(d, "ddb.geometry.sectors", value) == Ok(d.(sectors := n))
  {
    hide Spells, ParseUnsigned;
    ParsesIffSpelled(value, U64_LIMIT, n);
    ParsesIffSpelled(value, U32_LIMIT, n);
    assert "ddb.geometry.sectors"[4] != "ddb.virtualHWVersion"[4];
  }

  predicate NumberKey(key: string) {
    key == "version" || key == "ddb.geometry.heads" || key == "ddb.geometry.sectors"
  }

  predicate TextKey(key: string) {
    key == "createType" || key == "ddb.virtualHWVersion" || key == "ddb.adapterType"
  }

  /** A setting fails exactly when its value is no number of the right kind and width. */
  lemma SettingErrors(d: VmdkDescriptor, key: string, value: string)
    ensures var r := SetKey(d, key, value);
            if NumberKey(key) && (forall n: u32 :: !Spells(value, n)) then r == Err(BadSetting(key))
            else if key == "ddb.geometry.cylinders" && (forall n: u64 :: !Spells(value, n)) then r == Err(BadSetting(key))
            else if (key == "CID" || key == "parentCID") && (forall n: u32 :: !SpellsHex(value, n)) then r == Err(BadSetting(key))
            else r.Ok?
  {
    hide ParseU32, ParseU64, ParseHex, Spells, SpellsHex;
    NumberOrNot(value);
    SmallOrNot(value);
    HexOrNot(value);
  }

  lemma SmallOrNot(s: string)
    ensures ParseU32(s).None? <==> forall n: u32 :: !Spells(s, n)
  {
    hide ParseUnsigned, Spells;
    if ParseU32(s).Some? {
      ParsesIffSpelled(s, U32_LIMIT, ParseU32(s).value);
    }
    forall n: u32
      ensures ParseU32(s).None? ==> !Spells(s, n)
    {
      ParsesIffSpelled(s, U32_LIMIT, n);
    }
  }

  lemma HexOrNot(s: string)
    ensures ParseHex(s).None? <==> forall n: u32 :: !SpellsHex(s, n)
  {
    hide ParseHex, SpellsHex;
    if ParseHex(s).Some? {
      HexParsesIff(s, ParseHex(s).value);
    }
    forall n: u32
      ensures ParseHex(s).None? ==> !SpellsHex(s, n)
    {
      HexParsesIff(s, n);
    }
  }

  /** Other keys are ignored. */
  lemma OtherKeys(d: VmdkDescriptor, key: string, value: string)
    requires !NumberKey(key) && !TextKey(key) && key != "ddb.geometry.cylinders" && key != "CID" && key != "parentCID"
    ensures SetKey(d, key, value) == Ok(d)
  {
  }

  lemma HeadParses(d: VmdkDescriptor)
    ensures ParseFrom(BLANK, HeadLines(d))
         == Ok(BLANK.(version := d.version, cid := d.cid, parentCid := d.parentCid, createType := d.createType))
  {
    hide Apply, TrimWs, ParseFrom, Decimal, Hex, Setting, Quoted, PlainKey, SetKey, HexValue, SpellsHex, Spells, KnownAccess;
    var d1 := BLANK.(version := d.version);
    var d2 := d1.(cid := d.cid);
    var d3 := d2.(parentCid := d.parentCid);
    var d4 := d3.(createType := d.createType);
    var lines := HeadLines(d);
    PlainHeadKeys();
    DecimalSpells(d.version);
    HexIsSpelled(d.cid);
    HexIsSpelled(d.parentCid);
    NumberApplies(BLANK, Decimal(d.version), d.version);
    NumberApplies(d1, Hex(d.cid), d.cid);
    NumberApplies(d2, Hex(d.parentCid), d.parentCid);
    TextApplies(d3, d.createType);
    WordApplies(BLANK, "version", Decimal(d.version));
    ParseOne(BLANK, lines[0], d1);
    WordApplies(d1, "CID", Hex(d.cid));
    ParseThen(BLANK, [lines[0]], d1, lines[1], d2);
    WordApplies(d2, "parentCID", Hex(d.parentCid));
    ParseThen(BLANK, [lines[0]] + [lines[1]], d2, lines[2], d3);
    QuotedApplies(d3, "createType", d.createType);
    ParseThen(BLANK, [lines[0]] + [lines[1]] + [lines[2]], d3, lines[3], d4);
    assert lines == [lines[0]] + [lines[1]] + [lines[2]] + [lines[3]];
  }

  lemma TailParses(d: VmdkDescriptor, start: VmdkDescriptor)
    ensures ParseFrom(start, TailLines(d))
         == Ok(start.(hwVersion := d.hwVersion, cylinders := d.cylinders, heads := d.heads,
                      sectors := d.sectors, adapterType := d.adapterType))
  {
    hide Apply, TrimWs, ParseFrom, Decimal, Setting, Quoted, PlainKey, SetKey, Spells, KnownAccess;
    var d1 := start.(hwVersion := d.hwVersion);
    var d2 := d1.(cylinders := d.cylinders);
    var d3 := d2.(heads := d.heads);
    var d4 := d3.(sectors := d.sectors);
    var d5 := d4.(adapterType := d.adapterType);
    var lines := TailLines(d);
    PlainTextKeys();
    PlainGeometryKeys();
    TextApplies(start, d.hwVersion);
    DecimalSpells(d.cylinders);
    DecimalSpells(d.heads);
    DecimalSpells(d.sectors);
    GeometryApplies(d1, Decimal(d.cylinders), d.cylinders);
    GeometryApplies(d2, Decimal(d.heads), d.heads);
    GeometryApplies(d3, Decimal(d.sectors), d.sectors);
    TextApplies(d4, d.adapterType);
    QuotedApplies(start, "ddb.virtualHWVersion", d.hwVersion);
    ParseOne(start, lines[0], d1);
    QuotedApplies(d1, "ddb.geometry.cylinders", Decimal(d.cylinders));
    ParseThen(start, [lines[0]], d1, lines[1], d2);
    QuotedApplies(d2, "ddb.geometry.heads", Decimal(d.heads));
    ParseThen(start, [lines[0]] + [lines[1]], d2, lines[2], d3);
    QuotedApplies(d3, "ddb.geometry.sectors", Decimal(d.sectors));
    ParseThen(start, [lines[0]] + [lines[1]] + [lines[2]], d3, lines[3], d4);
    QuotedApplies(d4, "ddb.adapterType", d.adapterType);
    ParseThen(start, [lines[0]] + [lines[1]] + [lines[2]] + [lines[3]], d4, lines[4], d5);
    assert lines == [lines[0]] + [lines[1]] + [lines[2]] + [lines[3]] + [lines[4]];
  }

  lemma ExtentApplies(d: VmdkDescriptor, e: Extent, brief: bool)
    requires Printable(e)
    ensures Apply(d, TrimWs(PrintExtent(e, brief)))
         == Ok(d.(extents := d.extents + [e]))
  {
    hide TrimWs, ParseExtentLine, PrintExtent, Printable;
    PrintedIsExtentLine(e, brief);
    ExtentParses(e, brief);
  }

  /** Extent lines are appended in order, wherever they stand in the text. */
  lemma {:induction false} ExtentsParse(start: VmdkDescriptor, extents: seq<Extent>, brief: nat -> bool)
    requires forall i | 0 <= i < |extents| :: Printable(extents[i])
    ensures ParseFrom(start, ExtentLines(extents, brief))
         == Ok(start.(extents := start.extents + extents))
    decreases |extents|
  {
    hide TrimWs, PrintExtent, Printable, Apply;
    if extents == [] {
      assert start.extents + extents == start.extents;
    } else {
      var e, rest := extents[0], extents[1..];
      var briefRest := (i: nat) => brief(i + 1);
      ExtentApplies(start, e, brief(0));
      ExtentsParse(start.(extents := start.extents + [e]), rest, briefRest);
      assert ExtentLines(extents, brief)[1..] == ExtentLines(rest, briefRest);
      assert start.extents + [e] + rest == start.extents + extents;
    }
  }

  // ---- The round trip

  lemma PrintedLines(d: VmdkDescriptor, brief: nat -> bool)
    requires PrintableDescriptor(d)
    ensures Lines(PrintDescriptor(d, brief), '\n')
         == HeadLines(d) + ExtentLines(d.extents, brief) + TailLines(d)
  {
    hide Lines, JoinLines, PrintExtent, Printable;
    var lines := HeadLines(d) + ExtentLines(d.extents, brief) + TailLines(d);
    NoNewlineInHead(d);
    NoNewlineInTail(d);
    forall l | l in lines
      ensures '\n' !in l
    {
      if l in ExtentLines(d.extents, brief) {
        var i :| 0 <= i < |d.extents| && l == PrintExtent(d.extents[i], brief(i));
        NoNewlineIn(d.extents[i], brief(i));
      }
    }
    LinesOfJoin(lines);
  }

  lemma NoNewlineInSetting(key: Key, text: string)
    requires '\n' !in text
    ensures '\n' !in Setting(key, text)
  {
    assert IsWs('\n');
  }

  lemma NoNewlineInHead(d: VmdkDescriptor)
    requires '\n' !in d.createType
    ensures forall l | l in HeadLines(d) :: '\n' !in l
  {
    hide Setting, Decimal, Hex, HexValue, PlainKey;
    PlainHeadKeys();
    assert IsWs('\n');
    DecimalSpells(d.version);
    HexBack(d.cid);
    HexBack(d.parentCid);
    NoNewlineInSetting("version", Decimal(d.version));
    NoNewlineInSetting("CID", Hex(d.cid));
    NoNewlineInSetting("parentCID", Hex(d.parentCid));
    NoNewlineInSetting("createType", Quoted(d.createType));
  }

  lemma NoNewlineInTail(d: VmdkDescriptor)
    requires '\n' !in d.hwVersion && '\n' !in d.adapterType
    ensures forall l | l in TailLines(d) :: '\n' !in l
  {
    hide Setting, Decimal, PlainKey;
    PlainTextKeys();
    PlainGeometryKeys();
    assert IsWs('\n');
    DecimalSpells(d.cylinders);
    DecimalSpells(d.heads);
    DecimalSpells(d.sectors);
    NoNewlineInSetting("ddb.virtualHWVersion", Quoted(d.hwVersion));
    NoNewlineInSetting("ddb.geometry.cylinders", Quoted(Decimal(d.cylinders)));
    NoNewlineInSetting("ddb.geometry.heads", Quoted(Decimal(d.heads)));
    NoNewlineInSetting("ddb.geometry.sectors", Quoted(Decimal(d.sectors)));
    NoNewlineInSetting("ddb.adapterType", Quoted(d.adapterType));
  }

  lemma PrintedParses(d: VmdkDescriptor, brief: nat -> bool)
    requires PrintableDescriptor(d)
    ensures ParsedDescriptor(PrintDescriptor(d, brief)) == Ok(d)
  {
    hide Lines, PrintDescriptor, ParseFrom, HeadLines, TailLines, ExtentLines, Printable;
    PrintedLines(d, brief);
    var head, middle, tail := HeadLines(d), ExtentLines(d.extents, brief), TailLines(d);
    HeadParses(d);
    var afterHead := ParseFrom(BLANK, head).value;
    ExtentsParse(afterHead, d.extents, brief);
    var afterExtents := ParseFrom(afterHead, middle).value;
    TailParses(d, afterExtents);
    ParseConcat(BLANK, head, middle);
    ParseConcat(BLANK, head + middle, tail);
    assert afterHead.extents + d.extents == d.extents;
  }

  // ---- Whatever the text

  lemma KeyValueHasNo(line: string, c: char)
    requires c !in line && KeyValue(line).Some?
    ensures c !in KeyValue(line).value.1
  {
    hide TrimWs;
    var k := FirstAt(line, '=');
    TrimHasNo(line[k + 1..], c);
  }

  lemma ApplyKeepsPrintable(d: VmdkDescriptor, line: string)
    requires PrintableDescriptor(d) && '\n' !in line && Apply(d, line).Ok?
    ensures PrintableDescriptor(Apply(d, line).value)
  {
    hide ParseExtentLine, KeyValue, ParseU32, ParseU64, ParseHex, IsExtentLine, Printable;
    if line == "" || line[0] == '#' {
    } else if IsExtentLine(line) {
      ParsedIsPrintable(line);
    } else if KeyValue(line).Some? {
      KeyValueHasNo(line, '\n');
    }
  }

  lemma {:induction false} RunKeepsPrintable(d: VmdkDescriptor, lines: seq<string>)
    requires PrintableDescriptor(d) && (forall l | l in lines :: '\n' !in l) && ParseFrom(d, lines).Ok?
    ensures PrintableDescriptor(ParseFrom(d, lines).value)
    decreases |lines|
  {
    hide Apply, TrimWs, PrintableDescriptor;
    if lines != [] {
      TrimHasNo(lines[0], '\n');
      ApplyKeepsPrintable(d, TrimWs(lines[0]));
      RunKeepsPrintable(Apply(d, TrimWs(lines[0])).value, lines[1..]);
    }
  }

  /** Every descriptor the parser returns is printable. */
  lemma ParsedIsPrintableDescriptor(content: string)
    requires ParsedDescriptor(content).Ok?
    ensures PrintableDescriptor(ParsedDescriptor(content).value)
  {
    hide Lines, ParseFrom;
    LinesHaveNoEnds(content, '\n');
    RunKeepsPrintable(BLANK, Lines(content, '\n'));
  }

  /** Writing a descriptor and parsing the text gives it back exactly when it is printable, whichever offsets
      of 0 are left out. */
  lemma DescriptorRoundTripIff(d: VmdkDescriptor, brief: nat -> bool)
    ensures ParsedDescriptor(PrintDescriptor(d, brief)) == Ok(d)
       <==> PrintableDescriptor(d)
  {
    hide ParsedDescriptor, PrintDescriptor, PrintableDescriptor;
    if PrintableDescriptor(d) {
      PrintedParses(d, brief);
    } else if ParsedDescriptor(PrintDescriptor(d, brief)) == Ok(d) {
      ParsedIsPrintableDescriptor(PrintDescriptor(d, brief));
    }
  }

  /** Parsing normalizes: one more trip through text changes nothing. */
  lemma ReparseIsStable(content: string, brief: nat -> bool)
    requires ParsedDescriptor(content).Ok?
    ensures ParsedDescriptor(PrintDescriptor(ParsedDescriptor(content).value, brief))
         == ParsedDescriptor(content)
  {
    hide ParsedDescriptor, PrintDescriptor, PrintableDescriptor;
    ParsedIsPrintableDescriptor(content);
    PrintedParses(ParsedDescriptor(content).value, brief);
  }

  /** The space a printed list of extents takes is read back whatever else the text says. */
  lemma SizeSurvives(d: VmdkDescriptor, brief: nat -> bool, before: seq<Extent>, after: seq<Extent>)
    requires PrintableDescriptor(d) && d.extents == before + after
    ensures ParsedDescriptor(PrintDescriptor(d, brief)).Ok?
    ensures var parsed, sum := ParsedDescriptor(PrintDescriptor(d, brief)).value, SectorsIn(before) + SectorsIn(after);
            && DiskSizeSectors(parsed) == sum % U64_LIMIT
            && (DiskSizeBytes(parsed) == 512 * sum <==> 512 * sum < U64_LIMIT)
  {
    hide ParsedDescriptor, PrintDescriptor, PrintableDescriptor, DiskSizeBytes, SectorsIn;
    PrintedParses(d, brief);
    SectorsAdd(before, after);
    SizeExactIff(d);
  }

  /** A name with two spaces in a row does not survive. */
  lemma DoubleSpaceLost(d: VmdkDescriptor, brief: nat -> bool)
    requires d.extents == [Extent("RW", 1, Flat, "a  b", 0)]
    ensures ParsedDescriptor(PrintDescriptor(d, brief)) != Ok(d)
  {
    hide ParsedDescriptor, PrintDescriptor;
    var name := "a  b";
    assert IsWs(name[1]) && IsWs(name[1 + 1]);
    assert !Printable(d.extents[0]);
    DescriptorRoundTripIff(d, brief);
  }
}
