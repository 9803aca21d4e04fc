/** XML escaping by five replacement passes. */
module Xml {
  import opened Bytes
  import opened Results

  /** `str::replace` of one character by a string. */
  function Replace(s: string, c: char, with: string): string {
    if s == "" then "" else (if s[0] == c then with else [s[0]]) + Replace(s[1..], c, with)
  }

  const AMP := "&amp;"
  const LT := "&lt;"
  const GT := "&gt;"
  const QUOT := "&quot;"
  const APOS := "&apos;"

  /** `escape_xml`: ampersands first, then the other four. */
  function EscapeXml(s: string): string {
    Replace(Replace(Replace(Replace(Replace(s, '&', AMP), '<', LT), '>', GT), '"', QUOT), '\'', APOS)
  }

  predicate Special(c: char) {
    c == '&' || c == '<' || c == '>' || c == '"' || c == '\''
  }

  /** The simultaneous escape of one character. */
  function EscapeChar(c: char): (e: string)
    ensures e != ""
  {
    if c == '&' then AMP
    else if c == '<' then LT
    else if c == '>' then GT
    else if c == '"' then QUOT
    else if c == '\'' then APOS
    else [c]
  }

  function EscapeEach(s: string): string {
    if s == "" then "" else EscapeChar(s[0]) + EscapeEach(s[1..])
  }

  lemma ReplaceFirst(s: string, c: char, with: string)
    requires s != ""
    ensures Replace(s, c, with) == (if s[0] == c then with else [s[0]]) + Replace(s[1..], c, with)
  {
  }

  lemma {:induction false} ReplaceConcat(a: string, b: string, c: char, with: string)
    ensures Replace(a + b, c, with) == Replace(a, c, with) + Replace(b, c, with)
  {
    if a == "" {
      assert a + b == b;
    } else {
      hide Replace;
      ReplaceConcat(a[1..], b, c, with);
      assert (a + b)[0] == a[0] && (a + b)[1..] == a[1..] + b;
      ReplaceFirst(a, c, with);
      ReplaceFirst(a + b, c, with);
      Assoc(if a[0] == c then with else [a[0]], Replace(a[1..], c, with), Replace(b, c, with));
    }
  }

  lemma {:induction false} ReplaceAbsent(s: string, c: char, with: string)
    requires c !in s
    ensures Replace(s, c, with) == s
  {
    if s != "" {
      ReplaceAbsent(s[1..], c, with);
    }
  }

  lemma ReplaceOne(c: char, d: char, with: string)
    ensures Replace([c], d, with) == if c == d then with else [c]
  {
    assert [c][1..] == "";
    assert with + "" == with && [c] + "" == [c];
  }

  lemma EscapeConcat(a: string, b: string)
    ensures EscapeXml(a + b) == EscapeXml(a) + EscapeXml(b)
  {
    var a1, b1 := Replace(a, '&', AMP), Replace(b, '&', AMP);
    var a2, b2 := Replace(a1, '<', LT), Replace(b1, '<', LT);
    var a3, b3 := Replace(a2, '>', GT), Replace(b2, '>', GT);
    var a4, b4 := Replace(a3, '"', QUOT), Replace(b3, '"', QUOT);
    ReplaceConcat(a, b, '&', AMP);
    ReplaceConcat(a1, b1, '<', LT);
    ReplaceConcat(a2, b2, '>', GT);
    ReplaceConcat(a3, b3, '"', QUOT);
    ReplaceConcat(a4, b4, '\'', APOS);
  }

  /** On one character the later passes leave the earlier passes' output alone. */
  lemma EscapeOne(c: char)
    ensures EscapeXml([c]) == EscapeChar(c)
  {
    hide Replace;
    var s1 := Replace([c], '&', AMP);
    ReplaceOne(c, '&', AMP);
    var s2 := Replace(s1, '<', LT);
    if c == '&' { ReplaceAbsent(AMP, '<', LT); } else { ReplaceOne(c, '<', LT); }
    var s3 := Replace(s2, '>', GT);
    if c == '&' || c == '<' { ReplaceAbsent(s2, '>', GT); } else { ReplaceOne(c, '>', GT); }
    var s4 := Replace(s3, '"', QUOT);
    if c == '&' || c == '<' || c == '>' { ReplaceAbsent(s3, '"', QUOT); } else { ReplaceOne(c, '"', QUOT); }
    if c == '&' || c == '<' || c == '>' || c == '"' { ReplaceAbsent(s4, '\'', APOS); } else { ReplaceOne(c, '\'', APOS); }
  }

  /** The five entities, written out. */
  lemma Entities()
    ensures EscapeXml("&") == "&amp;" && EscapeXml("<") == "&lt;" && EscapeXml(">") == "&gt;"
    ensures EscapeXml("\"") == "&quot;" && EscapeXml("'") == "&apos;"
  {
    hide EscapeXml;
    EscapeOne('&');
    EscapeOne('<');
    EscapeOne('>');
    EscapeOne('"');
    EscapeOne('\'');
  }

  /** The five passes are one simultaneous escape. */
  lemma {:induction false} PassesAreSimultaneous(s: string)
    ensures EscapeXml(s) == EscapeEach(s)
  {
    if s != "" {
      hide EscapeXml, EscapeChar;
      PassesAreSimultaneous(s[1..]);
      EscapeConcat([s[0]], s[1..]);
      EscapeOne(s[0]);
      assert s == [s[0]] + s[1..];
    }
  }

  function Cons(c: char, rest: Option<string>): Option<string> {
    match rest
    case None => None
    case Some(s) => Some([c] + s)
  }

  /** Escaped text holds no raw `<`, `>`, quote or apostrophe. */
  lemma {:induction false} NoRawSpecials(s: string, c: char)
    requires c == '<' || c == '>' || c == '"' || c == '\''
    ensures c !in EscapeXml(s)
  {
    PassesAreSimultaneous(s);
    if s != "" {
      hide EscapeXml, EscapeChar;
      NoRawSpecials(s[1..], c);
      PassesAreSimultaneous(s[1..]);
      NoRawSpecial(s[0], c);
    }
  }

  lemma NoRawSpecial(d: char, c: char)
    requires c == '<' || c == '>' || c == '"' || c == '\''
    ensures c !in EscapeChar(d)
  {
  }

  /** White space other than blanks and characters outside XML 1.0 come through escaping as they are. */
  lemma {:induction false} OddCharsStay(s: string, c: char)
    requires Odd(c)
    ensures c in EscapeXml(s) <==> c in s
  {
    PassesAreSimultaneous(s);
    if s != "" {
      hide EscapeXml;
      OddCharsStay(s[1..], c);
      PassesAreSimultaneous(s[1..]);
      OddChar(s[0], c);
      assert s == [s[0]] + s[1..];
    }
  }

  lemma OddChar(d: char, c: char)
    requires Odd(c)
    ensures c in EscapeChar(d) <==> c == d
  {
  }

  // ---- What an XML reader makes of text and of attribute values

  /** `Char` of XML 1.0, section 2.2. */
  predicate XmlChar(c: char) {
    c == '\t' || c == '\n' || c == '\r' || (' ' <= c && c != '\U{FFFE}' && c != '\U{FFFF}')
  }

  predicate Odd(c: char) {
    c == '\t' || c == '\n' || c == '\r' || !XmlChar(c)
  }

  predicate XmlChars(s: string) {
    forall i | 0 <= i < |s| :: XmlChar(s[i])
  }

  /** References resolved: `<` and characters outside XML are errors, and every `&` must open one of the five entities. */
  function Decode(t: string): Option<string>
    decreases |t|
  {
    if t == "" then Some("")
    else if AMP <= t then Cons('&', Decode(t[5..]))
    else if LT <= t then Cons('<', Decode(t[4..]))
    else if GT <= t then Cons('>', Decode(t[4..]))
    else if QUOT <= t then Cons('"', Decode(t[6..]))
    else if APOS <= t then Cons('\'', Decode(t[6..]))
    else if t[0] == '&' || t[0] == '<' || !XmlChar(t[0]) then None
    else Cons(t[0], Decode(t[1..]))
  }

  /** Decoding proceeds character by character. */
  lemma DecodeChar(c: char, rest: string)
    ensures Decode(EscapeChar(c) + rest)
         == if XmlChar(c) then Cons(c, Decode(rest)) else None
  {
    var e := EscapeChar(c);
    var t := e + rest;
    assert t[|e|..] == rest;
    assert t[0] == e[0];
    if Special(c) {
      assert t[1] == e[1] && t[2] == e[2];
      assert e <= t;
    }
  }

  /** A character other than `&` and `<` stands for itself. */
  lemma DecodePlain(c: char, rest: string)
    requires c != '&' && c != '<'
    ensures Decode([c] + rest) == if XmlChar(c) then Cons(c, Decode(rest)) else None
  {
    var t := [c] + rest;
    assert t[0] == c && t[1..] == rest;
  }

  lemma {:induction false} DecodeEach(s: string, rest: string)
    requires Decode(rest).Some?
    ensures Decode(EscapeEach(s) + rest)
         == if XmlChars(s) then Some(s + Decode(rest).value) else None
  {
    if s == "" {
      assert EscapeEach(s) + rest == rest && s + Decode(rest).value == Decode(rest).value;
    } else {
      hide Decode, EscapeChar, XmlChar;
      DecodeEach(s[1..], rest);
      DecodeChar(s[0], EscapeEach(s[1..]) + rest);
      Assoc(EscapeChar(s[0]), EscapeEach(s[1..]), rest);
      Assoc([s[0]], s[1..], Decode(rest).value);
      assert s == [s[0]] + s[1..];
      assert XmlChars(s) <==> XmlChar(s[0]) && XmlChars(s[1..]);
    }
  }

  /** Escaped text in front of anything readable reads as itself, if XML can carry its characters at all. */
  lemma DecodeEscaped(s: string, rest: string)
    requires Decode(rest).Some?
    ensures Decode(EscapeXml(s) + rest)
         == if XmlChars(s) then Some(s + Decode(rest).value) else None
  {
    hide EscapeXml, EscapeEach, Decode, XmlChars;
    PassesAreSimultaneous(s);
    DecodeEach(s, rest);
  }

  /** Decoding inverts escaping on every string of XML characters; no other string has an escape that decodes. */
  lemma UnescapeInverts(s: string)
    ensures Decode(EscapeXml(s)) == if XmlChars(s) then Some(s) else None
  {
    hide EscapeXml, XmlChars;
    DecodeEscaped(s, "");
    assert EscapeXml(s) + "" == EscapeXml(s) && s + "" == s;
  }

  /** And only escapes decode, where the other three specials do not stand for themselves: what is decoded is the
      escape of the result. */
  lemma {:induction false} OnlyEscapesDecode(t: string)
    requires Decode(t).Some? && '>' !in t && '"' !in t && '\'' !in t
    ensures EscapeXml(Decode(t).value) == t
    decreases |t|
  {
    hide EscapeXml, Decode, EscapeChar, EscapeEach;
    PassesAreSimultaneous(Decode(t).value);
    if t == "" {
      DecodeNothing();
    } else {
      var c, n := DecodeFirst(t);
      var s, rest := Decode(t).value, t[n..];
      OnlyEscapesDecode(rest);
      PassesAreSimultaneous(Decode(rest).value);
      assert s[0] == c && s[1..] == Decode(rest).value;
      EachFirst(s);
      assert t == t[..n] + rest;
      if n == 1 {
        assert t[0] in t && t[..1] == [t[0]];
        PlainChar(c);
      }
    }
  }

  lemma EachFirst(s: string)
    ensures s != "" ==> EscapeEach(s) == EscapeChar(s[0]) + EscapeEach(s[1..])
  {
  }

  lemma PlainChar(c: char)
    ensures c != '&' && c != '<' && c != '>' && c != '"' && c != '\'' ==> EscapeChar(c) == [c]
  {
  }

  /** Text without markup reads as itself, too. */
  lemma {:induction false} DecodeLiteral(s: string, rest: string)
    requires XmlChars(s) && forall i | 0 <= i < |s| :: s[i] != '&' && s[i] != '<'
    ensures Decode(rest).Some? ==> Decode(s + rest) == Some(s + Decode(rest).value)
    ensures Decode(rest).None? ==> Decode(s + rest) == None
  {
    if s == "" {
      assert s + rest == rest && (Decode(rest).Some? ==> s + Decode(rest).value == Decode(rest).value);
    } else {
      hide Decode, XmlChar;
      DecodeLiteral(s[1..], rest);
      DecodePlain(s[0], s[1..] + rest);
      Assoc([s[0]], s[1..], rest);
      if Decode(rest).Some? {
        Assoc([s[0]], s[1..], Decode(rest).value);
      }
      assert s == [s[0]] + s[1..];
    }
  }

  /** The first step of a decoding that succeeds. */
  lemma DecodeFirst(t: string) returns (c: char, n: nat)
    requires t != "" && Decode(t).Some?
    ensures 0 < n <= |t| && Decode(t) == Cons(c, Decode(t[n..])) && t[0] != '<'
    ensures if n == 1 then c == t[0] && t[0] != '&' && XmlChar(c) else Special(c) && t[..n] == EscapeChar(c)
  {
    if AMP <= t { c, n := '&', 5; }
    else if LT <= t { c, n := '<', 4; }
    else if GT <= t { c, n := '>', 4; }
    else if QUOT <= t { c, n := '"', 6; }
    else if APOS <= t { c, n := '\'', 6; }
    else { c, n := t[0], 1; }
  }

  /** Decoding never lengthens; it keeps the length only of text that it leaves alone. All characters are legal, before
      and after, and white space comes only from itself. */
  lemma {:induction false} DecodeShrinks(t: string)
    requires Decode(t).Some?
    ensures |Decode(t).value| <= |t| && (t != "" ==> Decode(t).value != "")
    ensures XmlChars(t) && XmlChars(Decode(t).value)
    ensures |Decode(t).value| == |t| ==> Decode(t).value == t && '&' !in t && '<' !in t
    ensures forall c | Odd(c) && c in Decode(t).value :: c in t
    decreases |t|
  {
    if t != "" {
      hide Decode, EscapeChar, XmlChar, Odd;
      var c, n := DecodeFirst(t);
      DecodeShrinks(t[n..]);
      assert t == t[..n] + t[n..];
      if n > 1 {
        EntityChars(c);
      }
    }
  }

  lemma EntityChars(c: char)
    requires Special(c)
    ensures XmlChars(EscapeChar(c)) && !Odd(c)
  {
  }

  predicate IsSpace(c: char) {
    c == ' ' || c == '\t' || c == '\n' || c == '\r'
  }

  /** Line ends as an XML reader passes them on (section 2.11): a carriage return, with or without a line feed behind it,
      is one line feed. */
  function LineEnds(s: string): (t: string)
    ensures |t| <= |s| && '\r' !in t && ('\r' !in s ==> t == s)
    ensures forall c | c in s && c != '\r' && c != '\n' :: c in t
  {
    if s == "" then ""
    else if s[0] != '\r' then [s[0]] + LineEnds(s[1..])
    else if |s| > 1 && s[1] == '\n' then ['\n'] + LineEnds(s[2..])
    else ['\n'] + LineEnds(s[1..])
  }

  /** Attribute values show every kind of white space as a blank (section 3.3.3). */
  function Blanked(s: string): (t: string)
    ensures |t| == |s| && forall i | 0 <= i < |s| :: t[i] == if IsSpace(s[i]) then ' ' else s[i]
  {
    seq(|s|, i requires 0 <= i < |s| => if IsSpace(s[i]) then ' ' else s[i])
  }

  function ReadValue(raw: string): Option<string> {
    Decode(Blanked(LineEnds(raw)))
  }

  /** Text between tags must not hold the end of a CDATA section (section 2.4). */
  predicate ClosesCdata(raw: string) {
    exists i | 0 <= i < |raw| - 2 :: raw[i] == ']' && raw[i + 1] == ']' && raw[i + 2] == '>'
  }

  function ReadText(raw: string): Option<string> {
    if ClosesCdata(raw) then None else Decode(LineEnds(raw))
  }

  /** Characters that text between tags can show. */
  predicate CleanText(s: string) {
    forall i | 0 <= i < |s| :: XmlChar(s[i]) && s[i] != '\r'
  }

  /** Characters that an attribute value can show. */
  predicate CleanValue(s: string) {
    forall i | 0 <= i < |s| :: !Odd(s[i])
  }

  /** What a reader makes of text holds no carriage return; characters outside XML it refuses. */
  lemma TextIsClean(raw: string)
    requires ReadText(raw).Some?
    ensures CleanText(ReadText(raw).value) && XmlChars(raw) && (raw != "" ==> ReadText(raw).value != "")
  {
    hide Decode, XmlChar;
    var t := LineEnds(raw);
    DecodeShrinks(t);
    SpacesAreLegal();
    assert forall i | 0 <= i < |raw| :: raw[i] in raw;
    assert raw != "" ==> t != "";
  }

  /** What it makes of an attribute value holds no white space but blanks. */
  lemma ValueIsClean(raw: string)
    requires ReadValue(raw).Some?
    ensures CleanValue(ReadValue(raw).value) && XmlChars(raw) && |ReadValue(raw).value| <= |raw|
  {
    hide Decode, XmlChar;
    var u := LineEnds(raw);
    var t := Blanked(u);
    DecodeShrinks(t);
    SpacesAreLegal();
    assert forall i | 0 <= i < |u| :: u[i] == t[i] || IsSpace(u[i]);
    assert forall i | 0 <= i < |raw| :: raw[i] in raw;
  }

  lemma SpacesAreLegal()
    ensures forall c | IsSpace(c) :: XmlChar(c)
    ensures !Odd(' ')
  {
  }

  /** A value that may be put between quotes as it is. */
  predicate PlainValue(s: string) {
    CleanValue(s) && forall i | 0 <= i < |s| :: s[i] != '"' && s[i] != '<' && s[i] != '&'
  }

  /** Clean values are passed on as they are. */
  lemma CleanStays(s: string)
    ensures CleanValue(s) ==> XmlChars(s) && Blanked(LineEnds(s)) == s
    ensures CleanText(s) ==> XmlChars(s) && LineEnds(s) == s
  {
  }

  /** An unescaped value reads as itself if and only if it has no quote, no markup, only characters of XML, and no white
      space but blanks. */
  lemma VerbatimReads(s: string)
    ensures ReadValue(s) == Some(s) && '"' !in s <==> PlainValue(s)
  {
    hide Decode, LineEnds;
    CleanStays(s);
    if PlainValue(s) {
      assert Decode("") == Some("") by { DecodeNothing(); }
      DecodeLiteral(s, "");
      assert s + "" == s;
    } else if ReadValue(s) == Some(s) && '"' !in s {
      ValueIsClean(s);
      DecodeShrinks(s);
    }
  }

  lemma DecodeNothing()
    ensures Decode("") == Some("") && EscapeEach("") == ""
  {
  }

  lemma LoneAmpersand(t: string)
    requires |t| >= 2 && t[0] == '&' && t[1] != 'a' && t[1] != 'l' && t[1] != 'g' && t[1] != 'q'
    ensures Decode(t) == None
  {
  }

  /** An ampersand that opens no entity makes a value unreadable. */
  lemma AmpersandUnreadable(rest: string)
    ensures ReadValue(['R'] + (['&', 'D'] + rest)) == None
  {
    hide Decode, Blanked, LineEnds;
    var b := Blanked(LineEnds(rest));
    ShownAs('D', rest);
    ShownAs('&', ['D'] + rest);
    ShownAs('R', ['&'] + (['D'] + rest));
    assert ['&', 'D'] + rest == ['&'] + (['D'] + rest);
    LoneAmpersand(['&'] + (['D'] + b));
    DecodePlain('R', ['&'] + (['D'] + b));
  }

  /** Line ends and blanks do not touch other characters. */
  lemma ShownAs(c: char, rest: string)
    requires !Odd(c)
    ensures Blanked(LineEnds([c] + rest)) == [c] + Blanked(LineEnds(rest))
  {
    var s := [c] + rest;
    assert s[0] == c && s[1..] == rest;
    assert LineEnds(s) == [c] + LineEnds(rest);
  }

  /** One that does open an entity makes it read as something else. */
  lemma EntityMisread(rest: string)
    requires ReadValue(rest).Some?
    ensures ReadValue(['a'] + (AMP + rest))
         == Some(['a', '&'] + ReadValue(rest).value)
  {
    hide Decode, Blanked, LineEnds;
    var b := Blanked(LineEnds(rest));
    EntityShown(rest);
    ShownAs('a', AMP + rest);
    DecodePlain('a', AMP + b);
    DecodeChar('&', b);
    assert ['a'] + (['&'] + Decode(b).value) == ['a', '&'] + Decode(b).value;
  }

  lemma EntityShown(rest: string)
    ensures Blanked(LineEnds(AMP + rest)) == AMP + Blanked(LineEnds(rest))
  {
    hide Blanked, LineEnds;
    var b := Blanked(LineEnds(rest));
    ShownAs(';', rest);
    ShownAs('p', [';'] + rest);
    ShownAs('m', ['p'] + ([';'] + rest));
    ShownAs('a', ['m'] + (['p'] + ([';'] + rest)));
    ShownAs('&', ['a'] + (['m'] + (['p'] + ([';'] + rest))));
    assert AMP + rest == ['&'] + (['a'] + (['m'] + (['p'] + ([';'] + rest))));
    assert AMP + b == ['&'] + (['a'] + (['m'] + (['p'] + ([';'] + b))));
  }
}
