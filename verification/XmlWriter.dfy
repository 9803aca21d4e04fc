/** XML as it is generated, one tag or element per line, and exactly when the reader sees what was meant. */
module XmlWriter {
  import opened Bytes
  import opened Results
  import opened Text
  import opened Xml
  import opened XmlReader

  predicate FixedOk(w: string) {
    forall i | 0 <= i < |w| :: ' ' <= w[i] <= 'z' && w[i] != '"' && w[i] != '&' && w[i] != '<' && w[i] != '>'
  }

  /** Words that need no escaping. */
  type Literal = w: string | FixedOk(w) witness ""

  type Indent = s: string | forall i | 0 <= i < |s| :: s[i] == ' ' witness ""

  type Gap = s: string | s != "" && Blank(s) witness " "

  /** What goes between tags or quotes: fixed words, a number, an escaped string, or a string put in as it is. */
  datatype Content =
    | Fixed(words: Literal)
    | Number(words: Literal, n: nat)
    | Escaped(words: Literal, s: string, after: Literal)
    | Verbatim(s: string)

  /** What goes between tags: nothing is put there as it is. */
  type Inner = c: Content | !c.Verbatim? witness Fixed("")

  function Raw(c: Content): string {
    match c
    case Fixed(words) => words
    case Number(words, n) => words + Decimal(n)
    case Escaped(words, s, after) => words + (EscapeXml(s) + after)
    case Verbatim(s) => s
  }

  /** What is meant by it, wherever it stands. */
  function Meaning(c: Content): string {
    match c
    case Fixed(words) => words
    case Number(words, n) => words + Decimal(n)
    case Escaped(words, s, after) => words + (s + after)
    case Verbatim(s) => s
  }

  lemma NumberOk(n: nat)
    ensures FixedOk(Decimal(n))
  {
    hide Decimal;
  }

  lemma FixedDecodes(w: Literal)
    ensures Decode(w) == Some(w) && CleanValue(w) && CleanText(w) && '"' !in w && '<' !in w && '>' !in w
  {
    hide Decode;
    DecodeNothing();
    DecodeLiteral(w, "");
    assert w + "" == w;
  }

  lemma EscapedDecodes(before: Literal, s: string, after: Literal)
    requires XmlChars(s)
    ensures Decode(before + (EscapeXml(s) + after))
         == Some(before + (s + after))
  {
    hide Decode, EscapeXml, XmlChars;
    FixedDecodes(after);
    DecodeEscaped(s, after);
    FixedDecodes(before);
    LiteralIsLegal(before);
    DecodeLiteral(before, EscapeXml(s) + after);
  }

  lemma LiteralIsLegal(w: Literal)
    ensures XmlChars(w)
  {
  }

  /** The raw form holds none of the characters that end it, and an odd character only if the meaning does. */
  lemma RawChars(c: Inner)
    ensures '<' !in Raw(c) && '>' !in Raw(c) && '"' !in Raw(c)
    ensures CleanValue(Meaning(c)) ==> CleanValue(Raw(c))
    ensures CleanText(Meaning(c)) ==> '\r' !in Raw(c)
  {
    hide EscapeXml, Decimal;
    if c.Number? {
      NumberOk(c.n);
    } else if c.Escaped? {
      NoRawSpecials(c.s, '<');
      NoRawSpecials(c.s, '>');
      NoRawSpecials(c.s, '"');
      forall d | Odd(d)
        ensures d in EscapeXml(c.s) <==> d in c.s
      {
        OddCharsStay(c.s, d);
      }
      MeaningParts(c);
      FixedDecodes(c.words);
      FixedDecodes(c.after);
    }
  }

  /** The meaning is clean exactly when the string in it is. */
  lemma MeaningParts(c: Content)
    requires c.Escaped?
    ensures CleanValue(Meaning(c)) <==> CleanValue(c.s)
    ensures CleanText(Meaning(c)) <==> CleanText(c.s)
  {
    hide CleanValue, CleanText;
    FixedDecodes(c.words);
    FixedDecodes(c.after);
    CleanConcat(c.s, c.after);
    CleanConcat(c.words, c.s + c.after);
  }

  lemma CleanConcat(a: string, b: string)
    ensures CleanValue(a + b) <==> CleanValue(a) && CleanValue(b)
    ensures CleanText(a + b) <==> CleanText(a) && CleanText(b)
  {
    hide XmlChar, Odd;
    assert forall i | 0 <= i < |a| :: (a + b)[i] == a[i];
    assert forall i | 0 <= i < |b| :: (a + b)[|a| + i] == b[i];
  }

  /** What text between tags must satisfy; there are no verbatim strings there. */
  predicate TextReadable(c: Inner) {
    c.Escaped? ==> CleanText(c.s)
  }

  /** What an attribute value must satisfy. */
  predicate Readable(c: Content) {
    && (c.Escaped? ==> CleanValue(c.s))
    && (c.Verbatim? ==> PlainValue(c.s))
  }

  /** The meaning of a readable content, other than a verbatim string, is clean, and the raw form decodes to it. */
  lemma RawDecodes(c: Inner)
    ensures TextReadable(c) <==> CleanText(Meaning(c))
    ensures Readable(c) <==> CleanValue(Meaning(c))
    ensures TextReadable(c) ==> Decode(Raw(c)) == Some(Meaning(c))
  {
    hide Decode, EscapeXml, Decimal;
    match c
    case Fixed(words) => FixedDecodes(words);
    case Number(words, n) =>
      NumberOk(n);
      FixedDecodes(words + Decimal(n));
    case Escaped(words, s, after) =>
      MeaningParts(c);
      if CleanText(s) {
        EscapedDecodes(words, s, after);
      }
  }

  /** Text between tags reads as meant exactly when it is readable. */
  lemma TextExact(c: Inner)
    ensures ReadText(Raw(c)) == Some(Meaning(c)) <==> TextReadable(c)
  {
    hide Decode, Raw, Meaning, XmlChar;
    RawDecodes(c);
    RawChars(c);
    if TextReadable(c) {
      assert LineEnds(Raw(c)) == Raw(c);
    } else if ReadText(Raw(c)).Some? {
      TextIsClean(Raw(c));
    }
  }

  /** And so does an attribute value. */
  lemma ValueExact(c: Inner)
    ensures ReadValue(Raw(c)) == Some(Meaning(c)) <==> Readable(c)
  {
    hide Decode, Raw, Meaning;
    RawDecodes(c);
    RawChars(c);
    if Readable(c) {
      CleanStays(Raw(c));
    } else if ReadValue(Raw(c)).Some? {
      ValueIsClean(Raw(c));
    }
  }

  // ---- Attributes

  datatype RawAttr = RawAttr(name: Name, content: Content)

  /** Attributes with names of their own. */
  type AttrList = attrs: seq<RawAttr> | forall i, j | 0 <= i < j < |attrs| :: attrs[i].name != attrs[j].name witness []

  /** The first attribute follows `first`, the others `gap`. */
  function AttrsText(attrs: seq<RawAttr>, first: Gap, gap: Gap): string {
    if attrs == [] then ""
    else first + (attrs[0].name + ("=\"" + (Raw(attrs[0].content) + ("\"" + AttrsText(attrs[1..], gap, gap)))))
  }

  function Meant(attrs: seq<RawAttr>): (ms: seq<Attr>)
    ensures |ms| == |attrs| && forall i | 0 <= i < |ms| :: ms[i] == Attr(attrs[i].name, Meaning(attrs[i].content))
  {
    seq(|attrs|, i requires 0 <= i < |attrs| => Attr(attrs[i].name, Meaning(attrs[i].content)))
  }

  predicate AttrsReadable(attrs: seq<RawAttr>) {
    forall i | 0 <= i < |attrs| :: Readable(attrs[i].content)
  }

  /** The end of a tag. */
  predicate TagEnd(s: string) {
    ">" <= s || "/>" <= s
  }

  lemma AttrSplit(t: string, k: nat)
    requires 0 < k == NameLength(t) && k + 2 <= |t| && t[k] == '=' && t[k + 1] == '"'
    requires FirstAt(t[k + 2..], '"') < |t[k + 2..]|
    ensures var body := t[k + 2..];
            AttrAt(t) == Some((t[..k], body[..FirstAt(body, '"')], body[FirstAt(body, '"') + 1..]))
  {
    hide NameLength, FirstAt;
    assert t[k..][..2] == "=\"";
  }

  /** One attribute: the reader takes the value up to the first quote. */
  lemma OneAttr(name: Name, body: string)
    requires FirstAt(body, '"') < |body|
    ensures var q := FirstAt(body, '"');
            AttrAt(name + ("=\"" + body)) == Some((name, body[..q], body[q + 1..]))
  {
    hide *;
    var t, tail := name + ("=\"" + body), "=\"" + body;
    KeyTail(name, body);
    KeyRead(name, tail);
    AttrSplit(t, |name|);
  }

  lemma KeyRead(name: Name, tail: string)
    requires tail != "" && !NameChar(tail[0])
    ensures 0 < |name| == NameLength(name + tail)
  {
    hide NameLength;
    NameRead(name, tail);
  }

  lemma KeyTail(name: string, body: string)
    ensures var t, tail, k := name + ("=\"" + body), "=\"" + body, |name|;
            && tail != "" && !NameChar(tail[0])
            && t[k] == '=' && t[k + 1] == '"' && t[..k] == name && t[k + 2..] == body
  {
    var t := name + ("=\"" + body);
    assert t == (name + "=\"") + body by { Assoc(name, "=\"", body); }
  }

  lemma AttrStep(gap: Gap, t: string)
    requires t != "" && NameChar(t[0]) && AttrAt(t).Some?
    ensures ReadAttrs(gap + t)
         == match ReadValue(AttrAt(t).value.1)
            case None => None
            case Some(value) => PrependAttr(Attr(AttrAt(t).value.0, value), ReadAttrs(AttrAt(t).value.2))
  {
    hide AttrAt, ReadValue;
    SkipBlank(gap, t);
    assert SkipSpace(t) == t;
  }

  lemma NoAttrs(end: string)
    requires TagEnd(end)
    ensures ReadAttrs(end) == Some(([], end)) && AttrsReadable([]) && Meant([]) == []
    ensures forall first: Gap, gap: Gap :: AttrsText([], first, gap) + end == end
  {
  }

  /** The value read from `raw`, a quote, and more text. */
  lemma QuotedValue(raw: string, more: string)
    ensures var body := raw + ("\"" + more);
            var q := FirstAt(body, '"');
            && q <= |raw| && q < |body| && body[..q] == raw[..q]
            && ('"' !in raw ==> q == |raw| && raw[..q] == raw && body[q + 1..] == more)
            && ('"' in raw ==> q < |raw|)
  {
    var body := raw + ("\"" + more);
    assert body[|raw|] == '"' && forall i | 0 <= i < |raw| :: body[i] == raw[i];
    if '"' !in raw {
      assert body == raw + ['"'] + more;
      FirstAfter(raw, '"', more);
    }
  }

  /** A content is read as meant exactly when it is readable: otherwise the value is missing or another one. */
  lemma ContentExact(c: Content, more: string)
    ensures var body := Raw(c) + ("\"" + more);
            var q := FirstAt(body, '"');
            && q < |body|
            && (Readable(c) ==> ReadValue(body[..q]) == Some(Meaning(c)) && body[q + 1..] == more)
            && (!Readable(c) ==> ReadValue(body[..q]) != Some(Meaning(c)))
  {
    hide ReadValue, PlainValue, CleanValue, EscapeXml, Decimal;
    var raw := Raw(c);
    QuotedValue(raw, more);
    if !c.Verbatim? {
      ValueExact(c);
      RawChars(c);
    } else {
      VerbatimReads(c.s);
      if '"' in c.s {
        var q := FirstAt(raw + ("\"" + more), '"');
        if ReadValue(raw[..q]).Some? {
          ValueIsClean(raw[..q]);
        }
      }
    }
  }

  lemma FirstExact(a: RawAttr, gap: Gap, more: string)
    ensures var r := ReadAttrs(gap + (a.name + ("=\"" + (Raw(a.content) + ("\"" + more)))));
            && (Readable(a.content) ==> r == PrependAttr(Attr(a.name, Meaning(a.content)), ReadAttrs(more)))
            && (!Readable(a.content) ==> r.None? || (r.value.0 != [] && r.value.0[0] != Attr(a.name, Meaning(a.content))))
  {
    hide ReadAttrs, AttrAt, Raw, ReadValue, Meaning, Readable;
    var body := Raw(a.content) + ("\"" + more);
    var t := a.name + ("=\"" + body);
    ContentExact(a.content, more);
    OneAttr(a.name, body);
    assert t[0] == a.name[0];
    AttrStep(gap, t);
  }

  lemma MeantCons(attrs: seq<RawAttr>)
    requires attrs != []
    ensures Meant(attrs) == [Attr(attrs[0].name, Meaning(attrs[0].content))] + Meant(attrs[1..])
    ensures AttrsReadable(attrs) <==> Readable(attrs[0].content) && AttrsReadable(attrs[1..])
  {
    hide Meaning, Readable;
  }

  /** All attributes are read as meant if every content is readable; otherwise some attribute differs. */
  lemma {:induction false} AttrsExact(attrs: seq<RawAttr>, first: Gap, gap: Gap, end: string)
    requires TagEnd(end)
    ensures AttrsReadable(attrs) ==> ReadAttrs(AttrsText(attrs, first, gap) + end) == Some((Meant(attrs), end))
    ensures !AttrsReadable(attrs) ==>
              var r := ReadAttrs(AttrsText(attrs, first, gap) + end); r.None? || r.value.0 != Meant(attrs)
    decreases |attrs|
  {
    hide ReadAttrs, Raw, ReadValue, Meaning, Readable, TagEnd, NameOk, AttrsText, AttrsReadable, Meant, Blank;
    if attrs == [] {
      NoAttrs(end);
    } else {
      var a, more := attrs[0], AttrsText(attrs[1..], gap, gap) + end;
      AttrText(attrs, first, gap, end);
      AttrsExact(attrs[1..], gap, gap, end);
      FirstExact(a, first, more);
      MeantCons(attrs);
    }
  }

  lemma AttrText(attrs: seq<RawAttr>, first: Gap, gap: Gap, end: string)
    requires attrs != []
    ensures AttrsText(attrs, first, gap) + end
         == first + (attrs[0].name + ("=\"" + (Raw(attrs[0].content) + ("\"" + (AttrsText(attrs[1..], gap, gap) + end)))))
  {
    hide Raw;
  }

  // ---- Lines

  datatype Line =
    | OpenLine(indent: Indent, name: Name, attrs: AttrList, gap: Gap)
    | EmptyLine(indent: Indent, name: Name, attrs: AttrList)
    | CloseLine(indent: Indent, name: Name)
    | ElementLine(indent: Indent, name: Name, content: Inner)

  function LineText(l: Line): string {
    match l
    case OpenLine(indent, name, attrs, gap) => indent + ("<" + (name + (AttrsText(attrs, " ", gap) + ">\n")))
    case EmptyLine(indent, name, attrs) => indent + ("<" + (name + (AttrsText(attrs, " ", " ") + "/>\n")))
    case CloseLine(indent, name) => indent + ("</" + (name + ">\n"))
    case ElementLine(indent, name, content) =>
      indent + ("<" + (name + (">" + (Raw(content) + ("</" + (name + ">\n"))))))
  }

  /** The text between tags as a token, unless there is none. */
  function TextTokens(s: string): seq<Token> {
    if s == "" then [] else [Chars(s)]
  }

  /** What a line is meant to say, with the line end before it and its indentation. */
  function LineTokens(l: Line): seq<Token> {
    [Chars("\n" + l.indent)] +
    match l
    case OpenLine(_, name, attrs, _) => [Open(name, Meant(attrs))]
    case EmptyLine(_, name, attrs) => [Empty(name, Meant(attrs))]
    case CloseLine(_, name) => [Close(name)]
    case ElementLine(_, name, content) => [Open(name, [])] + TextTokens(Meaning(content)) + [Close(name)]
  }

  predicate LineReadable(l: Line) {
    && (l.OpenLine? || l.EmptyLine? ==> AttrsReadable(l.attrs))
    && (l.ElementLine? ==> TextReadable(l.content))
  }

  function LinesText(ls: seq<Line>): string {
    if ls == [] then "" else LineText(ls[0]) + LinesText(ls[1..])
  }

  function LinesTokens(ls: seq<Line>): seq<Token> {
    if ls == [] then [] else LineTokens(ls[0]) + LinesTokens(ls[1..])
  }

  // ---- Reading lines

  /** What the reader makes of a tag with attributes. */
  function TagRead(name: string, r: Option<(seq<Attr>, string)>): Option<(Token, string)> {
    match r
    case None => None
    case Some((attrs, rest)) =>
      if !UniqueNames(attrs) then None
      else if ">" <= rest then Some((Open(name, attrs), rest[1..]))
      else if "/>" <= rest then Some((Empty(name, attrs), rest[2..]))
      else None
  }

  lemma TagReads(name: Name, tail: string)
    requires tail != "" && !NameChar(tail[0])
    ensures ReadTag(name + tail) == TagRead(name, ReadAttrs(tail))
  {
    hide ReadAttrs, UniqueNames;
    var s := name + tail;
    NameRead(name, tail);
    assert s[0] == name[0];
  }

  lemma TailStart(attrs: seq<RawAttr>, gap: Gap, end: string)
    requires TagEnd(end)
    ensures AttrsText(attrs, " ", gap) + end != "" && !NameChar((AttrsText(attrs, " ", gap) + end)[0])
  {
    hide Raw;
    if attrs == [] {
      assert AttrsText(attrs, " ", gap) + end == end;
    } else {
      assert AttrsText(attrs, " ", gap)[0] == ' ';
    }
  }

  lemma ClosingTag(name: Name, rest: string)
    ensures ReadTag("/" + (name + (">" + rest)))
         == Some((Close(name), rest))
  {
    var t, tail := name + (">" + rest), ">" + rest;
    var s := "/" + t;
    assert s[0] == '/' && s[1..] == t;
    assert tail[0] == '>' && tail[1..] == rest;
    NameRead(name, tail);
    assert t[|name|] == '>' && t[|name| + 1..] == rest;
  }

  /** A tag at the front of the text. */
  lemma TagFirst(t: string)
    ensures ReadTokens("<" + t)
         == if ReadTag(t).None? then None else Prepend([ReadTag(t).value.0], ReadTokens(ReadTag(t).value.1))
  {
    hide ReadTag;
    var s := "<" + t;
    assert s[0] == '<' && s[1..] == t;
  }

  /** Text in front of a tag. */
  lemma TextFirst(text: string, t: string)
    requires '<' !in text
    ensures ReadTokens(text + ("<" + t))
         == if text == "" then ReadTokens("<" + t)
            else if ReadText(text).None? then None
            else Prepend([Chars(ReadText(text).value)], ReadTokens("<" + t))
  {
    hide ReadTag, ReadText;
    var s := text + ("<" + t);
    if text == "" {
      assert s == "<" + t;
    } else {
      assert s == text + ['<'] + t;
      FirstAfter(text, '<', t);
      assert s[..|text|] == text && s[|text|..] == "<" + t && s[0] == text[0];
    }
  }

  /** A line end and an indentation in front of a tag. */
  lemma IndentFirst(indent: Indent, t: string)
    ensures ReadTokens("\n" + (indent + ("<" + t)))
         == Prepend([Chars("\n" + indent)], ReadTokens("<" + t))
  {
    hide ReadTokens;
    var text := "\n" + indent;
    IndentReads(indent);
    TextFirst(text, t);
    Assoc("\n", indent, "<" + t);
  }

  lemma IndentReads(indent: Indent)
    ensures ReadText("\n" + indent) == Some("\n" + indent) && '<' !in "\n" + indent
  {
    hide Decode;
    var text := "\n" + indent;
    DecodeNothing();
    assert LineEnds(text) == text;
    DecodeLiteral(text, "");
    assert text + "" == text;
  }

  /** Nothing is read, or something that does not start with `ts`. */
  predicate StartsOtherwise(r: Option<seq<Token>>, ts: seq<Token>) {
    r.None? || !(ts <= r.value)
  }

  lemma OtherFirst(t: Token, r: Option<seq<Token>>, ts: seq<Token>)
    requires ts != [] && t != ts[0]
    ensures StartsOtherwise(Prepend([t], r), ts)
  {
    if r.Some? {
      assert ([t] + r.value)[0] == t;
    }
  }

  lemma MeantUnique(attrs: AttrList)
    ensures UniqueNames(Meant(attrs))
  {
    hide Meaning;
  }

  /** A tag with attributes: the token it is meant to be, and the text behind it. */
  lemma TagExact(name: Name, attrs: AttrList, gap: Gap, end: string)
    requires TagEnd(end)
    ensures var r := ReadTokens("<" + (name + (AttrsText(attrs, " ", gap) + end)));
            var meant := if ">" <= end then Open(name, Meant(attrs)) else Empty(name, Meant(attrs));
            && (AttrsReadable(attrs) ==> r == Prepend([meant], ReadTokens(if ">" <= end then end[1..] else end[2..])))
            && (!AttrsReadable(attrs) ==> StartsOtherwise(r, [meant]))
  {
    MeantUnique(attrs);
    hide ReadTokens, ReadTag, Meant, ReadAttrs, AttrsText, AttrsReadable, NameOk, UniqueNames;
    var text := AttrsText(attrs, " ", gap);
    TagFirst(name + (text + end));
    TailStart(attrs, gap, end);
    TagReads(name, text + end);
    AttrsExact(attrs, " ", gap, end);
    var tag := ReadTag(name + (text + end));
    if !AttrsReadable(attrs) && tag.Some? {
      var meant := if ">" <= end then Open(name, Meant(attrs)) else Empty(name, Meant(attrs));
      OtherFirst(tag.value.0, ReadTokens(tag.value.1), [meant]);
    }
  }

  /** A tag line that reads as meant, or does not start as meant. */
  lemma TagLineExact(l: Line, rest: string)
    requires l.OpenLine? || l.EmptyLine?
    ensures LineReadable(l) ==> ReadTokens("\n" + (LineText(l) + rest)) == Prepend(LineTokens(l), ReadTokens("\n" + rest))
    ensures !LineReadable(l) ==> StartsOtherwise(ReadTokens("\n" + (LineText(l) + rest)), LineTokens(l))
  {
    hide ReadTokens, AttrsText, AttrsReadable, NameOk, UniqueNames, Meant;
    var gap := if l.OpenLine? then l.gap else " ";
    var text, tag := AttrsText(l.attrs, " ", gap), if l.OpenLine? then ">" else "/>";
    var end := tag + ("\n" + rest);
    assert LineText(l) + rest == l.indent + ("<" + (l.name + (text + end)));
    IndentFirst(l.indent, l.name + (text + end));
    TagExact(l.name, l.attrs, gap, end);
    assert end[|tag|..] == "\n" + rest && end[0] == tag[0];
    var r := ReadTokens("<" + (l.name + (text + end)));
    var first, meant := [Chars("\n" + l.indent)], if l.OpenLine? then Open(l.name, Meant(l.attrs)) else Empty(l.name, Meant(l.attrs));
    PrependTwice(first, [meant], ReadTokens("\n" + rest));
    PrependOther(first, [meant], r);
  }

  lemma PrependOther(a: seq<Token>, b: seq<Token>, r: Option<seq<Token>>)
    ensures StartsOtherwise(r, b) <==> StartsOtherwise(Prepend(a, r), a + b)
  {
    if r.Some? && b <= r.value {
      assert r.value == b + r.value[|b|..];
      assert a + r.value == (a + b) + r.value[|b|..];
    }
    if r.Some? && a + b <= a + r.value {
      assert (a + r.value)[|a|..|a| + |b|] == (a + b)[|a|..];
      assert b == r.value[..|b|];
    }
  }

  lemma PrependTwice(a: seq<Token>, b: seq<Token>, r: Option<seq<Token>>)
    ensures Prepend(a, Prepend(b, r)) == Prepend(a + b, r)
  {
    if r.Some? {
      Assoc(a, b, r.value);
    }
  }

  lemma CloseRead(name: Name, rest: string)
    ensures ReadTokens("<" + ("/" + (name + (">" + rest))))
         == Prepend([Close(name)], ReadTokens(rest))
  {
    hide ReadTokens, ReadTag, NameOk;
    TagFirst("/" + (name + (">" + rest)));
    ClosingTag(name, rest);
  }

  /** Text up to the closing tag. */
  lemma ContentBeforeClose(c: Inner, name: Name, rest: string)
    ensures var r := ReadTokens(Raw(c) + ("<" + ("/" + (name + (">" + rest)))));
            && (TextReadable(c) ==> r == Prepend(TextTokens(Meaning(c)) + [Close(name)], ReadTokens(rest)))
            && (!TextReadable(c) ==> StartsOtherwise(r, TextTokens(Meaning(c)) + [Close(name)]))
  {
    hide ReadTokens, Raw, Meaning, ReadText, NameOk, TextReadable;
    RawChars(c);
    TextExact(c);
    SomeText(c);
    TextFirst(Raw(c), "/" + (name + (">" + rest)));
    CloseRead(name, rest);
    var tokens, tail := TextTokens(Meaning(c)), ReadTokens("<" + ("/" + (name + (">" + rest))));
    PrependTwice(tokens, [Close(name)], ReadTokens(rest));
    if Raw(c) == "" {
      assert tokens + [Close(name)] == [Close(name)];
    } else if !TextReadable(c) && ReadText(Raw(c)).Some? {
      OtherFirst(Chars(ReadText(Raw(c)).value), tail, tokens + [Close(name)]);
    }
  }

  lemma SomeText(c: Inner)
    ensures Raw(c) == "" <==> Meaning(c) == ""
    ensures Raw(c) == "" ==> TextReadable(c)
  {
    hide EscapeXml, EscapeChar, Decimal;
    if c.Escaped? {
      PassesAreSimultaneous(c.s);
    }
  }

  lemma ElementLineExact(l: Line, rest: string)
    requires l.ElementLine?
    ensures LineReadable(l) ==> ReadTokens("\n" + (LineText(l) + rest)) == Prepend(LineTokens(l), ReadTokens("\n" + rest))
    ensures !LineReadable(l) ==> StartsOtherwise(ReadTokens("\n" + (LineText(l) + rest)), LineTokens(l))
  {
    hide ReadTokens, NameOk, ReadAttrs, Raw, Meaning, TextReadable, TextTokens, EscapeXml, Decode;
    var text, close := Raw(l.content), "/" + (l.name + (">" + ("\n" + rest)));
    var end := ">" + (text + ("<" + close));
    assert LineText(l) + rest == l.indent + ("<" + (l.name + end));
    IndentFirst(l.indent, l.name + end);
    NoAttrs(end);
    TagExact(l.name, [], " ", end);
    assert AttrsText([], " ", " ") + end == end && end[1..] == text + ("<" + close);
    ContentBeforeClose(l.content, l.name, "\n" + rest);
    var r, first, open := ReadTokens(end[1..]), [Chars("\n" + l.indent)], [Open(l.name, [])];
    var inner := TextTokens(Meaning(l.content)) + [Close(l.name)];
    assert LineTokens(l) == first + open + inner;
    hide LineText, StartsOtherwise, Prepend, AttrsReadable, Meant, AttrsText;
    PrependTwice(first, open, r);
    PrependTwice(first + open, inner, ReadTokens("\n" + rest));
    PrependOther(first + open, inner, r);
  }

  /** One line, after the line end before it: read as meant if it is readable, otherwise not even started as meant. */
  lemma LineExact(l: Line, rest: string)
    ensures LineReadable(l) ==> ReadTokens("\n" + (LineText(l) + rest)) == Prepend(LineTokens(l), ReadTokens("\n" + rest))
    ensures !LineReadable(l) ==> StartsOtherwise(ReadTokens("\n" + (LineText(l) + rest)), LineTokens(l))
  {
    hide ReadTokens, StartsOtherwise, AttrsReadable, AttrsText, Raw, Meaning, TextReadable, UniqueNames, Meant;
    match l
    case OpenLine(_, _, _, _) => TagLineExact(l, rest);
    case EmptyLine(_, _, _) => TagLineExact(l, rest);
    case CloseLine(indent, name) =>
      var t := "/" + (name + (">" + ("\n" + rest)));
      assert LineText(l) + rest == indent + ("<" + t);
      IndentFirst(indent, t);
      CloseRead(name, "\n" + rest);
      PrependTwice([Chars("\n" + indent)], [Close(name)], ReadTokens("\n" + rest));
    case ElementLine(_, _, _) => ElementLineExact(l, rest);
  }

  const LAST := [Chars("\n")]

  lemma NoLines()
    ensures ReadTokens("\n" + LinesText([]))
         == Some(LinesTokens([]) + LAST)
  {
    IndentReads("");
    hide ReadText;
    var s := "\n" + LinesText([]);
    assert s == "\n" + "" && s[..1] == s && s[1..] == "";
    assert FirstAt(s, '<') == 1;
    assert ReadTokens(s[1..]) == Some([]);
    assert LAST + [] == [] + LAST == LAST;
  }

  /** Generated lines are read as meant if and only if every escaped string has only characters its place can show, and
      every verbatim attribute value is plain. */
  lemma {:induction false} LinesExact(ls: seq<Line>)
    ensures ReadTokens("\n" + LinesText(ls)) == Some(LinesTokens(ls) + LAST)
       <==> forall i | 0 <= i < |ls| :: LineReadable(ls[i])
    decreases |ls|
  {
    hide LineText, LineTokens, LineReadable;
    if ls == [] {
      NoLines();
    } else {
      hide ReadTokens;
      LinesExact(ls[1..]);
      LineExact(ls[0], LinesText(ls[1..]));
      var r, first, more := ReadTokens("\n" + LinesText(ls[1..])), LineTokens(ls[0]), LinesTokens(ls[1..]) + LAST;
      assert LinesTokens(ls) + LAST == first + more;
      if r.Some? {
        assert (first + r.value)[|first|..] == r.value && (first + more)[|first|..] == more;
      }
      assert (forall i | 0 <= i < |ls| :: LineReadable(ls[i]))
        <==> LineReadable(ls[0]) && forall i | 0 <= i < |ls[1..]| :: LineReadable(ls[1..][i]);
    }
  }

}
