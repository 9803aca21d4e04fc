/** A strict reader for generated XML: a prolog, then one element with quoted attributes and decoded text. */
module XmlReader {
  import opened Results
  import opened Text
  import opened Xml

  datatype Attr = Attr(name: string, value: string)

  datatype Token =
    | Open(name: string, attrs: seq<Attr>)
    | Empty(name: string, attrs: seq<Attr>)
    | Close(name: string)
    | Chars(text: string)

  // ---- Names

  predicate NameChar(c: char) {
    'a' <= c <= 'z' || 'A' <= c <= 'Z' || c == ':'
  }

  predicate NameOk(s: string) {
    s != "" && forall i | 0 <= i < |s| :: NameChar(s[i])
  }

  type Name = s: string | NameOk(s) witness "a"

  /** Length of the name at the front. */
  function NameLength(s: string): (k: nat)
    ensures k <= |s| && (forall i | 0 <= i < k :: NameChar(s[i])) && (k < |s| ==> !NameChar(s[k]))
  {
    if s == "" || !NameChar(s[0]) then 0 else 1 + NameLength(s[1..])
  }

  lemma NameRead(name: Name, rest: string)
    requires rest != "" && !NameChar(rest[0])
    ensures NameLength(name + rest) == |name|
    ensures (name + rest)[..|name|] == name && (name + rest)[|name|..] == rest
  {
    var s := name + rest;
    assert s[|name|] == rest[0] && forall i | 0 <= i < |name| :: s[i] == name[i];
  }

  // ---- White space

  function SkipSpace(s: string): (t: string)
    ensures |t| <= |s| && (t != "" ==> !IsSpace(t[0]))
  {
    if s != "" && IsSpace(s[0]) then SkipSpace(s[1..]) else s
  }

  predicate Blank(s: string) {
    forall i | 0 <= i < |s| :: IsSpace(s[i])
  }

  lemma {:induction false} SkipBlank(a: string, b: string)
    requires Blank(a)
    ensures SkipSpace(a + b) == SkipSpace(b)
  {
    if a == "" {
      assert a + b == b;
    } else {
      assert (a + b)[0] == a[0] && (a + b)[1..] == a[1..] + b;
      SkipBlank(a[1..], b);
    }
  }

  // ---- Tags

  /** An attribute at the front: its name, the text between the quotes, and what follows. */
  function AttrAt(t: string): (r: Option<(string, string, string)>)
    ensures r.Some? ==> |r.value.2| < |t|
  {
    var k := NameLength(t);
    if k == 0 || !("=\"" <= t[k..]) then None
    else
      var body := t[k + 2..];
      var q := FirstAt(body, '"');
      if q == |body| then None else Some((t[..k], body[..q], body[q + 1..]))
  }

  /** Attributes up to the end of the tag, which is not consumed. White space must come before each attribute. */
  function ReadAttrs(s: string): Option<(seq<Attr>, string)>
    decreases |s|
  {
    var t := SkipSpace(s);
    if t == "" then None
    else if t[0] == '>' || "/>" <= t then Some(([], t))
    else if t == s then None
    else
      match AttrAt(t)
      case None => None
      case Some((name, raw, rest)) =>
        match ReadValue(raw)
        case None => None
        case Some(value) => PrependAttr(Attr(name, value), ReadAttrs(rest))
  }

  function PrependAttr(a: Attr, r: Option<(seq<Attr>, string)>): Option<(seq<Attr>, string)> {
    match r
    case None => None
    case Some((attrs, rest)) => Some(([a] + attrs, rest))
  }

  /** No attribute is given twice. */
  predicate UniqueNames(attrs: seq<Attr>) {
    forall i, j | 0 <= i < j < |attrs| :: attrs[i].name != attrs[j].name
  }

  /** The tag at the front, after its `<`, and what follows it. */
  function ReadTag(s: string): (r: Option<(Token, string)>)
  {
    if s == "" then None
    else if s[0] == '/' then
      var t := s[1..];
      var k := NameLength(t);
      if k == 0 || k == |t| || t[k] != '>' then None else Some((Close(t[..k]), t[k + 1..]))
    else
      var k := NameLength(s);
      if k == 0 then None
      else
        match ReadAttrs(s[k..])
        case None => None
        case Some((attrs, rest)) =>
          if !UniqueNames(attrs) then None
          else if ">" <= rest then Some((Open(s[..k], attrs), rest[1..]))
          else if "/>" <= rest then Some((Empty(s[..k], attrs), rest[2..]))
          else None
  }

  lemma {:induction false} AttrsShrink(s: string)
    requires ReadAttrs(s).Some?
    ensures |ReadAttrs(s).value.1| <= |s|
    decreases |s|
  {
    var t := SkipSpace(s);
    if !(t[0] == '>' || "/>" <= t) {
      AttrsShrink(AttrAt(t).value.2);
    }
  }

  lemma TagShrinks(s: string)
    requires ReadTag(s).Some?
    ensures |ReadTag(s).value.1| < |s|
  {
    hide ReadAttrs, UniqueNames;
    if s[0] != '/' {
      AttrsShrink(s[NameLength(s)..]);
    }
  }

  // ---- Documents

  function Prepend(ts: seq<Token>, r: Option<seq<Token>>): Option<seq<Token>> {
    match r
    case None => None
    case Some(more) => Some(ts + more)
  }

  /** Tags and all the text between them. */
  function ReadTokens(s: string): Option<seq<Token>>
    decreases |s|
  {
    if s == "" then Some([])
    else if s[0] == '<' then
      match ReadTag(s[1..])
      case None => None
      case Some((tag, rest)) =>
        TagShrinks(s[1..]);
        Prepend([tag], ReadTokens(rest))
    else
      var k := FirstAt(s, '<');
      match ReadText(s[..k])
      case None => None
      case Some(text) => Prepend([Chars(text)], ReadTokens(s[k..]))
  }

  /** Only white space may stand outside the root element. */
  predicate Outside(ts: seq<Token>) {
    forall i | 0 <= i < |ts| :: ts[i].Chars? && Blank(ts[i].text)
  }

  /** Open elements after the tokens, innermost last. None when a closing tag does not match, or when anything but white
      space comes after the last element was closed. */
  function Nest(ts: seq<Token>, open: seq<string>): Option<seq<string>> {
    if ts == [] then Some(open)
    else if open == [] then if Outside(ts) then Some([]) else None
    else
      match ts[0]
      case Open(name, _) => Nest(ts[1..], open + [name])
      case Empty(_, _) => Nest(ts[1..], open)
      case Chars(_) => Nest(ts[1..], open)
      case Close(name) => if open[|open| - 1] == name then Nest(ts[1..], open[..|open| - 1]) else None
  }

  /** White space, one root element, white space. */
  predicate OneRoot(ts: seq<Token>) {
    if ts == [] then false
    else if ts[0].Chars? then Blank(ts[0].text) && OneRoot(ts[1..])
    else if ts[0].Empty? then Outside(ts[1..])
    else ts[0].Open? && Nest(ts[1..], [ts[0].name]) == Some([])
  }

  const PROLOG := "<?xml version=\"1.0\"" + " encoding=\"UTF-8\"?>"

  /** The tokens of a well-formed document. */
  function ReadXml(doc: string): Option<seq<Token>> {
    if !(PROLOG <= doc) then None
    else
      match ReadTokens(doc[|PROLOG|..])
      case None => None
      case Some(ts) => if OneRoot(ts) then Some(ts) else None
  }

  // ---- Nothing outside the characters of XML is ever read

  lemma LegalConcat(a: string, b: string)
    ensures XmlChars(a + b) <==> XmlChars(a) && XmlChars(b)
  {
    hide XmlChar;
    assert forall i | 0 <= i < |a| :: (a + b)[i] == a[i];
    assert forall i | 0 <= i < |b| :: (a + b)[|a| + i] == b[i];
  }

  lemma Cut(a: string, b: string, s: string)
    requires s == a + b && XmlChars(a)
    ensures XmlChars(b) ==> XmlChars(s)
  {
    hide XmlChars;
    LegalConcat(a, b);
  }

  lemma {:induction false} SpaceLegal(s: string)
    ensures XmlChars(SkipSpace(s)) ==> XmlChars(s)
  {
    if s != "" && IsSpace(s[0]) {
      SpaceLegal(s[1..]);
      assert s == [s[0]] + s[1..];
    }
  }

  lemma NameLegal(s: string)
    ensures XmlChars(s[NameLength(s)..]) ==> XmlChars(s)
  {
    var k := NameLength(s);
    LegalConcat(s[..k], s[k..]);
    assert s == s[..k] + s[k..];
  }

  /** The pieces of an attribute. */
  lemma AttrParts(t: string)
    requires AttrAt(t).Some?
    ensures t[NameLength(t)..] == "=\"" + (AttrAt(t).value.1 + ("\"" + AttrAt(t).value.2))
  {
    hide NameLength, FirstAt;
    var body := t[NameLength(t) + 2..];
    var q := FirstAt(body, '"');
    assert body == body[..q] + ("\"" + body[q + 1..]);
  }

  /** An attribute is legal if the text behind it is. */
  lemma AttrLegal(t: string)
    requires AttrAt(t).Some? && ReadValue(AttrAt(t).value.1).Some?
    ensures XmlChars(AttrAt(t).value.2) ==> XmlChars(t)
  {
    hide ReadValue, NameLength, XmlChars, AttrAt;
    var (_, raw, rest) := AttrAt(t).value;
    AttrParts(t);
    Punctuation();
    ValueIsClean(raw);
    LegalConcat("\"", rest);
    LegalConcat(raw, "\"" + rest);
    LegalConcat("=\"", raw + ("\"" + rest));
    NameLegal(t);
  }

  lemma Punctuation()
    ensures XmlChars("=\"") && XmlChars("\"") && XmlChars("<") && XmlChars("/") && XmlChars(">") && XmlChars("/>")
  {
  }

  lemma {:induction false} AttrsLegal(s: string)
    requires ReadAttrs(s).Some?
    ensures XmlChars(ReadAttrs(s).value.1) ==> XmlChars(s)
    decreases |s|
  {
    hide XmlChars, AttrAt, ReadValue;
    var t := SkipSpace(s);
    SpaceLegal(s);
    if !(t[0] == '>' || "/>" <= t) {
      AttrLegal(t);
      AttrsLegal(AttrAt(t).value.2);
    }
  }

  lemma TagLegal(s: string)
    requires ReadTag(s).Some?
    ensures XmlChars(ReadTag(s).value.1) ==> XmlChars(s)
  {
    hide ReadAttrs, NameLength, UniqueNames, XmlChars;
    Punctuation();
    if s[0] == '/' {
      var t := s[1..];
      var u := t[NameLength(t)..];
      assert u[1..] == t[NameLength(t) + 1..];
      Cut(">", u[1..], u);
      NameLegal(t);
      Cut("/", t, s);
    } else {
      var t := s[NameLength(s)..];
      var u := ReadAttrs(t).value.1;
      var end := if ">" <= u then ">" else "/>";
      Cut(end, u[|end|..], u);
      AttrsLegal(t);
      NameLegal(s);
    }
  }

  /** The first step of reading tokens. */
  lemma FirstToken(s: string) returns (rest: string)
    requires s != "" && ReadTokens(s).Some?
    ensures |rest| < |s| && ReadTokens(rest).Some? && (XmlChars(rest) ==> XmlChars(s))
  {
    hide ReadTag, ReadText, XmlChars, FirstAt;
    if s[0] == '<' {
      rest := ReadTag(s[1..]).value.1;
      TagShrinks(s[1..]);
      TagLegal(s[1..]);
      Punctuation();
      Cut("<", s[1..], s);
    } else {
      var k := FirstAt(s, '<');
      rest := s[k..];
      TextIsClean(s[..k]);
      Cut(s[..k], rest, s);
    }
  }

  lemma {:induction false} TokensLegal(s: string)
    requires ReadTokens(s).Some?
    ensures XmlChars(s)
    decreases |s|
  {
    hide ReadTokens;
    if s != "" {
      var rest := FirstToken(s);
      TokensLegal(rest);
    }
  }

  /** A document with a character outside XML 1.0 is not read at all. */
  lemma IllegalUnreadable(doc: string)
    requires !XmlChars(doc)
    ensures ReadXml(doc) == None
  {
    hide ReadTokens, OneRoot;
    if PROLOG <= doc {
      var body := doc[|PROLOG|..];
      assert doc == PROLOG + body;
      assert XmlChars(PROLOG) by { PrologLegal(); }
      LegalConcat(PROLOG, body);
      if ReadTokens(body).Some? {
        TokensLegal(body);
      }
    }
  }

  lemma PrologLegal()
    ensures XmlChars(PROLOG)
  {
    LegalConcat("<?xml version=\"1.0\"", " encoding=\"UTF-8\"?>");
  }

  // ---- Looking things up

  /** The text of the token at the front, empty when there is none. */
  function TextAt(ts: seq<Token>): string {
    if ts != [] && ts[0].Chars? then ts[0].text else ""
  }

  /** The texts of all elements called `name`, in document order. */
  function Values(ts: seq<Token>, name: string): seq<string> {
    if ts == [] then []
    else (if ts[0].Open? && ts[0].name == name then [TextAt(ts[1..])] else []) + Values(ts[1..], name)
  }

  /** The attributes of all elements called `name`, in document order. */
  function Rows(ts: seq<Token>, name: string): seq<seq<Attr>> {
    if ts == [] then []
    else (if (ts[0].Open? || ts[0].Empty?) && ts[0].name == name then [ts[0].attrs] else []) + Rows(ts[1..], name)
  }

  /** The value of an attribute. */
  function ValueOf(attrs: seq<Attr>, name: string): Option<string> {
    if attrs == [] then None
    else if attrs[0].name == name then Some(attrs[0].value)
    else ValueOf(attrs[1..], name)
  }
}
