/** Which lines are extent lines, and which extents survive being written. */
module ExtentText {
  import opened Bytes
  import opened Results
  import opened Text
  import opened Descriptor

  predicate IsWord(w: string) {
    w != "" && forall i | 0 <= i < |w| :: !IsWs(w[i])
  }

  type Word = w: string | IsWord(w) witness "a"

  predicate IsGap(s: string) {
    forall i | 0 <= i < |s| :: IsWs(s[i])
  }

  /** White space, or nothing. */
  type Gap = s: string | IsGap(s)

  predicate WordEnds(rest: string) {
    rest == "" || IsWs(rest[0])
  }

  // ---- Words and gaps

  lemma WordLengthAt(w: Word, rest: string)
    requires WordEnds(rest)
    ensures WordLength(w + rest) == |w|
  {
    var s := w + rest;
    assert forall i | 0 <= i < |w| :: s[i] == w[i];
    assert rest != "" ==> s[|w|] == rest[0];
  }

  lemma {:induction false} TokensSkip(gap: Gap, s: string)
    ensures Tokens(gap + s) == Tokens(s)
  {
    if gap == "" {
      assert gap + s == s;
    } else {
      TokensSkip(gap[1..], s);
      assert (gap + s)[1..] == gap[1..] + s && (gap + s)[0] == gap[0];
    }
  }

  lemma TokensCons(gap: Gap, w: Word, rest: string)
    requires WordEnds(rest)
    ensures Tokens(gap + w + rest) == [w] + Tokens(rest)
  {
    var s := w + rest;
    WordLengthAt(w, rest);
    assert s[0] == w[0] && s[..|w|] == w && s[|w|..] == rest;
    TokensSkip(gap, s);
    assert gap + w + rest == gap + s;
  }

  lemma {:induction false} StartGap(s: string) returns (gap: Gap, t: string)
    ensures s == gap + t && (t != "" ==> !IsWs(t[0]))
  {
    if s != "" && IsWs(s[0]) {
      gap, t := StartGap(s[1..]);
      gap := [s[0]] + gap;
      assert s == [s[0]] + s[1..];
    } else {
      gap, t := "", s;
    }
  }

  lemma FirstWord(s: string) returns (gap: Gap, w: Word, rest: string)
    requires Tokens(s) != []
    ensures s == gap + w + rest && WordEnds(rest) && Tokens(s) == [w] + Tokens(rest)
  {
    var t;
    gap, t := StartGap(s);
    TokensSkip(gap, t);
    assert t != "";
    w, rest := CutWord(t);
    hide Tokens, IsWs;
    assert s == gap + w + rest;
  }

  lemma CutWord(s: string) returns (w: Word, rest: string)
    requires s != "" && !IsWs(s[0])
    ensures s == w + rest && WordEnds(rest) && Tokens(s) == [w] + Tokens(rest)
  {
    hide IsWs;
    var k := WordLength(s);
    w, rest := s[..k], s[k..];
  }

  lemma {:induction false} NoWords(s: string)
    requires Tokens(s) == []
    ensures IsGap(s)
  {
    if s != "" {
      NoWords(s[1..]);
      assert s == [s[0]] + s[1..];
    }
  }

  /** White space at the end does not matter. */
  lemma {:induction false} TokensEnd(s: string, end: Gap)
    ensures Tokens(s + end) == Tokens(s)
    decreases |s|
  {
    hide Tokens, IsWs;
    if Tokens(s) == [] {
      NoWords(s);
      TokensSkip(s + end, "");
      TokensSkip(s, "");
      assert s + end + "" == s + end && s + "" == s;
    } else {
      var gap, w, rest := FirstWord(s);
      TokensEnd(rest, end);
      assert s + end == gap + w + (rest + end);
      TokensCons(gap, w, rest + end);
    }
  }

  /** A text in front of the white space at its end. */
  lemma {:induction false} EndOf(s: string) returns (t: string, end: Gap)
    ensures s == t + end && (t != "" ==> !IsWs(t[|t| - 1]))
  {
    if s != "" && IsWs(s[|s| - 1]) {
      t, end := EndOf(s[..|s| - 1]);
      end := end + [s[|s| - 1]];
      assert s == s[..|s| - 1] + [s[|s| - 1]];
    } else {
      t, end := s, "";
    }
  }

  predicate Trimmed(s: string) {
    s != "" ==> !IsWs(s[0]) && !IsWs(s[|s| - 1])
  }

  lemma TrimNothing(s: string)
    requires Trimmed(s)
    ensures TrimWs(s) == s
  {
  }

  lemma {:induction false} TrimAtEnd(s: string, end: Gap)
    requires Trimmed(s)
    ensures TrimEnd(s + end, IsWs) == s
  {
    var all := s + end;
    if end == "" {
      assert all == s;
    } else {
      TrimAtEnd(s, end[..|end| - 1]);
      assert all[..|all| - 1] == s + end[..|end| - 1];
    }
  }

  /** Trimming removes the white space around a text, and nothing else. */
  lemma {:induction false} TrimGaps(gap: Gap, s: string, end: Gap)
    requires Trimmed(s)
    ensures TrimWs(gap + s + end) == s
  {
    var all := gap + s + end;
    if gap == "" {
      if s == "" {
        TrimAllAway(all);
      } else {
        assert all == s + end;
        TrimAtEnd(s, end);
      }
    } else {
      TrimGaps(gap[1..], s, end);
      assert all[1..] == gap[1..] + s + end;
    }
  }

  lemma {:induction false} TrimAllAway(gap: Gap)
    ensures TrimStart(gap, IsWs) == ""
  {
    if gap != "" {
      TrimAllAway(gap[1..]);
    }
  }

  /** Every text is something trimmed with white space around it. */
  lemma CutGaps(all: string) returns (gap: Gap, s: string, end: Gap)
    ensures all == gap + s + end && Trimmed(s) && TrimWs(all) == s
  {
    hide TrimWs;
    var t;
    gap, t := StartGap(all);
    s, end := EndOf(t);
    assert s != "" ==> s[0] == t[0];
    TrimGaps(gap, s, end);
  }

  // ---- Every stretch of white space becomes one space

  function Collapse(s: string): string {
    if s == "" then ""
    else if !IsWs(s[0]) then [s[0]] + Collapse(s[1..])
    else if |s| > 1 && IsWs(s[1]) then Collapse(s[1..])
    else " " + Collapse(s[1..])
  }

  /** White space only as single spaces. */
  predicate SingleSpaced(s: string) {
    && (forall i | 0 <= i < |s| :: IsWs(s[i]) ==> s[i] == ' ')
    && (forall i | 0 <= i < |s| - 1 :: !(IsWs(s[i]) && IsWs(s[i + 1])))
  }

  predicate GoodName(s: string) {
    '"' !in s && SingleSpaced(s)
  }

  lemma {:induction false} CollapseGap(gap: Gap)
    ensures Collapse(gap) == if gap == "" then "" else " "
  {
    if gap != "" {
      CollapseGap(gap[1..]);
    }
  }

  lemma CollapseStep(c: char, s: string)
    ensures Collapse([c] + s)
         == if !IsWs(c) then [c] + Collapse(s) else if s != "" && IsWs(s[0]) then Collapse(s) else " " + Collapse(s)
  {
    hide IsWs;
    assert ([c] + s)[1..] == s;
  }

  lemma {:induction false} CollapseConcat(a: string, b: string)
    requires a == "" || b == "" || !IsWs(a[|a| - 1]) || !IsWs(b[0])
    ensures Collapse(a + b) == Collapse(a) + Collapse(b)
  {
    if a == "" {
      assert a + b == b;
    } else {
      hide IsWs, Collapse;
      var c, rest := a[0], a[1..];
      CollapseConcat(rest, b);
      assert a == [c] + rest && a + b == [c] + (rest + b);
      CollapseStep(c, rest);
      CollapseStep(c, rest + b);
      Assoc([c], Collapse(rest), Collapse(b));
      Assoc(" ", Collapse(rest), Collapse(b));
      if rest == "" {
        assert rest + b == b;
      } else {
        assert (rest + b)[0] == rest[0];
      }
    }
  }

  lemma {:induction false} CollapsedIsSpaced(s: string)
    ensures SingleSpaced(Collapse(s))
    ensures s != "" ==> Collapse(s) != "" && (IsWs(Collapse(s)[0]) <==> IsWs(s[0]))
    ensures '"' in Collapse(s) <==> '"' in s
  {
    if s != "" {
      CollapsedIsSpaced(s[1..]);
      assert s == [s[0]] + s[1..];
      var rest := Collapse(s[1..]);
      var all := Collapse(s);
      if all == [all[0]] + rest {
        forall i | 0 <= i < |all| - 1
          ensures !(IsWs(all[i]) && IsWs(all[i + 1]))
        {
          if i > 0 {
            assert all[i] == rest[i - 1] && all[i + 1] == rest[i - 1 + 1];
          }
        }
      }
    }
  }

  lemma {:induction false} SpacedStays(s: string)
    requires SingleSpaced(s)
    ensures Collapse(s) == s
  {
    if s != "" {
      var rest := s[1..];
      assert s == [s[0]] + rest;
      assert |s| > 1 ==> !(IsWs(s[0]) && IsWs(s[0 + 1]));
      forall i | 0 <= i < |rest| - 1
        ensures !(IsWs(rest[i]) && IsWs(rest[i + 1]))
      {
        assert rest[i] == s[i + 1] && rest[i + 1] == s[i + 1 + 1];
      }
      SpacedStays(rest);
    }
  }

  lemma {:induction false} WordStays(s: string)
    requires forall i | 0 <= i < |Collapse(s)| :: !IsWs(Collapse(s)[i])
    ensures Collapse(s) == s
  {
    if s != "" {
      CollapsedIsSpaced(s);
      assert Collapse(s) == [s[0]] + Collapse(s[1..]);
      assert forall i | 0 <= i < |Collapse(s[1..])| :: Collapse(s[1..])[i] == Collapse(s)[i + 1];
      WordStays(s[1..]);
    }
  }

  /** Cutting into words and joining them again. */
  lemma {:induction false} JoinTokens(s: string)
    requires s != "" && !IsWs(s[0]) && !IsWs(s[|s| - 1])
    ensures JoinWords(Tokens(s)) == Collapse(s) && Tokens(s) != []
    decreases |s|
  {
    hide Collapse, IsWs, Tokens, JoinWords;
    if Tokens(s) == [] {
      NoWords(s);
      assert false;
    }
    var none, w, rest := FirstWord(s);
    assert none == "" && s == w + rest;
    WordCollapses(w);
    if rest == "" {
      JoinOne(w);
      assert s == w;
      NothingToCut();
      assert [w] + [] == [w];
    } else {
      var gap, next := StartGap(rest);
      assert rest[|rest| - 1] == s[|s| - 1];
      assert next != "" && next[|next| - 1] == s[|s| - 1] && gap != "";
      JoinTokens(next);
      TokensSkip(gap, next);
      CollapseConcat(w, rest);
      CollapseConcat(gap, next);
      CollapseGap(gap);
      JoinMore(w, Tokens(next));
    }
  }

  lemma NothingToCut()
    ensures Tokens("") == []
  {
  }

  lemma WordCollapses(w: Word)
    ensures Collapse(w) == w
  {
    SpacedStays(w);
  }

  lemma JoinOne(w: string)
    ensures JoinWords([w]) == w
  {
  }

  lemma JoinMore(w: string, ws: seq<string>)
    requires ws != []
    ensures JoinWords([w] + ws) == w + " " + JoinWords(ws)
  {
    assert ([w] + ws)[1..] == ws;
  }

  // ---- The forms of an extent line

  /** A line cut into its parts; the offset may be left out. */
  datatype Written = Written(start: Gap, access: string, gap1: Gap, size: string, gap2: Gap, kind: string,
                             gap3: Gap, name: string, gap4: Gap, offset: string, end: Gap) {
    function Text(): string {
      start + access + (gap1 + size + (gap2 + kind + (gap3 + (Quote() + end))))
    }

    /** The name in quotes, and the offset. */
    function Quote(): string {
      "\"" + name + "\"" + (if offset == "" then "" else gap4 + offset)
    }

    /** The parts say `e`: numbers in any spelling, the type in any case, white space of the name collapsed. */
    ghost predicate Says(e: Extent) {
      && gap1 != "" && gap2 != "" && gap3 != "" && access == e.access && IsWord(access)
      && Spells(size, e.sizeSectors) && IsWord(kind) && Upper(kind) == TypeName(e.extentType)
      && '"' !in name && Collapse(name) == e.filename
      && if offset == "" then e.offset == 0 else Spells(offset, e.offset)
    }
  }

  lemma SpelledIsWord(s: string, n: nat)
    requires Spells(s, n)
    ensures IsWord(s)
  {
    hide Decimal;
    var zeros: nat :| s == ZeroDigits(zeros) + Decimal(n) || s == "+" + (ZeroDigits(zeros) + Decimal(n));
  }

  lemma GapEnds(gap: Gap, rest: string)
    requires gap != ""
    ensures WordEnds(gap + rest)
  {
  }

  /** The parts as words. */
  lemma PartsTokens(w: Written, tail: string)
    requires IsWord(w.access) && IsWord(w.size) && IsWord(w.kind) && w.gap1 != "" && w.gap2 != "" && w.gap3 != ""
    ensures Tokens(w.start + w.access + (w.gap1 + w.size + (w.gap2 + w.kind + (w.gap3 + (tail + w.end)))))
         == [w.access, w.size, w.kind] + Tokens(tail)
  {
    hide Tokens, IsWord, IsWs;
    var rest3 := w.gap3 + (tail + w.end);
    var rest2 := w.gap2 + w.kind + rest3;
    var rest1 := w.gap1 + w.size + rest2;
    TokensEnd(tail, w.end);
    TokensSkip(w.gap3, tail + w.end);
    GapEnds(w.gap3, tail + w.end);
    TokensCons(w.gap2, w.kind, rest3);
    GapEnds(w.gap2, w.kind + rest3);
    assert rest2 == w.gap2 + (w.kind + rest3);
    TokensCons(w.gap1, w.size, rest2);
    GapEnds(w.gap1, w.size + rest2);
    assert rest1 == w.gap1 + (w.size + rest2);
    TokensCons(w.start, w.access, rest1);
  }

  lemma QuotedApart(name: string, tail: string)
    requires '"' !in name && (tail != "" ==> !IsWs(tail[|tail| - 1]))
    ensures ParseQuoted("\"" + name + "\"" + tail)
         == Ok((name, if TrimWs(tail) == "" then None else Some(TrimWs(tail))))
  {
    hide TrimWs;
    var s := "\"" + name + "\"" + tail;
    TrimNothing(s);
    assert s[1..] == name + ['"'] + tail;
    FirstAfter(name, '"', tail);
    assert s[1..|name| + 1] == name && s[|name| + 2..] == tail;
  }

  lemma CollapsedQuote(name: string, tail: string)
    ensures Collapse("\"" + name + "\"" + tail) == "\"" + Collapse(name) + "\"" + Collapse(tail)
  {
    NoBlank();
    hide IsWs;
    assert Collapse("\"") == "\"";
    hide Collapse;
    CollapseConcat("\"" + name + "\"", tail);
    CollapseConcat("\"" + name, "\"");
    CollapseConcat("\"", name);
  }

  lemma NoBlank()
    ensures !IsWs('"')
  {
  }

  lemma OffsetCollapses(gap: Gap, offset: Word)
    ensures Collapse(gap + offset) == (if gap == "" then "" else " ") + offset
  {
    hide Collapse, IsWs;
    CollapseConcat(gap, offset);
    CollapseGap(gap);
    WordCollapses(offset);
  }

  lemma QuoteCollapses(name: string, gap: Gap, offset: string)
    requires offset == "" || IsWord(offset)
    ensures Collapse("\"" + name + "\"" + (if offset == "" then "" else gap + offset))
         == "\"" + Collapse(name) + "\"" + (if offset == "" then "" else (if gap == "" then "" else " ") + offset)
  {
    hide Collapse, IsWord;
    CollapseGap("");
    CollapsedQuote(name, if offset == "" then "" else gap + offset);
    if offset != "" {
      OffsetCollapses(gap, offset);
    }
  }

  /** The parser takes the quoted part apart. */
  lemma QuoteParses(w: Written, e: Extent)
    requires w.Says(e)
    ensures ParseQuoted(JoinWords(Tokens(w.Quote())))
         == Ok((e.filename, if w.offset == "" then None else Some(w.offset)))
  {
    hide Tokens, JoinWords, Collapse, Upper, TypeName, Spells, TrimWs, ParseQuoted;
    if w.offset != "" {
      SpelledIsWord(w.offset, e.offset);
    }
    JoinTokens(w.Quote());
    QuoteCollapses(w.name, w.gap4, w.offset);
    CollapsedIsSpaced(w.name);
    var tail := if w.offset == "" then "" else (if w.gap4 == "" then "" else " ") + w.offset;
    QuotedApart(e.filename, tail);
    if w.offset == "" || w.gap4 == "" {
      assert tail == w.offset;
      TrimNothing(tail);
    } else {
      TrimGaps(" ", w.offset, "");
      assert tail == " " + w.offset + "";
    }
  }

  lemma U64ParsesIff(s: string, n: nat)
    ensures (n < U64_LIMIT && ParseU64(s) == Some(n)) <==> n < U64_LIMIT && Spells(s, n)
  {
    hide ParseUnsigned, Spells;
    ParsesIffSpelled(s, U64_LIMIT, n);
  }

  lemma TypeParsesIff(s: string, t: ExtentType)
    ensures ParseType(s) == Some(t) <==> Upper(s) == TypeName(t)
  {
    hide Upper;
  }

  lemma WrittenParses(w: Written, e: Extent)
    requires w.Says(e)
    ensures ParseExtentLine(w.Text()) == Ok(e)
  {
    hide Tokens, JoinWords, Collapse, Upper, TypeName, Spells, ParseQuoted, ParseU64, ParseType, Written.Quote, IsWord;
    SpelledIsWord(w.size, e.sizeSectors);
    PartsTokens(w, w.Quote());
    QuoteParses(w, e);
    QuoteHasWord(w);
    var parts := Tokens(w.Text());
    assert parts[3..] == Tokens(w.Quote());
    U64ParsesIff(w.size, e.sizeSectors);
    TypeParsesIff(w.kind, e.extentType);
    U64ParsesIff(w.offset, e.offset);
  }

  lemma QuoteHasWord(w: Written)
    ensures Tokens(w.Quote()) != []
  {
  }

  /** The parts of a line with four words. */
  lemma CutLine(line: string) returns (w: Written, tail: string)
    requires |Tokens(line)| >= 4
    ensures IsWord(w.access) && IsWord(w.size) && IsWord(w.kind) && w.gap1 != "" && w.gap2 != "" && w.gap3 != ""
    ensures line == w.start + w.access + (w.gap1 + w.size + (w.gap2 + w.kind + (w.gap3 + (tail + w.end))))
    ensures tail != "" && !IsWs(tail[0]) && !IsWs(tail[|tail| - 1])
    ensures Tokens(line) == [w.access, w.size, w.kind] + Tokens(tail)
  {
    hide Tokens;
    var start, access, rest1 := FirstWord(line);
    var gap1, size, rest2 := FirstWord(rest1);
    var gap2, kind, rest3 := FirstWord(rest2);
    var gap3, first, rest4 := FirstWord(rest3);
    var all: string := first + rest4;
    assert rest3 == gap3 + all;
    TokensSkip(gap3, all);
    var t, end := EndOf(all);
    assert !IsWs(all[0]) && (t == "" ==> all == end);
    TokensEnd(t, end);
    tail := t;
    assert t[0] == all[0];
    w := Written(start, access, gap1, size, gap2, kind, gap3, "", "", "", end);
  }

  /** The first character and the last one stay, if they are not white space. */
  lemma CollapseEnds(s: string)
    requires s != "" && !IsWs(s[0]) && !IsWs(s[|s| - 1])
    ensures var c := Collapse(s);
            c != "" && c[0] == s[0] && c[|c| - 1] == s[|s| - 1]
  {
    var init, last := s[..|s| - 1], [s[|s| - 1]];
    assert s == init + last;
    CollapseConcat(init, last);
  }

  /** A tail that the parser takes apart is a quoted name and perhaps an offset. */
  lemma CutQuote(tail: string) returns (name: string, gap: Gap, offset: string)
    requires tail != "" && !IsWs(tail[0]) && !IsWs(tail[|tail| - 1]) && ParseQuoted(Collapse(tail)).Ok?
    ensures tail == "\"" + name + "\"" + (if offset == "" then "" else gap + offset) && '"' !in name
    ensures ParseQuoted(Collapse(tail)) == Ok((Collapse(name), if offset == "" then None else Some(Collapse(offset))))
  {
    hide Collapse, TrimWs, ParseQuoted, IsWhite;
    var more;
    name, more := QuoteEnd(tail);
    assert more == "" || more[|more| - 1] == tail[|tail| - 1];
    gap, offset := CutOffset(more);
    CollapsedQuote(name, more);
    CollapsedIsSpaced(name);
    QuotedApart(Collapse(name), Collapse(more));
  }

  lemma CutOffset(more: string) returns (gap: Gap, offset: string)
    requires more == "" || !IsWs(more[|more| - 1])
    ensures more == if offset == "" then "" else gap + offset
    ensures Collapse(more) == "" || !IsWs(Collapse(more)[|Collapse(more)| - 1])
    ensures TrimWs(Collapse(more)) == Collapse(offset) && (offset == "" <==> Collapse(offset) == "")
  {
    hide Collapse, TrimWs, IsWs;
    gap, offset := StartGap(more);
    CollapseConcat(gap, offset);
    CollapseGap(gap);
    CollapseGap("");
    if offset != "" {
      assert offset[|offset| - 1] == more[|more| - 1];
      CollapseEnds(offset);
      var space := if gap == "" then "" else " ";
      assert Collapse(more) == space + Collapse(offset) + "";
      OneSpace();
      TrimGaps(space, Collapse(offset), "");
    } else {
      assert more == "";
      TrimNothing("");
    }
  }

  lemma OneSpace()
    ensures IsGap(" ")
  {
  }

  lemma QuoteErrors(tail: string)
    requires tail != "" && !IsWs(tail[0]) && !IsWs(tail[|tail| - 1])
    ensures var r := ParseQuoted(Collapse(tail));
            if tail[0] != '"' then r == Err(ExpectedQuote)
            else if '"' !in tail[1..] then r == Err(UnclosedQuote)
            else r.Ok?
  {
    hide IsWs, TrimWs, ParseQuoted;
    CollapseEnds(tail);
    assert Collapse(tail) == [tail[0]] + Collapse(tail[1..]);
    CollapsedIsSpaced(tail[1..]);
    QuotesCounted(tail[0], Collapse(tail[1..]));
  }

  lemma QuotesCounted(c: char, rest: string)
    requires Trimmed([c] + rest)
    ensures var r := ParseQuoted([c] + rest);
            if c != '"' then r == Err(ExpectedQuote) else if '"' !in rest then r == Err(UnclosedQuote) else r.Ok?
  {
    hide TrimWs;
    TrimNothing([c] + rest);
    assert ([c] + rest)[1..] == rest;
  }

  lemma QuoteEnd(tail: string) returns (name: string, more: string)
    requires tail != "" && !IsWs(tail[0]) && !IsWs(tail[|tail| - 1]) && ParseQuoted(Collapse(tail)).Ok?
    ensures tail == "\"" + name + "\"" + more && '"' !in name
  {
    hide ParseQuoted, Collapse, IsWs;
    var rest := tail[1..];
    QuoteErrors(tail);
    var k := FirstAt(rest, '"');
    name, more := rest[..k], rest[k + 1..];
    CutAt(rest, k);
    assert '"' !in name;
    hide FirstAt;
    CutAt(tail, 0);
    Nothing("\"", "");
    Bytes.Assoc("\"", name + "\"", more);
    Bytes.Assoc("\"", name, "\"");
  }

  lemma Nothing(a: string, b: string)
    ensures "" + a == a && b + "" == b
  {
  }

  lemma CutAt(s: string, k: nat)
    requires k < |s|
    ensures s == s[..k] + [s[k]] + s[k + 1..]
  {
  }

  lemma ParsedIsWritten(line: string) returns (w: Written)
    requires ParseExtentLine(line).Ok?
    ensures line == w.Text() && w.Says(ParseExtentLine(line).value)
  {
    hide Tokens, JoinWords, Collapse, Upper, TypeName, Spells, ParseQuoted, ParseU64, ParseType, IsWord, IsWs;
    var e := ParseExtentLine(line).value;
    var tail;
    w, tail := CutLine(line);
    var parts := Tokens(line);
    assert parts[3..] == Tokens(tail);
    JoinTokens(tail);
    var name, gap, offset := CutQuote(tail);
    U64ParsesIff(w.size, e.sizeSectors);
    TypeParsesIff(w.kind, e.extentType);
    if offset != "" {
      U64ParsesIff(Collapse(offset), e.offset);
      SpelledIsWord(Collapse(offset), e.offset);
      WordOnly(offset);
    }
    w := w.(name := name, gap4 := gap, offset := offset);
    assert w.Quote() == tail;
  }

  lemma WordOnly(s: string)
    requires IsWord(Collapse(s))
    ensures Collapse(s) == s
  {
    WordStays(s);
  }

  /** A line is read as extent `e` if and only if its parts say `e`. */
  lemma ParsesIffWritten(line: string, e: Extent)
    ensures ParseExtentLine(line) == Ok(e) <==> exists w: Written :: line == w.Text() && w.Says(e)
  {
    hide ParseExtentLine, Written.Text, Written.Says;
    if ParseExtentLine(line) == Ok(e) {
      var w := ParsedIsWritten(line);
    }
    if w: Written :| line == w.Text() && w.Says(e) {
      WrittenParses(w, e);
    }
  }

  /** What is wrong decides the error, the leftmost part first; `CutLine` cuts every line of four words like this. */
  lemma LineErrors(w: Written, tail: string)
    requires IsWord(w.access) && IsWord(w.size) && IsWord(w.kind) && w.gap1 != "" && w.gap2 != "" && w.gap3 != ""
    requires tail != "" && !IsWs(tail[0]) && !IsWs(tail[|tail| - 1])
    ensures var line := w.start + w.access + (w.gap1 + w.size + (w.gap2 + w.kind + (w.gap3 + (tail + w.end))));
            var r := ParseExtentLine(line);
            if forall n: u64 :: !Spells(w.size, n) then r == Err(BadSize)
            else if forall t :: Upper(w.kind) != TypeName(t) then r == Err(UnknownType)
            else if tail[0] != '"' then r == Err(ExpectedQuote)
            else if '"' !in tail[1..] then r == Err(UnclosedQuote)
            else r.Ok? || r == Err(BadOffset)
  {
    hide Tokens, JoinWords, Upper, TypeName, Spells, Collapse, ParseQuoted, ParseU64, ParseType, IsWord, IsWs;
    PartsTokens(w, tail);
    var line := w.start + w.access + (w.gap1 + w.size + (w.gap2 + w.kind + (w.gap3 + (tail + w.end))));
    var parts := Tokens(line);
    assert parts[3..] == Tokens(tail);
    JoinTokens(tail);
    QuoteErrors(tail);
    NumberOrNot(w.size);
    TypeOrNot(w.kind);
    if Tokens(tail) == [] {
      NoWords(tail);
      assert false;
    }
  }

  lemma ShortLine(line: string)
    ensures |Tokens(line)| < 4 <==> ParseExtentLine(line) == Err(TooFewParts)
  {
    hide Tokens, JoinWords, ParseU64, ParseType;
  }

  lemma NumberOrNot(s: string)
    ensures ParseU64(s).None? <==> forall n: u64 :: !Spells(s, n)
  {
    hide ParseU64, Spells;
    if ParseU64(s).Some? {
      U64ParsesIff(s, ParseU64(s).value);
    }
    forall n: u64
      ensures ParseU64(s).None? ==> !Spells(s, n)
    {
      U64ParsesIff(s, n);
    }
  }

  lemma TypeOrNot(s: string)
    ensures ParseType(s).None? <==> forall t :: Upper(s) != TypeName(t)
  {
    hide Upper;
    if ParseType(s).Some? {
      TypeParsesIff(s, ParseType(s).value);
    }
    forall t
      ensures ParseType(s).None? ==> Upper(s) != TypeName(t)
    {
      TypeParsesIff(s, t);
    }
  }

  // ---- Writing a line

  /** The line of an extent; a brief line leaves out the offset if it is 0. */
  function PrintExtent(e: Extent, brief: bool): string {
    e.access + (" " + Decimal(e.sizeSectors) + (" " + TypeName(e.extentType) + (" " + PrintName(e, brief))))
  }

  function PrintName(e: Extent, brief: bool): string {
    "\"" + e.filename + "\"" + (if brief && e.offset == 0 then "" else " " + Decimal(e.offset))
  }

  predicate KnownAccess(access: string) {
    access == "RW" || access == "RDONLY" || access == "NOACCESS"
  }

  predicate Printable(e: Extent) {
    KnownAccess(e.access) && GoodName(e.filename)
  }

  /** The characters whose upper case is or contains ASCII letters although they are none. */
  lemma UpperOfOthers()
    ensures Upper("\U{00DF}") == "SS" && Upper("\U{017F}") == "S" && Upper("\U{0131}") == "I"
    ensures Upper("\U{FB00}") == "FF" && Upper("\U{FB01}") == "FI" && Upper("\U{FB02}") == "FL"
    ensures Upper("\U{FB03}") == "FFI" && Upper("\U{FB04}") == "FFL" && Upper("\U{FB05}") == Upper("\U{FB06}") == "ST"
  {
    UpperOne('\U{00DF}');
    UpperOne('\U{017F}');
    UpperOne('\U{0131}');
    UpperOne('\U{FB00}');
    UpperOne('\U{FB01}');
    UpperOne('\U{FB02}');
    UpperOne('\U{FB03}');
    UpperOne('\U{FB04}');
    UpperOne('\U{FB05}');
    UpperOne('\U{FB06}');
  }

  lemma UpperOne(c: char)
    ensures Upper([c]) == UpperCase(c)
  {
    hide UpperCase;
    assert [c][1..] == "";
    assert UpperCase(c) + "" == UpperCase(c);
  }

  lemma {:induction false} UpperFixed(s: string)
    requires forall i | 0 <= i < |s| :: 'A' <= s[i] <= 'Z'
    ensures Upper(s) == s
  {
    if s != "" {
      UpperFixed(s[1..]);
      assert UpperCase(s[0]) == [s[0]];
      assert s == [s[0]] + s[1..];
    }
  }

  lemma TypeNameIsWord(t: ExtentType)
    ensures IsWord(TypeName(t)) && forall i | 0 <= i < |TypeName(t)| :: 'A' <= TypeName(t)[i] <= 'Z'
  {
  }

  lemma DecimalSpells(n: nat)
    ensures Spells(Decimal(n), n) && IsWord(Decimal(n))
  {
    hide Decimal;
    assert Decimal(n) == ZeroDigits(0) + Decimal(n);
  }

  /** A printable extent is read back from its line, with or without an offset of 0. */
  lemma ExtentParses(e: Extent, brief: bool)
    requires Printable(e)
    ensures ParseExtentLine(PrintExtent(e, brief)) == Ok(e)
  {
    hide Decimal, TypeName, Upper, Collapse, Spells, SingleSpaced, ParseExtentLine;
    var offset := if brief && e.offset == 0 then "" else Decimal(e.offset);
    var w := Written("", e.access, " ", Decimal(e.sizeSectors), " ", TypeName(e.extentType), " ", e.filename, " ", offset, "");
    DecimalSpells(e.sizeSectors);
    DecimalSpells(e.offset);
    TypeNameIsWord(e.extentType);
    UpperFixed(TypeName(e.extentType));
    SpacedStays(e.filename);
    assert w.Says(e);
    hide Written.Says, IsWord;
    Nothing(e.access, w.Quote());
    WrittenParses(w, e);
  }

  /** A printed extent is one trimmed line, and the parser takes it for an extent line. */
  lemma PrintedIsExtentLine(e: Extent, brief: bool)
    requires Printable(e)
    ensures IsExtentLine(PrintExtent(e, brief)) && PrintExtent(e, brief)[0] != '#'
    ensures TrimWs(PrintExtent(e, brief)) == PrintExtent(e, brief)
  {
    hide Decimal, TypeName, SingleSpaced, TrimWs, PrintName, Trimmed;
    PrintedIsTrimmed(e, brief);
    TrimNothing(PrintExtent(e, brief));
    var tail := " " + Decimal(e.sizeSectors) + (" " + TypeName(e.extentType) + (" " + PrintName(e, brief)));
    assert tail[0] == ' ' && PrintExtent(e, brief) == e.access + tail;
    assert e.access + " " <= e.access + tail;
  }

  lemma PrintedIsTrimmed(e: Extent, brief: bool)
    requires Printable(e)
    ensures Trimmed(PrintExtent(e, brief))
  {
    hide Decimal, TypeName, SingleSpaced, PrintName, IsWs;
    var s, name := PrintExtent(e, brief), PrintName(e, brief);
    NameEnds(e, brief);
    assert !IsWs(e.access[0]) by { AccessIsWord(e.access); }
    assert s[|s| - 1] == name[|name| - 1] && s[0] == e.access[0];
  }

  lemma AccessIsWord(access: string)
    requires KnownAccess(access)
    ensures IsWord(access)
  {
  }

  lemma NameEnds(e: Extent, brief: bool)
    ensures var name := PrintName(e, brief);
            name != "" && !IsWs(name[|name| - 1])
  {
    hide Decimal;
    DecimalSpells(e.offset);
  }

  lemma NoNewlineIn(e: Extent, brief: bool)
    requires Printable(e)
    ensures '\n' !in PrintExtent(e, brief)
  {
    hide Decimal, TypeName;
    DecimalSpells(e.sizeSectors);
    DecimalSpells(e.offset);
    TypeNameIsWord(e.extentType);
    assert IsWs('\n');
    assert '\n' !in e.access && '\n' !in Decimal(e.sizeSectors) && '\n' !in TypeName(e.extentType);
    assert '\n' !in PrintName(e, brief);
  }

  /** Everything the parser accepts as an extent line gives a printable extent. */
  lemma ParsedIsPrintable(line: string)
    requires IsExtentLine(line) && ParseExtentLine(line).Ok?
    ensures Printable(ParseExtentLine(line).value)
  {
    hide Written.Text, SingleSpaced, IsExtentLine;
    var w := ParsedIsWritten(line);
    CollapsedIsSpaced(w.name);
    AccessToken(line);
  }

  lemma AccessToken(line: string)
    requires IsExtentLine(line)
    ensures Tokens(line) != [] && KnownAccess(Tokens(line)[0])
  {
    hide Tokens;
    var w := if "RW " <= line then "RW" else if "RDONLY " <= line then "RDONLY" else "NOACCESS";
    assert w + " " <= line;
    assert line == "" + w + (" " + line[|w| + 1..]);
    TokensCons("", w, " " + line[|w| + 1..]);
  }
}
