/** The blanking of every text there is: legal lexemes as far as they go, then at most one
    comment or literal that never ends. */
module BlankerTotal {
  import opened Blanker
  import opened Sequences

  // ----- Reading the inside of a block comment and of a string -----

  datatype Comment = Unclosed | Closed(body: seq<Item>, rest: string)

  function Body(s: string): (r: Comment)
    ensures r.Closed? ==> |r.rest| < |s|
    decreases |s|
  {
    if s == [] then Unclosed
    else if "/*" <= s then
      match Body(s[2..])
      case Unclosed => Unclosed
      case Closed(inner, after) =>
        match Body(after)
        case Unclosed => Unclosed
        case Closed(more, rest) => Closed([Nested(inner)] + more, rest)
    else if "*/" <= s then Closed([], s[2..])
    else
      match Body(s[1..])
      case Unclosed => Unclosed
      case Closed(more, rest) => Closed([Inner(s[0])] + more, rest)
  }

  lemma FirstTwo(c: char, x: string, y: string, pair: string)
    requires |pair| == 2 && |x| >= 1
    ensures pair <= [c] + x <==> pair <= [c] + (x + y)
  {
    assert ([c] + x)[1] == x[0] && ([c] + (x + y))[1] == x[0];
  }

  lemma InFront(item: Item, more: seq<Item>, rest: string)
    ensures BodyText([item] + more) + ("*/" + rest) == ItemText(item) + (BodyText(more) + ("*/" + rest))
  {
    assert ([item] + more)[1..] == more;
  }

  lemma AfterPair(s: string, pair: string)
    requires |pair| == 2 && pair <= s
    ensures s == pair + s[2..]
  {
  }

  lemma NestedText(inner: seq<Item>, after: string)
    ensures ItemText(Nested(inner)) + after == "/*" + (BodyText(inner) + ("*/" + after))
  {
  }

  // What is read as the inside of a comment is legal, and is that text.
  lemma {:induction false} BodyReads(s: string)
    requires Body(s).Closed?
    ensures s == BodyText(Body(s).body) + ("*/" + Body(s).rest) && BodyLegal(Body(s).body)
    decreases |s|
  {
    var r := Body(s);
    if "/*" <= s {
      var inner := Body(s[2..]);
      var more := Body(inner.rest);
      BodyReads(s[2..]);
      BodyReads(inner.rest);
      AfterPair(s, "/*");
      NestedText(inner.body, inner.rest);
      InFront(Nested(inner.body), more.body, more.rest);
      assert r.body[1..] == more.body;
    } else if "*/" <= s {
      AfterPair(s, "*/");
      assert BodyText([]) + ("*/" + s[2..]) == "*/" + s[2..];
    } else {
      BodyReads(s[1..]);
      InnerReads(s, Body(s[1..]).body, Body(s[1..]).rest);
    }
  }

  lemma InnerReads(s: string, more: seq<Item>, rest: string)
    requires s != [] && !("/*" <= s) && !("*/" <= s) && s[1..] == BodyText(more) + ("*/" + rest) && BodyLegal(more)
    ensures s == BodyText([Inner(s[0])] + more) + ("*/" + rest) && BodyLegal([Inner(s[0])] + more)
  {
    var x := BodyText(more) + "*/";
    InFront(Inner(s[0]), more, rest);
    assert s == [s[0]] + s[1..];
    assert BodyText(more) + ("*/" + rest) == x + rest;
    FirstTwo(s[0], x, rest, "/*");
    FirstTwo(s[0], x, rest, "*/");
    assert ([Inner(s[0])] + more)[1..] == more;
  }

  // A comment that is not closed runs to the end of the text, at any depth.
  lemma {:induction false} BodyRunsOut(s: string, depth: int)
    requires Body(s).Unclosed? && depth > 0
    ensures BlockEnd(s, depth) == |s|
    decreases |s|
  {
    if s != [] {
      if "/*" <= s {
        var inner := Body(s[2..]);
        if inner.Unclosed? {
          BodyRunsOut(s[2..], depth + 1);
        } else {
          BodyReads(s[2..]);
          BlockBody(inner.body, inner.rest, depth + 1);
          BodyRunsOut(inner.rest, depth);
        }
      } else {
        BodyRunsOut(s[1..], depth);
      }
    }
  }

  datatype Text = Unfinished | Finished(pieces: seq<Piece>, rest: string)

  function Pieces(s: string): Text
    decreases |s|
  {
    if s == [] then Unfinished
    else if s[0] == '"' then Finished([], s[1..])
    else if s[0] == '\\' then
      if |s| == 1 then Unfinished
      else
        match Pieces(s[2..])
        case Unfinished => Unfinished
        case Finished(more, rest) => Finished([Escaped(s[1])] + more, rest)
    else
      match Pieces(s[1..])
      case Unfinished => Unfinished
      case Finished(more, rest) => Finished([One(s[0])] + more, rest)
  }

  lemma PieceInFront(piece: Piece, more: seq<Piece>, tail: string)
    ensures PieceText([piece] + more) + tail
         == (match piece case One(c) => [c] case Escaped(c) => ['\\', c]) + (PieceText(more) + tail)
  {
    assert ([piece] + more)[1..] == more;
  }

  lemma {:induction false} PiecesRead(s: string)
    requires Pieces(s).Finished?
    ensures s == PieceText(Pieces(s).pieces) + ("\"" + Pieces(s).rest) && PiecesLegal(Pieces(s).pieces)
    decreases |s|
  {
    if s[0] == '"' {
      assert s == [] + (['"'] + s[1..]);
    } else if s[0] == '\\' {
      var more := Pieces(s[2..]);
      PiecesRead(s[2..]);
      PieceInFront(Escaped(s[1]), more.pieces, "\"" + more.rest);
      assert s == ['\\', s[1]] + s[2..];
    } else {
      var more := Pieces(s[1..]);
      PiecesRead(s[1..]);
      PieceInFront(One(s[0]), more.pieces, "\"" + more.rest);
      assert s == [s[0]] + s[1..];
    }
  }

  lemma {:induction false} PiecesRunOut(s: string)
    requires Pieces(s).Unfinished?
    ensures StringEnd(s) >= |s|
    decreases |s|
  {
    if s != [] {
      if s[0] == '\\' {
        if |s| >= 2 { PiecesRunOut(s[2..]); }
      } else {
        PiecesRunOut(s[1..]);
      }
    }
  }

  // ----- A text either starts with a legal lexeme or with something that never ends -----

  ghost predicate Starts(s: string, l: Lexeme, rest: string) {
    s == Render(l) + rest && LegalBefore(l, rest)
  }

  ghost predicate Endless(s: string) {
    s != [] && forall l, rest :: !Starts(s, l, rest)
  }

  lemma BlockStarts(s: string) returns (l: Lexeme, rest: string)
    requires "/*" <= s && Body(s[2..]).Closed?
    ensures Starts(s, l, rest)
  {
    var r := Body(s[2..]);
    l, rest := Block(r.body), r.rest;
    AfterPair(s, "/*");
    BodyReads(s[2..]);
    NestedText(r.body, rest);
  }

  lemma EndlessBlock(s: string)
    requires Endless(s) && "/*" <= s
    ensures Step(s) == Span(0, |s|, |s|)
  {
    if Body(s[2..]).Closed? {
      var l, rest := BlockStarts(s);
      assert false;
    } else {
      AfterPair(s, "/*");
      BodyRunsOut(s[2..], 1);
      StepBlock(s[2..]);
    }
  }

  lemma QuoteStarts(s: string) returns (l: Lexeme, rest: string)
    requires s != [] && s[0] == '"' && Pieces(s[1..]).Finished?
    ensures Starts(s, l, rest)
  {
    var r := Pieces(s[1..]);
    l, rest := Quoted(r.pieces), r.rest;
    assert s == "\"" + s[1..];
    PiecesRead(s[1..]);
    ThenRest("\"", PieceText(r.pieces), "\"", rest);
  }

  lemma EndlessQuote(s: string)
    requires Endless(s) && s[0] == '"'
    ensures Step(s) == Span(1, |s|, |s|)
  {
    if Pieces(s[1..]).Finished? {
      var l, rest := QuoteStarts(s);
      assert false;
    } else {
      PiecesRunOut(s[1..]);
    }
  }

  lemma {:induction false} QuoteSplits(s: string)
    ensures '\'' !in s[..QuoteEnd(s)] && (QuoteEnd(s) < |s| ==> s[QuoteEnd(s)] == '\'')
  {
    if s != [] && s[0] != '\'' {
      QuoteSplits(s[1..]);
      assert s[..QuoteEnd(s)] == [s[0]] + s[1..][..QuoteEnd(s[1..])];
    }
  }

  lemma EscapeStarts(s: string) returns (l: Lexeme, rest: string)
    requires |s| >= 3 && "'\\" <= s && QuoteEnd(s[3..]) < |s| - 3
    ensures Starts(s, l, rest)
  {
    var t := s[3..];
    var n := QuoteEnd(t);
    QuoteSplits(t);
    l, rest := EscapedChar(s[2], t[..n]), t[n + 1..];
    assert s == ['\'', '\\', s[2]] + t;
    assert t == t[..n] + (['\''] + rest);
    ThenRest(['\'', '\\', s[2]], t[..n], ['\''], rest);
  }

  lemma StepEndlessEscape(s: string)
    requires "'\\" <= s && (|s| < 3 || QuoteEnd(s[3..]) == |s| - 3)
    ensures Step(s) == Span(1, |s|, |s|)
  {
    assert s[0] == '\'' && CharAt(s, 1) == "\\";
  }

  lemma EndlessEscape(s: string)
    requires Endless(s) && "'\\" <= s
    ensures Step(s) == Span(1, |s|, |s|)
  {
    if |s| >= 3 && QuoteEnd(s[3..]) < |s| - 3 {
      var l, rest := EscapeStarts(s);
      assert false;
    } else {
      StepEndlessEscape(s);
    }
  }

  lemma {:induction false} HashesSplit(s: string)
    ensures s[..Hashes(s)] == Repeat('#', Hashes(s))
  {
    if s != [] && s[0] == '#' {
      HashesSplit(s[1..]);
      assert s[..Hashes(s)] == [s[0]] + s[1..][..Hashes(s[1..])];
    }
  }

  // The first occurrence is still the first when the text is cut right behind it.
  lemma {:induction false} FindShorter(s: string, needle: string)
    requires needle != [] && needle <= s[OffsetOf(s, needle)..]
    ensures OffsetOf(s[..OffsetOf(s, needle)] + needle, needle) == OffsetOf(s, needle)
    decreases |s|
  {
    var n := OffsetOf(s, needle);
    if n == 0 {
      assert s[..0] + needle == needle;
    } else {
      var cut := s[..n] + needle;
      FindShorter(s[1..], needle);
      assert s[1..][n - 1..] == s[n..];
      assert cut[1..] == s[1..][..n - 1] + needle;
      CutIsPrefix(s, needle, n);
    }
  }

  lemma CutIsPrefix(s: string, needle: string, n: nat)
    requires n <= |s| && needle <= s[n..]
    ensures needle <= s[..n] + needle ==> needle <= s
  {
    assert s == s[..n] + s[n..];
    assert s[..n] + needle <= s;
  }

  lemma RawSplits(s: string, h: nat)
    requires s != [] && s[0] == 'r' && OpensRaw(s[1..]) && h == Hashes(s[1..])
    ensures s == ("r" + Repeat('#', h) + "\"") + s[h + 2..]
  {
    HashesSplit(s[1..]);
    assert s[1..][..h] == s[1..h + 1] && s[1..][h] == s[h + 1];
    assert s == [s[0]] + s[1..h + 1] + [s[h + 1]] + s[h + 2..];
  }

  lemma StepEndlessRaw(s: string, h: nat)
    requires s != [] && s[0] == 'r' && OpensRaw(s[1..]) && h == Hashes(s[1..])
    requires var term, body := "\"" + Repeat('#', h), s[h + 2..];
             !(OffsetOf(body, term) < |body| && term <= body[OffsetOf(body, term)..])
    ensures Step(s) == Span(h + 2, |s| - (h + 1), |s|)
  {
  }

  lemma EndlessRaw(s: string, h: nat)
    requires Endless(s) && s[0] == 'r' && OpensRaw(s[1..]) && h == Hashes(s[1..])
    ensures Step(s) == Span(h + 2, |s| - (h + 1), |s|)
  {
    var term, body := "\"" + Repeat('#', h), s[h + 2..];
    if OffsetOf(body, term) < |body| && term <= body[OffsetOf(body, term)..] {
      RawSplits(s, h);
      FindShorter(body, term);
      var rest := RawStarts(s, h, OffsetOf(body, term));
      assert false;
    } else {
      StepEndlessRaw(s, h);
    }
  }

  lemma RawStarts(s: string, h: nat, n: nat) returns (rest: string)
    requires h + 2 <= |s| && n <= |s| - (h + 2) && s == ("r" + Repeat('#', h) + "\"") + s[h + 2..]
    requires var term := "\"" + Repeat('#', h); term <= s[h + 2..][n..] && OffsetOf(s[h + 2..][..n] + term, term) == n
    ensures Starts(s, Raw(h, s[h + 2..][..n]), rest)
  {
    var term, body := "\"" + Repeat('#', h), s[h + 2..];
    rest := body[n..][|term|..];
    assert body == body[..n] + (term + rest);
    ThenRest("r" + Repeat('#', h) + "\"", body[..n], term, rest);
  }

  // How a comment or literal opens that may have no end.
  predicate Opens(s: string) {
    "/*" <= s || (s != [] && s[0] == '"') || "'\\" <= s || (s != [] && s[0] == 'r' && OpensRaw(s[1..]))
  }

  lemma {:induction false} LineSplits(s: string)
    ensures '\n' !in s[..LineEnd(s)] && (LineEnd(s) < |s| ==> s[LineEnd(s)] == '\n')
  {
    if s != [] && s[0] != '\n' {
      LineSplits(s[1..]);
      assert s[..LineEnd(s)] == [s[0]] + s[1..][..LineEnd(s[1..])];
    }
  }

  // Anything else is a line comment, a character literal or a character of code.
  lemma OthersStart(s: string)
    requires s != [] && !Opens(s)
    ensures exists l, rest :: Starts(s, l, rest)
  {
    if "//" <= s {
      var t := s[2..];
      LineSplits(t);
      AfterPair(s, "//");
      assert s == ("//" + t[..LineEnd(t)]) + t[LineEnd(t)..];
      assert Starts(s, Line(t[..LineEnd(t)]), t[LineEnd(t)..]);
    } else if |s| >= 3 && s[0] == '\'' && s[2] == '\'' {
      assert s == ['\'', s[1], '\''] + s[3..];
      assert Starts(s, PlainChar(s[1]), s[3..]);
    } else {
      assert s == [s[0]] + s[1..];
      assert CharAt(s[1..], 0) == CharAt(s, 1) && CharAt(s[1..], 1) == CharAt(s, 2);
      assert Starts(s, Code(s[0]), s[1..]);
    }
  }

  // ----- Every text -----

  ghost predicate LegalThen(ls: seq<Lexeme>, tail: string) {
    ls == [] || (LegalBefore(ls[0], RenderAll(ls[1..]) + tail) && LegalThen(ls[1..], tail))
  }

  lemma BlankFirst(s: string, l: Lexeme, rest: string)
    requires Starts(s, l, rest)
    ensures Blank(s) == Shown(l) + Blank(rest)
  {
    TakenWhole(l, rest);
    assert s[..|Render(l)|] == Render(l) && s[|Render(l)|..] == rest;
  }

  lemma OneMoreLexeme(l: Lexeme, ls: seq<Lexeme>, tail: string, blanked: string)
    requires LegalBefore(l, RenderAll(ls) + tail) && LegalThen(ls, tail)
    ensures LegalThen([l] + ls, tail) && RenderAll([l] + ls) + tail == Render(l) + (RenderAll(ls) + tail)
    ensures ShownAll([l] + ls) + blanked == Shown(l) + (ShownAll(ls) + blanked)
  {
    assert ([l] + ls)[1..] == ls;
    Regroup(Render(l), RenderAll(ls), tail);
    Regroup(Shown(l), ShownAll(ls), blanked);
  }

  // Every text is legal lexemes, blanked one by one, and then at most one comment or literal without an end.
  lemma {:induction false} EveryText(s: string) returns (ls: seq<Lexeme>, tail: string)
    ensures s == RenderAll(ls) + tail && LegalThen(ls, tail) && (tail == [] || Endless(tail))
    ensures Blank(s) == ShownAll(ls) + Blank(tail)
    decreases |s|
  {
    if s == [] || Endless(s) {
      ls, tail := [], s;
      assert "" + s == s && "" + Blank(s) == Blank(s);
    } else {
      var l, rest :| Starts(s, l, rest);
      var more;
      more, tail := EveryText(rest);
      ls := [l] + more;
      BlankFirst(s, l, rest);
      OneMoreLexeme(l, more, tail, Blank(tail));
    }
  }

  lemma BlankedToTheEnd(s: string, lo: nat, hi: nat)
    requires s != [] && Step(s) == Span(lo, hi, |s|)
    ensures Blank(s) == BlankRange(s, lo, hi)
  {
    assert s[..|s|] == s && s[|s|..] == [];
  }

  // Such a text opens a block comment, a string, an escaped character or a raw string; what becomes of it:
  lemma EndlessOpens(s: string)
    requires Endless(s)
    ensures Opens(s)
  {
    if !Opens(s) { OthersStart(s); }
  }

  // All of a comment goes.
  lemma EndlessCommentIsBlanked(s: string)
    requires Endless(s) && "/*" <= s
    ensures Blank(s) == Blanked(s)
  {
    EndlessBlock(s);
    BlankedToTheEnd(s, 0, |s|);
  }

  // All but the opening quote goes.
  lemma EndlessLiteralIsBlanked(s: string)
    requires Endless(s) && (s[0] == '"' || "'\\" <= s)
    ensures Blank(s) == BlankRange(s, 1, |s|)
  {
    if s[0] == '"' { EndlessQuote(s); } else { EndlessEscape(s); }
    BlankedToTheEnd(s, 1, |s|);
  }

  // A raw string keeps its opening, and as many characters of its end as its terminator would have.
  lemma EndlessRawKeepsItsEnd(s: string, h: nat)
    requires Endless(s) && s[0] == 'r' && OpensRaw(s[1..]) && h == Hashes(s[1..])
    ensures Blank(s) == BlankRange(s, h + 2, |s| - (h + 1))
  {
    EndlessRaw(s, h);
    BlankedToTheEnd(s, h + 2, |s| - (h + 1));
  }

  // So its contents vanish, as those of every other literal do, exactly when what it keeps is blank anyway.
  lemma EndlessRawVanishesIff(s: string, h: nat)
    requires Endless(s) && s[0] == 'r' && OpensRaw(s[1..]) && h == Hashes(s[1..])
    ensures Blank(s) == BlankRange(s, h + 2, |s|)
       <==> forall i :: h + 2 <= i < |s| && |s| - (h + 1) <= i ==> s[i] == ' ' || s[i] == '\n'
  {
    EndlessRawKeepsItsEnd(s, h);
    KeepsExactly(s, h + 2, |s| - (h + 1));
  }

  lemma KeepsExactly(s: string, lo: int, hi: int)
    ensures BlankRange(s, lo, hi) == BlankRange(s, lo, |s|)
       <==> forall i :: 0 <= i < |s| && lo <= i && hi <= i ==> s[i] == ' ' || s[i] == '\n'
  {
    var a, b := BlankRange(s, lo, hi), BlankRange(s, lo, |s|);
    if a == b {
      forall i | 0 <= i < |s| && lo <= i && hi <= i ensures s[i] == ' ' || s[i] == '\n' { assert a[i] == b[i]; }
    } else {
      var i :| 0 <= i < |s| && a[i] != b[i];
    }
  }

  // The contents that stay: an endless raw string of one character.
  lemma EndlessRawStays()
    ensures Endless("r\"x") && Blank("r\"x") == "r\"x"
  {
    var s := "r\"x";
    assert s[1..] == "\"x" && Hashes(s[1..]) == 0;
    forall l, rest ensures !Starts(s, l, rest) { NoLexemeStarts(l, rest); }
    EndlessRawKeepsItsEnd(s, 0);
    assert BlankRange(s, 2, 2) == s;
  }

  // A raw string that ends has two quotes, and an `r` in front of a quote is not code.
  lemma NoLexemeStarts(l: Lexeme, rest: string)
    ensures !Starts("r\"x", l, rest)
  {
    var t := Render(l) + rest;
    assert t[0] == Render(l)[0];
    if l.Raw? {
      assert t[l.hashes + 1] == '"' && t[l.hashes + 2 + |l.body|] == '"';
    } else if l.Code? {
      assert t[1..] == rest && "r\"x"[1..] == "\"x";
      assert Hashes("\"x") == 0 && OpensRaw("\"x");
    }
  }
}
