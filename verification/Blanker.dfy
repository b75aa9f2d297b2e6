/** Blanking Rust comments and literal contents in place: the blanked text is as long
    as the original, and each position in it means the same position there. */
module Blanker {
  import opened Sequences

  // ----- One lexical step at the front of the remaining text -----

  // Blank from `lo` up to `hi`, then continue at `next`.
  datatype Span = Span(lo: nat, hi: nat, next: nat)

  function CharAt(s: string, i: nat): string {
    if i < |s| then [s[i]] else ""
  }

  function Min(a: nat, b: nat): nat {
    if a < b then a else b
  }

  // The length of the text before the first newline.
  function LineEnd(s: string): (n: nat)
    ensures n <= |s|
  {
    if s == [] || s[0] == '\n' then 0 else 1 + LineEnd(s[1..])
  }

  // The length of a nested block comment, to its matching close or the end of the text.
  function BlockEnd(s: string, depth: int): (n: nat)
    ensures n <= |s|
    decreases |s|
  {
    if s == [] then 0
    else if "/*" <= s then 2 + BlockEnd(s[2..], depth + 1)
    else if "*/" <= s then if depth == 1 then 2 else 2 + BlockEnd(s[2..], depth - 1)
    else 1 + BlockEnd(s[1..], depth)
  }

  function Hashes(s: string): (n: nat)
    ensures n <= |s|
  {
    if s == [] || s[0] != '#' then 0 else 1 + Hashes(s[1..])
  }

  function Repeat(c: char, n: nat): (s: string)
    ensures |s| == n
  {
    seq(n, i => c)
  }

  // The first offset at which `needle` occurs, or the length of the text.
  function OffsetOf(s: string, needle: string): (n: nat)
    ensures n <= |s|
    decreases |s|
  {
    if s == [] || needle <= s then 0 else 1 + OffsetOf(s[1..], needle)
  }

  // The length of a string body up to its closing quote; an escape takes two characters.
  function StringEnd(s: string): nat
    decreases |s|
  {
    if s == [] then 0
    else if s[0] == '\\' then 2 + if |s| >= 2 then StringEnd(s[2..]) else 0
    else if s[0] == '"' then 0
    else 1 + StringEnd(s[1..])
  }

  function QuoteEnd(s: string): (n: nat)
    ensures n <= |s|
  {
    if s == [] || s[0] == '\'' then 0 else 1 + QuoteEnd(s[1..])
  }

  // Text after an `r` that opens a raw string: hashes, then a quote.
  predicate OpensRaw(s: string) {
    s != [] && (s[0] == '"' || s[0] == '#') && Hashes(s) < |s| && s[Hashes(s)] == '"'
  }

  function RawStep(s: string): (r: Span)
    requires s != [] && OpensRaw(s[1..])
    ensures 0 < r.next <= |s| && (r.lo <= r.hi ==> r.hi <= r.next)
  {
    var h := Hashes(s[1..]);
    var terminator := "\"" + Repeat('#', h);
    var body := s[h + 2..];
    var n := OffsetOf(body, terminator);
    if n < |body| && terminator <= body[n..] then Span(h + 2, h + 2 + n, h + 2 + n + |terminator|)
    else Span(h + 2, |s| - |terminator|, |s|)
  }

  function Step(s: string): (r: Span)
    requires s != []
    ensures 0 < r.next <= |s| && (r.lo <= r.hi ==> r.hi <= r.next)
  {
    var c, next := s[0], CharAt(s, 1);
    if c == '/' && next == "/" then Span(0, LineEnd(s), LineEnd(s))
    else if c == '/' && next == "*" then
      assert "/*" <= s;
      Span(0, BlockEnd(s, 0), BlockEnd(s, 0))
    else if c == 'r' && OpensRaw(s[1..]) then RawStep(s)
    else if c == '"' then
      var scan := 1 + StringEnd(s[1..]);
      Span(1, Min(scan, |s|), Min(scan + 1, |s|))
    else if c == '\'' then
      if next == "\\" then
        var scan := if |s| >= 3 then 3 + QuoteEnd(s[3..]) else 3;
        Span(1, Min(scan, |s|), Min(scan + 1, |s|))
      else if CharAt(s, 2) == "'" then Span(1, 2, 3)
      else Span(0, 0, 1)
    else Span(0, 0, 1)
  }

  function BlankChar(c: char): char {
    if c == '\n' then c else ' '
  }

  function BlankRange(s: string, lo: int, hi: int): (r: string)
    ensures |r| == |s|
  {
    seq(|s|, i requires 0 <= i < |s| => if lo <= i < hi then BlankChar(s[i]) else s[i])
  }

  // Of a range, exactly the characters other than newlines become spaces.
  lemma RangeAt(s: string, lo: int, hi: int, i: nat)
    requires i < |s|
    ensures BlankRange(s, lo, hi)[i] == if lo <= i < hi && s[i] != '\n' then ' ' else s[i]
  {
  }

  // The offset is that of the first occurrence, and the end of the text only if there is none.
  lemma {:induction false} OffsetIsFirst(s: string, needle: string)
    requires needle != []
    ensures forall i :: 0 <= i < OffsetOf(s, needle) ==> !(needle <= s[i..])
    ensures OffsetOf(s, needle) < |s| ==> needle <= s[OffsetOf(s, needle)..]
    decreases |s|
  {
    var n := OffsetOf(s, needle);
    if n > 0 {
      OffsetIsFirst(s[1..], needle);
      forall i | 0 <= i < n ensures !(needle <= s[i..]) {
        if i > 0 { assert s[i..] == s[1..][i - 1..]; }
      }
      assert s[n..] == s[1..][n - 1..];
    }
  }

  // `blank_literals_and_comments`.
  function Blank(s: string): (r: string)
    ensures |r| == |s|
    decreases |s|
  {
    if s == [] then []
    else
      var span := Step(s);
      BlankRange(s[..span.next], span.lo, span.hi) + Blank(s[span.next..])
  }

  // Newlines stay where they are, and nothing changes except into a space.
  lemma {:induction false} BlankOnlyBlanks(s: string, i: nat)
    requires i < |s|
    ensures Blank(s)[i] == s[i] || (Blank(s)[i] == ' ' && s[i] != '\n')
    ensures s[i] == '\n' <==> Blank(s)[i] == '\n'
    decreases |s|
  {
    var span := Step(s);
    if i >= span.next {
      BlankOnlyBlanks(s[span.next..], i - span.next);
      assert Blank(s)[i] == Blank(s[span.next..])[i - span.next];
    }
  }

  // ----- Text as a sequence of lexemes -----

  datatype Item = Inner(c: char) | Nested(body: seq<Item>)
  datatype Piece = One(c: char) | Escaped(c: char)

  datatype Lexeme =
    | Code(c: char)
    | Line(body: string)
    | Block(items: seq<Item>)
    | Raw(hashes: nat, body: string)
    | Quoted(pieces: seq<Piece>)
    | PlainChar(c: char)
    | EscapedChar(c: char, tail: string)

  function ItemText(item: Item): string
    decreases item, 1
  {
    match item
    case Inner(c) => [c]
    case Nested(body) => "/*" + (BodyText(body) + "*/")
  }

  function BodyText(body: seq<Item>): string
    decreases body, 0
  {
    if body == [] then "" else ItemText(body[0]) + BodyText(body[1..])
  }

  // No single character of the body opens or closes a comment with what follows it.
  predicate BodyLegal(body: seq<Item>)
    decreases body, 0
  {
    body == [] || (BodyLegal(body[1..]) && ItemLegal(body[0], BodyText(body[1..]) + "*/"))
  }

  predicate ItemLegal(item: Item, after: string)
    decreases item, 1
  {
    match item
    case Inner(c) => !("/*" <= [c] + after) && !("*/" <= [c] + after)
    case Nested(body) => BodyLegal(body)
  }

  function PieceText(body: seq<Piece>): string {
    if body == [] then ""
    else (match body[0] case One(c) => [c] case Escaped(c) => ['\\', c]) + PieceText(body[1..])
  }

  predicate PiecesLegal(body: seq<Piece>) {
    forall p :: p in body ==> p.One? ==> p.c != '"' && p.c != '\\'
  }

  function Render(l: Lexeme): (s: string)
    ensures s != []
  {
    match l
    case Code(c) => [c]
    case Line(body) => "//" + body
    case Block(body) => "/*" + (BodyText(body) + "*/")
    case Raw(h, body) => ("r" + Repeat('#', h) + "\"") + (body + ("\"" + Repeat('#', h)))
    case Quoted(body) => "\"" + (PieceText(body) + "\"")
    case PlainChar(c) => ['\'', c, '\'']
    case EscapedChar(c, tail) => ['\'', '\\', c] + (tail + "'")
  }

  function Blanked(s: string): string {
    BlankRange(s, 0, |s|)
  }

  // What survives of a lexeme: code and the delimiters of a literal.
  function Shown(l: Lexeme): string {
    match l
    case Code(c) => [c]
    case Line(_) => Blanked(Render(l))
    case Block(_) => Blanked(Render(l))
    case Raw(h, body) => ("r" + Repeat('#', h) + "\"") + (Blanked(body) + ("\"" + Repeat('#', h)))
    case Quoted(body) => "\"" + (Blanked(PieceText(body)) + "\"")
    case PlainChar(c) => ['\'', BlankChar(c), '\'']
    case EscapedChar(c, tail) => "'" + (Blanked(['\\', c] + tail) + "'")
  }

  // A lexeme is what it claims to be in front of the text that follows.
  ghost predicate LegalBefore(l: Lexeme, rest: string) {
    match l
    case Code(c) =>
      && c != '"'
      && (c == '/' ==> CharAt(rest, 0) != "/" && CharAt(rest, 0) != "*")
      && (c == 'r' ==> !OpensRaw(rest))
      && (c == '\'' ==> CharAt(rest, 0) != "\\" && CharAt(rest, 1) != "'")
    case Line(body) => '\n' !in body && (rest == [] || rest[0] == '\n')
    case Block(body) => BodyLegal(body)
    case Raw(h, body) =>
      var terminator := "\"" + Repeat('#', h);
      OffsetOf(body + terminator, terminator) == |body|
    case Quoted(body) => PiecesLegal(body)
    case PlainChar(c) => c != '\\'
    case EscapedChar(c, tail) => '\'' !in tail
  }

  function RenderAll(ls: seq<Lexeme>): string {
    if ls == [] then "" else Render(ls[0]) + RenderAll(ls[1..])
  }

  function ShownAll(ls: seq<Lexeme>): string {
    if ls == [] then "" else Shown(ls[0]) + ShownAll(ls[1..])
  }

  ghost predicate Legal(ls: seq<Lexeme>) {
    ls == [] || (LegalBefore(ls[0], RenderAll(ls[1..])) && Legal(ls[1..]))
  }

  // ----- Each lexeme is taken whole -----

  lemma {:induction false} LineEndAt(body: string, rest: string)
    requires '\n' !in body && (rest == [] || rest[0] == '\n')
    ensures LineEnd(body + rest) == |body|
  {
    if body == [] {
      assert body + rest == rest;
    } else {
      assert (body + rest)[1..] == body[1..] + rest;
      LineEndAt(body[1..], rest);
    }
  }

  // One nested comment, or one character, inside a comment of any depth.
  lemma {:induction false} BlockItem(item: Item, after: string, depth: int)
    requires depth > 0 && ItemLegal(item, after)
    ensures BlockEnd(ItemText(item) + after, depth) == |ItemText(item)| + BlockEnd(after, depth)
    decreases item, 1
  {
    match item
    case Inner(c) => assert ([c] + after)[1..] == after;
    case Nested(body) =>
      var s := ItemText(item) + after;
      assert s == "/*" + (BodyText(body) + ("*/" + after));
      assert s[2..] == BodyText(body) + ("*/" + after);
      BlockBody(body, after, depth + 1);
      assert ("*/" + after)[2..] == after;
  }

  lemma {:induction false} BlockBody(body: seq<Item>, after: string, depth: int)
    requires depth > 0 && BodyLegal(body)
    ensures BlockEnd(BodyText(body) + ("*/" + after), depth)
         == |BodyText(body)| + if depth == 1 then 2 else 2 + BlockEnd(after, depth - 1)
    decreases body, 0
  {
    var tail := "*/" + after;
    assert tail[2..] == after && tail[0] == '*' && tail[..2] == "*/";
    if body == [] {
      assert BodyText(body) + tail == tail;
    } else {
      var more := BodyText(body[1..]) + tail;
      assert BodyText(body) + tail == ItemText(body[0]) + more;
      ItemLegalLonger(body[0], BodyText(body[1..]) + "*/", after);
      assert more == (BodyText(body[1..]) + "*/") + after;
      BlockItem(body[0], more, depth);
      BlockBody(body[1..], after, depth);
    }
  }

  // Two characters of lookahead are enough.
  lemma ItemLegalLonger(item: Item, after: string, more: string)
    requires ItemLegal(item, after) && after != []
    ensures ItemLegal(item, after + more)
  {
    if item.Inner? {
      var s := [item.c] + (after + more);
      assert s[0] == item.c && s[1] == after[0];
      assert ([item.c] + after)[1] == after[0];
    }
  }

  lemma {:induction false} StringEndAt(body: seq<Piece>, rest: string)
    requires PiecesLegal(body)
    ensures StringEnd(PieceText(body) + ("\"" + rest)) == |PieceText(body)|
    decreases |body|
  {
    var tail := "\"" + rest;
    if body == [] {
      assert PieceText(body) + tail == tail;
    } else {
      var more := PieceText(body[1..]) + tail;
      assert body[0] in body;
      forall p | p in body[1..] ensures p in body {}
      StringEndAt(body[1..], rest);
      match body[0] {
        case One(c) =>
          Regroup([c], PieceText(body[1..]), tail);
          PlainStep(c, more);
        case Escaped(c) =>
          Regroup(['\\', c], PieceText(body[1..]), tail);
          EscapeStep(c, more);
      }
    }
  }

  lemma PlainStep(c: char, more: string)
    requires c != '"' && c != '\\'
    ensures StringEnd([c] + more) == 1 + StringEnd(more)
  {
    assert ([c] + more)[1..] == more;
  }

  lemma EscapeStep(c: char, more: string)
    ensures StringEnd(['\\', c] + more) == 2 + StringEnd(more)
  {
    assert (['\\', c] + more)[2..] == more;
  }

  lemma {:induction false} QuoteEndAt(tail: string, rest: string)
    requires '\'' !in tail
    ensures QuoteEnd(tail + ("'" + rest)) == |tail|
  {
    var after := "'" + rest;
    if tail == [] {
      assert tail + after == after;
    } else {
      assert (tail + after)[1..] == tail[1..] + after;
      QuoteEndAt(tail[1..], rest);
    }
  }

  lemma {:induction false} HashesAt(n: nat, rest: string)
    ensures Hashes(Repeat('#', n) + ("\"" + rest)) == n
  {
    var after := "\"" + rest;
    if n == 0 {
      assert Repeat('#', 0) + after == after;
    } else {
      assert (Repeat('#', n) + after)[1..] == Repeat('#', n - 1) + after;
      HashesAt(n - 1, rest);
    }
  }

  // A first occurrence stays first when text is appended.
  lemma {:induction false} FindLonger(s: string, needle: string, rest: string)
    requires OffsetOf(s, needle) + |needle| == |s| && needle != [] && needle <= s[OffsetOf(s, needle)..]
    ensures OffsetOf(s + rest, needle) == OffsetOf(s, needle)
    ensures needle <= (s + rest)[OffsetOf(s, needle)..]
    decreases |s|
  {
    var n := OffsetOf(s, needle);
    assert (s + rest)[n..] == s[n..] + rest;
    if n > 0 {
      assert (s + rest)[1..] == s[1..] + rest;
      assert s[1..][n - 1..] == s[n..];
      FindLonger(s[1..], needle, rest);
      assert |needle| <= |s|;
      assert (s + rest)[..|needle|] == s[..|needle|];
    }
  }

  // The step takes exactly this lexeme and leaves exactly what is shown of it.
  ghost predicate Taken(l: Lexeme, rest: string) {
    var span := Step(Render(l) + rest);
    span.next == |Render(l)| && BlankRange(Render(l), span.lo, span.hi) == Shown(l)
  }

  lemma TakenLine(body: string, rest: string)
    requires LegalBefore(Line(body), rest)
    ensures Taken(Line(body), rest)
  {
    var s := Render(Line(body)) + rest;
    assert s[0] == '/' && s[1] == '/';
    LineEndAt("//" + body, rest);
  }

  lemma StepBlock(tail: string)
    ensures var n := 2 + BlockEnd(tail, 1); Step("/*" + tail) == Span(0, n, n)
  {
    var s := "/*" + tail;
    assert s[0] == '/' && s[1] == '*' && s[..2] == "/*" && s[2..] == tail;
  }

  lemma TakenBlock(items: seq<Item>, rest: string)
    requires BodyLegal(items)
    ensures Taken(Block(items), rest)
  {
    var tail := BodyText(items) + ("*/" + rest);
    BlockBody(items, rest, 1);
    StepBlock(tail);
    assert Render(Block(items)) + rest == "/*" + tail;
  }

  lemma TakenQuoted(pieces: seq<Piece>, rest: string)
    requires PiecesLegal(pieces)
    ensures Taken(Quoted(pieces), rest)
  {
    var text := PieceText(pieces);
    ThenRest("\"", text, "\"", rest);
    StepQuoted(pieces, rest);
    BlankMiddle("\"", text, "\"");
  }

  lemma StepQuoted(pieces: seq<Piece>, rest: string)
    requires PiecesLegal(pieces)
    ensures var n := |PieceText(pieces)|; Step("\"" + (PieceText(pieces) + ("\"" + rest))) == Span(1, 1 + n, 2 + n)
  {
    var after := PieceText(pieces) + ("\"" + rest);
    assert ("\"" + after)[0] == '"' && ("\"" + after)[1..] == after;
    StringEndAt(pieces, rest);
  }

  lemma ThenRest(a: string, b: string, c: string, rest: string)
    ensures (a + (b + c)) + rest == a + (b + (c + rest))
  {
  }

  // Blanking only the middle of three parts.
  lemma BlankMiddle(a: string, b: string, c: string)
    ensures BlankRange(a + (b + c), |a|, |a| + |b|) == a + (Blanked(b) + c)
  {
  }

  lemma StepEscape(c: char, tail: string, rest: string)
    requires '\'' !in tail
    ensures Step(['\'', '\\', c] + (tail + ("'" + rest))) == Span(1, 3 + |tail|, 4 + |tail|)
  {
    var s := ['\'', '\\', c] + (tail + ("'" + rest));
    assert s[0] == '\'' && s[1] == '\\' && s[3..] == tail + ("'" + rest);
    QuoteEndAt(tail, rest);
  }

  lemma TakenEscape(c: char, tail: string, rest: string)
    requires '\'' !in tail
    ensures Taken(EscapedChar(c, tail), rest)
  {
    var l := EscapedChar(c, tail);
    StepEscape(c, tail, rest);
    assert Render(l) + rest == ['\'', '\\', c] + (tail + ("'" + rest));
    assert Render(l) == "'" + ((['\\', c] + tail) + "'");
    BlankMiddle("'", ['\\', c] + tail, "'");
  }

  lemma TakenPlain(c: char, rest: string)
    requires c != '\\'
    ensures Taken(PlainChar(c), rest)
  {
    var s := ['\'', c, '\''] + rest;
    assert s[0] == '\'' && s[1] == c && s[2] == '\'';
    assert BlankRange(['\'', c, '\''], 1, 2) == ['\'', BlankChar(c), '\''];
  }

  lemma RawOpens(h: nat, after: string)
    ensures var t := Repeat('#', h) + ("\"" + after); OpensRaw(t) && Hashes(t) == h
  {
    HashesAt(h, after);
    var t := Repeat('#', h) + ("\"" + after);
    assert t[h] == '"';
    if h > 0 { assert t[0] == '#'; }
  }

  // The text after the opening delimiter, found from the front.
  lemma RawBody(h: nat, after: string)
    ensures var s := ("r" + Repeat('#', h) + "\"") + after;
            s[0] == 'r' && s[1..] == Repeat('#', h) + ("\"" + after) && s[h + 2..] == after
  {
  }

  lemma RawStepAt(s: string, h: nat, terminator: string, after: string, n: nat)
    requires s != [] && OpensRaw(s[1..]) && Hashes(s[1..]) == h && h + 2 <= |s| && s[h + 2..] == after
    requires terminator == "\"" + Repeat('#', h) && |terminator| == h + 1
    requires n < |after| && OffsetOf(after, terminator) == n && terminator <= after[n..]
    ensures RawStep(s) == Span(h + 2, h + 2 + n, h + 2 + n + (h + 1))
  {
  }

  lemma StepRaw(h: nat, after: string, n: nat)
    requires n < |after| && OffsetOf(after, "\"" + Repeat('#', h)) == n && "\"" + Repeat('#', h) <= after[n..]
    ensures Step(("r" + Repeat('#', h) + "\"") + after) == Span(h + 2, h + 2 + n, h + 2 + n + (h + 1))
  {
    RawBody(h, after);
    RawOpens(h, after);
    RawStepAt(("r" + Repeat('#', h) + "\"") + after, h, "\"" + Repeat('#', h), after, n);
  }

  lemma TakenRaw(h: nat, body: string, rest: string)
    requires LegalBefore(Raw(h, body), rest)
    ensures Taken(Raw(h, body), rest)
  {
    var term, open := "\"" + Repeat('#', h), "r" + Repeat('#', h) + "\"";
    TerminatorFound(body, term, rest);
    StepRaw(h, body + (term + rest), |body|);
    ThenRest(open, body, term, rest);
    BlankMiddle(open, body, term);
  }

  lemma BehindBody(body: string, term: string, rest: string)
    ensures (body + term)[|body|..] == term && (body + (term + rest))[|body|..] == term + rest
    ensures (body + term) + rest == body + (term + rest) && term <= term + rest
  {
  }

  lemma TerminatorFound(body: string, term: string, rest: string)
    requires OffsetOf(body + term, term) == |body| && term != []
    ensures OffsetOf(body + (term + rest), term) == |body| && term <= (body + (term + rest))[|body|..]
  {
    BehindBody(body, term, rest);
    FindLonger(body + term, term, rest);
  }

  lemma TakenWhole(l: Lexeme, rest: string)
    requires LegalBefore(l, rest)
    ensures Taken(l, rest)
  {
    match l
    case Code(c) =>
      var s := [c] + rest;
      assert s[1..] == rest && CharAt(s, 1) == CharAt(rest, 0) && CharAt(s, 2) == CharAt(rest, 1);
    case Line(body) => TakenLine(body, rest);
    case Block(items) => TakenBlock(items, rest);
    case Raw(h, body) => TakenRaw(h, body, rest);
    case Quoted(pieces) => TakenQuoted(pieces, rest);
    case PlainChar(c) => TakenPlain(c, rest);
    case EscapedChar(c, tail) => TakenEscape(c, tail, rest);
  }

  // Blanking a text is blanking each lexeme: comments of any nesting vanish up to exactly
  // their matching close, and of a literal its delimiters stay.
  lemma {:induction false} BlankIsLexical(ls: seq<Lexeme>)
    requires Legal(ls)
    ensures Blank(RenderAll(ls)) == ShownAll(ls)
    decreases |ls|
  {
    if ls != [] {
      var l, rest := ls[0], RenderAll(ls[1..]);
      var s := RenderAll(ls);
      TakenWhole(l, rest);
      var span := Step(s);
      assert s[..span.next] == Render(l) && s[span.next..] == rest;
      BlankIsLexical(ls[1..]);
    }
  }

  // ----- The scan as it runs, over a character buffer -----

  method BlankSpan(out: array<char>, start: nat, stop: int)
    modifies out
    ensures out[..] == BlankRange(old(out[..]), start, stop)
  {
    var position := start;
    while position < stop && position < out.Length
      invariant start <= position
      invariant forall i :: 0 <= i < out.Length ==>
        out[i] == if start <= i < position && i < stop then BlankChar(old(out[i])) else old(out[i])
    {
      if out[position] != '\n' {
        out[position] := ' ';
      }
      position := position + 1;
    }
  }

  // Where a comment that is open this deep ends, read from a position on.
  ghost function EndFrom(text: string, scan: nat, depth: int): nat
    requires scan <= |text|
  {
    scan + BlockEnd(text[scan..], depth)
  }

  lemma BlockStep(text: string, scan: nat, depth: int)
    requires scan < |text|
    ensures var s := text[scan..];
            EndFrom(text, scan, depth)
            == if "/*" <= s then EndFrom(text, scan + 2, depth + 1)
               else if "*/" <= s then if depth == 1 then scan + 2 else EndFrom(text, scan + 2, depth - 1)
               else EndFrom(text, scan + 1, depth)
  {
    var s := text[scan..];
    if "/*" <= s || "*/" <= s {
      DropDrop(text, scan, 2);
    } else {
      DropDrop(text, scan, 1);
    }
  }

  method ScanBlock(text: string, index: nat) returns (scan: nat)
    requires index < |text|
    ensures scan == index + BlockEnd(text[index..], 0)
  {
    ghost var goal := index + BlockEnd(text[index..], 0);
    var depth := 0;
    scan := index;
    while scan < |text|
      invariant index <= scan <= |text|
      invariant EndFrom(text, scan, depth) == goal
    {
      BlockStep(text, scan, depth);
      var s := text[scan..];
      if "/*" <= s {
        depth := depth + 1;
        scan := scan + 2;
      } else if "*/" <= s {
        depth := depth - 1;
        scan := scan + 2;
        if depth == 0 {
          break;
        }
      } else {
        scan := scan + 1;
      }
    }
  }

  method ScanString(text: string, start: nat) returns (scan: nat)
    requires start <= |text|
    ensures scan == start + StringEnd(text[start..])
  {
    ghost var goal := start + StringEnd(text[start..]);
    scan := start;
    while scan < |text|
      invariant start <= scan
      invariant if scan <= |text| then scan + StringEnd(text[scan..]) == goal else scan == goal
    {
      var s := text[scan..];
      if text[scan] == '\\' {
        if scan + 2 <= |text| { assert s[2..] == text[scan + 2..]; }
        scan := scan + 2;
        continue;
      }
      if text[scan] == '"' {
        break;
      }
      assert s[1..] == text[scan + 1..];
      scan := scan + 1;
    }
  }

  method ScanQuote(text: string, start: nat) returns (scan: nat)
    ensures scan == if start <= |text| then start + QuoteEnd(text[start..]) else start
  {
    scan := start;
    while scan < |text| && text[scan] != '\''
      invariant start <= scan
      invariant start <= |text| ==> scan <= |text| && scan + QuoteEnd(text[scan..]) == start + QuoteEnd(text[start..])
      invariant start > |text| ==> scan == start
    {
      assert text[scan..][1..] == text[scan + 1..];
      scan := scan + 1;
    }
  }

  method CountHashes(text: string, start: nat) returns (hashes: nat)
    requires start <= |text|
    ensures hashes == Hashes(text[start..])
  {
    var scan := start;
    hashes := 0;
    while scan < |text| && text[scan] == '#'
      invariant start <= scan <= |text| && hashes == scan - start
      invariant hashes + Hashes(text[scan..]) == Hashes(text[start..])
    {
      assert text[scan..][1..] == text[scan + 1..];
      hashes := hashes + 1;
      scan := scan + 1;
    }
  }

  // A raw string at `index`, whose opening quote follows `hashes` hashes.
  method NextRaw(text: string, index: nat, hashes: nat) returns (span: Span)
    requires index < |text| && OpensRaw(text[index..][1..]) && hashes == Hashes(text[index..][1..])
    ensures span == RawStep(text[index..])
  {
    var rest := text[index..];
    var terminator := "\"" + Repeat('#', hashes);
    var body := rest[hashes + 2..];
    var found := OffsetOf(body, terminator);
    if found < |body| && terminator <= body[found..] {
      span := Span(hashes + 2, hashes + 2 + found, hashes + 2 + found + |terminator|);
    } else {
      span := Span(hashes + 2, |rest| - |terminator|, |rest|);
    }
  }

  // One turn of the main loop: what to blank, and where to continue, from `index`.
  method NextSpan(text: string, index: nat) returns (span: Span)
    requires index < |text|
    ensures span == Step(text[index..])
  {
    ghost var s := text[index..];
    var c := text[index];
    var after := CharAt(text, index + 1);
    assert after == CharAt(s, 1) && CharAt(text, index + 2) == CharAt(s, 2) && s[1..] == text[index + 1..];
    if c == '/' && after == "/" {
      var stop := LineEnd(text[index..]);
      return Span(0, stop, stop);
    }
    if c == '/' && after == "*" {
      var scan := ScanBlock(text, index);
      return Span(0, scan - index, scan - index);
    }
    if c == 'r' && (after == "\"" || after == "#") {
      var hashes := CountHashes(text, index + 1);
      if index + 1 + hashes < |text| && text[index + 1 + hashes] == '"' {
        assert s[1..][hashes] == '"' && OpensRaw(s[1..]);
        span := NextRaw(text, index, hashes);
        return;
      }
    }
    if c == '"' {
      var scan := ScanString(text, index + 1);
      return Span(1, Min(scan, |text|) - index, Min(scan + 1, |text|) - index);
    }
    if c == '\'' {
      if after == "\\" {
        if |s| >= 3 { assert s[3..] == text[index + 3..]; }
        var scan := ScanQuote(text, index + 3);
        return Span(1, Min(scan, |text|) - index, Min(scan + 1, |text|) - index);
      }
      if CharAt(text, index + 2) == "'" {
        return Span(1, 2, 3);
      }
    }
    return Span(0, 0, 1);
  }

  // Blanking a span of the buffer blanks it in the part of the text still to be read.
  lemma BlankBehind(done: string, rest: string, span: Span)
    requires span.next <= |rest| && (span.lo <= span.hi ==> span.hi <= span.next)
    ensures BlankRange(done + rest, |done| + span.lo, |done| + span.hi)
         == (done + BlankRange(rest[..span.next], span.lo, span.hi)) + rest[span.next..]
  {
  }

  lemma AtEnd(text: string, done: string)
    ensures done + text[|text|..] == done && done + Blank(text[|text|..]) == done
  {
  }

  // Blanking one span of the buffer finishes one more step of the text.
  lemma SpanBlanked(text: string, index: nat, done: string, span: Span, lo: nat, hi: nat, next: nat, whole: string,
                    after: string)
    returns (done': string)
    requires |done| == index <= |text| && span.next <= |text| - index && (span.lo <= span.hi ==> span.hi <= span.next)
    requires lo == index + span.lo && hi == index + span.hi && next == index + span.next
    requires whole == BlankRange(text[index..][..span.next], span.lo, span.hi) + after
    ensures |done'| == next && BlankRange(done + text[index..], lo, hi) == done' + text[next..]
    ensures done' + after == done + whole
  {
    var rest := text[index..];
    var blanked := BlankRange(rest[..span.next], span.lo, span.hi);
    BlankBehind(done, rest, span);
    DropDrop(text, index, span.next);
    Regroup(done, blanked, after);
    done' := done + blanked;
  }

  // The buffer holds what is done and then the rest of the text; blanking that rest as well gives the whole.
  ghost predicate Halfway(buffer: string, text: string, index: nat, done: string, whole: string) {
    && |done| == index <= |text| && buffer == done + text[index..]
    && done + Blank(text[index..]) == whole
  }

  lemma BlankStepAt(text: string, index: nat, buffer: string, done: string, whole: string, span: Span,
                    lo: nat, hi: nat, next: nat)
    returns (buffer': string, done': string)
    requires index < |text| && Halfway(buffer, text, index, done, whole) && span == Step(text[index..])
    requires lo == index + span.lo && hi == index + span.hi && next == index + span.next
    ensures buffer' == BlankRange(buffer, lo, hi) && Halfway(buffer', text, next, done', whole)
  {
    DropDrop(text, index, span.next);
    done' := SpanBlanked(text, index, done, span, lo, hi, next, Blank(text[index..]), Blank(text[next..]));
    buffer' := done' + text[next..];
  }

  method NextStep(text: string, index: nat, ghost buffer: string, ghost done: string, ghost whole: string)
    returns (lo: nat, hi: nat, next: nat, ghost buffer': string, ghost done': string)
    requires index < |text| && Halfway(buffer, text, index, done, whole)
    ensures index < next && buffer' == BlankRange(buffer, lo, hi) && Halfway(buffer', text, next, done', whole)
  {
    var span := NextSpan(text, index);
    lo, hi, next := index + span.lo, index + span.hi, index + span.next;
    buffer', done' := BlankStepAt(text, index, buffer, done, whole, span, lo, hi, next);
  }

  method BlankLiteralsAndComments(text: string) returns (out: array<char>)
    ensures fresh(out) && out[..] == Blank(text)
  {
    out := new char[|text|](i requires 0 <= i < |text| => text[i]);
    var index := 0;
    ghost var done := "";
    ghost var buffer := out[..];
    Untouched(text, buffer);
    while index < |text|
      invariant out[..] == buffer && Halfway(buffer, text, index, done, Blank(text))
    {
      var lo, hi;
      lo, hi, index, buffer, done := NextStep(text, index, buffer, done, Blank(text));
      BlankSpan(out, lo, hi);
    }
    AtEnd(text, done);
  }

  lemma Untouched(text: string, buffer: string)
    requires |buffer| == |text| && forall i :: 0 <= i < |text| ==> buffer[i] == text[i]
    ensures buffer == [] + text[0..] && [] + Blank(text[0..]) == Blank(text)
  {
    assert text[0..] == text && buffer == text;
  }

  // ----- Matching braces on blanked text -----

  function Weight(c: char): int {
    if c == '{' then 1 else if c == '}' then -1 else 0
  }

  // Braces opened minus braces closed in `text[lo..hi]`.
  function Depth(text: string, lo: nat, hi: nat): int
    requires lo <= hi <= |text|
    decreases hi
  {
    if lo == hi then 0 else Depth(text, lo, hi - 1) + Weight(text[hi - 1])
  }

  lemma {:induction false} DepthIsCount(text: string, lo: nat, hi: nat)
    requires lo <= hi <= |text|
    ensures Depth(text, lo, hi) + multiset(text[lo..hi])['}'] == multiset(text[lo..hi])['{']
    decreases hi
  {
    if lo < hi {
      DepthIsCount(text, lo, hi - 1);
      assert text[lo..hi] == text[lo..hi - 1] + [text[hi - 1]];
    }
  }

  ghost predicate Closes(text: string, open: nat, i: nat)
    requires open <= i < |text|
  {
    text[i] == '}' && Depth(text, open, i + 1) == 0
  }

  // `matching_brace`: the first brace that closes what was opened since `open`, if any.
  method MatchingBrace(text: string, open: nat) returns (r: int)
    requires open <= |text|
    ensures r == -1 || open <= r < |text|
    ensures r >= 0 ==> Closes(text, open, r) && forall i :: open <= i < r ==> !Closes(text, open, i)
    ensures r == -1 ==> forall i :: open <= i < |text| ==> !Closes(text, open, i)
    ensures open < |text| && text[open] == '{' ==>
      forall k :: open < k <= (if r >= 0 then r else |text|) ==> Depth(text, open, k) > 0
  {
    var depth, index := 0, open;
    while index < |text|
      invariant open <= index <= |text| && depth == Depth(text, open, index)
      invariant forall i :: open <= i < index ==> !Closes(text, open, i)
      invariant open < |text| && text[open] == '{' ==> forall k :: open < k <= index ==> Depth(text, open, k) > 0
    {
      if text[index] == '{' {
        depth := depth + 1;
      } else if text[index] == '}' {
        depth := depth - 1;
        if depth == 0 {
          return index;
        }
      }
      assert depth == Depth(text, open, index + 1);
      index := index + 1;
    }
    return -1;
  }

  // A brace found on the blanked text is a brace of the original at the same offset.
  lemma BraceOfOriginal(s: string, i: nat)
    requires i < |s| && Blank(s)[i] in {'{', '}'}
    ensures s[i] == Blank(s)[i]
  {
    BlankOnlyBlanks(s, i);
  }
}
