/** The build script's reader for the attestation: a cursor over the text that takes
    one quoted key and the array of plain tokens behind it. */
module Attestation {
  import opened Outcomes
  import opened Sequences

  datatype ReadError = NoField | RepeatedField | BadShape | NonToken | EmptyOrUnterminated | TooManyRows
                     | TrailingComma | NotCommaDelimited

  const MAX_ROWS := 64

  predicate IsSpace(c: char) {
    c == ' ' || c == '\t' || c == '\n' || c == '\r' || c as int == 12
  }

  predicate IsTokenChar(c: char) {
    'a' <= c <= 'z' || 'A' <= c <= 'Z' || '0' <= c <= '9' || c == '_' || c == '-'
  }

  predicate AllSpace(s: string) {
    forall i :: 0 <= i < |s| ==> IsSpace(s[i])
  }

  predicate IsToken(s: string) {
    s != [] && forall i :: 0 <= i < |s| ==> IsTokenChar(s[i])
  }

  // The first offset at which `needle` occurs.
  function Find(s: string, needle: string): (r: Option<nat>)
    ensures r.Some? ==> r.value + |needle| <= |s|
    decreases |s|
  {
    if needle <= s then Some(0)
    else if s == [] then None
    else match Find(s[1..], needle) case Some(n) => Some(n + 1) case None => None
  }

  lemma {:induction false} FindBounds(s: string, needle: string)
    ensures Find(s, needle).Some? ==> s[Find(s, needle).value..Find(s, needle).value + |needle|] == needle
    decreases |s|
  {
    if !(needle <= s) && s != [] {
      FindBounds(s[1..], needle);
      if Find(s, needle).Some? {
        var n := Find(s[1..], needle).value;
        SliceShifted(s, n, |needle|);
      }
    }
  }

  lemma SliceShifted(s: string, n: nat, k: nat)
    requires n + 1 + k <= |s|
    ensures s[n + 1..n + 1 + k] == s[1..][n..n + k]
  {
  }

  function SkipSpace(s: string): string {
    if s != [] && IsSpace(s[0]) then SkipSpace(s[1..]) else s
  }

  // The token up to its closing quote; `None` when a byte is not a token byte.
  function TokenLength(s: string): Option<nat> {
    if s == [] || s[0] == '"' then Some(0)
    else if !IsTokenChar(s[0]) then None
    else match TokenLength(s[1..]) case Some(n) => Some(n + 1) case None => None
  }

  lemma {:induction false} TokenBounds(s: string)
    ensures TokenLength(s).Some? ==> TokenLength(s).value <= |s|
    ensures TokenLength(s).Some? ==> forall i :: 0 <= i < TokenLength(s).value ==> IsTokenChar(s[i])
    ensures TokenLength(s).Some? && TokenLength(s).value < |s| ==> s[TokenLength(s).value] == '"'
    decreases |s|
  {
    if s != [] && s[0] != '"' && IsTokenChar(s[0]) { TokenBounds(s[1..]); }
  }

  function SkipLength(s: string): (n: nat)
    ensures n <= |s| && s[n..] == SkipSpace(s)
  {
    if s != [] && IsSpace(s[0]) then 1 + SkipLength(s[1..]) else 0
  }

  // The loop over the values, from an opening quote.
  function ReadValues(s: string, done: seq<string>): Result<seq<string>, ReadError>
    decreases |s|
  {
    if s == [] || s[0] != '"' then Err(BadShape)
    else
      var body := s[1..];
      match TokenLength(body)
      case None => Err(NonToken)
      case Some(n) =>
        TokenBounds(body);
        if n >= |body| || n == 0 then Err(EmptyOrUnterminated)
        else
          var values := done + [body[..n]];
          if |values| > MAX_ROWS then Err(TooManyRows)
          else
            var rest := SkipSpace(body[n + 1..]);
            assert |rest| <= |body| by { var k := SkipLength(body[n + 1..]); }
            if rest != [] && rest[0] == ']' then Ok(values)
            else if rest != [] && rest[0] == ',' then
              var next := SkipSpace(rest[1..]);
              assert |next| < |rest| by { var k := SkipLength(rest[1..]); }
              if next != [] && next[0] == ']' then Err(TrailingComma) else ReadValues(next, values)
            else Err(NotCommaDelimited)
  }

  // The value behind the key: a colon, then an array.
  function ReadArray(s: string): Result<seq<string>, ReadError> {
    var colon := SkipSpace(s);
    if colon == [] || colon[0] != ':' then Err(BadShape)
    else
      var open := SkipSpace(colon[1..]);
      if open == [] || open[0] != '[' then Err(BadShape)
      else
        var first := SkipSpace(open[1..]);
        if first != [] && first[0] == ']' then Ok([]) else ReadValues(first, [])
  }

  function Quoted(key: string): string {
    "\"" + key + "\""
  }

  // `string_array_field`.
  function ArrayField(text: string, key: string): Result<seq<string>, ReadError> {
    FieldBehind(text, Quoted(key))
  }

  function FieldBehind(text: string, needle: string): Result<seq<string>, ReadError> {
    match Find(text, needle)
    case None => Err(NoField)
    case Some(n) => FieldFrom(text[n + |needle|..], needle)
  }

  function FieldFrom(after: string, needle: string): Result<seq<string>, ReadError> {
    if Find(after, needle).Some? then Err(RepeatedField) else ReadArray(after)
  }

  // ----- Layouts the reader accepts -----

  // The whitespace after a value, and after the comma that follows it.
  datatype Gap = Gap(value: string, comma: string)
  datatype Layout = Layout(key: string, colon: string, open: string, gaps: seq<Gap>)

  ghost predicate LayoutOk(l: Layout, count: nat) {
    && AllSpace(l.key) && AllSpace(l.colon) && AllSpace(l.open) && |l.gaps| == count
    && forall i :: 0 <= i < count ==> AllSpace(l.gaps[i].value) && AllSpace(l.gaps[i].comma)
  }

  function PrintValues(values: seq<string>, gaps: seq<Gap>): string
    requires |gaps| == |values|
  {
    if values == [] then "]"
    else if |values| == 1 then Quoted(values[0]) + (gaps[0].value + "]")
    else Quoted(values[0]) + (gaps[0].value + ("," + (gaps[0].comma + PrintValues(values[1..], gaps[1..]))))
  }

  function PrintArray(values: seq<string>, l: Layout): string
    requires |l.gaps| == |values|
  {
    l.key + (":" + (l.colon + ("[" + (l.open + PrintValues(values, l.gaps)))))
  }

  lemma {:induction false} SkipsSpace(space: string, rest: string)
    requires AllSpace(space) && (rest == [] || !IsSpace(rest[0]))
    ensures SkipSpace(space + rest) == rest
    decreases |space|
  {
    if space == [] {
      assert space + rest == rest;
    } else {
      assert (space + rest)[1..] == space[1..] + rest;
      SkipsSpace(space[1..], rest);
    }
  }

  lemma {:induction false} TokenLengthAt(token: string, rest: string)
    requires forall i :: 0 <= i < |token| ==> IsTokenChar(token[i])
    ensures TokenLength(token + ("\"" + rest)) == Some(|token|)
    decreases |token|
  {
    var s := token + ("\"" + rest);
    if token == [] {
      assert s == "\"" + rest;
    } else {
      assert s[0] == token[0] && s[1..] == token[1..] + ("\"" + rest);
      TokenLengthAt(token[1..], rest);
    }
  }

  // One quoted token is taken, together with the space after it.
  lemma ReadOne(token: string, space: string, rest: string, done: seq<string>)
    requires IsToken(token) && |done| < MAX_ROWS && AllSpace(space) && rest != [] && (rest[0] == ']' || rest[0] == ',')
    ensures var r := ReadValues(Quoted(token) + (space + rest), done);
            if rest[0] == ']' then r == Ok(done + [token])
            else var next := SkipSpace(rest[1..]);
              r == if next != [] && next[0] == ']' then Err(TrailingComma) else ReadValues(next, done + [token])
  {
    var s := Quoted(token) + (space + rest);
    var body := token + ("\"" + (space + rest));
    assert s == "\"" + body && s[1..] == body;
    TokenLengthAt(token, space + rest);
    assert body[..|token|] == token && body[|token| + 1..] == space + rest;
    SkipsSpace(space, rest);
  }

  lemma StartsWithQuote(values: seq<string>, gaps: seq<Gap>, post: string)
    requires |gaps| == |values| && values != []
    ensures var s := PrintValues(values, gaps) + post; s != [] && s[0] == '"'
  {
  }

  lemma OnlyPrinted(v: string, g: Gap, post: string)
    ensures PrintValues([v], [g]) + post == Quoted(v) + (g.value + ("]" + post))
  {
  }

  // Reading undoes printing, whatever the whitespace between the tokens.
  lemma {:induction false} ReadPrinted(values: seq<string>, gaps: seq<Gap>, post: string, done: seq<string>)
    requires values != [] && |gaps| == |values| && |done| + |values| <= MAX_ROWS
    requires forall v :: v in values ==> IsToken(v)
    requires forall g :: g in gaps ==> AllSpace(g.value) && AllSpace(g.comma)
    ensures ReadValues(PrintValues(values, gaps) + post, done) == Ok(done + values)
    decreases |values|
  {
    var v, g := values[0], gaps[0];
    assert v in values && g in gaps;
    if |values| == 1 {
      assert values == [v] && gaps == [g];
      OnlyPrinted(v, g, post);
      ReadOne(v, g.value, "]" + post, done);
    } else {
      var vs, gs := values[1..], gaps[1..];
      var more := PrintValues(vs, gs) + post;
      assert values == [v] + vs && gaps == [g] + gs;
      PrependValue(v, g.value, g.comma, vs, gs, post);
      StartsWithQuote(vs, gs, post);
      assert ("," + (g.comma + more))[1..] == g.comma + more;
      SkipsSpace(g.comma, more);
      ReadOne(v, g.value, "," + (g.comma + more), done);
      ReadPrinted(vs, gs, post, done + [v]);
      Regroup(done, [v], vs);
    }
  }

  ghost predicate Tokens(values: seq<string>) {
    |values| <= MAX_ROWS && forall v :: v in values ==> IsToken(v)
  }

  lemma ReadArrayPrinted(values: seq<string>, l: Layout, post: string)
    requires Tokens(values) && LayoutOk(l, |values|)
    ensures ReadArray(PrintArray(values, l) + post) == Ok(values)
  {
    var body := PrintValues(values, l.gaps) + post;
    var open := "[" + (l.open + body);
    var colon := ":" + (l.colon + open);
    assert PrintArray(values, l) + post == l.key + colon;
    SkipsSpace(l.key, colon);
    assert colon[1..] == l.colon + open;
    SkipsSpace(l.colon, open);
    assert open[1..] == l.open + body;
    if values == [] {
      assert body == "]" + post;
      SkipsSpace(l.open, body);
    } else {
      StartsWithQuote(values, l.gaps, post);
      SkipsSpace(l.open, body);
      forall g | g in l.gaps ensures AllSpace(g.value) && AllSpace(g.comma) {}
      ReadPrinted(values, l.gaps, post, []);
      assert [] + values == values;
    }
  }

  // ----- Everything the reader accepts is such a layout -----

  lemma FirstApart(s: string)
    requires s != []
    ensures s == [s[0]] + s[1..]
  {
  }

  lemma {:induction false} SpaceApart(s: string) returns (space: string)
    ensures AllSpace(space) && s == space + SkipSpace(s)
    decreases |s|
  {
    if s != [] && IsSpace(s[0]) {
      var more := SpaceApart(s[1..]);
      space := [s[0]] + more;
      FirstApart(s);
      Regroup([s[0]], more, SkipSpace(s));
    } else {
      space := [];
    }
  }

  // The first value of an accepted list, and what the reader does behind it.
  lemma TakeOne(s: string, done: seq<string>) returns (v: string, space: string, rest: string)
    requires ReadValues(s, done).Ok?
    ensures s == Quoted(v) + (space + rest) && IsToken(v) && AllSpace(space) && |done| < MAX_ROWS
    ensures rest != [] && (rest[0] == ']' || rest[0] == ',')
    ensures rest[0] == ']' ==> ReadValues(s, done) == Ok(done + [v])
    ensures rest[0] == ',' ==> ReadValues(s, done) == ReadValues(SkipSpace(rest[1..]), done + [v])
  {
    var body := s[1..];
    var n := TokenLength(body).value;
    TokenBounds(body);
    ReadFirst(s, done, body, n);
    v := body[..n];
    space := SpaceApart(body[n + 1..]);
    rest := SkipSpace(body[n + 1..]);
    BodyApart(body, n);
    QuotedThen(s, v, space + rest);
  }

  lemma BodyApart(body: string, n: nat)
    requires n < |body| && body[n] == '"'
    ensures body == body[..n] + ("\"" + body[n + 1..])
  {
  }

  lemma QuotedThen(s: string, v: string, after: string)
    requires s != [] && s[0] == '"' && s[1..] == v + ("\"" + after)
    ensures s == Quoted(v) + after
  {
    assert s == "\"" + s[1..];
  }

  lemma PrependValue(v: string, space: string, after: string, vs: seq<string>, gs: seq<Gap>, post: string)
    requires |gs| == |vs| && vs != []
    ensures PrintValues([v] + vs, [Gap(space, after)] + gs) + post
         == Quoted(v) + (space + ("," + (after + (PrintValues(vs, gs) + post))))
  {
    var values, gaps := [v] + vs, [Gap(space, after)] + gs;
    assert values[1..] == vs && gaps[1..] == gs;
  }

  lemma SpaceShorter(s: string)
    ensures |SkipSpace(s)| <= |s|
  {
    var n := SkipLength(s);
  }

  lemma {:induction false} AcceptedValues(s: string, done: seq<string>)
    returns (values: seq<string>, gaps: seq<Gap>, post: string)
    requires ReadValues(s, done).Ok?
    ensures values != [] && |gaps| == |values| && ReadValues(s, done) == Ok(done + values)
      && s == PrintValues(values, gaps) + post
    ensures |done + values| <= MAX_ROWS && (forall v :: v in values ==> IsToken(v))
    ensures forall i :: 0 <= i < |gaps| ==> AllSpace(gaps[i].value) && AllSpace(gaps[i].comma)
    decreases |s|
  {
    var v, space, rest := TakeOne(s, done);
    if rest[0] == ']' {
      values, gaps, post := [v], [Gap(space, "")], rest[1..];
      OnlyValue(v, space, rest);
    } else {
      SpaceShorter(rest[1..]);
      var after := SpaceApart(rest[1..]);
      var next := SkipSpace(rest[1..]);
      var vs, gs;
      vs, gs, post := AcceptedValues(next, done + [v]);
      values, gaps := [v] + vs, [Gap(space, after)] + gs;
      AfterComma(rest, after, next);
      PrependValue(v, space, after, vs, gs, post);
      Regroup(done, [v], vs);
    }
  }

  lemma AfterComma(rest: string, after: string, next: string)
    requires rest != [] && rest[0] == ',' && rest[1..] == after + next
    ensures rest == "," + (after + next)
  {
  }

  lemma OnlyValue(v: string, space: string, rest: string)
    requires rest != [] && rest[0] == ']'
    ensures PrintValues([v], [Gap(space, "")]) + rest[1..] == Quoted(v) + (space + rest)
  {
    assert rest == "]" + rest[1..];
    assert PrintValues([v], [Gap(space, "")]) == Quoted(v) + (space + "]");
  }

  lemma PrintArrayThen(values: seq<string>, l: Layout, post: string)
    requires |l.gaps| == |values|
    ensures PrintArray(values, l) + post
      == l.key + (":" + (l.colon + ("[" + (l.open + (PrintValues(values, l.gaps) + post)))))
  {
    var body := PrintValues(values, l.gaps);
    Regroup(l.open, body, post);
    Regroup("[", l.open + body, post);
    Regroup(l.colon, "[" + (l.open + body), post);
    Regroup(":", l.colon + ("[" + (l.open + body)), post);
    Regroup(l.key, ":" + (l.colon + ("[" + (l.open + body))), post);
  }

  // The punctuation in front of an accepted list.
  lemma ArrayOpens(s: string) returns (a: string, b: string, c: string, first: string)
    requires ReadArray(s).Ok?
    ensures AllSpace(a) && AllSpace(b) && AllSpace(c) && s == a + (":" + (b + ("[" + (c + first))))
    ensures if first != [] && first[0] == ']' then ReadArray(s) == Ok([]) else ReadArray(s) == ReadValues(first, [])
  {
    var colon := SkipSpace(s);
    var open := SkipSpace(colon[1..]);
    a := SpaceApart(s);
    b := SpaceApart(colon[1..]);
    c := SpaceApart(open[1..]);
    first := SkipSpace(open[1..]);
    assert colon == ":" + (b + open);
    assert open == "[" + (c + first);
  }

  lemma AcceptedArray(s: string) returns (l: Layout, post: string)
    requires ReadArray(s).Ok?
    ensures var values := ReadArray(s).value;
            Tokens(values) && LayoutOk(l, |values|) && s == PrintArray(values, l) + post
  {
    var a, b, c, first := ArrayOpens(s);
    if first != [] && first[0] == ']' {
      l, post := Layout(a, b, c, []), first[1..];
      assert first == PrintValues([], []) + post;
      PrintArrayThen([], l, post);
    } else {
      var values, gaps;
      values, gaps, post := AcceptedValues(first, []);
      assert [] + values == values;
      l := Layout(a, b, c, gaps);
      PrintArrayThen(values, l, post);
    }
  }

  // The text holds the quoted key once, and behind it this array in some layout.
  ghost predicate Holds(text: string, key: string, values: seq<string>, pre: string, l: Layout, post: string) {
    && Tokens(values) && LayoutOk(l, |values|)
    && text == pre + (Quoted(key) + (PrintArray(values, l) + post))
    && Find(text, Quoted(key)) == Some(|pre|) && Find(PrintArray(values, l) + post, Quoted(key)).None?
  }

  // The reader returns a list exactly when the text prints it, in any layout, once.
  lemma ArrayFieldIffPrinted(text: string, key: string, values: seq<string>)
    ensures ArrayField(text, key) == Ok(values) <==> exists pre, l, post :: Holds(text, key, values, pre, l, post)
  {
    if ArrayField(text, key) == Ok(values) {
      var pre, l, post := AcceptedField(text, key);
    }
    if pre, l, post :| Holds(text, key, values, pre, l, post) {
      PrintedField(text, key, values, pre, l, post);
    }
  }

  lemma AcceptedField(text: string, key: string) returns (pre: string, l: Layout, post: string)
    requires ArrayField(text, key).Ok?
    ensures Holds(text, key, ArrayField(text, key).value, pre, l, post)
  {
    var needle := Quoted(key);
    var n := Find(text, needle).value;
    FindBounds(text, needle);
    CutAround(text, n, needle);
    l, post := AcceptedBehind(text[n + |needle|..], needle);
    pre := text[..n];
  }

  lemma AcceptedBehind(after: string, needle: string) returns (l: Layout, post: string)
    requires FieldFrom(after, needle).Ok?
    ensures var values := FieldFrom(after, needle).value;
            Tokens(values) && LayoutOk(l, |values|) && after == PrintArray(values, l) + post
    ensures Find(after, needle).None?
  {
    l, post := AcceptedArray(after);
  }

  lemma CutAround(text: string, n: nat, needle: string)
    requires n + |needle| <= |text| && text[n..n + |needle|] == needle
    ensures text == text[..n] + (needle + text[n + |needle|..])
  {
    assert text == text[..n] + text[n..n + |needle|] + text[n + |needle|..];
  }

  lemma PrintedField(text: string, key: string, values: seq<string>, pre: string, l: Layout, post: string)
    requires Holds(text, key, values, pre, l, post)
    ensures ArrayField(text, key) == Ok(values)
  {
    assert text[|pre| + |Quoted(key)|..] == PrintArray(values, l) + post;
    ReadArrayPrinted(values, l, post);
  }

  // ----- The auditor's own layout -----

  // `json.dumps(..., indent=2)` of a list of tokens at the top level of a document.
  function JsonRest(values: seq<string>): string {
    if values == [] then "\n  ]"
    else ",\n    " + (Quoted(values[0]) + JsonRest(values[1..]))
  }

  function JsonArray(values: seq<string>): string {
    if values == [] then ": []"
    else ": [" + ("\n    " + (Quoted(values[0]) + JsonRest(values[1..])))
  }

  function JsonGaps(n: nat): (gaps: seq<Gap>)
    ensures |gaps| == n
  {
    if n == 0 then [] else if n == 1 then [Gap("\n  ", "")] else [Gap("", "\n    ")] + JsonGaps(n - 1)
  }

  lemma {:induction false} JsonIsLayout(values: seq<string>)
    requires values != []
    ensures Quoted(values[0]) + JsonRest(values[1..]) == PrintValues(values, JsonGaps(|values|))
    decreases |values|
  {
    var gaps := JsonGaps(|values|);
    if |values| == 1 {
      assert JsonRest(values[1..]) == "\n  " + "]";
    } else {
      JsonIsLayout(values[1..]);
      assert gaps[1..] == JsonGaps(|values| - 1);
      var more := PrintValues(values[1..], gaps[1..]);
      assert values[1..][0] == values[1] && values[1..][1..] == values[2..];
      assert JsonRest(values[1..]) == ",\n    " + more;
      assert ",\n    " + more == "" + ("," + ("\n    " + more));
    }
  }

  lemma {:induction false} JsonGapsSpace(n: nat, i: nat)
    requires i < n
    ensures AllSpace(JsonGaps(n)[i].value) && AllSpace(JsonGaps(n)[i].comma)
    decreases n
  {
    if n > 1 && i > 0 { JsonGapsSpace(n - 1, i - 1); }
  }

  // What the auditor prints, the build script reads back.
  lemma JsonArrayIsRead(values: seq<string>, post: string)
    requires Tokens(values)
    ensures ReadArray(JsonArray(values) + post) == Ok(values)
  {
    if values == [] {
      var l := Layout("", " ", "", []);
      assert PrintArray([], l) == JsonArray([]);
      ReadArrayPrinted([], l, post);
    } else {
      var l := Layout("", " ", "\n    ", JsonGaps(|values|));
      JsonIsLayout(values);
      assert PrintArray(values, l) == JsonArray(values);
      forall i | 0 <= i < |values| ensures AllSpace(l.gaps[i].value) && AllSpace(l.gaps[i].comma) {
        JsonGapsSpace(|values|, i);
      }
      ReadArrayPrinted(values, l, post);
    }
  }

  // ----- The whole document -----

  predicate Mentions(s: string, key: string) {
    Find(s, Quoted(key)).Some?
  }

  // A quoted key starts at a quote, so text without quotes in front adds no mention.
  lemma {:induction false} PlainFront(a: string, rest: string, key: string)
    requires '"' !in a
    ensures Mentions(a + rest, key) <==> Mentions(rest, key)
    decreases |a|
  {
    if a == [] {
      assert a + rest == rest;
    } else {
      assert (a + rest)[1..] == a[1..] + rest && (a + rest)[0] == a[0];
      PlainFront(a[1..], rest, key);
    }
  }

  lemma NoQuote(token: string)
    requires IsToken(token)
    ensures '"' !in token
  {
  }

  // Two tokens in quotes at one place are the same token.
  lemma SameToken(v: string, rest: string, key: string)
    requires IsToken(v) && IsToken(key)
    ensures Quoted(key) <= Quoted(v) + rest <==> key == v
  {
    if Quoted(key) <= Quoted(v) + rest { PrefixToken(v, rest, key); }
  }

  lemma PrefixToken(v: string, rest: string, key: string)
    requires IsToken(v) && IsToken(key) && Quoted(key) <= Quoted(v) + rest
    ensures key == v
  {
    var s := Quoted(v) + rest;
    assert forall i :: 0 <= i < |key| ==> s[i + 1] == Quoted(key)[i + 1] == key[i] && IsTokenChar(s[i + 1]);
    assert forall i :: 0 <= i < |v| ==> s[i + 1] == v[i] && IsTokenChar(s[i + 1]);
    assert s[|v| + 1] == '"' && s[|key| + 1] == Quoted(key)[|key| + 1] == '"';
    assert |key| == |v|;
    assert key == s[1..|key| + 1] == v;
  }

  lemma QuotedFront(v: string, rest: string, key: string)
    requires IsToken(v) && IsToken(key) && rest != [] && !IsTokenChar(rest[0])
    ensures Mentions(Quoted(v) + rest, key) <==> v == key || Mentions(rest, key)
  {
    var s, close := Quoted(v) + rest, "\"" + rest;
    SameToken(v, rest, key);
    NoQuote(v);
    assert s[1..] == v + close;
    PlainFront(v, close, key);
    assert close[1..] == rest && close[1] == rest[0];
    assert Quoted(key)[1] == key[0] && IsTokenChar(key[0]);
  }

  lemma {:induction false} JsonRestMentions(values: seq<string>, post: string, key: string)
    requires IsToken(key) && forall v :: v in values ==> IsToken(v)
    ensures Mentions(JsonRest(values) + post, key) <==> key in values || Mentions(post, key)
    decreases |values|
  {
    if values == [] {
      PlainFront("\n  ]", post, key);
    } else {
      var more := JsonRest(values[1..]) + post;
      assert values[0] in values && values == [values[0]] + values[1..];
      Regroup(Quoted(values[0]), JsonRest(values[1..]), post);
      Regroup(",\n    ", Quoted(values[0]) + JsonRest(values[1..]), post);
      PlainFront(",\n    ", Quoted(values[0]) + more, key);
      QuotedFront(values[0], more, key);
      JsonRestMentions(values[1..], post, key);
    }
  }

  lemma JsonArrayMentions(values: seq<string>, post: string, key: string)
    requires IsToken(key) && forall v :: v in values ==> IsToken(v)
    ensures Mentions(JsonArray(values) + post, key) <==> key in values || Mentions(post, key)
  {
    if values == [] {
      PlainFront(": []", post, key);
    } else {
      var more := JsonRest(values[1..]) + post;
      assert values[0] in values && values == [values[0]] + values[1..];
      assert JsonArray(values) + post == ": [\n    " + (Quoted(values[0]) + more);
      PlainFront(": [\n    ", Quoted(values[0]) + more, key);
      QuotedFront(values[0], more, key);
      JsonRestMentions(values[1..], post, key);
    }
  }

  // A field of the document the auditor writes, between whatever stands before and after it.
  function Document(pre: string, key: string, values: seq<string>, post: string): string {
    pre + (Quoted(key) + (JsonArray(values) + post))
  }

  lemma {:induction false} FindOccurs(s: string, needle: string, k: nat)
    requires k <= |s| && needle <= s[k..]
    ensures Find(s, needle).Some? && Find(s, needle).value <= k
    decreases |s|
  {
    if !(needle <= s) {
      assert k > 0;
      assert s[1..][k - 1..] == s[k..];
      FindOccurs(s[1..], needle, k - 1);
    }
  }

  // A token in quotes, as a piece of text.
  predicate IsQuoted(q: string) {
    |q| >= 3 && q[0] == '"' && q[|q| - 1] == '"' && forall i :: 1 <= i < |q| - 1 ==> IsTokenChar(q[i])
  }

  lemma QuotedToken(key: string)
    requires IsToken(key)
    ensures IsQuoted(Quoted(key))
  {
    forall i | 1 <= i < |Quoted(key)| - 1 ensures IsTokenChar(Quoted(key)[i]) { assert Quoted(key)[i] == key[i - 1]; }
  }

  predicate OccursAt(text: string, q: string, p: nat) {
    p + |q| <= |text| && text[p..p + |q|] == q
  }

  lemma OccursInFront(text: string, q: string, p: nat)
    requires OccursAt(text, q, p)
    ensures q <= text[p..]
  {
    assert text[p..][..|q|] == text[p..p + |q|];
  }

  lemma FirstAtMost(text: string, q: string, p: nat)
    requires OccursAt(text, q, p)
    ensures Find(text, q).Some? && Find(text, q).value <= p
  {
    OccursInFront(text, q, p);
    FindOccurs(text, q, p);
  }

  lemma Placed(pre: string, q: string, after: string)
    ensures OccursAt(pre + (q + after), q, |pre|) && (pre + (q + after))[|pre| + |q|..] == after
  {
  }

  // A second mention behind the first, or overlapping it in a quote, makes the field unreadable.
  lemma SecondMentionFails(text: string, q: string, n: nat, p: nat)
    requires IsQuoted(q) && Find(text, q) == Some(n) && n < p && OccursAt(text, q, p)
    ensures FieldBehind(text, q).Err?
  {
    if p >= n + |q| { FarMentionFails(text, q, n, p); } else { NearMentionFails(text, q, n, p); }
  }

  lemma FarMentionFails(text: string, q: string, n: nat, p: nat)
    requires Find(text, q) == Some(n) && n + |q| <= p && OccursAt(text, q, p)
    ensures FieldBehind(text, q) == Err(RepeatedField)
  {
    FoundBehind(text, q, n + |q|, p);
    Repeats(text, q, n, text[n + |q|..]);
  }

  lemma FoundBehind(text: string, q: string, cursor: nat, p: nat)
    requires cursor <= p && OccursAt(text, q, p)
    ensures Find(text[cursor..], q).Some?
  {
    DropDrop(text, cursor, p - cursor);
    OccursInFront(text, q, p);
    FindOccurs(text[cursor..], q, p - cursor);
  }

  lemma Repeats(text: string, q: string, n: nat, after: string)
    requires Find(text, q) == Some(n) && after == text[n + |q|..] && Find(after, q).Some?
    ensures FieldBehind(text, q) == Err(RepeatedField)
  {
  }

  lemma NearMentionFails(text: string, q: string, n: nat, p: nat)
    requires IsQuoted(q) && Find(text, q) == Some(n) && n < p < n + |q| && OccursAt(text, q, p)
    ensures FieldBehind(text, q).Err?
  {
    FindBounds(text, q);
    OverlapIsQuote(text, q, n, p);
    NoArray(text[n + |q|..]);
  }

  lemma OverlapIsQuote(text: string, q: string, n: nat, p: nat)
    requires IsQuoted(q) && n < p < n + |q| && OccursAt(text, q, n) && OccursAt(text, q, p)
    ensures n + |q| < |text| && IsTokenChar(text[n + |q|])
  {
    assert text[p] == text[p..p + |q|][0] == q[0];
    assert text[p] == text[n..n + |q|][p - n] == q[p - n];
    assert p == n + |q| - 1;
    assert text[p + 1] == text[p..p + |q|][1] == q[1];
  }

  lemma EarlierMentionFails(text: string, q: string, p: nat)
    requires IsQuoted(q) && OccursAt(text, q, p) && Find(text, q) != Some(p)
    ensures FieldBehind(text, q).Err?
  {
    FirstAtMost(text, q, p);
    SecondMentionFails(text, q, Find(text, q).value, p);
  }

  lemma OnlyMentionIsRead(text: string, q: string, n: nat, after: string, values: seq<string>)
    requires Find(text, q) == Some(n) && text[n + |q|..] == after && ReadArray(after) == Ok(values)
    ensures FieldBehind(text, q) == if Find(after, q).Some? then Err(RepeatedField) else Ok(values)
  {
  }

  lemma NoArray(s: string)
    requires s != [] && IsTokenChar(s[0])
    ensures ReadArray(s).Err?
  {
  }

  // The build script reads a field of the auditor's document back exactly when that document mentions its key in
  // quotes once: not before it, not among its own rows, not behind it.
  lemma DocumentIsReadIff(pre: string, key: string, values: seq<string>, post: string)
    requires IsToken(key)
    ensures var text := Document(pre, key, values, post);
            ArrayField(text, key) == Ok(values)
            <==> Tokens(values) && Find(text, Quoted(key)) == Some(|pre|) && key !in values && !Mentions(post, key)
  {
    Placed(pre, Quoted(key), JsonArray(values) + post);
    PlacedIsReadIff(Document(pre, key, values, post), key, |pre|, values, post);
  }

  lemma PlacedIsReadIff(text: string, key: string, p: nat, values: seq<string>, post: string)
    requires IsToken(key) && OccursAt(text, Quoted(key), p)
    requires text[p + |Quoted(key)|..] == JsonArray(values) + post
    ensures ArrayField(text, key) == Ok(values)
       <==> Tokens(values) && Find(text, Quoted(key)) == Some(p) && key !in values && !Mentions(post, key)
  {
    QuotedToken(key);
    if !Tokens(values) {
      if ArrayField(text, key) == Ok(values) { var before, l, behind := AcceptedField(text, key); }
    } else if Find(text, Quoted(key)) == Some(p) {
      JsonArrayMentions(values, post, key);
      JsonArrayIsRead(values, post);
      OnlyMentionIsRead(text, Quoted(key), p, JsonArray(values) + post, values);
    } else {
      EarlierMentionFails(text, Quoted(key), p);
    }
  }

  // A row named like the field itself makes the field unreadable.
  lemma RowNamedLikeItsField()
    ensures ArrayField(Document("", REQUIRED_GATES, [REQUIRED_GATES], ""), REQUIRED_GATES) == Err(RepeatedField)
  {
    GatesIsToken();
    RowMakesRepeated(REQUIRED_GATES);
  }

  const REQUIRED_GATES := "requiredGates"

  lemma GatesIsToken()
    ensures IsToken(REQUIRED_GATES)
  {
  }

  lemma RowMakesRepeated(key: string)
    requires IsToken(key)
    ensures ArrayField(Document("", key, [key], ""), key) == Err(RepeatedField)
  {
    var text := Document("", key, [key], "");
    assert [key][0] == key;
    JsonArrayMentions([key], "", key);
    assert text[|Quoted(key)|..] == JsonArray([key]) + "";
  }

  // ----- What is refused, and why -----

  // The characters, by number: digits, letters, underscore and hyphen; and ASCII white space.
  lemma Alphabet(c: char)
    ensures var n := c as int;
            IsTokenChar(c) <==> 48 <= n <= 57 || 65 <= n <= 90 || 97 <= n <= 122 || n == 95 || n == 45
    ensures IsSpace(c) <==> c as int in {9, 10, 12, 13, 32}
  {
  }

  // Values read so far, each with its comma, in front of what comes next.
  function PrintOpen(values: seq<string>, gaps: seq<Gap>): string
    requires |gaps| == |values|
  {
    if values == [] then ""
    else Quoted(values[0]) + (gaps[0].value + ("," + (gaps[0].comma + PrintOpen(values[1..], gaps[1..]))))
  }

  lemma OpenThen(values: seq<string>, gaps: seq<Gap>, tail: string)
    requires |gaps| == |values| && values != []
    ensures PrintOpen(values, gaps) + tail
      == Quoted(values[0]) + (gaps[0].value + ("," + (gaps[0].comma + (PrintOpen(values[1..], gaps[1..]) + tail))))
  {
  }

  lemma OpenStarts(values: seq<string>, gaps: seq<Gap>, tail: string)
    requires |gaps| == |values| && (tail == [] || (!IsSpace(tail[0]) && tail[0] != ']'))
    ensures var s := PrintOpen(values, gaps) + tail; s == [] || (!IsSpace(s[0]) && s[0] != ']')
  {
    if values != [] { OpenThen(values, gaps, tail); } else { assert PrintOpen(values, gaps) + tail == tail; }
  }

  // The values in front of a fault are read; what is said about the list is said about the rest of it.
  lemma {:induction false} ReadUpTo(s: string, values: seq<string>, gaps: seq<Gap>, tail: string, done: seq<string>,
                                    all: seq<string>)
    requires |gaps| == |values| && |done| + |values| <= MAX_ROWS && (forall v :: v in values ==> IsToken(v))
    requires forall g :: g in gaps ==> AllSpace(g.value) && AllSpace(g.comma)
    requires tail == [] || (!IsSpace(tail[0]) && tail[0] != ']')
    requires s == PrintOpen(values, gaps) + tail && all == done + values
    ensures ReadValues(s, done) == ReadValues(tail, all)
    decreases |values|
  {
    if values == [] {
      assert s == tail && all == done;
    } else {
      var more := PrintOpen(values[1..], gaps[1..]) + tail;
      assert values[0] in values && gaps[0] in gaps;
      OpenThen(values, gaps, tail);
      OpenStarts(values[1..], gaps[1..], tail);
      ReadPast(s, values[0], gaps[0], more, done);
      ReadUpTo(more, values[1..], gaps[1..], tail, done + [values[0]], all);
    }
  }

  lemma ReadPast(s: string, v: string, g: Gap, more: string, done: seq<string>)
    requires IsToken(v) && |done| < MAX_ROWS && AllSpace(g.value) && AllSpace(g.comma)
    requires more == [] || (!IsSpace(more[0]) && more[0] != ']')
    requires s == Quoted(v) + (g.value + ("," + (g.comma + more)))
    ensures ReadValues(s, done) == ReadValues(more, done + [v])
  {
    assert ("," + (g.comma + more))[1..] == g.comma + more;
    SkipsSpace(g.comma, more);
    ReadOne(v, g.value, "," + (g.comma + more), done);
  }

  // What may be wrong where a value is expected.
  datatype Wrong =
    | NoQuote(tail: string)
    | BadCharacter(token: string, c: char, rest: string)
    | NoEnd(token: string)
    | EmptyValue(rest: string)
    | OneTooMany(token: string, rest: string)
    | NoDelimiter(token: string, space: string, rest: string)
    | CommaLast(token: string, space: string, more: string, rest: string)

  function TextOf(w: Wrong): string {
    match w
    case NoQuote(tail) => tail
    case BadCharacter(token, c, rest) => "\"" + (token + ([c] + rest))
    case NoEnd(token) => "\"" + token
    case EmptyValue(rest) => "\"\"" + rest
    case OneTooMany(token, rest) => Quoted(token) + rest
    case NoDelimiter(token, space, rest) => Quoted(token) + (space + rest)
    case CommaLast(token, space, more, rest) => Quoted(token) + (space + ("," + (more + ("]" + rest))))
  }

  // It is wrong in this way behind `count` values.
  ghost predicate IsWrong(w: Wrong, count: nat) {
    match w
    case NoQuote(tail) => tail == [] || tail[0] != '"'
    case BadCharacter(token, c, _) => AllTokenChars(token) && !IsTokenChar(c) && c != '"'
    case NoEnd(token) => AllTokenChars(token)
    case EmptyValue(_) => true
    case OneTooMany(token, _) => IsToken(token) && count == MAX_ROWS
    case NoDelimiter(token, space, rest) =>
      && IsToken(token) && AllSpace(space) && count < MAX_ROWS
      && (rest == [] || (!IsSpace(rest[0]) && rest[0] != ',' && rest[0] != ']'))
    case CommaLast(token, space, more, _) => IsToken(token) && AllSpace(space) && AllSpace(more) && count < MAX_ROWS
  }

  function Complaint(w: Wrong): ReadError {
    match w
    case NoQuote(_) => BadShape
    case BadCharacter(_, _, _) => NonToken
    case NoEnd(_) => EmptyOrUnterminated
    case EmptyValue(_) => EmptyOrUnterminated
    case OneTooMany(_, _) => TooManyRows
    case NoDelimiter(_, _, _) => NotCommaDelimited
    case CommaLast(_, _, _, _) => TrailingComma
  }

  ghost predicate AllTokenChars(s: string) {
    forall i :: 0 <= i < |s| ==> IsTokenChar(s[i])
  }

  lemma {:induction false} TokenStops(token: string, rest: string)
    requires AllTokenChars(token) && (rest == [] || (!IsTokenChar(rest[0]) && rest[0] != '"'))
    ensures TokenLength(token + rest) == if rest == [] then Some(|token|) else None
    decreases |token|
  {
    if token == [] {
      assert token + rest == rest;
    } else {
      assert (token + rest)[0] == token[0] && (token + rest)[1..] == token[1..] + rest;
      TokenStops(token[1..], rest);
    }
  }

  lemma BadValue(w: Wrong, done: seq<string>)
    requires IsWrong(w, |done|) && (w.NoQuote? || w.BadCharacter? || w.NoEnd? || w.EmptyValue?)
    ensures ReadValues(TextOf(w), done) == Err(Complaint(w))
  {
    var s := TextOf(w);
    match w
    case NoQuote(tail) =>
    case BadCharacter(token, c, rest) =>
      assert s[1..] == token + ([c] + rest);
      TokenStops(token, [c] + rest);
    case NoEnd(token) =>
      assert s[1..] == token && token + [] == token;
      TokenStops(token, []);
    case EmptyValue(rest) =>
      assert s[1..] == "\"" + rest;
  }

  lemma QuotedValue(s: string, token: string, rest: string, done: seq<string>)
    requires IsToken(token) && s == Quoted(token) + rest
    ensures ReadValues(s, done)
         == if |done| + 1 > MAX_ROWS then Err(TooManyRows) else ReadRest(SkipSpace(rest), done + [token])
  {
    var body := token + ("\"" + rest);
    assert s == "\"" + body && s[1..] == body;
    TokenLengthAt(token, rest);
    assert body[..|token|] == token && body[|token| + 1..] == rest;
    ReadFirst(s, done, body, |token|);
  }

  lemma BadDelimiter(w: Wrong, done: seq<string>)
    requires IsWrong(w, |done|) && (w.OneTooMany? || w.NoDelimiter? || w.CommaLast?)
    ensures ReadValues(TextOf(w), done) == Err(Complaint(w))
  {
    match w
    case OneTooMany(token, rest) => QuotedValue(TextOf(w), token, rest, done);
    case NoDelimiter(token, space, rest) =>
      QuotedValue(TextOf(w), token, space + rest, done);
      SkipsSpace(space, rest);
    case CommaLast(token, space, more, rest) =>
      var comma := "," + (more + ("]" + rest));
      QuotedValue(TextOf(w), token, space + comma, done);
      SkipsSpace(space, comma);
      assert comma[1..] == more + ("]" + rest);
      SkipsSpace(more, "]" + rest);
  }

  // Behind any readable values, what is wrong next is what the reader complains of.
  lemma ComplaintFits(values: seq<string>, gaps: seq<Gap>, w: Wrong)
    requires |gaps| == |values| && Tokens(values) && IsWrong(w, |values|)
    requires forall g :: g in gaps ==> AllSpace(g.value) && AllSpace(g.comma)
    requires w.NoQuote? ==> w.tail == [] || (!IsSpace(w.tail[0]) && w.tail[0] != ']')
    ensures ReadValues(PrintOpen(values, gaps) + TextOf(w), []) == Err(Complaint(w))
  {
    ReadUpTo(PrintOpen(values, gaps) + TextOf(w), values, gaps, TextOf(w), [], values);
    if w.OneTooMany? || w.NoDelimiter? || w.CommaLast? { BadDelimiter(w, values); } else { BadValue(w, values); }
  }

  // Sixty-four rows are read; the sixty-fifth is one too many.
  lemma RowLimit(values: seq<string>, gaps: seq<Gap>, token: string, post: string)
    requires |gaps| == |values| == 64 && IsToken(token) && forall v :: v in values ==> IsToken(v)
    requires forall g :: g in gaps ==> AllSpace(g.value) && AllSpace(g.comma)
    ensures ReadValues(PrintValues(values, gaps) + post, []) == Ok(values)
    ensures ReadValues(PrintOpen(values, gaps) + (Quoted(token) + post), []) == Err(TooManyRows)
  {
    ReadPrinted(values, gaps, post, []);
    assert [] + values == values;
    ComplaintFits(values, gaps, OneTooMany(token, post));
  }

  // ----- The reader as it runs, moving a cursor over the text -----

  method SkipAsciiWhitespace(text: string, cursor: nat) returns (next: nat)
    requires cursor <= |text|
    ensures cursor <= next <= |text| && text[next..] == SkipSpace(text[cursor..])
  {
    next := cursor;
    while next < |text| && IsSpace(text[next])
      invariant cursor <= next <= |text| && SkipSpace(text[next..]) == SkipSpace(text[cursor..])
    {
      assert text[next..][1..] == text[next + 1..];
      next := next + 1;
    }
  }

  method RequireByte(text: string, cursor: nat, expected: char) returns (r: Result<nat, ReadError>)
    requires cursor <= |text|
    ensures r == if text[cursor..] != [] && text[cursor..][0] == expected then Ok(cursor + 1) else Err(BadShape)
  {
    if cursor >= |text| || text[cursor] != expected {
      return Err(BadShape);
    }
    return Ok(cursor + 1);
  }

  method TakeToken(text: string, start: nat) returns (r: Result<nat, ReadError>)
    requires start <= |text|
    ensures var body := text[start..];
            match TokenLength(body)
            case None => r == Err(NonToken)
            case Some(n) => r == if n >= |body| || n == 0 then Err(EmptyOrUnterminated) else Ok(start + n)
  {
    var cursor := start;
    ghost var goal := TokenLength(text[start..]);
    while cursor < |text|
      invariant start <= cursor <= |text|
      invariant goal == match TokenLength(text[cursor..]) case Some(n) => Some(cursor - start + n) case None => None
    {
      if text[cursor] == '"' {
        break;
      }
      if !IsTokenChar(text[cursor]) {
        return Err(NonToken);
      }
      assert text[cursor..][1..] == text[cursor + 1..];
      cursor := cursor + 1;
    }
    if cursor >= |text| || cursor == start {
      return Err(EmptyOrUnterminated);
    }
    return Ok(cursor);
  }

  // What the reader does after one value: stop, fail, or go on at `next`.
  datatype Turn = Done | Failed(error: ReadError) | More(next: nat)

  predicate Closes(s: string) {
    s != [] && s[0] == ']'
  }

  // The turn is right for what follows the value, and `next` is where it goes on.
  ghost predicate Follows(rest: string, turn: Turn, next: string) {
    match turn
    case Done => Closes(rest)
    case Failed(e) =>
      if rest != [] && rest[0] == ',' then e == TrailingComma && Closes(SkipSpace(rest[1..]))
      else e == NotCommaDelimited && !Closes(rest)
    case More(_) => rest != [] && rest[0] == ',' && next == SkipSpace(rest[1..]) && !Closes(next)
  }

  method AfterValue(text: string, cursor: nat) returns (turn: Turn)
    requires cursor <= |text|
    ensures turn.More? ==> cursor < turn.next <= |text|
    ensures Follows(SkipSpace(text[cursor..]), turn, if turn.More? then text[turn.next..] else [])
  {
    var at := SkipAsciiWhitespace(text, cursor);
    ghost var rest := text[at..];
    if at < |text| && text[at] == ']' {
      return Done;
    }
    if at < |text| && text[at] == ',' {
      assert rest[1..] == text[at + 1..];
      var next := SkipAsciiWhitespace(text, at + 1);
      if next < |text| && text[next] == ']' {
        return Failed(TrailingComma);
      }
      return More(next);
    }
    return Failed(NotCommaDelimited);
  }

  lemma ValueAt(text: string, start: nat, end: nat)
    requires start <= end < |text|
    ensures text[start..][..end - start] == text[start..end] && text[start..][end - start + 1..] == text[end + 1..]
  {
  }

  // What follows a value that was read.
  function ReadRest(rest: string, values: seq<string>): Result<seq<string>, ReadError> {
    if rest != [] && rest[0] == ']' then Ok(values)
    else if rest != [] && rest[0] == ',' then
      var next := SkipSpace(rest[1..]);
      if next != [] && next[0] == ']' then Err(TrailingComma) else ReadValues(next, values)
    else Err(NotCommaDelimited)
  }

  lemma ReadFirst(s: string, done: seq<string>, body: string, n: nat)
    requires s != [] && s[0] == '"' && body == s[1..] && TokenLength(body) == Some(n) && 0 < n < |body|
    ensures ReadValues(s, done)
         == var values := done + [body[..n]];
            if |values| > MAX_ROWS then Err(TooManyRows) else ReadRest(SkipSpace(body[n + 1..]), values)
  {
  }

  // One turn of the loop: the whole answer, or where to go on with the values so far.
  datatype Reading = Answer(r: Result<seq<string>, ReadError>) | Onward(next: nat, values: seq<string>)

  // The reading leads to this result in the end.
  ghost predicate LeadsTo(text: string, cursor: nat, reading: Reading, result: Result<seq<string>, ReadError>) {
    match reading
    case Answer(r) => result == r
    case Onward(next, values) => cursor < next <= |text| && result == ReadValues(text[next..], values)
  }

  method ReadValueAt(text: string, cursor: nat, done: seq<string>) returns (reading: Reading)
    requires cursor <= |text|
    ensures LeadsTo(text, cursor, reading, ReadValues(text[cursor..], done))
  {
    var quote := RequireByte(text, cursor, '"');
    if quote.Err? { return Answer(Err(quote.error)); }
    DropDrop(text, cursor, 1);
    var end := TakeToken(text, quote.value);
    if end.Err? { return Answer(Err(end.error)); }
    var value := text[quote.value..end.value];
    ValueAt(text, quote.value, end.value);
    ReadFirst(text[cursor..], done, text[quote.value..], end.value - quote.value);
    var values := done + [value];
    if |values| > MAX_ROWS { return Answer(Err(TooManyRows)); }
    reading := ReadOn(text, end.value + 1, values);
  }

  method ReadOn(text: string, cursor: nat, values: seq<string>) returns (reading: Reading)
    requires cursor <= |text|
    ensures LeadsTo(text, cursor, reading, ReadRest(SkipSpace(text[cursor..]), values))
  {
    var turn := AfterValue(text, cursor);
    match turn
    case Done => return Answer(Ok(values));
    case Failed(e) => return Answer(Err(e));
    case More(next) => return Onward(next, values);
  }

  method ReadValuesAt(text: string, start: nat) returns (r: Result<seq<string>, ReadError>)
    requires start <= |text|
    ensures r == ReadValues(text[start..], [])
  {
    var reading := Onward(start, []);
    while reading.Onward?
      invariant match reading
                case Answer(r) => ReadValues(text[start..], []) == r
                case Onward(next, values) =>
                  next <= |text| && ReadValues(text[start..], []) == ReadValues(text[next..], values)
      decreases reading.Onward?, if reading.Onward? then |text| - reading.next else 0
    {
      reading := ReadValueAt(text, reading.next, reading.values);
    }
    return reading.r;
  }

  method ReadArrayAt(text: string, start: nat) returns (r: Result<seq<string>, ReadError>)
    requires start <= |text|
    ensures r == ReadArray(text[start..])
  {
    var cursor := SkipAsciiWhitespace(text, start);
    var byte := RequireByte(text, cursor, ':');
    if byte.Err? { return Err(byte.error); }
    assert text[cursor..][1..] == text[cursor + 1..];
    cursor := SkipAsciiWhitespace(text, byte.value);
    byte := RequireByte(text, cursor, '[');
    if byte.Err? { return Err(byte.error); }
    assert text[cursor..][1..] == text[cursor + 1..];
    cursor := SkipAsciiWhitespace(text, byte.value);
    if cursor < |text| && text[cursor] == ']' {
      return Ok([]);
    }
    r := ReadValuesAt(text, cursor);
  }

  // `string_array_field`.
  method StringArrayField(text: string, key: string) returns (r: Result<seq<string>, ReadError>)
    ensures r == ArrayField(text, key)
    ensures r.Ok? ==> Tokens(r.value)
  {
    var needle := Quoted(key);
    var found := Find(text, needle);
    if found.None? { return Err(NoField); }
    FindBounds(text, needle);
    var cursor := found.value + |needle|;
    if Find(text[cursor..], needle).Some? { return Err(RepeatedField); }
    r := ReadArrayAt(text, cursor);
    if r.Ok? { var l, post := AcceptedArray(text[cursor..]); }
  }
}
