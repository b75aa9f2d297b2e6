/** The `cfg` predicate parser over tokens, and the concrete syntax it accepts. */
module CfgParser {
  import opened Outcomes
  import opened CfgTree
  import opened Sequences

  predicate IsPunctuation(t: Token) {
    t in {LParen, RParen, Comma, Equals}
  }

  // What a name applied to parsed arguments stands for; `not` takes exactly one.
  function Combine(name: string, args: seq<Tree>): Option<Tree> {
    if name == "not" then if |args| == 1 then Some(Not(args[0])) else None
    else if name == "all" then Some(All(args))
    else if name == "any" then Some(Any(args))
    else Some(Atom(Call(name, args)))
  }

  // `_cfg_parse`: the node at `pos` and where it ends; no node when the text is malformed.
  function ParseNode(ts: seq<Token>, pos: nat): (r: (Option<Tree>, nat))
    requires pos <= |ts|
    ensures pos <= r.1 <= |ts| && (r.0.Some? ==> pos < r.1)
    decreases |ts| - pos, 1
  {
    if pos >= |ts| || !ts[pos].Ident? then (None, pos)
    else
      var name, p := ts[pos].name, pos + 1;
      if p < |ts| && ts[p] == Equals then
        if p + 1 >= |ts| || IsPunctuation(ts[p + 1]) then (None, p + 1)
        else (Some(Atom(KeyValue(name, ts[p + 1]))), p + 2)
      else if p >= |ts| || ts[p] != LParen then (Some(Atom(Plain(name))), p)
      else if p + 1 < |ts| && ts[p + 1] == RParen then (Combine(name, []), p + 2)
      else
        var (args, q) := ParseArgs(ts, p + 1, []);
        (if args.None? then None else Combine(name, args.value), q)
  }

  // The loop over the arguments, up to and including the closing parenthesis.
  function ParseArgs(ts: seq<Token>, pos: nat, done: seq<Tree>): (r: (Option<seq<Tree>>, nat))
    requires pos <= |ts|
    ensures pos <= r.1 <= |ts|
    decreases |ts| - pos, 2
  {
    if pos >= |ts| then (None, pos)
    else
      var (child, p) := ParseNode(ts, pos);
      if child.None? then (None, p)
      else
        var args := done + [child.value];
        if p >= |ts| then (None, p)
        else if ts[p] == RParen then (Some(args), p + 1)
        else if ts[p] != Comma then (None, p)
        else if p + 1 >= |ts| then (None, p + 1)
        else if ts[p + 1] == RParen then (Some(args), p + 2)
        else ParseArgs(ts, p + 1, args)
  }

  // The parser as it runs: recursion for a child, a loop for the argument list.
  method Parse(ts: seq<Token>, start: nat) returns (node: Option<Tree>, pos: nat)
    requires start <= |ts|
    ensures (node, pos) == ParseNode(ts, start)
    decreases |ts| - start
  {
    pos := start;
    if pos >= |ts| || !ts[pos].Ident? {
      return None, pos;
    }
    var name := ts[pos].name;
    pos := pos + 1;
    if pos < |ts| && ts[pos] == Equals {
      pos := pos + 1;
      if pos >= |ts| || IsPunctuation(ts[pos]) {
        return None, pos;
      }
      return Some(Atom(KeyValue(name, ts[pos]))), pos + 1;
    }
    if pos >= |ts| || ts[pos] != LParen {
      return Some(Atom(Plain(name))), pos;
    }
    pos := pos + 1;
    var children: seq<Tree> := [];
    if pos < |ts| && ts[pos] == RParen {
      pos := pos + 1;
    } else {
      ghost var goal := ParseArgs(ts, pos, []);
      var closed := false;
      while pos < |ts|
        invariant start < pos <= |ts| && !closed
        invariant ParseArgs(ts, pos, children) == goal
      {
        var child;
        child, pos := Parse(ts, pos);
        if child.None? {
          return None, pos;
        }
        children := children + [child.value];
        if pos >= |ts| {
          return None, pos;
        }
        if ts[pos] == RParen {
          pos := pos + 1;
          closed := true;
          break;
        }
        if ts[pos] != Comma {
          return None, pos;
        }
        pos := pos + 1;
        if pos >= |ts| {
          return None, pos;
        }
        if ts[pos] == RParen {
          pos := pos + 1;
          closed := true;
          break;
        }
      }
      if !closed {
        return None, pos;
      }
    }
    return Combine(name, children), pos;
  }

  // ----- Concrete syntax -----

  // What may be written: a name, a key with a value, or a group with an optional trailing comma.
  datatype Syntax = Name(name: string) | Pair(name: string, value: Token)
                  | Group(name: string, args: seq<Syntax>, trailing: bool)

  predicate Legal(s: Syntax)
    decreases s, 1
  {
    match s
    case Name(_) => true
    case Pair(_, value) => !IsPunctuation(value)
    case Group(name, args, trailing) =>
      LegalEach(args) && (trailing ==> args != []) && (name == "not" ==> |args| == 1)
  }

  predicate LegalEach(args: seq<Syntax>)
    decreases args, 0
  {
    args == [] || (Legal(args[0]) && LegalEach(args[1..]))
  }

  function Print(s: Syntax): (ts: seq<Token>)
    ensures ts != [] && ts[0].Ident?
    decreases s, 1
  {
    match s
    case Name(name) => [Ident(name)]
    case Pair(name, value) => [Ident(name), Equals, value]
    case Group(name, args, trailing) =>
      [Ident(name)] + ([LParen] + PrintArgs(args, trailing))
  }

  // Arguments separated by commas, up to and including the closing parenthesis.
  function PrintArgs(args: seq<Syntax>, trailing: bool): (ts: seq<Token>)
    ensures ts != [] && (args == [] <==> ts == [RParen]) && (args != [] ==> ts[0].Ident?)
    decreases args, 0
  {
    if args == [] then [RParen]
    else if |args| == 1 then Print(args[0]) + if trailing then [Comma, RParen] else [RParen]
    else Print(args[0]) + ([Comma] + PrintArgs(args[1..], trailing))
  }

  // The tree a piece of syntax denotes.
  function Meaning(s: Syntax): Tree
    requires Legal(s)
    decreases s, 1
  {
    match s
    case Name(name) => Atom(Plain(name))
    case Pair(name, value) => Atom(KeyValue(name, value))
    case Group(name, args, _) =>
      var trees := MeaningEach(args);
      if name == "not" then Not(Meaning(args[0]))
      else if name == "all" then All(trees)
      else if name == "any" then Any(trees)
      else Atom(Call(name, trees))
  }

  function MeaningEach(args: seq<Syntax>): (trees: seq<Tree>)
    requires LegalEach(args)
    ensures |trees| == |args|
    decreases args, 0
  {
    if args == [] then [] else [Meaning(args[0])] + MeaningEach(args[1..])
  }

  lemma CombineMeaning(s: Syntax)
    requires s.Group? && Legal(s)
    ensures Combine(s.name, MeaningEach(s.args)) == Some(Meaning(s))
  {
  }

  // A name may not be followed by `=` or `(`, or it would not be a name.
  ghost predicate Ends(ts: seq<Token>, pos: nat) {
    pos >= |ts| || (ts[pos] != Equals && ts[pos] != LParen)
  }

  ghost predicate At(ts: seq<Token>, pos: nat, part: seq<Token>) {
    pos + |part| <= |ts| && ts[pos..pos + |part|] == part
  }

  lemma AtSplit(ts: seq<Token>, pos: nat, a: seq<Token>, b: seq<Token>)
    requires At(ts, pos, a + b)
    ensures At(ts, pos, a) && At(ts, pos + |a|, b)
  {
    var whole := ts[pos..pos + |a + b|];
    assert whole[..|a|] == a && whole[|a|..] == b;
    assert ts[pos..pos + |a|] == whole[..|a|];
    assert ts[pos + |a|..pos + |a| + |b|] == whole[|a|..];
  }

  lemma AtFirst(ts: seq<Token>, pos: nat, part: seq<Token>)
    requires At(ts, pos, part) && part != []
    ensures pos < |ts| && ts[pos] == part[0] && At(ts, pos + 1, part[1..])
  {
    assert part == [part[0]] + part[1..];
    AtSplit(ts, pos, [part[0]], part[1..]);
    assert ts[pos] == ts[pos..pos + 1][0];
  }

  lemma ArgsMore(ts: seq<Token>, pos: nat, done: seq<Tree>, child: Tree, p: nat)
    requires pos < |ts| && ParseNode(ts, pos) == (Some(child), p) && p + 1 < |ts| && ts[p] == Comma
      && ts[p + 1] != RParen
    ensures ParseArgs(ts, pos, done) == ParseArgs(ts, p + 1, done + [child])
  {
  }

  // Parsing what was printed gives back its tree and stops right after it.
  lemma {:induction false} ParsePrinted(ts: seq<Token>, pos: nat, s: Syntax)
    requires Legal(s) && At(ts, pos, Print(s)) && Ends(ts, pos + |Print(s)|)
    ensures ParseNode(ts, pos) == (Some(Meaning(s)), pos + |Print(s)|)
    decreases s, 1
  {
    AtFirst(ts, pos, Print(s));
    match s
    case Name(name) =>
    case Pair(name, value) =>
      AtFirst(ts, pos + 1, Print(s)[1..]);
      AtFirst(ts, pos + 2, Print(s)[1..][1..]);
    case Group(name, args, trailing) =>
      ParseGroup(ts, pos, s);
  }

  lemma GroupTokens(ts: seq<Token>, pos: nat, name: string, printed: seq<Token>)
    requires At(ts, pos, [Ident(name)] + ([LParen] + printed)) && printed != []
    ensures pos + 2 < |ts| && ts[pos] == Ident(name) && ts[pos + 1] == LParen && ts[pos + 2] == printed[0]
    ensures At(ts, pos + 2, printed)
  {
    AtSplit(ts, pos, [Ident(name)], [LParen] + printed);
    AtFirst(ts, pos, [Ident(name)]);
    AtSplit(ts, pos + 1, [LParen], printed);
    AtFirst(ts, pos + 1, [LParen]);
    AtFirst(ts, pos + 2, printed);
  }

  lemma {:induction false} ParseGroup(ts: seq<Token>, pos: nat, s: Syntax)
    requires s.Group? && Legal(s) && At(ts, pos, Print(s))
    ensures ParseNode(ts, pos) == (Some(Meaning(s)), pos + |Print(s)|)
    decreases s, 0
  {
    GroupPrinted(s);
    ParseCall(ts, pos, s.name, s.args, s.trailing);
    CombineMeaning(s);
  }

  lemma GroupPrinted(s: Syntax)
    requires s.Group? && Legal(s)
    ensures LegalEach(s.args) && Print(s) == [Ident(s.name)] + ([LParen] + PrintArgs(s.args, s.trailing))
  {
  }

  lemma {:induction false} ParseCall(ts: seq<Token>, pos: nat, name: string, args: seq<Syntax>, trailing: bool)
    requires LegalEach(args) && At(ts, pos, [Ident(name)] + ([LParen] + PrintArgs(args, trailing)))
    ensures ParseNode(ts, pos) == (Combine(name, MeaningEach(args)), pos + 2 + |PrintArgs(args, trailing)|)
    decreases args, 2
  {
    var printed := PrintArgs(args, trailing);
    if args == [] {
      EmptyCall(ts, pos, name);
    } else {
      assert At(ts, pos + 2, printed) by { GroupTokens(ts, pos, name, printed); }
      ParseArgsPrinted(ts, pos + 2, [], args, trailing);
      assert [] + MeaningEach(args) == MeaningEach(args);
      FilledCall(ts, pos, name, printed, MeaningEach(args));
    }
  }

  lemma EmptyCall(ts: seq<Token>, pos: nat, name: string)
    requires At(ts, pos, [Ident(name)] + ([LParen] + [RParen]))
    ensures ParseNode(ts, pos) == (Combine(name, []), pos + 3)
  {
    GroupTokens(ts, pos, name, [RParen]);
  }

  lemma FilledCall(ts: seq<Token>, pos: nat, name: string, printed: seq<Token>, trees: seq<Tree>)
    requires printed != [] && printed[0] != RParen && At(ts, pos, [Ident(name)] + ([LParen] + printed))
    requires ParseArgs(ts, pos + 2, []) == (Some(trees), pos + 2 + |printed|)
    ensures ParseNode(ts, pos) == (Combine(name, trees), pos + 2 + |printed|)
  {
    GroupTokens(ts, pos, name, printed);
  }

  lemma {:induction false} ParseArgsPrinted(ts: seq<Token>, pos: nat, done: seq<Tree>, args: seq<Syntax>,
                                            trailing: bool)
    requires args != [] && LegalEach(args) && At(ts, pos, PrintArgs(args, trailing))
    ensures ParseArgs(ts, pos, done) == (Some(done + MeaningEach(args)), pos + |PrintArgs(args, trailing)|)
    decreases args, 1
  {
    if |args| == 1 {
      OneArg(args, trailing);
      ParseLastArg(ts, pos, done, args[0], trailing);
    } else {
      MoreArgs(args, trailing);
      ParseMoreArgs(ts, pos, done, args, args[0], args[1..], trailing);
      JoinArgs(ParseArgs(ts, pos, done), pos, done, args, trailing);
    }
  }

  lemma {:induction false} ParseMoreArgs(ts: seq<Token>, pos: nat, done: seq<Tree>, args: seq<Syntax>, s: Syntax,
                                         rest: seq<Syntax>, trailing: bool)
    requires |args| > 1 && s == args[0] && rest == args[1..]
    requires Legal(s) && LegalEach(rest) && At(ts, pos, Print(s) + ([Comma] + PrintArgs(rest, trailing)))
    ensures ParseArgs(ts, pos, done)
         == (Some((done + [Meaning(s)]) + MeaningEach(rest)), pos + |Print(s)| + 1 + |PrintArgs(rest, trailing)|)
    decreases args, 0
  {
    ParseFirstArg(ts, pos, done, s, PrintArgs(rest, trailing));
    ParseArgsPrinted(ts, pos + |Print(s)| + 1, done + [Meaning(s)], rest, trailing);
  }

  lemma MoreArgs(args: seq<Syntax>, trailing: bool)
    requires |args| > 1 && LegalEach(args)
    ensures PrintArgs(args, trailing) == Print(args[0]) + ([Comma] + PrintArgs(args[1..], trailing))
    ensures LegalEach(args[1..]) && Legal(args[0]) && PrintArgs(args[1..], trailing)[0] != RParen
  {
  }

  lemma OneArg(args: seq<Syntax>, trailing: bool)
    requires |args| == 1 && LegalEach(args)
    ensures PrintArgs(args, trailing) == Print(args[0]) + if trailing then [Comma, RParen] else [RParen]
    ensures MeaningEach(args) == [Meaning(args[0])]
  {
  }

  // The first argument in front of the others.
  lemma JoinArgs(r: (Option<seq<Tree>>, nat), pos: nat, done: seq<Tree>, args: seq<Syntax>, trailing: bool)
    requires |args| > 1 && LegalEach(args)
    requires r == (Some((done + [Meaning(args[0])]) + MeaningEach(args[1..])),
                   pos + |Print(args[0])| + 1 + |PrintArgs(args[1..], trailing)|)
    ensures r == (Some(done + MeaningEach(args)), pos + |PrintArgs(args, trailing)|)
  {
    Regroup(done, [Meaning(args[0])], MeaningEach(args[1..]));
  }

  lemma AtComma(ts: seq<Token>, pos: nat, first: seq<Token>, rest: seq<Token>)
    requires At(ts, pos, first + ([Comma] + rest)) && rest != []
    ensures var p := pos + |first|;
            At(ts, pos, first) && p + 1 < |ts| && ts[p] == Comma && ts[p + 1] == rest[0] && At(ts, p + 1, rest)
  {
    var p := pos + |first|;
    AtSplit(ts, pos, first, [Comma] + rest);
    AtSplit(ts, p, [Comma], rest);
    AtFirst(ts, p, [Comma]);
    AtFirst(ts, p + 1, rest);
  }

  lemma {:induction false} ParseFirstArg(ts: seq<Token>, pos: nat, done: seq<Tree>, s: Syntax, rest: seq<Token>)
    requires Legal(s) && At(ts, pos, Print(s) + ([Comma] + rest)) && rest != [] && rest[0] != RParen
    ensures At(ts, pos + |Print(s)| + 1, rest)
    ensures ParseArgs(ts, pos, done) == ParseArgs(ts, pos + |Print(s)| + 1, done + [Meaning(s)])
    decreases s, 2
  {
    var p := pos + |Print(s)|;
    AtComma(ts, pos, Print(s), rest);
    ParsePrinted(ts, pos, s);
    ArgsMore(ts, pos, done, Meaning(s), p);
  }

  lemma {:induction false} ParseLastArg(ts: seq<Token>, pos: nat, done: seq<Tree>, s: Syntax, trailing: bool)
    requires Legal(s) && At(ts, pos, Print(s) + if trailing then [Comma, RParen] else [RParen])
    ensures ParseArgs(ts, pos, done) == (Some(done + [Meaning(s)]), pos + |Print(s)| + if trailing then 2 else 1)
    decreases s, 2
  {
    var tail := if trailing then [Comma, RParen] else [RParen];
    AtSplit(ts, pos, Print(s), tail);
    var p := pos + |Print(s)|;
    AtFirst(ts, p, tail);
    if trailing { AtFirst(ts, p + 1, tail[1..]); }
    ParsePrinted(ts, pos, s);
  }

  // ----- Everything the parser accepts is legal syntax -----

  lemma {:induction false} ParsedIsPrinted(ts: seq<Token>, pos: nat) returns (s: Syntax)
    requires pos <= |ts| && ParseNode(ts, pos).0.Some?
    ensures Legal(s) && Meaning(s) == ParseNode(ts, pos).0.value
    ensures ts[pos..ParseNode(ts, pos).1] == Print(s)
    decreases |ts| - pos, 1
  {
    var name, p := ts[pos].name, pos + 1;
    var (node, q) := ParseNode(ts, pos);
    if p < |ts| && ts[p] == Equals {
      s := Pair(name, ts[p + 1]);
      assert ts[pos..q] == [ts[pos], ts[p], ts[p + 1]];
    } else if p >= |ts| || ts[p] != LParen {
      s := Name(name);
    } else if p + 1 < |ts| && ts[p + 1] == RParen {
      s := Group(name, [], false);
      assert ts[pos..q] == [ts[pos]] + ([ts[p]] + [ts[p + 1]]);
    } else {
      var args, trailing := ParsedArgsPrinted(ts, p + 1, []);
      s := Group(name, args, trailing);
      assert ts[pos..q] == [ts[pos]] + ([ts[p]] + ts[p + 1..q]);
      assert [] + MeaningEach(args) == MeaningEach(args);
      CombineMeaning(s);
    }
  }

  lemma {:induction false} ParsedArgsPrinted(ts: seq<Token>, pos: nat, done: seq<Tree>)
    returns (args: seq<Syntax>, trailing: bool)
    requires pos <= |ts| && ParseArgs(ts, pos, done).0.Some?
    ensures args != [] && LegalEach(args) && done + MeaningEach(args) == ParseArgs(ts, pos, done).0.value
    ensures ts[pos..ParseArgs(ts, pos, done).1] == PrintArgs(args, trailing)
    decreases |ts| - pos, 2
  {
    var (child, p) := ParseNode(ts, pos);
    var s := ParsedIsPrinted(ts, pos);
    var end := ParseArgs(ts, pos, done).1;
    if ts[p] == RParen {
      args, trailing := [s], false;
      assert ts[pos..end] == ts[pos..p] + [ts[p]];
    } else if ts[p + 1] == RParen {
      args, trailing := [s], true;
      assert ts[pos..end] == ts[pos..p] + [ts[p], ts[p + 1]];
    } else {
      ArgsMore(ts, pos, done, child.value, p);
      var rest;
      rest, trailing := ParsedArgsPrinted(ts, p + 1, done + [child.value]);
      args := [s] + rest;
      PrependArg(ts, pos, p, end, done, s, rest, trailing);
    }
  }

  lemma PrependArg(ts: seq<Token>, pos: nat, p: nat, end: nat, done: seq<Tree>, s: Syntax, rest: seq<Syntax>,
                   trailing: bool)
    requires pos <= p < end <= |ts| && ts[p] == Comma && ts[pos..p] == Print(s)
      && ts[p + 1..end] == PrintArgs(rest, trailing)
    requires Legal(s) && rest != [] && LegalEach(rest)
    ensures LegalEach([s] + rest) && ts[pos..end] == PrintArgs([s] + rest, trailing)
    ensures done + MeaningEach([s] + rest) == (done + [Meaning(s)]) + MeaningEach(rest)
  {
    var args := [s] + rest;
    assert args[1..] == rest && args[0] == s;
    SliceAround(ts, pos, p, end);
    Regroup(done, [Meaning(s)], MeaningEach(rest));
  }

  lemma SliceAround(ts: seq<Token>, pos: nat, p: nat, end: nat)
    requires pos <= p < end <= |ts|
    ensures ts[pos..end] == ts[pos..p] + ([ts[p]] + ts[p + 1..end])
  {
  }
}
