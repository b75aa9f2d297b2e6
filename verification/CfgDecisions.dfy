/** The two independent `cfg` decisions on one token text: the gate's three-valued
    evaluation and the stack auditor's enumeration, and what each may remove. */
module CfgDecisions {
  import opened Outcomes
  import opened CfgTree
  import opened CfgParser

  // ----- The whole text, parsed -----

  function ParseWhole(ts: seq<Token>): Option<Tree> {
    var (node, pos) := ParseNode(ts, 0);
    if pos == |ts| then node else None
  }

  // The parser undoes the printer, trailing commas or not.
  lemma PrintedParses(s: Syntax)
    requires Legal(s)
    ensures ParseWhole(Print(s)) == Some(Meaning(s))
  {
    assert Print(s)[0..|Print(s)|] == Print(s);
    ParsePrinted(Print(s), 0, s);
  }

  // Everything it accepts in full is the printed form of its tree.
  lemma ParsesIffPrinted(ts: seq<Token>, t: Tree)
    ensures ParseWhole(ts) == Some(t) <==> exists s :: Legal(s) && Print(s) == ts && Meaning(s) == t
  {
    if ParseWhole(ts) == Some(t) {
      var s := ParsedIsPrinted(ts, 0);
      assert ts[0..|ts|] == ts;
    }
    if s :| Legal(s) && Print(s) == ts && Meaning(s) == t {
      PrintedParses(s);
    }
  }

  // ----- The gate's three-valued evaluator -----

  // Put `front` before the first part.
  function Prefixed(front: seq<Token>, parts: seq<seq<Token>>): (r: seq<seq<Token>>)
    requires parts != []
    ensures r != []
  {
    [front + parts[0]] + parts[1..]
  }

  // `_split_top_level` at commas outside parentheses; never empty.
  function Split(ts: seq<Token>, depth: nat): (parts: seq<seq<Token>>)
    ensures parts != []
  {
    if ts == [] then [[]]
    else if ts[0] == LParen then Prefixed([ts[0]], Split(ts[1..], depth + 1))
    else if ts[0] == RParen && depth > 0 then Prefixed([ts[0]], Split(ts[1..], depth - 1))
    else if ts[0] == Comma && depth == 0 then [[]] + Split(ts[1..], 0)
    else Prefixed([ts[0]], Split(ts[1..], depth))
  }

  lemma {:induction false} SplitNoLonger(ts: seq<Token>, depth: nat)
    ensures forall p :: p in Split(ts, depth) ==> |p| <= |ts|
    decreases |ts|
  {
    if ts != [] {
      var d := if ts[0] == LParen then depth + 1 else if ts[0] == RParen && depth > 0 then depth - 1 else depth;
      SplitNoLonger(ts[1..], d);
      var rest := Split(ts[1..], d);
      assert rest[0] in rest;
      forall p | p in Split(ts, depth) ensures |p| <= |ts| {
        if p !in rest && p != [] { assert p == [ts[0]] + rest[0]; }
      }
    }
  }

  predicate IsOperator(name: string) {
    name in {"all", "any", "not"}
  }

  // Three-valued combination; no value is unknown.
  function Decide(name: string, values: seq<Option<bool>>): Option<bool> {
    if name == "not" then
      if |values| != 1 || values[0].None? then None else Some(!values[0].value)
    else if name == "all" then
      if Some(false) in values then Some(false)
      else if forall v :: v in values ==> v == Some(true) then Some(true) else None
    else
      if Some(true) in values then Some(true)
      else if forall v :: v in values ==> v == Some(false) then Some(false) else None
  }

  // `_cfg_test_value`.
  function Kleene(ts: seq<Token>): Option<bool>
    decreases |ts|, 1, 0
  {
    if ts == [Ident("test")] then Some(false)
    else if |ts| >= 3 && ts[0].Ident? && IsOperator(ts[0].name) && ts[1] == LParen && ts[|ts| - 1] == RParen then
      SplitNoLonger(ts[2..|ts| - 1], 0);
      Decide(ts[0].name, KleeneEach(Split(ts[2..|ts| - 1], 0), |ts| - 3))
    else None
  }

  function KleeneEach(parts: seq<seq<Token>>, bound: nat): seq<Option<bool>>
    requires forall p :: p in parts ==> |p| <= bound
    decreases bound + 1, 0, |parts|
  {
    if parts == [] then []
    else
      assert parts[0] in parts;
      [Kleene(parts[0])] + KleeneEach(parts[1..], bound)
  }

  // ----- Any reading of the same text -----

  predicate Combined(name: string, values: seq<bool>, other: bool) {
    if name == "not" then if |values| != 1 then other else !values[0]
    else if name == "all" then false !in values
    else true in values
  }

  // The value of the text when `oracle` says what everything but the three operators and `test` means.
  predicate Reading(ts: seq<Token>, oracle: seq<Token> -> bool)
    decreases |ts|, 1, 0
  {
    if ts == [Ident("test")] then false
    else if |ts| >= 3 && ts[0].Ident? && IsOperator(ts[0].name) && ts[1] == LParen && ts[|ts| - 1] == RParen then
      SplitNoLonger(ts[2..|ts| - 1], 0);
      Combined(ts[0].name, ReadEach(Split(ts[2..|ts| - 1], 0), |ts| - 3, oracle), oracle(ts))
    else oracle(ts)
  }

  function ReadEach(parts: seq<seq<Token>>, bound: nat, oracle: seq<Token> -> bool): (values: seq<bool>)
    requires forall p :: p in parts ==> |p| <= bound
    ensures |values| == |parts|
    decreases bound + 1, 0, |parts|
  {
    if parts == [] then []
    else
      assert parts[0] in parts;
      [Reading(parts[0], oracle)] + ReadEach(parts[1..], bound, oracle)
  }

  // Where the three-valued evaluation decides, every reading agrees.
  lemma {:induction false} DecidedReading(ts: seq<Token>, oracle: seq<Token> -> bool)
    ensures Kleene(ts).Some? ==> Reading(ts, oracle) == Kleene(ts).value
    decreases |ts|, 1, 0
  {
    if ts != [Ident("test")] && |ts| >= 3 && ts[0].Ident? && IsOperator(ts[0].name)
      && ts[1] == LParen && ts[|ts| - 1] == RParen
    {
      SplitNoLonger(ts[2..|ts| - 1], 0);
      var parts := Split(ts[2..|ts| - 1], 0);
      DecidedEach(parts, |ts| - 3, oracle);
      if Kleene(ts).Some? {
        DecidedCombines(ts[0].name, KleeneEach(parts, |ts| - 3), ReadEach(parts, |ts| - 3, oracle), oracle(ts));
      }
    }
  }

  ghost predicate Agree(values: seq<Option<bool>>, readings: seq<bool>) {
    |values| == |readings| && forall i :: 0 <= i < |values| && values[i].Some? ==> readings[i] == values[i].value
  }

  lemma {:induction false} DecidedEach(parts: seq<seq<Token>>, bound: nat, oracle: seq<Token> -> bool)
    requires forall p :: p in parts ==> |p| <= bound
    ensures Agree(KleeneEach(parts, bound), ReadEach(parts, bound, oracle))
    decreases bound + 1, 0, |parts|
  {
    if parts != [] {
      assert parts[0] in parts;
      DecidedReading(parts[0], oracle);
      DecidedEach(parts[1..], bound, oracle);
    }
  }

  lemma DecidedCombines(name: string, values: seq<Option<bool>>, readings: seq<bool>, other: bool)
    requires Agree(values, readings) && Decide(name, values).Some?
    ensures Combined(name, readings, other) == Decide(name, values).value
  {
    forall i | 0 <= i < |values| ensures values[i] in values && readings[i] in readings {}
  }

  // Readings of the parts, with the undecided ones read this way.
  function Filled(values: seq<Option<bool>>, other: bool): (readings: seq<bool>)
    ensures |readings| == |values|
  {
    seq(|values|, i requires 0 <= i < |values| => if values[i].Some? then values[i].value else other)
  }

  lemma FilledAgrees(values: seq<Option<bool>>, other: bool, b: bool)
    ensures Agree(values, Filled(values, other))
    ensures b in Filled(values, other) <==> Some(b) in values || (other == b && None in values)
  {
    var readings := Filled(values, other);
    if b in readings {
      var i :| 0 <= i < |readings| && readings[i] == b;
      assert values[i] in values;
    }
    if v :| v in values && (v == Some(b) || (other == b && v.None?)) {
      var i :| 0 <= i < |values| && values[i] == v;
      assert readings[i] in readings;
    }
  }

  // Every reading of the parts that respects what is decided gives the group this value.
  ghost predicate Settles(name: string, values: seq<Option<bool>>, b: bool) {
    forall readings, other :: Agree(values, readings) ==> Combined(name, readings, other) == b
  }

  // The gate decides a group exactly when the decided parts settle it.
  lemma DecidesIffSettled(name: string, values: seq<Option<bool>>, b: bool)
    ensures Decide(name, values) == Some(b) <==> Settles(name, values, b)
  {
    if Decide(name, values).Some? {
      forall readings, other | Agree(values, readings)
        ensures Combined(name, readings, other) == Decide(name, values).value
      {
        DecidedCombines(name, values, readings, other);
      }
    }
    FilledAgrees(values, true, true);
    FilledAgrees(values, true, false);
    FilledAgrees(values, false, true);
    FilledAgrees(values, false, false);
    if Settles(name, values, b) {
      assert Combined(name, Filled(values, true), true) == b && Combined(name, Filled(values, true), false) == b;
      assert Combined(name, Filled(values, false), true) == b;
    }
  }

  // ----- The same evaluation over syntax -----

  function KleeneSyntax(s: Syntax): Option<bool>
    decreases s, 1
  {
    match s
    case Name(name) => if name == "test" then Some(false) else None
    case Pair(_, _) => None
    case Group(name, args, trailing) =>
      if IsOperator(name) then Decide(name, KleeneArgs(args, trailing)) else None
  }

  // An empty argument list and a trailing comma each leave one empty, undecided part.
  function KleeneArgs(args: seq<Syntax>, trailing: bool): seq<Option<bool>>
    decreases args, 0
  {
    if args == [] then [None]
    else if |args| == 1 then [KleeneSyntax(args[0])] + if trailing then [None] else []
    else [KleeneSyntax(args[0])] + KleeneArgs(args[1..], trailing)
  }

  lemma PrefixedTwice(a: seq<Token>, b: seq<Token>, parts: seq<seq<Token>>)
    requires parts != []
    ensures Prefixed(a, Prefixed(b, parts)) == Prefixed(a + b, parts)
  {
    assert a + (b + parts[0]) == (a + b) + parts[0];
  }

  // The depth after one token that does not separate parts.
  function Deeper(t: Token, depth: nat): nat {
    if t == LParen then depth + 1 else if t == RParen && depth > 0 then depth - 1 else depth
  }

  // The depth after `ts`, unless a comma separates parts on the way.
  function Track(ts: seq<Token>, depth: nat): Option<nat> {
    if ts == [] then Some(depth)
    else if ts[0] == Comma && depth == 0 then None
    else Track(ts[1..], Deeper(ts[0], depth))
  }

  lemma {:induction false} TrackJoin(a: seq<Token>, b: seq<Token>, depth: nat)
    requires Track(a, depth).Some?
    ensures Track(a + b, depth) == Track(b, Track(a, depth).value)
    decreases |a|
  {
    if a == [] {
      assert a + b == b;
    } else {
      assert (a + b)[1..] == a[1..] + b;
      TrackJoin(a[1..], b, Deeper(a[0], depth));
    }
  }

  // Splitting goes past an unseparated front in one piece.
  lemma {:induction false} SplitTracked(front: seq<Token>, rest: seq<Token>, depth: nat)
    requires Track(front, depth).Some?
    ensures Split(front + rest, depth) == Prefixed(front, Split(rest, Track(front, depth).value))
    decreases |front|
  {
    var parts := Split(rest, Track(front, depth).value);
    if front == [] {
      assert front + rest == rest && [] + parts[0] == parts[0];
    } else {
      var ts := front + rest;
      assert ts[1..] == front[1..] + rest && ts[0] == front[0];
      SplitTracked(front[1..], rest, Deeper(front[0], depth));
      PrefixedTwice([front[0]], front[1..], parts);
      assert [front[0]] + front[1..] == front;
    }
  }

  lemma SplitComma(rest: seq<Token>)
    ensures Split([Comma] + rest, 0) == [[]] + Split(rest, 0)
  {
    assert ([Comma] + rest)[1..] == rest;
  }

  lemma TrackOne(t: Token, depth: nat)
    requires t != Comma || depth > 0
    ensures Track([t], depth) == Some(Deeper(t, depth))
  {
    assert [t][1..] == [];
  }

  // Printed syntax has balanced parentheses and no comma outside them.
  lemma {:induction false} TrackPrinted(s: Syntax, depth: nat)
    requires Legal(s)
    ensures Track(Print(s), depth) == Some(depth)
    decreases s, 1
  {
    TrackOne(Ident(s.name), depth);
    match s
    case Name(name) =>
    case Pair(name, value) =>
      TrackOne(Equals, depth);
      TrackOne(value, depth);
      TrackJoin([Equals], [value], depth);
      TrackJoin([Ident(name)], [Equals] + [value], depth);
      assert Print(s) == [Ident(name)] + ([Equals] + [value]);
    case Group(name, args, trailing) =>
      TrackOne(LParen, depth);
      TrackArgs(args, trailing, depth + 1);
      TrackJoin([LParen], PrintArgs(args, trailing), depth);
      TrackJoin([Ident(name)], [LParen] + PrintArgs(args, trailing), depth);
  }

  // Inside the group the arguments stay one part; its closing parenthesis returns to the outer depth.
  lemma {:induction false} TrackArgs(args: seq<Syntax>, trailing: bool, depth: nat)
    requires LegalEach(args) && depth > 0
    ensures Track(PrintArgs(args, trailing), depth) == Some(depth - 1)
    decreases args, 0
  {
    TrackOne(RParen, depth);
    TrackOne(Comma, depth);
    if args != [] {
      TrackPrinted(args[0], depth);
      if |args| == 1 {
        TrackJoin([Comma], [RParen], depth);
        assert [Comma] + [RParen] == [Comma, RParen];
        TrackJoin(Print(args[0]), if trailing then [Comma, RParen] else [RParen], depth);
      } else {
        TrackArgs(args[1..], trailing, depth);
        TrackJoin([Comma], PrintArgs(args[1..], trailing), depth);
        TrackJoin(Print(args[0]), [Comma] + PrintArgs(args[1..], trailing), depth);
      }
    }
  }

  // The arguments of a group without its closing parenthesis, as the gate splits them.
  function Inner(args: seq<Syntax>, trailing: bool): seq<Token> {
    var ts := PrintArgs(args, trailing);
    ts[..|ts| - 1]
  }

  function Parts(args: seq<Syntax>, trailing: bool): (parts: seq<seq<Token>>)
    ensures parts != []
  {
    if args == [] then [[]]
    else if |args| == 1 then [Print(args[0])] + if trailing then [[]] else []
    else [Print(args[0])] + Parts(args[1..], trailing)
  }

  // A printed argument before a comma, or at the end, is one part.
  lemma SplitFirstPart(s: Syntax, rest: seq<Token>)
    requires Legal(s)
    ensures Split(Print(s), 0) == [Print(s)]
    ensures Split(Print(s) + ([Comma] + rest), 0) == [Print(s)] + Split(rest, 0)
  {
    TrackPrinted(s, 0);
    SplitTracked(Print(s), [], 0);
    assert Print(s) + [] == Print(s);
    SplitTracked(Print(s), [Comma] + rest, 0);
    SplitComma(rest);
  }

  lemma {:induction false} SplitInner(args: seq<Syntax>, trailing: bool)
    requires LegalEach(args)
    ensures Split(Inner(args, trailing), 0) == Parts(args, trailing)
    decreases |args|
  {
    if |args| == 1 {
      SplitFirstPart(args[0], []);
      assert [Comma] + [] == [Comma];
      assert Inner(args, trailing) == Print(args[0]) + if trailing then [Comma] else [];
    } else if args != [] {
      var more := Inner(args[1..], trailing);
      assert Inner(args, trailing) == Print(args[0]) + ([Comma] + more);
      SplitFirstPart(args[0], more);
      SplitInner(args[1..], trailing);
    }
  }

  // A printed group as the gate takes it apart.
  lemma GroupShape(s: Syntax)
    requires s.Group?
    ensures var ts := Print(s);
            |ts| >= 3 && ts[0] == Ident(s.name) && ts[1] == LParen && ts[|ts| - 1] == RParen
            && ts[2..|ts| - 1] == Inner(s.args, s.trailing)
  {
    var inner := PrintArgs(s.args, s.trailing);
    PrintArgsCloses(s.args, s.trailing);
    assert Print(s)[2..] == inner;
  }

  lemma {:induction false} KleenePrinted(s: Syntax)
    requires Legal(s)
    ensures Kleene(Print(s)) == KleeneSyntax(s)
    decreases s, 1
  {
    if s.Group? {
      GroupShape(s);
      if IsOperator(s.name) {
        SplitInner(s.args, s.trailing);
        SplitNoLonger(Inner(s.args, s.trailing), 0);
        KleeneParts(s.args, s.trailing, |Print(s)| - 3);
      }
    }
  }

  lemma {:induction false} PrintArgsCloses(args: seq<Syntax>, trailing: bool)
    ensures var ts := PrintArgs(args, trailing); ts[|ts| - 1] == RParen
    decreases |args|
  {
    if |args| > 1 { PrintArgsCloses(args[1..], trailing); }
  }

  lemma {:induction false} KleeneParts(args: seq<Syntax>, trailing: bool, bound: nat)
    requires LegalEach(args) && forall p :: p in Parts(args, trailing) ==> |p| <= bound
    ensures KleeneEach(Parts(args, trailing), bound) == KleeneArgs(args, trailing)
    decreases args, 0
  {
    var parts := Parts(args, trailing);
    if args != [] {
      KleenePrinted(args[0]);
      assert parts[0] == Print(args[0]);
      if |args| == 1 {
        assert parts[1..] == if trailing then [[]] else [];
        if trailing { assert KleeneEach(parts[1..], bound) == [None]; }
      } else {
        assert parts[1..] == Parts(args[1..], trailing);
        KleeneParts(args[1..], trailing, bound);
      }
    }
  }
}
