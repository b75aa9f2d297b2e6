/** `cfg` predicate trees, their truth when `test` is false, the simplifier and
    the exhaustive enumeration of the values a predicate can take in production. */
module CfgTree {
  import opened Paths
  import opened Powers

  // The tokens of a `cfg` predicate.
  datatype Token = Ident(name: string) | Number(text: string) | Text(text: string) | LParen | RParen | Comma | Equals

  // An opaque condition: a name, a key with its value, or a call of some other operator.
  datatype Key = Plain(name: string) | KeyValue(name: string, value: Token) | Call(name: string, args: seq<Tree>)
  datatype Tree = Atom(key: Key) | All(args: seq<Tree>) | Any(args: seq<Tree>) | Not(arg: Tree)

  const TEST := Atom(Plain("test"))

  // ----- Truth in a production configuration: `test` is off, `on` are the conditions that hold -----

  predicate Truth(t: Tree, on: set<Tree>)
    decreases t, 1
  {
    match t
    case Atom(_) => t != TEST && t in on
    case All(args) => TruthAll(args, on)
    case Any(args) => TruthAny(args, on)
    case Not(arg) => !Truth(arg, on)
  }

  predicate TruthAll(args: seq<Tree>, on: set<Tree>)
    decreases args, 0
  {
    args == [] || (Truth(args[0], on) && TruthAll(args[1..], on))
  }

  predicate TruthAny(args: seq<Tree>, on: set<Tree>)
    decreases args, 0
  {
    args != [] && (Truth(args[0], on) || TruthAny(args[1..], on))
  }

  // ----- The simplifier -----

  datatype Simple = Const(value: bool) | Open(tree: Tree)

  function Simplify(t: Tree): Simple
    decreases t, 1
  {
    match t
    case Atom(_) => if t == TEST then Const(false) else Open(t)
    case All(args) =>
      var children := SimplifyEach(args);
      if Const(false) in children then Const(false)
      else if Remaining(children) == [] then Const(true) else Open(All(Remaining(children)))
    case Any(args) =>
      var children := SimplifyEach(args);
      if Const(true) in children then Const(true)
      else if Remaining(children) == [] then Const(false) else Open(Any(Remaining(children)))
    case Not(arg) =>
      match Simplify(arg)
      case Const(b) => Const(!b)
      case Open(s) => Open(Not(s))
  }

  function SimplifyEach(args: seq<Tree>): seq<Simple>
    decreases args, 0
  {
    if args == [] then [] else [Simplify(args[0])] + SimplifyEach(args[1..])
  }

  function Remaining(children: seq<Simple>): seq<Tree> {
    if children == [] then []
    else (if children[0].Open? then [children[0].tree] else []) + Remaining(children[1..])
  }

  // The value a simplified child stands for.
  predicate SimpleTruth(s: Simple, on: set<Tree>) {
    match s
    case Const(b) => b
    case Open(t) => Truth(t, on)
  }

  predicate EachTrue(children: seq<Simple>, on: set<Tree>) {
    children == [] || (SimpleTruth(children[0], on) && EachTrue(children[1..], on))
  }

  predicate SomeTrue(children: seq<Simple>, on: set<Tree>) {
    children != [] && (SimpleTruth(children[0], on) || SomeTrue(children[1..], on))
  }

  lemma {:induction false} RemainingAll(children: seq<Simple>, on: set<Tree>)
    ensures Const(false) in children ==> !EachTrue(children, on)
    ensures Const(false) !in children ==> EachTrue(children, on) == TruthAll(Remaining(children), on)
    decreases |children|
  {
    if children != [] {
      RemainingAll(children[1..], on);
      if children[0].Open? {
        assert Remaining(children) == [children[0].tree] + Remaining(children[1..]);
        assert Remaining(children)[1..] == Remaining(children[1..]);
      } else {
        assert Remaining(children) == Remaining(children[1..]);
      }
    }
  }

  lemma {:induction false} RemainingAny(children: seq<Simple>, on: set<Tree>)
    ensures Const(true) in children ==> SomeTrue(children, on)
    ensures Const(true) !in children ==> SomeTrue(children, on) == TruthAny(Remaining(children), on)
    decreases |children|
  {
    if children != [] {
      RemainingAny(children[1..], on);
      if children[0].Open? {
        assert Remaining(children) == [children[0].tree] + Remaining(children[1..]);
        assert Remaining(children)[1..] == Remaining(children[1..]);
      } else {
        assert Remaining(children) == Remaining(children[1..]);
      }
    }
  }

  // Simplifying keeps the truth value in every production configuration.
  lemma {:induction false} SimplifyKeepsTruth(t: Tree, on: set<Tree>)
    ensures SimpleTruth(Simplify(t), on) == Truth(t, on)
    decreases t, 1
  {
    match t
    case Atom(_) =>
    case All(args) => SimplifyEachKeeps(args, on); RemainingAll(SimplifyEach(args), on);
    case Any(args) => SimplifyEachKeeps(args, on); RemainingAny(SimplifyEach(args), on);
    case Not(arg) => SimplifyKeepsTruth(arg, on);
  }

  lemma {:induction false} SimplifyEachKeeps(args: seq<Tree>, on: set<Tree>)
    ensures EachTrue(SimplifyEach(args), on) == TruthAll(args, on)
    ensures SomeTrue(SimplifyEach(args), on) == TruthAny(args, on)
    decreases args, 0
  {
    if args != [] {
      SimplifyKeepsTruth(args[0], on);
      SimplifyEachKeeps(args[1..], on);
      assert SimplifyEach(args)[1..] == SimplifyEach(args[1..]);
    }
  }

  // ----- The conditions left open, and evaluation under one assignment of them -----

  function Collect(t: Tree): set<Tree>
    decreases t, 1
  {
    match t
    case Atom(_) => {t}
    case All(args) => CollectEach(args)
    case Any(args) => CollectEach(args)
    case Not(arg) => Collect(arg)
  }

  function CollectEach(args: seq<Tree>): set<Tree>
    decreases args, 0
  {
    if args == [] then {} else Collect(args[0]) + CollectEach(args[1..])
  }

  // `evaluate`: every atom is looked up, `test` included.
  predicate Evaluate(t: Tree, on: set<Tree>)
    decreases t, 1
  {
    match t
    case Atom(_) => t in on
    case All(args) => EvaluateAll(args, on)
    case Any(args) => EvaluateAny(args, on)
    case Not(arg) => !Evaluate(arg, on)
  }

  predicate EvaluateAll(args: seq<Tree>, on: set<Tree>)
    decreases args, 0
  {
    args == [] || (Evaluate(args[0], on) && EvaluateAll(args[1..], on))
  }

  predicate EvaluateAny(args: seq<Tree>, on: set<Tree>)
    decreases args, 0
  {
    args != [] && (Evaluate(args[0], on) || EvaluateAny(args[1..], on))
  }

  // No `test` survives simplification, so evaluation agrees with production truth.
  lemma {:induction false} SimplifyDropsTest(t: Tree)
    ensures Simplify(t).Open? ==> TEST !in Collect(Simplify(t).tree)
    decreases t, 1
  {
    match t
    case Atom(_) =>
    case All(args) => SimplifyEachDropsTest(args);
    case Any(args) => SimplifyEachDropsTest(args);
    case Not(arg) => SimplifyDropsTest(arg);
  }

  lemma {:induction false} SimplifyEachDropsTest(args: seq<Tree>)
    ensures TEST !in CollectEach(Remaining(SimplifyEach(args)))
    decreases args, 0
  {
    if args != [] {
      SimplifyDropsTest(args[0]);
      SimplifyEachDropsTest(args[1..]);
      var children := SimplifyEach(args);
      assert children[1..] == SimplifyEach(args[1..]);
      if children[0].Open? {
        assert Remaining(children)[1..] == Remaining(children[1..]);
      } else {
        assert Remaining(children) == Remaining(children[1..]);
      }
    }
  }

  lemma {:induction false} EvaluateIsTruth(t: Tree, on: set<Tree>, on': set<Tree>)
    requires TEST !in Collect(t) && on * Collect(t) == on' * Collect(t)
    ensures Evaluate(t, on) == Truth(t, on')
    decreases t, 1
  {
    match t
    case Atom(_) =>
      assert t in Collect(t); assert t in on <==> t in on * Collect(t); assert t in on' <==> t in on' * Collect(t);
    case All(args) => EvaluateEachIsTruth(args, on, on');
    case Any(args) => EvaluateEachIsTruth(args, on, on');
    case Not(arg) => EvaluateIsTruth(arg, on, on');
  }

  lemma {:induction false} EvaluateEachIsTruth(args: seq<Tree>, on: set<Tree>, on': set<Tree>)
    requires TEST !in CollectEach(args) && on * CollectEach(args) == on' * CollectEach(args)
    ensures EvaluateAll(args, on) == TruthAll(args, on')
    ensures EvaluateAny(args, on) == TruthAny(args, on')
    decreases args, 0
  {
    if args != [] {
      var head, rest := Collect(args[0]), CollectEach(args[1..]);
      var both := CollectEach(args);
      assert both == head + rest;
      assert on * head == on * both * head && on' * head == on' * both * head;
      assert on * rest == on * both * rest && on' * rest == on' * both * rest;
      EvaluateIsTruth(args[0], on, on');
      EvaluateEachIsTruth(args[1..], on, on');
    }
  }

  // ----- Enumerating the assignments as bit masks -----

  // The conditions whose bit is set in `mask`.
  function Selected(ordered: seq<Tree>, mask: nat): set<Tree> {
    if ordered == [] then {}
    else (if mask % 2 == 1 then {ordered[0]} else {}) + Selected(ordered[1..], mask / 2)
  }

  // Every choice of conditions is some mask.
  lemma {:induction false} MaskExists(ordered: seq<Tree>, on: set<Tree>) returns (mask: nat)
    requires forall i, j :: 0 <= i < j < |ordered| ==> ordered[i] != ordered[j]
    ensures mask < Pow2(|ordered|) && Selected(ordered, mask) == on * Elems(ordered)
    decreases |ordered|
  {
    if ordered == [] {
      mask := 0;
    } else {
      var rest := MaskExists(ordered[1..], on);
      mask := 2 * rest + if ordered[0] in on then 1 else 0;
      assert mask / 2 == rest;
      assert Elems(ordered) == {ordered[0]} + Elems(ordered[1..]);
      assert on * Elems(ordered) == (on * {ordered[0]}) + on * Elems(ordered[1..]);
    }
  }

  lemma {:induction false} SelectedWithin(ordered: seq<Tree>, mask: nat)
    ensures Selected(ordered, mask) <= Elems(ordered)
    decreases |ordered|
  {
    if ordered != [] { SelectedWithin(ordered[1..], mask / 2); }
  }

  const ATOM_LIMIT := 16

  // The values a predicate takes over all production configurations.
  ghost predicate Attains(t: Tree, b: bool) {
    exists on :: Truth(t, on) == b
  }

  predicate MaskValue(t: Tree, ordered: seq<Tree>, mask: nat)
    requires Simplify(t).Open?
  {
    Evaluate(Simplify(t).tree, Selected(ordered, mask))
  }

  lemma ValueOfMask(t: Tree, ordered: seq<Tree>, mask: nat)
    requires Simplify(t).Open? && Elems(ordered) == Collect(Simplify(t).tree)
    ensures Attains(t, MaskValue(t, ordered, mask))
  {
    var on := Selected(ordered, mask);
    SimplifyDropsTest(t);
    EvaluateIsTruth(Simplify(t).tree, on, on);
    SimplifyKeepsTruth(t, on);
  }

  lemma MaskOfValue(t: Tree, ordered: seq<Tree>, on: set<Tree>) returns (mask: nat)
    requires Simplify(t).Open? && Elems(ordered) == Collect(Simplify(t).tree)
    requires forall i, j :: 0 <= i < j < |ordered| ==> ordered[i] != ordered[j]
    ensures mask < Pow2(|ordered|) && MaskValue(t, ordered, mask) == Truth(t, on)
  {
    mask := MaskExists(ordered, on);
    var atoms := Collect(Simplify(t).tree);
    SimplifyDropsTest(t);
    SimplifyKeepsTruth(t, on);
    assert Selected(ordered, mask) * atoms == on * atoms;
    EvaluateIsTruth(Simplify(t).tree, Selected(ordered, mask), on);
  }

  method Enumerate(atoms: set<Tree>) returns (ordered: seq<Tree>)
    ensures Elems(ordered) == atoms && |ordered| == |atoms|
    ensures forall i, j :: 0 <= i < j < |ordered| ==> ordered[i] != ordered[j]
  {
    ordered := [];
    var rest := atoms;
    while rest != {}
      invariant rest !! Elems(ordered) && rest + Elems(ordered) == atoms && |ordered| + |rest| == |atoms|
      invariant forall i, j :: 0 <= i < j < |ordered| ==> ordered[i] != ordered[j]
      decreases |rest|
    {
      var x :| x in rest;
      ElemsAppend(ordered, x);
      assert forall i :: 0 <= i < |ordered| ==> ordered[i] in Elems(ordered);
      ordered, rest := ordered + [x], rest - {x};
    }
  }

  // The loop over the masks, which stops early once both values were seen.
  method ValuesOverMasks(t: Tree, ordered: seq<Tree>) returns (values: set<bool>)
    requires Simplify(t).Open? && Elems(ordered) == Collect(Simplify(t).tree)
    requires forall i, j :: 0 <= i < j < |ordered| ==> ordered[i] != ordered[j]
    ensures forall b :: b in values <==> Attains(t, b)
  {
    values := {};
    var mask := 0;
    while mask < Pow2(|ordered|) && |values| != 2
      invariant forall m :: 0 <= m < mask ==> MaskValue(t, ordered, m) in values
      invariant forall b :: b in values ==> Attains(t, b)
    {
      ValueOfMask(t, ordered, mask);
      values := values + {MaskValue(t, ordered, mask)};
      mask := mask + 1;
    }
    forall b | Attains(t, b) ensures b in values { AttainedSeen(t, ordered, mask, values, b); }
  }

  lemma AttainedSeen(t: Tree, ordered: seq<Tree>, mask: nat, values: set<bool>, b: bool)
    requires Simplify(t).Open? && Elems(ordered) == Collect(Simplify(t).tree)
    requires forall i, j :: 0 <= i < j < |ordered| ==> ordered[i] != ordered[j]
    requires forall m :: 0 <= m < mask ==> MaskValue(t, ordered, m) in values
    requires mask >= Pow2(|ordered|) || |values| == 2
    requires Attains(t, b)
    ensures b in values
  {
    if |values| == 2 {
      TwoBools(values);
    } else {
      var on :| Truth(t, on) == b;
      var m := MaskOfValue(t, ordered, on);
      assert MaskValue(t, ordered, m) in values;
    }
  }

  lemma TwoBools(values: set<bool>)
    requires |values| == 2
    ensures false in values && true in values
  {
    forall b | b in values ensures b in {false, true} { assert b == false || b == true; }
    var other := {false, true} - values;
    assert |{false, true}| == 2;
    assert {false, true} == values + other && values !! other;
    assert other == {};
  }

  lemma ConstAttains(t: Tree)
    requires Simplify(t).Const?
    ensures forall b :: Attains(t, b) <==> b == Simplify(t).value
  {
    forall on: set<Tree> ensures Truth(t, on) == Simplify(t).value { SimplifyKeepsTruth(t, on); }
    assert Truth(t, {}) == Simplify(t).value;
  }

  // `_cfg_values_without_test`: exactly the attained values while at most sixteen
  // conditions stay open, and never less than them.
  method ValuesWithoutTest(t: Tree) returns (values: set<bool>)
    ensures forall b :: Attains(t, b) ==> b in values
    ensures Simplify(t).Const? || |Collect(Simplify(t).tree)| <= ATOM_LIMIT ==> forall b :: b in values ==>
      Attains(t, b)
    ensures Simplify(t).Open? && |Collect(Simplify(t).tree)| > ATOM_LIMIT ==> values == {false, true}
  {
    var simplified := Simplify(t);
    if simplified.Const? {
      ConstAttains(t);
      return {simplified.value};
    }
    var ordered := Enumerate(Collect(simplified.tree));
    if |ordered| > ATOM_LIMIT {
      return {false, true};
    }
    values := ValuesOverMasks(t, ordered);
  }
}
