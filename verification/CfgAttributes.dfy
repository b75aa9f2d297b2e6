/** The three-valued decision is refined by the enumeration, and neither removes an
    item that some production configuration keeps. */
module CfgAttributes {
  import opened Outcomes
  import opened CfgTree
  import opened CfgParser
  import opened CfgDecisions

  lemma {:induction false} NothingRemains(children: seq<Simple>, b: bool)
    requires forall c :: c in children ==> c == Const(b)
    ensures Remaining(children) == []
    decreases |children|
  {
    if children != [] {
      assert children[0] in children;
      forall c | c in children[1..] ensures c == Const(b) { assert c in children; }
      NothingRemains(children[1..], b);
    }
  }

  lemma {:induction false} MeaningOf(args: seq<Syntax>, s: Syntax)
    requires LegalEach(args) && s in args
    ensures Legal(s) && Simplify(Meaning(s)) in SimplifyEach(MeaningEach(args))
    decreases |args|
  {
    var children := SimplifyEach(MeaningEach(args));
    assert MeaningEach(args)[1..] == MeaningEach(args[1..]);
    assert children == [Simplify(Meaning(args[0]))] + SimplifyEach(MeaningEach(args[1..]));
    if s != args[0] { MeaningOf(args[1..], s); }
  }

  // A decided value comes from a decided argument.
  lemma {:induction false} ValueFromArg(args: seq<Syntax>, trailing: bool, b: bool) returns (s: Syntax)
    requires Some(b) in KleeneArgs(args, trailing)
    ensures s in args && KleeneSyntax(s) == Some(b)
    decreases |args|
  {
    var values := KleeneArgs(args, trailing);
    if KleeneSyntax(args[0]) == Some(b) {
      s := args[0];
    } else {
      s := ValueFromArg(args[1..], trailing, b);
    }
  }

  // When every part is decided alike, every argument is.
  lemma {:induction false} ArgsAlike(args: seq<Syntax>, trailing: bool, b: bool, s: Syntax)
    requires (forall v :: v in KleeneArgs(args, trailing) ==> v == Some(b)) && s in args
    ensures KleeneSyntax(s) == Some(b)
    decreases |args|
  {
    var values := KleeneArgs(args, trailing);
    assert values[0] in values && values[0] == KleeneSyntax(args[0]);
    if s != args[0] {
      assert values[1..] == KleeneArgs(args[1..], trailing);
      forall v | v in values[1..] ensures v == Some(b) { assert v in values; }
      ArgsAlike(args[1..], trailing, b, s);
    }
  }

  lemma {:induction false} ChildFromArg(args: seq<Syntax>, c: Simple) returns (s: Syntax)
    requires LegalEach(args) && c in SimplifyEach(MeaningEach(args))
    ensures s in args && Legal(s) && Simplify(Meaning(s)) == c
    decreases |args|
  {
    assert MeaningEach(args)[1..] == MeaningEach(args[1..]);
    if Simplify(Meaning(args[0])) == c { s := args[0]; } else { s := ChildFromArg(args[1..], c); }
  }

  // Where the three-valued evaluation decides, simplification reaches the same constant.
  lemma {:induction false} DecidedSimplifies(s: Syntax)
    requires Legal(s) && KleeneSyntax(s).Some?
    ensures Simplify(Meaning(s)) == Const(KleeneSyntax(s).value)
    decreases s
  {
    if s.Group? {
      var b := KleeneSyntax(s).value;
      if s.name == "not" {
        assert KleeneArgs(s.args, s.trailing)[0] == KleeneSyntax(s.args[0]);
        DecidedSimplifies(s.args[0]);
      } else if s.name == "all" {
        DecidedGroup(s, false);
      } else {
        DecidedGroup(s, true);
      }
    }
  }

  // `dominant` decides the group when one part has it; the opposite value needs every part.
  lemma {:induction false} DecidedGroup(s: Syntax, dominant: bool)
    requires s.Group? && Legal(s) && s.name == (if dominant then "any" else "all") && KleeneSyntax(s).Some?
    ensures Simplify(Meaning(s)) == Const(KleeneSyntax(s).value)
    decreases s, 0
  {
    var values, children := KleeneArgs(s.args, s.trailing), SimplifyEach(MeaningEach(s.args));
    if Some(dominant) in values {
      var arg := ValueFromArg(s.args, s.trailing, dominant);
      MeaningOf(s.args, arg);
      DecidedSimplifies(arg);
    } else {
      forall c | c in children ensures c == Const(!dominant) {
        var arg := ChildFromArg(s.args, c);
        ArgsAlike(s.args, s.trailing, !dominant, arg);
        DecidedSimplifies(arg);
      }
      NothingRemains(children, !dominant);
    }
  }

  // For every text the parser accepts: a decided value is the value in every production
  // configuration, and the only one the enumeration can return, however many atoms there are.
  lemma DecidedIsTruth(ts: seq<Token>, t: Tree, b: bool)
    requires ParseWhole(ts) == Some(t) && Kleene(ts) == Some(b)
    ensures Simplify(t) == Const(b) && forall on :: Truth(t, on) == b
  {
    ParsesIffPrinted(ts, t);
    var s :| Legal(s) && Print(s) == ts && Meaning(s) == t;
    KleenePrinted(s);
    DecidedSimplifies(s);
    forall on ensures Truth(t, on) == b { SimplifyKeepsTruth(t, on); }
  }

  // ----- Attributes on an item -----

  // `#[cfg(P)]`, or `#[cfg_attr(P, A, ...)]` where only an applied `cfg(Q)` matters.
  datatype Attribute = Cfg(condition: seq<Token>) | CfgAttr(condition: seq<Token>, applied: seq<Option<seq<Token>>>)

  // The item survives in the configuration; a predicate that does not parse removes nothing.
  ghost predicate Satisfied(ts: seq<Token>, on: set<Tree>) {
    ParseWhole(ts).Some? ==> Truth(ParseWhole(ts).value, on)
  }

  ghost predicate AllSatisfied(applied: seq<Option<seq<Token>>>, on: set<Tree>) {
    forall q :: Some(q) in applied ==> Satisfied(q, on)
  }

  ghost predicate Kept(a: Attribute, on: set<Tree>) {
    match a
    case Cfg(p) => Satisfied(p, on)
    case CfgAttr(p, applied) => Satisfied(p, on) ==> AllSatisfied(applied, on)
  }

  ghost predicate AllParse(a: Attribute) {
    match a
    case Cfg(p) => ParseWhole(p).Some?
    case CfgAttr(p, applied) => ParseWhole(p).Some? && forall q :: Some(q) in applied ==> ParseWhole(q).Some?
  }

  // How many conditions of the text simplification leaves open.
  ghost function Openness(ts: seq<Token>): nat {
    match ParseWhole(ts)
    case None => 0
    case Some(t) => match Simplify(t) case Const(_) => 0 case Open(s) => |Collect(s)|
  }

  // The enumeration can tell which values the text takes.
  ghost predicate Enumerable(ts: seq<Token>) {
    Openness(ts) <= ATOM_LIMIT
  }

  // What is known of the text from the values returned for it.
  ghost predicate Known(ts: seq<Token>, values: set<bool>) {
    match ParseWhole(ts)
    case None => values == {false, true}
    case Some(t) =>
      && (forall b :: Attains(t, b) ==> b in values)
      && (Enumerable(ts) ==> forall b :: b in values ==> Attains(t, b))
      && (!Enumerable(ts) ==> values == {false, true})
  }

  // `_cfg_expression_values`: exactly the values the text takes, or both where that cannot be told.
  method ExpressionValues(ts: seq<Token>) returns (values: set<bool>)
    ensures Known(ts, values)
  {
    if ts == [] {
      return {false, true};
    }
    var node, pos := Parse(ts, 0);
    if node.None? || pos != |ts| {
      return {false, true};
    }
    values := ValuesWithoutTest(node.value);
  }

  ghost predicate NeverSatisfied(ts: seq<Token>) {
    forall on :: !Satisfied(ts, on)
  }

  ghost predicate AlwaysTrue(ts: seq<Token>) {
    ParseWhole(ts).Some? && forall on :: Truth(ParseWhole(ts).value, on)
  }

  lemma NeverIff(ts: seq<Token>, values: set<bool>)
    requires Known(ts, values)
    ensures true !in values <==> Enumerable(ts) && NeverSatisfied(ts)
  {
    match ParseWhole(ts)
    case None =>
      assert Satisfied(ts, {});
    case Some(t) =>
      forall on ensures Satisfied(ts, on) ==> true in values { assert Attains(t, Truth(t, on)); }
      if Enumerable(ts) && true in values {
        var on :| Truth(t, on) == true;
        assert Satisfied(ts, on);
      }
  }

  lemma AlwaysIff(ts: seq<Token>, values: set<bool>)
    requires Known(ts, values)
    ensures values == {true} <==> Enumerable(ts) && AlwaysTrue(ts)
  {
    match ParseWhole(ts)
    case None =>
      assert false in values;
    case Some(t) =>
      forall on ensures !Truth(t, on) ==> false in values { assert Attains(t, Truth(t, on)); }
      assert Attains(t, Truth(t, {}));
      if !Enumerable(ts) { assert false in values; }
      if Enumerable(ts) && AlwaysTrue(ts) {
        forall b | b in values ensures b == true { assert Attains(t, b); }
        assert true in values;
      }
  }

  // One condition alone removes the item: its own, or a single applied one under a condition that always holds.
  ghost predicate RemovedByOne(a: Attribute) {
    match a
    case Cfg(p) => NeverSatisfied(p)
    case CfgAttr(p, applied) => AlwaysTrue(p) && exists j :: 0 <= j < |applied| && Removes(applied[j])
  }

  ghost predicate Removes(applied: Option<seq<Token>>) {
    applied.Some? && NeverSatisfied(applied.value)
  }

  ghost predicate AllEnumerable(a: Attribute) {
    Enumerable(a.condition) && (a.CfgAttr? ==> forall q :: Some(q) in a.applied ==> Enumerable(q))
  }

  ghost predicate NeverKept(a: Attribute) {
    forall on :: !Kept(a, on)
  }

  // One condition alone removes the item, and the enumeration can tell.
  ghost predicate Erased(a: Attribute) {
    match a
    case Cfg(p) => Enumerable(p) && NeverSatisfied(p)
    case CfgAttr(p, applied) =>
      Enumerable(p) && AlwaysTrue(p)
      && exists j :: 0 <= j < |applied| && Removes(applied[j]) && Enumerable(applied[j].value)
  }

  // `_cfg_attribute_is_test_only`: it erases an item exactly when one condition alone removes it and the enumeration
  // can tell. Such an item exists in no production configuration. Everything the gate removes is among them.
  method AttributeIsTestOnly(a: Attribute) returns (erase: bool)
    ensures erase <==> Erased(a)
    ensures erase ==> NeverKept(a)
    ensures AllParse(a) && GateValue(a) == Ok(Some(false)) ==> erase
  {
    if AllParse(a) && GateValue(a) == Ok(Some(false)) { GateFalseIsErased(a); }
    if Erased(a) { ErasedIsNeverKept(a); }
    match a
    case Cfg(p) =>
      var values := ExpressionValues(p);
      NeverIff(p, values);
      return true !in values;
    case CfgAttr(p, applied) =>
      if applied == [] { return false; }
      var values := ExpressionValues(p);
      AlwaysIff(p, values);
      if values != {true} { return false; }
      erase := SomeRemoves(applied);
  }

  method SomeRemoves(applied: seq<Option<seq<Token>>>) returns (found: bool)
    ensures found <==> exists j :: 0 <= j < |applied| && Removes(applied[j]) && Enumerable(applied[j].value)
  {
    for i := 0 to |applied|
      invariant forall j :: 0 <= j < i ==> !(Removes(applied[j]) && Enumerable(applied[j].value))
    {
      if applied[i].Some? {
        var nested := ExpressionValues(applied[i].value);
        NeverIff(applied[i].value, nested);
        if true !in nested {
          assert Removes(applied[i]);
          return true;
        }
      }
    }
    return false;
  }

  lemma ErasedIsNeverKept(a: Attribute)
    requires Erased(a)
    ensures RemovedByOne(a) && NeverKept(a)
  {
    if a.CfgAttr? {
      var j :| 0 <= j < |a.applied| && Removes(a.applied[j]) && Enumerable(a.applied[j].value);
      assert Removes(a.applied[j]);
    }
    forall on ensures !Kept(a, on) { OneRemoves(a, on); }
  }

  lemma OneRemoves(a: Attribute, on: set<Tree>)
    requires RemovedByOne(a)
    ensures !Kept(a, on)
  {
    if a.CfgAttr? {
      var j :| 0 <= j < |a.applied| && Removes(a.applied[j]);
      assert Some(a.applied[j].value) in a.applied && !Satisfied(a.applied[j].value, on);
    }
  }

  lemma DecidedFalse(ts: seq<Token>)
    requires ParseWhole(ts).Some? && Kleene(ts) == Some(false)
    ensures NeverSatisfied(ts) && Enumerable(ts)
  {
    DecidedIsTruth(ts, ParseWhole(ts).value, false);
  }

  lemma DecidedTrue(ts: seq<Token>)
    requires ParseWhole(ts).Some? && Kleene(ts) == Some(true)
    ensures AlwaysTrue(ts) && Enumerable(ts)
  {
    DecidedIsTruth(ts, ParseWhole(ts).value, true);
  }

  lemma GateFalseIsErased(a: Attribute)
    requires AllParse(a) && GateValue(a) == Ok(Some(false))
    ensures Erased(a)
  {
    match a
    case Cfg(p) => DecidedFalse(p);
    case CfgAttr(p, applied) =>
      GateFalseHasFalsePart(a);
      var j :| 0 <= j < |applied| && applied[j].Some? && Kleene(applied[j].value) == Some(false);
      assert Some(applied[j].value) in applied;
      DecidedTrue(p);
      DecidedFalse(applied[j].value);
      assert Removes(applied[j]) && Enumerable(applied[j].value);
  }

  // ----- The gate's decision on the same attributes -----

  function AppliedValues(applied: seq<Option<seq<Token>>>): seq<Option<bool>> {
    if applied == [] then []
    else (if applied[0].Some? then [Kleene(applied[0].value)] else []) + AppliedValues(applied[1..])
  }

  datatype AttributeError = NoAppliedAttribute

  // `_cfg_attribute_value`.
  function GateValue(a: Attribute): Result<Option<bool>, AttributeError> {
    match a
    case Cfg(p) => Ok(Kleene(p))
    case CfgAttr(p, applied) =>
      if applied == [] then Err(NoAppliedAttribute)
      else if Kleene(p) == Some(false) then Ok(Some(true))
      else
        var values := AppliedValues(applied);
        if values == [] then Ok(Some(true))
        else
          var all := Decide("all", values);
          if Kleene(p) == Some(true) then Ok(all) else Ok(if all == Some(true) then all else None)
  }

  lemma {:induction false} AppliedFrom(applied: seq<Option<seq<Token>>>, v: Option<bool>) returns (q: seq<Token>)
    requires v in AppliedValues(applied)
    ensures Some(q) in applied && Kleene(q) == v
    decreases |applied|
  {
    if applied[0].Some? && Kleene(applied[0].value) == v {
      q := applied[0].value;
    } else {
      q := AppliedFrom(applied[1..], v);
    }
  }

  lemma {:induction false} AppliedListed(applied: seq<Option<seq<Token>>>, q: seq<Token>)
    requires Some(q) in applied
    ensures Kleene(q) in AppliedValues(applied)
    decreases |applied|
  {
    if applied[0] != Some(q) { AppliedListed(applied[1..], q); }
  }

  lemma GateFalseHasFalsePart(a: Attribute)
    requires a.CfgAttr? && GateValue(a) == Ok(Some(false))
    ensures Kleene(a.condition) == Some(true)
    ensures exists j :: 0 <= j < |a.applied| && a.applied[j].Some? && Kleene(a.applied[j].value) == Some(false)
  {
    var q := AppliedFrom(a.applied, Some(false));
    var j :| 0 <= j < |a.applied| && a.applied[j] == Some(q);
  }

  // The item survives under these readings of its condition and of the applied ones.
  predicate Survives(condition: bool, applied: seq<bool>) {
    condition ==> false !in applied
  }

  predicate Respects(condition: Option<bool>, c: bool) {
    condition.Some? ==> condition.value == c
  }

  // Every reading of the conditions that respects what is decided keeps the item, or none does.
  ghost predicate SettlesItem(condition: Option<bool>, applied: seq<Option<bool>>, kept: bool) {
    forall c, readings :: Respects(condition, c) && Agree(applied, readings) ==> Survives(c, readings) == kept
  }

  // With an applied attribute the gate decides exactly when the decided conditions settle the item; without one it
  // reports an error.
  lemma GateDecidesIffSettled(a: Attribute, kept: bool)
    requires a.CfgAttr?
    ensures GateValue(a).Err? <==> a.applied == []
    ensures a.applied != [] ==>
      (GateValue(a) == Ok(Some(kept)) <==> SettlesItem(Kleene(a.condition), AppliedValues(a.applied), kept))
  {
    if a.applied != [] { SettlesItemIff(Kleene(a.condition), AppliedValues(a.applied), kept); }
  }

  lemma SettlesItemIff(condition: Option<bool>, applied: seq<Option<bool>>, kept: bool)
    ensures SettlesItem(condition, applied, kept)
       <==> || (condition == Some(false) && kept)
            || (condition == Some(true) && Decide("all", applied) == Some(kept))
            || (condition == None && Decide("all", applied) == Some(true) && kept)
  {
    DecidesIffSettled("all", applied, kept);
    DecidesIffSettled("all", applied, true);
    FilledAgrees(applied, true, false);
    if SettlesItem(condition, applied, kept) {
      if condition != Some(true) {
        assert Respects(condition, false) && Survives(false, Filled(applied, true)) == kept;
      }
      if condition != Some(false) {
        assert Respects(condition, true);
        forall readings, other | Agree(applied, readings) ensures Combined("all", readings, other) == kept {
          assert Survives(true, readings) == kept;
        }
      }
    }
    forall c, readings | Respects(condition, c) && Agree(applied, readings)
      ensures Settles("all", applied, kept) && c ==> Survives(c, readings) == kept
      ensures Settles("all", applied, true) || !c ==> Survives(c, readings)
    {
      assert Combined("all", readings, true) == (false !in readings);
    }
  }

  // The gate removes only what no production configuration keeps, and certifies only
  // what every production configuration keeps.
  lemma GateDecisionSound(a: Attribute, on: set<Tree>)
    requires AllParse(a)
    ensures GateValue(a) == Ok(Some(false)) ==> !Kept(a, on)
    ensures GateValue(a) == Ok(Some(true)) ==> Kept(a, on)
  {
    match a
    case Cfg(p) =>
      if Kleene(p).Some? { DecidedIsTruth(p, ParseWhole(p).value, Kleene(p).value); }
    case CfgAttr(p, applied) =>
      if Kleene(p).Some? { DecidedIsTruth(p, ParseWhole(p).value, Kleene(p).value); }
      if GateValue(a) == Ok(Some(false)) {
        var q := AppliedFrom(applied, Some(false));
        DecidedIsTruth(q, ParseWhole(q).value, false);
      }
      if GateValue(a) == Ok(Some(true)) && Kleene(p) != Some(false) {
        forall q | Some(q) in applied ensures Satisfied(q, on) {
          AppliedListed(applied, q);
          DecidedIsTruth(q, ParseWhole(q).value, true);
        }
      }
  }

  // ----- Text the parser refuses -----

  // The item survives when the text is read with an arbitrary oracle for what the gate does not understand.
  ghost predicate KeptBy(a: Attribute, oracle: seq<Token> -> bool) {
    match a
    case Cfg(p) => Reading(p, oracle)
    case CfgAttr(p, applied) => Reading(p, oracle) ==> forall q :: Some(q) in applied ==> Reading(q, oracle)
  }

  // On any text at all, parsed or not, the gate's decision holds whatever the parts it cannot decide may mean.
  lemma GateDecisionSoundForAnyText(a: Attribute, oracle: seq<Token> -> bool)
    ensures GateValue(a) == Ok(Some(false)) ==> !KeptBy(a, oracle)
    ensures GateValue(a) == Ok(Some(true)) ==> KeptBy(a, oracle)
  {
    match a
    case Cfg(p) =>
      DecidedReading(p, oracle);
    case CfgAttr(p, applied) =>
      DecidedReading(p, oracle);
      if GateValue(a) == Ok(Some(false)) {
        var q := AppliedFrom(applied, Some(false));
        DecidedReading(q, oracle);
      }
      if GateValue(a) == Ok(Some(true)) && Kleene(p) != Some(false) {
        forall q | Some(q) in applied ensures Reading(q, oracle) {
          AppliedListed(applied, q);
          DecidedReading(q, oracle);
        }
      }
  }
}
