/** When the auditor erases an item that no production configuration keeps: exactly
    how many conditions, with how many open atoms each, it can always see through. */
module CfgErasure {
  import opened Outcomes
  import opened CfgTree
  import opened CfgParser
  import opened CfgDecisions
  import opened CfgAttributes

  // ----- One applied condition -----

  ghost predicate AtMostOne(applied: seq<Option<seq<Token>>>) {
    forall j, k :: 0 <= j < k < |applied| ==> applied[j].None? || applied[k].None?
  }

  // The applied condition that fails in one configuration.
  lemma FailsSomewhere(a: Attribute, on: set<Tree>) returns (j: nat)
    requires a.CfgAttr? && !Kept(a, on)
    ensures Satisfied(a.condition, on) && j < |a.applied| && a.applied[j].Some?
    ensures Some(a.applied[j].value) in a.applied && !Satisfied(a.applied[j].value, on)
  {
    var q :| Some(q) in a.applied && !Satisfied(q, on);
    j :| 0 <= j < |a.applied| && a.applied[j] == Some(q);
  }

  // With at most one applied condition, an item no configuration keeps is removed by one condition alone.
  lemma SingleConditionIsExact(a: Attribute)
    requires AllParse(a) && (a.CfgAttr? ==> AtMostOne(a.applied))
    ensures NeverKept(a) <==> RemovedByOne(a)
  {
    if RemovedByOne(a) {
      forall on ensures !Kept(a, on) { OneRemoves(a, on); }
    }
    if NeverKept(a) {
      if a.Cfg? {
        forall on ensures !Satisfied(a.condition, on) { assert !Kept(a, on); }
      } else {
        var j := FailsSomewhere(a, {});
        forall on ensures Truth(ParseWhole(a.condition).value, on) && !Satisfied(a.applied[j].value, on) {
          var k := FailsSomewhere(a, on);
        }
        assert Removes(a.applied[j]);
      }
    }
  }

  // Such an item is erased exactly when all its conditions parse and none has more open atoms than the limit.
  lemma ErasedIffEnumerable(a: Attribute)
    requires NeverKept(a) && (a.CfgAttr? ==> AtMostOne(a.applied))
    ensures Erased(a) <==> AllParse(a) && AllEnumerable(a)
  {
    if a.Cfg? {
      forall on ensures !Satisfied(a.condition, on) { assert !Kept(a, on); }
      assert !Satisfied(a.condition, {});
    } else {
      var j := FailsSomewhere(a, {});
      forall q | Some(q) in a.applied ensures q == a.applied[j].value {
        var k :| 0 <= k < |a.applied| && a.applied[k] == Some(q);
      }
      if AllParse(a) && AllEnumerable(a) {
        SingleConditionIsExact(a);
        var k :| 0 <= k < |a.applied| && Removes(a.applied[k]);
        assert Some(a.applied[k].value) in a.applied;
      }
    }
  }

  // ----- Two conditions -----

  const ALWAYS: seq<Token> := [Ident("all"), LParen, RParen]
  const UNIX: seq<Token> := [Ident("unix")]
  const NOT_UNIX: seq<Token> := [Ident("not"), LParen, Ident("unix"), RParen]

  lemma OneLegal(s: Syntax)
    requires Legal(s)
    ensures LegalEach([s])
  {
    assert [s][0] == s && LegalEach([s][1..]);
  }

  lemma ExamplesParse(always: Syntax, unix: Syntax, negated: Syntax)
    requires always == Group("all", [], false) && unix == Name("unix") && negated == Group("not", [unix], false)
    ensures ParseWhole(ALWAYS) == Some(All([])) && ParseWhole(UNIX) == Some(Atom(Plain("unix")))
    ensures ParseWhole(NOT_UNIX) == Some(Not(Atom(Plain("unix"))))
    ensures forall on :: Truth(All([]), on)
  {
    assert Print(always) == ALWAYS && Print(unix) == UNIX;
    OneLegal(unix);
    OneArg([unix], false);
    assert Print(negated) == NOT_UNIX;
    PrintedParses(always);
    PrintedParses(unix);
    PrintedParses(negated);
  }

  lemma ExamplesOpen()
    requires ParseWhole(ALWAYS) == Some(All([])) && ParseWhole(UNIX) == Some(Atom(Plain("unix")))
    requires ParseWhole(NOT_UNIX) == Some(Not(Atom(Plain("unix"))))
    ensures Openness(ALWAYS) == 0 && Openness(UNIX) == 1 && Openness(NOT_UNIX) == 1
  {
  }

  // Each of two conditions may leave what the other removes: the item is in no configuration, and it is not erased.
  lemma TwoConditionsRemoveTogether()
    ensures var a := CfgAttr(ALWAYS, [Some(UNIX), Some(NOT_UNIX)]);
            AllParse(a) && OpenWithin(a, 1) && NeverKept(a) && !RemovedByOne(a) && !Erased(a)
  {
    var a := CfgAttr(ALWAYS, [Some(UNIX), Some(NOT_UNIX)]);
    var always, unix := Group("all", [], false), Name("unix");
    ExamplesParse(always, unix, Group("not", [unix], false));
    ExamplesOpen();
    assert a.applied[0] == Some(UNIX) && a.applied[1] == Some(NOT_UNIX);
    forall on ensures !Kept(a, on) {
      assert Some(UNIX) in a.applied && Some(NOT_UNIX) in a.applied;
    }
    assert Satisfied(UNIX, {Atom(Plain("unix"))}) && Satisfied(NOT_UNIX, {});
    forall q | Some(q) in a.applied ensures q == UNIX || q == NOT_UNIX {}
    if Erased(a) { ErasedIsNeverKept(a); }
  }

  // ----- More open atoms than the limit -----

  // The names a, aa, aaa and so on.
  function NthName(i: nat): string {
    seq(i + 1, _ => 'a')
  }

  function NthAtom(i: nat): Tree {
    Atom(Plain(NthName(i)))
  }

  // The arguments a, aa, ..., not(a), from the given name on, and their trees.
  function Crowd(i: nat, n: nat): seq<Syntax>
    decreases n - i
  {
    if i >= n then [Group("not", [Name(NthName(0))], false)] else [Name(NthName(i))] + Crowd(i + 1, n)
  }

  function CrowdTrees(i: nat, n: nat): seq<Tree>
    decreases n - i
  {
    if i >= n then [Not(NthAtom(0))] else [NthAtom(i)] + CrowdTrees(i + 1, n)
  }

  lemma {:induction false} CrowdMeans(i: nat, n: nat)
    ensures LegalEach(Crowd(i, n)) && MeaningEach(Crowd(i, n)) == CrowdTrees(i, n)
    decreases n - i
  {
    if i >= n {
      var first := Name(NthName(0));
      OneLegal(first);
      OneArg([first], false);
      OneLegal(Group("not", [first], false));
      OneArg(Crowd(i, n), false);
    } else {
      CrowdMeans(i + 1, n);
      assert Crowd(i, n)[1..] == Crowd(i + 1, n);
    }
  }

  lemma NthIsOpen(i: nat)
    ensures NthAtom(i) != TEST && Simplify(NthAtom(i)) == Open(NthAtom(i))
  {
    assert NthName(i)[0] == 'a' && "test"[0] == 't';
  }

  lemma {:induction false} CrowdStaysOpen(i: nat, n: nat)
    ensures var children := SimplifyEach(CrowdTrees(i, n));
            Const(false) !in children && Remaining(children) == CrowdTrees(i, n)
    decreases n - i
  {
    var trees := CrowdTrees(i, n);
    var children := SimplifyEach(trees);
    if i >= n {
      NthIsOpen(0);
      assert trees[1..] == [] && children == [Open(Not(NthAtom(0)))] && children[1..] == [];
    } else {
      CrowdStaysOpen(i + 1, n);
      NthIsOpen(i);
      assert trees[1..] == CrowdTrees(i + 1, n);
      assert children == [Open(NthAtom(i))] + SimplifyEach(CrowdTrees(i + 1, n));
      assert children[1..] == SimplifyEach(CrowdTrees(i + 1, n));
    }
  }

  function NthAtoms(i: nat, n: nat): set<Tree>
    decreases n - i
  {
    if i >= n then {} else {NthAtom(i)} + NthAtoms(i + 1, n)
  }

  lemma {:induction false} CrowdCollects(i: nat, n: nat)
    ensures CollectEach(CrowdTrees(i, n)) == NthAtoms(i, n) + {NthAtom(0)}
    decreases n - i
  {
    if i < n {
      CrowdCollects(i + 1, n);
      assert CrowdTrees(i, n)[1..] == CrowdTrees(i + 1, n);
    } else {
      assert CrowdTrees(i, n)[1..] == [];
    }
  }

  lemma {:induction false} AtomsApart(i: nat, n: nat, k: nat)
    requires i <= n && k < i
    ensures |NthAtoms(i, n)| == n - i && NthAtom(k) !in NthAtoms(i, n)
    decreases n - i
  {
    if i < n {
      AtomsApart(i + 1, n, i);
      AtomsApart(i + 1, n, k);
      assert |NthName(k)| != |NthName(i)|;
    }
  }

  lemma {:induction false} CrowdNeverHolds(i: nat, n: nat, on: set<Tree>)
    ensures TruthAll(CrowdTrees(i, n), on) ==> !Truth(NthAtom(0), on)
    decreases n - i
  {
    if i < n {
      CrowdNeverHolds(i + 1, n, on);
      assert CrowdTrees(i, n)[1..] == CrowdTrees(i + 1, n);
    } else {
      assert CrowdTrees(i, n)[0] == Not(NthAtom(0));
      assert Truth(Not(NthAtom(0)), on) == !Truth(NthAtom(0), on);
    }
  }

  // `cfg(all(a, aa, ..., not(a)))` with n names.
  function CrowdedAttribute(n: nat): Attribute {
    Cfg(Print(Group("all", Crowd(0, n), false)))
  }

  lemma CrowdParses(n: nat)
    ensures ParseWhole(CrowdedAttribute(n).condition) == Some(All(CrowdTrees(0, n)))
  {
    var s := Group("all", Crowd(0, n), false);
    CrowdMeans(0, n);
    PrintedParses(s);
  }

  lemma CrowdOpenness(n: nat)
    requires n > 0
    ensures Openness(CrowdedAttribute(n).condition) == n
  {
    var trees := CrowdTrees(0, n);
    CrowdParses(n);
    CrowdStaysOpen(0, n);
    assert Simplify(All(trees)) == Open(All(trees)) && Collect(All(trees)) == CollectEach(trees);
    CrowdCollects(0, n);
    AtomsApart(1, n, 0);
    assert NthAtoms(0, n) + {NthAtom(0)} == {NthAtom(0)} + NthAtoms(1, n);
  }

  lemma CrowdFalse(n: nat, on: set<Tree>)
    requires n > 0
    ensures !Truth(All(CrowdTrees(0, n)), on)
  {
    CrowdNeverHolds(0, n, on);
    assert CrowdTrees(0, n)[0] == NthAtom(0);
  }

  // It is in no configuration; with more names than the limit it is not erased.
  lemma CrowdIsKept(n: nat)
    requires n > 0
    ensures var a := CrowdedAttribute(n);
            AllParse(a) && NeverKept(a) && Openness(a.condition) == n && (Erased(a) <==> n <= 16)
  {
    var a := CrowdedAttribute(n);
    CrowdParses(n);
    CrowdOpenness(n);
    forall on ensures !Kept(a, on) { CrowdFalse(n, on); }
    ErasedIffEnumerable(a);
  }

  // ----- Exactly how far erasing goes -----

  function Conditions(applied: seq<Option<seq<Token>>>): nat {
    if applied == [] then 0 else (if applied[0].Some? then 1 else 0) + Conditions(applied[1..])
  }

  lemma {:induction false} CountedTwice(applied: seq<Option<seq<Token>>>, j: nat, k: nat)
    requires j < k < |applied| && applied[j].Some? && applied[k].Some?
    ensures Conditions(applied) >= 2
    decreases |applied|
  {
    if j > 0 { CountedTwice(applied[1..], j - 1, k - 1); } else { CountedOnce(applied[1..], k - 1); }
  }

  lemma {:induction false} CountedOnce(applied: seq<Option<seq<Token>>>, k: nat)
    requires k < |applied| && applied[k].Some?
    ensures Conditions(applied) >= 1
    decreases |applied|
  {
    if k > 0 { CountedOnce(applied[1..], k - 1); }
  }

  // No condition of the attribute has more open atoms than this.
  ghost predicate OpenWithin(a: Attribute, n: nat) {
    Openness(a.condition) <= n && (a.CfgAttr? ==> forall q :: Some(q) in a.applied ==> Openness(q) <= n)
  }

  ghost predicate AppliesWithin(a: Attribute, k: nat) {
    a.CfgAttr? ==> Conditions(a.applied) <= k
  }

  // Every never-compiled item is erased, given at most `k` applied conditions and `n` open atoms in each.
  ghost predicate ErasesWithin(k: nat, n: nat) {
    forall a :: AllParse(a) && NeverKept(a) && AppliesWithin(a, k) && OpenWithin(a, n) ==> Erased(a)
  }

  // A text with nothing open has one value.
  lemma ClosedIsConstant(ts: seq<Token>, on: set<Tree>)
    requires ParseWhole(ts).Some? && Openness(ts) == 0
    ensures Satisfied(ts, on) == Satisfied(ts, {})
  {
    var t := ParseWhole(ts).value;
    SimplifyKeepsTruth(t, on);
    SimplifyKeepsTruth(t, {});
    if Simplify(t).Open? {
      var s := Simplify(t).tree;
      SimplifyDropsTest(t);
      assert Collect(s) == {};
      EvaluateIsTruth(s, {}, on);
      EvaluateIsTruth(s, {}, {});
    }
  }

  // Without open atoms any number of conditions is seen through.
  lemma ClosedIsErased(a: Attribute)
    requires AllParse(a) && NeverKept(a) && OpenWithin(a, 0)
    ensures Erased(a)
  {
    if a.Cfg? {
      ErasedIffEnumerable(a);
    } else {
      var j := FailsSomewhere(a, {});
      forall on ensures Truth(ParseWhole(a.condition).value, on) && !Satisfied(a.applied[j].value, on) {
        var k := FailsSomewhere(a, on);
        ClosedIsConstant(a.applied[j].value, on);
      }
      assert Removes(a.applied[j]) && Enumerable(a.applied[j].value);
    }
  }

  lemma FewIsErased(a: Attribute, k: nat, n: nat)
    requires AllParse(a) && NeverKept(a) && AppliesWithin(a, k) && OpenWithin(a, n) && k <= 1 && n <= ATOM_LIMIT
    ensures Erased(a)
  {
    if a.CfgAttr? {
      forall i, j | 0 <= i < j < |a.applied| ensures a.applied[i].None? || a.applied[j].None? {
        if a.applied[i].Some? && a.applied[j].Some? { CountedTwice(a.applied, i, j); }
      }
    }
    ErasedIffEnumerable(a);
  }

  // Erasing is complete exactly for at most one applied condition within the atom limit, or where nothing is open.
  lemma ErasesExactly(k: nat, n: nat)
    ensures ErasesWithin(k, n) <==> n == 0 || (k <= 1 && n <= 16)
  {
    if n == 0 || (k <= 1 && n <= ATOM_LIMIT) {
      forall a | AllParse(a) && NeverKept(a) && AppliesWithin(a, k) && OpenWithin(a, n) ensures Erased(a) {
        if n == 0 { ClosedIsErased(a); } else { FewIsErased(a, k, n); }
      }
    } else if n > ATOM_LIMIT {
      var a := CrowdedAttribute(ATOM_LIMIT + 1);
      CrowdIsKept(ATOM_LIMIT + 1);
      assert AppliesWithin(a, k) && OpenWithin(a, n);
    } else {
      TwoConditionsRemoveTogether();
      var a := CfgAttr(ALWAYS, [Some(UNIX), Some(NOT_UNIX)]);
      assert Conditions(a.applied) == 2 by {
        assert a.applied[1..] == [Some(NOT_UNIX)] && [Some(NOT_UNIX)][1..] == [];
        assert Conditions([Some(NOT_UNIX)]) == 1;
      }
      assert AppliesWithin(a, k) && OpenWithin(a, n);
    }
  }
}
