/** Draining: how many calls it takes, what it hands back, and what it leaves behind. */
module RequestDrain {
  import opened Outcomes
  import opened RequestTable
  import opened RequestRuns

  function DrainableCount(slots: seq<Slot>): nat {
    if slots == [] then 0 else DrainableCount(slots[..|slots| - 1]) + if Drainable(slots[|slots| - 1]) then 1 else 0
  }

  // The owners of the slots that draining may empty.
  function DrainableOwners(slots: seq<Slot>): multiset<Owner> {
    if slots == [] then multiset{}
    else
      var last := slots[|slots| - 1];
      DrainableOwners(slots[..|slots| - 1]) + if Drainable(last) then multiset{last.owner} else multiset{}
  }

  lemma UpdatedFront(slots: seq<Slot>, i: nat, s: Slot)
    requires i < |slots|
    ensures var n := |slots| - 1; slots[i := s][..n] == if i == n then slots[..n] else slots[..n][i := s]
  {
  }

  lemma {:induction false} DrainOne(slots: seq<Slot>, i: nat, s: Slot)
    requires i < |slots| && Drainable(slots[i]) && !Drainable(s)
    ensures DrainableCount(slots) == DrainableCount(slots[i := s]) + 1
    decreases |slots|
  {
    UpdatedFront(slots, i, s);
    if i < |slots| - 1 { DrainOne(slots[..|slots| - 1], i, s); }
  }

  lemma {:induction false} DrainOwner(slots: seq<Slot>, i: nat, s: Slot)
    requires i < |slots| && Drainable(slots[i]) && !Drainable(s)
    ensures DrainableOwners(slots) == DrainableOwners(slots[i := s]) + multiset{slots[i].owner}
    decreases |slots|
  {
    UpdatedFront(slots, i, s);
    if i < |slots| - 1 { DrainOwner(slots[..|slots| - 1], i, s); }
  }

  lemma {:induction false} NoneDrainable(slots: seq<Slot>)
    requires DrainableCount(slots) == 0
    ensures DrainableOwners(slots) == multiset{}
    ensures forall i :: 0 <= i < |slots| ==> !Drainable(slots[i])
    decreases |slots|
  {
    if slots != [] {
      var n := |slots| - 1;
      NoneDrainable(slots[..n]);
      forall i | 0 <= i < |slots| ensures !Drainable(slots[i]) {
        if i < n { assert slots[i] == slots[..n][i]; }
      }
    }
  }

  function Drains(k: nat): seq<Op> {
    seq(k, _ => DoDrainNext)
  }

  predicate Unsettled(s: Slot) {
    s.Live? && !Drainable(s)
  }

  lemma DrainTakes(t: Table) returns (i: nat)
    requires t.mode == Draining && DrainableCount(t.slots) > 0
    ensures i < |t.slots| && Drainable(t.slots[i]) && DrainNext(t) == (Release(t, i).0, Ok(Some(Release(t, i).1)))
  {
    SomeDrainable(t.slots);
    i := FirstDrainable(t.slots, 0).value;
  }

  // One call: a drainable slot is emptied and its owner handed back; slots with a capture are left alone.
  lemma DrainStep(w: World)
    requires w.t.mode == Draining && DrainableCount(w.t.slots) > 0
    ensures var w' := Next(w, DoDrainNext);
            && w'.t.mode == Draining && |w'.t.slots| == |w.t.slots|
            && DrainableCount(w.t.slots) == DrainableCount(w'.t.slots) + 1
            && w'.released + DrainableOwners(w'.t.slots) == w.released + DrainableOwners(w.t.slots)
            && forall i :: 0 <= i < |w.t.slots| ==> Unsettled(w'.t.slots[i]) == Unsettled(w.t.slots[i])
  {
    var i := DrainTakes(w.t);
    var emptied := Release(w.t, i).0.slots[i];
    DrainOne(w.t.slots, i, emptied);
    DrainOwner(w.t.slots, i, emptied);
  }

  lemma {:induction false} SomeDrainable(slots: seq<Slot>)
    requires DrainableCount(slots) > 0
    ensures exists i :: 0 <= i < |slots| && Drainable(slots[i])
    decreases |slots|
  {
    var n := |slots| - 1;
    if Drainable(slots[n]) {
    } else {
      SomeDrainable(slots[..n]);
      var i :| 0 <= i < n && Drainable(slots[..n][i]);
      assert Drainable(slots[i]);
    }
  }

  // After exactly as many calls as there are drainable slots, their owners and no others have been
  // handed back, and only slots with an unsettled capture are still live.
  lemma {:induction false} DrainsEverything(w: World, k: nat)
    requires w.t.mode == Draining && k <= DrainableCount(w.t.slots)
    ensures var w' := Run(w, Drains(k));
            && w'.t.mode == Draining && |w'.t.slots| == |w.t.slots|
            && DrainableCount(w.t.slots) == DrainableCount(w'.t.slots) + k
            && w'.released + DrainableOwners(w'.t.slots) == w.released + DrainableOwners(w.t.slots)
            && forall i :: 0 <= i < |w.t.slots| ==> Unsettled(w'.t.slots[i]) == Unsettled(w.t.slots[i])
    decreases k
  {
    if k > 0 {
      DrainsEverything(w, k - 1);
      assert Drains(k)[..k - 1] == Drains(k - 1);
      DrainStep(Run(w, Drains(k - 1)));
    }
  }

  // Draining reports completion exactly when no slot is live, and then every owner ever taken in has been handed back.
  lemma DrainedReturnsEveryOwner(w: World)
    requires Reached(w) && w.t.mode == Draining
    ensures DrainNext(w.t).1 == Ok(None) <==> forall i :: 0 <= i < |w.t.slots| ==> !w.t.slots[i].Live?
    ensures DrainNext(w.t).1 == Ok(None) ==> w.admitted == w.released
  {
    if DrainNext(w.t).1 == Ok(None) {
      forall o ensures w.admitted[o] == w.released[o] {
        OwnersConserved(w, o);
        NoneLive(w.t.slots, o);
      }
    }
  }

  // From a reached state with no capture under way, the drain ends with every owner handed back.
  lemma DrainEnds(w: World)
    requires Reached(w) && w.t.mode == Draining
    requires forall i :: 0 <= i < |w.t.slots| ==> !Unsettled(w.t.slots[i])
    ensures var w' := Run(w, Drains(DrainableCount(w.t.slots)));
            DrainNext(w'.t).1 == Ok(None) && w'.admitted == w'.released
  {
    var k := DrainableCount(w.t.slots);
    var w' := Run(w, Drains(k));
    DrainsEverything(w, k);
    NoneDrainable(w'.t.slots);
    forall i | 0 <= i < |w'.t.slots| ensures !w'.t.slots[i].Live? { assert !Unsettled(w.t.slots[i]); }
    ReachedRun(w, Drains(k));
    DrainedReturnsEveryOwner(w');
  }

  // ----- Captures under way -----

  function UnsettledCount(slots: seq<Slot>): nat {
    if slots == [] then 0 else UnsettledCount(slots[..|slots| - 1]) + if Unsettled(slots[|slots| - 1]) then 1 else 0
  }

  lemma {:induction false} SettleOne(slots: seq<Slot>, i: nat, s: Slot)
    requires i < |slots| && Unsettled(slots[i]) && !Unsettled(s)
    ensures UnsettledCount(slots) == UnsettledCount(slots[i := s]) + 1
    decreases |slots|
  {
    UpdatedFront(slots, i, s);
    if i < |slots| - 1 { SettleOne(slots[..|slots| - 1], i, s); }
  }

  // The token that names the capture in this slot.
  function TokenAt(t: Table, i: nat): Token
    requires i < |t.slots| && t.slots[i].Live?
  {
    Token(KeyAt(t, i), t.epoch, t.slots[i].id, t.slots[i].phase.opcode)
  }

  // Installing the candidate, if that is still to do, and putting it in quarantine.
  function Settle(t: Table, i: nat): seq<Op>
    requires i < |t.slots| && t.slots[i].Live?
  {
    (if t.slots[i].wire == Capturing then [DoInstall(TokenAt(t, i))] else []) + [DoQuarantine(TokenAt(t, i))]
  }

  lemma QuarantineSettles(w: World, i: nat)
    requires i < |w.t.slots| && w.t.slots[i].Live? && w.t.slots[i].wire == Captured && w.t.slots[i].id.slot == i
    ensures Next(w, DoQuarantine(TokenAt(w.t, i))) == w.(t := SetSlot(w.t, i, w.t.slots[i].(wire := Quarantined)))
  {
  }

  lemma InstallReadies(w: World, i: nat)
    requires i < |w.t.slots| && w.t.slots[i].Live? && w.t.slots[i].wire == Capturing && w.t.slots[i].id.slot == i
    ensures Next(w, DoInstall(TokenAt(w.t, i))) == w.(t := SetSlot(w.t, i, w.t.slots[i].(wire := Captured)))
  {
  }

  // While draining, a slot with a capture under way can be made drainable; nothing else changes.
  lemma SettleSlot(w: World, i: nat)
    requires i < |w.t.slots| && Unsettled(w.t.slots[i]) && w.t.slots[i].id.slot == i
    ensures Run(w, Settle(w.t, i)) == w.(t := SetSlot(w.t, i, w.t.slots[i].(wire := Quarantined)))
  {
    var quarantine := DoQuarantine(TokenAt(w.t, i));
    RunOne(w, quarantine);
    if w.t.slots[i].wire == Capturing {
      var install := DoInstall(TokenAt(w.t, i));
      var w1 := Next(w, install);
      InstallReadies(w, i);
      RunTwo(w, install, quarantine);
      QuarantineSettles(w1, i);
      assert w1.t.slots[i := w1.t.slots[i].(wire := Quarantined)] == w.t.slots[i := w.t.slots[i].(wire := Quarantined)];
    } else {
      QuarantineSettles(w, i);
    }
  }

  lemma RunTwo(w: World, a: Op, b: Op)
    ensures Run(w, [a] + [b]) == Next(Next(w, a), b)
  {
    RunOne(w, a);
    assert ([a] + [b])[..1] == [a];
  }

  lemma {:induction false} AllSettled(slots: seq<Slot>)
    requires UnsettledCount(slots) == 0
    ensures forall i :: 0 <= i < |slots| ==> !Unsettled(slots[i])
    decreases |slots|
  {
    if slots != [] {
      var n := |slots| - 1;
      AllSettled(slots[..n]);
      forall i | 0 <= i < |slots| ensures !Unsettled(slots[i]) {
        if i < n { assert slots[i] == slots[..n][i]; }
      }
    }
  }

  lemma {:induction false} SomeUnsettled(slots: seq<Slot>) returns (i: nat)
    requires UnsettledCount(slots) > 0
    ensures i < |slots| && Unsettled(slots[i])
    decreases |slots|
  {
    var n := |slots| - 1;
    if Unsettled(slots[n]) {
      i := n;
    } else {
      i := SomeUnsettled(slots[..n]);
      assert slots[..n][i] == slots[i];
    }
  }

  lemma {:induction false} CanSettle(w: World) returns (ops: seq<Op>)
    requires Reached(w) && w.t.mode == Draining
    ensures var w' := Run(w, ops); w'.t.mode == Draining && UnsettledCount(w'.t.slots) == 0
    decreases UnsettledCount(w.t.slots)
  {
    if UnsettledCount(w.t.slots) == 0 {
      ops := [];
    } else {
      var i := SomeUnsettled(w.t.slots);
      var first := Settle(w.t, i);
      var w1 := Run(w, first);
      ReachedInv(w);
      assert SlotOk(w.t.slots[i], i, w.t.epoch);
      SettleSlot(w, i);
      SettleOne(w.t.slots, i, w1.t.slots[i]);
      ReachedRun(w, first);
      var more := CanSettle(w1);
      ops := first + more;
      RunAppend(w, first, more);
    }
  }

  // From every reached draining state some run ends the drain, with every owner handed back.
  lemma DrainCanFinish(w: World) returns (ops: seq<Op>)
    requires Reached(w) && w.t.mode == Draining
    ensures var w' := Run(w, ops); DrainNext(w'.t).1 == Ok(None) && w'.admitted == w'.released
  {
    var settle := CanSettle(w);
    var w1 := Run(w, settle);
    var drain := Drains(DrainableCount(w1.t.slots));
    ReachedRun(w, settle);
    AllSettled(w1.t.slots);
    DrainEnds(w1);
    ops := settle + drain;
    RunAppend(w, settle, drain);
  }
}
