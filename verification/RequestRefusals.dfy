/** Why the request table refuses: every error of every operation says exactly one thing
    about the ledger, whatever a caller or a provider presents. */
module RequestRefusals {
  import opened Outcomes
  import opened RequestTable
  import opened RequestRuns
  import opened RequestLedger

  // The error a key alone calls for.
  ghost predicate KeyFault(t: Table, l: Ledger, key: Key, e: Error) {
    match e
    case ForeignTable => key.tableId != t.tableId
    case WrongClass => key.tableId == t.tableId && key.slot >= |t.slots|
    case StaleBirth => key.tableId == t.tableId && key !in l.live && Displaced(l, key)
    case Vacant => key.tableId == t.tableId && key.slot < |t.slots| && key !in l.live && !Displaced(l, key)
    case _ => false
  }

  lemma KeyFaultIs(t: Table, l: Ledger, key: Key, e: Error)
    requires Booked(t, l)
    ensures KeyError(t, key) == Some(e) <==> KeyFault(t, l, key, e)
    ensures KeyFault(t, l, key, e) ==> key !in l.live
  {
    KeyMeaning(t, l, key);
    assert LiveEntry(t, l, key);
    if other :| other in l.live && other.slot == key.slot && other != key { assert LiveEntry(t, l, other); }
  }

  // ----- Operations on a key -----

  // The operation wants the table in some mode and the request at some point; `e` says which of this is not so.
  ghost predicate Refused(t: Table, l: Ledger, key: Key, mode: bool, state: bool, e: Error) {
    if !mode then e == TableNotActive
    else if key in l.live then !state && e == WrongState
    else KeyFault(t, l, key, e)
  }

  lemma KeyOperations(w: World, l: Ledger, key: Key, e: Error)
    requires Inv(w) && Booked(w.t, l)
    ensures var t := w.t;
            var at := if key in l.live then Some(l.live[key].wire) else None;
            && (MarkVisible(t, key).1 == Err(e) <==> Refused(t, l, key, t.mode == Active, at == Some(Prepared), e))
            && (RecordCancel(t, key).1 == Err(e) <==> Refused(t, l, key, true, true, e))
            && (Withdraw(t, key).1 == Err(e) <==> Refused(t, l, key, true, at == Some(Prepared), e))
            && (RetainAfterFence(t, key).1 == Err(e) <==>
                Refused(t, l, key, t.mode == Fencing, at == Some(Visible), e))
  {
    KeyFaultIs(w.t, l, key, e);
    KeyMeaning(w.t, l, key);
    assert LiveEntry(w.t, l, key);
  }

  lemma FencedOperation(w: World, l: Ledger, key: Key, e: Error)
    requires Inv(w) && Booked(w.t, l)
    ensures var t := w.t;
            var ready := key in l.live && l.live[key].cancel && l.live[key].wire in {Visible, Between, Exhausted};
            TerminalizeAfterFence(t, key).1 == Err(e) <==> Refused(t, l, key, t.mode == Fencing, ready, e)
  {
    KeyFaultIs(w.t, l, key, e);
    KeyMeaning(w.t, l, key);
    assert LiveEntry(w.t, l, key);
  }

  lemma PhaseOperation(w: World, l: Ledger, key: Key, phase: Phase, e: Error)
    requires Reached(w) && Booked(w.t, l) && e != GenerationExhausted
    ensures var between := key in l.live && l.live[key].wire == Between;
            BeginPhase(w.t, key, phase).1 == Err(e) <==> Refused(w.t, l, key, w.t.mode == Active, between, e)
  {
    KeyFaultIs(w.t, l, key, e);
    KeyMeaning(w.t, l, key);
    PhaseMeaning(w, l, key, phase);
    assert LiveEntry(w.t, l, key);
  }

  // ----- Admission -----

  lemma AdmitRefusals(w: World, phase: Phase, owner: Owner)
    requires Reached(w)
    ensures var r := Admit(w.t, phase, owner).1;
            && (r == Err(TableNotActive) <==> w.t.mode != Active)
            && (r == Err(SessionGenerationExhausted) <==>
                w.t.mode == Active && forall i :: 0 <= i < |w.t.slots| ==> w.t.slots[i].Retired?)
            && (r == Err(Full) <==>
                && w.t.mode == Active && (exists i :: 0 <= i < |w.t.slots| && !w.t.slots[i].Retired?)
                && forall i :: 0 <= i < |w.t.slots| ==> !w.t.slots[i].Free?)
  {
    AdmitIff(w, phase, owner);
  }

  // ----- Captures -----

  // A live request of this slot.
  ghost predicate Occupies(l: Ledger, slot: nat, key: Key) {
    key in l.live && key.slot == slot
  }

  // What is wrong with an id that names a slot of the table, in this session.
  ghost predicate IdFault(t: Table, l: Ledger, completion: bool, id: ReqId, e: Error)
    requires id.slot < |t.slots|
  {
    match e
    case StaleCurrentGeneration => exists key :: Occupies(l, id.slot, key) && l.live[key].id != id
    case CaptureInProgress =>
      exists key :: Occupies(l, id.slot, key) && l.live[key].id == id && l.live[key].wire == Capturing
    case CandidateInstalled =>
      exists key :: Occupies(l, id.slot, key) && l.live[key].id == id && l.live[key].wire == Captured
    case WrongKind =>
      exists key :: Occupies(l, id.slot, key) && l.live[key].id == id && l.live[key].wire == Visible
        && !completion && !l.live[key].phase.journaled
    case NotVisible =>
      || (exists key :: Occupies(l, id.slot, key) && l.live[key].id == id
            && l.live[key].wire in {Between, Prepared, Quarantined, Exhausted})
      || exists r :: r in l.owed && r.key.slot == id.slot
    case Vacant => t.slots[id.slot].Free?
    case RetiredSlot => t.slots[id.slot].Retired?
    case _ => false
  }

  lemma SlotEntries(t: Table, l: Ledger, slot: nat)
    requires Booked(t, l) && slot < |t.slots|
    ensures forall key :: Occupies(l, slot, key) <==> t.slots[slot].Live? && key == KeyAt(t, slot)
    ensures t.slots[slot].Live? ==>
      Occupies(l, slot, KeyAt(t, slot)) && l.live[KeyAt(t, slot)] == RequestOf(t.slots[slot])
    ensures t.slots[slot].Terminalizing? <==> exists r :: r in l.owed && r.key.slot == slot
  {
    var s := t.slots[slot];
    forall key ensures Occupies(l, slot, key) <==> s.Live? && key == KeyAt(t, slot) { assert LiveEntry(t, l, key); }
    if s.Live? { assert LiveEntry(t, l, KeyAt(t, slot)); }
    if s.Terminalizing? { assert OwedEntry(t, l, ReceiptAt(t, slot)) && ReceiptAt(t, slot).key.slot == slot; }
    if r :| r in l.owed && r.key.slot == slot { assert OwedEntry(t, l, r); }
  }

  lemma LiveFault(t: Table, l: Ledger, completion: bool, id: ReqId, e: Error)
    requires Booked(t, l) && id.slot < |t.slots| && t.slots[id.slot].Live?
    ensures var s := t.slots[id.slot];
            var fault := if s.id != id then StaleCurrentGeneration
                         else if s.wire == Visible then WrongKind
                         else CaptureStateError(s.wire);
            var allowed := s.id == id && s.wire == Visible && (completion || s.phase.journaled);
            IdFault(t, l, completion, id, e) <==> !allowed && e == fault
  {
    SlotEntries(t, l, id.slot);
  }

  lemma IdFaultIs(w: World, l: Ledger, epoch: nat, completion: bool, raw: nat, e: Error)
    requires Inv(w) && Booked(w.t, l) && w.t.mode != Draining && epoch == w.t.epoch
    requires FromRaw(raw).generation > 0 && FromRaw(raw).slot < |w.t.slots|
    ensures BeginCapture(w.t, epoch, completion, raw).1 == Err(e)
       <==> IdFault(w.t, l, completion, FromRaw(raw), e)
  {
    var id := FromRaw(raw);
    assert raw != 0;
    if w.t.slots[id.slot].Live? {
      LiveFault(w.t, l, completion, id, e);
    } else {
      SlotEntries(w.t, l, id.slot);
    }
  }

  lemma CaptureRefusals(w: World, l: Ledger, epoch: nat, completion: bool, raw: nat, e: Error)
    requires Inv(w) && Booked(w.t, l)
    ensures var r := BeginCapture(w.t, epoch, completion, raw).1;
            var here := w.t.mode != Draining && epoch == w.t.epoch;
            && (r == Err(TableNotActive) <==> w.t.mode == Draining)
            && (r == Err(WrongSession) <==> w.t.mode != Draining && epoch != w.t.epoch)
            && (r == Err(ZeroRequestId) <==> here && raw == 0)
            && (r == Err(ZeroGeneration) <==> here && 0 < raw < 0x100_0000)
            && (r == Err(UnassignedIndex) <==> here && raw >= 0x100_0000 && raw % 0x100_0000 >= |w.t.slots|)
            && (here && raw >= 0x100_0000 && raw % 0x100_0000 < |w.t.slots| ==>
                  (r == Err(e) <==> IdFault(w.t, l, completion, FromRaw(raw), e)))
  {
    assert raw / INDEX_LIMIT > 0 <==> raw >= INDEX_LIMIT;
    if w.t.mode != Draining && epoch == w.t.epoch && raw >= INDEX_LIMIT && raw % INDEX_LIMIT < |w.t.slots| {
      IdFaultIs(w, l, epoch, completion, raw, e);
    }
  }

  // ----- Tokens and receipts -----

  lemma InstallRefusals(w: World, l: Ledger, token: Token)
    requires Inv(w) && Booked(w.t, l)
    ensures var r := InstallCandidate(w.t, token).1;
            var ours := token.key.tableId == w.t.tableId;
            var named := ours && token.id.slot == token.key.slot < |w.t.slots|;
            var live := named && token.key in l.live;
            var same := live && token.wireEpoch == w.t.epoch && token.id == l.live[token.key].id
                        && token.opcode == l.live[token.key].phase.opcode;
            && (r == Err(ForeignTable) <==> !ours)
            && (r == Err(WrongClass) <==> ours && !named)
            && (r == Err(StaleBirth) <==> named && !live)
            && (r == Err(StaleWireIdentity) <==> live && !same)
            && (r == Err(WrongState) <==> same && l.live[token.key].wire != Capturing)
  {
    assert LiveEntry(w.t, l, token.key);
  }

  lemma CandidateRefusals(w: World, l: Ledger, token: Token, e: Error)
    requires Inv(w) && Booked(w.t, l)
    ensures var r := CandidateError(w.t, token);
            var ours := token.key.tableId == w.t.tableId;
            var named := ours && token.id.slot == token.key.slot;
            && (r == Some(ForeignTable) <==> !ours)
            && (ours && !named ==> r == Some(WrongClass))
            && (named && token.key !in l.live ==> (r == Some(e) <==> KeyFault(w.t, l, token.key, e)))
            && (r == Some(WrongState) <==> named && token.key in l.live && !Stands(w.t, l, token, Captured))
  {
    KeyFaultIs(w.t, l, token.key, e);
    KeyMeaning(w.t, l, token.key);
    CandidateMeaning(w, l, token);
    assert LiveEntry(w.t, l, token.key);
  }

  lemma ReclaimRefusals(w: World, l: Ledger, r: Receipt)
    requires Inv(w) && Booked(w.t, l)
    ensures var answer := Reclaim(w.t, r).1;
            var ours := r.key.tableId == w.t.tableId;
            var named := ours && r.id.slot == r.key.slot < |w.t.slots|;
            var owing := named && exists o :: o in l.owed && o.key.slot == r.key.slot;
            var birth := owing && exists o :: o in l.owed && o.key == r.key;
            && (answer == Err(ForeignTable) <==> !ours)
            && (answer == Err(WrongClass) <==> ours && !named)
            && (answer == Err(NotTerminalizing) <==> named && !owing)
            && (answer == Err(StaleBirth) <==> owing && !birth)
            && (answer == Err(StaleTerminalIdentity) <==> birth && r !in l.owed)
  {
    var i := r.key.slot;
    forall o: Receipt | o.key.slot == i && i < |w.t.slots|
      ensures o in l.owed <==> w.t.slots[i].Terminalizing? && o == ReceiptAt(w.t, i)
    {
      assert OwedEntry(w.t, l, o);
    }
    if i < |w.t.slots| && w.t.slots[i].Terminalizing? {
      assert ReceiptAt(w.t, i) in l.owed && ReceiptAt(w.t, i).key.slot == i;
      assert SlotOk(w.t.slots[i], i, w.t.epoch);
    }
  }

  // ----- Sessions -----

  lemma RebindRefusals(w: World, l: Ledger, epoch: nat, sameTopology: bool, control: Control)
    requires Inv(w) && Booked(w.t, l)
    ensures var r := Rebind(w.t, epoch, sameTopology, control).1;
            var fenced := w.t.mode == Fencing;
            var ahead := fenced && w.t.epoch < 0xFFFF_FFFF_FFFF_FFFF;
            var next := ahead && epoch == w.t.epoch + 1;
            var same := next && sameTopology;
            && (r == Err(WrongMode) <==> !fenced)
            && (r == Err(EpochExhausted) <==> fenced && !ahead)
            && (r == Err(WrongEpoch) <==> ahead && !next)
            && (r == Err(TopologyChanged) <==> next && !sameTopology)
            && (same && !AllResolved(l) ==> r in {Err(UnresolvedPhase), Err(UnresolvedCapture)})
            && (same && AllResolved(l) ==> (r == Err(UnresolvedCapture) <==> control == ControlCapturing))
            && (r == Err(LiveControlLane) <==> same && AllResolved(l) && control == ControlOccupied)
  {
    ResolvedMeaning(w.t, l);
    UnresolvedKind(w.t.slots);
  }

  lemma {:induction false} UnresolvedKind(slots: seq<Slot>)
    ensures Unresolved(slots) in {None, Some(UnresolvedPhase), Some(UnresolvedCapture)}
    decreases |slots|
  {
    if slots != [] { UnresolvedKind(slots[1..]); }
  }

  // The first unresolved slot decides which of the two it is.
  lemma {:induction false} UnresolvedFirst(slots: seq<Slot>, i: nat)
    requires i < |slots| && slots[i].Live? && slots[i].wire in {Prepared, Visible, Capturing, Captured}
    requires forall k :: 0 <= k < i && slots[k].Live? ==> slots[k].wire in {Between, Quarantined, Exhausted}
    ensures Unresolved(slots) == Some(if slots[i].wire == Capturing then UnresolvedCapture else UnresolvedPhase)
    decreases i
  {
    if i > 0 { UnresolvedFirst(slots[1..], i - 1); }
  }

  // The request with the lowest slot that the next session may not inherit.
  ghost predicate FirstOpen(l: Ledger, key: Key) {
    && key in l.live && l.live[key].wire in {Prepared, Visible, Capturing, Captured}
    && forall other :: other in l.live && other.slot < key.slot ==>
         l.live[other].wire in {Between, Quarantined, Exhausted}
  }

  // It alone decides how the session is refused, whatever the control lanes do.
  lemma OpenRequestRefuses(w: World, l: Ledger, epoch: nat, control: Control, key: Key)
    requires Booked(w.t, l) && w.t.mode == Fencing && w.t.epoch < 0xFFFF_FFFF_FFFF_FFFF && epoch == w.t.epoch + 1
    requires FirstOpen(l, key)
    ensures Rebind(w.t, epoch, true, control).1
         == Err(if l.live[key].wire == Capturing then UnresolvedCapture else UnresolvedPhase)
  {
    assert LiveEntry(w.t, l, key);
    forall k | 0 <= k < key.slot && w.t.slots[k].Live?
      ensures w.t.slots[k].wire in {Between, Quarantined, Exhausted}
    {
      assert LiveEntry(w.t, l, KeyAt(w.t, k));
    }
    UnresolvedFirst(w.t.slots, key.slot);
  }
}
