/** The request table as a ledger: which requests are live under which keys, and which
    receipts are still to be redeemed. No slot, link or generation count is in it. Each
    operation is decided by the ledger and changes one entry of it. */
module RequestLedger {
  import opened Outcomes
  import opened RequestTable
  import opened RequestRuns
  import opened RequestKeys

  datatype Request = Request(owner: Owner, phase: Phase, id: ReqId, wire: Wire, cancel: bool)

  datatype Ledger = Ledger(live: map<Key, Request>, owed: set<Receipt>)

  function RequestOf(s: Slot): Request
    requires s.Live?
  {
    Request(s.owner, s.phase, s.id, s.wire, s.cancel)
  }

  function ReceiptAt(t: Table, i: nat): Receipt
    requires i < |t.slots| && t.slots[i].Terminalizing?
  {
    Receipt(KeyAt(t, i), t.slots[i].wireEpoch, t.slots[i].id)
  }

  ghost predicate LiveEntry(t: Table, l: Ledger, key: Key) {
    && (key in l.live <==> key.tableId == t.tableId && key.slot < |t.slots| && t.slots[key.slot].Live?
                           && key == KeyAt(t, key.slot))
    && (key in l.live ==> l.live[key] == RequestOf(t.slots[key.slot]))
  }

  ghost predicate OwedEntry(t: Table, l: Ledger, r: Receipt) {
    r in l.owed <==> r.key.slot < |t.slots| && t.slots[r.key.slot].Terminalizing? && r == ReceiptAt(t, r.key.slot)
  }

  ghost predicate Booked(t: Table, l: Ledger) {
    && (forall key :: LiveEntry(t, l, key))
    && (forall r :: OwedEntry(t, l, r))
  }

  function With(l: Ledger, key: Key, r: Request): Ledger {
    l.(live := l.live[key := r])
  }

  // ----- One entry changes -----

  lemma ChangedEntry(t: Table, t': Table, l: Ledger, i: nat)
    requires Booked(t, l) && t'.tableId == t.tableId && i < |t.slots| == |t'.slots|
    requires t'.slots == t.slots[i := t'.slots[i]] && t.slots[i].Live? && t'.slots[i].Live?
    requires SameBirth(t.slots[i], t'.slots[i])
    ensures Booked(t', With(l, KeyAt(t, i), RequestOf(t'.slots[i])))
  {
    var l' := With(l, KeyAt(t, i), RequestOf(t'.slots[i]));
    forall key ensures LiveEntry(t', l', key) { assert LiveEntry(t, l, key); }
    forall r ensures OwedEntry(t', l', r) { assert OwedEntry(t, l, r); }
  }

  lemma NewEntry(t: Table, t': Table, l: Ledger, i: nat)
    requires Booked(t, l) && t'.tableId == t.tableId && i < |t.slots| == |t'.slots|
    requires t'.slots == t.slots[i := t'.slots[i]] && t.slots[i].Free? && t'.slots[i].Live?
    ensures KeyAt(t', i) !in l.live
    ensures Booked(t', With(l, KeyAt(t', i), RequestOf(t'.slots[i])))
  {
    var l' := With(l, KeyAt(t', i), RequestOf(t'.slots[i]));
    assert LiveEntry(t, l, KeyAt(t', i));
    forall key ensures LiveEntry(t', l', key) { assert LiveEntry(t, l, key); }
    forall r ensures OwedEntry(t', l', r) { assert OwedEntry(t, l, r); }
  }

  // A release closes the entry and leaves a receipt.
  lemma ClosedEntry(t: Table, l: Ledger, i: nat)
    requires Booked(t, l) && i < |t.slots| && t.slots[i].Live?
    ensures var (t', terminal) := Release(t, i);
            && KeyAt(t, i) in l.live && terminal.owner == l.live[KeyAt(t, i)].owner
            && terminal.receipt == Receipt(KeyAt(t, i), t.epoch, l.live[KeyAt(t, i)].id)
            && Booked(t', Ledger(l.live - {KeyAt(t, i)}, l.owed + {terminal.receipt}))
  {
    var (t', terminal) := Release(t, i);
    var l' := Ledger(l.live - {KeyAt(t, i)}, l.owed + {terminal.receipt});
    assert LiveEntry(t, l, KeyAt(t, i));
    forall key ensures LiveEntry(t', l', key) { assert LiveEntry(t, l, key); }
    forall r ensures OwedEntry(t', l', r) { assert OwedEntry(t, l, r); }
  }

  lemma RedeemedEntry(t: Table, t': Table, l: Ledger, i: nat)
    requires Booked(t, l) && t'.tableId == t.tableId && i < |t.slots| == |t'.slots|
    requires t'.slots == t.slots[i := t'.slots[i]] && t.slots[i].Terminalizing?
    requires t'.slots[i].Free? || t'.slots[i].Retired?
    ensures ReceiptAt(t, i) in l.owed && Booked(t', l.(owed := l.owed - {ReceiptAt(t, i)}))
  {
    var l' := l.(owed := l.owed - {ReceiptAt(t, i)});
    assert OwedEntry(t, l, ReceiptAt(t, i));
    forall key ensures LiveEntry(t', l', key) { assert LiveEntry(t, l, key); }
    forall r ensures OwedEntry(t', l', r) { assert OwedEntry(t, l, r); }
  }

  // Links, flags and counts are not in the ledger.
  lemma SameEntries(t: Table, t': Table, l: Ledger)
    requires Booked(t, l) && t'.tableId == t.tableId && t'.slots == t.slots
    ensures Booked(t', l)
  {
    forall key ensures LiveEntry(t', l, key) { assert LiveEntry(t, l, key); }
    forall r ensures OwedEntry(t', l, r) { assert OwedEntry(t, l, r); }
  }

  // ----- Keys -----

  // A live request of the same slot under another birth.
  ghost predicate Displaced(l: Ledger, key: Key) {
    exists other :: other in l.live && other.slot == key.slot && other != key
  }

  lemma KeyMeaning(t: Table, l: Ledger, key: Key)
    requires Booked(t, l)
    ensures var e := KeyError(t, key);
            && (e.None? <==> key in l.live)
            && (e == Some(ForeignTable) <==> key.tableId != t.tableId)
            && (e == Some(WrongClass) <==> key.tableId == t.tableId && key.slot >= |t.slots|)
            && (e == Some(StaleBirth) <==> key.tableId == t.tableId && key !in l.live && Displaced(l, key))
            && (e == Some(Vacant) <==>
                key.tableId == t.tableId && key.slot < |t.slots| && key !in l.live && !Displaced(l, key))
  {
    assert LiveEntry(t, l, key);
    if key.slot < |t.slots| && t.slots[key.slot].Live? { assert LiveEntry(t, l, KeyAt(t, key.slot)); }
    if other :| other in l.live && other.slot == key.slot && other != key { assert LiveEntry(t, l, other); }
  }

  // Every live request shows a packable id of its own slot.
  lemma IdsFit(w: World, l: Ledger, key: Key)
    requires Inv(w) && Booked(w.t, l) && key in l.live
    ensures l.live[key].id.slot == key.slot < |w.t.slots| <= MAX_INFLIGHT && Packable(l.live[key].id)
    ensures l.live[key].wire == Visible ==> l.live[key].id.generation > 0
  {
    assert LiveEntry(w.t, l, key) && SlotOk(w.t.slots[key.slot], key.slot, w.t.epoch);
  }

  // ----- Admission and phases -----

  lemma AdmitMeaning(w: World, l: Ledger, phase: Phase, owner: Owner)
    requires Reached(w) && Booked(w.t, l)
    ensures var (t', r) := Admit(w.t, phase, owner);
            && (r.Ok? <==> w.t.mode == Active && exists i :: 0 <= i < |w.t.slots| && w.t.slots[i].Free?)
            && (r.Ok? ==>
                  && BirthTag(r.value.key) == Tag(w.t.epoch, r.value.id) && BirthTag(r.value.key) !in w.issued
                  && r.value.key !in l.live
                  && Booked(t', With(l, r.value.key, Request(owner, phase, r.value.id, Prepared, false))))
            && (r.Err? ==> t'.slots == w.t.slots && Booked(t', l))
            && t'.needsQuiesce == (w.t.needsQuiesce || r == Err(SessionGenerationExhausted))
  {
    var (t', r) := Admit(w.t, phase, owner);
    AdmitIff(w, phase, owner);
    if r.Ok? {
      ReachedInv(w);
      FreshTag(w, w.t.freeHead.value, r.value.id.generation);
      NewEntry(w.t, t', l, w.t.freeHead.value);
    } else {
      SameEntries(w.t, t', l);
    }
  }

  lemma BeginPhaseMeaning(w: World, l: Ledger, key: Key, phase: Phase)
    requires Reached(w) && Booked(w.t, l) && w.t.mode == Active && key in l.live && l.live[key].wire == Between
    ensures var (t', r) := BeginPhase(w.t, key, phase);
            var was := l.live[key];
            && (r.Ok? <==> was.id.generation < GENERATION_MAX)
            && (r.Ok? ==>
                  && r.value == ReqId(was.id.generation + 1, key.slot) && Tag(w.t.epoch, r.value) !in w.issued
                  && Booked(t', With(l, key, was.(phase := phase, id := r.value, wire := Prepared))))
            && (r.Err? ==> r.error == GenerationExhausted && Booked(t', With(l, key, was.(wire := Exhausted))))
            && t'.needsQuiesce == (w.t.needsQuiesce || r.Err?)
  {
    ReachedInv(w);
    var (t', r) := BeginPhase(w.t, key, phase);
    assert LiveEntry(w.t, l, key);
    IdsFit(w, l, key);
    ChangedEntry(w.t, t', l, key.slot);
    if r.Ok? { FreshTag(w, key.slot, r.value.generation); }
  }

  // The next phase, whatever the state of the table and of the key.
  lemma PhaseMeaning(w: World, l: Ledger, key: Key, phase: Phase)
    requires Reached(w) && Booked(w.t, l)
    ensures var (t', r) := BeginPhase(w.t, key, phase);
            var open := w.t.mode == Active && key in l.live && l.live[key].wire == Between;
            && (r.Ok? <==> open && l.live[key].id.generation < GENERATION_MAX)
            && (r == Err(GenerationExhausted) <==> open && l.live[key].id.generation == GENERATION_MAX)
            && (r.Ok? ==>
                  && Tag(w.t.epoch, r.value) !in w.issued
                  && Booked(t', With(l, key, l.live[key].(phase := phase, id := r.value, wire := Prepared))))
            && (r == Err(GenerationExhausted) ==> Booked(t', With(l, key, l.live[key].(wire := Exhausted))))
            && (r.Err? && r.error != GenerationExhausted ==> t' == w.t)
            && t'.needsQuiesce == (w.t.needsQuiesce || r == Err(GenerationExhausted))
  {
    KeyMeaning(w.t, l, key);
    assert LiveEntry(w.t, l, key);
    if w.t.mode == Active && key in l.live && l.live[key].wire == Between {
      ReachedInv(w);
      IdsFit(w, l, key);
      BeginPhaseMeaning(w, l, key, phase);
    }
  }

  // ----- What the provider may capture -----

  ghost predicate Capturable(l: Ledger, completion: bool, raw: nat, key: Key) {
    && key in l.live && l.live[key].wire == Visible && Raw(l.live[key].id) == raw
    && (completion || l.live[key].phase.journaled)
  }

  lemma CaptureTaken(w: World, l: Ledger, epoch: nat, completion: bool, raw: nat)
    requires Inv(w) && Booked(w.t, l) && BeginCapture(w.t, epoch, completion, raw).1.Ok?
    ensures var (t', r) := BeginCapture(w.t, epoch, completion, raw);
            var key := r.value.key;
            && w.t.mode != Draining && epoch == w.t.epoch && Capturable(l, completion, raw, key)
            && r.value == Token(key, epoch, l.live[key].id, l.live[key].phase.opcode)
            && Booked(t', With(l, key, l.live[key].(wire := Capturing)))
  {
    var (t', r) := BeginCapture(w.t, epoch, completion, raw);
    var i := FromRaw(raw).slot;
    CaptureTakesVisible(w.t, epoch, completion, raw);
    assert LiveEntry(w.t, l, KeyAt(w.t, i));
    ChangedEntry(w.t, t', l, i);
    assert raw == raw / INDEX_LIMIT * INDEX_LIMIT + raw % INDEX_LIMIT;
  }

  lemma CaptureMade(w: World, l: Ledger, epoch: nat, completion: bool, raw: nat, key: Key)
    requires Inv(w) && Booked(w.t, l)
    requires w.t.mode != Draining && epoch == w.t.epoch && Capturable(l, completion, raw, key)
    ensures BeginCapture(w.t, epoch, completion, raw).1.Ok?
  {
    assert LiveEntry(w.t, l, key);
    IdsFit(w, l, key);
    RawRoundTrip(l.live[key].id);
    assert raw >= INDEX_LIMIT;
  }

  lemma CaptureMeaning(w: World, l: Ledger, epoch: nat, completion: bool, raw: nat)
    requires Inv(w) && Booked(w.t, l)
    ensures BeginCapture(w.t, epoch, completion, raw).1.Ok?
       <==> w.t.mode != Draining && epoch == w.t.epoch && exists key :: Capturable(l, completion, raw, key)
  {
    if BeginCapture(w.t, epoch, completion, raw).1.Ok? { CaptureTaken(w, l, epoch, completion, raw); }
    if key :| w.t.mode != Draining && epoch == w.t.epoch && Capturable(l, completion, raw, key) {
      CaptureMade(w, l, epoch, completion, raw, key);
    }
  }

  // No two requests answer to the same word.
  lemma OneAnswers(w: World, l: Ledger, key: Key, other: Key)
    requires Inv(w) && Booked(w.t, l) && key in l.live && other in l.live
    requires Raw(l.live[key].id) == Raw(l.live[other].id)
    ensures key == other
  {
    IdsFit(w, l, key);
    IdsFit(w, l, other);
    RawRoundTrip(l.live[key].id);
    RawRoundTrip(l.live[other].id);
    assert LiveEntry(w.t, l, key) && LiveEntry(w.t, l, other);
  }

  ghost predicate Unanswerable(l: Ledger, raw: nat) {
    forall completion, key :: !Capturable(l, completion, raw, key)
  }

  // A request between two phases has no id to answer.
  lemma BetweenIsUnanswerable(w: World, l: Ledger, key: Key)
    requires Inv(w) && Booked(w.t, l) && key in l.live
    ensures Unanswerable(With(l, key, l.live[key].(wire := Between)), Raw(l.live[key].id))
  {
    var l', raw := With(l, key, l.live[key].(wire := Between)), Raw(l.live[key].id);
    forall completion, other ensures !Capturable(l', completion, raw, other) {
      if other in l.live && Raw(l.live[other].id) == raw { OneAnswers(w, l, key, other); }
    }
  }

  // ----- What a token still stands for -----

  // The token names a live request in this session, under its current id and at this point of its capture.
  ghost predicate Stands(t: Table, l: Ledger, token: Token, wire: Wire) {
    && token.key in l.live && token.wireEpoch == t.epoch && token.id == l.live[token.key].id
    && l.live[token.key].wire == wire
  }

  lemma InstallMeaning(w: World, l: Ledger, token: Token)
    requires Inv(w) && Booked(w.t, l)
    ensures var (t', r) := InstallCandidate(w.t, token);
            && (r.Ok? <==> Stands(w.t, l, token, Capturing) && token.opcode == l.live[token.key].phase.opcode)
            && (r.Ok? ==> Booked(t', With(l, token.key, l.live[token.key].(wire := Captured))))
  {
    assert LiveEntry(w.t, l, token.key);
    if token.key in l.live { IdsFit(w, l, token.key); }
    if InstallCandidate(w.t, token).1.Ok? {
      ChangedEntry(w.t, InstallCandidate(w.t, token).0, l, token.key.slot);
    }
  }

  lemma CandidateMeaning(w: World, l: Ledger, token: Token)
    requires Inv(w) && Booked(w.t, l)
    ensures CandidateError(w.t, token).None? <==> Stands(w.t, l, token, Captured)
  {
    assert LiveEntry(w.t, l, token.key);
    if token.key in l.live { IdsFit(w, l, token.key); }
  }

  lemma DisposeMeaning(w: World, l: Ledger, token: Token, wire: Wire)
    requires Inv(w) && Booked(w.t, l) && Stands(w.t, l, token, Captured)
    ensures Booked(Dispose(w.t, token, wire).0, With(l, token.key, l.live[token.key].(wire := wire)))
  {
    CandidateMeaning(w, l, token);
    assert LiveEntry(w.t, l, token.key);
    ChangedEntry(w.t, Dispose(w.t, token, wire).0, l, token.key.slot);
  }

  // ----- Receipts -----

  lemma ReclaimMeaning(w: World, l: Ledger, r: Receipt)
    requires Inv(w) && Booked(w.t, l)
    ensures Reclaim(w.t, r).1.Ok? <==> r in l.owed
    ensures r in l.owed ==>
      var t' := Reclaim(w.t, r).0;
      var last := r.wireEpoch == w.t.epoch && r.id.generation == GENERATION_MAX;
      && Booked(t', l.(owed := l.owed - {r})) && Gone(t', r.key)
      && (if last then t'.slots[r.key.slot].Retired? else t'.slots[r.key.slot].Free?)
      && t'.needsQuiesce == (w.t.needsQuiesce || last)
  {
    assert OwedEntry(w.t, l, r);
    if r.key.slot < |w.t.slots| && w.t.slots[r.key.slot].Terminalizing? {
      assert SlotOk(w.t.slots[r.key.slot], r.key.slot, w.t.epoch);
    }
    if r in l.owed { RedeemedEntry(w.t, Reclaim(w.t, r).0, l, r.key.slot); }
  }

  // ----- The next session -----

  // The request in the next session: no id, and its exhaustion is over.
  function Renewed(key: Key, r: Request): Request {
    r.(id := ReqId(0, key.slot), wire := if r.wire == Exhausted then Between else r.wire)
  }

  function Renew(l: Ledger): Ledger {
    l.(live := map key | key in l.live :: Renewed(key, l.live[key]))
  }

  lemma CarriedEntries(w: World, t': Table, l: Ledger)
    requires Inv(w) && Booked(w.t, l) && t'.tableId == w.t.tableId && t'.slots == CarryAll(w.t.slots)
    ensures Booked(t', Renew(l))
  {
    forall key ensures LiveEntry(t', Renew(l), key) {
      assert LiveEntry(w.t, l, key);
    }
    forall r ensures OwedEntry(t', Renew(l), r) { assert OwedEntry(w.t, l, r); }
  }

  ghost predicate AllResolved(l: Ledger) {
    forall key :: key in l.live ==> l.live[key].wire in {Between, Quarantined, Exhausted}
  }

  lemma ResolvedMeaning(t: Table, l: Ledger)
    requires Booked(t, l)
    ensures Unresolved(t.slots).None? <==> AllResolved(l)
  {
    if Unresolved(t.slots).None? {
      forall key | key in l.live ensures l.live[key].wire in {Between, Quarantined, Exhausted} {
        assert LiveEntry(t, l, key);
        ResolvedSlots(t.slots, key.slot);
      }
    } else {
      var i := UnresolvedAt(t.slots);
      assert LiveEntry(t, l, KeyAt(t, i));
    }
  }

  lemma {:induction false} UnresolvedAt(slots: seq<Slot>) returns (i: nat)
    requires Unresolved(slots).Some?
    ensures i < |slots| && slots[i].Live? && slots[i].wire in {Prepared, Visible, Capturing, Captured}
    decreases |slots|
  {
    if slots[0].Live? && slots[0].wire in {Prepared, Visible, Capturing, Captured} {
      i := 0;
    } else {
      i := UnresolvedAt(slots[1..]);
      i := i + 1;
    }
  }

  lemma RebindMeaning(w: World, l: Ledger, nextEpoch: nat, sameTopology: bool, control: Control)
    requires Inv(w) && Booked(w.t, l)
    ensures var (t', r) := Rebind(w.t, nextEpoch, sameTopology, control);
            && (r.Ok? <==> && w.t.mode == Fencing && w.t.epoch < EPOCH_MAX && nextEpoch == w.t.epoch + 1
                           && sameTopology && control == Idle && AllResolved(l))
            && (r.Ok? ==> Booked(t', Renew(l)) && forall tag :: tag in w.issued ==> tag.epoch < t'.epoch)
            && (r.Err? ==> t' == w.t)
  {
    ResolvedMeaning(w.t, l);
    var (t', r) := Rebind(w.t, nextEpoch, sameTopology, control);
    if r.Ok? {
      CarriedEntries(w, t', l);
      forall tag | tag in w.issued ensures tag.epoch < t'.epoch { assert TagKnown(w.t, tag); }
    }
  }

  // ----- Draining -----

  // Draining may release the request.
  predicate Loose(r: Request) {
    r.wire != Capturing && r.wire != Captured
  }

  // The request that a drain releases next: the loose one with the lowest slot.
  ghost predicate NextLoose(l: Ledger, key: Key) {
    && key in l.live && Loose(l.live[key])
    && forall other :: other in l.live && Loose(l.live[other]) ==> key.slot <= other.slot
  }

  lemma DrainMeaning(t: Table, l: Ledger)
    requires Booked(t, l) && t.mode == Draining
    ensures var (t', r) := DrainNext(t);
            && (r == Ok(None) <==> l.live == map[])
            && (r == Err(UnresolvedCapture) <==> l.live != map[] && forall key :: key in l.live ==> !Loose(l.live[key]))
            && (r.Ok? && r.value.Some? ==> NextLoose(l, r.value.value.receipt.key))
  {
    var first := FirstDrainable(t.slots, 0);
    if first.Some? {
      assert LiveEntry(t, l, KeyAt(t, first.value));
      forall other | other in l.live && Loose(l.live[other]) ensures first.value <= other.slot {
        assert LiveEntry(t, l, other);
      }
    } else {
      forall key | key in l.live
        ensures key.slot < |t.slots| && t.slots[key.slot].Live? && !Loose(l.live[key])
      {
        assert LiveEntry(t, l, key) && !Drainable(t.slots[key.slot]);
      }
      if k :| 0 <= k < |t.slots| && t.slots[k].Live? {
        assert LiveEntry(t, l, KeyAt(t, k));
        assert KeyAt(t, k) in l.live;
      } else {
        forall key ensures key !in l.live {}
        assert l.live == map[];
      }
    }
  }

  // ----- A quarantined request -----

  // Whatever is done to the table short of draining it, a quarantined request stays as it is, but for being
  // cancelled or renumbered; and no operation but a drain hands its owner back.
  ghost predicate InQuarantine(t: Table, key: Key, owner: Owner) {
    KeyError(t, key).None? && t.slots[key.slot].wire == Quarantined && t.slots[key.slot].owner == owner
  }

  lemma QuarantineHolds(w: World, op: Op, key: Key, owner: Owner)
    requires Inv(w) && InQuarantine(w.t, key, owner) && !op.DoDrainNext?
    ensures InQuarantine(Next(w, op).t, key, owner)
  {
    if op.DoAdmit? {
      if Admit(w.t, op.phase, op.owner).1.Ok? { assert w.t.freeHead.value != key.slot; }
    } else if op.DoBeginCapture? {
      if BeginCapture(w.t, op.epoch, op.completion, op.raw).1.Ok? {
        CaptureTakesVisible(w.t, op.epoch, op.completion, op.raw);
      }
    } else if op.DoTerminalize? || op.DoWithdraw? || op.DoTerminalizeAfterFence? {
      ReleaseSpares(w, op, key, owner);
    } else if op.DoReclaim? || op.DoBeginFence? || op.DoRebind? || op.DoBeginDrain? {
      SessionSpares(w, op, key, owner);
    } else {
      WireSpares(w, op, key, owner);
    }
  }

  lemma ReleaseSpares(w: World, op: Op, key: Key, owner: Owner)
    requires InQuarantine(w.t, key, owner) && (op.DoTerminalize? || op.DoWithdraw? || op.DoTerminalizeAfterFence?)
    ensures InQuarantine(Next(w, op).t, key, owner)
  {
  }

  lemma SessionSpares(w: World, op: Op, key: Key, owner: Owner)
    requires InQuarantine(w.t, key, owner)
    requires op.DoReclaim? || op.DoBeginFence? || op.DoRebind? || op.DoBeginDrain?
    ensures InQuarantine(Next(w, op).t, key, owner)
  {
  }

  lemma WireSpares(w: World, op: Op, key: Key, owner: Owner)
    requires InQuarantine(w.t, key, owner)
    requires op.DoMarkVisible? || op.DoBeginPhase? || op.DoCancel? || op.DoInstall? || op.DoRetain? || op.DoQuarantine?
      || op.DoRetainAfterFence?
    ensures InQuarantine(Next(w, op).t, key, owner)
  {
  }

  lemma {:induction false} QuarantinedUntilDrained(w: World, ops: seq<Op>, key: Key, owner: Owner)
    requires Inv(w) && InQuarantine(w.t, key, owner) && DoDrainNext !in ops
    ensures InQuarantine(Run(w, ops).t, key, owner)
    decreases |ops|
  {
    if ops != [] {
      var before, last := ops[..|ops| - 1], ops[|ops| - 1];
      QuarantinedUntilDrained(w, before, key, owner);
      RunKeeps(w, before);
      assert last in ops;
      QuarantineHolds(Run(w, before), last, key, owner);
    }
  }

  // A quarantined candidate is in quarantine, and a retained one may begin its next phase.
  lemma DispositionsDiffer(w: World, token: Token, phase: Phase)
    requires Reached(w) && CandidateError(w.t, token).None?
    ensures InQuarantine(Quarantine(w.t, token).0, token.key, w.t.slots[token.key.slot].owner)
    ensures w.t.mode == Active && token.id.generation < GENERATION_MAX ==>
      BeginPhase(Retain(w.t, token).0, token.key, phase).1.Ok?
  {
    ReachedInv(w);
  }
}
