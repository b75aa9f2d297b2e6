/** What a key is worth over a whole run: once its request is released it is dead for
    ever, and so is its receipt once reclaimed, whoever presents them and however often. */
module RequestKeys {
  import opened Outcomes
  import opened RequestTable
  import opened RequestRuns

  function BirthTag(key: Key): Tag {
    Tag(key.birthEpoch, ReqId(key.birthGeneration, key.slot))
  }

  predicate SameBirth(a: Slot, b: Slot)
    requires (a.Live? || a.Terminalizing?) && (b.Live? || b.Terminalizing?)
  {
    a.birthEpoch == b.birthEpoch && a.birthGeneration == b.birthGeneration
  }

  // Where the new contents of a slot come from: a live slot was live before under the same birth,
  // or was born under an id not issued before; a terminal slot was live or terminal under the same birth.
  ghost predicate Origin(w: World, w': World, i: nat)
    requires i < |w.t.slots| == |w'.t.slots|
  {
    var s, s' := w.t.slots[i], w'.t.slots[i];
    && (s'.Live? ==>
          || (s.Live? && SameBirth(s, s'))
          || (var tag := Tag(s'.birthEpoch, ReqId(s'.birthGeneration, i)); tag !in w.issued && tag in w'.issued))
    && (s'.Terminalizing? ==> (s.Live? || s.Terminalizing?) && SameBirth(s, s'))
  }

  ghost predicate Follows(w: World, w': World) {
    && w'.t.tableId == w.t.tableId && |w'.t.slots| == |w.t.slots| && w.issued <= w'.issued
    && forall i :: 0 <= i < |w.t.slots| ==> Origin(w, w', i)
  }

  lemma OneSlotFollows(w: World, w': World, i: nat, s: Slot)
    requires i < |w.t.slots| && w'.t.slots == w.t.slots[i := s] && w'.t.tableId == w.t.tableId && w.issued <= w'.issued
    requires Origin(w, w', i)
    ensures Follows(w, w')
  {
    forall k | 0 <= k < |w.t.slots| ensures Origin(w, w', k) {}
  }

  lemma SameSlotsFollows(w: World, w': World)
    requires w'.t.slots == w.t.slots && w'.t.tableId == w.t.tableId && w'.issued == w.issued
    ensures Follows(w, w')
  {
    forall k | 0 <= k < |w.t.slots| ensures Origin(w, w', k) {}
  }

  // A live slot that is rewired or gives up its owner keeps its birth.
  lemma TouchFollows(w: World, w': World, i: nat)
    requires i < |w.t.slots| && w.t.slots[i].Live? && w'.t.tableId == w.t.tableId && w.issued <= w'.issued
    requires |w'.t.slots| == |w.t.slots| && w'.t.slots == w.t.slots[i := w'.t.slots[i]]
    requires (w'.t.slots[i].Live? || w'.t.slots[i].Terminalizing?) && SameBirth(w.t.slots[i], w'.t.slots[i])
    ensures Follows(w, w')
  {
    OneSlotFollows(w, w', i, w'.t.slots[i]);
  }

  lemma IssuingFollows(w: World, op: Op)
    requires Inv(w) && (op.DoAdmit? || op.DoBeginPhase?)
    ensures Follows(w, Next(w, op))
  {
    var w' := Next(w, op);
    if op.DoBeginPhase? {
      if KeyError(w.t, op.key).None? && w'.t.slots != w.t.slots {
        TouchFollows(w, w', op.key.slot);
      } else {
        SameSlotsFollows(w, w');
      }
    } else if Admit(w.t, op.phase, op.owner).1.Ok? {
      var i := w.t.freeHead.value;
      FreshTag(w, i, w.t.slots[i].generation + 1);
      OneSlotFollows(w, w', i, w'.t.slots[i]);
    } else {
      SameSlotsFollows(w, w');
    }
  }

  lemma WireFollows(w: World, op: Op)
    requires op.DoMarkVisible? || op.DoCancel? || op.DoInstall? || op.DoRetain? || op.DoQuarantine?
      || op.DoRetainAfterFence? || op.DoBeginCapture?
    ensures Follows(w, Next(w, op))
  {
    var w' := Next(w, op);
    if w'.t.slots == w.t.slots {
      SameSlotsFollows(w, w');
    } else if op.DoBeginCapture? {
      CaptureTakesVisible(w.t, op.epoch, op.completion, op.raw);
      TouchFollows(w, w', FromRaw(op.raw).slot);
    } else if op.DoMarkVisible? || op.DoCancel? || op.DoRetainAfterFence? {
      TouchFollows(w, w', op.key.slot);
    } else {
      TouchFollows(w, w', op.token.key.slot);
    }
  }

  lemma HandBackFollows(w: World, t': Table, r: Result<Terminal, Error>, i: nat)
    requires r.Ok? ==> i < |w.t.slots| && w.t.slots[i].Live? && t' == Release(w.t, i).0
    requires r.Err? ==> t' == w.t
    ensures Follows(w, HandBack(w, t', r))
  {
    if r.Ok? { TouchFollows(w, HandBack(w, t', r), i); } else { SameSlotsFollows(w, HandBack(w, t', r)); }
  }

  lemma DrainFollows(w: World)
    ensures Follows(w, Next(w, DoDrainNext))
  {
    var (t', r) := DrainNext(w.t);
    if r.Ok? && r.value.Some? {
      HandBackFollows(w, t', Ok(r.value.value), FirstDrainable(w.t.slots, 0).value);
    } else {
      SameSlotsFollows(w, w.(t := t'));
    }
  }

  lemma ReleasingFollows(w: World, op: Op)
    requires op.DoTerminalize? || op.DoWithdraw? || op.DoTerminalizeAfterFence? || op.DoDrainNext?
    ensures Follows(w, Next(w, op))
  {
    match op
    case DoTerminalize(token) =>
      HandBackFollows(w, Terminalize(w.t, token).0, Terminalize(w.t, token).1, token.key.slot);
    case DoWithdraw(key) => HandBackFollows(w, Withdraw(w.t, key).0, Withdraw(w.t, key).1, key.slot);
    case DoTerminalizeAfterFence(key) =>
      HandBackFollows(w, TerminalizeAfterFence(w.t, key).0, TerminalizeAfterFence(w.t, key).1, key.slot);
    case DoDrainNext => DrainFollows(w);
  }

  lemma SessionFollows(w: World, op: Op)
    requires op.DoReclaim? || op.DoBeginFence? || op.DoRebind? || op.DoBeginDrain?
    ensures Follows(w, Next(w, op))
  {
    var w' := Next(w, op);
    if w'.t.slots == w.t.slots {
      SameSlotsFollows(w, w');
    } else if op.DoReclaim? {
      OneSlotFollows(w, w', op.receipt.key.slot, w'.t.slots[op.receipt.key.slot]);
    } else {
      forall k | 0 <= k < |w.t.slots| ensures Origin(w, w', k) {}
    }
  }

  lemma NextFollows(w: World, op: Op)
    requires Inv(w)
    ensures Follows(w, Next(w, op))
  {
    if op.DoAdmit? || op.DoBeginPhase? {
      IssuingFollows(w, op);
    } else if op.DoTerminalize? || op.DoWithdraw? || op.DoTerminalizeAfterFence? || op.DoDrainNext? {
      ReleasingFollows(w, op);
    } else if op.DoReclaim? || op.DoBeginFence? || op.DoRebind? || op.DoBeginDrain? {
      SessionFollows(w, op);
    } else {
      WireFollows(w, op);
    }
  }

  // ----- Dead for ever -----

  // No live slot answers to the key.
  predicate Dead(t: Table, key: Key) {
    KeyError(t, key).Some?
  }

  // Not even a terminal slot does.
  predicate Gone(t: Table, key: Key) {
    Dead(t, key) && (key.slot < |t.slots| && t.slots[key.slot].Terminalizing? ==> key != KeyAt(t, key.slot))
  }

  lemma DeadFollows(w: World, w': World, key: Key)
    requires Follows(w, w') && BirthTag(key) in w.issued && Dead(w.t, key)
    ensures Dead(w'.t, key) && BirthTag(key) in w'.issued
    ensures Gone(w.t, key) ==> Gone(w'.t, key)
  {
    if key.slot < |w.t.slots| { assert Origin(w, w', key.slot); }
  }

  lemma {:induction false} DeadForever(w: World, ops: seq<Op>, key: Key)
    requires Inv(w) && BirthTag(key) in w.issued && Dead(w.t, key)
    ensures Dead(Run(w, ops).t, key) && BirthTag(key) in Run(w, ops).issued
    ensures Gone(w.t, key) ==> Gone(Run(w, ops).t, key)
    decreases |ops|
  {
    if ops != [] {
      var mid := Run(w, ops[..|ops| - 1]);
      DeadForever(w, ops[..|ops| - 1], key);
      RunKeeps(w, ops[..|ops| - 1]);
      NextFollows(mid, ops[|ops| - 1]);
      DeadFollows(mid, Run(w, ops), key);
    }
  }

  // ----- Every live request was born under an id that was issued -----

  ghost predicate BirthsIssued(w: World) {
    forall i :: 0 <= i < |w.t.slots| ==> BirthIssued(w, i)
  }

  ghost predicate BirthIssued(w: World, i: nat)
    requires i < |w.t.slots|
  {
    w.t.slots[i].Live? || w.t.slots[i].Terminalizing? ==>
      Tag(w.t.slots[i].birthEpoch, ReqId(w.t.slots[i].birthGeneration, i)) in w.issued
  }

  lemma BirthsFollow(w: World, w': World)
    requires BirthsIssued(w) && Follows(w, w')
    ensures BirthsIssued(w')
  {
    forall i | 0 <= i < |w'.t.slots| ensures BirthIssued(w', i) { assert BirthIssued(w, i) && Origin(w, w', i); }
  }

  lemma {:induction false} RunIssuesBirths(w: World, ops: seq<Op>)
    requires Inv(w) && BirthsIssued(w)
    ensures BirthsIssued(Run(w, ops))
    decreases |ops|
  {
    if ops != [] {
      RunIssuesBirths(w, ops[..|ops| - 1]);
      RunKeeps(w, ops[..|ops| - 1]);
      NextFollows(Run(w, ops[..|ops| - 1]), ops[|ops| - 1]);
      BirthsFollow(Run(w, ops[..|ops| - 1]), Run(w, ops));
    }
  }

  lemma ReachedBirths(w: World)
    requires Reached(w)
    ensures BirthsIssued(w)
  {
    var tableId: nat, epoch: nat, n: nat, ops :| n <= MAX_INFLIGHT && w == Run(Start(tableId, epoch, n), ops);
    var start := Start(tableId, epoch, n);
    StartOk(tableId, epoch, n);
    forall i: nat | i < |start.t.slots| ensures BirthIssued(start, i) { FreshAt(n, 0, i); }
    RunIssuesBirths(start, ops);
  }

  // ----- Main results -----

  // Once a request is released its key is dead in every later state: nothing can release it again,
  // publish it again or start another phase of it.
  lemma ReleasedForever(w: World, i: nat, released: World, ops: seq<Op>)
    requires Reached(w) && i < |w.t.slots| && w.t.slots[i].Live?
    requires released == HandBack(w, Release(w.t, i).0, Ok(Release(w.t, i).1))
    ensures Dead(Run(released, ops).t, KeyAt(w.t, i))
  {
    ReachedInv(w);
    ReachedBirths(w);
    assert BirthIssued(w, i);
    ReleaseKeeps(w, i);
    DeadForever(released, ops, KeyAt(w.t, i));
  }

  // Once its receipt is reclaimed, no receipt for that request is accepted again, and the request stays dead.
  lemma ReclaimedForever(w: World, receipt: Receipt, ops: seq<Op>)
    requires Reached(w) && Reclaim(w.t, receipt).1.Ok?
    ensures Gone(Run(Next(w, DoReclaim(receipt)), ops).t, receipt.key)
  {
    ReachedInv(w);
    ReachedBirths(w);
    assert BirthIssued(w, receipt.key.slot);
    NextKeeps(w, DoReclaim(receipt));
    DeadForever(Next(w, DoReclaim(receipt)), ops, receipt.key);
  }

  // What a dead or gone key means to the operations that take one.
  lemma DeadIsRefused(t: Table, key: Key, phase: Phase, token: Token, receipt: Receipt)
    requires Dead(t, key) && token.key == key && receipt.key == key
    ensures MarkVisible(t, key).1.Err? && BeginPhase(t, key, phase).1.Err? && RecordCancel(t, key).1.Err?
    ensures InstallCandidate(t, token).1.Err? && Retain(t, token).1.Err? && Quarantine(t, token).1.Err?
    ensures Terminalize(t, token).1.Err? && Withdraw(t, key).1.Err? && TerminalizeAfterFence(t, key).1.Err?
      && RetainAfterFence(t, key).1.Err?
    ensures Gone(t, key) ==> Reclaim(t, receipt).1.Err?
  {
  }

  // ----- A capture is disposed of once -----

  // Some live slot is being captured, or holds its candidate, under this wire identity.
  predicate Held(t: Table, tag: Tag) {
    && tag.epoch == t.epoch && tag.id.slot < |t.slots| && t.slots[tag.id.slot].Live?
    && t.slots[tag.id.slot].id == tag.id && t.slots[tag.id.slot].wire in {Capturing, Captured}
  }

  // An identity is held only if it was held before or has just been captured for the first time.
  ghost predicate HeldOrigin(w: World, w': World, tag: Tag) {
    Held(w'.t, tag) ==> Held(w.t, tag) || (tag !in w.captured && tag in w'.captured)
  }

  lemma UntouchedHeld(w: World, w': World, tag: Tag)
    requires w'.t.slots == w.t.slots && w'.t.epoch == w.t.epoch
    ensures HeldOrigin(w, w', tag)
  {
  }

  // One slot changes; if it is then held, it was held under the same id.
  lemma OneSlotHeld(w: World, w': World, tag: Tag, i: nat)
    requires i < |w.t.slots| && |w'.t.slots| == |w.t.slots| && w'.t.slots == w.t.slots[i := w'.t.slots[i]]
    requires w'.t.epoch == w.t.epoch
    requires var s, s' := w.t.slots[i], w'.t.slots[i];
             s'.Live? && s'.wire in {Capturing, Captured} ==>
               s.Live? && s.id == s'.id && s.wire in {Capturing, Captured}
    ensures HeldOrigin(w, w', tag)
  {
  }

  lemma CaptureHeld(w: World, op: Op, tag: Tag)
    requires Inv(w) && op.DoBeginCapture?
    ensures HeldOrigin(w, Next(w, op), tag)
  {
    if BeginCapture(w.t, op.epoch, op.completion, op.raw).1.Ok? {
      CaptureTakesVisible(w.t, op.epoch, op.completion, op.raw);
      assert Waiting(w.t, w.captured, FromRaw(op.raw).slot);
      assert SlotOk(w.t.slots[FromRaw(op.raw).slot], FromRaw(op.raw).slot, w.t.epoch);
    }
  }

  lemma WireHeld(w: World, op: Op, tag: Tag)
    requires op.DoMarkVisible? || op.DoCancel? || op.DoInstall? || op.DoRetain? || op.DoQuarantine?
      || op.DoRetainAfterFence?
    ensures HeldOrigin(w, Next(w, op), tag)
  {
    var w' := Next(w, op);
    if w'.t.slots == w.t.slots {
      UntouchedHeld(w, w', tag);
    } else if op.DoMarkVisible? || op.DoCancel? || op.DoRetainAfterFence? {
      OneSlotHeld(w, w', tag, op.key.slot);
    } else {
      OneSlotHeld(w, w', tag, op.token.key.slot);
    }
  }

  lemma IssuingHeld(w: World, op: Op, tag: Tag)
    requires op.DoAdmit? || op.DoBeginPhase?
    ensures HeldOrigin(w, Next(w, op), tag)
  {
    var w' := Next(w, op);
    if w'.t.slots == w.t.slots {
      UntouchedHeld(w, w', tag);
    } else if op.DoAdmit? {
      OneSlotHeld(w, w', tag, w.t.freeHead.value);
    } else {
      OneSlotHeld(w, w', tag, op.key.slot);
    }
  }

  lemma ReleaseHeld(w: World, w': World, tag: Tag, i: nat)
    requires i < |w.t.slots| && w.t.slots[i].Live? && w'.t == Release(w.t, i).0
    ensures HeldOrigin(w, w', tag)
  {
    OneSlotHeld(w, w', tag, i);
  }

  lemma ReleasingHeld(w: World, op: Op, tag: Tag)
    requires op.DoTerminalize? || op.DoWithdraw? || op.DoTerminalizeAfterFence? || op.DoDrainNext?
    ensures HeldOrigin(w, Next(w, op), tag)
  {
    match op
    case DoTerminalize(token) => if Terminalize(w.t, token).1.Ok? { ReleaseHeld(w, Next(w, op), tag, token.key.slot); }
    case DoWithdraw(key) => if Withdraw(w.t, key).1.Ok? { ReleaseHeld(w, Next(w, op), tag, key.slot); }
    case DoTerminalizeAfterFence(key) =>
      if TerminalizeAfterFence(w.t, key).1.Ok? { ReleaseHeld(w, Next(w, op), tag, key.slot); }
    case DoDrainNext =>
      if FirstDrainable(w.t.slots, 0).Some? && w.t.mode == Draining {
        ReleaseHeld(w, Next(w, op), tag, FirstDrainable(w.t.slots, 0).value);
      }
  }

  lemma SessionHeld(w: World, op: Op, tag: Tag)
    requires op.DoReclaim? || op.DoBeginFence? || op.DoRebind? || op.DoBeginDrain?
    ensures HeldOrigin(w, Next(w, op), tag)
  {
    var w' := Next(w, op);
    if w'.t.slots == w.t.slots && w'.t.epoch == w.t.epoch {
      UntouchedHeld(w, w', tag);
    } else if op.DoReclaim? {
      OneSlotHeld(w, w', tag, op.receipt.key.slot);
    } else if Held(w'.t, tag) {
      ResolvedSlots(w.t.slots, tag.id.slot);
    }
  }

  lemma NextHeld(w: World, op: Op, tag: Tag)
    requires Inv(w)
    ensures HeldOrigin(w, Next(w, op), tag) && w.captured <= Next(w, op).captured
  {
    if op.DoAdmit? || op.DoBeginPhase? {
      IssuingHeld(w, op, tag);
    } else if op.DoBeginCapture? {
      CaptureHeld(w, op, tag);
    } else if op.DoTerminalize? || op.DoWithdraw? || op.DoTerminalizeAfterFence? || op.DoDrainNext? {
      ReleasingHeld(w, op, tag);
    } else if op.DoReclaim? || op.DoBeginFence? || op.DoRebind? || op.DoBeginDrain? {
      SessionHeld(w, op, tag);
    } else {
      WireHeld(w, op, tag);
    }
  }

  ghost predicate HeldIsCaptured(w: World) {
    forall tag :: Held(w.t, tag) ==> tag in w.captured
  }

  lemma {:induction false} RunHeld(w: World, ops: seq<Op>)
    requires Inv(w) && HeldIsCaptured(w)
    ensures HeldIsCaptured(Run(w, ops))
    decreases |ops|
  {
    if ops != [] {
      var mid := Run(w, ops[..|ops| - 1]);
      RunHeld(w, ops[..|ops| - 1]);
      RunKeeps(w, ops[..|ops| - 1]);
      forall tag | Held(Run(w, ops).t, tag) ensures tag in Run(w, ops).captured {
        NextHeld(mid, ops[|ops| - 1], tag);
      }
    }
  }

  lemma StartHeld(tableId: nat, epoch: nat, n: nat)
    requires n <= MAX_INFLIGHT
    ensures Inv(Start(tableId, epoch, n)) && HeldIsCaptured(Start(tableId, epoch, n))
  {
    StartOk(tableId, epoch, n);
    forall tag ensures !Held(Start(tableId, epoch, n).t, tag) { FreshAt(n, 0, tag.id.slot); }
  }

  lemma ReachedHeld(w: World)
    requires Reached(w)
    ensures HeldIsCaptured(w)
  {
    var tableId: nat, epoch: nat, n: nat, ops :| n <= MAX_INFLIGHT && w == Run(Start(tableId, epoch, n), ops);
    StartHeld(tableId, epoch, n);
    RunHeld(Start(tableId, epoch, n), ops);
  }

  // A captured identity that is not held any more is never held again.
  lemma {:induction false} SettledForever(w: World, ops: seq<Op>, tag: Tag)
    requires Inv(w) && tag in w.captured && !Held(w.t, tag)
    ensures tag in Run(w, ops).captured && !Held(Run(w, ops).t, tag)
    decreases |ops|
  {
    if ops != [] {
      SettledForever(w, ops[..|ops| - 1], tag);
      RunKeeps(w, ops[..|ops| - 1]);
      NextHeld(Run(w, ops[..|ops| - 1]), ops[|ops| - 1], tag);
    }
  }

  predicate Disposes(op: Op, token: Token) {
    op == DoRetain(token) || op == DoQuarantine(token) || op == DoTerminalize(token)
  }

  // Once a candidate is retained, quarantined or terminalized, its wire identity stays settled, although a
  // retained request keeps its key.
  lemma DisposedForever(w: World, op: Op, token: Token, ops: seq<Op>)
    requires Reached(w) && Disposes(op, token) && CandidateError(w.t, token).None?
    requires !op.DoQuarantine? ==> w.t.mode != Draining
    ensures !Held(Run(Next(w, op), ops).t, Tag(token.wireEpoch, token.id))
  {
    var tag := Tag(token.wireEpoch, token.id);
    ReachedInv(w);
    ReachedHeld(w);
    assert SlotOk(w.t.slots[token.key.slot], token.key.slot, w.t.epoch);
    assert Held(w.t, tag);
    NextKeeps(w, op);
    NextHeld(w, op, tag);
    SettledForever(Next(w, op), ops, tag);
  }

  // Every operation on captures refuses a token whose wire identity is not held, whatever key it carries.
  lemma SettledIsRefused(t: Table, token: Token)
    requires !Held(t, Tag(token.wireEpoch, token.id))
    ensures InstallCandidate(t, token).1.Err? && Retain(t, token).1.Err?
    ensures Quarantine(t, token).1.Err? && Terminalize(t, token).1.Err?
  {
  }
}
