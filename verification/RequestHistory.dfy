/** What callers have asked of each request, told from the run alone, and that the table
    acts on exactly that: the keys cancelled, and the phase each request was last given. */
module RequestHistory {
  import opened Outcomes
  import opened RequestTable
  import opened RequestRuns
  import opened RequestKeys

  datatype Journal = Journal(cancelled: set<Key>, phases: map<Key, Phase>)

  function Note(w: World, op: Op, j: Journal): Journal {
    match op
    case DoAdmit(phase, owner) =>
      var r := Admit(w.t, phase, owner).1;
      if r.Ok? then j.(phases := j.phases[r.value.key := phase]) else j
    case DoBeginPhase(key, phase) =>
      if BeginPhase(w.t, key, phase).1.Ok? then j.(phases := j.phases[key := phase]) else j
    case DoCancel(key) => if RecordCancel(w.t, key).1.Ok? then j.(cancelled := j.cancelled + {key}) else j
    case _ => j
  }

  // The journal of a run that starts with a fresh table.
  function Noted(w: World, ops: seq<Op>): Journal {
    if ops == [] then Journal({}, map[])
    else Note(Run(w, ops[..|ops| - 1]), ops[|ops| - 1], Noted(w, ops[..|ops| - 1]))
  }

  // ----- The journal is what the slots say -----

  ghost predicate RecordedAt(t: Table, j: Journal, i: nat)
    requires i < |t.slots|
  {
    t.slots[i].Live? ==>
      && (t.slots[i].cancel <==> KeyAt(t, i) in j.cancelled)
      && KeyAt(t, i) in j.phases && j.phases[KeyAt(t, i)] == t.slots[i].phase
  }

  // A slot that can issue no further id makes the table ask for a new session.
  predicate Spent(s: Slot) {
    s.Retired? || (s.Live? && s.wire == Exhausted)
  }

  ghost predicate Recorded(w: World, j: Journal) {
    && (forall i :: 0 <= i < |w.t.slots| ==> RecordedAt(w.t, j, i))
    && (forall key :: key in j.cancelled || key in j.phases ==> BirthTag(key) in w.issued)
    && (forall i :: 0 <= i < |w.t.slots| && Spent(w.t.slots[i]) ==> w.t.needsQuiesce)
  }

  // One slot changes, and nothing is noted about requests of other slots.
  lemma OneSlotRecorded(w: World, w': World, j: Journal, j': Journal, i: nat)
    requires Recorded(w, j) && i < |w.t.slots| == |w'.t.slots| && w'.t.slots == w.t.slots[i := w'.t.slots[i]]
    requires w'.t.tableId == w.t.tableId && (forall tag :: tag in w.issued ==> tag in w'.issued)
    requires forall key: Key :: key.slot != i ==> (key in j'.cancelled <==> key in j.cancelled)
    requires forall key: Key :: key.slot != i && key in j.phases ==>
      key in j'.phases && j'.phases[key] == j.phases[key]
    requires forall key :: key in j'.cancelled || key in j'.phases ==> BirthTag(key) in w'.issued
    requires RecordedAt(w'.t, j', i)
    requires w.t.needsQuiesce || Spent(w'.t.slots[i]) ==> w'.t.needsQuiesce
    ensures Recorded(w', j')
  {
    forall k | 0 <= k < |w'.t.slots| ensures RecordedAt(w'.t, j', k) {
      if k != i { assert RecordedAt(w.t, j, k); }
    }
  }

  // No request is noted or moved to another key.
  lemma SameRequestsRecorded(w: World, w': World, j: Journal)
    requires Recorded(w, j) && |w'.t.slots| == |w.t.slots| && w'.t.tableId == w.t.tableId && w'.issued == w.issued
    requires forall i :: 0 <= i < |w.t.slots| && w'.t.slots[i].Live? ==> SameRequest(w.t.slots[i], w'.t.slots[i])
    requires forall i :: 0 <= i < |w.t.slots| && Spent(w'.t.slots[i]) ==> w'.t.needsQuiesce
    ensures Recorded(w', j)
  {
    forall k | 0 <= k < |w'.t.slots| ensures RecordedAt(w'.t, j, k) {
      if w'.t.slots[k].Live? { assert SameRequest(w.t.slots[k], w'.t.slots[k]) && RecordedAt(w.t, j, k); }
    }
  }

  predicate SameRequest(s: Slot, s': Slot) {
    s.Live? && s'.Live? && SameBirth(s, s') && s.cancel == s'.cancel && s.phase == s'.phase
  }

  lemma AdmitRecorded(w: World, op: Op, j: Journal)
    requires Inv(w) && Recorded(w, j) && op.DoAdmit?
    ensures Recorded(Next(w, op), Note(w, op, j))
  {
    var w' := Next(w, op);
    if Admit(w.t, op.phase, op.owner).1.Ok? {
      var i := w.t.freeHead.value;
      FreshTag(w, i, w.t.slots[i].generation + 1);
      var key := KeyAt(w'.t, i);
      assert BirthTag(key) !in w.issued && BirthTag(key) in w'.issued;
      OneSlotRecorded(w, w', j, Note(w, op, j), i);
    } else {
      SameRequestsRecorded(w, w', j);
    }
  }

  lemma BeginPhaseRecorded(w: World, op: Op, j: Journal)
    requires Recorded(w, j) && op.DoBeginPhase?
    ensures Recorded(Next(w, op), Note(w, op, j))
  {
    var w' := Next(w, op);
    if KeyError(w.t, op.key).None? && w'.t != w.t {
      assert RecordedAt(w.t, j, op.key.slot) && KeyAt(w.t, op.key.slot) == op.key;
      assert w'.t.slots == w.t.slots[op.key.slot := w'.t.slots[op.key.slot]];
      OneSlotRecorded(w, w', j, Note(w, op, j), op.key.slot);
    } else {
      SameRequestsRecorded(w, w', j);
    }
  }

  lemma CancelRecorded(w: World, op: Op, j: Journal)
    requires Recorded(w, j) && op.DoCancel?
    ensures Recorded(Next(w, op), Note(w, op, j))
  {
    if KeyError(w.t, op.key).None? {
      assert RecordedAt(w.t, j, op.key.slot) && KeyAt(w.t, op.key.slot) == op.key;
      OneSlotRecorded(w, Next(w, op), j, Note(w, op, j), op.key.slot);
    }
  }

  // A slot is rewired, emptied or given back, its request the same or gone.
  lemma MovedRecorded(w: World, w': World, j: Journal, i: nat)
    requires Recorded(w, j) && i < |w.t.slots| == |w'.t.slots| && w'.t.slots == w.t.slots[i := w'.t.slots[i]]
    requires w'.t.tableId == w.t.tableId && w'.issued == w.issued
    requires w'.t.slots[i].Live? ==> SameRequest(w.t.slots[i], w'.t.slots[i])
    requires w.t.needsQuiesce || Spent(w'.t.slots[i]) ==> w'.t.needsQuiesce
    ensures Recorded(w', j)
  {
    assert RecordedAt(w.t, j, i);
    OneSlotRecorded(w, w', j, j, i);
  }

  lemma WireRecorded(w: World, op: Op, j: Journal)
    requires Recorded(w, j)
    requires op.DoMarkVisible? || op.DoInstall? || op.DoRetain? || op.DoQuarantine? || op.DoRetainAfterFence?
      || op.DoBeginCapture?
    ensures Recorded(Next(w, op), j)
  {
    var w' := Next(w, op);
    if w'.t == w.t {
      SameRequestsRecorded(w, w', j);
    } else if op.DoBeginCapture? {
      CaptureTakesVisible(w.t, op.epoch, op.completion, op.raw);
      MovedRecorded(w, w', j, FromRaw(op.raw).slot);
    } else if op.DoMarkVisible? || op.DoRetainAfterFence? {
      MovedRecorded(w, w', j, op.key.slot);
    } else {
      MovedRecorded(w, w', j, op.token.key.slot);
    }
  }

  lemma ReleasingRecorded(w: World, op: Op, j: Journal)
    requires Recorded(w, j)
    requires op.DoTerminalize? || op.DoWithdraw? || op.DoTerminalizeAfterFence? || op.DoDrainNext?
    ensures Recorded(Next(w, op), j)
  {
    var w' := Next(w, op);
    match op
    case DoTerminalize(token) => if Terminalize(w.t, token).1.Ok? { MovedRecorded(w, w', j, token.key.slot); }
    case DoWithdraw(key) => if Withdraw(w.t, key).1.Ok? { MovedRecorded(w, w', j, key.slot); }
    case DoTerminalizeAfterFence(key) =>
      if TerminalizeAfterFence(w.t, key).1.Ok? { MovedRecorded(w, w', j, key.slot); }
    case DoDrainNext =>
      if w.t.mode == Draining && FirstDrainable(w.t.slots, 0).Some? {
        MovedRecorded(w, w', j, FirstDrainable(w.t.slots, 0).value);
      }
  }

  lemma SessionRecorded(w: World, op: Op, j: Journal)
    requires Recorded(w, j) && (op.DoReclaim? || op.DoBeginFence? || op.DoRebind? || op.DoBeginDrain?)
    ensures Recorded(Next(w, op), j)
  {
    var w' := Next(w, op);
    if op.DoReclaim? {
      if Reclaim(w.t, op.receipt).1.Ok? { MovedRecorded(w, w', j, op.receipt.key.slot); }
    } else {
      SameRequestsRecorded(w, w', j);
    }
  }

  lemma NoteKeeps(w: World, op: Op, j: Journal)
    requires Inv(w) && Recorded(w, j)
    ensures Recorded(Next(w, op), Note(w, op, j))
  {
    if op.DoAdmit? {
      AdmitRecorded(w, op, j);
    } else if op.DoBeginPhase? {
      BeginPhaseRecorded(w, op, j);
    } else if op.DoCancel? {
      CancelRecorded(w, op, j);
    } else if op.DoTerminalize? || op.DoWithdraw? || op.DoTerminalizeAfterFence? || op.DoDrainNext? {
      ReleasingRecorded(w, op, j);
    } else if op.DoReclaim? || op.DoBeginFence? || op.DoRebind? || op.DoBeginDrain? {
      SessionRecorded(w, op, j);
    } else {
      WireRecorded(w, op, j);
    }
  }

  lemma StartRecorded(tableId: nat, epoch: nat, n: nat)
    requires n <= MAX_INFLIGHT
    ensures Recorded(Start(tableId, epoch, n), Journal({}, map[]))
  {
    var t := Start(tableId, epoch, n).t;
    FreshAt(n, 0, 0);
    forall k: nat | k < |t.slots| ensures t.slots[k].Free? { FreshAt(n, 0, k); }
  }

  // In every state of every run, the slots say exactly what the run has asked for.
  lemma {:induction false} RunRecorded(tableId: nat, epoch: nat, n: nat, ops: seq<Op>)
    requires n <= MAX_INFLIGHT
    ensures var w := Start(tableId, epoch, n); Recorded(Run(w, ops), Noted(w, ops))
    decreases |ops|
  {
    var w := Start(tableId, epoch, n);
    if ops == [] {
      StartRecorded(tableId, epoch, n);
    } else {
      var before := ops[..|ops| - 1];
      RunRecorded(tableId, epoch, n, before);
      StartOk(tableId, epoch, n);
      RunKeeps(w, before);
      NoteKeeps(Run(w, before), ops[|ops| - 1], Noted(w, before));
    }
  }

  // ----- The journal is what the run says -----

  // The operation cancels this request.
  predicate Cancels(w: World, op: Op, key: Key) {
    op == DoCancel(key) && KeyError(w.t, key).None?
  }

  // The phase the operation gives this request: it is admitted with it, or begins it.
  function Given(w: World, op: Op, key: Key): Option<Phase> {
    match op
    case DoAdmit(phase, owner) =>
      var r := Admit(w.t, phase, owner).1;
      if r.Ok? && r.value.key == key then Some(phase) else None
    case DoBeginPhase(other, phase) =>
      if other == key && BeginPhase(w.t, key, phase).1.Ok? then Some(phase) else None
    case _ => None
  }

  // What each operation of the run does to one request.
  datatype Event = Event(cancels: bool, phase: Option<Phase>)

  function EventOf(w: World, op: Op, key: Key): Event {
    Event(Cancels(w, op, key), Given(w, op, key))
  }

  function Events(w: World, ops: seq<Op>, key: Key): (es: seq<Event>)
    ensures |es| == |ops|
  {
    if ops == [] then []
    else Events(w, ops[..|ops| - 1], key) + [EventOf(Run(w, ops[..|ops| - 1]), ops[|ops| - 1], key)]
  }

  lemma {:induction false} EventAt(w: World, ops: seq<Op>, key: Key, k: nat)
    requires k < |ops|
    ensures Events(w, ops, key)[k] == EventOf(Run(w, ops[..k]), ops[k], key)
    decreases |ops|
  {
    var before := ops[..|ops| - 1];
    if k < |before| {
      EventAt(w, before, key, k);
      assert before[..k] == ops[..k];
    }
  }

  function LastPhase(es: seq<Event>): Option<Phase> {
    if es == [] then None
    else if es[|es| - 1].phase.Some? then es[|es| - 1].phase
    else LastPhase(es[..|es| - 1])
  }

  predicate EverCancelled(es: seq<Event>) {
    exists k :: 0 <= k < |es| && es[k].cancels
  }

  function PhaseIn(j: Journal, key: Key): Option<Phase> {
    if key in j.phases then Some(j.phases[key]) else None
  }

  lemma NoteIsEvent(w: World, op: Op, j: Journal, key: Key)
    ensures var e := EventOf(w, op, key);
            && (key in Note(w, op, j).cancelled <==> key in j.cancelled || e.cancels)
            && PhaseIn(Note(w, op, j), key) == if e.phase.Some? then e.phase else PhaseIn(j, key)
  {
  }

  // The journal says of each key what the events of the run say: whether one cancelled it, and the last phase given.
  lemma {:induction false} NotedIsHistory(w: World, ops: seq<Op>, key: Key)
    ensures key in Noted(w, ops).cancelled <==> EverCancelled(Events(w, ops, key))
    ensures PhaseIn(Noted(w, ops), key) == LastPhase(Events(w, ops, key))
    decreases |ops|
  {
    if ops != [] {
      var n := |ops| - 1;
      var es, e := Events(w, ops[..n], key), EventOf(Run(w, ops[..n]), ops[n], key);
      NotedIsHistory(w, ops[..n], key);
      NoteIsEvent(Run(w, ops[..n]), ops[n], Noted(w, ops[..n]), key);
      OneMoreEvent(es, e);
    }
  }

  lemma OneMoreEvent(es: seq<Event>, e: Event)
    ensures EverCancelled(es + [e]) <==> EverCancelled(es) || e.cancels
    ensures LastPhase(es + [e]) == if e.phase.Some? then e.phase else LastPhase(es)
  {
    assert (es + [e])[..|es|] == es && (es + [e])[|es|] == e;
    if k :| 0 <= k < |es| && es[k].cancels { assert (es + [e])[k].cancels; }
  }

  // In every run, a live request is flagged exactly if some operation cancelled it while it was live.
  lemma FlaggedIffCancelled(tableId: nat, epoch: nat, n: nat, ops: seq<Op>, i: nat)
    requires n <= MAX_INFLIGHT
    requires var t := Run(Start(tableId, epoch, n), ops).t; i < |t.slots| && t.slots[i].Live?
    ensures var w := Start(tableId, epoch, n);
            var t := Run(w, ops).t;
            t.slots[i].cancel <==> exists k :: 0 <= k < |ops| && Cancels(Run(w, ops[..k]), ops[k], KeyAt(t, i))
  {
    var w := Start(tableId, epoch, n);
    var t := Run(w, ops).t;
    var key := KeyAt(t, i);
    RunRecorded(tableId, epoch, n, ops);
    assert RecordedAt(t, Noted(w, ops), i);
    NotedIsHistory(w, ops, key);
    forall k | 0 <= k < |ops| ensures Events(w, ops, key)[k].cancels <==> Cancels(Run(w, ops[..k]), ops[k], key) {
      EventAt(w, ops, key, k);
    }
  }

  // ----- What the table does with it -----

  // At the fence exactly the cancelled requests that are off the capture path are handed back.
  lemma FenceReleasesIff(w: World, j: Journal, key: Key)
    requires Recorded(w, j)
    ensures TerminalizeAfterFence(w.t, key).1.Ok?
       <==> && w.t.mode == Fencing && KeyError(w.t, key).None? && key in j.cancelled
            && w.t.slots[key.slot].wire in {Visible, Between, Exhausted}
  {
    if KeyError(w.t, key).None? { assert RecordedAt(w.t, j, key.slot); }
  }

  // A capture speaks for the phase last given under its key, and only a journaled one may be answered otherwise
  // than by completing it.
  lemma CaptureIsOfLatestPhase(w: World, j: Journal, epoch: nat, completion: bool, raw: nat)
    requires Recorded(w, j) && BeginCapture(w.t, epoch, completion, raw).1.Ok?
    ensures var token := BeginCapture(w.t, epoch, completion, raw).1.value;
            && token.key in j.phases && token.opcode == j.phases[token.key].opcode
            && (completion || j.phases[token.key].journaled)
  {
    CaptureTakesVisible(w.t, epoch, completion, raw);
    assert RecordedAt(w.t, j, FromRaw(raw).slot);
  }
}
