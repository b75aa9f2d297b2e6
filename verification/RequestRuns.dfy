/** Every run of the request table: any operations in any order, with any token
    values, from a fresh table. */
module RequestRuns {
  import opened Outcomes
  import opened Paths
  import Powers
  import opened RequestTable

  const MAX_INFLIGHT: nat := 16_777_023

  // A request id as it appears on the wire of one session.
  datatype Tag = Tag(epoch: nat, id: ReqId)

  // The table, and what has happened to it: ids issued and captured, owners taken in and handed back.
  datatype World = World(t: Table, issued: seq<Tag>, captured: seq<Tag>, admitted: multiset<Owner>,
                         released: multiset<Owner>)

  datatype Op =
    | DoAdmit(phase: Phase, owner: Owner)
    | DoMarkVisible(key: Key)
    | DoBeginPhase(key: Key, phase: Phase)
    | DoCancel(key: Key)
    | DoBeginCapture(epoch: nat, completion: bool, raw: nat)
    | DoInstall(token: Token)
    | DoRetain(token: Token)
    | DoQuarantine(token: Token)
    | DoTerminalize(token: Token)
    | DoWithdraw(key: Key)
    | DoTerminalizeAfterFence(key: Key)
    | DoReclaim(receipt: Receipt)
    | DoBeginFence
    | DoRetainAfterFence(key: Key)
    | DoRebind(epoch: nat, sameTopology: bool, control: Control)
    | DoBeginDrain
    | DoDrainNext

  function Issue(w: World, t: Table, id: ReqId): World {
    w.(t := t, issued := w.issued + [Tag(w.t.epoch, id)])
  }

  function HandBack(w: World, t: Table, r: Result<Terminal, Error>): World {
    if r.Ok? then w.(t := t, released := w.released + multiset{r.value.owner}) else w.(t := t)
  }

  function Next(w: World, op: Op): World {
    match op
    case DoAdmit(phase, owner) =>
      var (t, r) := Admit(w.t, phase, owner);
      if r.Ok? then Issue(w, t, r.value.id).(admitted := w.admitted + multiset{owner}) else w.(t := t)
    case DoMarkVisible(key) => w.(t := MarkVisible(w.t, key).0)
    case DoBeginPhase(key, phase) =>
      var (t, r) := BeginPhase(w.t, key, phase);
      if r.Ok? then Issue(w, t, r.value) else w.(t := t)
    case DoCancel(key) => w.(t := RecordCancel(w.t, key).0)
    case DoBeginCapture(epoch, completion, raw) =>
      var (t, r) := BeginCapture(w.t, epoch, completion, raw);
      if r.Ok? then w.(t := t, captured := w.captured + [Tag(w.t.epoch, r.value.id)]) else w.(t := t)
    case DoInstall(token) => w.(t := InstallCandidate(w.t, token).0)
    case DoRetain(token) => w.(t := Retain(w.t, token).0)
    case DoQuarantine(token) => w.(t := Quarantine(w.t, token).0)
    case DoTerminalize(token) => HandBack(w, Terminalize(w.t, token).0, Terminalize(w.t, token).1)
    case DoWithdraw(key) => HandBack(w, Withdraw(w.t, key).0, Withdraw(w.t, key).1)
    case DoTerminalizeAfterFence(key) =>
      HandBack(w, TerminalizeAfterFence(w.t, key).0, TerminalizeAfterFence(w.t, key).1)
    case DoReclaim(receipt) => w.(t := Reclaim(w.t, receipt).0)
    case DoBeginFence => w.(t := BeginFence(w.t).0)
    case DoRetainAfterFence(key) => w.(t := RetainAfterFence(w.t, key).0)
    case DoRebind(epoch, sameTopology, control) => w.(t := Rebind(w.t, epoch, sameTopology, control).0)
    case DoBeginDrain => w.(t := BeginDrain(w.t))
    case DoDrainNext =>
      var (t, r) := DrainNext(w.t);
      if r.Ok? && r.value.Some? then HandBack(w, t, Ok(r.value.value)) else w.(t := t)
  }

  function Run(w: World, ops: seq<Op>): World {
    if ops == [] then w else Next(Run(w, ops[..|ops| - 1]), ops[|ops| - 1])
  }

  function Start(tableId: nat, epoch: nat, n: nat): World {
    World(NewTable(tableId, epoch, n), [], [], multiset{}, multiset{})
  }

  // ----- What every step keeps -----

  ghost function After(chain: seq<nat>, k: nat): Option<nat> {
    if k + 1 < |chain| then Some(chain[k + 1]) else None
  }

  ghost predicate Linked(slots: seq<Slot>, chain: seq<nat>, k: nat)
    requires k < |chain|
  {
    chain[k] < |slots| && slots[chain[k]].Free? && slots[chain[k]].next == After(chain, k)
  }

  ghost predicate Listed(slots: seq<Slot>, chain: seq<nat>, i: nat)
    requires i < |slots|
  {
    slots[i].Free? ==> i in chain
  }

  // `chain` lists the free slots exactly once, in the order of the links from the head.
  ghost predicate ChainOk(slots: seq<Slot>, head: Option<nat>, chain: seq<nat>) {
    && Simple(chain)
    && head == (if chain == [] then None else Some(chain[0]))
    && (forall k :: 0 <= k < |chain| ==> Linked(slots, chain, k))
    && (forall i :: 0 <= i < |slots| ==> Listed(slots, chain, i))
  }

  // The latest generation of the slot in this session; zero when it has none yet.
  function Latest(s: Slot, epoch: nat): nat {
    match s
    case Free(_, g) => g
    case Retired(g) => g
    case Terminalizing(_, _, wireEpoch, id) => if wireEpoch == epoch then id.generation else 0
    case Live(_, _, _, _, id, _, _) => id.generation
  }

  predicate SlotOk(s: Slot, i: nat, epoch: nat) {
    match s
    case Free(_, g) => g < GENERATION_MAX
    case Retired(g) => g == GENERATION_MAX
    case Terminalizing(_, _, wireEpoch, id) => id.slot == i && wireEpoch <= epoch && id.generation <= GENERATION_MAX
    case Live(_, _, _, _, id, wire, _) =>
      id.slot == i && id.generation <= GENERATION_MAX
      && (wire in {Prepared, Visible, Capturing, Captured} ==> id.generation > 0)
  }

  function RetiredCount(slots: seq<Slot>): nat {
    if slots == [] then 0 else RetiredCount(slots[..|slots| - 1]) + if slots[|slots| - 1].Retired? then 1 else 0
  }

  function Holds(s: Slot, o: Owner): nat {
    if s.Live? && s.owner == o then 1 else 0
  }

  // How many live slots hold this owner.
  function LiveCount(slots: seq<Slot>, o: Owner): nat {
    if slots == [] then 0 else LiveCount(slots[..|slots| - 1], o) + Holds(slots[|slots| - 1], o)
  }

  ghost predicate TableOk(t: Table) {
    && |t.slots| <= MAX_INFLIGHT
    && (exists chain :: ChainOk(t.slots, t.freeHead, chain))
    && (forall i :: 0 <= i < |t.slots| ==> SlotOk(t.slots[i], i, t.epoch))
    && t.retired == RetiredCount(t.slots)
  }

  // Ids issued in this session are not ahead of their slot; none is from a later session.
  ghost predicate TagKnown(t: Table, tag: Tag) {
    && tag.epoch <= t.epoch && tag.id.slot < |t.slots| && 0 < tag.id.generation <= GENERATION_MAX
    && (tag.epoch == t.epoch ==> tag.id.generation <= Latest(t.slots[tag.id.slot], t.epoch))
  }

  // A published id that is still waiting has not been captured.
  ghost predicate Waiting(t: Table, captured: seq<Tag>, i: nat)
    requires i < |t.slots|
  {
    t.slots[i].Live? && t.slots[i].wire in {Prepared, Visible} ==> Tag(t.epoch, t.slots[i].id) !in captured
  }

  ghost predicate Inv(w: World) {
    && TableOk(w.t)
    && Simple(w.issued) && Simple(w.captured)
    && (forall tag :: tag in w.issued ==> TagKnown(w.t, tag))
    && (forall tag :: tag in w.captured ==> tag in w.issued)
    && (forall i :: 0 <= i < |w.t.slots| ==> Waiting(w.t, w.captured, i))
    && (forall i :: 0 <= i < |w.t.slots| ==> IdIssued(w.t, w.issued, i))
    && (forall o :: Conserved(w, o))
  }

  // Every admission of an owner is either still live or was handed back.
  ghost predicate Conserved(w: World, o: Owner) {
    w.admitted[o] == LiveCount(w.t.slots, o) + w.released[o]
  }

  // The id a live slot shows on the wire was issued in this session.
  ghost predicate IdIssued(t: Table, issued: seq<Tag>, i: nat)
    requires i < |t.slots|
  {
    t.slots[i].Live? && t.slots[i].wire in {Prepared, Visible, Capturing, Captured} ==>
      Tag(t.epoch, t.slots[i].id) in issued
  }

  // ----- One slot changed -----

  lemma {:induction false} RetiredUpdate(slots: seq<Slot>, i: nat, s: Slot)
    requires i < |slots|
    ensures RetiredCount(slots[i := s]) + (if slots[i].Retired? then 1 else 0)
      == RetiredCount(slots) + if s.Retired? then 1 else 0
    decreases |slots|
  {
    var n := |slots| - 1;
    if i == n {
      assert slots[i := s][..n] == slots[..n];
    } else {
      assert slots[i := s][..n] == slots[..n][i := s];
      RetiredUpdate(slots[..n], i, s);
    }
  }

  lemma {:induction false} LiveUpdate(slots: seq<Slot>, i: nat, s: Slot, o: Owner)
    requires i < |slots|
    ensures LiveCount(slots[i := s], o) + Holds(slots[i], o) == LiveCount(slots, o) + Holds(s, o)
    decreases |slots|
  {
    var n := |slots| - 1;
    if i == n {
      assert slots[i := s][..n] == slots[..n];
    } else {
      assert slots[i := s][..n] == slots[..n][i := s];
      LiveUpdate(slots[..n], i, s, o);
    }
  }

  lemma ChainUntouched(slots: seq<Slot>, head: Option<nat>, chain: seq<nat>, i: nat, s: Slot)
    requires ChainOk(slots, head, chain) && i < |slots| && !slots[i].Free? && !s.Free?
    ensures ChainOk(slots[i := s], head, chain)
  {
    var slots' := slots[i := s];
    forall k | 0 <= k < |chain| ensures Linked(slots', chain, k) { assert Linked(slots, chain, k); }
    forall k | 0 <= k < |slots| ensures Listed(slots', chain, k) { assert Listed(slots, chain, k); }
  }

  lemma LiveUpdateTable(t: Table, i: nat, s: Slot)
    requires TableOk(t) && i < |t.slots| && t.slots[i].Live? && (s.Live? || s.Terminalizing?) && SlotOk(s, i, t.epoch)
    ensures TableOk(SetSlot(t, i, s))
  {
    var chain :| ChainOk(t.slots, t.freeHead, chain);
    ChainUntouched(t.slots, t.freeHead, chain, i, s);
    RetiredUpdate(t.slots, i, s);
  }

  // A live slot's wire state or cancellation changes; it may not become waiting again.
  lemma RewireKeeps(w: World, i: nat, s: Slot)
    requires Inv(w) && i < |w.t.slots| && w.t.slots[i].Live?
    requires s.Live? && s == w.t.slots[i].(phase := s.phase, wire := s.wire, cancel := s.cancel)
    requires s.wire in {Prepared, Visible} ==> w.t.slots[i].wire in {Prepared, Visible}
    requires s.wire in {Capturing, Captured} ==> w.t.slots[i].wire in {Prepared, Visible, Capturing, Captured}
    ensures Inv(w.(t := SetSlot(w.t, i, s)))
  {
    var t, t' := w.t, SetSlot(w.t, i, s);
    LiveUpdateTable(t, i, s);
    forall tag | tag in w.issued ensures TagKnown(t', tag) { assert TagKnown(t, tag); }
    forall k | 0 <= k < |t'.slots| ensures Waiting(t', w.captured, k) && IdIssued(t', w.issued, k) {
      assert Waiting(t, w.captured, k) && IdIssued(t, w.issued, k);
    }
    forall o ensures Conserved(w.(t := t'), o) {
      assert Conserved(w, o);
      LiveUpdate(t.slots, i, s, o);
    }
  }

  // A visible id is captured: it was issued, and had not been captured before.
  lemma CaptureKeeps(w: World, i: nat)
    requires Inv(w) && i < |w.t.slots| && w.t.slots[i].Live? && w.t.slots[i].wire == Visible
    ensures var tag := Tag(w.t.epoch, w.t.slots[i].id);
            && tag in w.issued && tag !in w.captured
            && Inv(w.(t := SetSlot(w.t, i, w.t.slots[i].(wire := Capturing)), captured := w.captured + [tag]))
  {
    var tag := Tag(w.t.epoch, w.t.slots[i].id);
    var s := w.t.slots[i].(wire := Capturing);
    var t' := SetSlot(w.t, i, s);
    assert Waiting(w.t, w.captured, i) && IdIssued(w.t, w.issued, i);
    RewireKeeps(w, i, s);
    var w' := w.(t := t', captured := w.captured + [tag]);
    forall k | 0 <= k < |t'.slots| ensures Waiting(t', w'.captured, k) {
      assert Waiting(t', w.captured, k);
      assert SlotOk(t'.slots[k], k, t'.epoch);
    }
    forall o ensures Conserved(w', o) { assert Conserved(w.(t := t'), o); }
  }

  // A live slot gives up its owner.
  lemma ReleaseKeeps(w: World, i: nat)
    requires Inv(w) && i < |w.t.slots| && w.t.slots[i].Live?
    ensures Inv(HandBack(w, Release(w.t, i).0, Ok(Release(w.t, i).1)))
  {
    var t, live := w.t, w.t.slots[i];
    var s := Terminalizing(live.birthEpoch, live.birthGeneration, t.epoch, live.id);
    var w' := HandBack(w, Release(t, i).0, Ok(Release(t, i).1));
    var t' := w'.t;
    LiveUpdateTable(t, i, s);
    forall tag | tag in w.issued ensures TagKnown(t', tag) { assert TagKnown(t, tag); }
    forall k | 0 <= k < |t'.slots| ensures Waiting(t', w.captured, k) && IdIssued(t', w.issued, k) {
      assert Waiting(t, w.captured, k) && IdIssued(t, w.issued, k);
    }
    forall o ensures Conserved(w', o) {
      assert Conserved(w, o);
      LiveUpdate(t.slots, i, s, o);
    }
  }

  // ----- New ids -----

  // An id one generation above everything the slot has shown in this session is new.
  lemma FreshTag(w: World, i: nat, g: nat)
    requires Inv(w) && i < |w.t.slots| && g > Latest(w.t.slots[i], w.t.epoch)
    ensures Tag(w.t.epoch, ReqId(g, i)) !in w.issued
  {
    assert !TagKnown(w.t, Tag(w.t.epoch, ReqId(g, i)));
  }

  // What remains to be checked once the table itself is in order.
  lemma IssueKeeps(w: World, t': Table, i: nat, s: Slot, admitted: multiset<Owner>)
    requires Inv(w) && i < |w.t.slots| && t'.slots == w.t.slots[i := s] && t'.epoch == w.t.epoch && TableOk(t')
    requires s.Live? && s.wire == Prepared && s.id == ReqId(Latest(w.t.slots[i], w.t.epoch) + 1, i)
    requires forall o :: admitted[o] == LiveCount(t'.slots, o) + w.released[o]
    ensures Inv(Issue(w, t', s.id).(admitted := admitted))
  {
    var tag := Tag(w.t.epoch, s.id);
    var w' := Issue(w, t', s.id).(admitted := admitted);
    FreshTag(w, i, s.id.generation);
    forall x | x in w'.issued ensures TagKnown(t', x) {
      if x in w.issued { assert TagKnown(w.t, x); } else { assert x == tag && SlotOk(t'.slots[i], i, t'.epoch); }
    }
    forall k | 0 <= k < |t'.slots| ensures Waiting(t', w.captured, k) && IdIssued(t', w'.issued, k) {
      assert Waiting(w.t, w.captured, k) && IdIssued(w.t, w.issued, k);
      if k == i { assert tag in w'.issued && tag !in w.captured; }
    }
    forall o ensures Conserved(w', o) {}
  }

  lemma RenumberKeepsOwners(w: World, i: nat, s: Slot)
    requires Inv(w) && i < |w.t.slots| && w.t.slots[i].Live? && s.Live? && s.owner == w.t.slots[i].owner
    ensures forall o :: w.admitted[o] == LiveCount(w.t.slots[i := s], o) + w.released[o]
  {
    forall o ensures w.admitted[o] == LiveCount(w.t.slots[i := s], o) + w.released[o] {
      assert Conserved(w, o);
      LiveUpdate(w.t.slots, i, s, o);
    }
  }

  // A request between phases goes back on the wire under the next id of its slot.
  lemma RenumberKeeps(w: World, i: nat, s: Slot)
    requires Inv(w) && i < |w.t.slots| && w.t.slots[i].Live? && s.Live? && s.owner == w.t.slots[i].owner
      && s.wire == Prepared
    requires s.id == ReqId(w.t.slots[i].id.generation + 1, i) && s.id.generation <= GENERATION_MAX
    ensures Inv(Issue(w, SetSlot(w.t, i, s), s.id))
  {
    LiveUpdateTable(w.t, i, s);
    RenumberKeepsOwners(w, i, s);
    IssueKeeps(w, SetSlot(w.t, i, s), i, s, w.admitted);
  }

  lemma BeginPhaseKeeps(w: World, key: Key, phase: Phase)
    requires Inv(w) && BeginPhase(w.t, key, phase).1.Ok?
    ensures Inv(Issue(w, BeginPhase(w.t, key, phase).0, BeginPhase(w.t, key, phase).1.value))
  {
    RenumberKeeps(w, key.slot, BeginPhase(w.t, key, phase).0.slots[key.slot]);
  }

  lemma TakeHead(slots: seq<Slot>, chain: seq<nat>, s: Slot)
    requires chain != [] && ChainOk(slots, Some(chain[0]), chain) && !s.Free?
    ensures chain[0] < |slots| && slots[chain[0]].Free?
      && ChainOk(slots[chain[0] := s], slots[chain[0]].next, chain[1..])
  {
    assert Linked(slots, chain, 0);
    var rest, slots' := chain[1..], slots[chain[0] := s];
    forall k | 0 <= k < |rest| ensures Linked(slots', rest, k) {
      assert Linked(slots, chain, k + 1) && rest[k] == chain[k + 1] && chain[k + 1] != chain[0];
    }
    forall k | 0 <= k < |slots| ensures Listed(slots', rest, k) { assert Listed(slots, chain, k); }
  }

  lemma AdmitTable(t: Table, phase: Phase, owner: Owner)
    requires TableOk(t) && Admit(t, phase, owner).1.Ok?
    ensures TableOk(Admit(t, phase, owner).0)
  {
    var t' := Admit(t, phase, owner).0;
    var i := t.freeHead.value;
    var chain :| ChainOk(t.slots, t.freeHead, chain);
    assert SlotOk(t.slots[i], i, t.epoch);
    TakeHead(t.slots, chain, t'.slots[i]);
    RetiredUpdate(t.slots, i, t'.slots[i]);
  }

  lemma AdmitKeepsOwners(w: World, i: nat, s: Slot)
    requires Inv(w) && i < |w.t.slots| && w.t.slots[i].Free? && s.Live?
    ensures forall o :: (w.admitted + multiset{s.owner})[o] == LiveCount(w.t.slots[i := s], o) + w.released[o]
  {
    forall o ensures (w.admitted + multiset{s.owner})[o] == LiveCount(w.t.slots[i := s], o) + w.released[o] {
      assert Conserved(w, o);
      LiveUpdate(w.t.slots, i, s, o);
    }
  }

  lemma AdmitKeeps(w: World, phase: Phase, owner: Owner)
    requires Inv(w) && Admit(w.t, phase, owner).1.Ok?
    ensures Inv(Issue(w, Admit(w.t, phase, owner).0, Admit(w.t, phase, owner).1.value.id)
                .(admitted := w.admitted + multiset{owner}))
  {
    var i := w.t.freeHead.value;
    var t' := Admit(w.t, phase, owner).0;
    AdmitTable(w.t, phase, owner);
    AdmitKeepsOwners(w, i, t'.slots[i]);
    IssueKeeps(w, t', i, t'.slots[i], w.admitted + multiset{owner});
  }

  // ----- Reclaim -----

  lemma SimpleCons(i: nat, chain: seq<nat>)
    requires Simple(chain) && i !in chain
    ensures Simple([i] + chain)
  {
  }

  lemma PutHead(slots: seq<Slot>, head: Option<nat>, chain: seq<nat>, i: nat, g: nat)
    requires ChainOk(slots, head, chain) && i < |slots| && !slots[i].Free?
    ensures ChainOk(slots[i := Free(head, g)], Some(i), [i] + chain)
  {
    var slots', chain' := slots[i := Free(head, g)], [i] + chain;
    forall k | 0 <= k < |chain| ensures chain[k] != i { assert Linked(slots, chain, k); }
    SimpleCons(i, chain);
    forall k | 0 <= k < |chain'| ensures Linked(slots', chain', k) {
      if k > 0 { assert Linked(slots, chain, k - 1) && chain'[k] == chain[k - 1]; }
    }
    forall k | 0 <= k < |slots'| ensures Listed(slots', chain', k) { assert Listed(slots, chain, k); }
  }

  // A terminal slot becomes free or retired without hiding an id it has shown.
  lemma VacateKeeps(w: World, t': Table, i: nat, s: Slot)
    requires Inv(w) && i < |w.t.slots| && w.t.slots[i].Terminalizing? && (s.Free? || s.Retired?)
    requires t'.slots == w.t.slots[i := s] && t'.epoch == w.t.epoch && TableOk(t')
    requires Latest(s, w.t.epoch) == Latest(w.t.slots[i], w.t.epoch)
    ensures Inv(w.(t := t'))
  {
    forall tag | tag in w.issued ensures TagKnown(t', tag) { assert TagKnown(w.t, tag); }
    forall k | 0 <= k < |t'.slots| ensures Waiting(t', w.captured, k) && IdIssued(t', w.issued, k) {
      assert Waiting(w.t, w.captured, k) && IdIssued(w.t, w.issued, k);
    }
    forall o ensures Conserved(w.(t := t'), o) {
      assert Conserved(w, o);
      LiveUpdate(w.t.slots, i, s, o);
    }
  }

  lemma ReclaimTable(t: Table, r: Receipt)
    requires TableOk(t) && Reclaim(t, r).1.Ok?
    ensures TableOk(Reclaim(t, r).0)
  {
    var i := r.key.slot;
    var t' := Reclaim(t, r).0;
    var chain :| ChainOk(t.slots, t.freeHead, chain);
    assert SlotOk(t.slots[i], i, t.epoch);
    RetiredUpdate(t.slots, i, t'.slots[i]);
    if t'.slots[i].Retired? {
      ChainUntouched(t.slots, t.freeHead, chain, i, t'.slots[i]);
    } else {
      PutHead(t.slots, t.freeHead, chain, i, t'.slots[i].generation);
    }
  }

  lemma ReclaimKeeps(w: World, r: Receipt)
    requires Inv(w) && Reclaim(w.t, r).1.Ok?
    ensures Inv(w.(t := Reclaim(w.t, r).0))
  {
    ReclaimTable(w.t, r);
    VacateKeeps(w, Reclaim(w.t, r).0, r.key.slot, Reclaim(w.t, r).0.slots[r.key.slot]);
  }

  // ----- Rebinding to the next session -----

  ghost function FreeList(slots: seq<Slot>, i: nat): seq<nat>
    requires i <= |slots|
    decreases |slots| - i
  {
    if i == |slots| then [] else (if slots[i].Free? || slots[i].Retired? then [i] else []) + FreeList(slots, i + 1)
  }

  lemma {:induction false} FreeListMembers(slots: seq<Slot>, i: nat, k: nat)
    requires i <= |slots|
    ensures k in FreeList(slots, i) <==> i <= k < |slots| && (slots[k].Free? || slots[k].Retired?)
    decreases |slots| - i
  {
    if i < |slots| { FreeListMembers(slots, i + 1, k); }
  }

  lemma {:induction false} FreeListHead(slots: seq<Slot>, i: nat)
    requires i <= |slots|
    ensures HeadFrom(slots, i) == (if FreeList(slots, i) == [] then None else Some(FreeList(slots, i)[0]))
    decreases |slots| - i
  {
    if i < |slots| { FreeListHead(slots, i + 1); }
  }

  lemma {:induction false} FreeListSimple(slots: seq<Slot>, i: nat)
    requires i <= |slots|
    ensures Simple(FreeList(slots, i))
    decreases |slots| - i
  {
    if i < |slots| {
      FreeListSimple(slots, i + 1);
      FreeListMembers(slots, i + 1, i);
      SimpleCons(i, FreeList(slots, i + 1));
    }
  }

  lemma {:induction false} FreeListLink(slots: seq<Slot>, i: nat, k: nat)
    requires i <= |slots| && k < |FreeList(slots, i)|
    ensures var l := FreeList(slots, i); l[k] < |slots| && HeadFrom(slots, l[k] + 1) == After(l, k)
    decreases |slots| - i
  {
    var rest := FreeList(slots, i + 1);
    FreeListHead(slots, i + 1);
    if slots[i].Free? || slots[i].Retired? {
      if k > 0 {
        FreeListLink(slots, i + 1, k - 1);
        assert FreeList(slots, i)[k] == rest[k - 1];
      }
    } else {
      FreeListLink(slots, i + 1, k);
      assert FreeList(slots, i) == rest;
    }
  }

  lemma CarriedLink(slots: seq<Slot>, k: nat)
    requires k < |FreeList(slots, 0)|
    ensures Linked(CarryAll(slots), FreeList(slots, 0), k)
  {
    var i := FreeList(slots, 0)[k];
    FreeListLink(slots, 0, k);
    FreeListMembers(slots, 0, i);
    CarriedAt(slots, i);
  }

  lemma CarriedAt(slots: seq<Slot>, i: nat)
    requires i < |slots| && (slots[i].Free? || slots[i].Retired?)
    ensures CarryAll(slots)[i] == Free(HeadFrom(slots, i + 1), 0)
  {
  }

  lemma CarriedChain(slots: seq<Slot>)
    ensures ChainOk(CarryAll(slots), HeadFrom(slots, 0), FreeList(slots, 0))
  {
    var l, carried := FreeList(slots, 0), CarryAll(slots);
    FreeListSimple(slots, 0);
    FreeListHead(slots, 0);
    forall k | 0 <= k < |l| ensures Linked(carried, l, k) { CarriedLink(slots, k); }
    forall i | 0 <= i < |carried| ensures Listed(carried, l, i) { FreeListMembers(slots, 0, i); }
  }

  // The lowest free slot from `i` on.
  ghost predicate LowestFree(slots: seq<Slot>, i: nat, lowest: Option<nat>) {
    match lowest
    case None => forall k :: i <= k < |slots| ==> !slots[k].Free?
    case Some(l) => i <= l < |slots| && slots[l].Free? && forall k :: i <= k < l ==> !slots[k].Free?
  }

  lemma {:induction false} HeadIsLowest(slots: seq<Slot>, i: nat)
    requires i <= |slots|
    ensures LowestFree(CarryAll(slots), i, HeadFrom(slots, i))
    decreases |slots| - i
  {
    if i < |slots| {
      HeadIsLowest(slots, i + 1);
      assert CarryAll(slots)[i] == Carry(slots[i], i, HeadFrom(slots, i + 1));
    }
  }

  // A new session hands out its slots in ascending order: the list starts with the lowest free one, and each free
  // slot leads to the next.
  lemma SessionAscends(t: Table, nextEpoch: nat, sameTopology: bool, control: Control, i: nat)
    requires Rebind(t, nextEpoch, sameTopology, control).1.Ok? && i < |t.slots|
    ensures var t' := Rebind(t, nextEpoch, sameTopology, control).0;
            && LowestFree(t'.slots, 0, t'.freeHead)
            && (t'.slots[i].Free? ==> t'.slots[i].generation == 0 && LowestFree(t'.slots, i + 1, t'.slots[i].next))
            && (t'.slots[i].Free? <==> t.slots[i].Free? || t.slots[i].Retired?)
  {
    HeadIsLowest(t.slots, 0);
    HeadIsLowest(t.slots, i + 1);
    assert CarryAll(t.slots)[i] == Carry(t.slots[i], i, HeadFrom(t.slots, i + 1));
  }

  // Within a session the slot last given back is the next to be taken.
  lemma LastBackFirstOut(t: Table, r: Receipt, phase: Phase, owner: Owner)
    requires Reclaim(t, r).1.Ok? && t.mode == Active && r.key.slot <= INDEX_MAX
    requires r.wireEpoch != t.epoch || r.id.generation < GENERATION_MAX
    ensures var again := Admit(Reclaim(t, r).0, phase, owner).1;
            again.Ok? && again.value.key.slot == r.key.slot
  {
  }

  lemma {:induction false} NoneRetired(slots: seq<Slot>)
    requires forall i :: 0 <= i < |slots| ==> !slots[i].Retired?
    ensures RetiredCount(slots) == 0
    decreases |slots|
  {
    if slots != [] { NoneRetired(slots[..|slots| - 1]); }
  }

  lemma {:induction false} SameHolders(a: seq<Slot>, b: seq<Slot>, o: Owner)
    requires |a| == |b| && forall i :: 0 <= i < |a| ==> Holds(a[i], o) == Holds(b[i], o)
    ensures LiveCount(a, o) == LiveCount(b, o)
    decreases |a|
  {
    if a != [] { SameHolders(a[..|a| - 1], b[..|b| - 1], o); }
  }

  lemma {:induction false} ResolvedSlots(slots: seq<Slot>, i: nat)
    requires Unresolved(slots).None? && i < |slots| && slots[i].Live?
    ensures slots[i].wire in {Between, Quarantined, Exhausted}
    decreases |slots|
  {
    if i > 0 { ResolvedSlots(slots[1..], i - 1); }
  }

  lemma RebindTable(t: Table, t': Table)
    requires TableOk(t) && Unresolved(t.slots).None?
    requires t'.epoch == t.epoch + 1 && t'.slots == CarryAll(t.slots) && t'.freeHead == HeadFrom(t.slots, 0)
      && t'.retired == 0
    ensures TableOk(t')
  {
    CarriedChain(t.slots);
    NoneRetired(t'.slots);
    forall i | 0 <= i < |t'.slots| ensures SlotOk(t'.slots[i], i, t'.epoch) {
      assert SlotOk(t.slots[i], i, t.epoch);
      if t.slots[i].Live? { ResolvedSlots(t.slots, i); }
    }
  }

  lemma CarryKeepsOwners(slots: seq<Slot>, o: Owner)
    ensures LiveCount(CarryAll(slots), o) == LiveCount(slots, o)
  {
    SameHolders(CarryAll(slots), slots, o);
  }

  // No id of an earlier session can be met in the new one, and no slot is waiting in it yet.
  lemma RebindIds(w: World, t': Table)
    requires Inv(w) && Unresolved(w.t.slots).None? && t'.slots == CarryAll(w.t.slots) && t'.epoch == w.t.epoch + 1
    ensures forall tag :: tag in w.issued ==> TagKnown(t', tag)
    ensures forall i :: 0 <= i < |t'.slots| ==> Waiting(t', w.captured, i)
    ensures forall i :: 0 <= i < |t'.slots| ==> IdIssued(t', w.issued, i)
  {
    forall tag | tag in w.issued ensures TagKnown(t', tag) { assert TagKnown(w.t, tag); }
    forall i | 0 <= i < |t'.slots| ensures Waiting(t', w.captured, i) && IdIssued(t', w.issued, i) {
      if w.t.slots[i].Live? { ResolvedSlots(w.t.slots, i); }
    }
  }

  lemma RebindKeeps(w: World, epoch: nat, sameTopology: bool, control: Control)
    requires Inv(w) && Rebind(w.t, epoch, sameTopology, control).1.Ok?
    ensures Inv(w.(t := Rebind(w.t, epoch, sameTopology, control).0))
  {
    var t' := Rebind(w.t, epoch, sameTopology, control).0;
    var w' := w.(t := t');
    RebindTable(w.t, t');
    RebindIds(w, t');
    forall o ensures Conserved(w', o) {
      assert Conserved(w, o);
      CarryKeepsOwners(w.t.slots, o);
    }
  }

  // ----- Every step -----

  lemma FlagsKeep(w: World, t': Table)
    requires Inv(w) && t'.slots == w.t.slots && t'.epoch == w.t.epoch && t'.freeHead == w.t.freeHead
      && t'.retired == w.t.retired
    ensures Inv(w.(t := t'))
  {
    forall tag | tag in w.issued ensures TagKnown(t', tag) { assert TagKnown(w.t, tag); }
    forall i | 0 <= i < |t'.slots| ensures Waiting(t', w.captured, i) && IdIssued(t', w.issued, i) {
      assert Waiting(w.t, w.captured, i) && IdIssued(w.t, w.issued, i);
    }
    forall o ensures Conserved(w.(t := t'), o) { assert Conserved(w, o); }
  }

  lemma ExhaustKeeps(w: World, key: Key, phase: Phase)
    requires Inv(w) && !BeginPhase(w.t, key, phase).1.Ok?
    ensures Inv(w.(t := BeginPhase(w.t, key, phase).0))
  {
    var t' := BeginPhase(w.t, key, phase).0;
    if t' != w.t {
      var s := w.t.slots[key.slot].(wire := Exhausted);
      RewireKeeps(w, key.slot, s);
      FlagsKeep(w.(t := SetSlot(w.t, key.slot, s)), t');
    }
  }

  // Steps that at most move one live slot along its wire states.
  lemma MarkVisibleKeeps(w: World, key: Key)
    requires Inv(w)
    ensures Inv(w.(t := MarkVisible(w.t, key).0))
  {
    if MarkVisible(w.t, key).1.Ok? { RewireKeeps(w, key.slot, w.t.slots[key.slot].(wire := Visible)); }
  }

  lemma CancelKeeps(w: World, key: Key)
    requires Inv(w)
    ensures Inv(w.(t := RecordCancel(w.t, key).0))
  {
    if RecordCancel(w.t, key).1.Ok? { RewireKeeps(w, key.slot, w.t.slots[key.slot].(cancel := true)); }
  }

  lemma InstallKeeps(w: World, token: Token)
    requires Inv(w)
    ensures Inv(w.(t := InstallCandidate(w.t, token).0))
  {
    if InstallCandidate(w.t, token).1.Ok? {
      RewireKeeps(w, token.key.slot, w.t.slots[token.key.slot].(wire := Captured));
    }
  }

  lemma DisposeKeeps(w: World, token: Token, wire: Wire)
    requires Inv(w) && wire in {Between, Quarantined}
    ensures Inv(w.(t := Dispose(w.t, token, wire).0))
  {
    if Dispose(w.t, token, wire).1.Ok? { RewireKeeps(w, token.key.slot, w.t.slots[token.key.slot].(wire := wire)); }
  }

  lemma RetainAfterFenceKeeps(w: World, key: Key)
    requires Inv(w)
    ensures Inv(w.(t := RetainAfterFence(w.t, key).0))
  {
    if RetainAfterFence(w.t, key).1.Ok? { RewireKeeps(w, key.slot, w.t.slots[key.slot].(wire := Between)); }
  }

  lemma CaptureTakesVisible(t: Table, epoch: nat, completion: bool, raw: nat)
    requires BeginCapture(t, epoch, completion, raw).1.Ok?
    ensures var i := FromRaw(raw).slot;
            && i < |t.slots| && t.slots[i].Live? && t.slots[i].wire == Visible && t.slots[i].id == FromRaw(raw)
            && BeginCapture(t, epoch, completion, raw).0 == SetSlot(t, i, t.slots[i].(wire := Capturing))
            && BeginCapture(t, epoch, completion, raw).1.value.id == FromRaw(raw)
  {
  }

  lemma BeginCaptureKeeps(w: World, epoch: nat, completion: bool, raw: nat)
    requires Inv(w) && BeginCapture(w.t, epoch, completion, raw).1.Ok?
    ensures Inv(w.(t := BeginCapture(w.t, epoch, completion, raw).0,
                   captured := w.captured + [Tag(w.t.epoch, FromRaw(raw))]))
  {
    CaptureTakesVisible(w.t, epoch, completion, raw);
    CaptureKeeps(w, FromRaw(raw).slot);
  }

  lemma HandBackKeeps(w: World, t': Table, r: Result<Terminal, Error>)
    requires Inv(w)
    requires r.Ok? ==> exists i :: 0 <= i < |w.t.slots| && w.t.slots[i].Live? && (t', r) == ReleaseOk(w.t, i)
    requires r.Err? ==> t' == w.t
    ensures Inv(HandBack(w, t', r))
  {
    if r.Ok? {
      var i :| 0 <= i < |w.t.slots| && w.t.slots[i].Live? && (t', r) == ReleaseOk(w.t, i);
      ReleaseKeeps(w, i);
    }
  }

  lemma DrainKeeps(w: World)
    requires Inv(w)
    ensures Inv(Next(w, DoDrainNext))
  {
    var (t', r) := DrainNext(w.t);
    if r.Ok? && r.value.Some? { ReleaseKeeps(w, FirstDrainable(w.t.slots, 0).value); }
  }

  lemma IssuingStepKeeps(w: World, op: Op)
    requires Inv(w) && (op.DoAdmit? || op.DoBeginPhase?)
    ensures Inv(Next(w, op))
  {
    if op.DoAdmit? {
      if Admit(w.t, op.phase, op.owner).1.Ok? {
        AdmitKeeps(w, op.phase, op.owner);
      } else {
        FlagsKeep(w, Next(w, op).t);
      }
    } else {
      if BeginPhase(w.t, op.key, op.phase).1.Ok? {
        BeginPhaseKeeps(w, op.key, op.phase);
      } else {
        ExhaustKeeps(w, op.key, op.phase);
      }
    }
  }

  lemma CaptureStepKeeps(w: World, op: Op)
    requires Inv(w) && op.DoBeginCapture?
    ensures Inv(Next(w, op))
  {
    if BeginCapture(w.t, op.epoch, op.completion, op.raw).1.Ok? {
      CaptureTakesVisible(w.t, op.epoch, op.completion, op.raw);
      BeginCaptureKeeps(w, op.epoch, op.completion, op.raw);
    }
  }

  lemma WireStepKeeps(w: World, op: Op)
    requires Inv(w)
    requires op.DoMarkVisible? || op.DoCancel? || op.DoInstall? || op.DoRetain? || op.DoQuarantine?
      || op.DoRetainAfterFence?
    ensures Inv(Next(w, op))
  {
    match op
    case DoMarkVisible(key) => MarkVisibleKeeps(w, key);
    case DoCancel(key) => CancelKeeps(w, key);
    case DoInstall(token) => InstallKeeps(w, token);
    case DoRetain(token) => DisposeKeeps(w, token, Between);
    case DoQuarantine(token) => DisposeKeeps(w, token, Quarantined);
    case DoRetainAfterFence(key) => RetainAfterFenceKeeps(w, key);
  }

  lemma ReleasingStepKeeps(w: World, op: Op)
    requires Inv(w) && (op.DoTerminalize? || op.DoWithdraw? || op.DoTerminalizeAfterFence?)
    ensures Inv(Next(w, op))
  {
    match op
    case DoTerminalize(token) => HandBackKeeps(w, Terminalize(w.t, token).0, Terminalize(w.t, token).1);
    case DoWithdraw(key) => HandBackKeeps(w, Withdraw(w.t, key).0, Withdraw(w.t, key).1);
    case DoTerminalizeAfterFence(key) =>
      HandBackKeeps(w, TerminalizeAfterFence(w.t, key).0, TerminalizeAfterFence(w.t, key).1);
  }

  lemma SessionStepKeeps(w: World, op: Op)
    requires Inv(w) && (op.DoReclaim? || op.DoBeginFence? || op.DoRebind? || op.DoBeginDrain? || op.DoDrainNext?)
    ensures Inv(Next(w, op))
  {
    match op
    case DoReclaim(receipt) => if Reclaim(w.t, receipt).1.Ok? { ReclaimKeeps(w, receipt); }
    case DoBeginFence => FlagsKeep(w, BeginFence(w.t).0);
    case DoRebind(epoch, sameTopology, control) =>
      if Rebind(w.t, epoch, sameTopology, control).1.Ok? { RebindKeeps(w, epoch, sameTopology, control); }
    case DoBeginDrain => FlagsKeep(w, BeginDrain(w.t));
    case DoDrainNext => DrainKeeps(w);
  }

  lemma NextKeeps(w: World, op: Op)
    requires Inv(w)
    ensures Inv(Next(w, op))
  {
    if op.DoAdmit? || op.DoBeginPhase? {
      IssuingStepKeeps(w, op);
    } else if op.DoBeginCapture? {
      CaptureStepKeeps(w, op);
    } else if op.DoTerminalize? || op.DoWithdraw? || op.DoTerminalizeAfterFence? {
      ReleasingStepKeeps(w, op);
    } else if op.DoReclaim? || op.DoBeginFence? || op.DoRebind? || op.DoBeginDrain? || op.DoDrainNext? {
      SessionStepKeeps(w, op);
    } else {
      WireStepKeeps(w, op);
    }
  }

  lemma {:induction false} RunKeeps(w: World, ops: seq<Op>)
    requires Inv(w)
    ensures Inv(Run(w, ops))
    decreases |ops|
  {
    if ops != [] {
      RunKeeps(w, ops[..|ops| - 1]);
      NextKeeps(Run(w, ops[..|ops| - 1]), ops[|ops| - 1]);
    }
  }

  // ----- A fresh table -----

  lemma {:induction false} FreshAt(n: nat, i: nat, k: nat)
    requires i <= n
    ensures |FreshSlots(n, i)| == n - i
    ensures i <= k < n ==> FreshSlots(n, i)[k - i] == Free(if k + 1 < n then Some(k + 1) else None, 0)
    decreases n - i
  {
    if i < n { FreshAt(n, i + 1, k); }
  }

  lemma FreshTable(tableId: nat, epoch: nat, n: nat)
    requires n <= MAX_INFLIGHT
    ensures TableOk(NewTable(tableId, epoch, n))
  {
    var slots := FreshSlots(n, 0);
    FreshAt(n, 0, 0);
    var chain: seq<nat> := seq(n, (i: nat) => i);
    forall k: nat | k < n ensures slots[k] == Free(After(chain, k), 0) { FreshAt(n, 0, k); }
    forall k | 0 <= k < n ensures Linked(slots, chain, k) {}
    forall k | 0 <= k < n ensures Listed(slots, chain, k) { assert chain[k] == k; }
    assert ChainOk(slots, NewTable(tableId, epoch, n).freeHead, chain);
    NoneRetired(slots);
  }

  lemma {:induction false} NoneLive(slots: seq<Slot>, o: Owner)
    requires forall i :: 0 <= i < |slots| ==> !slots[i].Live?
    ensures LiveCount(slots, o) == 0
    decreases |slots|
  {
    if slots != [] { NoneLive(slots[..|slots| - 1], o); }
  }

  lemma StartOk(tableId: nat, epoch: nat, n: nat)
    requires n <= MAX_INFLIGHT
    ensures Inv(Start(tableId, epoch, n))
  {
    var w := Start(tableId, epoch, n);
    FreshTable(tableId, epoch, n);
    forall k: nat | k < |w.t.slots| ensures w.t.slots[k].Free? { FreshAt(n, 0, k); }
    forall o ensures Conserved(w, o) { NoneLive(w.t.slots, o); }
  }

  // ----- Whole runs -----

  ghost predicate Reached(w: World) {
    exists tableId: nat, epoch: nat, n: nat, ops :: n <= MAX_INFLIGHT && w == Run(Start(tableId, epoch, n), ops)
  }

  lemma ReachedInv(w: World)
    requires Reached(w)
    ensures Inv(w)
  {
    var tableId: nat, epoch: nat, n: nat, ops :| n <= MAX_INFLIGHT && w == Run(Start(tableId, epoch, n), ops);
    StartOk(tableId, epoch, n);
    RunKeeps(Start(tableId, epoch, n), ops);
  }

  lemma {:induction false} RunAppend(w: World, a: seq<Op>, b: seq<Op>)
    ensures Run(w, a + b) == Run(Run(w, a), b)
    decreases |b|
  {
    if b == [] {
      assert a + b == a;
    } else {
      assert (a + b)[..|a + b| - 1] == a + b[..|b| - 1];
      RunAppend(w, a, b[..|b| - 1]);
    }
  }

  lemma RunOne(w: World, op: Op)
    ensures Run(w, [op]) == Next(w, op) && Run(w, [] + [op]) == Next(w, op)
  {
    assert [op][..0] == [] && [] + [op] == [op];
  }

  lemma ReachedRun(w: World, ops: seq<Op>)
    requires Reached(w)
    ensures Reached(Run(w, ops))
  {
    var tableId: nat, epoch: nat, n: nat, before :| n <= MAX_INFLIGHT && w == Run(Start(tableId, epoch, n), before);
    RunAppend(Start(tableId, epoch, n), before, ops);
  }

  // No id is ever issued twice, whatever the run; none is captured twice, and none that was not issued.
  lemma IdsNeverRepeat(w: World)
    requires Reached(w)
    ensures forall i, j :: 0 <= i < j < |w.issued| ==> w.issued[i] != w.issued[j]
    ensures forall i, j :: 0 <= i < j < |w.captured| ==> w.captured[i] != w.captured[j]
    ensures forall tag :: tag in w.captured ==> tag in w.issued
  {
    ReachedInv(w);
  }

  // What the provider sees: within a session the packed words are distinct, and none is the zero word.
  lemma PackedIdsNeverRepeat(w: World)
    requires Reached(w)
    ensures forall tag :: tag in w.issued ==> 0 < Raw(tag.id) < Powers.WORD_LIMIT && FromRaw(Raw(tag.id)) == tag.id
    ensures forall i, j :: 0 <= i < j < |w.issued| && w.issued[i].epoch == w.issued[j].epoch ==>
              Raw(w.issued[i].id) != Raw(w.issued[j].id)
  {
    ReachedInv(w);
    forall tag | tag in w.issued ensures 0 < Raw(tag.id) < Powers.WORD_LIMIT && FromRaw(Raw(tag.id)) == tag.id {
      assert TagKnown(w.t, tag);
      RawRoundTrip(tag.id);
    }
    forall i, j | 0 <= i < j < |w.issued| && w.issued[i].epoch == w.issued[j].epoch
      ensures Raw(w.issued[i].id) != Raw(w.issued[j].id)
    {
      assert w.issued[i] in w.issued && w.issued[j] in w.issued && w.issued[i] != w.issued[j];
    }
  }

  // Every owner taken in is held by exactly one live slot or has been handed back, once.
  lemma OwnersConserved(w: World, o: Owner)
    requires Reached(w)
    ensures w.admitted[o] == LiveCount(w.t.slots, o) + w.released[o]
  {
    ReachedInv(w);
    assert Conserved(w, o);
  }

  // A raw id the provider sends is accepted only if it was issued in this session and never accepted before.
  lemma CaptureIsFresh(w: World, epoch: nat, completion: bool, raw: nat)
    requires Reached(w) && BeginCapture(w.t, epoch, completion, raw).1.Ok?
    ensures epoch == w.t.epoch && Tag(epoch, FromRaw(raw)) in w.issued && Tag(epoch, FromRaw(raw)) !in w.captured
  {
    ReachedInv(w);
    CaptureTakesVisible(w.t, epoch, completion, raw);
    CaptureKeeps(w, FromRaw(raw).slot);
  }

  lemma HeadIffFree(t: Table)
    requires TableOk(t)
    ensures t.freeHead.Some? <==> exists i :: 0 <= i < |t.slots| && t.slots[i].Free?
    ensures t.freeHead.Some? ==> t.freeHead.value < |t.slots| && t.slots[t.freeHead.value].Free?
  {
    var chain :| ChainOk(t.slots, t.freeHead, chain);
    if chain == [] {
      forall i | 0 <= i < |t.slots| ensures !t.slots[i].Free? { assert Listed(t.slots, chain, i); }
    } else {
      assert Linked(t.slots, chain, 0);
    }
  }

  lemma {:induction false} AllRetired(slots: seq<Slot>)
    ensures RetiredCount(slots) <= |slots|
    ensures RetiredCount(slots) == |slots| <==> forall i :: 0 <= i < |slots| ==> slots[i].Retired?
    decreases |slots|
  {
    if slots != [] {
      AllRetired(slots[..|slots| - 1]);
      assert slots == slots[..|slots| - 1] + [slots[|slots| - 1]];
    }
  }

  // Admission never misses a free slot, and says exactly why it refuses.
  lemma AdmitIff(w: World, phase: Phase, owner: Owner)
    requires Reached(w)
    ensures var r := Admit(w.t, phase, owner).1;
            && (r.Ok? <==> w.t.mode == Active && exists i :: 0 <= i < |w.t.slots| && w.t.slots[i].Free?)
            && (r == Err(SessionGenerationExhausted) <==>
                w.t.mode == Active && forall i :: 0 <= i < |w.t.slots| ==> w.t.slots[i].Retired?)
            && (r == Err(TableNotActive) <==> w.t.mode != Active)
  {
    ReachedInv(w);
    HeadIffFree(w.t);
    AllRetired(w.t.slots);
    if w.t.freeHead.Some? { assert SlotOk(w.t.slots[w.t.freeHead.value], w.t.freeHead.value, w.t.epoch); }
  }
}
