/** The request table's application slots: admission, publication, capture of a
    completion, release of the owner, reclaim, and the fence between sessions. Every
    token argument is an arbitrary value; nothing here trusts where it came from. */
module RequestTable {
  import opened Outcomes
  import opened Powers

  const GENERATION_MAX: nat := 0xFF_FFFF_FFFF
  const INDEX_MAX: nat := 0xFF_FFFF
  const INDEX_LIMIT: nat := 0x100_0000
  const EPOCH_MAX: nat := 0xFFFF_FFFF_FFFF_FFFF

  // A request id packs a 40-bit generation above a 24-bit slot index.
  datatype ReqId = ReqId(generation: nat, slot: nat)

  function Raw(id: ReqId): nat {
    id.generation * INDEX_LIMIT + id.slot
  }

  function FromRaw(raw: nat): ReqId {
    ReqId(raw / INDEX_LIMIT, raw % INDEX_LIMIT)
  }

  // The ids that `try_new` accepts.
  predicate Packable(id: ReqId) {
    id.generation <= GENERATION_MAX && id.slot <= INDEX_MAX
  }

  // Packing is a bijection between those ids and the 64-bit words.
  lemma RawRoundTrip(id: ReqId)
    requires Packable(id)
    ensures Raw(id) < WORD_LIMIT && FromRaw(Raw(id)) == id
  {
  }

  lemma RawCovers(raw: nat)
    requires raw < WORD_LIMIT
    ensures Packable(FromRaw(raw)) && Raw(FromRaw(raw)) == raw
  {
  }

  datatype Phase = Phase(opcode: nat, journaled: bool)
  datatype Wire = Between | Prepared | Visible | Capturing | Captured | Quarantined | Exhausted
  datatype Mode = Active | Fencing | Draining

  // The completion owner is an opaque capability; two may not be told apart.
  type Owner = nat

  datatype Slot =
    | Free(next: Option<nat>, generation: nat)
    | Retired(generation: nat)
    | Terminalizing(birthEpoch: nat, birthGeneration: nat, wireEpoch: nat, id: ReqId)
    | Live(owner: Owner, phase: Phase, birthEpoch: nat, birthGeneration: nat, id: ReqId, wire: Wire, cancel: bool)

  datatype Table = Table(tableId: nat, epoch: nat, slots: seq<Slot>, freeHead: Option<nat>, retired: nat, mode: Mode,
                         needsQuiesce: bool)

  datatype Key = Key(tableId: nat, slot: nat, birthEpoch: nat, birthGeneration: nat)
  // A capture in progress, or an installed candidate: the birth of the request and its wire identity.
  datatype Token = Token(key: Key, wireEpoch: nat, id: ReqId, opcode: nat)
  datatype Receipt = Receipt(key: Key, wireEpoch: nat, id: ReqId)
  datatype Terminal = Terminal(receipt: Receipt, owner: Owner)
  datatype Admission = Admission(key: Key, id: ReqId)

  datatype Error =
    | TableNotActive | Full | SessionGenerationExhausted
    | ForeignTable | WrongClass | Vacant | StaleBirth | WrongState | GenerationExhausted
    | WrongSession | ZeroRequestId | ZeroGeneration | UnassignedIndex | RetiredSlot | StaleCurrentGeneration
    | NotVisible | CaptureInProgress | CandidateInstalled | WrongKind | StaleWireIdentity
    | NotTerminalizing | StaleTerminalIdentity
    | WrongMode | WrongEpoch | EpochExhausted | TopologyChanged | UnresolvedPhase | UnresolvedCapture | LiveControlLane
    | NotDraining

  function KeyAt(t: Table, i: nat): Key
    requires i < |t.slots| && (t.slots[i].Live? || t.slots[i].Terminalizing?)
  {
    Key(t.tableId, i, t.slots[i].birthEpoch, t.slots[i].birthGeneration)
  }

  function SetSlot(t: Table, i: nat, s: Slot): Table
    requires i < |t.slots|
  {
    t.(slots := t.slots[i := s])
  }

  // ----- Setting up -----

  function FreshSlots(n: nat, i: nat): seq<Slot>
    requires i <= n
    decreases n - i
  {
    if i == n then [] else [Free(if i + 1 < n then Some(i + 1) else None, 0)] + FreshSlots(n, i + 1)
  }

  function NewTable(tableId: nat, epoch: nat, n: nat): Table {
    Table(tableId, epoch, FreshSlots(n, 0), if n == 0 then None else Some(0), 0, Active, false)
  }

  // ----- Admission -----

  function NextGeneration(g: nat): Option<nat> {
    if g >= GENERATION_MAX then None else Some(g + 1)
  }

  function Admit(t: Table, phase: Phase, owner: Owner): (Table, Result<Admission, Error>) {
    if t.mode != Active then (t, Err(TableNotActive))
    else if t.freeHead.None? then
      if t.retired == |t.slots| then (t.(needsQuiesce := true), Err(SessionGenerationExhausted)) else (t, Err(Full))
    else
      var i := t.freeHead.value;
      if i >= |t.slots| || !t.slots[i].Free? then (t, Err(Full))
      else
        var g := NextGeneration(t.slots[i].generation);
        if g.None? || i > INDEX_MAX then (t.(needsQuiesce := true), Err(SessionGenerationExhausted))
        else
          var id := ReqId(g.value, i);
          var live := Live(owner, phase, t.epoch, g.value, id, Prepared, false);
          (SetSlot(t, i, live).(freeHead := t.slots[i].next), Ok(Admission(Key(t.tableId, i, t.epoch, g.value), id)))
  }

  // ----- Keys -----

  function KeyError(t: Table, key: Key): (e: Option<Error>)
    ensures e.None? ==> key.slot < |t.slots| && t.slots[key.slot].Live? && key == KeyAt(t, key.slot)
  {
    if key.tableId != t.tableId then Some(ForeignTable)
    else if key.slot >= |t.slots| then Some(WrongClass)
    else if !t.slots[key.slot].Live? then Some(Vacant)
    else if t.slots[key.slot].birthEpoch != key.birthEpoch
      || t.slots[key.slot].birthGeneration != key.birthGeneration then Some(StaleBirth)
    else None
  }

  function MarkVisible(t: Table, key: Key): (Table, Result<ReqId, Error>) {
    if t.mode != Active then (t, Err(TableNotActive))
    else if KeyError(t, key).Some? then (t, Err(KeyError(t, key).value))
    else
      var s := t.slots[key.slot];
      if s.wire != Prepared then (t, Err(WrongState))
      else (SetSlot(t, key.slot, s.(wire := Visible)), Ok(s.id))
  }

  function BeginPhase(t: Table, key: Key, phase: Phase): (Table, Result<ReqId, Error>) {
    if t.mode != Active then (t, Err(TableNotActive))
    else if KeyError(t, key).Some? then (t, Err(KeyError(t, key).value))
    else
      var s := t.slots[key.slot];
      if s.wire != Between then (t, Err(WrongState))
      else
        var g := NextGeneration(s.id.generation);
        if g.None? || key.slot > INDEX_MAX then
          (SetSlot(t, key.slot, s.(wire := Exhausted)).(needsQuiesce := true), Err(GenerationExhausted))
        else
          var id := ReqId(g.value, key.slot);
          (SetSlot(t, key.slot, s.(phase := phase, id := id, wire := Prepared)), Ok(id))
  }

  function RecordCancel(t: Table, key: Key): (Table, Result<(), Error>) {
    if KeyError(t, key).Some? then (t, Err(KeyError(t, key).value))
    else (SetSlot(t, key.slot, t.slots[key.slot].(cancel := true)), Ok(()))
  }

  // ----- Completions from the provider -----

  function CaptureStateError(w: Wire): Error {
    match w
    case Capturing => CaptureInProgress
    case Captured => CandidateInstalled
    case _ => NotVisible
  }

  // The provider names a session and a raw request id of its choice.
  function BeginCapture(t: Table, observedEpoch: nat, completion: bool, raw: nat): (Table, Result<Token, Error>) {
    if t.mode == Draining then (t, Err(TableNotActive))
    else if observedEpoch != t.epoch then (t, Err(WrongSession))
    else if raw == 0 then (t, Err(ZeroRequestId))
    else
      var id := FromRaw(raw);
      if id.generation == 0 then (t, Err(ZeroGeneration))
      else if id.slot >= |t.slots| then (t, Err(UnassignedIndex))
      else
        match t.slots[id.slot]
        case Free(_, _) => (t, Err(Vacant))
        case Retired(_) => (t, Err(RetiredSlot))
        case Terminalizing(_, _, _, _) => (t, Err(NotVisible))
        case Live(owner, phase, birthEpoch, birthGeneration, current, wire, cancel) =>
          if current != id then (t, Err(StaleCurrentGeneration))
          else if wire != Visible then (t, Err(CaptureStateError(wire)))
          else if !completion && !phase.journaled then (t, Err(WrongKind))
          else
            (SetSlot(t, id.slot, t.slots[id.slot].(wire := Capturing)),
             Ok(Token(KeyAt(t, id.slot), t.epoch, id, phase.opcode)))
  }

  function InstallCandidate(t: Table, token: Token): (Table, Result<Token, Error>) {
    var i := token.key.slot;
    if token.key.tableId != t.tableId then (t, Err(ForeignTable))
    else if token.id.slot != i || i >= |t.slots| then (t, Err(WrongClass))
    else if !t.slots[i].Live? || token.key != KeyAt(t, i) then (t, Err(StaleBirth))
    else
      var s := t.slots[i];
      if t.epoch != token.wireEpoch || s.id != token.id || s.phase.opcode != token.opcode then
        (t, Err(StaleWireIdentity))
      else if s.wire != Capturing then (t, Err(WrongState))
      else (SetSlot(t, i, s.(wire := Captured)), Ok(token))
  }

  // The checks every disposition of an installed candidate makes.
  function CandidateError(t: Table, token: Token): (e: Option<Error>)
    ensures e.None? ==>
      token.key.slot < |t.slots| && t.slots[token.key.slot].Live? && token.key == KeyAt(t, token.key.slot)
      && token.wireEpoch == t.epoch && t.slots[token.key.slot].id == token.id
      && t.slots[token.key.slot].wire == Captured
  {
    if token.key.tableId != t.tableId then Some(ForeignTable)
    else if token.id.slot != token.key.slot then Some(WrongClass)
    else if KeyError(t, token.key).Some? then Some(KeyError(t, token.key).value)
    else
      var s := t.slots[token.key.slot];
      if t.epoch != token.wireEpoch || s.id != token.id || s.wire != Captured then Some(WrongState) else None
  }

  function Dispose(t: Table, token: Token, wire: Wire): (Table, Result<Key, Error>) {
    if CandidateError(t, token).Some? then (t, Err(CandidateError(t, token).value))
    else (SetSlot(t, token.key.slot, t.slots[token.key.slot].(wire := wire)), Ok(token.key))
  }

  function Retain(t: Table, token: Token): (Table, Result<Key, Error>) {
    if t.mode == Draining then (t, Err(TableNotActive)) else Dispose(t, token, Between)
  }

  function Quarantine(t: Table, token: Token): (Table, Result<Key, Error>) {
    Dispose(t, token, Quarantined)
  }

  // ----- Releasing the owner -----

  function Release(t: Table, i: nat): (Table, Terminal)
    requires i < |t.slots| && t.slots[i].Live?
  {
    var s := t.slots[i];
    (SetSlot(t, i, Terminalizing(s.birthEpoch, s.birthGeneration, t.epoch, s.id)),
     Terminal(Receipt(KeyAt(t, i), t.epoch, s.id), s.owner))
  }

  function ReleaseOk(t: Table, i: nat): (Table, Result<Terminal, Error>)
    requires i < |t.slots| && t.slots[i].Live?
  {
    (Release(t, i).0, Ok(Release(t, i).1))
  }

  function Terminalize(t: Table, token: Token): (Table, Result<Terminal, Error>) {
    if t.mode == Draining then (t, Err(TableNotActive))
    else if CandidateError(t, token).Some? then (t, Err(CandidateError(t, token).value))
    else ReleaseOk(t, token.key.slot)
  }

  function Withdraw(t: Table, key: Key): (Table, Result<Terminal, Error>) {
    if KeyError(t, key).Some? then (t, Err(KeyError(t, key).value))
    else if t.slots[key.slot].wire != Prepared then (t, Err(WrongState))
    else ReleaseOk(t, key.slot)
  }

  function TerminalizeAfterFence(t: Table, key: Key): (Table, Result<Terminal, Error>) {
    if t.mode != Fencing then (t, Err(TableNotActive))
    else if KeyError(t, key).Some? then (t, Err(KeyError(t, key).value))
    else
      var s := t.slots[key.slot];
      if !s.cancel || s.wire !in {Visible, Between, Exhausted} then (t, Err(WrongState)) else ReleaseOk(t, key.slot)
  }

  function Reclaim(t: Table, r: Receipt): (Table, Result<(), Error>) {
    var i := r.key.slot;
    if r.key.tableId != t.tableId then (t, Err(ForeignTable))
    else if r.id.slot != i || i >= |t.slots| then (t, Err(WrongClass))
    else if !t.slots[i].Terminalizing? then (t, Err(NotTerminalizing))
    else if r.key != KeyAt(t, i) then (t, Err(StaleBirth))
    else if t.slots[i].wireEpoch != r.wireEpoch || t.slots[i].id != r.id then (t, Err(StaleTerminalIdentity))
    else if r.wireEpoch == t.epoch && r.id.generation == GENERATION_MAX then
      (SetSlot(t, i, Retired(r.id.generation)).(retired := t.retired + 1, needsQuiesce := true), Ok(()))
    else
      var g := if r.wireEpoch == t.epoch then r.id.generation else 0;
      (SetSlot(t, i, Free(t.freeHead, g)).(freeHead := Some(i)), Ok(()))
  }

  // ----- The fence between two sessions -----

  function BeginFence(t: Table): (Table, Result<(), Error>) {
    if t.mode != Active then (t, Err(WrongMode)) else (t.(mode := Fencing), Ok(()))
  }

  function RetainAfterFence(t: Table, key: Key): (Table, Result<(), Error>) {
    if t.mode != Fencing then (t, Err(TableNotActive))
    else if KeyError(t, key).Some? then (t, Err(KeyError(t, key).value))
    else if t.slots[key.slot].wire != Visible then (t, Err(WrongState))
    else (SetSlot(t, key.slot, t.slots[key.slot].(wire := Between)), Ok(()))
  }

  // The first live slot that a new session may not inherit, in slot order.
  function Unresolved(slots: seq<Slot>): Option<Error> {
    if slots == [] then None
    else if slots[0].Live? && slots[0].wire == Capturing then Some(UnresolvedCapture)
    else if slots[0].Live? && slots[0].wire in {Prepared, Visible, Captured} then Some(UnresolvedPhase)
    else Unresolved(slots[1..])
  }

  // One slot carried into the new session, in front of the free list so far.
  function Carry(s: Slot, i: nat, head: Option<nat>): Slot {
    match s
    case Free(_, _) => Free(head, 0)
    case Retired(_) => Free(head, 0)
    case Terminalizing(_, _, _, _) => s
    case Live(_, _, _, _, _, wire, _) => s.(id := ReqId(0, i), wire := if wire == Exhausted then Between else wire)
  }

  // The first slot from `i` on that will be free.
  function HeadFrom(slots: seq<Slot>, i: nat): Option<nat>
    requires i <= |slots|
    decreases |slots| - i
  {
    if i == |slots| then None
    else if slots[i].Free? || slots[i].Retired? then Some(i)
    else HeadFrom(slots, i + 1)
  }

  function CarryAll(slots: seq<Slot>): (r: seq<Slot>)
    ensures |r| == |slots|
    ensures forall i {:trigger r[i]} :: 0 <= i < |slots| ==> r[i] == Carry(slots[i], i, HeadFrom(slots, i + 1))
  {
    seq(|slots|, i requires 0 <= i < |slots| => Carry(slots[i], i, HeadFrom(slots, i + 1)))
  }

  // What the control lanes report: idle, one being captured, or one occupied.
  datatype Control = Idle | ControlCapturing | ControlOccupied

  function Rebind(t: Table, nextEpoch: nat, sameTopology: bool, control: Control): (Table, Result<(), Error>) {
    if t.mode != Fencing then (t, Err(WrongMode))
    else if t.epoch >= EPOCH_MAX then (t, Err(EpochExhausted))
    else if nextEpoch != t.epoch + 1 then (t, Err(WrongEpoch))
    else if !sameTopology then (t, Err(TopologyChanged))
    else if Unresolved(t.slots).Some? then (t, Err(Unresolved(t.slots).value))
    else if control == ControlCapturing then (t, Err(UnresolvedCapture))
    else if control == ControlOccupied then (t, Err(LiveControlLane))
    else
      (Table(t.tableId, nextEpoch, CarryAll(t.slots), HeadFrom(t.slots, 0), 0, Active, false), Ok(()))
  }

  // ----- Draining -----

  function BeginDrain(t: Table): Table {
    t.(mode := Draining)
  }

  predicate Drainable(s: Slot) {
    s.Live? && s.wire != Capturing && s.wire != Captured
  }

  function FirstDrainable(slots: seq<Slot>, i: nat): (r: Option<nat>)
    requires i <= |slots|
    ensures r.Some? ==> i <= r.value < |slots| && Drainable(slots[r.value]) && forall k :: i <= k < r.value ==>
      !Drainable(slots[k])
    ensures r.None? ==> forall k :: i <= k < |slots| ==> !Drainable(slots[k])
    decreases |slots| - i
  {
    if i == |slots| then None else if Drainable(slots[i]) then Some(i) else FirstDrainable(slots, i + 1)
  }

  function DrainNext(t: Table): (Table, Result<Option<Terminal>, Error>) {
    if t.mode != Draining then (t, Err(NotDraining))
    else
      match FirstDrainable(t.slots, 0)
      case Some(i) => (Release(t, i).0, Ok(Some(Release(t, i).1)))
      case None => (t, if exists k :: 0 <= k < |t.slots| && t.slots[k].Live? then Err(UnresolvedCapture) else Ok(None))
  }
}
