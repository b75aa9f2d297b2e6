/** The request table as the object it is: slots updated in place, one method for each
    operation. A valid table is one that some run of operations has reached, so what
    holds of every run holds of every object. To a caller it is a ledger of live requests
    by key and of receipts to be redeemed, and a journal of what was asked of them. */
module RequestTableObject {
  import opened Outcomes
  import opened RequestTable
  import opened RequestRuns
  import opened RequestKeys
  import opened RequestDrain
  import opened RequestHistory
  import opened RequestLedger

  lemma Steps(w: World, op: Op, j: Journal)
    requires Reached(w) && Recorded(w, j)
    ensures Inv(w) && Reached(Next(w, op)) && Recorded(Next(w, op), Note(w, op, j))
  {
    ReachedInv(w);
    RunOne(w, op);
    ReachedRun(w, [op]);
    NoteKeeps(w, op, j);
  }

  lemma StartReached(tableId: nat, epoch: nat, n: nat)
    requires n <= MAX_INFLIGHT
    ensures Reached(Start(tableId, epoch, n))
  {
    assert Run(Start(tableId, epoch, n), []) == Start(tableId, epoch, n);
  }

  // Nothing was issued, captured, taken in or handed back.
  predicate SameHistory(w: World, w': World) {
    w'.issued == w.issued && w'.captured == w.captured && w'.admitted == w.admitted && w'.released == w.released
  }

  // The request under the receipt's key is closed: its owner goes to the caller, and the receipt is owed.
  ghost predicate HandedBack(l: Ledger, l': Ledger, released: multiset<Owner>, released': multiset<Owner>, epoch: nat,
                             terminal: Terminal)
  {
    var key := terminal.receipt.key;
    && key in l.live && terminal == Terminal(Receipt(key, epoch, l.live[key].id), l.live[key].owner)
    && l' == Ledger(l.live - {key}, l.owed + {terminal.receipt})
    && released' == released + multiset{terminal.owner}
  }

  // What a capture means for the books.
  lemma CaptureBooks(w: World, l: Ledger, j: Journal, epoch: nat, completion: bool, raw: nat)
    requires Reached(w) && Booked(w.t, l) && Recorded(w, j)
    ensures var (t', r) := BeginCapture(w.t, epoch, completion, raw);
            && (r.Ok? <==> w.t.mode != Draining && epoch == w.t.epoch
                           && exists key :: Capturable(l, completion, raw, key))
            && (r.Err? ==> t' == w.t)
            && (r.Ok? ==>
                  var key, tag := r.value.key, Tag(w.t.epoch, FromRaw(raw));
                  && Capturable(l, completion, raw, key) && r.value.id == FromRaw(raw) == l.live[key].id
                  && r.value.wireEpoch == w.t.epoch && key in j.phases && r.value.opcode == j.phases[key].opcode
                  && tag in w.issued && tag !in w.captured && Held(t', tag)
                  && Booked(t', With(l, key, l.live[key].(wire := Capturing))))
  {
    ReachedInv(w);
    CaptureMeaning(w, l, epoch, completion, raw);
    if BeginCapture(w.t, epoch, completion, raw).1.Ok? {
      CaptureIsFresh(w, epoch, completion, raw);
      CaptureTaken(w, l, epoch, completion, raw);
      CaptureIsOfLatestPhase(w, j, epoch, completion, raw);
    }
  }

  // ----- Carrying the slots into a new session -----

  ghost predicate CarriedTo(was: seq<Slot>, k: nat, s: Slot)
    requires k < |was|
  {
    s == Carry(was[k], k, HeadFrom(was, k + 1))
  }

  lemma CarriedEach(was: seq<Slot>, slots: seq<Slot>)
    requires |slots| == |was| && forall k :: 0 <= k < |was| ==> CarriedTo(was, k, slots[k])
    ensures slots == CarryAll(was)
  {
    forall k | 0 <= k < |was| ensures slots[k] == CarryAll(was)[k] { assert CarriedTo(was, k, slots[k]); }
  }

  class ApplicationTable {
    const tableId: nat
    const slots: array<Slot>
    var epoch: nat
    var freeHead: Option<nat>
    var retired: nat
    var mode: Mode
    var needsQuiesce: bool

    // What has happened to the table, what it holds, and what was asked of it.
    ghost var issued: seq<Tag>
    ghost var captured: seq<Tag>
    ghost var admitted: multiset<Owner>
    ghost var released: multiset<Owner>
    ghost var ledger: Ledger
    ghost var journal: Journal

    ghost function View(): Table
      reads this, slots
    {
      Table(tableId, epoch, slots[..], freeHead, retired, mode, needsQuiesce)
    }

    ghost function Now(): World
      reads this, slots
    {
      World(View(), issued, captured, admitted, released)
    }

    ghost predicate Valid()
      reads this, slots
    {
      Reached(Now()) && Booked(View(), ledger) && Recorded(Now(), journal)
    }

    // Each slot is linked to the next one; the last ends the list.
    constructor (tableId: nat, epoch: nat, n: nat)
      requires 0 < n <= MAX_INFLIGHT
      ensures Valid() && fresh(slots)
      ensures Now() == Start(tableId, epoch, n) && ledger == Ledger(map[], {}) && journal == Journal({}, map[])
    {
      this.tableId := tableId;
      this.epoch := epoch;
      var a := new Slot[n];
      this.slots := a;
      freeHead := Some(0);
      retired := 0;
      mode := Active;
      needsQuiesce := false;
      issued, captured, admitted, released := [], [], multiset{}, multiset{};
      ledger, journal := Ledger(map[], {}), Journal({}, map[]);
      new;
      for i := 0 to n
        modifies slots
        invariant forall k :: 0 <= k < i ==> slots[k] == Free(if k + 1 < n then Some(k + 1) else None, 0)
      {
        slots[i] := Free(if i + 1 < n then Some(i + 1) else None, 0);
      }
      FreshAt(n, 0, 0);
      forall k: nat | k < n ensures slots[..][k] == FreshSlots(n, 0)[k] { FreshAt(n, 0, k); }
      assert slots[..] == FreshSlots(n, 0);
      StartReached(tableId, epoch, n);
      StartRecorded(tableId, epoch, n);
      forall key ensures LiveEntry(View(), ledger, key) {}
      forall r ensures OwedEntry(View(), ledger, r) {}
    }

    method Put(i: nat, s: Slot)
      requires i < slots.Length
      modifies slots
      ensures View() == SetSlot(old(View()), i, s)
    {
      slots[i] := s;
    }

    // A key is good exactly as long as its request is live; otherwise the error says what became of it.
    method ValidateKey(key: Key) returns (e: Option<Error>)
      requires Valid()
      ensures e == KeyError(View(), key)
      ensures e.None? <==> key in ledger.live
      ensures e == Some(ForeignTable) <==> key.tableId != tableId
      ensures e == Some(WrongClass) <==> key.tableId == tableId && key.slot >= slots.Length
      ensures e == Some(StaleBirth) <==> key.tableId == tableId && key !in ledger.live && Displaced(ledger, key)
    {
      KeyMeaning(View(), ledger, key);
      e := CheckKey(key);
    }

    method CheckKey(key: Key) returns (e: Option<Error>)
      ensures e == KeyError(View(), key)
    {
      if key.tableId != tableId { return Some(ForeignTable); }
      if key.slot >= slots.Length { return Some(WrongClass); }
      var s := slots[key.slot];
      if !s.Live? { return Some(Vacant); }
      if s.birthEpoch != key.birthEpoch || s.birthGeneration != key.birthGeneration { return Some(StaleBirth); }
      return None;
    }

    // The request is live under a key and an id never used before; a refusal keeps nothing.
    method AdmitApplication(phase: Phase, owner: Owner) returns (r: Result<Admission, Error>)
      requires Valid()
      modifies this`freeHead, this`needsQuiesce, this`issued, this`admitted, this`ledger, this`journal, slots
      ensures Valid() && Now() == Next(old(Now()), DoAdmit(phase, owner)) && r == Admit(old(View()), phase, owner).1
      ensures r.Ok? <==> old(mode) == Active && old(exists i :: 0 <= i < slots.Length && slots[i].Free?)
      ensures r.Ok? ==>
        && BirthTag(r.value.key) == Tag(epoch, r.value.id) && Tag(epoch, r.value.id) !in old(issued)
        && issued == old(issued) + [Tag(epoch, r.value.id)] && admitted == old(admitted) + multiset{owner}
        && r.value.key !in old(ledger.live)
        && ledger == With(old(ledger), r.value.key, Request(owner, phase, r.value.id, Prepared, false))
        && journal == old(journal).(phases := old(journal.phases)[r.value.key := phase])
      ensures r.Err? ==> SameHistory(old(Now()), Now()) && ledger == old(ledger) && journal == old(journal)
      ensures r.Err? ==> slots[..] == old(slots[..])
      ensures needsQuiesce == (old(needsQuiesce) || r == Err(SessionGenerationExhausted))
    {
      ghost var w := Now();
      Steps(w, DoAdmit(phase, owner), journal);
      AdmitMeaning(w, ledger, phase, owner);
      r := TakeSlot(phase, owner);
      if r.Ok? {
        Admitted(r.value, phase, owner);
      }
    }

    // The books after an admission.
    ghost method Admitted(a: Admission, phase: Phase, owner: Owner)
      modifies this`issued, this`admitted, this`ledger, this`journal
      ensures issued == old(issued) + [Tag(epoch, a.id)] && admitted == old(admitted) + multiset{owner}
      ensures ledger == With(old(ledger), a.key, Request(owner, phase, a.id, Prepared, false))
      ensures journal == old(journal).(phases := old(journal.phases)[a.key := phase])
    {
      issued, admitted := issued + [Tag(epoch, a.id)], admitted + multiset{owner};
      ledger := With(ledger, a.key, Request(owner, phase, a.id, Prepared, false));
      journal := journal.(phases := journal.phases[a.key := phase]);
    }

    method TakeSlot(phase: Phase, owner: Owner) returns (r: Result<Admission, Error>)
      modifies this`freeHead, this`needsQuiesce, slots
      ensures (View(), r) == Admit(old(View()), phase, owner)
    {
      if mode != Active { return Err(TableNotActive); }
      if freeHead.None? {
        if retired == slots.Length {
          needsQuiesce := true;
          return Err(SessionGenerationExhausted);
        }
        return Err(Full);
      }
      var i := freeHead.value;
      if i >= slots.Length || !slots[i].Free? { return Err(Full); }
      var g := NextGeneration(slots[i].generation);
      if g.None? || i > INDEX_MAX {
        needsQuiesce := true;
        return Err(SessionGenerationExhausted);
      }
      var id := ReqId(g.value, i);
      freeHead := slots[i].next;
      Put(i, Live(owner, phase, epoch, g.value, id, Prepared, false));
      return Ok(Admission(Key(tableId, i, epoch, g.value), id));
    }

    // A prepared request is published under its id, which is still unanswered.
    method MarkApplicationVisible(key: Key) returns (r: Result<ReqId, Error>)
      requires Valid()
      modifies this`ledger, slots
      ensures Valid() && Now() == Next(old(Now()), DoMarkVisible(key)) && r == MarkVisible(old(View()), key).1
      ensures r.Ok? <==> mode == Active && key in old(ledger.live) && old(ledger).live[key].wire == Prepared
      ensures r.Ok? ==>
        && r.value == old(ledger).live[key].id && Tag(epoch, r.value) in issued && Tag(epoch, r.value) !in captured
        && ledger == With(old(ledger), key, old(ledger).live[key].(wire := Visible))
      ensures r == Err(WrongState) <==>
        mode == Active && key in old(ledger.live) && old(ledger).live[key].wire != Prepared
      ensures r.Err? ==> ledger == old(ledger) && slots[..] == old(slots[..])
    {
      Steps(Now(), DoMarkVisible(key), journal);
      if mode != Active { return Err(TableNotActive); }
      var e := ValidateKey(key);
      if e.Some? { return Err(e.value); }
      assert LiveEntry(View(), ledger, key);
      var s := slots[key.slot];
      if s.wire != Prepared { return Err(WrongState); }
      assert Waiting(View(), captured, key.slot) && IdIssued(View(), issued, key.slot);
      ChangedEntry(View(), MarkVisible(View(), key).0, ledger, key.slot);
      Put(key.slot, s.(wire := Visible));
      ledger := With(ledger, key, ledger.live[key].(wire := Visible));
      return Ok(s.id);
    }

    // The next phase of a request between two gets an id never issued before, unless the ids of its slot ran out.
    method BeginApplicationPhase(key: Key, phase: Phase) returns (r: Result<ReqId, Error>)
      requires Valid()
      modifies this`needsQuiesce, this`issued, this`ledger, this`journal, slots
      ensures Valid() && Now() == Next(old(Now()), DoBeginPhase(key, phase))
        && r == BeginPhase(old(View()), key, phase).1
      ensures var open := old(mode) == Active && key in old(ledger.live) && old(ledger).live[key].wire == Between;
              && (r.Ok? <==> open && old(ledger).live[key].id.generation < GENERATION_MAX)
              && (r == Err(GenerationExhausted) <==> open && old(ledger).live[key].id.generation == GENERATION_MAX)
      ensures r.Ok? ==>
        && Tag(epoch, r.value) !in old(issued) && issued == old(issued) + [Tag(epoch, r.value)]
        && ledger == With(old(ledger), key, old(ledger).live[key].(phase := phase, id := r.value, wire := Prepared))
        && journal == old(journal).(phases := old(journal.phases)[key := phase])
      ensures r.Err? ==> SameHistory(old(Now()), Now()) && journal == old(journal)
      ensures r.Err? ==>
        ledger == if r.error != GenerationExhausted then old(ledger)
                  else With(old(ledger), key, old(ledger).live[key].(wire := Exhausted))
      ensures needsQuiesce == (old(needsQuiesce) || r == Err(GenerationExhausted))
    {
      ghost var w := Now();
      Steps(w, DoBeginPhase(key, phase), journal);
      PhaseMeaning(w, ledger, key, phase);
      r := RenumberSlot(key, phase);
      if r.Ok? {
        issued := issued + [Tag(epoch, r.value)];
        ledger := With(ledger, key, ledger.live[key].(phase := phase, id := r.value, wire := Prepared));
        journal := journal.(phases := journal.phases[key := phase]);
      } else if r.error == GenerationExhausted {
        ledger := With(ledger, key, ledger.live[key].(wire := Exhausted));
      }
    }

    method RenumberSlot(key: Key, phase: Phase) returns (r: Result<ReqId, Error>)
      modifies this`needsQuiesce, slots
      ensures (View(), r) == BeginPhase(old(View()), key, phase)
    {
      if mode != Active { return Err(TableNotActive); }
      var e := CheckKey(key);
      if e.Some? { return Err(e.value); }
      var s := slots[key.slot];
      if s.wire != Between { return Err(WrongState); }
      var g := NextGeneration(s.id.generation);
      if g.None? || key.slot > INDEX_MAX {
        Put(key.slot, s.(wire := Exhausted));
        needsQuiesce := true;
        return Err(GenerationExhausted);
      }
      var id := ReqId(g.value, key.slot);
      Put(key.slot, s.(phase := phase, id := id, wire := Prepared));
      return Ok(id);
    }

    // Any live request can be cancelled, at any time, and then is.
    method Cancel(key: Key) returns (r: Result<(), Error>)
      requires Valid()
      modifies this`ledger, this`journal, slots
      ensures Valid() && Now() == Next(old(Now()), DoCancel(key)) && r == RecordCancel(old(View()), key).1
      ensures r.Ok? <==> key in old(ledger.live)
      ensures r.Ok? ==>
        && ledger == With(old(ledger), key, old(ledger).live[key].(cancel := true))
        && journal == old(journal).(cancelled := old(journal.cancelled) + {key})
      ensures r.Err? ==> ledger == old(ledger) && journal == old(journal) && slots[..] == old(slots[..])
    {
      Steps(Now(), DoCancel(key), journal);
      var e := ValidateKey(key);
      if e.Some? { return Err(e.value); }
      assert LiveEntry(View(), ledger, key);
      ChangedEntry(View(), RecordCancel(View(), key).0, ledger, key.slot);
      Put(key.slot, slots[key.slot].(cancel := true));
      ledger := With(ledger, key, ledger.live[key].(cancel := true));
      journal := journal.(cancelled := journal.cancelled + {key});
      return Ok(());
    }

    // The provider's word is taken exactly for the id of a visible request, in this session and in a role its
    // phase allows; that id was never captured before.
    method Capture(observedEpoch: nat, completion: bool, raw: nat) returns (r: Result<Token, Error>)
      requires Valid()
      modifies this`captured, this`ledger, slots
      ensures Valid() && Now() == Next(old(Now()), DoBeginCapture(observedEpoch, completion, raw))
      ensures r == BeginCapture(old(View()), observedEpoch, completion, raw).1
      ensures r.Ok? <==>
        mode != Draining && observedEpoch == epoch && exists key :: Capturable(old(ledger), completion, raw, key)
      ensures r.Ok? ==>
        var key, tag := r.value.key, Tag(epoch, FromRaw(raw));
        && Capturable(old(ledger), completion, raw, key) && r.value.id == FromRaw(raw) == old(ledger).live[key].id
        && r.value.wireEpoch == epoch && key in journal.phases && r.value.opcode == journal.phases[key].opcode
        && tag in issued && tag !in old(captured) && captured == old(captured) + [tag] && Held(View(), tag)
        && ledger == With(old(ledger), key, old(ledger).live[key].(wire := Capturing))
      ensures r.Err? ==> captured == old(captured) && ledger == old(ledger) && slots[..] == old(slots[..])
    {
      ghost var w := Now();
      Steps(w, DoBeginCapture(observedEpoch, completion, raw), journal);
      CaptureBooks(w, ledger, journal, observedEpoch, completion, raw);
      r := CaptureSlot(observedEpoch, completion, raw);
      if r.Ok? {
        captured := captured + [Tag(epoch, r.value.id)];
        ledger := With(ledger, r.value.key, ledger.live[r.value.key].(wire := Capturing));
      }
    }

    method CaptureSlot(observedEpoch: nat, completion: bool, raw: nat) returns (r: Result<Token, Error>)
      modifies slots
      ensures (View(), r) == BeginCapture(old(View()), observedEpoch, completion, raw)
    {
      if mode == Draining { return Err(TableNotActive); }
      if observedEpoch != epoch { return Err(WrongSession); }
      if raw == 0 { return Err(ZeroRequestId); }
      var id := FromRaw(raw);
      if id.generation == 0 { return Err(ZeroGeneration); }
      if id.slot >= slots.Length { return Err(UnassignedIndex); }
      var s := slots[id.slot];
      match s
      case Free(_, _) => return Err(Vacant);
      case Retired(_) => return Err(RetiredSlot);
      case Terminalizing(_, _, _, _) => return Err(NotVisible);
      case Live(_, phase, birthEpoch, birthGeneration, current, wire, _) =>
        if current != id { return Err(StaleCurrentGeneration); }
        if wire != Visible { return Err(CaptureStateError(wire)); }
        if !completion && !phase.journaled { return Err(WrongKind); }
        Put(id.slot, s.(wire := Capturing));
        return Ok(Token(Key(tableId, id.slot, birthEpoch, birthGeneration), epoch, id, phase.opcode));
    }

    // Only the capture in progress under exactly this identity gets a candidate.
    method Install(token: Token) returns (r: Result<Token, Error>)
      requires Valid()
      modifies this`ledger, slots
      ensures Valid() && Now() == Next(old(Now()), DoInstall(token)) && r == InstallCandidate(old(View()), token).1
      ensures r.Ok? <==>
        && old(Stands(View(), ledger, token, Capturing))
        && token.opcode == old(ledger).live[token.key].phase.opcode
      ensures r.Ok? ==>
        && r.value == token && Tag(token.wireEpoch, token.id) in captured
        && ledger == With(old(ledger), token.key, old(ledger).live[token.key].(wire := Captured))
      ensures r.Err? ==> ledger == old(ledger) && slots[..] == old(slots[..])
    {
      Steps(Now(), DoInstall(token), journal);
      InstallMeaning(Now(), ledger, token);
      var i := token.key.slot;
      if token.key.tableId != tableId { return Err(ForeignTable); }
      if token.id.slot != i || i >= slots.Length { return Err(WrongClass); }
      var s := slots[i];
      if !s.Live? || s.birthEpoch != token.key.birthEpoch || s.birthGeneration != token.key.birthGeneration {
        return Err(StaleBirth);
      }
      if epoch != token.wireEpoch || s.id != token.id || s.phase.opcode != token.opcode {
        return Err(StaleWireIdentity);
      }
      if s.wire != Capturing { return Err(WrongState); }
      ReachedHeld(Now());
      assert Held(View(), Tag(token.wireEpoch, token.id));
      Put(i, s.(wire := Captured));
      ledger := With(ledger, token.key, ledger.live[token.key].(wire := Captured));
      return Ok(token);
    }

    // A candidate is good exactly while it is installed for a live request under its current id.
    method ValidateCandidate(token: Token) returns (e: Option<Error>)
      requires Valid()
      ensures e == CandidateError(View(), token)
      ensures e.None? <==> Stands(View(), ledger, token, Captured)
      ensures e.None? ==> Tag(token.wireEpoch, token.id) in captured
    {
      ReachedInv(Now());
      ReachedHeld(Now());
      CandidateMeaning(Now(), ledger, token);
      assert LiveEntry(View(), ledger, token.key);
      if token.key.tableId != tableId { return Some(ForeignTable); }
      if token.id.slot != token.key.slot { return Some(WrongClass); }
      e := ValidateKey(token.key);
      if e.Some? { return; }
      var s := slots[token.key.slot];
      if epoch != token.wireEpoch || s.id != token.id || s.wire != Captured { return Some(WrongState); }
      assert Held(View(), Tag(token.wireEpoch, token.id));
    }

    // The request stays live, and its wire identity is settled.
    method FinishDisposition(token: Token, wire: Wire) returns (r: Result<Key, Error>)
      requires Valid() && wire in {Between, Quarantined}
      modifies this`ledger, slots
      ensures (View(), r) == Dispose(old(View()), token, wire) && Booked(View(), ledger)
      ensures r.Ok? <==> old(Stands(View(), ledger, token, Captured))
      ensures r.Ok? ==>
        && r.value == token.key && !Held(View(), Tag(token.wireEpoch, token.id))
        && ledger == With(old(ledger), token.key, old(ledger).live[token.key].(wire := wire))
      ensures r.Err? ==> ledger == old(ledger) && slots[..] == old(slots[..])
    {
      var e := ValidateCandidate(token);
      if e.Some? { return Err(e.value); }
      ReachedInv(Now());
      DisposeMeaning(Now(), ledger, token, wire);
      Put(token.key.slot, slots[token.key.slot].(wire := wire));
      ledger := With(ledger, token.key, ledger.live[token.key].(wire := wire));
      return Ok(token.key);
    }

    // The request waits for its next phase.
    method RetainApplication(token: Token) returns (r: Result<Key, Error>)
      requires Valid()
      modifies this`ledger, slots
      ensures Valid() && Now() == Next(old(Now()), DoRetain(token)) && r == Retain(old(View()), token).1
      ensures r.Ok? <==> mode != Draining && old(Stands(View(), ledger, token, Captured))
      ensures r.Ok? ==>
        && r.value == token.key && !Held(View(), Tag(token.wireEpoch, token.id))
        && ledger == With(old(ledger), token.key, old(ledger).live[token.key].(wire := Between))
      ensures r.Err? ==> ledger == old(ledger) && slots[..] == old(slots[..])
    {
      Steps(Now(), DoRetain(token), journal);
      if mode == Draining { return Err(TableNotActive); }
      r := FinishDisposition(token, Between);
    }

    // The request waits for the drain.
    method QuarantineApplication(token: Token) returns (r: Result<Key, Error>)
      requires Valid()
      modifies this`ledger, slots
      ensures Valid() && Now() == Next(old(Now()), DoQuarantine(token)) && r == Quarantine(old(View()), token).1
      ensures r.Ok? <==> old(Stands(View(), ledger, token, Captured))
      ensures r.Ok? ==>
        && r.value == token.key && !Held(View(), Tag(token.wireEpoch, token.id))
        && ledger == With(old(ledger), token.key, old(ledger).live[token.key].(wire := Quarantined))
      ensures r.Err? ==> ledger == old(ledger) && slots[..] == old(slots[..])
    {
      Steps(Now(), DoQuarantine(token), journal);
      r := FinishDisposition(token, Quarantined);
    }

    // The caller becomes responsible for the owner of the slot's request.
    method TakeOwner(i: nat) returns (terminal: Terminal)
      requires Valid() && i < slots.Length && slots[i].Live?
      modifies this`released, this`ledger, slots
      ensures (View(), terminal) == Release(old(View()), i) && Booked(View(), ledger)
      ensures terminal.receipt.key.slot == i
      ensures HandedBack(old(ledger), ledger, old(released), released, epoch, terminal)
    {
      var s := slots[i];
      ClosedEntry(View(), ledger, i);
      Put(i, Terminalizing(s.birthEpoch, s.birthGeneration, epoch, s.id));
      terminal := Terminal(Receipt(Key(tableId, i, s.birthEpoch, s.birthGeneration), epoch, s.id), s.owner);
      released := released + multiset{s.owner};
      ledger := Ledger(ledger.live - {terminal.receipt.key}, ledger.owed + {terminal.receipt});
    }

    method TerminalizeApplication(token: Token) returns (r: Result<Terminal, Error>)
      requires Valid()
      modifies this`released, this`ledger, slots
      ensures Valid() && Now() == Next(old(Now()), DoTerminalize(token)) && r == Terminalize(old(View()), token).1
      ensures r.Ok? <==> mode != Draining && old(Stands(View(), ledger, token, Captured))
      ensures r.Ok? ==>
        && r.value.receipt.key == token.key
        && HandedBack(old(ledger), ledger, old(released), released, epoch, r.value)
      ensures r.Err? ==> ledger == old(ledger) && released == old(released) && slots[..] == old(slots[..])
    {
      Steps(Now(), DoTerminalize(token), journal);
      if mode == Draining { return Err(TableNotActive); }
      var e := ValidateCandidate(token);
      if e.Some? { return Err(e.value); }
      var terminal := TakeOwner(token.key.slot);
      return Ok(terminal);
    }

    // Exactly a prepared request is withdrawn; its id cannot have been answered.
    method WithdrawUnpublished(key: Key) returns (r: Result<Terminal, Error>)
      requires Valid()
      modifies this`released, this`ledger, slots
      ensures Valid() && Now() == Next(old(Now()), DoWithdraw(key)) && r == Withdraw(old(View()), key).1
      ensures r.Ok? <==> key in old(ledger.live) && old(ledger).live[key].wire == Prepared
      ensures r.Ok? ==>
        && r.value.receipt.key == key && HandedBack(old(ledger), ledger, old(released), released, epoch, r.value)
        && Tag(epoch, r.value.receipt.id) in issued && Tag(epoch, r.value.receipt.id) !in captured
      ensures r.Err? ==> ledger == old(ledger) && released == old(released) && slots[..] == old(slots[..])
    {
      Steps(Now(), DoWithdraw(key), journal);
      var e := ValidateKey(key);
      if e.Some? { return Err(e.value); }
      assert LiveEntry(View(), ledger, key);
      if slots[key.slot].wire != Prepared { return Err(WrongState); }
      assert Waiting(View(), captured, key.slot) && IdIssued(View(), issued, key.slot);
      var terminal := TakeOwner(key.slot);
      return Ok(terminal);
    }

    // At the fence exactly the cancelled requests that are off the capture path are handed back.
    method TerminalizeFenced(key: Key) returns (r: Result<Terminal, Error>)
      requires Valid()
      modifies this`released, this`ledger, slots
      ensures Valid() && Now() == Next(old(Now()), DoTerminalizeAfterFence(key))
      ensures r == TerminalizeAfterFence(old(View()), key).1
      ensures r.Ok? <==> && mode == Fencing && key in old(ledger.live) && key in journal.cancelled
                         && old(ledger).live[key].wire in {Visible, Between, Exhausted}
      ensures r.Ok? ==>
        r.value.receipt.key == key && HandedBack(old(ledger), ledger, old(released), released, epoch, r.value)
      ensures r.Err? ==> ledger == old(ledger) && released == old(released) && slots[..] == old(slots[..])
    {
      Steps(Now(), DoTerminalizeAfterFence(key), journal);
      FenceReleasesIff(Now(), journal, key);
      if mode != Fencing { return Err(TableNotActive); }
      var e := ValidateKey(key);
      if e.Some? { return Err(e.value); }
      assert LiveEntry(View(), ledger, key);
      var s := slots[key.slot];
      if !s.cancel || s.wire !in {Visible, Between, Exhausted} { return Err(WrongState); }
      var terminal := TakeOwner(key.slot);
      return Ok(terminal);
    }

    // A receipt is redeemed exactly once, and then nothing is left of its request.
    method ReclaimCompleted(receipt: Receipt) returns (r: Result<(), Error>)
      requires Valid()
      modifies this`freeHead, this`retired, this`needsQuiesce, this`ledger, slots
      ensures Valid() && Now() == Next(old(Now()), DoReclaim(receipt)) && r == Reclaim(old(View()), receipt).1
      ensures r.Ok? <==> receipt in old(ledger.owed)
      ensures r.Ok? ==> ledger == old(ledger).(owed := old(ledger.owed) - {receipt}) && Gone(View(), receipt.key)
      ensures r.Ok? ==>
        var last := receipt.wireEpoch == epoch && receipt.id.generation == GENERATION_MAX;
        && (if last then slots[receipt.key.slot].Retired? else slots[receipt.key.slot].Free?)
        && needsQuiesce == (old(needsQuiesce) || last)
      ensures r.Err? ==> ledger == old(ledger) && View() == old(View())
    {
      ghost var w := Now();
      Steps(w, DoReclaim(receipt), journal);
      ReclaimMeaning(w, ledger, receipt);
      r := ReclaimSlot(receipt);
      if r.Ok? { ledger := ledger.(owed := ledger.owed - {receipt}); }
    }

    method ReclaimSlot(receipt: Receipt) returns (r: Result<(), Error>)
      modifies this`freeHead, this`retired, this`needsQuiesce, slots
      ensures (View(), r) == Reclaim(old(View()), receipt)
    {
      var e := CheckReceipt(receipt);
      if e.Some? { return Err(e.value); }
      Vacate(receipt.key.slot, receipt);
      return Ok(());
    }

    method CheckReceipt(receipt: Receipt) returns (e: Option<Error>)
      ensures Reclaim(View(), receipt).1 == if e.Some? then Err(e.value) else Ok(())
    {
      var i := receipt.key.slot;
      if receipt.key.tableId != tableId { return Some(ForeignTable); }
      if receipt.id.slot != i || i >= slots.Length { return Some(WrongClass); }
      var s := slots[i];
      if !s.Terminalizing? { return Some(NotTerminalizing); }
      if s.birthEpoch != receipt.key.birthEpoch || s.birthGeneration != receipt.key.birthGeneration {
        return Some(StaleBirth);
      }
      if s.wireEpoch != receipt.wireEpoch || s.id != receipt.id { return Some(StaleTerminalIdentity); }
      return None;
    }

    // The slot is pushed on the free list, or retired with the last generation of this session.
    method Vacate(i: nat, receipt: Receipt)
      requires i < slots.Length
      modifies this`freeHead, this`retired, this`needsQuiesce, slots
      ensures var last := receipt.wireEpoch == epoch && receipt.id.generation == GENERATION_MAX;
              var g := if receipt.wireEpoch == epoch then receipt.id.generation else 0;
              View() == if last
                        then SetSlot(old(View()), i, Retired(g)).(retired := old(retired) + 1, needsQuiesce := true)
                        else SetSlot(old(View()), i, Free(old(freeHead), g)).(freeHead := Some(i))
    {
      if receipt.wireEpoch == epoch && receipt.id.generation == GENERATION_MAX {
        Put(i, Retired(receipt.id.generation));
        retired := retired + 1;
        needsQuiesce := true;
      } else {
        Put(i, Free(freeHead, if receipt.wireEpoch == epoch then receipt.id.generation else 0));
        freeHead := Some(i);
      }
    }

    method Fence() returns (r: Result<(), Error>)
      requires Valid()
      modifies this`mode
      ensures Valid() && Now() == Next(old(Now()), DoBeginFence)
      ensures r.Ok? <==> old(mode) == Active
      ensures mode == if r.Ok? then Fencing else old(mode)
    {
      Steps(Now(), DoBeginFence, journal);
      if mode != Active { return Err(WrongMode); }
      SameEntries(View(), View().(mode := Fencing), ledger);
      mode := Fencing;
      return Ok(());
    }

    // A published request survives the fence under its key; its id can no longer be answered.
    method RetainFenced(key: Key) returns (r: Result<(), Error>)
      requires Valid()
      modifies this`ledger, slots
      ensures Valid() && Now() == Next(old(Now()), DoRetainAfterFence(key)) && r == RetainAfterFence(old(View()), key).1
      ensures r.Ok? <==> mode == Fencing && key in old(ledger.live) && old(ledger).live[key].wire == Visible
      ensures r.Ok? ==>
        && ledger == With(old(ledger), key, old(ledger).live[key].(wire := Between))
        && Unanswerable(ledger, Raw(old(ledger).live[key].id))
      ensures r.Err? ==> ledger == old(ledger) && slots[..] == old(slots[..])
    {
      Steps(Now(), DoRetainAfterFence(key), journal);
      if mode != Fencing { return Err(TableNotActive); }
      var e := ValidateKey(key);
      if e.Some? { return Err(e.value); }
      assert LiveEntry(View(), ledger, key);
      if slots[key.slot].wire != Visible { return Err(WrongState); }
      ChangedEntry(View(), RetainAfterFence(View(), key).0, ledger, key.slot);
      BetweenIsUnanswerable(Now(), ledger, key);
      Put(key.slot, slots[key.slot].(wire := Between));
      ledger := With(ledger, key, ledger.live[key].(wire := Between));
      return Ok(());
    }

    // The scan that refuses to start a session over an unresolved request.
    method FindUnresolved() returns (e: Option<Error>)
      ensures e == Unresolved(slots[..])
    {
      assert slots[0..] == slots[..];
      for i := 0 to slots.Length
        invariant Unresolved(slots[..]) == Unresolved(slots[i..])
      {
        assert slots[i..][1..] == slots[i + 1..];
        if slots[i].Live? {
          if slots[i].wire == Capturing { return Some(UnresolvedCapture); }
          if slots[i].wire in {Prepared, Visible, Captured} { return Some(UnresolvedPhase); }
        }
      }
      return None;
    }

    // From the last slot down, so that the new free list ascends.
    method CarrySlots()
      modifies this`freeHead, slots
      ensures slots[..] == CarryAll(old(slots[..])) && freeHead == HeadFrom(old(slots[..]), 0)
    {
      ghost var was := slots[..];
      freeHead := None;
      for i := slots.Length downto 0
        invariant freeHead == HeadFrom(was, i)
        invariant forall k :: 0 <= k < i ==> slots[k] == was[k]
        invariant forall k :: i <= k < slots.Length ==> CarriedTo(was, k, slots[k])
      {
        match slots[i]
        case Free(_, _) =>
          slots[i] := Free(freeHead, 0);
          freeHead := Some(i);
        case Retired(_) =>
          slots[i] := Free(freeHead, 0);
          freeHead := Some(i);
        case Live(_, _, _, _, _, wire, _) =>
          slots[i] := slots[i].(id := ReqId(0, i), wire := if wire == Exhausted then Between else wire);
        case Terminalizing(_, _, _, _) =>
      }
      CarriedEach(was, slots[..]);
    }

    method RefuseRebind(nextEpoch: nat, sameTopology: bool, control: Control) returns (e: Option<Error>)
      ensures Rebind(View(), nextEpoch, sameTopology, control).1 == if e.Some? then Err(e.value) else Ok(())
    {
      if mode != Fencing { return Some(WrongMode); }
      if epoch >= EPOCH_MAX { return Some(EpochExhausted); }
      if nextEpoch != epoch + 1 { return Some(WrongEpoch); }
      if !sameTopology { return Some(TopologyChanged); }
      e := FindUnresolved();
      if e.Some? { return; }
      if control == ControlCapturing { return Some(UnresolvedCapture); }
      if control == ControlOccupied { return Some(LiveControlLane); }
    }

    // The next session inherits every live request under the same key, and starts with no id issued.
    method RebindSession(nextEpoch: nat, sameTopology: bool, control: Control) returns (r: Result<(), Error>)
      requires Valid()
      modifies this`epoch, this`freeHead, this`retired, this`mode, this`needsQuiesce, this`ledger, slots
      ensures Valid() && Now() == Next(old(Now()), DoRebind(nextEpoch, sameTopology, control))
      ensures r == Rebind(old(View()), nextEpoch, sameTopology, control).1
      ensures r.Ok? <==> && old(mode) == Fencing && old(epoch) < 0xFFFF_FFFF_FFFF_FFFF && nextEpoch == old(epoch) + 1
                         && sameTopology && control == Idle && AllResolved(old(ledger))
      ensures r.Ok? ==>
        && epoch == nextEpoch && mode == Active && !needsQuiesce && ledger == Renew(old(ledger))
        && forall tag :: tag in issued ==> tag.epoch < epoch
      ensures r.Err? ==> View() == old(View()) && ledger == old(ledger)
    {
      ghost var w := Now();
      Steps(w, DoRebind(nextEpoch, sameTopology, control), journal);
      RebindMeaning(w, ledger, nextEpoch, sameTopology, control);
      r := RebindSlots(nextEpoch, sameTopology, control);
      if r.Ok? { ledger := Renew(ledger); }
    }

    method RebindSlots(nextEpoch: nat, sameTopology: bool, control: Control) returns (r: Result<(), Error>)
      modifies this`epoch, this`freeHead, this`retired, this`mode, this`needsQuiesce, slots
      ensures (View(), r) == Rebind(old(View()), nextEpoch, sameTopology, control)
    {
      var e := RefuseRebind(nextEpoch, sameTopology, control);
      if e.Some? { return Err(e.value); }
      StartSession(nextEpoch);
      return Ok(());
    }

    method StartSession(nextEpoch: nat)
      modifies this`epoch, this`freeHead, this`retired, this`mode, this`needsQuiesce, slots
      ensures View()
           == Table(tableId, nextEpoch, CarryAll(old(slots[..])), HeadFrom(old(slots[..]), 0), 0, Active, false)
    {
      retired := 0;
      CarrySlots();
      epoch := nextEpoch;
      needsQuiesce := false;
      mode := Active;
    }

    method Drain()
      requires Valid()
      modifies this`mode
      ensures Valid() && Now() == Next(old(Now()), DoBeginDrain) && mode == Draining
    {
      Steps(Now(), DoBeginDrain, journal);
      SameEntries(View(), View().(mode := Draining), ledger);
      mode := Draining;
    }

    // One request is closed at a time, the loose one with the lowest slot first; the drain is done exactly when none
    // is live, and then every owner has come back.
    method DrainNextApplication() returns (r: Result<Option<Terminal>, Error>)
      requires Valid()
      modifies this`released, this`ledger, slots
      ensures Valid() && Now() == Next(old(Now()), DoDrainNext) && r == DrainNext(old(View())).1
      ensures r == Err(NotDraining) <==> mode != Draining
      ensures r.Ok? && r.value.Some? ==>
        && NextLoose(old(ledger), r.value.value.receipt.key)
        && HandedBack(old(ledger), ledger, old(released), released, epoch, r.value.value)
      ensures r == Ok(None) <==> mode == Draining && old(ledger).live == map[]
      ensures r == Ok(None) ==> admitted == released
      ensures r == Err(UnresolvedCapture) <==>
        && mode == Draining && old(ledger).live != map[]
        && forall key :: key in old(ledger).live ==> !Loose(old(ledger).live[key])
      ensures !(r.Ok? && r.value.Some?) ==>
        ledger == old(ledger) && released == old(released) && slots[..] == old(slots[..])
    {
      Steps(Now(), DoDrainNext, journal);
      if mode != Draining { return Err(NotDraining); }
      DrainMeaning(View(), ledger);
      var found, unresolvedCapture := FindDrainable();
      if found.Some? {
        var terminal := TakeOwner(found.value);
        return Ok(Some(terminal));
      }
      DrainedReturnsEveryOwner(Now());
      return if unresolvedCapture then Err(UnresolvedCapture) else Ok(None);
    }

    // The scan of the drain: the first slot it may empty, and whether a capture stood in the way of one before it.
    method FindDrainable() returns (found: Option<nat>, unresolvedCapture: bool)
      ensures found == FirstDrainable(slots[..], 0)
      ensures found.None? ==> (unresolvedCapture <==> exists k :: 0 <= k < slots.Length && slots[..][k].Live?)
    {
      unresolvedCapture := false;
      for i := 0 to slots.Length
        invariant forall k :: 0 <= k < i ==> !Drainable(slots[k])
        invariant unresolvedCapture <==> exists k :: 0 <= k < i && slots[k].Live?
      {
        if slots[i].Live? {
          if slots[i].wire == Capturing || slots[i].wire == Captured {
            unresolvedCapture := true;
          } else {
            return Some(i), unresolvedCapture;
          }
        }
      }
      return None, unresolvedCapture;
    }
  }

  // ----- Setting up a table in storage that the caller provides -----

  const SYSTEM_SLOTS_PER_RING: nat := 3
  const ID_MAX: nat := 0xFFFF_FFFF_FFFF_FFFF

  datatype InitError = ApplicationLength | SystemLength | NonPristineApplication | NonPristineSystem | NonPristineGlobal
                     | TableIdExhausted

  // The storage is described by which of its slots are pristine; `nextId` is the shared counter of table ids.
  predicate StorageFits(rings: nat, inflight: nat, application: seq<bool>, system: seq<bool>, global: bool) {
    && |application| == inflight && |system| == rings * SYSTEM_SLOTS_PER_RING
    && false !in application && false !in system && global
  }

  // A table is made exactly in fitting pristine storage while ids last; its id is not handed out again, and each
  // error names the first thing wrong.
  method TryNew(epoch: nat, rings: nat, inflight: nat, application: seq<bool>, system: seq<bool>, global: bool,
                nextId: nat)
    returns (r: Result<ApplicationTable, InitError>, nextId': nat)
    requires 1 <= rings <= 64 && 0 < inflight <= 16_777_023 && nextId <= 0xFFFF_FFFF_FFFF_FFFF
    ensures r.Ok? <==>
      && |application| == inflight && |system| == rings * 3 && false !in application && false !in system && global
      && nextId != 0xFFFF_FFFF_FFFF_FFFF
    ensures r == Err(ApplicationLength) <==> |application| != inflight
    ensures r == Err(SystemLength) <==> |application| == inflight && |system| != rings * 3
    ensures var sized := |application| == inflight && |system| == rings * 3;
            && (r == Err(NonPristineApplication) <==> sized && false in application)
            && (r == Err(NonPristineSystem) <==> sized && false !in application && false in system)
            && (r == Err(NonPristineGlobal) <==> sized && false !in application && false !in system && !global)
    ensures r == Err(TableIdExhausted)
      <==> StorageFits(rings, inflight, application, system, global) && nextId == 0xFFFF_FFFF_FFFF_FFFF
    ensures r.Ok? ==> fresh(r.value) && fresh(r.value.slots) && r.value.Valid() && r.value.ledger == Ledger(map[], {})
    ensures r.Ok? ==>
      && r.value.Now() == Start(r.value.tableId, epoch, inflight)
      && nextId <= r.value.tableId && 0 < r.value.tableId < nextId' <= 0xFFFF_FFFF_FFFF_FFFF
    ensures r.Err? ==> nextId' == nextId
  {
    nextId' := nextId;
    if |application| != inflight { return Err(ApplicationLength), nextId'; }
    if |system| != rings * SYSTEM_SLOTS_PER_RING { return Err(SystemLength), nextId'; }
    if false in application { return Err(NonPristineApplication), nextId'; }
    if false in system { return Err(NonPristineSystem), nextId'; }
    if !global { return Err(NonPristineGlobal), nextId'; }
    if nextId == ID_MAX { return Err(TableIdExhausted), nextId'; }
    var id := if nextId == 0 then 1 else nextId;
    var table := new ApplicationTable(id, epoch, inflight);
    return Ok(table), id + 1;
  }
}
