/**
 Safety of the signal parking runtime over every interleaving: one invariant kept
 by every step of every thread, and what it gives a caller of the callbacks.
 */
module SignalParkSafety {
  import opened QuiescenceBackends
  import opened SignalPark

  /** The epoch a handler carries, 0 when it carries none. */
  function EpochOf(p: Phase): nat {
    match p
    case Loaded(e, _) => e
    case Scanning(e, _) => e
    case Holding(e, _, _) => e
    case _ => 0
  }

  /** Between the increment and the decrement of the handler count. */
  predicate InFlight(p: Phase) {
    !p.Running? && !p.Delivered? && !p.Left?
  }

  function InFlightSet(threads: map<int, Thread>): set<int> {
    set t | t in threads && InFlight(threads[t].phase)
  }

  /** Past the store that publishes the observed epoch. */
  predicate Published(p: Phase) {
    p.Holding? && !p.point.StorePc? && !p.point.StoreEpoch?
  }

  /** Epoch open and not yet released. */
  predicate Open(s: System) {
    s.active != 0 && s.release != s.active
  }

  /** Thread `t` is inside the handler, has published `e`, and can only be waiting. */
  predicate Held(s: System, t: int, e: nat) {
    t in s.threads && Published(s.threads[t].phase) && s.threads[t].phase.epoch == e
  }

  /** No epoch is active and no handler carries one. */
  predicate Drained(s: System) {
    s.active == 0 && forall t | t in s.threads :: EpochOf(s.threads[t].phase) == 0
  }

  predicate CountExact(s: System) {
    s.handlerCount == |InFlightSet(s.threads)|
  }

  predicate EpochsAgree(s: System) {
    && (s.active != 0 ==> s.active == s.lastOpened)
    && forall t | t in s.threads ::
         && t > 0
         && (EpochOf(s.threads[t].phase) != 0 ==> EpochOf(s.threads[t].phase) == s.lastOpened)
         && WellFormed(s.threads[t].phase, |s.slots|)
  }

  predicate WellFormed(p: Phase, n: nat) {
    && (p.Loaded? || p.Scanning? || p.Holding? ==> p.epoch != 0)
    && (p.Holding? ==> p.slot < n)
  }

  predicate DistinctSlots(slots: seq<Slot>) {
    forall i, j | 0 <= i < j < |slots| && slots[i].threadId != 0 :: slots[i].threadId != slots[j].threadId
  }

  /** While an epoch is active a handler writes only the slot reserved for its thread. */
  predicate SlotsOwned(s: System) {
    && DistinctSlots(s.slots)
    && (s.active != 0 ==>
      forall t | t in s.threads && s.threads[t].phase.Holding? && s.threads[t].phase.slot < |s.slots| ::
           var p := s.threads[t].phase;
           && s.slots[p.slot].threadId == t
           && (!p.point.StorePc? ==> s.slots[p.slot].pc == 0 || s.slots[p.slot].pc == s.threads[t].pc))
  }

  /** While an epoch is open, a slot showing it belongs to a thread held in that epoch. */
  predicate PublishedHeld(s: System) {
    Open(s) ==>
      forall i | 0 <= i < |s.slots| && s.slots[i].observed == s.active ::
        && Held(s, s.slots[i].threadId, s.active)
        && s.threads[s.slots[i].threadId].phase.slot == i
  }

  predicate AllBlank(slots: seq<Slot>) {
    forall i | 0 <= i < |slots| :: slots[i] == BLANK
  }

  /** A snapshot the wait has collected: the thread is held, and its PC is exact or 0. */
  predicate SnapshotSound(s: System, snap: Snapshot, id: int, e: nat) {
    && snap.threadId == id
    && snap.epoch == e
    && Held(s, id, e)
    && (snap.pc == 0 || snap.pc == s.threads[id].pc)
  }

  predicate Collected(s: System, e: nat, ids: seq<int>, out: seq<Snapshot>) {
    |out| <= |ids| && forall k | 0 <= k < |out| :: SnapshotSound(s, out[k], ids[k], e)
  }

  predicate OpenFor(s: System, e: nat) {
    s.active == e && Open(s)
  }

  /** What the owner knows at each point of its callback. */
  predicate OwnerKnows(s: System) {
    match s.owner
    case Idle | RequestReturned(_) => true
    case RequestLoadActive(t, e) => t > 0 && e != 0
    case RequestLoadCount(t, e) => t > 0 && e != 0 && s.active == 0
    case RequestClear(t, e, i, field) =>
      && t > 0 && e != 0 && Drained(s) && i < |s.slots| && field < 3
      && (forall j | 0 <= j < i :: s.slots[j] == BLANK)
      && (field >= 1 ==> s.slots[i].observed == 0)
      && (field >= 2 ==> s.slots[i].pc == 0)
    case RequestStoreRelease(t, e) => t > 0 && e != 0 && Drained(s) && AllBlank(s.slots)
    case RequestOpen(t, e) => t > 0 && e != 0 && Drained(s) && AllBlank(s.slots) && s.release == 0
    case RequestFind(t, e, i) =>
      t > 0 && OpenFor(s, e) && forall j | 0 <= j < i && j < |s.slots| :: s.slots[j].threadId != t
    case RequestReserve(t, e, i) =>
      t > 0 && OpenFor(s, e) && forall j | 0 <= j < |s.slots| :: s.slots[j].threadId != t
    case RequestResetPc(t, e, i) => OpenFor(s, e) && i < |s.slots|
    case RequestResetEpoch(t, e, i) => OpenFor(s, e) && i < |s.slots|
    case RequestSignal(t, e, i) => OpenFor(s, e)
    case WaitLoadActive(e, ids, n) => e != 0
    case WaitFind(e, ids, n, out, i) => OpenFor(s, e) && Collected(s, e, ids, out)
    case WaitLoadObserved(e, ids, n, out, i) =>
      && OpenFor(s, e) && Collected(s, e, ids, out) && |out| < |ids|
      && i < |s.slots| && s.slots[i].threadId == ids[|out|]
    case WaitLoadPc(e, ids, n, out, i) =>
      && OpenFor(s, e) && Collected(s, e, ids, out) && |out| < |ids|
      && i < |s.slots| && s.slots[i].threadId == ids[|out|]
      && Held(s, ids[|out|], e) && s.threads[ids[|out|]].phase.slot == i
    case WaitReturned(ok, e, ids, out) =>
      ok ==> OpenFor(s, e) && |out| == |ids| && Collected(s, e, ids, out)
    case ResumeLoadActive(e, n) => e != 0
    case ResumeStoreRelease(e, n) => e != 0 && (s.active == 0 || s.active == e)
    case ResumeStoreActive(e, n) => e != 0 && (s.active == 0 || s.active == e) && s.release == e
    case ResumeWake(e, n) => s.active == 0 && s.release == e
    case ResumeLoadCount(e, n) => s.active == 0 && s.release == e
    case ResumeReturned(ok) => ok ==> Drained(s)
  }

  /** The invariant of the whole system. */
  predicate Inv(s: System) {
    && CountExact(s)
    && EpochsAgree(s)
    && SlotsOwned(s)
    && PublishedHeld(s)
    && (s.active != 0 && s.release == s.active ==> s.owner.ResumeStoreActive?)
    && OwnerKnows(s)
  }

  /** Freshly prepared runtime: no epoch, blank slots, every thread outside the handler. */
  predicate Init(s: System) {
    && s.owner == Idle && s.active == 0 && s.release == 0 && s.handlerCount == 0
    && AllBlank(s.slots)
    && forall t | t in s.threads :: t > 0 && s.threads[t].phase.Running?
  }

  // ---------------------------------------------------------------------------
  // Preservation, one family of steps at a time
  // ---------------------------------------------------------------------------

  lemma CountAfter(threads: map<int, Thread>, t: int, th: Thread)
    ensures InFlightSet(threads[t := th]) ==
            if InFlight(th.phase) then InFlightSet(threads) + {t} else InFlightSet(threads) - {t}
  {
  }

  lemma InitInv(s: System)
    requires Init(s)
    ensures Inv(s)
  {
    assert forall t | t in s.threads :: !InFlight(s.threads[t].phase);
    assert InFlightSet(s.threads) == {};
  }

  /**
   What the other threads may do between two steps of the owner: they never write
   the epoch words or a slot's thread ID, they leave a drained runtime's slots
   alone, and a thread held in an open epoch stays held, in its slot, at its PC.
   */
  ghost predicate Interference(s: System, s': System) {
    && s'.active == s.active && s'.release == s.release && s'.lastOpened == s.lastOpened
    && s'.owner == s.owner && s'.signal == s.signal && s'.caller == s.caller
    && |s'.slots| == |s.slots|
    && (forall i | 0 <= i < |s.slots| :: s'.slots[i].threadId == s.slots[i].threadId)
    && (Drained(s) ==> Drained(s') && s'.slots == s.slots)
    && (Open(s) ==>
          forall t | Held(s, t, s.active) ::
            && Held(s', t, s.active)
            && s'.threads[t].pc == s.threads[t].pc
            && s'.threads[t].phase.slot == s.threads[t].phase.slot)
  }

  lemma CollectedKept(s: System, s': System, e: nat, ids: seq<int>, out: seq<Snapshot>)
    requires OpenFor(s, e) && Collected(s, e, ids, out) && Interference(s, s')
    ensures Collected(s', e, ids, out)
  {
    forall k | 0 <= k < |out| ensures SnapshotSound(s', out[k], ids[k], e) {
      assert SnapshotSound(s, out[k], ids[k], e);
    }
  }

  lemma OwnerKnowsKept(s: System, s': System)
    requires OwnerKnows(s) && Interference(s, s')
    ensures OwnerKnows(s')
  {
    match s.owner
    case WaitFind(e, ids, n, out, i) => CollectedKept(s, s', e, ids, out);
    case WaitLoadObserved(e, ids, n, out, i) => CollectedKept(s, s', e, ids, out);
    case WaitLoadPc(e, ids, n, out, i) => CollectedKept(s, s', e, ids, out);
    case WaitReturned(ok, e, ids, out) => if ok { CollectedKept(s, s', e, ids, out); }
    case _ =>
  }

  /** The state after thread `t` moves to phase `p`, leaving slot `i` as `slot`. */
  predicate Moves(s: System, s': System, t: int, p: Phase) {
    && t in s.threads
    && s'.threads == s.threads[t := s.threads[t].(phase := p)]
    && s'.active == s.active && s'.release == s.release && s'.lastOpened == s.lastOpened
    && s'.owner == s.owner && s'.signal == s.signal && s'.caller == s.caller
    && |s'.slots| == |s.slots|
    && (forall i | 0 <= i < |s.slots| :: s'.slots[i].threadId == s.slots[i].threadId)
  }

  /** Side conditions under which a phase change is an allowed move. */
  predicate Allowed(s: System, t: int, p: Phase)
    requires t in s.threads
  {
    var was := s.threads[t].phase;
    && WellFormed(p, |s.slots|)
    && (EpochOf(p) != 0 ==> EpochOf(p) == s.lastOpened && !Drained(s))
    && (Open(s) && Published(was) ==> Published(p) && p.slot == was.slot && p.epoch == was.epoch)
    && (p.Holding? && s.active != 0 ==> s.slots[p.slot].threadId == t)
  }

  lemma MoveInterferes(s: System, s': System, t: int, p: Phase)
    requires EpochsAgree(s) && Moves(s, s', t, p) && Allowed(s, t, p)
    requires Drained(s) ==> s'.slots == s.slots
    ensures Interference(s, s')
  {
    if Open(s) {
      forall u | Held(s, u, s.active)
        ensures Held(s', u, s.active) && s'.threads[u].pc == s.threads[u].pc
        ensures s'.threads[u].phase.slot == s.threads[u].phase.slot
      {
      }
    }
  }

  lemma MoveKeepsEpochs(s: System, s': System, t: int, p: Phase)
    requires EpochsAgree(s) && Moves(s, s', t, p) && Allowed(s, t, p)
    ensures EpochsAgree(s')
  {
  }

  lemma MoveKeepsCount(s: System, s': System, t: int, p: Phase)
    requires CountExact(s) && Moves(s, s', t, p)
    requires s'.handlerCount == s.handlerCount
             + (if InFlight(p) then 1 else 0) - (if InFlight(s.threads[t].phase) then 1 else 0)
    ensures CountExact(s')
  {
    CountAfter(s.threads, t, s.threads[t].(phase := p));
    assert t in InFlightSet(s.threads) <==> InFlight(s.threads[t].phase);
  }

  /** Only the slot thread `t` holds may change, and what it then shows is true of `t`. */
  predicate WritesOwnSlot(s: System, s': System, t: int, p: Phase)
    requires t in s.threads && |s'.slots| == |s.slots|
  {
    && (forall i | 0 <= i < |s.slots| && s'.slots[i] != s.slots[i] ::
          s.threads[t].phase.Holding? && s.threads[t].phase.slot == i)
    && (p.Holding? && s.active != 0 && p.slot < |s.slots| && !p.point.StorePc? ==>
          s'.slots[p.slot].pc == 0 || s'.slots[p.slot].pc == s.threads[t].pc)
    && (forall i | 0 <= i < |s.slots| && s'.slots[i].observed != s.slots[i].observed ::
          Published(p) && p.slot == i && p.epoch == s'.slots[i].observed)
  }

  lemma MoveKeepsSlots(s: System, s': System, t: int, p: Phase)
    requires SlotsOwned(s) && Moves(s, s', t, p) && Allowed(s, t, p) && WritesOwnSlot(s, s', t, p)
    ensures SlotsOwned(s')
  {
    if s.active != 0 {
      forall u | u in s'.threads && s'.threads[u].phase.Holding? && s'.threads[u].phase.slot < |s'.slots|
        ensures var q := s'.threads[u].phase;
                && s'.slots[q.slot].threadId == u
                && (!q.point.StorePc? ==> s'.slots[q.slot].pc == 0 || s'.slots[q.slot].pc == s'.threads[u].pc)
      {
        if u != t {
          assert s.slots[s'.threads[u].phase.slot].threadId == u;
        }
      }
    }
  }

  lemma MoveKeepsPublished(s: System, s': System, t: int, p: Phase)
    requires SlotsOwned(s) && PublishedHeld(s) && Moves(s, s', t, p) && Allowed(s, t, p)
    requires WritesOwnSlot(s, s', t, p) && Interference(s, s')
    ensures PublishedHeld(s')
  {
    if Open(s') {
      forall i | 0 <= i < |s'.slots| && s'.slots[i].observed == s'.active
        ensures Held(s', s'.slots[i].threadId, s'.active)
        ensures s'.threads[s'.slots[i].threadId].phase.slot == i
      {
        if s'.slots[i].observed == s.slots[i].observed {
          assert Held(s, s.slots[i].threadId, s.active);
        }
      }
    }
  }

  lemma MoveKeepsInv(s: System, s': System, t: int, p: Phase)
    requires Inv(s) && Moves(s, s', t, p) && Allowed(s, t, p) && WritesOwnSlot(s, s', t, p)
    requires Drained(s) ==> s'.slots == s.slots
    requires s'.handlerCount == s.handlerCount
             + (if InFlight(p) then 1 else 0) - (if InFlight(s.threads[t].phase) then 1 else 0)
    ensures Inv(s') && Interference(s, s')
  {
    MoveInterferes(s, s', t, p);
    MoveKeepsEpochs(s, s', t, p);
    MoveKeepsCount(s, s', t, p);
    MoveKeepsSlots(s, s', t, p);
    MoveKeepsPublished(s, s', t, p);
    OwnerKnowsKept(s, s');
  }

  /** From delivery to the slot search. */
  lemma EntryKeepsInv(s: System, t: int, missing: bool)
    requires Inv(s) && t in s.threads
    requires var p := s.threads[t].phase; p.Delivered? || p.Counted? || p.Loaded? || p.Scanning?
    ensures Inv(HandlerStep(s, t, missing)) && Interference(s, HandlerStep(s, t, missing))
  {
    var s' := HandlerStep(s, t, missing);
    MoveKeepsInv(s, s', t, s'.threads[t].phase);
  }

  lemma ExitKeepsInv(s: System, t: int, missing: bool)
    requires Inv(s) && t in s.threads && (s.threads[t].phase.Leaving? || s.threads[t].phase.Left?)
    ensures Inv(HandlerStep(s, t, missing)) && Interference(s, HandlerStep(s, t, missing))
  {
    var s' := HandlerStep(s, t, missing);
    assert s.threads[t].phase.Leaving? ==> t in InFlightSet(s.threads);
    MoveKeepsInv(s, s', t, s'.threads[t].phase);
  }

  lemma HandlerKeepsInv(s: System, t: int, missing: bool)
    requires Inv(s) && t in s.threads
    ensures Inv(HandlerStep(s, t, missing)) && Interference(s, HandlerStep(s, t, missing))
  {
    match s.threads[t].phase
    case Running =>
    case Holding(e, i, point) => HoldingKeepsInv(s, t);
    case Leaving => ExitKeepsInv(s, t, missing);
    case Left => ExitKeepsInv(s, t, missing);
    case _ => EntryKeepsInv(s, t, missing);
  }

  lemma HoldingKeepsInv(s: System, t: int)
    requires Inv(s) && t in s.threads && s.threads[t].phase.Holding?
    ensures var p := s.threads[t].phase;
            var s' := HoldingStep(s, t, p.epoch, p.slot, p.point);
            Inv(s') && Interference(s, s')
  {
    var p := s.threads[t].phase;
    var s' := HoldingStep(s, t, p.epoch, p.slot, p.point);
    if p.point == Asleep {
      assert s' == s;
    } else {
      MoveKeepsInv(s, s', t, s'.threads[t].phase);
    }
  }

  /** A thread outside the handler may move, appear or disappear. */
  lemma OutsideKeepsInv(s: System, s': System, t: int)
    requires Inv(s) && t > 0
    requires s' == s.(threads := s'.threads)
    requires s'.threads - {t} == s.threads - {t}
    requires t in s.threads ==> s.threads[t].phase.Running?
    requires t in s'.threads ==> s'.threads[t].phase.Running?
    ensures Inv(s') && Interference(s, s')
  {
    assert forall u | u != t :: u in s'.threads <==> u in s'.threads - {t};
    assert forall u | u != t :: u in s.threads <==> u in s.threads - {t};
    forall u | u != t && u in s.threads ensures u in s'.threads && s'.threads[u] == s.threads[u] {
      assert (s'.threads - {t})[u] == (s.threads - {t})[u];
    }
    assert InFlightSet(s'.threads) == InFlightSet(s.threads);
    OwnerKnowsKept(s, s');
  }

  predicate IsOwnerEvent(ev: Event) { ev.Begin? || ev.OwnerStep? }

  /** Delivery and spurious wake-ups. */
  lemma KernelKeepsInv(s: System, ev: Event)
    requires Inv(s) && (ev.Deliver? || ev.SpuriousWake?)
    ensures Inv(Apply(s, ev)) && Interference(s, Apply(s, ev))
  {
    var s' := Apply(s, ev);
    if s' != s {
      MoveKeepsInv(s, s', ev.thread, s'.threads[ev.thread].phase);
    }
  }

  /** Every step of every other thread keeps the invariant and is bounded interference. */
  lemma OthersKeepInv(s: System, ev: Event)
    requires Inv(s) && !IsOwnerEvent(ev)
    ensures Inv(Apply(s, ev)) && Interference(s, Apply(s, ev))
  {
    var s' := Apply(s, ev);
    match ev
    case Deliver(t, sig) => KernelKeepsInv(s, ev);
    case SpuriousWake(t) => KernelKeepsInv(s, ev);
    case Advance(t, missing) =>
      if t in s.threads { HandlerKeepsInv(s, t, missing); }
    case Execute(t, pc) =>
      if s' != s { OutsideKeepsInv(s, s', t); }
    case Spawn(parent, child, pc) =>
      if s' != s { OutsideKeepsInv(s, s', child); }
    case Exit(t) =>
      if s' != s { OutsideKeepsInv(s, s', t); }
  }

  lemma DrainedFromCount(s: System)
    requires CountExact(s) && EpochsAgree(s) && s.active == 0 && s.handlerCount == 0
    ensures Drained(s) && InFlightSet(s.threads) == {}
  {
    forall t | t in s.threads ensures EpochOf(s.threads[t].phase) == 0 {
      assert t !in InFlightSet(s.threads);
    }
  }

  /** One store of clearSlots in a drained runtime. */
  lemma ClearKeepsInv(s: System, granted: bool)
    requires Inv(s) && s.owner.RequestClear?
    ensures Inv(OpenAdvance(s, granted))
  {
    var s' := OpenAdvance(s, granted);
    assert DistinctSlots(s'.slots);
    assert Drained(s');
  }

  lemma OpenKeepsInv(s: System, granted: bool)
    requires Inv(s)
    requires InOpening(s.owner)
    ensures Inv(OpenAdvance(s, granted))
  {
    var s' := OpenAdvance(s, granted);
    match s.owner
    case RequestLoadActive(t, e) =>
    case RequestLoadCount(t, e) =>
      if s.handlerCount == 0 { DrainedFromCount(s); }
    case RequestClear(t, e, i, field) => ClearKeepsInv(s, granted);
    case RequestStoreRelease(t, e) =>
    case RequestOpen(t, e) =>
      assert EpochsAgree(s') && SlotsOwned(s') && PublishedHeld(s');
  }

  /** The owner reserves a free slot for a thread that has none. */
  lemma ReserveSlotKeepsSlots(s: System, s': System, t: int, i: nat)
    requires EpochsAgree(s) && SlotsOwned(s) && PublishedHeld(s) && s.active != 0
    requires i < |s.slots| && s.slots[i].threadId == 0 && t > 0
    requires forall j | 0 <= j < |s.slots| :: s.slots[j].threadId != t
    requires s' == s.(slots := s.slots[i := s.slots[i].(threadId := t)], owner := s'.owner)
    ensures SlotsOwned(s') && PublishedHeld(s')
  {
    forall u | u in s.threads && s.threads[u].phase.Holding? ensures s.threads[u].phase.slot != i {
      assert s.slots[s.threads[u].phase.slot].threadId == u;
    }
    if Open(s) {
      forall j | 0 <= j < |s'.slots| && s'.slots[j].observed == s'.active
        ensures Held(s', s'.slots[j].threadId, s'.active) && s'.threads[s'.slots[j].threadId].phase.slot == j
      {
        assert Held(s, s.slots[j].threadId, s.active);
      }
    }
  }

  /** The owner blanks the PC or the observed epoch of one slot. */
  lemma ResetSlotKeepsSlots(s: System, s': System, i: nat, slot: Slot)
    requires SlotsOwned(s) && PublishedHeld(s) && i < |s.slots| && s.active != 0
    requires slot == s.slots[i].(pc := 0) || slot == s.slots[i].(observed := 0)
    requires s' == s.(slots := s.slots[i := slot], owner := s'.owner)
    ensures SlotsOwned(s') && PublishedHeld(s')
  {
    if Open(s) {
      forall j | 0 <= j < |s'.slots| && s'.slots[j].observed == s'.active
        ensures Held(s', s'.slots[j].threadId, s'.active) && s'.threads[s'.slots[j].threadId].phase.slot == j
      {
        assert Held(s, s.slots[j].threadId, s.active);
      }
    }
  }

  lemma ReserveKeepsInv(s: System, granted: bool)
    requires Inv(s)
    requires InReserving(s.owner)
    ensures Inv(ReserveAdvance(s, granted))
  {
    var s' := ReserveAdvance(s, granted);
    match s.owner
    case RequestFind(t, e, i) =>
    case RequestReserve(t, e, i) =>
      if i < |s.slots| && s.slots[i].threadId == 0 { ReserveSlotKeepsSlots(s, s', t, i); }
    case RequestResetPc(t, e, i) => ResetSlotKeepsSlots(s, s', i, s.slots[i].(pc := 0));
    case RequestResetEpoch(t, e, i) => ResetSlotKeepsSlots(s, s', i, s.slots[i].(observed := 0));
    case RequestSignal(t, e, i) =>
  }

  /** A wait only moves the owner: the rest of the invariant is about the other fields. */
  lemma OwnerMoveKeepsInv(s: System, owner: Owner)
    requires Inv(s) && Open(s)
    requires OwnerKnows(s.(owner := owner))
    ensures Inv(s.(owner := owner))
  {
  }

  lemma CollectKeepsInv(s: System, granted: bool)
    requires Inv(s) && s.owner.WaitLoadPc?
    ensures Inv(s.(owner := WaitAdvance(s, granted)))
  {
    var ids, out, i, e := s.owner.ids, s.owner.out, s.owner.index, s.owner.epoch;
    assert SnapshotSound(s, Snapshot(ids[|out|], s.slots[i].pc, e), ids[|out|], e);
    OwnerMoveKeepsInv(s, WaitAdvance(s, granted));
  }

  lemma WaitKeepsInv(s: System, granted: bool)
    requires Inv(s)
    requires InWaiting(s.owner)
    ensures Inv(s.(owner := WaitAdvance(s, granted)))
  {
    if s.owner.WaitLoadPc? {
      CollectKeepsInv(s, granted);
    } else if s.owner.WaitLoadActive? {
      assert OwnerKnows(s.(owner := WaitAdvance(s, granted)));
    } else {
      OwnerMoveKeepsInv(s, WaitAdvance(s, granted));
    }
  }

  lemma WakeKeepsPhases(s: System, s': System)
    requires Inv(s) && s' == s.(threads := WakeAll(s.threads), owner := s'.owner)
    ensures CountExact(s') && EpochsAgree(s') && SlotsOwned(s') && PublishedHeld(s')
  {
    forall t | t in s.threads ensures InFlight(s'.threads[t].phase) == InFlight(s.threads[t].phase) {
      assert s'.threads[t] == Woken(s.threads[t]);
    }
    assert InFlightSet(s'.threads) == InFlightSet(s.threads);
  }

  /** Storing the release word, then clearing the active epoch. */
  lemma CloseKeepsInv(s: System, granted: bool)
    requires Inv(s) && (s.owner.ResumeStoreRelease? || s.owner.ResumeStoreActive?)
    ensures Inv(ResumeAdvance(s, granted))
  {
    var s' := ResumeAdvance(s, granted);
    assert CountExact(s') && EpochsAgree(s') && SlotsOwned(s') && PublishedHeld(s');
  }

  lemma ResumeKeepsInv(s: System, granted: bool)
    requires Inv(s) && InResuming(s.owner)
    ensures Inv(ResumeAdvance(s, granted))
  {
    var s' := ResumeAdvance(s, granted);
    match s.owner
    case ResumeStoreRelease(e, n) => CloseKeepsInv(s, granted);
    case ResumeStoreActive(e, n) => CloseKeepsInv(s, granted);
    case ResumeWake(e, n) => WakeKeepsPhases(s, s');
    case ResumeLoadCount(e, n) =>
      if s.handlerCount == 0 { DrainedFromCount(s); }
    case _ =>
  }

  lemma OwnerKeepsInv(s: System, granted: bool)
    requires Inv(s)
    ensures Inv(OwnerAdvance(s, granted))
  {
    if InOpening(s.owner) {
      OpenKeepsInv(s, granted);
    } else if InReserving(s.owner) {
      ReserveKeepsInv(s, granted);
    } else if InWaiting(s.owner) {
      WaitKeepsInv(s, granted);
    } else if InResuming(s.owner) {
      ResumeKeepsInv(s, granted);
    }
  }

  lemma BeginKeepsInv(s: System, call: Call)
    requires Inv(s) && OwnerIdle(s.owner)
    ensures Inv(s.(owner := BeginCall(call)))
  {
    var s' := s.(owner := BeginCall(call));
    assert OwnerKnows(s');
  }

  lemma StepKeepsInv(s: System, ev: Event)
    requires Inv(s)
    ensures Inv(Apply(s, ev))
  {
    match ev
    case Begin(call) => if OwnerIdle(s.owner) { BeginKeepsInv(s, call); }
    case OwnerStep(granted) => OwnerKeepsInv(s, granted);
    case _ => OthersKeepInv(s, ev);
  }
}
