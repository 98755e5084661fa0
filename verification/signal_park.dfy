/**
 The signal parking runtime as a step system: one owner thread that opens an
 epoch, reserves slots, waits and resumes, and any number of threads that may be
 interrupted at any moment by the parking signal handler.

 Every atomic load, store, add, compare-exchange and futex call of the source is
 one step; steps of different threads interleave arbitrarily and are taken as
 sequentially consistent.
 */
module SignalPark {
  import opened QuiescenceBackends

  /** One entry of the process-global slot table. */
  datatype Slot = Slot(threadId: int, pc: nat, observed: nat)

  const BLANK := Slot(0, 0, 0)

  /** The next action of a handler that has found its slot. */
  datatype Point =
    | StorePc           // publish the interrupted program counter
    | StoreEpoch        // publish the observed epoch
    | BumpSequence      // add one to the parked sequence
    | WakeOwner         // futex wake on the parked sequence
    | TestActive        // loop test, left operand
    | TestRelease       // loop test, right operand
    | Reload            // re-read the release word for the futex call
    | Wait(expected: nat)
    | Asleep

  /** What a thread is doing with respect to the parking handler. */
  datatype Phase =
    | Running
    | Delivered(signal: int)                 // in the handler, not yet counted
    | Counted(signal: int)                   // about to load the active epoch
    | Loaded(epoch: nat, signal: int)        // about to compare the signal number
    | Scanning(epoch: nat, index: nat)       // inside findSlot
    | Holding(epoch: nat, slot: nat, point: Point)
    | Leaving                                // about to subtract from the count
    | Left                                   // about to wake count waiters

  /** `pc` is the program counter the signal interrupted, or the current one. */
  datatype Thread = Thread(pc: nat, phase: Phase)

  /** The owner's position inside the callback it is executing. */
  datatype Owner =
    | Idle
    | RequestLoadActive(thread: int, epoch: nat)
    | RequestLoadCount(thread: int, epoch: nat)
    | RequestClear(thread: int, epoch: nat, index: nat, field: nat)
    | RequestStoreRelease(thread: int, epoch: nat)
    | RequestOpen(thread: int, epoch: nat)
    | RequestFind(thread: int, epoch: nat, index: nat)
    | RequestReserve(thread: int, epoch: nat, index: nat)
    | RequestResetPc(thread: int, epoch: nat, index: nat)
    | RequestResetEpoch(thread: int, epoch: nat, index: nat)
    | RequestSignal(thread: int, epoch: nat, index: nat)
    | RequestReturned(ok: bool)
    | WaitLoadActive(epoch: nat, ids: seq<int>, rounds: nat)
    | WaitFind(epoch: nat, ids: seq<int>, rounds: nat, out: seq<Snapshot>, index: nat)
    | WaitLoadObserved(epoch: nat, ids: seq<int>, rounds: nat, out: seq<Snapshot>, index: nat)
    | WaitLoadPc(epoch: nat, ids: seq<int>, rounds: nat, out: seq<Snapshot>, index: nat)
    | WaitReturned(ok: bool, epoch: nat, ids: seq<int>, out: seq<Snapshot>)
    | ResumeLoadActive(epoch: nat, rounds: nat)
    | ResumeStoreRelease(epoch: nat, rounds: nat)
    | ResumeStoreActive(epoch: nat, rounds: nat)
    | ResumeWake(epoch: nat, rounds: nat)
    | ResumeLoadCount(epoch: nat, rounds: nat)
    | ResumeReturned(ok: bool)

  /**
   `lastOpened` is auxiliary: the epoch most recently stored by the opening
   compare-exchange. No step tests it.
   */
  datatype System = System(
    slots: seq<Slot>,
    active: nat,
    release: nat,
    handlerCount: nat,
    sequence: nat,
    signal: int,
    threads: map<int, Thread>,
    caller: int,
    owner: Owner,
    lastOpened: nat)

  /** A callback invocation by the coordinator. */
  datatype Call =
    | Request(thread: int, epoch: nat)
    | WaitFor(epoch: nat, ids: seq<int>, rounds: nat)
    | Resume(epoch: nat, rounds: nat)

  /**
   One atomic step. `Deliver` needs no matching request: the signal may be stale
   or spurious. `OwnerStep` carries the outcome of whatever the operating system
   decides in that step (signal disposition query, tgkill, futex error).
   */
  datatype Event =
    | Deliver(thread: int, signal: int)
    | Advance(thread: int, contextMissing: bool)
    | SpuriousWake(thread: int)
    | Execute(thread: int, pc: nat)
    | Spawn(parent: int, child: int, pc: nat)
    | Exit(thread: int)
    | Begin(call: Call)
    | OwnerStep(granted: bool)

  predicate OwnerIdle(o: Owner) {
    o.Idle? || o.RequestReturned? || o.WaitReturned? || o.ResumeReturned?
  }

  function SetPhase(s: System, t: int, p: Phase): System
    requires t in s.threads
  {
    s.(threads := s.threads[t := s.threads[t].(phase := p)])
  }

  /** The next atomic step of the handler running on thread `t`. */
  function HandlerStep(s: System, t: int, contextMissing: bool): System
    requires t in s.threads
  {
    match s.threads[t].phase
    case Running => s
    case Delivered(sig) =>
      SetPhase(s, t, Counted(sig)).(handlerCount := s.handlerCount + 1)
    case Counted(sig) =>
      SetPhase(s, t, if s.active == 0 then Leaving else Loaded(s.active, sig))
    case Loaded(e, sig) =>
      SetPhase(s, t, if sig != s.signal then Leaving else Scanning(e, 0))
    case Scanning(e, i) =>
      SetPhase(s, t,
               if i >= |s.slots| then Leaving
               else if s.slots[i].threadId != t then Scanning(e, i + 1)
               else if contextMissing then Leaving
               else Holding(e, i, StorePc))
    case Holding(e, i, point) =>
      HoldingStep(s, t, e, i, point)
    case Leaving =>
      SetPhase(s, t, Left).(handlerCount := if s.handlerCount == 0 then 0 else s.handlerCount - 1)
    case Left =>
      SetPhase(s, t, Running)
  }

  function HoldingStep(s: System, t: int, e: nat, i: nat, point: Point): System
    requires t in s.threads
  {
    if i >= |s.slots| then s else
    match point
    case StorePc =>
      SetPhase(s, t, Holding(e, i, StoreEpoch)).(slots := s.slots[i := s.slots[i].(pc := s.threads[t].pc)])
    case StoreEpoch =>
      SetPhase(s, t, Holding(e, i, BumpSequence)).(slots := s.slots[i := s.slots[i].(observed := e)])
    case BumpSequence =>
      SetPhase(s, t, Holding(e, i, WakeOwner)).(sequence := (s.sequence + 1) % 0x1_0000_0000)
    case WakeOwner =>
      SetPhase(s, t, Holding(e, i, TestActive))
    case TestActive =>
      SetPhase(s, t, if s.active == e then Holding(e, i, TestRelease) else Leaving)
    case TestRelease =>
      SetPhase(s, t, if s.release != e then Holding(e, i, Reload) else Leaving)
    case Reload =>
      SetPhase(s, t, Holding(e, i, Wait(s.release)))
    case Wait(expected) =>
      SetPhase(s, t, Holding(e, i, if s.release == expected then Asleep else TestActive))
    case Asleep => s
  }

  /** What futex wake does to one waiter on the release word. */
  function Woken(th: Thread): Thread {
    if th.phase.Holding? && th.phase.point == Asleep
    then th.(phase := th.phase.(point := TestActive))
    else th
  }

  function WakeAll(threads: map<int, Thread>): map<int, Thread> {
    map t | t in threads :: Woken(threads[t])
  }

  function BeginCall(call: Call): Owner {
    match call
    case Request(t, e) =>
      if t <= 0 || e == 0 then RequestReturned(false) else RequestLoadActive(t, e)
    case WaitFor(e, ids, rounds) =>
      if e == 0 then WaitReturned(false, e, ids, []) else WaitLoadActive(e, ids, rounds)
    case Resume(e, rounds) =>
      if e == 0 then ResumeReturned(false) else ResumeLoadActive(e, rounds)
  }

  /** A scan that found some thread not parked: wait again or give up. */
  function Retry(e: nat, ids: seq<int>, rounds: nat, granted: bool): Owner {
    if rounds == 0 || !granted then WaitReturned(false, e, ids, [])
    else WaitFind(e, ids, rounds - 1, [], 0)
  }

  /** requestParkCallback before and at the opening compare-exchange. */
  predicate InOpening(o: Owner) {
    o.RequestLoadActive? || o.RequestLoadCount? || o.RequestClear? || o.RequestStoreRelease? || o.RequestOpen?
  }

  /** requestParkCallback after the epoch is open. */
  predicate InReserving(o: Owner) {
    o.RequestFind? || o.RequestReserve? || o.RequestResetPc? || o.RequestResetEpoch? || o.RequestSignal?
  }

  predicate InWaiting(o: Owner) {
    o.WaitLoadActive? || o.WaitFind? || o.WaitLoadObserved? || o.WaitLoadPc?
  }

  predicate InResuming(o: Owner) {
    o.ResumeLoadActive? || o.ResumeStoreRelease? || o.ResumeStoreActive? || o.ResumeWake? || o.ResumeLoadCount?
  }

  /** The next atomic step of the owner. */
  function OwnerAdvance(s: System, granted: bool): System {
    if InOpening(s.owner) then OpenAdvance(s, granted)
    else if InReserving(s.owner) then ReserveAdvance(s, granted)
    else if InWaiting(s.owner) then s.(owner := WaitAdvance(s, granted))
    else if InResuming(s.owner) then ResumeAdvance(s, granted)
    else s
  }

  /** requestParkCallback up to and including the opening compare-exchange. */
  function OpenAdvance(s: System, granted: bool): System {
    match s.owner
    case RequestLoadActive(t, e) =>
      s.(owner := if s.active == 0 then (if granted then RequestLoadCount(t, e) else RequestReturned(false))
                  else if s.active != e then RequestReturned(false)
                  else RequestFind(t, e, 0))
    case RequestLoadCount(t, e) =>
      s.(owner := if s.handlerCount != 0 then RequestReturned(false)
                  else if |s.slots| == 0 then RequestStoreRelease(t, e)
                  else RequestClear(t, e, 0, 0))
    case RequestClear(t, e, i, field) =>
      if i >= |s.slots| then s else
      if field == 0 then
        s.(slots := s.slots[i := s.slots[i].(observed := 0)], owner := RequestClear(t, e, i, 1))
      else if field == 1 then
        s.(slots := s.slots[i := s.slots[i].(pc := 0)], owner := RequestClear(t, e, i, 2))
      else
        s.(slots := s.slots[i := s.slots[i].(threadId := 0)],
           owner := if i + 1 < |s.slots| then RequestClear(t, e, i + 1, 0) else RequestStoreRelease(t, e))
    case RequestStoreRelease(t, e) =>
      s.(release := 0, owner := RequestOpen(t, e))
    case RequestOpen(t, e) =>
      if s.active == 0 then s.(active := e, lastOpened := e, owner := RequestFind(t, e, 0))
      else s.(owner := if s.active != e then RequestReturned(false) else RequestFind(t, e, 0))
    case _ => s
  }

  /** requestParkCallback from findSlot to tgkill. */
  function ReserveAdvance(s: System, granted: bool): System {
    match s.owner
    case RequestFind(t, e, i) =>
      s.(owner := if i >= |s.slots| then RequestReserve(t, e, 0)
                  else if s.slots[i].threadId == t then RequestResetPc(t, e, i)
                  else RequestFind(t, e, i + 1))
    case RequestReserve(t, e, i) =>
      if i >= |s.slots| then s.(owner := RequestReturned(false))
      else if s.slots[i].threadId == 0 then
        s.(slots := s.slots[i := s.slots[i].(threadId := t)], owner := RequestResetPc(t, e, i))
      else s.(owner := RequestReserve(t, e, i + 1))
    case RequestResetPc(t, e, i) =>
      if i >= |s.slots| then s else
      s.(slots := s.slots[i := s.slots[i].(pc := 0)], owner := RequestResetEpoch(t, e, i))
    case RequestResetEpoch(t, e, i) =>
      if i >= |s.slots| then s else
      s.(slots := s.slots[i := s.slots[i].(observed := 0)], owner := RequestSignal(t, e, i))
    case RequestSignal(t, e, i) =>
      s.(owner := RequestReturned(granted))
    case _ => s
  }

  /** waitForParkedCallback: reads only. */
  function WaitAdvance(s: System, granted: bool): Owner {
    match s.owner
    case WaitLoadActive(e, ids, rounds) =>
      if s.active != e || !granted then WaitReturned(false, e, ids, []) else WaitFind(e, ids, rounds, [], 0)
    case WaitFind(e, ids, rounds, out, i) =>
      if |out| >= |ids| then WaitReturned(true, e, ids, out)
      else if i >= |s.slots| then Retry(e, ids, rounds, granted)
      else if s.slots[i].threadId == ids[|out|] then WaitLoadObserved(e, ids, rounds, out, i)
      else WaitFind(e, ids, rounds, out, i + 1)
    case WaitLoadObserved(e, ids, rounds, out, i) =>
      if i >= |s.slots| || s.slots[i].observed != e then Retry(e, ids, rounds, granted)
      else WaitLoadPc(e, ids, rounds, out, i)
    case WaitLoadPc(e, ids, rounds, out, i) =>
      if i >= |s.slots| || |out| >= |ids| then s.owner
      else WaitFind(e, ids, rounds, out + [Snapshot(ids[|out|], s.slots[i].pc, e)], 0)
    case _ => s.owner
  }

  /** resumeEpoch and waitForHandlersToExit. */
  function ResumeAdvance(s: System, granted: bool): System {
    match s.owner
    case ResumeLoadActive(e, n) =>
      s.(owner := if s.active != 0 && s.active != e then ResumeReturned(false) else ResumeStoreRelease(e, n))
    case ResumeStoreRelease(e, n) =>
      s.(release := e, owner := ResumeStoreActive(e, n))
    case ResumeStoreActive(e, n) =>
      s.(active := 0, owner := ResumeWake(e, n))
    case ResumeWake(e, n) =>
      s.(threads := WakeAll(s.threads), owner := ResumeLoadCount(e, n))
    case ResumeLoadCount(e, n) =>
      s.(owner := if s.handlerCount == 0 then ResumeReturned(true)
                  else if n == 0 || !granted then ResumeReturned(false)
                  else ResumeLoadCount(e, n - 1))
    case _ => s
  }

  /** One step of the whole system; an event that is not enabled changes nothing. */
  function Apply(s: System, ev: Event): System {
    match ev
    case Deliver(t, sig) =>
      if t in s.threads && s.threads[t].phase.Running? then SetPhase(s, t, Delivered(sig)) else s
    case Advance(t, missing) =>
      if t in s.threads then HandlerStep(s, t, missing) else s
    case SpuriousWake(t) =>
      if t in s.threads then s.(threads := s.threads[t := Woken(s.threads[t])]) else s
    case Execute(t, pc) =>
      if t in s.threads && s.threads[t].phase.Running?
      then s.(threads := s.threads[t := Thread(pc, Running)]) else s
    case Spawn(parent, child, pc) =>
      if parent in s.threads && s.threads[parent].phase.Running? && parent != s.caller &&
         child > 0 && child !in s.threads
      then s.(threads := s.threads[child := Thread(pc, Running)]) else s
    case Exit(t) =>
      if t in s.threads && s.threads[t].phase.Running? && t != s.caller
      then s.(threads := s.threads - {t}) else s
    case Begin(call) =>
      if OwnerIdle(s.owner) then s.(owner := BeginCall(call)) else s
    case OwnerStep(granted) =>
      OwnerAdvance(s, granted)
  }

  function Run(s: System, evs: seq<Event>): System
    decreases |evs|
  {
    if evs == [] then s else Run(Apply(s, evs[0]), evs[1..])
  }
}
