/**
 What the parking protocol guarantees over whole runs: epochs never overlap, a
 held thread stays held until the owner resumes, a successful resume means every
 handler is gone, and exactly which handlers a wake can miss.
 */
module SignalParkTheorems {
  import opened QuiescenceBackends
  import opened SignalPark
  import opened SignalParkSafety

  lemma {:induction false} RunKeepsInv(s: System, evs: seq<Event>)
    requires Inv(s)
    ensures Inv(Run(s, evs))
    decreases |evs|
  {
    if evs != [] {
      StepKeepsInv(s, evs[0]);
      RunKeepsInv(Apply(s, evs[0]), evs[1..]);
    }
  }

  /**
   In every reachable state no two handlers carry different epochs, none carries an
   epoch other than the active one, each thread has at most one slot, and the
   handler count is the number of handlers in flight.
   */
  lemma EpochsNeverOverlap(init: System, evs: seq<Event>, t: int, u: int)
    requires Init(init)
    ensures var s := Run(init, evs);
            && s.handlerCount == |InFlightSet(s.threads)|
            && DistinctSlots(s.slots)
            && (t in s.threads && u in s.threads
                && EpochOf(s.threads[t].phase) != 0 && EpochOf(s.threads[u].phase) != 0 ==>
                  EpochOf(s.threads[t].phase) == EpochOf(s.threads[u].phase))
            && (t in s.threads && EpochOf(s.threads[t].phase) != 0 && s.active != 0 ==>
                  EpochOf(s.threads[t].phase) == s.active)
  {
    InitInv(init);
    RunKeepsInv(init, evs);
  }

  /** The owner is clearing slots, or about to open the epoch it cleared them for. */
  predicate Opening(o: Owner) {
    o.RequestClear? || o.RequestStoreRelease? || o.RequestOpen?
  }

  /**
   A handler that writes a slot carries the most recently opened epoch, writes only
   the slot that bears its own thread ID, and never writes while the owner prepares
   a new epoch: by then no handler carries any epoch, so whoever writes later loaded
   the new one.
   */
  lemma NoStaleSlotWrite(init: System, evs: seq<Event>, ev: Event)
    requires Init(init) && !IsOwnerEvent(ev)
    requires Apply(Run(init, evs), ev).slots != Run(init, evs).slots
    ensures var s := Run(init, evs);
            && ev.Advance? && ev.thread in s.threads
            && s.threads[ev.thread].phase.Holding?
            && s.threads[ev.thread].phase.epoch == s.lastOpened
            && (s.active != 0 ==>
                  && s.threads[ev.thread].phase.epoch == s.active
                  && s.slots[s.threads[ev.thread].phase.slot].threadId == ev.thread)
            && !Opening(s.owner)
    ensures var s := Run(init, evs);
            forall i | 0 <= i < |s.slots| && i != s.threads[ev.thread].phase.slot ::
              i < |Apply(s, ev).slots| && Apply(s, ev).slots[i] == s.slots[i]
  {
    InitInv(init);
    RunKeepsInv(init, evs);
    OthersKeepInv(Run(init, evs), ev);
  }

  predicate NoResume(evs: seq<Event>) {
    forall i | 0 <= i < |evs| && evs[i].Begin? :: !evs[i].call.Resume?
  }

  /** While an epoch is open and not being resumed, the owner touches only slots. */
  lemma OwnerLeavesThreads(s: System, granted: bool)
    requires OwnerKnows(s) && Open(s) && !InResuming(s.owner)
    ensures var s' := OwnerAdvance(s, granted);
            && s'.threads == s.threads && s'.active == s.active && s'.release == s.release && !InResuming(s'.owner)
  {
  }

  lemma HeldStep(s: System, ev: Event, t: int)
    requires Inv(s) && Open(s) && !InResuming(s.owner) && Held(s, t, s.active)
    requires ev.Begin? ==> !ev.call.Resume?
    ensures var s' := Apply(s, ev);
            && Inv(s') && Open(s') && s'.active == s.active && !InResuming(s'.owner)
            && Held(s', t, s.active) && s'.threads[t].pc == s.threads[t].pc
  {
    StepKeepsInv(s, ev);
    match ev
    case Begin(call) =>
    case OwnerStep(granted) => OwnerLeavesThreads(s, granted);
    case _ => OthersKeepInv(s, ev);
  }

  /**
   A thread held in an open epoch stays in the handler, with its interrupted PC,
   through every run in which the owner does not resume.
   */
  lemma {:induction false} HeldUntilResume(s: System, evs: seq<Event>, t: int)
    requires Inv(s) && Open(s) && !InResuming(s.owner) && Held(s, t, s.active) && NoResume(evs)
    ensures var s' := Run(s, evs);
            && Open(s') && s'.active == s.active
            && Held(s', t, s.active) && s'.threads[t].pc == s.threads[t].pc
    decreases |evs|
  {
    if evs != [] {
      HeldStep(s, evs[0], t);
      assert forall i | 0 <= i < |evs[1..]| :: evs[1..][i] == evs[i + 1];
      HeldUntilResume(Apply(s, evs[0]), evs[1..], t);
    }
  }

  /** The wait succeeds only with sound snapshots: held threads, PC exact or 0. */
  lemma WaitSucceedsSoundly(init: System, evs: seq<Event>)
    requires Init(init)
    requires Run(init, evs).owner.WaitReturned? && Run(init, evs).owner.ok
    ensures var s := Run(init, evs);
            && OpenFor(s, s.owner.epoch)
            && |s.owner.out| == |s.owner.ids|
            && forall k | 0 <= k < |s.owner.ids| ::
                 SnapshotSound(s, s.owner.out[k], s.owner.ids[k], s.owner.epoch)
  {
    InitInv(init);
    RunKeepsInv(init, evs);
  }

  predicate NoRequest(evs: seq<Event>) {
    forall i | 0 <= i < |evs| && evs[i].Begin? :: !evs[i].call.Request?
  }

  /** No handler carries an epoch, and the owner is not about to open one. */
  predicate StaysDrained(s: System) {
    Drained(s) && !InOpening(s.owner) && !InReserving(s.owner)
  }

  lemma DrainedByOthers(s: System, ev: Event)
    requires Inv(s) && StaysDrained(s) && !IsOwnerEvent(ev)
    ensures StaysDrained(Apply(s, ev))
  {
    OthersKeepInv(s, ev);
  }

  lemma DrainedBegin(s: System, call: Call)
    requires StaysDrained(s) && !call.Request?
    ensures StaysDrained(s.(owner := BeginCall(call)))
  {
  }

  lemma DrainedWait(s: System, granted: bool)
    requires StaysDrained(s) && InWaiting(s.owner)
    ensures StaysDrained(s.(owner := WaitAdvance(s, granted)))
  {
  }

  lemma DrainedResume(s: System, granted: bool)
    requires StaysDrained(s) && InResuming(s.owner)
    ensures StaysDrained(ResumeAdvance(s, granted))
  {
  }

  lemma DrainedStep(s: System, ev: Event)
    requires Inv(s) && StaysDrained(s) && (ev.Begin? ==> !ev.call.Request?)
    ensures StaysDrained(Apply(s, ev))
  {
    match ev
    case Begin(call) => DrainedBegin(s, call);
    case OwnerStep(granted) =>
      if InWaiting(s.owner) {
        DrainedWait(s, granted);
      } else if InResuming(s.owner) {
        DrainedResume(s, granted);
      }
    case _ => DrainedByOthers(s, ev);
  }

  lemma {:induction false} DrainedStays(s: System, evs: seq<Event>)
    requires Inv(s) && StaysDrained(s) && NoRequest(evs)
    ensures Drained(Run(s, evs))
    decreases |evs|
  {
    if evs != [] {
      DrainedStep(s, evs[0]);
      StepKeepsInv(s, evs[0]);
      assert forall i | 0 <= i < |evs[1..]| :: evs[1..][i] == evs[i + 1];
      DrainedStays(Apply(s, evs[0]), evs[1..]);
    }
  }

  /**
   The step that makes resume return true is taken at an instant with no handler in
   flight, and from then on no handler can park until a request opens an epoch.
   */
  lemma ResumeTrueMeansEmpty(init: System, before: seq<Event>, granted: bool, after: seq<Event>, t: int)
    requires Init(init) && Run(init, before).owner.ResumeLoadCount?
    requires OwnerAdvance(Run(init, before), granted).owner == ResumeReturned(true)
    requires NoRequest(after)
    ensures InFlightSet(Run(init, before).threads) == {}
    ensures var s := Run(OwnerAdvance(Run(init, before), granted), after);
            s.active == 0 && (t in s.threads ==> !s.threads[t].phase.Holding?)
  {
    InitInv(init);
    RunKeepsInv(init, before);
    var s := Run(init, before);
    DrainedFromCount(s);
    var s' := OwnerAdvance(s, granted);
    OwnerKeepsInv(s, granted);
    DrainedStays(s', after);
    RunKeepsInv(s', after);
  }

  // ---------------------------------------------------------------------------
  // Which handlers a wake misses
  // ---------------------------------------------------------------------------

  predicate OthersOnly(evs: seq<Event>) {
    forall i | 0 <= i < |evs| :: !IsOwnerEvent(evs[i])
  }

  predicate Sleeping(s: System, t: int) {
    t in s.threads && s.threads[t].phase.Holding? && s.threads[t].phase.point == Asleep
  }

  /** Some continuation without the owner puts `t` to sleep on the release word. */
  ghost predicate CanFallAsleep(s: System, t: int) {
    exists evs :: OthersOnly(evs) && Sleeping(Run(s, evs), t)
  }

  /**
   The handler is past its loop test with the release word it would sleep on: it
   re-reads the word after testing it.
   */
  predicate Strandable(s: System, t: int) {
    && t in s.threads && s.threads[t].phase.Holding?
    && var p := s.threads[t].phase;
       || p.point == Asleep
       || p.point == Reload
       || (p.point.Wait? && p.point.expected == s.release)
       || (p.point == TestRelease && s.release != p.epoch)
  }

  lemma StrandableIsOld(s: System, ev: Event, t: int)
    requires s.active == 0 && !IsOwnerEvent(ev) && !Strandable(s, t)
    requires forall u | u in s.threads :: WellFormed(s.threads[u].phase, |s.slots|)
    ensures !Strandable(Apply(s, ev), t) && Apply(s, ev).active == 0
  {
  }

  lemma {:induction false} NeverSleeps(s: System, evs: seq<Event>, t: int)
    requires Inv(s) && s.active == 0 && OthersOnly(evs) && !Strandable(s, t)
    ensures !Sleeping(Run(s, evs), t)
    decreases |evs|
  {
    if evs != [] {
      StrandableIsOld(s, evs[0], t);
      StepKeepsInv(s, evs[0]);
      assert forall i | 0 <= i < |evs[1..]| :: evs[1..][i] == evs[i + 1];
      NeverSleeps(Apply(s, evs[0]), evs[1..], t);
    }
  }

  /** Own steps left until the handler is asleep. */
  function StepsToSleep(p: Phase): nat {
    if !p.Holding? || p.point == Asleep then 0
    else if p.point.Wait? then 1
    else if p.point == Reload then 2
    else 3
  }

  lemma {:induction false} StrandableSleeps(s: System, t: int) returns (evs: seq<Event>)
    requires Inv(s) && s.active == 0 && Strandable(s, t)
    ensures OthersOnly(evs) && Sleeping(Run(s, evs), t)
    decreases StepsToSleep(s.threads[t].phase)
  {
    if s.threads[t].phase.point == Asleep {
      evs := [];
    } else {
      var step := Advance(t, false);
      StepKeepsInv(s, step);
      var rest := StrandableSleeps(Apply(s, step), t);
      evs := [step] + rest;
      assert evs[1..] == rest;
    }
  }

  /**
   Once the active epoch is cleared, a handler can go to sleep on the release word,
   with no further wake to come, if and only if it is already past its loop test.
   */
  lemma WakeMissesExactlyStrandable(s: System, t: int)
    requires Inv(s) && s.active == 0
    ensures CanFallAsleep(s, t) <==> Strandable(s, t)
  {
    if Strandable(s, t) {
      var evs := StrandableSleeps(s, t);
    } else if CanFallAsleep(s, t) {
      var evs :| OthersOnly(evs) && Sleeping(Run(s, evs), t);
      NeverSleeps(s, evs, t);
    }
  }

  function Advances(evs: seq<Event>, t: int): nat
    decreases |evs|
  {
    if evs == [] then 0
    else (if evs[0].Advance? && evs[0].thread == t then 1 else 0) + Advances(evs[1..], t)
  }

  predicate AtLoopTest(s: System, t: int) {
    t in s.threads && s.threads[t].phase.Holding? && s.threads[t].phase.point == TestActive
  }

  /** A handler at its loop test or on its way out is moved by its own steps only. */
  lemma OnlyOwnStepsMove(s: System, ev: Event, t: int)
    requires !IsOwnerEvent(ev) && !(ev.Advance? && ev.thread == t)
    requires AtLoopTest(s, t) || (t in s.threads && s.threads[t].phase.Leaving?)
    ensures t in Apply(s, ev).threads && Apply(s, ev).threads[t] == s.threads[t]
  {
    match ev
    case Advance(u, missing) => if u in s.threads { StepsOneThread(s, u, missing, t); }
    case _ =>
  }

  lemma StepsOneThread(s: System, u: int, missing: bool, t: int)
    requires u in s.threads && t in s.threads && u != t
    ensures t in HandlerStep(s, u, missing).threads && HandlerStep(s, u, missing).threads[t] == s.threads[t]
  {
  }

  lemma OwnStepLeaves(s: System, t: int, missing: bool)
    requires EpochsAgree(s) && s.active == 0
    requires AtLoopTest(s, t) || (t in s.threads && s.threads[t].phase.Leaving?)
    ensures var s' := HandlerStep(s, t, missing);
            t in s'.threads && if AtLoopTest(s, t) then s'.threads[t].phase.Leaving? else s'.threads[t].phase.Left?
  {
  }

  /** With the epoch closed, a step of anyone brings the handler no further from leaving. */
  lemma LeaveStep(s: System, ev: Event, t: int)
    requires Inv(s) && s.active == 0 && !IsOwnerEvent(ev)
    requires AtLoopTest(s, t) || (t in s.threads && s.threads[t].phase.Leaving?)
    ensures var s' := Apply(s, ev);
            && t in s'.threads
            && (if ev.Advance? && ev.thread == t
                then (if AtLoopTest(s, t) then s'.threads[t].phase.Leaving? else s'.threads[t].phase.Left?)
                else s'.threads[t].phase == s.threads[t].phase)
  {
    if ev.Advance? && ev.thread == t {
      OwnStepLeaves(s, t, ev.contextMissing);
    } else {
      OnlyOwnStepsMove(s, ev, t);
    }
  }

  lemma PrefixShift(s: System, evs: seq<Event>, k: nat)
    requires k < |evs|
    ensures Run(s, evs[..k + 1]) == Run(Apply(s, evs[0]), evs[1..][..k])
  {
    assert evs[..k + 1][1..] == evs[1..][..k];
  }

  ghost predicate LeavesDuring(s: System, evs: seq<Event>, t: int) {
    exists k | 0 <= k <= |evs| :: t in Run(s, evs[..k]).threads && Run(s, evs[..k]).threads[t].phase.Left?
  }

  lemma {:induction false} LeavesWithin(s: System, evs: seq<Event>, t: int)
    requires Inv(s) && s.active == 0 && OthersOnly(evs)
    requires t in s.threads
    requires (AtLoopTest(s, t) && Advances(evs, t) >= 2) || (s.threads[t].phase.Leaving? && Advances(evs, t) >= 1)
    ensures LeavesDuring(s, evs, t)
    decreases |evs|
  {
    var s', rest := Apply(s, evs[0]), evs[1..];
    assert !IsOwnerEvent(evs[0]);
    LeaveStep(s, evs[0], t);
    OthersKeepInv(s, evs[0]);
    if s'.threads[t].phase.Left? {
      PrefixShift(s, evs, 0);
      assert Run(s, evs[..1]) == s';
    } else {
      assert forall i | 0 <= i < |rest| :: rest[i] == evs[i + 1];
      LeavesWithin(s', rest, t);
      var k :| 0 <= k <= |rest| && t in Run(s', rest[..k]).threads && Run(s', rest[..k]).threads[t].phase.Left?;
      PrefixShift(s, evs, k);
    }
  }

  /**
   A handler asleep when the owner issues its wake never sleeps again, and leaves as
   soon as it is scheduled for two more of its own steps, whatever others do.
   */
  lemma SleepersLeave(s: System, granted: bool, evs: seq<Event>, t: int)
    requires Inv(s) && s.owner.ResumeWake? && Sleeping(s, t) && OthersOnly(evs)
    ensures var s' := OwnerAdvance(s, granted);
            && !Sleeping(Run(s', evs), t)
            && (Advances(evs, t) >= 2 ==> LeavesDuring(s', evs, t))
  {
    var s' := OwnerAdvance(s, granted);
    OwnerKeepsInv(s, granted);
    assert s'.threads[t] == Woken(s.threads[t]);
    NeverSleeps(s', evs, t);
    if Advances(evs, t) >= 2 {
      LeavesWithin(s', evs, t);
    }
  }

  // A concrete run in which one resume fails to wake a parked handler.

  /** Caller 1 and peer 2, one slot, signal 40, epoch 7. */
  function Sample(slot: Slot, active: nat, release: nat, count: nat, sequence: nat, last: nat,
                  peer: Phase, owner: Owner): System {
    System([slot], active, release, count, sequence, 40,
           map[1 := Thread(100, Running), 2 := Thread(200, peer)], 1, owner, last)
  }

  lemma {:induction false} RunConcat(s: System, a: seq<Event>, b: seq<Event>)
    ensures Run(s, a + b) == Run(Run(s, a), b)
    decreases |a|
  {
    if a == [] {
      assert a + b == b;
    } else {
      assert (a + b)[1..] == a[1..] + b;
      RunConcat(Apply(s, a[0]), a[1..], b);
    }
  }

  /** `here` is reached by `evs`, and `next` by one event more. */
  lemma OneMore(from: System, evs: seq<Event>, here: System, ev: Event, next: System)
    requires Run(from, evs) == here && Apply(here, ev) == next
    ensures Run(from, evs + [ev]) == next
  {
    RunConcat(from, evs, [ev]);
    assert [ev][1..] == [];
  }

  /** Steps of one callback: the owner's own and everybody else's, no second call. */
  predicate OneCall(evs: seq<Event>) {
    forall i | 0 <= i < |evs| :: !evs[i].Begin?
  }

  /** The owner, asked for thread 2, starts clearing. */
  lemma SampleClears(from: System, evs: seq<Event>) returns (longer: seq<Event>)
    requires Run(from, evs) == Sample(BLANK, 0, 0, 0, 0, 0, Running, RequestLoadActive(2, 7))
    ensures Run(from, longer) == Sample(BLANK, 0, 0, 0, 0, 0, Running, RequestClear(2, 7, 0, 2))
    ensures OneCall(evs) ==> OneCall(longer)
  {
    var go := OwnerStep(true);
    longer := evs;
    OneMore(from, longer, Sample(BLANK, 0, 0, 0, 0, 0, Running, RequestLoadActive(2, 7)),
            go, Sample(BLANK, 0, 0, 0, 0, 0, Running, RequestLoadCount(2, 7)));
    longer := longer + [go];
    OneMore(from, longer, Sample(BLANK, 0, 0, 0, 0, 0, Running, RequestLoadCount(2, 7)),
            go, Sample(BLANK, 0, 0, 0, 0, 0, Running, RequestClear(2, 7, 0, 0)));
    longer := longer + [go];
    OneMore(from, longer, Sample(BLANK, 0, 0, 0, 0, 0, Running, RequestClear(2, 7, 0, 0)),
            go, Sample(BLANK, 0, 0, 0, 0, 0, Running, RequestClear(2, 7, 0, 1)));
    longer := longer + [go];
    OneMore(from, longer, Sample(BLANK, 0, 0, 0, 0, 0, Running, RequestClear(2, 7, 0, 1)),
            go, Sample(BLANK, 0, 0, 0, 0, 0, Running, RequestClear(2, 7, 0, 2)));
    longer := longer + [go];
  }

  /** It opens epoch 7. */
  lemma SampleOpens(from: System, evs: seq<Event>) returns (longer: seq<Event>)
    requires Run(from, evs) == Sample(BLANK, 0, 0, 0, 0, 0, Running, RequestClear(2, 7, 0, 2))
    ensures Run(from, longer) == Sample(BLANK, 7, 0, 0, 0, 7, Running, RequestFind(2, 7, 0))
    ensures OneCall(evs) ==> OneCall(longer)
  {
    var go := OwnerStep(true);
    longer := evs;
    OneMore(from, longer, Sample(BLANK, 0, 0, 0, 0, 0, Running, RequestClear(2, 7, 0, 2)),
            go, Sample(BLANK, 0, 0, 0, 0, 0, Running, RequestStoreRelease(2, 7)));
    longer := longer + [go];
    OneMore(from, longer, Sample(BLANK, 0, 0, 0, 0, 0, Running, RequestStoreRelease(2, 7)),
            go, Sample(BLANK, 0, 0, 0, 0, 0, Running, RequestOpen(2, 7)));
    longer := longer + [go];
    OneMore(from, longer, Sample(BLANK, 0, 0, 0, 0, 0, Running, RequestOpen(2, 7)),
            go, Sample(BLANK, 7, 0, 0, 0, 7, Running, RequestFind(2, 7, 0)));
    longer := longer + [go];
  }

  /** It finds no slot of thread 2. */
  lemma SampleSearches(from: System, evs: seq<Event>) returns (longer: seq<Event>)
    requires Run(from, evs) == Sample(BLANK, 7, 0, 0, 0, 7, Running, RequestFind(2, 7, 0))
    ensures Run(from, longer) == Sample(BLANK, 7, 0, 0, 0, 7, Running, RequestReserve(2, 7, 0))
    ensures OneCall(evs) ==> OneCall(longer)
  {
    var go := OwnerStep(true);
    longer := evs;
    OneMore(from, longer, Sample(BLANK, 7, 0, 0, 0, 7, Running, RequestFind(2, 7, 0)),
            go, Sample(BLANK, 7, 0, 0, 0, 7, Running, RequestFind(2, 7, 1)));
    longer := longer + [go];
    OneMore(from, longer, Sample(BLANK, 7, 0, 0, 0, 7, Running, RequestFind(2, 7, 1)),
            go, Sample(BLANK, 7, 0, 0, 0, 7, Running, RequestReserve(2, 7, 0)));
    longer := longer + [go];
  }

  /** It reserves a slot and sends the signal. */
  lemma SampleReserves(from: System, evs: seq<Event>) returns (longer: seq<Event>)
    requires Run(from, evs) == Sample(BLANK, 7, 0, 0, 0, 7, Running, RequestReserve(2, 7, 0))
    ensures Run(from, longer) == Sample(Slot(2, 0, 0), 7, 0, 0, 0, 7, Running, RequestReturned(true))
    ensures OneCall(evs) ==> OneCall(longer)
  {
    var go := OwnerStep(true);
    longer := evs;
    OneMore(from, longer, Sample(BLANK, 7, 0, 0, 0, 7, Running, RequestReserve(2, 7, 0)),
            go, Sample(Slot(2, 0, 0), 7, 0, 0, 0, 7, Running, RequestResetPc(2, 7, 0)));
    longer := longer + [go];
    OneMore(from, longer, Sample(Slot(2, 0, 0), 7, 0, 0, 0, 7, Running, RequestResetPc(2, 7, 0)),
            go, Sample(Slot(2, 0, 0), 7, 0, 0, 0, 7, Running, RequestResetEpoch(2, 7, 0)));
    longer := longer + [go];
    OneMore(from, longer, Sample(Slot(2, 0, 0), 7, 0, 0, 0, 7, Running, RequestResetEpoch(2, 7, 0)),
            go, Sample(Slot(2, 0, 0), 7, 0, 0, 0, 7, Running, RequestSignal(2, 7, 0)));
    longer := longer + [go];
    OneMore(from, longer, Sample(Slot(2, 0, 0), 7, 0, 0, 0, 7, Running, RequestSignal(2, 7, 0)),
            go, Sample(Slot(2, 0, 0), 7, 0, 0, 0, 7, Running, RequestReturned(true)));
    longer := longer + [go];
  }

  /** Thread 2 enters the handler and finds the slot. */
  lemma SampleEnters(from: System, evs: seq<Event>) returns (longer: seq<Event>)
    requires Run(from, evs) == Sample(Slot(2, 0, 0), 7, 0, 0, 0, 7, Running, RequestReturned(true))
    ensures Run(from, longer) == Sample(Slot(2, 0, 0), 7, 0, 1, 0, 7, Holding(7, 0, StorePc), RequestReturned(true))
    ensures OneCall(evs) ==> OneCall(longer)
  {
    var on := Advance(2, false);
    longer := evs;
    OneMore(from, longer, Sample(Slot(2, 0, 0), 7, 0, 0, 0, 7, Running, RequestReturned(true)),
            Deliver(2, 40), Sample(Slot(2, 0, 0), 7, 0, 0, 0, 7, Delivered(40), RequestReturned(true)));
    longer := longer + [Deliver(2, 40)];
    OneMore(from, longer, Sample(Slot(2, 0, 0), 7, 0, 0, 0, 7, Delivered(40), RequestReturned(true)),
            on, Sample(Slot(2, 0, 0), 7, 0, 1, 0, 7, Counted(40), RequestReturned(true)));
    longer := longer + [on];
    OneMore(from, longer, Sample(Slot(2, 0, 0), 7, 0, 1, 0, 7, Counted(40), RequestReturned(true)),
            on, Sample(Slot(2, 0, 0), 7, 0, 1, 0, 7, Loaded(7, 40), RequestReturned(true)));
    longer := longer + [on];
    OneMore(from, longer, Sample(Slot(2, 0, 0), 7, 0, 1, 0, 7, Loaded(7, 40), RequestReturned(true)),
            on, Sample(Slot(2, 0, 0), 7, 0, 1, 0, 7, Scanning(7, 0), RequestReturned(true)));
    longer := longer + [on];
    OneMore(from, longer, Sample(Slot(2, 0, 0), 7, 0, 1, 0, 7, Scanning(7, 0), RequestReturned(true)),
            on, Sample(Slot(2, 0, 0), 7, 0, 1, 0, 7, Holding(7, 0, StorePc), RequestReturned(true)));
    longer := longer + [on];
  }

  /** It publishes. */
  lemma SamplePublishes(from: System, evs: seq<Event>) returns (longer: seq<Event>)
    requires Run(from, evs) == Sample(Slot(2, 0, 0), 7, 0, 1, 0, 7, Holding(7, 0, StorePc), RequestReturned(true))
    ensures Run(from, longer) == Sample(Slot(2, 200, 7), 7, 0, 1, 1, 7, Holding(7, 0, WakeOwner), RequestReturned(true))
    ensures OneCall(evs) ==> OneCall(longer)
  {
    var on := Advance(2, false);
    longer := evs;
    OneMore(from, longer, Sample(Slot(2, 0, 0), 7, 0, 1, 0, 7, Holding(7, 0, StorePc), RequestReturned(true)),
            on, Sample(Slot(2, 200, 0), 7, 0, 1, 0, 7, Holding(7, 0, StoreEpoch), RequestReturned(true)));
    longer := longer + [on];
    OneMore(from, longer, Sample(Slot(2, 200, 0), 7, 0, 1, 0, 7, Holding(7, 0, StoreEpoch), RequestReturned(true)),
            on, Sample(Slot(2, 200, 7), 7, 0, 1, 0, 7, Holding(7, 0, BumpSequence), RequestReturned(true)));
    longer := longer + [on];
    OneMore(from, longer, Sample(Slot(2, 200, 7), 7, 0, 1, 0, 7, Holding(7, 0, BumpSequence), RequestReturned(true)),
            on, Sample(Slot(2, 200, 7), 7, 0, 1, 1, 7, Holding(7, 0, WakeOwner), RequestReturned(true)));
    longer := longer + [on];
  }

  /** It stops just before its futex re-read. */
  lemma SampleSettles(from: System, evs: seq<Event>) returns (longer: seq<Event>)
    requires Run(from, evs) == Sample(Slot(2, 200, 7), 7, 0, 1, 1, 7, Holding(7, 0, WakeOwner), RequestReturned(true))
    ensures Run(from, longer) == Sample(Slot(2, 200, 7), 7, 0, 1, 1, 7, Holding(7, 0, Reload), RequestReturned(true))
    ensures OneCall(evs) ==> OneCall(longer)
  {
    var on := Advance(2, false);
    longer := evs;
    OneMore(from, longer, Sample(Slot(2, 200, 7), 7, 0, 1, 1, 7, Holding(7, 0, WakeOwner), RequestReturned(true)),
            on, Sample(Slot(2, 200, 7), 7, 0, 1, 1, 7, Holding(7, 0, TestActive), RequestReturned(true)));
    longer := longer + [on];
    OneMore(from, longer, Sample(Slot(2, 200, 7), 7, 0, 1, 1, 7, Holding(7, 0, TestActive), RequestReturned(true)),
            on, Sample(Slot(2, 200, 7), 7, 0, 1, 1, 7, Holding(7, 0, TestRelease), RequestReturned(true)));
    longer := longer + [on];
    OneMore(from, longer, Sample(Slot(2, 200, 7), 7, 0, 1, 1, 7, Holding(7, 0, TestRelease), RequestReturned(true)),
            on, Sample(Slot(2, 200, 7), 7, 0, 1, 1, 7, Holding(7, 0, Reload), RequestReturned(true)));
    longer := longer + [on];
  }

  /** The owner waits and finds the published slot. */
  lemma SampleLooks(from: System, evs: seq<Event>) returns (longer: seq<Event>)
    requires Run(from, evs)
             == Sample(Slot(2, 200, 7), 7, 0, 1, 1, 7, Holding(7, 0, Reload), WaitLoadActive(7, [2], 0))
    ensures Run(from, longer)
            == Sample(Slot(2, 200, 7), 7, 0, 1, 1, 7, Holding(7, 0, Reload), WaitLoadPc(7, [2], 0, [], 0))
    ensures OneCall(evs) ==> OneCall(longer)
  {
    var go, slot, peer := OwnerStep(true), Slot(2, 200, 7), Holding(7, 0, Reload);
    longer := evs;
    OneMore(from, longer, Sample(slot, 7, 0, 1, 1, 7, peer, WaitLoadActive(7, [2], 0)),
            go, Sample(slot, 7, 0, 1, 1, 7, peer, WaitFind(7, [2], 0, [], 0)));
    longer := longer + [go];
    OneMore(from, longer, Sample(slot, 7, 0, 1, 1, 7, peer, WaitFind(7, [2], 0, [], 0)),
            go, Sample(slot, 7, 0, 1, 1, 7, peer, WaitLoadObserved(7, [2], 0, [], 0)));
    longer := longer + [go];
    OneMore(from, longer, Sample(slot, 7, 0, 1, 1, 7, peer, WaitLoadObserved(7, [2], 0, [], 0)),
            go, Sample(slot, 7, 0, 1, 1, 7, peer, WaitLoadPc(7, [2], 0, [], 0)));
    longer := longer + [go];
  }

  /** It takes the snapshot and returns it. */
  lemma SampleAwaits(from: System, evs: seq<Event>) returns (longer: seq<Event>)
    requires Run(from, evs)
             == Sample(Slot(2, 200, 7), 7, 0, 1, 1, 7, Holding(7, 0, Reload), WaitLoadPc(7, [2], 0, [], 0))
    ensures Run(from, longer) == Sample(Slot(2, 200, 7), 7, 0, 1, 1, 7, Holding(7, 0, Reload),
                                        WaitReturned(true, 7, [2], [Snapshot(2, 200, 7)]))
    ensures OneCall(evs) ==> OneCall(longer)
  {
    var go, slot, peer := OwnerStep(true), Slot(2, 200, 7), Holding(7, 0, Reload);
    var none: seq<Snapshot> := [];
    longer := evs;
    assert none + [Snapshot(2, 200, 7)] == [Snapshot(2, 200, 7)];
    OneMore(from, longer, Sample(slot, 7, 0, 1, 1, 7, peer, WaitLoadPc(7, [2], 0, none, 0)),
            go, Sample(slot, 7, 0, 1, 1, 7, peer, WaitFind(7, [2], 0, [Snapshot(2, 200, 7)], 0)));
    longer := longer + [go];
    OneMore(from, longer, Sample(slot, 7, 0, 1, 1, 7, peer, WaitFind(7, [2], 0, [Snapshot(2, 200, 7)], 0)),
            go, Sample(slot, 7, 0, 1, 1, 7, peer, WaitReturned(true, 7, [2], [Snapshot(2, 200, 7)])));
    longer := longer + [go];
  }

  /** The owner ends the epoch. */
  lemma SampleReleases(from: System, evs: seq<Event>) returns (longer: seq<Event>)
    requires Run(from, evs) == Sample(Slot(2, 200, 7), 7, 0, 1, 1, 7, Holding(7, 0, Reload), RequestReturned(true))
    ensures Run(from, longer) == Sample(Slot(2, 200, 7), 0, 7, 1, 1, 7, Holding(7, 0, Reload), ResumeWake(7, 0))
  {
    var go := OwnerStep(true);
    longer := evs;
    OneMore(from, longer, Sample(Slot(2, 200, 7), 7, 0, 1, 1, 7, Holding(7, 0, Reload), RequestReturned(true)),
            Begin(Resume(7, 0)), Sample(Slot(2, 200, 7), 7, 0, 1, 1, 7, Holding(7, 0, Reload), ResumeLoadActive(7, 0)));
    longer := longer + [Begin(Resume(7, 0))];
    OneMore(from, longer, Sample(Slot(2, 200, 7), 7, 0, 1, 1, 7, Holding(7, 0, Reload), ResumeLoadActive(7, 0)),
            go, Sample(Slot(2, 200, 7), 7, 0, 1, 1, 7, Holding(7, 0, Reload), ResumeStoreRelease(7, 0)));
    longer := longer + [go];
    OneMore(from, longer, Sample(Slot(2, 200, 7), 7, 0, 1, 1, 7, Holding(7, 0, Reload), ResumeStoreRelease(7, 0)),
            go, Sample(Slot(2, 200, 7), 7, 7, 1, 1, 7, Holding(7, 0, Reload), ResumeStoreActive(7, 0)));
    longer := longer + [go];
    OneMore(from, longer, Sample(Slot(2, 200, 7), 7, 7, 1, 1, 7, Holding(7, 0, Reload), ResumeStoreActive(7, 0)),
            go, Sample(Slot(2, 200, 7), 0, 7, 1, 1, 7, Holding(7, 0, Reload), ResumeWake(7, 0)));
    longer := longer + [go];
  }

  lemma NobodyToWake()
    ensures var threads := map[1 := Thread(100, Running), 2 := Thread(200, Holding(7, 0, Reload))];
            WakeAll(threads) == threads
  {
    var threads := map[1 := Thread(100, Running), 2 := Thread(200, Holding(7, 0, Reload))];
    assert WakeAll(threads).Keys == threads.Keys;
  }

  /** The owner wakes everyone, and nobody is asleep. */
  lemma SampleWakes(from: System, evs: seq<Event>) returns (longer: seq<Event>)
    requires Run(from, evs) == Sample(Slot(2, 200, 7), 0, 7, 1, 1, 7, Holding(7, 0, Reload), ResumeWake(7, 0))
    ensures Run(from, longer) == Sample(Slot(2, 200, 7), 0, 7, 1, 1, 7, Holding(7, 0, Reload), ResumeLoadCount(7, 0))
  {
    var go := OwnerStep(true);
    longer := evs;
    NobodyToWake();
    OneMore(from, longer, Sample(Slot(2, 200, 7), 0, 7, 1, 1, 7, Holding(7, 0, Reload), ResumeWake(7, 0)),
            go, Sample(Slot(2, 200, 7), 0, 7, 1, 1, 7, Holding(7, 0, Reload), ResumeLoadCount(7, 0)));
    longer := longer + [go];
  }

  /** Only now does thread 2 go to sleep, and the owner gives up. */
  lemma SampleMisses(from: System, evs: seq<Event>) returns (longer: seq<Event>)
    requires Run(from, evs) == Sample(Slot(2, 200, 7), 0, 7, 1, 1, 7, Holding(7, 0, Reload), ResumeLoadCount(7, 0))
    ensures Run(from, longer) == Sample(Slot(2, 200, 7), 0, 7, 1, 1, 7, Holding(7, 0, Asleep), ResumeReturned(false))
  {
    var go := OwnerStep(true);
    var on := Advance(2, false);
    longer := evs;
    OneMore(from, longer, Sample(Slot(2, 200, 7), 0, 7, 1, 1, 7, Holding(7, 0, Reload), ResumeLoadCount(7, 0)),
            on, Sample(Slot(2, 200, 7), 0, 7, 1, 1, 7, Holding(7, 0, Wait(7)), ResumeLoadCount(7, 0)));
    longer := longer + [on];
    OneMore(from, longer, Sample(Slot(2, 200, 7), 0, 7, 1, 1, 7, Holding(7, 0, Wait(7)), ResumeLoadCount(7, 0)),
            on, Sample(Slot(2, 200, 7), 0, 7, 1, 1, 7, Holding(7, 0, Asleep), ResumeLoadCount(7, 0)));
    longer := longer + [on];
    OneMore(from, longer, Sample(Slot(2, 200, 7), 0, 7, 1, 1, 7, Holding(7, 0, Asleep), ResumeLoadCount(7, 0)),
            go, Sample(Slot(2, 200, 7), 0, 7, 1, 1, 7, Holding(7, 0, Asleep), ResumeReturned(false)));
    longer := longer + [go];
  }

  /**
   One resume does not always wake every handler: in this reachable run the wake has
   been issued, the epoch is over, and thread 2 is asleep inside the handler.
   */
  lemma LostWake() returns (init: System, evs: seq<Event>)
    ensures Init(init)
    ensures Run(init, evs).owner == ResumeReturned(false)
    ensures Run(init, evs).active == 0 && Sleeping(Run(init, evs), 2)
  {
    init := Sample(BLANK, 0, 0, 0, 0, 0, Running, Idle);
    evs := [Begin(Request(2, 7))];
    assert Run(init, evs) == Run(Apply(init, evs[0]), []);
    evs := SampleClears(init, evs);
    evs := SampleOpens(init, evs);
    evs := SampleSearches(init, evs);
    evs := SampleReserves(init, evs);
    evs := SampleEnters(init, evs);
    evs := SamplePublishes(init, evs);
    evs := SampleSettles(init, evs);
    evs := SampleReleases(init, evs);
    evs := SampleWakes(init, evs);
    evs := SampleMisses(init, evs);
  }
}
