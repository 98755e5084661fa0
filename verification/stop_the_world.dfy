/**
 The coordinator over the Android signal backend: whenever the recorded answers are
 those of the parking step system, under any interleaving, a successful enter leaves
 every other thread held in the handler outside the patch range.
 */
module StopTheWorld {
  import opened QuiescenceBackends
  import opened SignalPark
  import opened SignalParkSafety
  import opened SignalParkTheorems
  import opened CoordinatorLaws
  import opened Coordinators
  import opened Sorting

  /**
   Every thread but the caller is held in the handler for epoch `e`, interrupted
   outside [lo, hi).
   */
  predicate WorldStopped(s: System, e: nat, lo: nat, hi: nat) {
    forall t | t in s.threads && t != s.caller ::
      OpenFor(s, e) && Held(s, t, e) && !(lo <= s.threads[t].pc < hi)
  }

  lemma StoppedUnderInterference(s: System, s': System, e: nat, lo: nat, hi: nat)
    requires WorldStopped(s, e, lo, hi) && Interference(s, s') && s'.threads.Keys == s.threads.Keys
    ensures WorldStopped(s', e, lo, hi)
  {
    forall t | t in s'.threads && t != s'.caller
      ensures OpenFor(s', e) && Held(s', t, e) && !(lo <= s'.threads[t].pc < hi)
    {
      assert t in s'.threads.Keys;
      assert Held(s, t, s.active);
    }
  }

  /** Only a running thread other than the caller can create a thread or exit. */
  lemma NobodyComesOrGoes(s: System, ev: Event)
    requires forall t | t in s.threads && t != s.caller :: !s.threads[t].phase.Running?
    requires !IsOwnerEvent(ev)
    ensures Apply(s, ev).threads.Keys == s.threads.Keys
  {
  }

  lemma StoppedStep(s: System, ev: Event, e: nat, lo: nat, hi: nat)
    requires Inv(s) && WorldStopped(s, e, lo, hi) && !IsOwnerEvent(ev)
    ensures Inv(Apply(s, ev)) && WorldStopped(Apply(s, ev), e, lo, hi)
    ensures Apply(s, ev).threads.Keys == s.threads.Keys
  {
    OthersKeepInv(s, ev);
    NobodyComesOrGoes(s, ev);
    StoppedUnderInterference(s, Apply(s, ev), e, lo, hi);
  }

  /**
   Once stopped, it stays stopped: whatever the other threads do, until the owner acts
   again no thread leaves the handler, appears, disappears or moves its PC.
   */
  lemma {:induction false} WorldStaysStopped(s: System, evs: seq<Event>, e: nat, lo: nat, hi: nat)
    requires Inv(s) && WorldStopped(s, e, lo, hi) && OthersOnly(evs)
    ensures WorldStopped(Run(s, evs), e, lo, hi) && Run(s, evs).threads.Keys == s.threads.Keys
    decreases |evs|
  {
    if evs != [] {
      StoppedStep(s, evs[0], e, lo, hi);
      assert forall i | 0 <= i < |evs[1..]| :: evs[1..][i] == evs[i + 1];
      WorldStaysStopped(Apply(s, evs[0]), evs[1..], e, lo, hi);
    }
  }

  // ---------------------------------------------------------------------------
  // Answers given by the step system
  // ---------------------------------------------------------------------------

  /** Some interleaving performs `call` from `s`, with the recorded answer, ending in `s'`. */
  ghost predicate Performs(s: System, call: BackendCall, s': System) {
    match call
    case Enumerated(ok, _, ids) =>
      exists evs :: OthersOnly(evs) && s' == Run(s, evs) && (ok ==> Elements(ids) == s'.threads.Keys)
    case Parked(t, e, ok) =>
      exists evs :: OneCall(evs) && s' == Run(s, [Begin(Request(t, e))] + evs) && s'.owner == RequestReturned(ok)
    case Waited(e, ids, ok, out) =>
      exists n, evs :: OneCall(evs) && s' == Run(s, [Begin(WaitFor(e, ids, n))] + evs) &&
        (if ok then s'.owner == WaitReturned(true, e, ids, out) else s'.owner.WaitReturned? && !s'.owner.ok)
    case Resumed(e, ok) =>
      exists n, evs :: OneCall(evs) && s' == Run(s, [Begin(Resume(e, n))] + evs) && s'.owner == ResumeReturned(ok)
  }

  /** The calls of `tr`, performed one after another from a freshly prepared runtime. */
  ghost predicate Realizes(tr: seq<BackendCall>, states: seq<System>) {
    && |states| == |tr| + 1 && Init(states[0])
    && forall i | 0 <= i < |tr| :: Performs(states[i], tr[i], states[i + 1])
  }

  lemma {:induction false} CallerKept(s: System, evs: seq<Event>)
    ensures Run(s, evs).caller == s.caller
    decreases |evs|
  {
    if evs != [] {
      CallerKept(Apply(s, evs[0]), evs[1..]);
    }
  }

  lemma PerformsKeepsInv(s: System, call: BackendCall, s': System)
    requires Inv(s) && Performs(s, call, s')
    ensures Inv(s') && s'.caller == s.caller
  {
    var evs :| s' == Run(s, evs);
    RunKeepsInv(s, evs);
    CallerKept(s, evs);
  }

  lemma {:induction false} RealizedInv(tr: seq<BackendCall>, states: seq<System>, i: nat)
    requires Realizes(tr, states) && i < |states|
    ensures Inv(states[i]) && states[i].caller == states[0].caller
  {
    if i == 0 {
      InitInv(states[0]);
    } else {
      RealizedInv(tr, states, i - 1);
      PerformsKeepsInv(states[i - 1], tr[i - 1], states[i]);
    }
  }

  /** Every listed thread is held in the handler, interrupted outside the target. */
  predicate PeersHeldOutside(s: System, c: Configuration, ids: seq<int>) {
    forall t | t in ids :: OpenFor(s, c.epoch) && Held(s, t, c.epoch) && !InTarget(c, s.threads[t].pc)
  }

  /** Accepted snapshots of a successful wait tell the truth about every peer. */
  lemma AcceptedSnapshotsAreTrue(s: System, c: Configuration, ids: seq<int>, out: seq<Snapshot>)
    requires Inv(s) && s.owner == WaitReturned(true, c.epoch, ids, out)
    requires SnapshotsMatch(c, ids, SortSnapshots(out))
    ensures PeersHeldOutside(s, c, ids)
  {
    var sorted := SortSnapshots(out);
    forall t | t in ids ensures OpenFor(s, c.epoch) && Held(s, t, c.epoch) && !InTarget(c, s.threads[t].pc) {
      var i :| 0 <= i < |ids| && ids[i] == t;
      assert SnapshotFits(c, ids[i], sorted[i]);
      assert sorted[i] in multiset(sorted);
      assert sorted[i] in out;
      var j :| 0 <= j < |out| && out[j] == sorted[i];
      assert SnapshotSound(s, out[j], ids[j], c.epoch);
    }
  }

  lemma {:induction false} PeersStayOutside(s: System, evs: seq<Event>, c: Configuration, ids: seq<int>)
    requires Inv(s) && PeersHeldOutside(s, c, ids) && OthersOnly(evs)
    ensures PeersHeldOutside(Run(s, evs), c, ids)
    decreases |evs|
  {
    if evs != [] {
      OthersKeepInv(s, evs[0]);
      var s' := Apply(s, evs[0]);
      forall t | t in ids
        ensures OpenFor(s', c.epoch) && Held(s', t, c.epoch) && !InTarget(c, s'.threads[t].pc)
      {
        assert Held(s, t, s.active);
      }
      assert forall i | 0 <= i < |evs[1..]| :: evs[1..][i] == evs[i + 1];
      PeersStayOutside(s', evs[1..], c, ids);
    }
  }

  /** A wait answered with acceptable snapshots. */
  lemma WaitHoldsPeers(s: System, s': System, c: Configuration, ids: seq<int>, out: seq<Snapshot>)
    requires Inv(s) && Performs(s, Waited(c.epoch, ids, true, out), s')
    requires SnapshotsMatch(c, ids, SortSnapshots(out))
    ensures Inv(s') && PeersHeldOutside(s', c, ids)
  {
    PerformsKeepsInv(s, Waited(c.epoch, ids, true, out), s');
    AcceptedSnapshotsAreTrue(s', c, ids, out);
  }

  /** An inventory of exactly the held peers and the caller. */
  lemma InventoryStopsWorld(s: System, s': System, c: Configuration, ids: seq<int>, count: nat, listed: seq<int>)
    requires Inv(s) && PeersHeldOutside(s, c, ids) && Performs(s, Enumerated(true, count, listed), s')
    requires Elements(listed) == Elements(ids) + {c.currentThreadId} && s.caller == c.currentThreadId
    ensures Inv(s') && s'.threads.Keys == Elements(ids) + {c.currentThreadId}
    ensures WorldStopped(s', c.epoch, c.targetAddress, c.targetAddress + c.targetSize)
  {
    PerformsKeepsInv(s, Enumerated(true, count, listed), s');
    var quiet :| OthersOnly(quiet) && s' == Run(s, quiet) && Elements(listed) == s'.threads.Keys;
    PeersStayOutside(s, quiet, c, ids);
    forall t | t in s'.threads && t != s'.caller ensures t in ids {
      assert t in s'.threads.Keys;
    }
  }

  /**
   The main theorem: after the calls of a successful enter, answered by the signal
   backend under any interleaving, and through anything the other threads then do,
   the process consists of the caller and the requested peers, and every peer sits in
   the handler with its true interrupted PC outside the patch range.
   */
  lemma EnterStopsTheWorld(tr: seq<BackendCall>, states: seq<System>, c: Configuration, ids: seq<int>, evs: seq<Event>)
    requires Realizes(tr, states) && states[0].caller == c.currentThreadId
    requires EndsQuiet(tr, c, ids)
    requires OthersOnly(evs)
    ensures var s := Run(states[|tr|], evs);
            && s.threads.Keys == Elements(ids) + {c.currentThreadId}
            && WorldStopped(s, c.epoch, c.targetAddress, c.targetAddress + c.targetSize)
  {
    var n := |tr|;
    var before, last := states[n - 1], tr[n - 1];
    RealizedInv(tr, states, n - 1);
    if ids != [] {
      var wait := tr[n - 2];
      assert tr[..n - 1][n - 2] == wait;
      RealizedInv(tr, states, n - 2);
      assert Performs(states[n - 2], tr[n - 2], states[n - 2 + 1]);
      WaitHoldsPeers(states[n - 2], before, c, ids, wait.out);
    }
    assert Performs(states[n - 1], tr[n - 1], states[n - 1 + 1]);
    InventoryStopsWorld(before, states[n], c, ids, last.count, last.ids);
    WorldStaysStopped(states[n], evs, c.epoch, c.targetAddress, c.targetAddress + c.targetSize);
  }

  /** A resume answered with success has drained the runtime. */
  lemma ResumeDrains(s: System, e: nat, s': System)
    requires Inv(s) && Performs(s, Resumed(e, true), s')
    ensures Drained(s')
  {
    PerformsKeepsInv(s, Resumed(e, true), s');
  }

  /** What the exclusive state of a coordinator means for the process, by its own recorded calls. */
  lemma ExclusiveMeansStopped(c: Coordinator, states: seq<System>, evs: seq<Event>)
    requires c.Valid() && c.state == Exclusive && Realizes(c.backend.trace, states)
    requires states[0].caller == c.configuration.currentThreadId && OthersOnly(evs)
    ensures var s := Run(states[|c.backend.trace|], evs);
            && s.threads.Keys == Elements(c.requested) + {c.configuration.currentThreadId}
            && WorldStopped(s, c.configuration.epoch, c.configuration.targetAddress,
                            c.configuration.targetAddress + c.configuration.targetSize)
  {
    EnterStopsTheWorld(c.backend.trace, states, c.configuration, c.requested, evs);
  }

  // ---------------------------------------------------------------------------
  // A run that meets the assumptions, with one peer parked
  // ---------------------------------------------------------------------------

  const LISTED := Enumerated(true, 2, [1, 2])
  const PARKED := Parked(2, 7, true)
  const WAITED := Waited(7, [2], true, [Snapshot(2, 200, 7)])

  function SampleParked(owner: Owner): System {
    Sample(Slot(2, 200, 7), 7, 0, 1, 1, 7, Holding(7, 0, Reload), owner)
  }

  lemma SampleEnumerates(s: System)
    requires s.threads.Keys == {1, 2}
    ensures Performs(s, Enumerated(true, 2, [1, 2]), s)
  {
    assert OthersOnly([]) && Run(s, []) == s;
    assert Elements([1, 2]) == {1, 2};
  }

  lemma FirstThenRest(s: System, call: Call, evs: seq<Event>)
    ensures Run(s, [Begin(call)] + evs) == Run(Apply(s, Begin(call)), evs)
  {
    assert ([Begin(call)] + evs)[1..] == evs;
  }

  lemma SampleParks(s: System)
    requires s == Sample(BLANK, 0, 0, 0, 0, 0, Running, Idle)
    ensures Performs(s, Parked(2, 7, true), SampleParked(RequestReturned(true)))
  {
    var begun := Apply(s, Begin(Request(2, 7)));
    var evs := SampleClears(begun, []);
    evs := SampleOpens(begun, evs);
    evs := SampleSearches(begun, evs);
    evs := SampleReserves(begun, evs);
    evs := SampleEnters(begun, evs);
    evs := SamplePublishes(begun, evs);
    evs := SampleSettles(begun, evs);
    FirstThenRest(s, Request(2, 7), evs);
  }

  lemma SampleWaits(s: System)
    requires s == SampleParked(RequestReturned(true))
    ensures Performs(s, Waited(7, [2], true, [Snapshot(2, 200, 7)]),
                     SampleParked(WaitReturned(true, 7, [2], [Snapshot(2, 200, 7)])))
  {
    var begun := Apply(s, Begin(WaitFor(7, [2], 0)));
    var evs := SampleLooks(begun, []);
    evs := SampleAwaits(begun, evs);
    FirstThenRest(s, WaitFor(7, [2], 0), evs);
  }

  /** One call more. */
  lemma RealizesMore(tr: seq<BackendCall>, states: seq<System>, call: BackendCall, s': System)
    requires Realizes(tr, states) && Performs(states[|tr|], call, s')
    ensures Realizes(tr + [call], states + [s'])
  {
    var tr', states' := tr + [call], states + [s'];
    forall i | 0 <= i < |tr'| ensures Performs(states'[i], tr'[i], states'[i + 1]) {
      if i < |tr| {
        assert Performs(states[i], tr[i], states[i + 1]);
      }
    }
  }

  lemma SampleListed(s0: System)
    requires s0 == Sample(BLANK, 0, 0, 0, 0, 0, Running, Idle)
    ensures Realizes([LISTED], [s0, s0])
  {
    SampleEnumerates(s0);
    RealizesMore([], [s0], LISTED, s0);
    assert [] + [LISTED] == [LISTED] && [s0] + [s0] == [s0, s0];
  }

  lemma SampleRequested(s0: System, s1: System)
    requires s0 == Sample(BLANK, 0, 0, 0, 0, 0, Running, Idle) && s1 == SampleParked(RequestReturned(true))
    ensures Realizes([LISTED, PARKED], [s0, s0, s1])
  {
    SampleListed(s0);
    SampleParks(s0);
    RealizesMore([LISTED], [s0, s0], PARKED, s1);
    assert [LISTED] + [PARKED] == [LISTED, PARKED] && [s0, s0] + [s1] == [s0, s0, s1];
  }

  lemma SampleAwaited(s0: System, s1: System, s2: System)
    requires s0 == Sample(BLANK, 0, 0, 0, 0, 0, Running, Idle) && s1 == SampleParked(RequestReturned(true))
    requires s2 == SampleParked(WaitReturned(true, 7, [2], [Snapshot(2, 200, 7)]))
    ensures Realizes([LISTED, PARKED, WAITED], [s0, s0, s1, s2])
  {
    SampleRequested(s0, s1);
    SampleWaits(s1);
    RealizesMore([LISTED, PARKED], [s0, s0, s1], WAITED, s2);
    assert [LISTED, PARKED] + [WAITED] == [LISTED, PARKED, WAITED] && [s0, s0, s1] + [s2] == [s0, s0, s1, s2];
  }

  lemma SampleRealizes(s0: System, s1: System, s2: System)
    requires s0 == Sample(BLANK, 0, 0, 0, 0, 0, Running, Idle) && s1 == SampleParked(RequestReturned(true))
    requires s2 == SampleParked(WaitReturned(true, 7, [2], [Snapshot(2, 200, 7)]))
    ensures Realizes([LISTED, PARKED, WAITED, LISTED], [s0, s0, s1, s2, s2])
  {
    SampleAwaited(s0, s1, s2);
    SampleEnumerates(s2);
    RealizesMore([LISTED, PARKED, WAITED], [s0, s0, s1, s2], LISTED, s2);
    assert [LISTED, PARKED, WAITED] + [LISTED] == [LISTED, PARKED, WAITED, LISTED];
    assert [s0, s0, s1, s2] + [s2] == [s0, s0, s1, s2, s2];
  }

  /** The assumptions of the main theorem hold of a run that parks thread 2 at PC 200. */
  lemma StoppedRun() returns (tr: seq<BackendCall>, states: seq<System>, c: Configuration)
    ensures Realizes(tr, states) && states[0].caller == c.currentThreadId
    ensures ValidConfiguration(c) && EndsQuiet(tr, c, [2])
  {
    var s0 := Sample(BLANK, 0, 0, 0, 0, 0, Running, Idle);
    var s1 := SampleParked(RequestReturned(true));
    var s2 := SampleParked(WaitReturned(true, 7, [2], [Snapshot(2, 200, 7)]));
    c := Configuration(0x1000, 16, 1, 7, 8, 4, 100);
    tr, states := [LISTED, PARKED, WAITED, LISTED], [s0, s0, s1, s2, s2];
    SampleRealizes(s0, s1, s2);
    SampleEndsQuiet(c);
  }

  lemma SampleEndsQuiet(c: Configuration)
    requires c == Configuration(0x1000, 16, 1, 7, 8, 4, 100)
    ensures EndsQuiet([LISTED, PARKED, WAITED, LISTED], c, [2])
  {
    var tr := [LISTED, PARKED, WAITED, LISTED];
    var out := [Snapshot(2, 200, 7)];
    var sorted := SortSnapshots(out);
    assert sorted[0] in multiset(sorted);
    assert sorted == out;
    assert Elements([1, 2]) == Elements([2]) + {1};
    assert tr[..3] == [LISTED, PARKED, WAITED];
  }
}
