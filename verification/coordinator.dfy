/**
 ThreadQuiescenceCoordinator: parks every peer thread, re-enumerates until the
 thread set is stable, and refuses any peer interrupted inside the patch range.
 */
module Coordinators {
  import opened QuiescenceBackends
  import opened CoordinatorLaws
  import opened Sorting

  // ---------------------------------------------------------------------------
  // Set arithmetic behind the pass loop
  // ---------------------------------------------------------------------------

  lemma InsertSorted(s: seq<int>, x: int)
    requires StrictlySorted(s) && x !in s
    ensures StrictlySorted(SortIds(s + [x])) && Elements(SortIds(s + [x])) == Elements(s) + {x}
  {
    var r := SortIds(s + [x]);
    assert NoDuplicates(s + [x]);
    DistinctIsPermutationInvariant(s + [x], r);
    StrictIsDistinct(r);
    assert Elements(s + [x]) == Elements(s) + {x};
  }

  lemma SubsetSize(a: set<int>, b: set<int>)
    requires a <= b
    ensures |a| <= |b| && (a < b ==> |a| < |b|)
  {
    assert b == a + (b - a);
    assert a < b ==> b - a != {};
  }

  /** An inventory that lists an unrequested peer leaves room in the request buffer. */
  lemma RoomForOneMore(inv: seq<int>, requested: seq<int>, current: int)
    requires StrictlySorted(inv) && StrictlySorted(requested) && current !in requested && current in inv
    requires Elements(requested) <= Elements(inv) && Elements(inv) != Elements(requested) + {current}
    ensures |requested| + 2 <= |inv|
  {
    DistinctSize(inv);
    DistinctSize(requested);
    assert current !in Elements(requested);
    SubsetSize(Elements(requested) + {current}, Elements(inv));
  }

  /** The inventory lists a peer that has not been requested. */
  predicate ListsNewPeer(inv: seq<int>, requested: seq<int>, current: int) {
    exists id | id in inv :: id != current && id !in requested
  }

  lemma NewPeerIsNoMatch(inv: seq<int>, requested: seq<int>, current: int)
    requires current in inv && Elements(requested) <= Elements(inv)
    ensures ListsNewPeer(inv, requested, current) <==> Elements(inv) != Elements(requested) + {current}
  {
    if ListsNewPeer(inv, requested, current) {
      var id :| id in inv && id != current && id !in requested;
      assert id in Elements(inv) && id !in Elements(requested) + {current};
    } else {
      forall id | id in Elements(inv) ensures id in Elements(requested) + {current} {
        assert id in inv;
      }
    }
  }

  /** A pass over an inventory requests more threads exactly when it lists an unrequested peer. */
  lemma GrowthIsStrict(before: seq<int>, after: seq<int>, inv: seq<int>, current: int)
    requires StrictlySorted(before) && StrictlySorted(after) && current !in before && current in inv
    requires Elements(before) <= Elements(inv) && Elements(after) == Elements(inv) - {current}
    ensures Elements(before) <= Elements(after) && |before| <= |after|
    ensures Elements(before) < Elements(after) <==> ListsNewPeer(inv, before, current)
    ensures |before| < |after| <==> ListsNewPeer(inv, before, current)
  {
    assert current !in Elements(before);
    NewPeerIsNoMatch(inv, before, current);
    DistinctSize(before);
    DistinctSize(after);
    SubsetSize(Elements(before), Elements(after));
  }

  // ---------------------------------------------------------------------------
  // Parked snapshots
  // ---------------------------------------------------------------------------

  /** What the coordinator demands of the snapshot in position `i`. */
  predicate SnapshotFits(c: Configuration, id: int, p: Snapshot) {
    p.threadId == id && p.epoch == c.epoch && p.pc != 0 && p.pc % 4 == 0 && !InTarget(c, p.pc)
  }

  /** One snapshot per thread, in thread order. */
  predicate SnapshotsMatch(c: Configuration, ids: seq<int>, parked: seq<Snapshot>) {
    |ids| == |parked| && forall i | 0 <= i < |ids| :: SnapshotFits(c, ids[i], parked[i])
  }

  function SortSnapshots(s: seq<Snapshot>): (r: seq<Snapshot>)
    ensures |r| == |s| && multiset(r) == multiset(s)
  {
    SortBy((p: Snapshot) => p.threadId, s)
  }

  /** The index of the first snapshot the coordinator rejects. */
  method FirstBadSnapshot(c: Configuration, ids: seq<int>, parked: seq<Snapshot>) returns (bad: nat)
    requires |ids| == |parked|
    ensures bad <= |ids|
    ensures bad == |ids| <==> SnapshotsMatch(c, ids, parked)
    ensures forall i | 0 <= i < bad :: SnapshotFits(c, ids[i], parked[i])
    ensures bad < |ids| ==> !SnapshotFits(c, ids[bad], parked[bad])
  {
    bad := 0;
    while bad < |ids| && SnapshotFits(c, ids[bad], parked[bad])
      invariant bad <= |ids|
      invariant forall i | 0 <= i < bad :: SnapshotFits(c, ids[i], parked[i])
    {
      bad := bad + 1;
    }
  }

  // ---------------------------------------------------------------------------
  // The calls that end a successful enter
  // ---------------------------------------------------------------------------

  /** The last call was a wait for exactly `ids`, answered with acceptable snapshots. */
  predicate EndsWithWait(tr: seq<BackendCall>, c: Configuration, ids: seq<int>) {
    && |tr| > 0
    && var last := tr[|tr| - 1];
       && last.Waited? && last.ok && last.epoch == c.epoch && last.ids == ids
       && SnapshotsMatch(c, ids, SortSnapshots(last.out))
  }

  /** Such a wait (unless there was no peer), then an inventory of exactly the peers and the caller. */
  predicate EndsQuiet(tr: seq<BackendCall>, c: Configuration, ids: seq<int>) {
    && |tr| > 0
    && var last := tr[|tr| - 1];
       && last.Enumerated? && last.ok
       && Elements(last.ids) == Elements(ids) + {c.currentThreadId}
       && (ids != [] ==> EndsWithWait(tr[..|tr| - 1], c, ids))
  }

  /** Positive IDs, no two the same. */
  predicate PositiveOnce(ids: seq<int>) {
    ids == [] || (ids[0] > 0 && ids[0] !in ids[1..] && PositiveOnce(ids[1..]))
  }

  lemma {:induction false} OnceIsDistinct(ids: seq<int>)
    requires PositiveOnce(ids)
    ensures NoDuplicates(ids) && forall x | x in ids :: x > 0
  {
    if ids != [] {
      var rest := ids[1..];
      OnceIsDistinct(rest);
      assert ids == [ids[0]] + rest;
      forall i, j | 0 <= i < j < |ids| ensures ids[i] != ids[j] {
        assert ids[j] == rest[j - 1] && (i > 0 ==> ids[i] == rest[i - 1]);
      }
    }
  }

  lemma {:induction false} DistinctIsOnce(ids: seq<int>)
    requires NoDuplicates(ids) && forall x | x in ids :: x > 0
    ensures PositiveOnce(ids)
  {
    if ids != [] {
      var rest := ids[1..];
      assert forall i | 0 <= i < |rest| :: rest[i] == ids[i + 1];
      assert ids[0] in ids && forall x | x in rest :: x in ids;
      DistinctIsOnce(rest);
    }
  }

  lemma PositiveOnceIs(ids: seq<int>)
    ensures PositiveOnce(ids) <==> NoDuplicates(ids) && forall x | x in ids :: x > 0
  {
    if PositiveOnce(ids) {
      OnceIsDistinct(ids);
    }
    if NoDuplicates(ids) && forall x | x in ids :: x > 0 {
      DistinctIsOnce(ids);
    }
  }

  /** Positive distinct IDs, among them the caller's. */
  predicate Listable(ids: seq<int>, current: int) {
    current in ids && PositiveOnce(ids)
  }

  /** What an enumeration leads to. */
  function ListingStatus(call: BackendCall, c: Configuration): Status
    requires call.Enumerated?
  {
    if !call.ok then (if call.count > c.maximumThreads then ThreadCapacityExceeded else EnumerationFailed)
    else if Listable(call.ids, c.currentThreadId) then Ok
    else ThreadInventoryInvalid
  }

  datatype Verdict = Aborted | Stable | Grew

  class Coordinator {
    const configuration: Configuration
    const backend: QuiescenceBackend
    var inventory: seq<int>
    var finalInventory: seq<int>
    var requested: seq<int>
    var parked: seq<Snapshot>
    var parkedThreadCount: nat
    var parkAttempted: bool
    var state: State

    predicate TableComplete() {
      backend.hasEnumerate && backend.hasRequest && backend.hasWait && backend.hasResume
    }

    /** The account of all calls made so far. */
    ghost function Calls(): Ledger
      reads this, backend
    {
      Tally(backend.trace, configuration)
    }

    /** Established by prepare and kept by enter until it returns. */
    ghost predicate Buffers()
      reads this
    {
      && TableComplete() && ValidConfiguration(configuration)
      && |inventory| == |finalInventory| == |parked| == configuration.maximumThreads
    }

    /** Parking has begun or may begin; nothing has been resumed. */
    ghost predicate Unresumed()
      reads this, backend
    {
      && TableComplete() && Calls().lawful && Calls().resumes == 0 && !Calls().resumed
      && (parkAttempted <==> Calls().parks != {})
    }

    /** The guarantee of the exclusive state. */
    ghost predicate ExclusiveHolds()
      reads this, backend
    {
      && Unresumed()
      && StrictlySorted(requested) && configuration.currentThreadId !in requested
      && Calls().parks == Elements(requested)
      && parkedThreadCount == |requested| <= |parked|
      && SnapshotsMatch(configuration, requested, parked[..parkedThreadCount])
      && EndsQuiet(backend.trace, configuration, requested)
    }

    ghost predicate Valid()
      reads this, backend
    {
      && Calls().lawful && Calls().resumes <= 1
      && (parkAttempted ==> Calls().parks != {} && !Calls().resumed && backend.hasResume)
      && (Calls().parks != {} && !parkAttempted ==> Calls().resumes == 1)
      && (state == Empty || state == Prepared ==> !parkAttempted && Calls() == NOTHING)
      && (state == Prepared ==> Buffers())
      && (state == Exclusive ==> ExclusiveHolds())
    }

    constructor (configuration: Configuration, backend: QuiescenceBackend)
      requires backend.trace == []
      ensures Valid() && state == Empty
      ensures this.configuration == configuration && this.backend == backend
    {
      this.configuration := configuration;
      this.backend := backend;
      inventory, finalInventory, requested, parked := [], [], [], [];
      parkedThreadCount, parkAttempted, state := 0, false, Empty;
    }

    function Result(status: Status): Outcome
      reads this
    {
      Outcome(status, state, parkedThreadCount, -1, 0)
    }

    /** prepare: checks the configuration and the table, then one read-only enumeration. */
    method Prepare() returns (r: Outcome)
      requires Valid()
      modifies this, backend
      ensures Valid() && r.state == state
      ensures old(state) != Empty ==> r.status == InvalidState && unchanged(this) && unchanged(backend)
      ensures old(state) == Empty ==> (r.status == Ok && state == Prepared) || (r.status != Ok && state == Failed)
      ensures old(state) == Empty && !ValidConfiguration(configuration) ==> r.status == InvalidConfiguration
      ensures old(state) == Empty && ValidConfiguration(configuration) && !TableComplete() ==>
                r.status == InvalidBackend
      ensures old(state) == Empty && ValidConfiguration(configuration) && TableComplete() ==>
                && |backend.trace| == |old(backend.trace)| + 1 && old(backend.trace) <= backend.trace
                && var call := backend.trace[|old(backend.trace)|];
                   call.Enumerated? && r.status == ListingStatus(call, configuration)
    {
      if state != Empty {
        return Result(InvalidState);
      }
      state := Failed;
      if !ValidConfiguration(configuration) {
        return Result(InvalidConfiguration);
      }
      if !TableComplete() {
        return Result(InvalidBackend);
      }
      var status := SetUp();
      if status == Ok {
        state := Prepared;
      }
      r := Result(status);
    }

    /** The buffers, and the first enumeration. */
    method SetUp() returns (status: Status)
      modifies this`inventory, this`finalInventory, this`parked, this`requested, backend
      ensures Calls() == old(Calls()) && requested == []
      ensures |inventory| == |finalInventory| == |parked| == configuration.maximumThreads
      ensures |backend.trace| == |old(backend.trace)| + 1 && old(backend.trace) <= backend.trace
      ensures var call := backend.trace[|old(backend.trace)|];
              call.Enumerated? && status == ListingStatus(call, configuration)
    {
      finalInventory := seq(configuration.maximumThreads, _ => 0);
      parked := seq(configuration.maximumThreads, _ => Snapshot(-1, 0, 0));
      requested := [];
      var count;
      ghost var call;
      status, inventory, count, call := ListThreads();
      assert backend.trace[|old(backend.trace)|] == call;
    }

    /** readInventory followed by validInventory. */
    method ListThreads() returns (status: Status, ids: seq<int>, count: nat, ghost call: BackendCall)
      modifies backend
      ensures Calls() == old(Calls()) && |ids| == configuration.maximumThreads && call.Enumerated?
      ensures status == ListingStatus(call, configuration)
      ensures status == Ok ==>
                && count <= |ids| && StrictlySorted(ids[..count])
                && configuration.currentThreadId in ids[..count]
      ensures backend.trace == old(backend.trace) + [call]
      ensures status == Ok ==> call.ok && Elements(call.ids) == Elements(ids[..count])
    {
      var ok;
      ok, ids, count := backend.EnumerateThreads(configuration.maximumThreads);
      call := Enumerated(ok, count, if count <= |ids| then ids[..count] else []);
      TallyAppend(old(backend.trace), call, configuration);
      if !ok {
        status := if count > configuration.maximumThreads then ThreadCapacityExceeded else EnumerationFailed;
        return;
      }
      PositiveOnceIs(call.ids);
      ok, ids := ValidInventory(ids, count, configuration.currentThreadId);
      if !ok {
        status := ThreadInventoryInvalid;
        return;
      }
      status := Ok;
      assert configuration.currentThreadId in Elements(ids[..count]);
    }

    /** abortEnter: resumes whatever may have been parked, then fails. */
    method AbortEnter(status: Status) returns (r: Outcome)
      requires Unresumed() && status != Ok && status != ResumeFailed
      modifies this`state, this`parkAttempted, backend
      ensures Valid() && state == Failed && r.state == Failed
      ensures r.status == if parkAttempted then ResumeFailed else status
    {
      if parkAttempted {
        ghost var before := backend.trace;
        var ok := backend.ResumeParkedThreads(configuration.epoch);
        TallyAppend(before, Resumed(configuration.epoch, ok), configuration);
        if !ok {
          state := Failed;
          return Result(ResumeFailed);
        }
        parkAttempted := false;
      }
      state := Failed;
      r := Result(status);
    }

    /** A failed enter: everything that may have been parked has been offered a resume. */
    ghost predicate GaveUp(r: Outcome)
      reads this, backend
    {
      Valid() && state == Failed && r.state == Failed && r.status != Ok && r.status != InvalidState
    }

    /** Inside enter: the parked threads are exactly the requested ones. */
    ghost predicate Entering()
      reads this, backend
    {
      && Unresumed() && Buffers() && state == Prepared
      && StrictlySorted(requested) && configuration.currentThreadId !in requested
      && |requested| < configuration.maximumThreads
      && Calls().parks == Elements(requested)
    }

    /** One park request; the thread is neither the caller nor already requested. */
    method ParkOne(threadId: int) returns (ok: bool, r: Outcome)
      requires Entering() && threadId != configuration.currentThreadId && threadId !in requested
      requires |requested| + 1 < configuration.maximumThreads
      modifies this`requested, this`parkAttempted, this`state, backend
      ensures ok ==>
                && Entering() && Elements(requested) == Elements(old(requested)) + {threadId}
                && Calls().waited == old(Calls()).waited
      ensures !ok ==> GaveUp(r)
    {
      ghost var before := backend.trace;
      parkAttempted := true;
      r := Result(Ok);
      ok := backend.RequestThreadPark(threadId, configuration.epoch);
      TallyAppend(before, Parked(threadId, configuration.epoch, ok), configuration);
      assert threadId !in Elements(requested);
      if !ok {
        r := AbortEnter(ParkRequestFailed);
        return;
      }
      Remember(threadId);
    }

    /** Adds a thread to the sorted request list. */
    method Remember(threadId: int)
      requires StrictlySorted(requested) && threadId !in requested
      modifies this`requested
      ensures StrictlySorted(requested) && |requested| == |old(requested)| + 1
      ensures Elements(requested) == Elements(old(requested)) + {threadId}
      ensures forall x :: x in requested <==> x == threadId || x in old(requested)
    {
      InsertSorted(requested, threadId);
      requested := SortIds(requested + [threadId]);
      assert forall x :: x in requested <==> x in Elements(requested);
    }

    /**
     The request loop of one pass. Every thread of the inventory but the caller ends
     up requested, and the buffer for them is never full.
     */
    method RequestPeers(count: nat) returns (ok: bool, r: Outcome)
      requires Entering() && count <= |inventory| && StrictlySorted(inventory[..count])
      requires configuration.currentThreadId in inventory[..count]
      requires Elements(requested) <= Elements(inventory[..count])
      modifies this`requested, this`parkAttempted, this`state, backend
      ensures ok ==>
                && Entering() && Calls().waited == old(Calls()).waited
                && Elements(requested) == Elements(inventory[..count]) - {configuration.currentThreadId}
      ensures !ok ==> GaveUp(r)
    {
      ok, r := true, Result(Ok);
      var index := 0;
      while index < count
        invariant 0 <= index <= count && ok && Entering()
        invariant Elements(requested) <= Elements(inventory[..count])
        invariant Elements(inventory[..index]) - {configuration.currentThreadId} <= Elements(requested)
        invariant Calls().waited == old(Calls()).waited
      {
        var threadId := inventory[index];
        assert inventory[..index + 1] == inventory[..index] + [threadId];
        if threadId != configuration.currentThreadId && !BinarySearch(requested, threadId) {
          assert threadId in Elements(inventory[..count]) && threadId !in Elements(requested);
          RoomForOneMore(inventory[..count], requested, configuration.currentThreadId);
          if |requested| == configuration.maximumThreads {
            assert false;
          }
          ok, r := ParkOne(threadId);
          if !ok {
            return;
          }
        }
        index := index + 1;
      }
    }

    /** The wait of one pass, skipped when no peer was requested. */
    method AwaitParked() returns (ok: bool, r: Outcome)
      requires Entering() && (requested == [] || Calls().waited < Elements(requested))
      modifies this`parked, this`parkedThreadCount, this`parkAttempted, this`state, backend
      ensures ok ==>
                && Entering() && parkedThreadCount == |requested|
                && Calls().waited == (if requested == [] then old(Calls()).waited else Elements(requested))
                && (requested != [] ==>
                      backend.trace == old(backend.trace)
                        + [Waited(configuration.epoch, requested, true, parked[..parkedThreadCount])])
      ensures !ok ==> GaveUp(r)
    {
      ok, r := true, Result(Ok);
      parkedThreadCount := 0;
      var status := ParkWaitFailed;
      if |requested| != 0 {
        ghost var before := backend.trace;
        ok, parked, parkedThreadCount :=
          backend.WaitForParkedThreads(configuration.epoch, requested, configuration.maximumThreads);
        ghost var call := Waited(configuration.epoch, requested, ok,
                                 if parkedThreadCount <= |parked| then parked[..parkedThreadCount] else []);
        TallyAppend(before, call, configuration);
      }
      if ok && parkedThreadCount != |requested| {
        ok, status := false, ParkedInventoryMismatch;
      }
      if !ok {
        r := AbortEnter(status);
      }
    }

    /**
     Orders the snapshots and accepts them only when they are the requested threads,
     one to one, at usable PCs outside the target.
     */
    method CheckSnapshots() returns (ok: bool, r: Outcome)
      requires Entering() && parkedThreadCount == |requested|
      modifies this`parked, this`parkAttempted, this`state, backend
      ensures ok ==>
                && Entering() && backend.trace == old(backend.trace)
                && parked[..parkedThreadCount] == SortSnapshots(old(parked)[..parkedThreadCount])
                && SnapshotsMatch(configuration, requested, parked[..parkedThreadCount])
      ensures !ok ==> GaveUp(r)
      ensures !ok && r.status == ThreadInTargetRange ==> InTarget(configuration, r.unsafePc)
    {
      ok, r := true, Result(Ok);
      var n := parkedThreadCount;
      var sorted := SortSnapshots(parked[..n]);
      parked := sorted + parked[n..];
      assert parked[..n] == sorted;
      var bad := FirstBadSnapshot(configuration, requested, sorted);
      if bad < n {
        ok := false;
        var p := sorted[bad];
        var mismatch := p.threadId != requested[bad] || p.epoch != configuration.epoch;
        r := AbortEnter(if mismatch then ParkedInventoryMismatch
                        else if p.pc == 0 || p.pc % 4 != 0 then ParkedProgramCounterInvalid
                        else ThreadInTargetRange);
        if !mismatch {
          r := r.(unsafeThreadId := p.threadId, unsafePc := p.pc);
        }
      }
    }

    /** Compares a sorted final inventory with the requested threads. */
    method CompareInventory(final: seq<int>) returns (status: Status, exact: bool)
      requires StrictlySorted(final) && StrictlySorted(requested) && configuration.currentThreadId !in requested
      ensures status == if Elements(requested) <= Elements(final) then Ok else ThreadInventoryChanged
      ensures exact <==> Elements(final) == Elements(requested) + {configuration.currentThreadId}
    {
      exact := FinalInventoryIsExact(final, requested, configuration.currentThreadId);
      var all := FinalInventoryContainsEveryRequested(final, requested);
      status := if all then Ok else ThreadInventoryChanged;
    }

    /** The re-enumeration of one pass, with the peers parked. */
    method ConfirmInventory() returns (verdict: Verdict, count: nat, r: Outcome)
      requires Entering() && (requested != [] ==> EndsWithWait(backend.trace, configuration, requested))
      requires parkedThreadCount == |requested| && SnapshotsMatch(configuration, requested, parked[..parkedThreadCount])
      modifies this`finalInventory, this`parkAttempted, this`state, backend
      ensures verdict == Stable ==> Valid() && state == Exclusive && r.state == Exclusive && r.status == Ok
      ensures verdict == Grew ==> NewPeerListed(count) && Calls() == old(Calls())
      ensures verdict == Aborted ==> GaveUp(r)
    {
      verdict, r := Aborted, Result(Ok);
      var status, exact := Ok, false;
      ghost var call;
      status, finalInventory, count, call := ListThreads();
      assert backend.trace[..|backend.trace| - 1] == old(backend.trace);
      if status == Ok {
        status, exact := CompareInventory(finalInventory[..count]);
      }
      if status != Ok {
        r := AbortEnter(status);
        return;
      }
      verdict := if exact then Stable else Grew;
      if exact {
        state := Exclusive;
        r := Result(Ok);
      }
    }

    /** The final inventory lists every requested thread, the caller and someone else. */
    ghost predicate NewPeerListed(count: nat)
      reads this, backend
    {
      && Entering() && count <= |finalInventory| && StrictlySorted(finalInventory[..count])
      && configuration.currentThreadId in finalInventory[..count]
      && Elements(requested) <= Elements(finalInventory[..count])
      && Elements(finalInventory[..count]) != Elements(requested) + {configuration.currentThreadId}
    }

    /** What the pass loop keeps. */
    ghost predicate PassInv(pass: nat, count: nat)
      reads this, backend
    {
      && Entering() && count <= |inventory| && StrictlySorted(inventory[..count])
      && configuration.currentThreadId in inventory[..count]
      && Elements(requested) <= Elements(inventory[..count])
      && Calls().waited <= Elements(requested)
      && pass < configuration.maximumStabilizationPasses
      && pass <= |requested| + 1
      && (pass == 0 ==> requested == [] && Calls().waited == {})
      && (pass > 0 ==> Elements(inventory[..count]) != Elements(requested) + {configuration.currentThreadId})
    }

    /** Requests every unrequested peer, waits for all of them and checks where they are. */
    method ParkPeers(pass: nat, count: nat) returns (ok: bool, r: Outcome)
      requires PassInv(pass, count)
      modifies this, backend
      ensures ok ==>
                && Entering() && Calls().waited <= Elements(requested) && parkedThreadCount == |requested|
                && |requested| >= |old(requested)| && (pass > 0 ==> |requested| > |old(requested)|)
                && (requested != [] ==> EndsWithWait(backend.trace, configuration, requested))
                && SnapshotsMatch(configuration, requested, parked[..parkedThreadCount])
      ensures !ok ==> GaveUp(r)
    {
      ghost var before := requested;
      ok, r := RequestPeers(count);
      if !ok {
        return;
      }
      GrowthIsStrict(before, requested, inventory[..count], configuration.currentThreadId);
      NewPeerIsNoMatch(inventory[..count], before, configuration.currentThreadId);
      assert requested != [] ==> requested[0] in Elements(requested);
      ok, r := AwaitParked();
      if !ok {
        return;
      }
      ok, r := CheckSnapshots();
    }

    /**
     enter. Success means every peer is parked, one snapshot per peer, at a PC outside
     the target, and the last inventory lists exactly those peers and the caller.
     */
    method Enter() returns (r: Outcome, ghost passes: nat)
      requires Valid()
      modifies this, backend
      ensures Valid() && r.state == state
      ensures old(state) != Prepared ==> r.status == InvalidState && unchanged(this) && unchanged(backend)
      ensures old(state) == Prepared ==> (r.status == Ok && state == Exclusive) || GaveUp(r)
      ensures passes <= configuration.maximumThreads
    {
      passes := 0;
      if state != Prepared {
        return Result(InvalidState), 0;
      }
      requested := [];
      parkedThreadCount := 0;
      var ok, count;
      ok, count, r := BeginEnter();
      if !ok {
        return;
      }
      var pass := 0;
      while pass < configuration.maximumStabilizationPasses
        invariant PassInv(pass, count) && passes == pass
        decreases configuration.maximumThreads + 1 - (if pass == 0 then 0 else 1 + |requested|)
      {
        if pass > 0 {
          RoomForOneMore(inventory[..count], requested, configuration.currentThreadId);
        }
        passes := pass + 1;
        var verdict;
        verdict, count, r := Pass(pass, count);
        if verdict != Grew {
          return;
        }
        pass := pass + 1;
      }
      assert false;
    }

    /** The enumeration before the first pass. */
    method BeginEnter() returns (ok: bool, count: nat, r: Outcome)
      requires Valid() && state == Prepared && requested == []
      modifies this`inventory, this`state, this`parkAttempted, backend
      ensures ok ==> PassInv(0, count)
      ensures !ok ==> GaveUp(r)
    {
      ok, r := true, Result(Ok);
      var status;
      ghost var call;
      status, inventory, count, call := ListThreads();
      if status != Ok {
        ok := false;
        r := AbortEnter(status);
      }
    }

    /** Gives up after the last configured pass, otherwise adopts the final inventory. */
    method NextPass(pass: nat, count: nat) returns (verdict: Verdict, r: Outcome)
      requires NewPeerListed(count) && Calls().waited <= Elements(requested)
      requires pass < configuration.maximumStabilizationPasses && pass <= |requested|
      modifies this`inventory, this`parkAttempted, this`state, backend
      ensures verdict == Grew || verdict == Aborted
      ensures verdict == Grew ==> PassInv(pass + 1, count)
      ensures verdict == Aborted ==> GaveUp(r)
    {
      verdict, r := Grew, Result(Ok);
      if pass + 1 == configuration.maximumStabilizationPasses {
        verdict := Aborted;
        r := AbortEnter(ThreadSetUnstable);
      } else {
        inventory := finalInventory[..count] + inventory[count..];
        assert inventory[..count] == finalInventory[..count];
      }
    }

    /** One stabilization pass. One that does not end enter has, after the first, requested a new thread. */
    method Pass(pass: nat, count: nat) returns (verdict: Verdict, next: nat, r: Outcome)
      requires PassInv(pass, count)
      modifies this, backend
      ensures verdict == Stable ==> Valid() && state == Exclusive && r.state == Exclusive && r.status == Ok
      ensures verdict == Grew ==>
                && PassInv(pass + 1, next)
                && |requested| >= |old(requested)| && (pass > 0 ==> |requested| > |old(requested)|)
      ensures verdict == Aborted ==> GaveUp(r)
    {
      verdict, next := Aborted, 0;
      var ok;
      ok, r := ParkPeers(pass, count);
      if !ok {
        return;
      }
      verdict, next, r := ConfirmInventory();
      if verdict == Grew {
        verdict, r := NextPass(pass, next);
      }
    }

    /** leave: releases the peers. */
    method Leave() returns (r: Outcome)
      requires Valid()
      modifies this, backend
      ensures Valid() && r.state == state
      ensures old(state) != Exclusive ==> r.status == InvalidState && unchanged(this) && unchanged(backend)
      ensures old(state) == Exclusive ==>
                || (r.status == Ok && state == Released && !parkAttempted)
                || (r.status == ResumeFailed && state == Failed && parkAttempted)
    {
      if state != Exclusive {
        return Result(InvalidState);
      }
      if parkAttempted {
        ghost var before := backend.trace;
        var ok := backend.ResumeParkedThreads(configuration.epoch);
        TallyAppend(before, Resumed(configuration.epoch, ok), configuration);
        if !ok {
          state := Failed;
          return Result(ResumeFailed);
        }
      }
      parkAttempted := false;
      state := Released;
      r := Result(Ok);
    }

    /** The destructor: one more resume if a park may still be outstanding. */
    method Destroy()
      requires Valid()
      modifies backend
      ensures LifetimeLawful(backend.trace, configuration)
    {
      ghost var before := backend.trace;
      if parkAttempted && backend.hasResume {
        var ok := backend.ResumeParkedThreads(configuration.epoch);
        TallyAppend(before, Resumed(configuration.epoch, ok), configuration);
      }
      LawfulCalls(backend.trace, configuration);
      ResumedAfterParks(backend.trace, configuration);
      TallyMeans(backend.trace, configuration);
    }
  }

  datatype Operation = DoPrepare | DoEnter | DoLeave

  /**
   Any sequence of operations in any order, against any backend answers, followed by
   destruction: the calls made obey every law.
   */
  method Lifetime(configuration: Configuration, backend: QuiescenceBackend, operations: seq<Operation>)
    requires backend.trace == []
    modifies backend
    ensures LifetimeLawful(backend.trace, configuration)
  {
    var coordinator := new Coordinator(configuration, backend);
    var i := 0;
    while i < |operations|
      invariant 0 <= i <= |operations|
      invariant coordinator.configuration == configuration && coordinator.backend == backend
      invariant fresh(coordinator) && coordinator.Valid()
    {
      match operations[i] {
        case DoPrepare => var _ := coordinator.Prepare();
        case DoEnter => var _, _ := coordinator.Enter();
        case DoLeave => var _ := coordinator.Leave();
      }
      i := i + 1;
    }
    coordinator.Destroy();
  }
}
