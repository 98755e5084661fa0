/**
 Arm64PatchInstallTransaction: prepare, commit and rollback over a backend any of whose
 operations may fail, with the exclusive window released on every path.
 */
module PatchTransactions {
  import opened Bytes
  import opened PatchBackends
  import opened PatchLaws

  /** Other threads changed no more of `m` than the addresses in `after`. */
  ghost predicate Foreign(before: set<nat>, m: Memory, after: set<nat>, m': Memory) {
    before <= after && forall p: nat | p !in after :: m'(p) == m(p)
  }

  /** The scope object around a window; its destructor leaves a window still entered. */
  class ExclusiveWindow {
    const backend: PatchBackend
    const job: Job
    var entered: bool

    ghost function Seen(): Watcher
      reads backend
    {
      Watched(backend.trace, job)
    }

    constructor (job: Job, backend: PatchBackend)
      ensures this.backend == backend && this.job == job && !entered
    {
      this.job, this.backend, entered := job, backend, false;
    }

    method Enter() returns (ok: bool)
      requires Seen() == OUTSIDE
      modifies this`entered, backend
      ensures entered == ok && Seen() == Watcher(true, ok, [], 0)
      ensures Foreign(old(backend.foreign), old(backend.memory), backend.foreign, backend.memory)
    {
      WatchEnter(backend.trace, job);
      ok := backend.EnterExclusiveWindow();
      entered := ok;
    }

    method Leave() returns (ok: bool)
      requires entered && Seen().lawful && Seen().inside && Seen().failedLeaves == 0
      modifies this`entered, backend`trace
      ensures entered == !ok
      ensures if ok then Seen() == OUTSIDE else Seen() == old(Seen()).(failedLeaves := 1)
    {
      ghost var before := backend.trace;
      ok := backend.LeaveExclusiveWindow();
      WatchedAppend(before, Left(ok), job);
      if ok {
        entered := false;
      }
    }

    method Destroy()
      requires entered ==> Seen().lawful && Seen().inside && Seen().failedLeaves == 1
      requires !entered ==> Seen() == OUTSIDE
      modifies backend`trace
      ensures Seen() == OUTSIDE
    {
      if entered {
        ghost var before := backend.trace;
        var ok := backend.LeaveExclusiveWindow();
        WatchedAppend(before, Left(ok), job);
      }
    }
  }

  lemma WatchEnter(trace: seq<PatchCall>, job: Job)
    ensures forall ok :: Watched(trace + [Entered(ok)], job) == Watch(Watched(trace, job), Entered(ok), job)
  {
    WatchedAppend(trace, Entered(true), job);
    WatchedAppend(trace, Entered(false), job);
  }

  class InstallTransaction {
    const job: Job
    const backend: PatchBackend
    var state: InstallState

    ghost function Seen(): Watcher
      reads backend
    {
      Watched(backend.trace, job)
    }

    /** Outside every call: the calls so far are lawful and no window is open. */
    ghost predicate Valid()
      reads this, backend
    {
      && Seen() == OUTSIDE
      && (state != Empty && state != InstallState.Failed ==> ValidPlan(job) && backend.complete)
    }

    constructor (job: Job, backend: PatchBackend)
      requires backend.trace == []
      ensures this.job == job && this.backend == backend && state == Empty && Valid()
    {
      this.job, this.backend, state := job, backend, Empty;
    }

    function Result(status: InstallStatus): InstallResult
      reads this
    {
      InstallResult(status, state)
    }

    /** In a window, with nothing left yet, after the given calls. */
    ghost predicate Inside(calls: seq<PatchCall>)
      reads backend
    {
      Seen() == Watcher(true, true, calls, 0) && ValidPlan(job)
    }

    ghost predicate StillInside()
      reads backend
    {
      Inside(Seen().window)
    }

    /** prepare: checks the plan, the backend and the target, and writes nothing. */
    method Prepare() returns (r: InstallResult)
      requires Valid()
      modifies this`state, backend`trace
      ensures Valid() && r.state == state
      ensures old(state) != Empty ==> r.status == InvalidState && state == old(state)
      ensures old(state) == Empty ==> state == if r.status == Ok then Prepared else InstallState.Failed
      ensures old(state) == Empty && !ValidPlan(job) ==> r.status == InvalidPlan
      ensures old(state) == Empty && ValidPlan(job) && !backend.complete ==> r.status == InvalidBackend
      ensures old(state) == Empty && ValidPlan(job) && backend.complete ==>
                && |backend.trace| == |old(backend.trace)| + 1 && old(backend.trace) <= backend.trace
                && var read := backend.trace[|old(backend.trace)|];
                   && read.ReadBack? && read.address == job.target
                   && r.status == if !read.ok then ReadFailed
                                  else if Holds(backend.memory, job.target, job.plan.originalBytes) then Ok
                                  else TargetMismatch
    {
      if state != Empty {
        return Result(InvalidState);
      }
      state := InstallState.Failed;
      if !ValidPlan(job) {
        return Result(InvalidPlan);
      }
      if !backend.complete {
        return Result(InvalidBackend);
      }
      ghost var before := backend.trace;
      var ok, bytes := backend.ReadMemory(job.target, job.plan.overwriteSize);
      WatchedAppend(before, ReadBack(job.target, ok, bytes), job);
      if !ok {
        return Result(ReadFailed);
      }
      if bytes != job.plan.originalBytes {
        return Result(TargetMismatch);
      }
      state := Prepared;
      r := Result(Ok);
    }

    /** A read of the target inside the window. */
    method ReadTarget() returns (ok: bool, bytes: seq<byte>)
      requires Inside([])
      modifies backend`trace
      ensures |bytes| == 16 && (ok ==> bytes == Slice(backend.memory, job.target, 16))
      ensures Inside([ReadBack(job.target, ok, bytes)])
    {
      ghost var before := backend.trace;
      ok, bytes := backend.ReadMemory(job.target, 16);
      WatchedAppend(before, ReadBack(job.target, ok, bytes), job);
    }

    /** Writes and synchronizes the trampoline, or binds the precompiled one. */
    method KeepOriginal() returns (status: InstallStatus)
      requires Inside([ReadBack(job.target, true, job.plan.originalBytes)])
      modifies backend`memory, backend`trace
      ensures OnlyOwnRanges(job, old(backend.memory), backend.memory)
      ensures TargetKept(job, old(backend.memory), backend.memory)
      ensures status.Ok? || status.TrampolineBindFailed? || status.TrampolineWriteFailed? || status.CacheSyncFailed?
      ensures status.Ok? ==> Inside([ReadBack(job.target, true, job.plan.originalBytes)] + Kept(job))
      ensures status.Ok? && job.trampoline.Written? ==>
                Holds(backend.memory, job.trampolineAddress, job.plan.trampoline)
      ensures StillInside()
    {
      ghost var before := backend.trace;
      if job.trampoline.Precompiled? {
        var bound := backend.BindResumeAddress(job.plan.resumeAddress);
        WatchedAppend(before, Bound(job.plan.resumeAddress, bound), job);
        assert Inside([ReadBack(job.target, true, job.plan.originalBytes), Bound(job.plan.resumeAddress, bound)]);
        return if bound then Ok else TrampolineBindFailed;
      }
      status := WriteTrampoline();
    }

    method WriteTrampoline() returns (status: InstallStatus)
      requires Inside([ReadBack(job.target, true, job.plan.originalBytes)]) && job.trampoline.Written?
      modifies backend`memory, backend`trace
      ensures OnlyOwnRanges(job, old(backend.memory), backend.memory)
      ensures TargetKept(job, old(backend.memory), backend.memory)
      ensures status.Ok? || status.TrampolineWriteFailed? || status.CacheSyncFailed?
      ensures status.Ok? ==> Inside([ReadBack(job.target, true, job.plan.originalBytes)] + Kept(job))
      ensures status.Ok? ==> Holds(backend.memory, job.trampolineAddress, job.plan.trampoline)
      ensures StillInside()
    {
      ghost var before := backend.trace;
      ghost var was := backend.memory;
      var read := ReadBack(job.target, true, job.plan.originalBytes);
      var wrote := backend.WriteMemory(job.trampolineAddress, job.plan.trampoline);
      WatchedAppend(before, Wrote(job.trampolineAddress, job.plan.trampoline, wrote), job);
      if !wrote {
        assert Inside([read, Wrote(job.trampolineAddress, job.plan.trampoline, wrote)]);
        return TrampolineWriteFailed;
      }
      SliceOfStored(was, job.trampolineAddress, job.plan.trampoline);
      before := backend.trace;
      var size := |job.plan.trampoline|;
      var synced := backend.SynchronizeInstructionCache(job.trampolineAddress, size);
      WatchedAppend(before, Synced(job.trampolineAddress, size, synced), job);
      assert Inside([read, Wrote(job.trampolineAddress, job.plan.trampoline, true),
                     Synced(job.trampolineAddress, size, synced)]);
      status := if synced then Ok else CacheSyncFailed;
    }

    /** Publishes the trampoline. */
    method Publish() returns (ok: bool)
      requires Inside([ReadBack(job.target, true, job.plan.originalBytes)] + Kept(job))
      modifies backend`trace
      ensures ok ==> Inside(Preamble(job))
      ensures StillInside()
    {
      ghost var before := backend.trace;
      ghost var calls := Seen().window;
      ok := backend.PublishOriginalTrampoline(job.trampolineAddress);
      WatchedAppend(before, PatchCall.Published(job.trampolineAddress, ok), job);
      assert Inside(calls + [PatchCall.Published(job.trampolineAddress, ok)]);
    }

    /** automaticRollback: puts the original bytes back after a failed entry patch. */
    method AutomaticRollback() returns (r: InstallResult)
      requires StillInside() && Restorable(job, Seen().window)
      modifies this`state, backend`memory, backend`trace
      ensures StillInside()
      ensures SameOutside(old(backend.memory), backend.memory, job.target, 16)
      ensures r.state == state
      ensures if r.status == CommitRolledBack
              then state == RolledBack && Holds(backend.memory, job.target, job.plan.originalBytes)
              else r.status == RollbackFailed && state == InstallState.Failed
    {
      var status := RestoreOriginal();
      if status == Ok {
        state := RolledBack;
        return Result(CommitRolledBack);
      }
      state := InstallState.Failed;
      r := Result(RollbackFailed);
    }

    /** Writes and synchronizes the original bytes. */
    method RestoreOriginal() returns (status: InstallStatus)
      requires StillInside() && Restorable(job, Seen().window)
      modifies backend`memory, backend`trace
      ensures StillInside()
      ensures SameOutside(old(backend.memory), backend.memory, job.target, 16)
      ensures status.Ok? || status.RollbackWriteFailed? || status.RollbackFailed?
      ensures status.Ok? ==> Holds(backend.memory, job.target, job.plan.originalBytes)
    {
      ghost var before := backend.trace;
      ghost var was := backend.memory;
      ghost var calls := Seen().window;
      var wrote := backend.WriteMemory(job.target, job.plan.originalBytes);
      WatchedAppend(before, Wrote(job.target, job.plan.originalBytes, wrote), job);
      calls := calls + [Wrote(job.target, job.plan.originalBytes, wrote)];
      assert Inside(calls);
      if !wrote {
        return RollbackWriteFailed;
      }
      SliceOfStored(was, job.target, job.plan.originalBytes);
      before := backend.trace;
      var size := |job.plan.originalBytes|;
      var synced := backend.SynchronizeInstructionCache(job.target, size);
      WatchedAppend(before, Synced(job.target, size, synced), job);
      assert Inside(calls + [Synced(job.target, size, synced)]);
      status := if synced then Ok else RollbackFailed;
    }

    /** Writes and synchronizes the entry patch; on failure restores the original bytes. */
    method WriteEntry() returns (r: InstallResult)
      requires Inside(Preamble(job)) && Holds(backend.memory, job.target, job.plan.originalBytes)
      modifies this`state, backend`memory, backend`trace
      ensures StillInside()
      ensures SameOutside(old(backend.memory), backend.memory, job.target, 16)
      ensures r.state == state
      ensures match r.status
              case Ok => state == Committed && Holds(backend.memory, job.target, job.plan.entryPatch)
              case CommitRolledBack => state == RolledBack && TargetKept(job, old(backend.memory), backend.memory)
              case RollbackFailed => state == InstallState.Failed
              case _ => false
    {
      ghost var before := backend.trace;
      ghost var was := backend.memory;
      var wrote := backend.WriteMemory(job.target, job.plan.entryPatch);
      WatchedAppend(before, Wrote(job.target, job.plan.entryPatch, wrote), job);
      ghost var calls := Preamble(job) + [Wrote(job.target, job.plan.entryPatch, wrote)];
      assert Inside(calls);
      var synced := false;
      if wrote {
        SliceOfStored(was, job.target, job.plan.entryPatch);
        before := backend.trace;
        synced := backend.SynchronizeInstructionCache(job.target, |job.plan.entryPatch|);
        WatchedAppend(before, Synced(job.target, |job.plan.entryPatch|, synced), job);
        calls := Preamble(job) + [Wrote(job.target, job.plan.entryPatch, true),
                                  Synced(job.target, |job.plan.entryPatch|, synced)];
        assert Inside(calls);
      }
      if !synced {
        assert Restorable(job, calls);
        r := AutomaticRollback();
        if r.status == CommitRolledBack {
          SliceDetermines(was, backend.memory, job.target, 16);
        }
        return;
      }
      state := Committed;
      r := Result(Ok);
    }

    /** commit between entering and leaving the window. */
    method CommitInside() returns (r: InstallResult)
      requires Inside([]) && state == Prepared
      modifies this`state, backend`memory, backend`trace
      ensures StillInside() && r.state == state
      ensures CommitOutcome(job, old(backend.memory), backend.memory, r) && r.status != CoordinationFailed
    {
      ghost var start := backend.memory;
      state := InstallState.Failed;
      var ok, bytes := ReadTarget();
      if !ok {
        return Result(ReadFailed);
      }
      if bytes != job.plan.originalBytes {
        return Result(TargetMismatch);
      }
      var status := KeepOriginal();
      ghost var kept := backend.memory;
      if status != Ok {
        return Result(status);
      }
      var published := Publish();
      if !published {
        return Result(PublishFailed);
      }
      SameSlice(start, kept, job.target, 16);
      r := WriteEntry();
      EntryOutcome(job, start, kept, backend.memory, r);
    }

    /** finishExclusive and the window's destructor. */
    method FinishExclusive(window: ExclusiveWindow, outcome: InstallResult) returns (r: InstallResult)
      requires window.job == job && window.backend == backend && window.entered
      requires StillInside() && outcome.state == state
      modifies this`state, window`entered, backend`trace
      ensures Seen() == OUTSIDE && r.state == state
      ensures r == outcome || (r.status == CoordinationReleaseFailed && r.state == InstallState.Failed)
    {
      r := outcome;
      var ok := window.Leave();
      if !ok {
        state := InstallState.Failed;
        r := Result(CoordinationReleaseFailed);
      }
      window.Destroy();
    }

    /** commit: `start` is the memory found when the window was entered. */
    method Commit() returns (r: InstallResult, ghost start: Memory)
      requires Valid()
      modifies this`state, backend
      ensures Valid() && r.state == state
      ensures old(state) != Prepared ==>
                r.status == InvalidState && state == old(state) && backend.memory == start == old(backend.memory)
      ensures Foreign(old(backend.foreign), old(backend.memory), backend.foreign, start)
      ensures old(state) == Prepared ==> CommitOutcome(job, start, backend.memory, r)
    {
      if state != Prepared {
        return Result(InvalidState), backend.memory;
      }
      var window := new ExclusiveWindow(job, backend);
      var entered := window.Enter();
      start := backend.memory;
      if !entered {
        window.Destroy();
        return Result(CoordinationFailed), start;
      }
      var outcome := CommitInside();
      r := FinishExclusive(window, outcome);
    }

    /** rollback between entering and leaving the window. */
    method RollbackInside() returns (r: InstallResult)
      requires Inside([]) && state == Committed
      modifies this`state, backend`memory, backend`trace
      ensures StillInside() && r.state == state
      ensures RollbackOutcome(job, old(backend.memory), backend.memory, r) && r.status != CoordinationFailed
    {
      var ok, bytes := ReadTarget();
      if !ok {
        return Result(ReadFailed);
      }
      state := InstallState.Failed;
      if bytes != job.plan.entryPatch {
        return Result(RollbackTargetMismatch);
      }
      var status := RestoreOriginal();
      if status == Ok {
        state := RolledBack;
      }
      r := Result(status);
    }

    /** rollback: `start` is the memory found when the window was entered. */
    method Rollback() returns (r: InstallResult, ghost start: Memory)
      requires Valid()
      modifies this`state, backend
      ensures Valid() && r.state == state
      ensures old(state) != Committed ==>
                r.status == InvalidState && state == old(state) && backend.memory == start == old(backend.memory)
      ensures Foreign(old(backend.foreign), old(backend.memory), backend.foreign, start)
      ensures old(state) == Committed ==> RollbackOutcome(job, start, backend.memory, r)
    {
      if state != Committed {
        return Result(InvalidState), backend.memory;
      }
      var window := new ExclusiveWindow(job, backend);
      var entered := window.Enter();
      start := backend.memory;
      if !entered {
        window.Destroy();
        return Result(CoordinationFailed), start;
      }
      var outcome := RollbackInside();
      r := FinishExclusive(window, outcome);
    }
  }

  /** The entry stage after a trampoline stage that kept the target. */
  lemma EntryOutcome(job: Job, start: Memory, kept: Memory, after: Memory, r: InstallResult)
    requires ValidPlan(job) && OnlyOwnRanges(job, start, kept) && TargetKept(job, start, kept)
    requires SameOutside(kept, after, job.target, 16)
    requires Holds(start, job.target, job.plan.originalBytes)
    requires job.trampoline.Written? ==> Holds(kept, job.trampolineAddress, job.plan.trampoline)
    requires match r.status
             case Ok => r.state == Committed && Holds(after, job.target, job.plan.entryPatch)
             case CommitRolledBack => r.state == RolledBack && TargetKept(job, kept, after)
             case RollbackFailed => r.state == InstallState.Failed
             case _ => false
    ensures CommitOutcome(job, start, after, r)
  {
    if job.trampoline.Written? {
      SameSlice(kept, after, job.trampolineAddress, |job.plan.trampoline|);
    }
  }

  datatype Operation = DoPrepare | DoCommit | DoRollback

  ghost predicate Clean(results: seq<InstallResult>, foreign: set<nat>, job: Job) {
    && (forall r | r in results :: !Tainted(r.status))
    && forall p: nat | InTarget(job, p) :: p !in foreign
  }

  /** One operation, after other threads ran. */
  method Operate(transaction: InstallTransaction, operation: Operation, ghost initial: seq<byte>)
    returns (r: InstallResult)
    requires transaction.Valid()
    modifies transaction`state, transaction.backend
    ensures transaction.Valid() && r.state == transaction.state
    ensures transaction.backend.foreign >= old(transaction.backend.foreign)
    ensures Settled(transaction.job, initial, old(transaction.backend.memory), old(transaction.state))
            && Clean([r], transaction.backend.foreign, transaction.job) ==>
              Settled(transaction.job, initial, transaction.backend.memory, transaction.state)
  {
    var backend := transaction.backend;
    ghost var job := transaction.job;
    ghost var was, state := backend.memory, transaction.state;
    backend.OthersRun();
    ghost var seen := backend.memory;
    ghost var settled := Settled(job, initial, was, state);
    match operation {
      case DoPrepare =>
        r := transaction.Prepare();
        if settled && Clean([r], backend.foreign, job) {
          KeptSettles(job, initial, was, seen, state, state);
        }
      case DoCommit =>
        ghost var start;
        r, start := transaction.Commit();
        if settled && Clean([r], backend.foreign, job) {
          assert r in [r];
          KeptSettles(job, initial, was, start, state, state);
          if state == Prepared {
            CommitSettles(job, initial, start, backend.memory, r);
          }
        }
      case DoRollback =>
        ghost var start;
        r, start := transaction.Rollback();
        if settled && Clean([r], backend.foreign, job) {
          assert r in [r];
          KeptSettles(job, initial, was, start, state, state);
          if state == Committed {
            RollbackSettles(job, initial, start, backend.memory, r);
          }
        }
    }
  }

  /**
   Any operations in any order, any backend answers, any writes by other threads in
   between. The calls made are lawful. Unless a status warned of it or others wrote to the
   target, the target holds the entry patch if committed and its first contents if not.
   */
  method Lifetime(job: Job, backend: PatchBackend, operations: seq<Operation>)
    returns (results: seq<InstallResult>, state: InstallState)
    requires backend.trace == []
    modifies backend
    ensures |results| == |operations|
    ensures Watched(backend.trace, job) == OUTSIDE
    ensures Clean(results, backend.foreign, job) ==>
              Settled(job, old(Slice(backend.memory, job.target, 16)), backend.memory, state)
  {
    var transaction := new InstallTransaction(job, backend);
    ghost var initial := Slice(backend.memory, job.target, 16);
    results := [];
    var i := 0;
    while i < |operations|
      invariant 0 <= i <= |operations| && |results| == i
      invariant fresh(transaction) && transaction.job == job && transaction.backend == backend && transaction.Valid()
      invariant Clean(results, backend.foreign, job) ==> Settled(job, initial, backend.memory, transaction.state)
    {
      ghost var earlier, foreign := results, backend.foreign;
      var r := Operate(transaction, operations[i], initial);
      results := results + [r];
      if Clean(results, backend.foreign, job) {
        assert Clean(earlier, foreign, job) && Clean([r], backend.foreign, job);
      }
      i := i + 1;
    }
    state := transaction.state;
  }
}
