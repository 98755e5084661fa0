/**
 Vocabulary of the patch installation transaction: what it accepts as a plan, how that
 relates to the planner, and the law over the order of its callback invocations.
 */
module PatchLaws {
  import opened Bytes
  import opened Arm64
  import opened PatchPlanner
  import opened PatchBackends

  datatype InstallState = Empty | Prepared | Committed | RolledBack | Failed

  datatype InstallStatus =
    | Ok
    | InvalidState
    | InvalidPlan
    | InvalidBackend
    | ReadFailed
    | TargetMismatch
    | CoordinationFailed
    | CoordinationReleaseFailed
    | TrampolineWriteFailed
    | TrampolineBindFailed
    | CacheSyncFailed
    | PublishFailed
    | CommitRolledBack
    | RollbackTargetMismatch
    | RollbackWriteFailed
    | RollbackFailed

  datatype InstallResult = InstallResult(status: InstallStatus, state: InstallState)

  /** How the original instructions are kept: written by the transaction, or linked in. */
  datatype Trampoline =
    | Written
    | Precompiled(codeSize: uintptr, relocated: seq<byte>, bindable: bool)

  datatype Job = Job(target: uintptr, trampolineAddress: uintptr, plan: Plan, trampoline: Trampoline)

  // ---------------------------------------------------------------------------
  // validPlan
  // ---------------------------------------------------------------------------

  datatype End = NoEnd | End(address: uintptr)

  /** One past the range, if the range is not empty and does not reach the last address. */
  function RangeEnd(address: uintptr, size: uintptr): End {
    if size == 0 || address > MAX_ADDRESS - size then NoEnd else End(address + size)
  }

  function LongAt(bytes: seq<byte>, offset: nat): nat
    requires offset + 8 <= |bytes|
  {
    Value(bytes[offset..offset + 8])
  }

  predicate ValidSizes(plan: Plan) {
    && plan.overwriteSize == 16
    && |plan.entryPatch| == 16 && |plan.originalBytes| == 16 && |plan.trampoline| == 36
  }

  predicate ExactPlannerShape(plan: Plan)
    requires ValidSizes(plan)
  {
    && WordAt(plan.entryPatch, 0) == LOAD_IP1_FROM_PC_PLUS_8
    && WordAt(plan.entryPatch, 4) == BRANCH_IP1
    && LongAt(plan.entryPatch, 8) != 0 && LongAt(plan.entryPatch, 8) % 4 == 0
    && WordAt(plan.trampoline, 0) == BTI_CALL
    && plan.trampoline[4..20] == plan.originalBytes
    && WordAt(plan.trampoline, 20) == LOAD_IP1_FROM_PC_PLUS_8
    && WordAt(plan.trampoline, 24) == BRANCH_IP1
    && LongAt(plan.trampoline, 28) == plan.resumeAddress
  }

  /** Bytes the trampoline occupies. */
  function TrampolineSize(job: Job): nat {
    match job.trampoline
    case Written => |job.plan.trampoline|
    case Precompiled(size, _, _) => size
  }

  predicate ValidPlan(job: Job) {
    && job.plan.status == Ready && job.target != 0 && job.trampolineAddress != 0
    && job.target % 4 == 0 && job.trampolineAddress % 4 == 0
    && ValidSizes(job.plan)
    && RangeEnd(job.target, 16).End? && RangeEnd(job.target, 16).address == job.plan.resumeAddress
    && ExactPlannerShape(job.plan)
    && (job.trampoline.Precompiled? ==> job.trampoline.bindable && job.trampoline.relocated == job.plan.originalBytes)
    && var end := RangeEnd(job.trampolineAddress, TrampolineSize(job));
       end.End? && (job.plan.resumeAddress <= job.trampolineAddress || end.address <= job.target)
  }

  /** The replacement the entry patch jumps to. */
  function Replacement(plan: Plan): nat
    requires ValidSizes(plan)
  {
    LongAt(plan.entryPatch, 8)
  }

  lemma LittleEndianAt(bytes: seq<byte>, offset: nat, n: nat, v: nat)
    requires offset + n <= |bytes| && Value(bytes[offset..offset + n]) == v
    ensures bytes[offset..offset + n] == LittleEndian(v, n) && v < Pow2(8 * n)
  {
    LittleEndianOfValue(bytes[offset..offset + n]);
  }

  lemma BranchFromFields(bytes: seq<byte>, offset: nat, address: nat)
    requires offset + 16 <= |bytes|
    requires WordAt(bytes, offset) == LOAD_IP1_FROM_PC_PLUS_8 && WordAt(bytes, offset + 4) == BRANCH_IP1
    requires LongAt(bytes, offset + 8) == address
    ensures bytes[offset..offset + 16] == AbsoluteBranch(address) && address <= MAX_ADDRESS
  {
    LittleEndianAt(bytes, offset, 4, LOAD_IP1_FROM_PC_PLUS_8);
    LittleEndianAt(bytes, offset + 4, 4, BRANCH_IP1);
    LittleEndianAt(bytes, offset + 8, 8, address);
    assert Pow2(64) == MAX_ADDRESS + 1 by {
      Powers();
    }
    ThreeParts(bytes, offset, offset + 4, offset + 8, offset + 16);
  }

  lemma SliceOfSlice(s: seq<byte>, offset: nat, n: nat, i: nat, j: nat)
    requires i <= j <= n && offset + n <= |s|
    ensures s[offset..offset + n][i..j] == s[offset + i..offset + j]
  {
    var part := s[offset..offset + n];
    assert forall k | i <= k < j :: part[k] == s[offset + k];
  }

  lemma ThreeParts(s: seq<byte>, a: nat, b: nat, c: nat, d: nat)
    requires a <= b <= c <= d <= |s|
    ensures s[a..d] == s[a..b] + s[b..c] + s[c..d]
  {
  }

  lemma BranchSlices(address: nat)
    ensures var branch := AbsoluteBranch(address);
            && branch[0..4] == LittleEndian(LOAD_IP1_FROM_PC_PLUS_8, 4)
            && branch[4..8] == LittleEndian(BRANCH_IP1, 4)
            && branch[8..16] == LittleEndian(address, 8)
  {
    var load, jump := LittleEndian(LOAD_IP1_FROM_PC_PLUS_8, 4), LittleEndian(BRANCH_IP1, 4);
    assert AbsoluteBranch(address) == load + jump + LittleEndian(address, 8);
  }

  lemma FieldsFromBranch(bytes: seq<byte>, offset: nat, address: uintptr)
    requires offset + 16 <= |bytes| && bytes[offset..offset + 16] == AbsoluteBranch(address)
    ensures WordAt(bytes, offset) == LOAD_IP1_FROM_PC_PLUS_8 && WordAt(bytes, offset + 4) == BRANCH_IP1
    ensures LongAt(bytes, offset + 8) == address
  {
    SliceOfSlice(bytes, offset, 16, 0, 4);
    SliceOfSlice(bytes, offset, 16, 4, 8);
    SliceOfSlice(bytes, offset, 16, 8, 16);
    BranchSlices(address);
    StoredValue(LOAD_IP1_FROM_PC_PLUS_8, 4);
    StoredValue(BRANCH_IP1, 4);
    StoredValue(address, 8);
  }

  lemma StoredValue(v: nat, n: nat)
    requires (n == 4 && v < 0x1_0000_0000) || (n == 8 && v <= MAX_ADDRESS)
    ensures Value(LittleEndian(v, n)) == v
  {
    Powers();
    ValueOfLittleEndian(v, n);
    RemainderIs(v, Pow2(8 * n), 0, v);
  }

  /** Every plan validPlan accepts has exactly the planner's bytes. */
  lemma ValidatedPlansArePlanned(job: Job)
    requires ValidPlan(job)
    ensures Replacement(job.plan) <= MAX_ADDRESS && ValidAddresses(job.target, Replacement(job.plan))
    ensures job.plan == PlanFor(job.target, Replacement(job.plan), job.plan.originalBytes)
  {
    var plan := job.plan;
    BranchFromFields(plan.entryPatch, 0, Replacement(plan));
    BranchFromFields(plan.trampoline, 20, plan.resumeAddress);
    LittleEndianAt(plan.trampoline, 0, 4, BTI_CALL);
    assert plan.entryPatch == plan.entryPatch[0..16];
    ThreeParts(plan.trampoline, 0, 4, 20, 36);
    assert plan.trampoline == plan.trampoline[0..36];
  }

  lemma PlannerShape(target: uintptr, replacement: uintptr, original: seq<byte>)
    requires ValidAddresses(target, replacement) && |original| == 16
    ensures ValidSizes(PlanFor(target, replacement, original))
    ensures ExactPlannerShape(PlanFor(target, replacement, original))
  {
    var plan := PlanFor(target, replacement, original);
    assert plan.entryPatch[0..16] == AbsoluteBranch(replacement);
    FieldsFromBranch(plan.entryPatch, 0, replacement);
    assert plan.trampoline[20..36] == AbsoluteBranch(target + 16);
    FieldsFromBranch(plan.trampoline, 20, target + 16);
    assert plan.trampoline[0..4] == LittleEndian(BTI_CALL, 4);
    StoredValue(BTI_CALL, 4);
    assert plan.trampoline[4..20] == original;
  }

  /**
   A ready plan passes validPlan exactly for the trampoline addresses that are non-zero,
   aligned, non-wrapping and off the target.
   */
  lemma PlannerPlansValidate(target: uintptr, replacement: uintptr, prologue: seq<byte>, t: uintptr)
    requires Planned(target, replacement, prologue).status == Ready
    ensures ValidPlan(Job(target, t, Planned(target, replacement, prologue), Written))
            <==> t != 0 && t % 4 == 0 && t <= MAX_ADDRESS - 36 && (target + 16 <= t || t + 36 <= target)
  {
    PlannerShape(target, replacement, prologue[..16]);
  }

  // ---------------------------------------------------------------------------
  // What a call leaves in memory
  // ---------------------------------------------------------------------------

  ghost predicate Holds(m: Memory, address: nat, bytes: seq<byte>) {
    Slice(m, address, |bytes|) == bytes
  }

  predicate InTrampoline(job: Job, p: nat) {
    job.trampoline.Written? && job.trampolineAddress <= p < job.trampolineAddress + |job.plan.trampoline|
  }

  predicate InTarget(job: Job, p: nat) {
    job.target <= p < job.target + 16
  }

  /** Nothing but the target and a written trampoline changed. */
  ghost predicate OnlyOwnRanges(job: Job, start: Memory, after: Memory) {
    forall p: nat | !InTarget(job, p) && !InTrampoline(job, p) :: start(p) == after(p)
  }

  ghost predicate TargetKept(job: Job, start: Memory, after: Memory) {
    SameIn(start, after, job.target, 16)
  }

  /** The statuses after which the target may hold anything or the state may not match it. */
  predicate Tainted(status: InstallStatus) {
    status.RollbackFailed? || status.RollbackWriteFailed? || status.CoordinationReleaseFailed?
  }

  /**
   commit from the memory it found when it had entered the window: the entry patch is in
   place over the original bytes, or the target is as it was, or the status says otherwise.
   */
  ghost predicate CommitOutcome(job: Job, start: Memory, after: Memory, r: InstallResult) {
    && OnlyOwnRanges(job, start, after)
    && (r.status == Ok ==>
          && r.state == Committed
          && Holds(start, job.target, job.plan.originalBytes) && Holds(after, job.target, job.plan.entryPatch)
          && (job.trampoline.Written? ==> Holds(after, job.trampolineAddress, job.plan.trampoline)))
    && (r.status != Ok && !Tainted(r.status) ==> TargetKept(job, start, after))
    && (r.status == TargetMismatch ==> !Holds(start, job.target, job.plan.originalBytes))
    && (r.status != Ok ==>
          r.state == match r.status
                     case CoordinationFailed => Prepared
                     case CommitRolledBack => RolledBack
                     case _ => InstallState.Failed)
    && r.status !in {InvalidState, InvalidPlan, InvalidBackend, RollbackTargetMismatch, RollbackWriteFailed}
  }

  /** rollback, likewise: only a patch found in place is undone. */
  ghost predicate RollbackOutcome(job: Job, start: Memory, after: Memory, r: InstallResult) {
    && SameOutside(start, after, job.target, 16)
    && (r.status == Ok ==>
          && r.state == RolledBack
          && Holds(start, job.target, job.plan.entryPatch) && Holds(after, job.target, job.plan.originalBytes))
    && (r.status != Ok && !Tainted(r.status) ==> TargetKept(job, start, after))
    && (r.status == RollbackTargetMismatch ==> !Holds(start, job.target, job.plan.entryPatch))
    && (r.status != Ok ==>
          r.state == match r.status
                     case CoordinationFailed => Committed
                     case ReadFailed => Committed
                     case _ => InstallState.Failed)
    && r.status in {Ok, CoordinationFailed, CoordinationReleaseFailed, ReadFailed, RollbackTargetMismatch,
                    RollbackWriteFailed, RollbackFailed}
  }

  /** Between calls: the entry patch if committed, otherwise what was there at the start. */
  ghost predicate Settled(job: Job, initial: seq<byte>, m: Memory, state: InstallState) {
    && Holds(m, job.target, if state == Committed then job.plan.entryPatch else initial)
    && |initial| == 16
    && (state == Prepared || state == Committed ==> ValidPlan(job) && initial == job.plan.originalBytes)
  }

  lemma KeptSettles(job: Job, initial: seq<byte>, before: Memory, after: Memory,
                    state: InstallState, next: InstallState)
    requires Settled(job, initial, before, state) && TargetKept(job, before, after)
    requires next == state || (state != Committed && next != Committed && next != Prepared)
    ensures Settled(job, initial, after, next)
  {
    SameSlice(before, after, job.target, 16);
  }

  lemma CommitSettles(job: Job, initial: seq<byte>, start: Memory, after: Memory, r: InstallResult)
    requires Settled(job, initial, start, Prepared)
    requires CommitOutcome(job, start, after, r) && !Tainted(r.status)
    ensures Settled(job, initial, after, r.state)
  {
    if r.status != Ok {
      KeptSettles(job, initial, start, after, Prepared, r.state);
    }
  }

  lemma RollbackSettles(job: Job, initial: seq<byte>, start: Memory, after: Memory, r: InstallResult)
    requires Settled(job, initial, start, Committed)
    requires RollbackOutcome(job, start, after, r) && !Tainted(r.status)
    ensures r.status != RollbackTargetMismatch
    ensures Settled(job, initial, after, r.state)
  {
    if r.status != Ok && r.status != RollbackTargetMismatch {
      KeptSettles(job, initial, start, after, Committed, r.state);
    }
  }

  // ---------------------------------------------------------------------------
  // Order of the callback invocations
  // ---------------------------------------------------------------------------

  /** The calls that must precede the entry patch inside its window, in order. */
  function Preamble(job: Job): seq<PatchCall> {
    [ReadBack(job.target, true, job.plan.originalBytes)] + Kept(job)
    + [PatchCall.Published(job.trampolineAddress, true)]
  }

  /** The original instructions are made reachable. */
  function Kept(job: Job): seq<PatchCall> {
    match job.trampoline
    case Written =>
      [Wrote(job.trampolineAddress, job.plan.trampoline, true),
       Synced(job.trampolineAddress, |job.plan.trampoline|, true)]
    case Precompiled(_, _, _) => [Bound(job.plan.resumeAddress, true)]
  }

  /** The entry patch may be partly written, is not synchronized, or has been found in place. */
  predicate Restorable(job: Job, window: seq<PatchCall>) {
    var size := |job.plan.entryPatch|;
    || window == Preamble(job) + [Wrote(job.target, job.plan.entryPatch, false)]
    || window == Preamble(job) + [Wrote(job.target, job.plan.entryPatch, true), Synced(job.target, size, false)]
    || window == [ReadBack(job.target, true, job.plan.entryPatch)]
  }

  /** The write is one of the transaction's, and `window`, the calls since entering, justifies it. */
  predicate Justified(job: Job, window: seq<PatchCall>, address: nat, bytes: seq<byte>) {
    || (address == job.target && bytes == job.plan.entryPatch && window == Preamble(job))
    || (address == job.target && bytes == job.plan.originalBytes && Restorable(job, window))
    || (address == job.trampolineAddress && bytes == job.plan.trampoline && job.trampoline.Written?
        && window == [ReadBack(job.target, true, job.plan.originalBytes)])
  }

  /**
   A watcher of the calls: whether a window is open, the calls made in it, and how often
   leaving it has failed.
   */
  datatype Watcher = Watcher(lawful: bool, inside: bool, window: seq<PatchCall>, failedLeaves: nat)

  const OUTSIDE := Watcher(true, false, [], 0)

  function Watch(w: Watcher, call: PatchCall, job: Job): Watcher {
    match call
    case Entered(ok) => Watcher(w.lawful && !w.inside, ok, [], 0)
    case Left(ok) =>
      if ok || w.failedLeaves > 0 then Watcher(w.lawful && w.inside, false, [], 0)
      else w.(lawful := w.lawful && w.inside, failedLeaves := 1)
    case Wrote(address, bytes, _) =>
      w.(lawful := w.lawful && w.inside && w.failedLeaves == 0 && Justified(job, w.window, address, bytes),
         window := w.window + [call])
    case _ =>
      if !w.inside then w else w.(lawful := w.lawful && w.failedLeaves == 0, window := w.window + [call])
  }

  function Watched(trace: seq<PatchCall>, job: Job): Watcher {
    if trace == [] then OUTSIDE
    else Watch(Watched(trace[..|trace| - 1], job), trace[|trace| - 1], job)
  }

  lemma WatchedAppend(trace: seq<PatchCall>, call: PatchCall, job: Job)
    ensures Watched(trace + [call], job) == Watch(Watched(trace, job), call, job)
  {
    assert (trace + [call])[..|trace|] == trace;
  }

  lemma {:induction false} LawfulPrefix(trace: seq<PatchCall>, k: nat, job: Job)
    requires k <= |trace| && Watched(trace, job).lawful
    ensures Watched(trace[..k], job).lawful
    decreases |trace|
  {
    if k == |trace| {
      assert trace[..k] == trace;
    } else {
      var shorter := trace[..|trace| - 1];
      LawfulPrefix(shorter, k, job);
      assert shorter[..k] == trace[..k];
    }
  }

  /** An open window starts at a successful enter, and its calls follow it without a leave. */
  ghost predicate OpenSince(trace: seq<PatchCall>, j: nat, window: seq<PatchCall>) {
    && j < |trace| && trace[j] == Entered(true) && trace[j + 1..] == window
    && forall call | call in window :: !call.Left? && !call.Entered?
  }

  lemma {:induction false} WindowMeans(trace: seq<PatchCall>, job: Job) returns (j: nat)
    requires Watched(trace, job).lawful && Watched(trace, job).inside && Watched(trace, job).failedLeaves == 0
    ensures OpenSince(trace, j, Watched(trace, job).window)
    decreases |trace|
  {
    var last := trace[|trace| - 1];
    var before := trace[..|trace| - 1];
    if last.Entered? {
      j := |trace| - 1;
    } else {
      j := WindowMeans(before, job);
      assert trace[j + 1..] == before[j + 1..] + [last];
    }
  }

  /** Every write lies in an open window whose earlier calls justify it. */
  lemma WritesAreJustified(trace: seq<PatchCall>, i: nat, job: Job) returns (j: nat)
    requires Watched(trace, job).lawful && i < |trace| && trace[i].Wrote?
    ensures j < i && OpenSince(trace[..i], j, trace[j + 1..i])
    ensures Justified(job, trace[j + 1..i], trace[i].address, trace[i].bytes)
  {
    LawfulPrefix(trace, i + 1, job);
    assert trace[..i + 1][..i] == trace[..i];
    j := WindowMeans(trace[..i], job);
    assert trace[..i][j + 1..] == trace[j + 1..i];
  }

  ghost predicate NoneIn(trace: seq<PatchCall>, from: nat, to: nat) {
    forall i | from <= i < to && i < |trace| :: !trace[i].Left?
  }

  /** Up to `n`, the window opened at `j` is left at `k`, and once more if that failed. */
  ghost predicate ClosedBefore(trace: seq<PatchCall>, j: nat, k: nat, n: nat) {
    && j < k < n <= |trace| && trace[k].Left? && NoneIn(trace, j + 1, k)
    && if trace[k].ok then NoneIn(trace, k + 1, n)
       else k + 1 < n && trace[k + 1].Left? && NoneIn(trace, k + 2, n)
  }

  /** The leaves after the last successful enter, by what the watcher remembers. */
  lemma {:induction false} LeavesMean(trace: seq<PatchCall>, j: nat, job: Job) returns (k: nat)
    requires Watched(trace, job).lawful && j < |trace| && trace[j] == Entered(true)
    requires forall i | j < i < |trace| :: !trace[i].Entered?
    ensures var w := Watched(trace, job);
            if !w.inside then ClosedBefore(trace, j, k, |trace|)
            else if w.failedLeaves == 0 then NoneIn(trace, j + 1, |trace|)
            else j < |trace| - 1 && trace[|trace| - 1] == Left(false) && NoneIn(trace, j + 1, |trace| - 1)
    decreases |trace|
  {
    k := 0;
    var before := trace[..|trace| - 1];
    if j < |before| {
      k := LeavesMean(before, j, job);
      var w := Watched(before, job);
      if w.inside && !Watched(trace, job).inside {
        k := if w.failedLeaves == 0 then |trace| - 1 else |trace| - 2;
      }
    }
  }

  /** Every successful enter gets one leave, or two when the first one fails. */
  lemma EntersAreLeft(trace: seq<PatchCall>, j: nat, n: nat, job: Job) returns (k: nat)
    requires Watched(trace, job).lawful && !Watched(trace, job).inside
    requires j < n <= |trace| && trace[j] == Entered(true)
    requires forall i | j < i < n :: !trace[i].Entered?
    requires n < |trace| ==> trace[n].Entered?
    ensures ClosedBefore(trace, j, k, n)
  {
    var upTo := trace[..n];
    LawfulPrefix(trace, n, job);
    if n < |trace| {
      LawfulPrefix(trace, n + 1, job);
      assert trace[..n + 1][..n] == upTo;
    } else {
      assert upTo == trace;
    }
    k := LeavesMean(upTo, j, job);
    assert forall i | 0 <= i < n :: trace[i] == upTo[i];
  }
}
