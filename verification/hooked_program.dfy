/**
 The planner, the transaction and the machine together: what a committed hook does to
 the program that runs through it.
 */
module HookedProgram {
  import opened Bytes
  import opened Arm64
  import opened PatchPlanner
  import opened Trampolines
  import opened StolenWords
  import opened Relocation
  import opened PrecompiledTrampolines
  import opened PatchBackends
  import opened PatchLaws

  lemma HoldsIsInstalled(m: Memory, a: nat, bytes: seq<byte>)
    ensures Holds(m, a, bytes) <==> Installed(m, a, bytes)
  {
    if Holds(m, a, bytes) {
      forall i | 0 <= i < |bytes| ensures m(a + i) == bytes[i] {
        assert Slice(m, a, |bytes|)[i] == bytes[i];
      }
    }
  }

  lemma HeldIsExecuted(m: Memory, a: nat, bytes: seq<byte>, step: Machine -> Machine, isa: Isa)
    requires Holds(m, a, bytes) && Runs(step, isa, m)
    ensures Executes(step, isa, a, bytes)
  {
    HoldsIsInstalled(m, a, bytes);
  }

  /** After a successful commit, entering the target ends in the replacement with only x17 changed. */
  lemma CommittedHookReplaces(job: Job, replacement: uintptr, prologue: seq<byte>, start: Memory, after: Memory,
                              r: InstallResult, isa: Isa, core: Core, step: Machine -> Machine)
    requires ValidPlan(job) && job.plan == Planned(job.target, replacement, prologue)
    requires CommitOutcome(job, start, after, r) && r.status == Ok && Runs(step, isa, after)
    ensures Steps(step, Machine(job.target, core), 2) == Machine(replacement, core.(x := core.x[17 := replacement]))
  {
    HeldIsExecuted(after, job.target, job.plan.entryPatch, step, isa);
    EntryPatchReachesReplacement(step, isa, job.target, replacement, prologue, core);
  }

  /** What a commit of a written trampoline leaves in memory. */
  lemma CommittedMemory(job: Job, replacement: uintptr, prologue: seq<byte>,
                        start: Memory, after: Memory, r: InstallResult)
    requires ValidPlan(job) && job.trampoline.Written? && job.plan == Planned(job.target, replacement, prologue)
    requires CommitOutcome(job, start, after, r) && r.status == Ok
    ensures |job.plan.originalBytes| == OVERWRITE_SIZE && AllAccepted(job.plan.originalBytes)
    ensures job.target <= MAX_ADDRESS - OVERWRITE_SIZE && Admitted(job.target, job.trampolineAddress)
    ensures Holds(start, job.target, job.plan.originalBytes)
    ensures Holds(after, job.trampolineAddress,
                  PatchPlanner.Trampoline(job.plan.originalBytes, job.target + OVERWRITE_SIZE))
  {
    ReadyWordsAccepted(prologue, 0);
    PlannerPlansValidate(job.target, replacement, prologue, job.trampolineAddress);
  }

  /** A written trampoline runs the words that `start` had at the target. */
  lemma WrittenTrampolineRuns(bytes: seq<byte>, target: uintptr, t: nat, start: Memory, after: Memory,
                              keeps: nat -> bool, isa: Isa, core: Core,
                              original: Machine -> Machine, hooked: Machine -> Machine)
    requires |bytes| == OVERWRITE_SIZE && AllAccepted(bytes) && target <= MAX_ADDRESS - OVERWRITE_SIZE
    requires Holds(start, target, bytes) && Placed(target, t)
    requires Holds(after, t, PatchPlanner.Trampoline(bytes, target + OVERWRITE_SIZE))
    requires !CanEscape(Words(bytes), keeps) && Independent(isa, Words(bytes))
    requires SparesFlags(isa, Words(bytes), keeps)
    requires Runs(original, isa, start) && Runs(hooked, isa, after)
    ensures SameExits(original, hooked, target, t, core)
  {
    HeldIsExecuted(start, target, bytes, original, isa);
    HeldIsExecuted(after, t, PatchPlanner.Trampoline(bytes, target + OVERWRITE_SIZE), hooked, isa);
    RelocatedRuns(isa, bytes, target, t, keeps, core, original, hooked);
  }

  /**
   After a successful commit of a planner's plan, entering the written trampoline does what
   entering the target did before the commit, up to x17, if no stolen branch can leave the
   stolen words and the trampoline is not right behind them.
   */
  lemma CommittedHookRuns(job: Job, replacement: uintptr, prologue: seq<byte>, start: Memory, after: Memory,
                          r: InstallResult, keeps: nat -> bool, isa: Isa, core: Core,
                          original: Machine -> Machine, hooked: Machine -> Machine)
    requires ValidPlan(job) && job.trampoline.Written? && job.plan == Planned(job.target, replacement, prologue)
    requires CommitOutcome(job, start, after, r) && r.status == Ok
    requires |job.plan.originalBytes| == OVERWRITE_SIZE && !CanEscape(Words(job.plan.originalBytes), keeps)
    requires SparesFlags(isa, Words(job.plan.originalBytes), keeps)
    requires Independent(isa, Words(job.plan.originalBytes)) && job.trampolineAddress != job.target + OVERWRITE_SIZE
    requires Runs(original, isa, start) && Runs(hooked, isa, after)
    ensures SameExits(original, hooked, job.target, job.trampolineAddress, core)
  {
    CommittedMemory(job, replacement, prologue, start, after, r);
    WrittenTrampolineRuns(job.plan.originalBytes, job.target, job.trampolineAddress, start, after, keeps, isa,
                          core, original, hooked);
  }

  /** A commit leaves a precompiled trampoline as it is. */
  lemma PrecompiledStays(job: Job, start: Memory, after: Memory, code: seq<byte>)
    requires ValidPlan(job) && job.trampoline.Precompiled? && |code| <= job.trampoline.codeSize
    requires OnlyOwnRanges(job, start, after) && Holds(start, job.trampolineAddress, code)
    ensures Holds(after, job.trampolineAddress, code)
  {
    var a := job.trampolineAddress;
    forall i | 0 <= i < |code| ensures Slice(after, a, |code|)[i] == code[i] {
      assert !InTarget(job, a + i) && !InTrampoline(job, a + i);
      assert Slice(start, a, |code|)[i] == code[i];
    }
  }

  /** What a commit over a precompiled trampoline leaves in memory. */
  lemma CommittedPrecompiledMemory(job: Job, start: Memory, after: Memory, r: InstallResult, adrp: nat, add: nat)
    requires ValidPlan(job) && job.trampoline.Precompiled? && PRECOMPILED_SIZE <= job.trampoline.codeSize
    requires CommitOutcome(job, start, after, r) && r.status == Ok
    requires Holds(start, job.trampolineAddress, PrecompiledCode(adrp, add, job.trampoline.relocated))
    ensures |job.plan.originalBytes| == OVERWRITE_SIZE
    ensures 0 < job.target + 16 == job.plan.resumeAddress <= MAX_ADDRESS
    ensures job.trampolineAddress + PRECOMPILED_SIZE <= MAX_ADDRESS
    ensures job.trampolineAddress != job.target + 16 ==>
              !(job.trampolineAddress <= job.target + 16 < job.trampolineAddress + PRECOMPILED_SIZE)
    ensures Holds(start, job.target, job.plan.originalBytes)
    ensures Holds(after, job.trampolineAddress, PrecompiledCode(adrp, add, job.plan.originalBytes))
  {
    PrecompiledStays(job, start, after, PrecompiledCode(adrp, add, job.trampoline.relocated));
  }

  lemma BoundTrampolineRuns(bytes: seq<byte>, target: uintptr, t: nat, start: Memory, after: Memory, adrp: nat,
                            add: nat, keeps: nat -> bool, isa: Isa, core: Core,
                            original: Machine -> Machine, hooked: Machine -> Machine)
    requires |bytes| == OVERWRITE_SIZE && AllAccepted(bytes) && !CanEscape(Words(bytes), keeps)
    requires Independent(isa, Words(bytes)) && SparesFlags(isa, Words(bytes), keeps) && SparesScratch(isa, Words(bytes))
    requires IsAdrpX16(adrp) && IsAddX16(add) && IsA64(isa, adrp, add, t)
    requires target + 16 <= MAX_ADDRESS && t + PRECOMPILED_SIZE <= MAX_ADDRESS
    requires Holds(start, target, bytes) && Holds(after, t, PrecompiledCode(adrp, add, bytes))
    requires Runs(original, isa, start) && Runs(hooked, isa, after)
    requires Doubleword(core, CellOf(adrp, add, t)) == target + 16 && !(t <= target + 16 < t + PRECOMPILED_SIZE)
    ensures SameWayOn(original, hooked, target, t, CellOf(adrp, add, t), core)
  {
    HeldIsExecuted(start, target, bytes, original, isa);
    HeldIsExecuted(after, t, PrecompiledCode(adrp, add, bytes), hooked, isa);
    PrecompiledRuns(isa, bytes, target, t, adrp, add, keeps, core, original, hooked);
  }

  /**
   The same for a precompiled trampoline: with the resume address in its cell, it leaves for
   that address just when the target's words left, in the same state up to x16 and x17.
   */
  lemma CommittedPrecompiledRuns(job: Job, start: Memory, after: Memory, r: InstallResult, adrp: nat, add: nat,
                                 keeps: nat -> bool, isa: Isa, core: Core,
                                 original: Machine -> Machine, hooked: Machine -> Machine)
    requires ValidPlan(job) && job.trampoline.Precompiled? && PRECOMPILED_SIZE <= job.trampoline.codeSize
    requires CommitOutcome(job, start, after, r) && r.status == Ok
    requires |job.plan.originalBytes| == OVERWRITE_SIZE && AllAccepted(job.plan.originalBytes)
    requires !CanEscape(Words(job.plan.originalBytes), keeps) && SparesFlags(isa, Words(job.plan.originalBytes), keeps)
    requires Independent(isa, Words(job.plan.originalBytes)) && SparesScratch(isa, Words(job.plan.originalBytes))
    requires IsAdrpX16(adrp) && IsAddX16(add) && IsA64(isa, adrp, add, job.trampolineAddress)
    requires Holds(start, job.trampolineAddress, PrecompiledCode(adrp, add, job.trampoline.relocated))
    requires Runs(original, isa, start) && Runs(hooked, isa, after)
    requires Doubleword(core, CellOf(adrp, add, job.trampolineAddress)) == job.plan.resumeAddress
    requires job.trampolineAddress != job.target + OVERWRITE_SIZE
    ensures SameWayOn(original, hooked, job.target, job.trampolineAddress,
                      CellOf(adrp, add, job.trampolineAddress), core)
  {
    CommittedPrecompiledMemory(job, start, after, r, adrp, add);
    BoundTrampolineRuns(job.plan.originalBytes, job.target, job.trampolineAddress, start, after, adrp, add, keeps, isa,
                        core, original, hooked);
  }
}
