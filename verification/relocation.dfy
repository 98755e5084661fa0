/**
 What relocation keeps: the trampoline runs the stolen words elsewhere, and does what they
 did at the target exactly when no branch among them can leave them.
 */
module Relocation {
  import opened Bytes
  import opened Arm64
  import opened PatchPlanner
  import opened Trampolines
  import opened StolenWords

  const TRAMPOLINE_CODE: nat := 28

  function Words(original: seq<byte>): Block
    requires |original| == OVERWRITE_SIZE
  {
    [Stolen(original, 0), Stolen(original, 1), Stolen(original, 2), Stolen(original, 3)]
  }

  /**
   The first hypothesis on the instruction set: the stolen words it runs, which are neither the
   landing pad nor BC.cond, are position independent in it.
   */
  ghost predicate Independent(isa: Isa, words: Block) {
    forall k | 0 <= k < 4 && !IsFixed(words[k]) :: PositionIndependent(isa, words[k])
  }

  /** The second hypothesis: those of them that are in `keeps` leave the condition flags alone. */
  ghost predicate SparesFlags(isa: Isa, words: Block, keeps: nat -> bool) {
    forall k, m: Machine | 0 <= k < 4 && !IsFixed(words[k]) && keeps(words[k]) ::
      isa.effect(words[k], m).core.flags == m.core.flags
  }

  // ---------------------------------------------------------------------------
  // What it means to mean the same
  // ---------------------------------------------------------------------------

  /** The run from `m` leaves the addresses from `lo` up to `hi` for the first time at step `n`. */
  ghost predicate Leaves(step: Machine -> Machine, lo: nat, hi: nat, m: Machine, n: nat) {
    && !(lo <= Steps(step, m, n).pc < hi)
    && forall i: nat | i < n :: lo <= Steps(step, m, i).pc < hi
  }

  ghost predicate LeavesTarget(before: Machine -> Machine, target: nat, core: Core, n: nat) {
    Leaves(before, target, target + OVERWRITE_SIZE, Machine(target, core), n)
  }

  ghost predicate LeavesTrampoline(after: Machine -> Machine, t: nat, core: Core, k: nat) {
    Leaves(after, t, t + TRAMPOLINE_CODE, Machine(t, core), k)
  }

  /** The same machine, except perhaps in x17. */
  predicate AlikeButX17(m: Machine, n: Machine) {
    m.pc == n.pc && m.core.(x := m.core.x[17 := 0]) == n.core.(x := n.core.x[17 := 0])
  }

  /** Leaving the target's first 16 bytes at step `n` is leaving the trampoline's code at step `k`. */
  ghost predicate SameExit(before: Machine -> Machine, after: Machine -> Machine, target: nat, t: nat,
                           core: Core, n: nat, k: nat) {
    && LeavesTarget(before, target, core, n) && LeavesTrampoline(after, t, core, k)
    && AlikeButX17(Steps(before, Machine(target, core), n), Steps(after, Machine(t, core), k))
  }

  /** Each of the two runs leaves just when the other does, and in the same state up to x17. */
  ghost predicate SameExits(before: Machine -> Machine, after: Machine -> Machine, target: nat, t: nat, core: Core) {
    && (forall n: nat | LeavesTarget(before, target, core, n) ::
          exists k: nat :: SameExit(before, after, target, t, core, n, k))
    && (forall k: nat | LeavesTrampoline(after, t, core, k) ::
          exists n: nat :: SameExit(before, after, target, t, core, n, k))
  }

  /** For every instruction set that meets the hypotheses, every core and every surrounding code. */
  ghost predicate MeansTheSame(original: seq<byte>, target: nat, t: nat, keeps: nat -> bool)
    requires |original| == OVERWRITE_SIZE
  {
    forall isa: Isa, core: Core, before: Machine -> Machine, after: Machine -> Machine |
      && Independent(isa, Words(original)) && SparesFlags(isa, Words(original), keeps)
      && Executes(before, isa, target, original)
      && Executes(after, isa, t, Trampoline(original, target + OVERWRITE_SIZE))
      :: SameExits(before, after, target, t, core)
  }

  /** The trampoline addresses that validPlan admits for this target. */
  predicate Admitted(target: nat, t: nat) {
    t != 0 && t % 4 == 0 && t <= MAX_ADDRESS - 36 && (target + 16 <= t || t + 36 <= target)
  }

  /** Without the one right behind the stolen words: there the resume address is the trampoline itself. */
  predicate Placed(target: nat, t: nat) {
    Admitted(target, t) && t != target + 16
  }

  // ---------------------------------------------------------------------------
  // The stolen words without an address
  // ---------------------------------------------------------------------------

  /** Byte offset from the start of the block, and the core there. */
  datatype Walked = Walked(offset: int, core: Core)

  predicate InBlock(s: Walked) { 0 <= s.offset < 16 && s.offset % 4 == 0 }

  function PlaceOf(s: Walked): Place
    requires InBlock(s)
  {
    Place(s.offset / 4, s.core.flags)
  }

  function Advance(isa: Isa, words: Block, s: Walked): Walked
    requires InBlock(s)
  {
    var w := words[s.offset / 4];
    Walked(Landing(words, PlaceOf(s)), if IsFixed(w) then s.core else isa.effect(w, Machine(0, s.core)).core)
  }

  /** A walk through the block as a function, for any way to advance. */
  function Walk(advance: Walked -> Walked, core: Core, n: nat): Walked {
    if n == 0 then Walked(0, core) else advance(Walk(advance, core, n - 1))
  }

  function Advancer(isa: Isa, words: Block): Walked -> Walked {
    s => if InBlock(s) then Advance(isa, words, s) else s
  }

  /** The machine at a place of the walk, when the block lies at `a`. */
  function Laid(a: nat, s: Walked): Machine {
    Machine(Wrapped(a + s.offset), s.core)
  }

  lemma LaidInBlock(a: nat, s: Walked)
    requires a + 16 <= MAX_ADDRESS && 0 <= s.offset <= 16
    ensures Laid(a, s) == Machine(a + s.offset, s.core)
  {
  }

  /** At the addresses from `a` on, the machine does what `advance` does in the block. */
  ghost predicate FollowsFrom(step: Machine -> Machine, advance: Walked -> Walked, a: nat) {
    forall s: Walked | InBlock(s) :: step(Laid(a, s)) == Laid(a, advance(s))
  }

  lemma LandingPadIsPlain()
    ensures !IsConditionalBranch(BTI_CALL)
  {
    Powers();
    ShiftRightIs(BTI_CALL, 24);
    LowBitsIs(0xd5, 8);
  }

  /** The landing pad and BC.cond go where the block says, wherever it lies. */
  lemma FixedWordRuns(isa: Isa, a: nat, words: Block, s: Walked)
    requires InBlock(s) && IsFixed(words[s.offset / 4]) && a + 16 <= MAX_ADDRESS
    ensures Ran(isa, words[s.offset / 4], Laid(a, s)) == Laid(a, Advance(isa, words, s))
  {
    LaidInBlock(a, s);
    LandingPadIsPlain();
    assert Wrapped(a + s.offset + 4) == a + s.offset + 4;
  }

  /** A position-independent word falls through to the next, wherever it lies. */
  lemma OtherWordRuns(isa: Isa, a: nat, words: Block, s: Walked)
    requires InBlock(s) && !IsFixed(words[s.offset / 4]) && a + 16 <= MAX_ADDRESS
    requires PositionIndependent(isa, words[s.offset / 4])
    ensures Ran(isa, words[s.offset / 4], Laid(a, s)) == Laid(a, Advance(isa, words, s))
  {
    LaidInBlock(a, s);
    assert Wrapped(a + s.offset + 4) == a + s.offset + 4;
    assert FallsThroughAlike(isa, words[s.offset / 4], a + s.offset, 0, s.core);
  }

  function Runner(isa: Isa, words: Block, a: nat): Walked -> Machine {
    s => if InBlock(s) then Ran(isa, words[s.offset / 4], Laid(a, s)) else Laid(a, s)
  }

  ghost predicate StepsLike(step: Machine -> Machine, runner: Walked -> Machine, a: nat) {
    forall s: Walked | InBlock(s) :: step(Laid(a, s)) == runner(s)
  }

  ghost predicate RunsLike(runner: Walked -> Machine, advance: Walked -> Walked, a: nat) {
    forall s: Walked | InBlock(s) :: runner(s) == Laid(a, advance(s))
  }

  lemma StolenFetched(code: Code, a: nat, original: seq<byte>, k: nat)
    requires |original| == OVERWRITE_SIZE && AllAccepted(original) && Installed(code, a, original) && k < 4
    ensures Fetch(code, a + 4 * k, 4) == Words(original)[k] && Accepted(Words(original)[k])
  {
    FetchInstalled(code, a, original, 4 * k, 4);
    assert k == 0 || k == 1 || k == 2 || k == 3;
    assert Words(original)[k] == Stolen(original, k) && Accepted(Stolen(original, k));
  }

  lemma StolenStep(isa: Isa, code: Code, a: nat, original: seq<byte>, k: nat, m: Machine)
    requires |original| == OVERWRITE_SIZE && AllAccepted(original) && Installed(code, a, original)
    requires k < 4 && m.pc == a + 4 * k
    ensures Step(isa, code, m) == Ran(isa, Words(original)[k], m)
  {
    StolenFetched(code, a, original, k);
    StepAccepted(isa, code, m);
  }

  lemma ExecutedSteps(step: Machine -> Machine, isa: Isa, a: nat, original: seq<byte>)
    requires |original| == OVERWRITE_SIZE && AllAccepted(original) && Executes(step, isa, a, original)
    requires a + 16 <= MAX_ADDRESS
    ensures StepsLike(step, Runner(isa, Words(original), a), a)
  {
    var code: Code :| Runs(step, isa, code) && Installed(code, a, original);
    forall s: Walked | InBlock(s) ensures step(Laid(a, s)) == Ran(isa, Words(original)[s.offset / 4], Laid(a, s)) {
      LaidInBlock(a, s);
      StolenStep(isa, code, a, original, s.offset / 4, Laid(a, s));
    }
  }

  lemma RunnerAdvances(isa: Isa, words: Block, a: nat)
    requires Independent(isa, words) && a + 16 <= MAX_ADDRESS
    ensures RunsLike(Runner(isa, words, a), Advancer(isa, words), a)
  {
    forall s: Walked | InBlock(s)
      ensures Ran(isa, words[s.offset / 4], Laid(a, s)) == Laid(a, Advance(isa, words, s))
    {
      if IsFixed(words[s.offset / 4]) {
        FixedWordRuns(isa, a, words, s);
      } else {
        OtherWordRuns(isa, a, words, s);
      }
    }
  }

  lemma FollowsThrough(step: Machine -> Machine, runner: Walked -> Machine, advance: Walked -> Walked, a: nat)
    requires StepsLike(step, runner, a) && RunsLike(runner, advance, a)
    ensures FollowsFrom(step, advance, a)
  {
  }

  lemma ExecutedFollows(step: Machine -> Machine, isa: Isa, a: nat, original: seq<byte>)
    requires |original| == OVERWRITE_SIZE && AllAccepted(original) && Executes(step, isa, a, original)
    requires Independent(isa, Words(original)) && a + 16 <= MAX_ADDRESS
    ensures FollowsFrom(step, Advancer(isa, Words(original)), a)
  {
    ExecutedSteps(step, isa, a, original);
    RunnerAdvances(isa, Words(original), a);
    FollowsThrough(step, Runner(isa, Words(original), a), Advancer(isa, Words(original)), a);
  }

  /** The first `n` places of the walk are in the block. */
  ghost predicate StaysInBlock(advance: Walked -> Walked, core: Core, n: nat) {
    forall i: nat | i < n :: InBlock(Walk(advance, core, i))
  }

  /** While it stays in the block, the machine follows the walk. */
  lemma {:induction false} FollowsWalk(step: Machine -> Machine, advance: Walked -> Walked, a: nat, core: Core, n: nat)
    requires FollowsFrom(step, advance, a) && a + 16 <= MAX_ADDRESS && StaysInBlock(advance, core, n)
    ensures Steps(step, Machine(a, core), n) == Laid(a, Walk(advance, core, n))
  {
    if n > 0 {
      FollowsWalk(step, advance, a, core, n - 1);
      StepsLast(step, Machine(a, core), n - 1);
    }
  }

  // ---------------------------------------------------------------------------
  // A walk that can only end behind the block
  // ---------------------------------------------------------------------------

  ghost predicate Confined(advance: Walked -> Walked, core: Core) {
    forall n: nat :: InBlock(Walk(advance, core, n)) || Walk(advance, core, n).offset == 16
  }

  ghost predicate Ends(advance: Walked -> Walked, core: Core, n: nat) {
    StaysInBlock(advance, core, n) && Walk(advance, core, n).offset == 16
  }

  /** The landing pad before the words, and the absolute branch behind them. */
  predicate FramedFor(after: Machine -> Machine, t: nat, resume: nat, core: Core) {
    && after(Machine(t, core)) == Machine(t + 4, core)
    && after(Machine(t + 20, core)) == Machine(t + 24, core.(x := core.x[17 := resume]))
    && after(Machine(t + 24, core)) == Machine(Register(core, 17), core)
  }

  ghost predicate Framed(after: Machine -> Machine, t: nat, resume: nat) {
    forall core: Core :: FramedFor(after, t, resume, core)
  }

  lemma {:induction false} InsideStays(before: Machine -> Machine, advance: Walked -> Walked, a: nat,
                                       core: Core, n: nat)
    requires FollowsFrom(before, advance, a) && a + 16 <= MAX_ADDRESS && Confined(advance, core)
    requires forall i: nat | i < n :: a <= Steps(before, Machine(a, core), i).pc < a + 16
    ensures StaysInBlock(advance, core, n)
  {
    if n > 0 {
      InsideStays(before, advance, a, core, n - 1);
      FollowsWalk(before, advance, a, core, n - 1);
      var s := Walk(advance, core, n - 1);
      assert InBlock(s) || s.offset == 16;
      LaidInBlock(a, s);
    }
  }

  lemma EndsLeaves(before: Machine -> Machine, advance: Walked -> Walked, a: nat, core: Core, n: nat)
    requires FollowsFrom(before, advance, a) && a + 16 <= MAX_ADDRESS && Ends(advance, core, n)
    ensures Leaves(before, a, a + 16, Machine(a, core), n)
    ensures Steps(before, Machine(a, core), n) == Machine(a + 16, Walk(advance, core, n).core)
  {
    forall i: nat | i <= n
      ensures Steps(before, Machine(a, core), i).pc == a + Walk(advance, core, i).offset
      ensures i == n ==> Steps(before, Machine(a, core), n) == Machine(a + 16, Walk(advance, core, n).core)
    {
      FollowsWalk(before, advance, a, core, i);
      LaidInBlock(a, Walk(advance, core, i));
    }
  }

  /** The original leaves exactly where the walk ends. */
  lemma TargetLeaves(before: Machine -> Machine, advance: Walked -> Walked, target: nat, core: Core, n: nat)
    requires FollowsFrom(before, advance, target) && target + 16 <= MAX_ADDRESS && Confined(advance, core)
    ensures LeavesTarget(before, target, core, n) <==> Ends(advance, core, n)
  {
    if LeavesTarget(before, target, core, n) {
      InsideStays(before, advance, target, core, n);
      FollowsWalk(before, advance, target, core, n);
      var s := Walk(advance, core, n);
      assert InBlock(s) || s.offset == 16;
      LaidInBlock(target, s);
    }
    if Ends(advance, core, n) {
      EndsLeaves(before, advance, target, core, n);
    }
  }

  /** One step before and two behind a run. */
  lemma Surrounded(step: Machine -> Machine, m: Machine, m1: Machine, m2: Machine, n: nat)
    requires step(m) == m1 && Steps(step, m1, n) == m2
    ensures forall i: nat | 0 < i :: Steps(step, m, i) == Steps(step, m1, i - 1)
    ensures Steps(step, m, n + 2) == step(m2) && Steps(step, m, n + 3) == step(step(m2))
  {
    StepsLast(step, m1, n);
    StepsLast(step, m1, n + 1);
    assert Steps(step, m, n + 2) == Steps(step, m1, n + 1);
    assert Steps(step, m, n + 3) == Steps(step, m1, n + 2);
  }

  /** The trampoline reaches the resume address three steps later, and is in its own code until then. */
  lemma TrampolineResumes(after: Machine -> Machine, advance: Walked -> Walked, t: nat, resume: nat, core: Core, n: nat)
    requires FollowsFrom(after, advance, t + 4) && t + 20 <= MAX_ADDRESS && Framed(after, t, resume)
    requires Ends(advance, core, n)
    ensures forall i: nat | i < n + 3 :: t <= Steps(after, Machine(t, core), i).pc < t + TRAMPOLINE_CODE
    ensures var c := Walk(advance, core, n).core;
            Steps(after, Machine(t, core), n + 3) == Machine(resume, c.(x := c.x[17 := resume]))
  {
    var m, m1 := Machine(t, core), Machine(t + 4, core);
    var c := Walk(advance, core, n).core;
    EndsLeaves(after, advance, t + 4, core, n);
    assert FramedFor(after, t, resume, core) && FramedFor(after, t, resume, c);
    assert FramedFor(after, t, resume, c.(x := c.x[17 := resume]));
    Surrounded(after, m, m1, Machine(t + 20, c), n);
    forall i: nat | i < n + 3 ensures t <= Steps(after, m, i).pc < t + TRAMPOLINE_CODE {
      if i == 0 {
        assert Steps(after, m, 0) == m;
      } else if i < n + 2 {
        assert Steps(after, m, i) == Steps(after, m1, i - 1);
      }
    }
  }

  lemma {:induction false} FirstEnd(advance: Walked -> Walked, core: Core, k: nat)
    requires Confined(advance, core) && !StaysInBlock(advance, core, k)
    ensures exists n: nat :: Ends(advance, core, n)
  {
    if StaysInBlock(advance, core, k - 1) {
      var s := Walk(advance, core, k - 1);
      assert InBlock(s) || s.offset == 16;
      assert Ends(advance, core, k - 1);
    } else {
      FirstEnd(advance, core, k - 1);
    }
  }

  /** A trampoline run that leaves has come to the end of the walk. */
  lemma LeavesOnlyAtEnd(after: Machine -> Machine, advance: Walked -> Walked, t: nat, resume: nat, core: Core, k: nat)
    requires FollowsFrom(after, advance, t + 4) && t + 20 <= MAX_ADDRESS && Framed(after, t, resume)
    requires Confined(advance, core) && LeavesTrampoline(after, t, core, k)
    ensures exists n: nat :: Ends(advance, core, n)
  {
    var m, m1 := Machine(t, core), Machine(t + 4, core);
    if k > 0 && StaysInBlock(advance, core, k) {
      assert FramedFor(after, t, resume, core);
      assert Steps(after, m, k) == Steps(after, m1, k - 1);
      FollowsWalk(after, advance, t + 4, core, k - 1);
      LaidInBlock(t + 4, Walk(advance, core, k - 1));
    } else {
      assert k > 0;
      FirstEnd(advance, core, k);
    }
  }

  lemma LeavesOnce(step: Machine -> Machine, lo: nat, hi: nat, m: Machine, j: nat, k: nat)
    requires Leaves(step, lo, hi, m, j) && Leaves(step, lo, hi, m, k)
    ensures j == k
  {
  }

  /** Two copies of the same confined block, one of them framed, leave alike. */
  lemma ConfinedMeansTheSame(before: Machine -> Machine, after: Machine -> Machine, advance: Walked -> Walked,
                             target: nat, t: nat, core: Core)
    requires FollowsFrom(before, advance, target) && target + 16 <= MAX_ADDRESS
    requires FollowsFrom(after, advance, t + 4) && t + 20 <= MAX_ADDRESS && Framed(after, t, target + 16)
    requires Confined(advance, core) && !(t <= target + 16 < t + TRAMPOLINE_CODE)
    ensures SameExits(before, after, target, t, core)
  {
    forall n: nat | LeavesTarget(before, target, core, n)
      ensures exists k: nat :: SameExit(before, after, target, t, core, n, k)
    {
      TargetLeaves(before, advance, target, core, n);
      SameEnd(before, after, advance, target, t, core, n);
    }
    forall k: nat | LeavesTrampoline(after, t, core, k)
      ensures exists n: nat :: SameExit(before, after, target, t, core, n, k)
    {
      LeavesOnlyAtEnd(after, advance, t, target + 16, core, k);
      var n: nat :| Ends(advance, core, n);
      SameEnd(before, after, advance, target, t, core, n);
      LeavesOnce(after, t, t + TRAMPOLINE_CODE, Machine(t, core), k, n + 3);
    }
  }

  lemma SameEnd(before: Machine -> Machine, after: Machine -> Machine, advance: Walked -> Walked,
                target: nat, t: nat, core: Core, n: nat)
    requires FollowsFrom(before, advance, target) && target + 16 <= MAX_ADDRESS
    requires FollowsFrom(after, advance, t + 4) && t + 20 <= MAX_ADDRESS && Framed(after, t, target + 16)
    requires Ends(advance, core, n) && !(t <= target + 16 < t + TRAMPOLINE_CODE)
    ensures SameExit(before, after, target, t, core, n, n + 3)
  {
    EndsLeaves(before, advance, target, core, n);
    TrampolineResumes(after, advance, t, target + 16, core, n);
    var x := Walk(advance, core, n).core.x;
    assert x[17 := target + 16][17 := 0] == x[17 := 0];
  }

  // ---------------------------------------------------------------------------
  // The trampoline keeps the meaning of words that cannot escape
  // ---------------------------------------------------------------------------

  lemma AdvanceFollows(isa: Isa, words: Block, keeps: nat -> bool, s: Walked)
    requires InBlock(s) && SparesFlags(isa, words, keeps)
    ensures var next := Advance(isa, words, s);
            && next.offset == Landing(words, PlaceOf(s)) && next.offset % 4 == 0
            && (InBlock(next) ==> Follows(words, keeps, PlaceOf(s), PlaceOf(next)))
  {
    var w, m := words[s.offset / 4], Machine(0, s.core);
    if !IsFixed(w) && keeps(w) {
      assert isa.effect(w, m).core.flags == m.core.flags;
    }
  }

  lemma {:induction false} WalkIsReachable(isa: Isa, words: Block, keeps: nat -> bool, core: Core, n: nat)
    requires !CanEscape(words, keeps) && SparesFlags(isa, words, keeps)
    ensures var s := Walk(Advancer(isa, words), core, n);
            (InBlock(s) && PlaceOf(s) in Reachable(words, keeps, Entry())) || s.offset == 16
  {
    if n == 0 {
      EntryIsReachable(words, keeps, core.flags);
    } else {
      WalkIsReachable(isa, words, keeps, core, n - 1);
      var s := Walk(Advancer(isa, words), core, n - 1);
      if InBlock(s) {
        AdvanceFollows(isa, words, keeps, s);
        var next := Advance(isa, words, s);
        if InBlock(next) {
          ReachableStep(words, keeps, PlaceOf(s), PlaceOf(next));
        }
      }
    }
  }

  lemma NoEscapeIsConfined(isa: Isa, words: Block, keeps: nat -> bool, core: Core)
    requires !CanEscape(words, keeps) && SparesFlags(isa, words, keeps)
    ensures Confined(Advancer(isa, words), core)
  {
    forall n: nat
      ensures var s := Walk(Advancer(isa, words), core, n); InBlock(s) || s.offset == 16
    {
      WalkIsReachable(isa, words, keeps, core, n);
    }
  }

  /** The frame, instruction by instruction. */
  lemma TrampolineIsFramed(step: Machine -> Machine, isa: Isa, t: nat, original: seq<byte>, resume: uintptr)
    requires |original| == OVERWRITE_SIZE && Executes(step, isa, t, Trampoline(original, resume))
    ensures Framed(step, t, resume) && Executes(step, isa, t + 4, original)
  {
    var code: Code :| Runs(step, isa, code) && Installed(code, t, Trampoline(original, resume));
    TrampolineParts(code, t, original, resume);
    forall core: Core ensures FramedFor(step, t, resume, core) {
      AbsoluteBranchSteps(isa, code, t + 20, core, resume);
      assert step(Machine(t, core)) == Step(isa, code, Machine(t, core));
    }
  }

  lemma TrampolineFollows(step: Machine -> Machine, isa: Isa, t: nat, original: seq<byte>, resume: uintptr)
    requires |original| == OVERWRITE_SIZE && AllAccepted(original) && t + 20 <= MAX_ADDRESS
    requires Independent(isa, Words(original)) && Executes(step, isa, t, Trampoline(original, resume))
    ensures FollowsFrom(step, Advancer(isa, Words(original)), t + 4) && Framed(step, t, resume)
  {
    TrampolineIsFramed(step, isa, t, original, resume);
    ExecutedFollows(step, isa, t + 4, original);
  }

  /** Words that cannot escape leave the trampoline as they leave the target. */
  lemma RelocatedRuns(isa: Isa, original: seq<byte>, target: uintptr, t: nat, keeps: nat -> bool, core: Core,
                      before: Machine -> Machine, after: Machine -> Machine)
    requires |original| == OVERWRITE_SIZE && AllAccepted(original) && !CanEscape(Words(original), keeps)
    requires target <= MAX_ADDRESS - OVERWRITE_SIZE && Placed(target, t)
    requires Independent(isa, Words(original)) && SparesFlags(isa, Words(original), keeps)
    requires Executes(before, isa, target, original)
    requires Executes(after, isa, t, Trampoline(original, target + OVERWRITE_SIZE))
    ensures SameExits(before, after, target, t, core)
  {
    ExecutedFollows(before, isa, target, original);
    TrampolineFollows(after, isa, t, original, target + OVERWRITE_SIZE);
    NoEscapeIsConfined(isa, Words(original), keeps, core);
    ConfinedMeansTheSame(before, after, Advancer(isa, Words(original)), target, t, core);
  }

  /** The only way out of them is the resume address. */
  lemma RelocatedResumes(isa: Isa, original: seq<byte>, target: uintptr, keeps: nat -> bool, core: Core,
                         before: Machine -> Machine, n: nat)
    requires |original| == OVERWRITE_SIZE && AllAccepted(original) && !CanEscape(Words(original), keeps)
    requires target <= MAX_ADDRESS - OVERWRITE_SIZE
    requires Independent(isa, Words(original)) && SparesFlags(isa, Words(original), keeps)
    requires Executes(before, isa, target, original) && LeavesTarget(before, target, core, n)
    ensures Steps(before, Machine(target, core), n).pc == target + OVERWRITE_SIZE
  {
    var advance := Advancer(isa, Words(original));
    ExecutedFollows(before, isa, target, original);
    NoEscapeIsConfined(isa, Words(original), keeps, core);
    TargetLeaves(before, advance, target, core, n);
    EndsLeaves(before, advance, target, core, n);
  }

  /** Words that cannot escape mean the same in the trampoline, wherever it is placed. */
  lemma RelocatedMeansTheSame(original: seq<byte>, target: uintptr, t: nat, keeps: nat -> bool)
    requires |original| == OVERWRITE_SIZE && AllAccepted(original) && !CanEscape(Words(original), keeps)
    requires target <= MAX_ADDRESS - OVERWRITE_SIZE && Placed(target, t)
    ensures MeansTheSame(original, target, t, keeps)
  {
    forall isa: Isa, core: Core, before: Machine -> Machine, after: Machine -> Machine |
      && Independent(isa, Words(original)) && SparesFlags(isa, Words(original), keeps)
      && Executes(before, isa, target, original)
      && Executes(after, isa, t, Trampoline(original, target + OVERWRITE_SIZE))
      ensures SameExits(before, after, target, t, core)
    {
      RelocatedRuns(isa, original, target, t, keeps, core, before, after);
    }
  }
}
