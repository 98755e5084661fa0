/**
 The other half: words that can escape do not mean the same in a trampoline that is far
 enough away. With `Relocation` that gives the exact condition, for every planned hook.
 */
module RelocationLimits {
  import opened Bytes
  import opened Arm64
  import opened PatchPlanner
  import opened Trampolines
  import opened StolenWords
  import opened Relocation

  // ---------------------------------------------------------------------------
  // An instruction set that makes the machine take a given path
  // ---------------------------------------------------------------------------

  function Cursor(core: Core): int {
    if 0 in core.data then core.data[0] else 0
  }

  /** Words in `keeps` do nothing. Any other sets the flags to the next of the schedule and counts one up. */
  function Scheduled(schedule: seq<Flags>, keeps: nat -> bool): Isa {
    Isa((w: nat, m: Machine) => Machine(m.pc + 4, if keeps(w) then m.core else OneOn(schedule, m.core)))
  }

  function OneOn(schedule: seq<Flags>, core: Core): Core {
    var c := Cursor(core);
    Core(core.x, if 0 <= c < |schedule| then schedule[c] else 0, core.data[0 := c + 1])
  }

  lemma ScheduledDoes(schedule: seq<Flags>, keeps: nat -> bool, w: nat, m: Machine)
    ensures Scheduled(schedule, keeps).effect(w, m)
            == Machine(m.pc + 4, if keeps(w) then m.core else OneOn(schedule, m.core))
  {
  }

  lemma ScheduledIsIndependent(schedule: seq<Flags>, keeps: nat -> bool, words: Block)
    ensures Independent(Scheduled(schedule, keeps), words) && SparesFlags(Scheduled(schedule, keeps), words, keeps)
  {
  }

  /** The flags that the first `i` steps of a path have to set. */
  function Schedule(words: Block, keeps: nat -> bool, path: seq<Place>, i: nat): seq<Flags>
    requires InWords(path) && i < |path|
  {
    if i == 0 then []
    else
      Schedule(words, keeps, path, i - 1)
      + if KeepsFlags(keeps, words[path[i - 1].word]) then [] else [path[i].flags]
  }

  lemma {:induction false} SchedulePrefix(words: Block, keeps: nat -> bool, path: seq<Place>, i: nat, j: nat)
    requires InWords(path) && i <= j < |path|
    ensures Schedule(words, keeps, path, i) <= Schedule(words, keeps, path, j)
  {
    if i < j {
      SchedulePrefix(words, keeps, path, i, j - 1);
    }
  }

  function PathCore(words: Block, keeps: nat -> bool, path: seq<Place>, i: nat, x17: nat): Core
    requires InWords(path) && i < |path|
  {
    Core(map[17 := x17], path[i].flags, map[0 := |Schedule(words, keeps, path, i)|])
  }

  lemma {:induction false} PathSetsFlags(words: Block, keeps: nat -> bool, path: seq<Place>, i: nat)
    requires InWords(path) && i + 1 < |path| && !KeepsFlags(keeps, words[path[i].word])
    ensures |Schedule(words, keeps, path, i)| + 1 == |Schedule(words, keeps, path, i + 1)|
    ensures |Schedule(words, keeps, path, i + 1)| <= |Schedule(words, keeps, path, |path| - 1)|
    ensures Schedule(words, keeps, path, |path| - 1)[|Schedule(words, keeps, path, i)|] == path[i + 1].flags
  {
    SchedulePrefix(words, keeps, path, i + 1, |path| - 1);
    var sooner, later := Schedule(words, keeps, path, i), Schedule(words, keeps, path, i + 1);
    assert later == sooner + [path[i + 1].flags];
    assert later[|sooner|] == path[i + 1].flags;
  }

  lemma {:induction false} PathAdvances(words: Block, keeps: nat -> bool, path: seq<Place>, i: nat, x17: nat)
    requires IsPath(words, keeps, path) && i + 1 < |path|
    ensures var isa := Scheduled(Schedule(words, keeps, path, |path| - 1), keeps);
            Advance(isa, words, Walked(4 * path[i].word, PathCore(words, keeps, path, i, x17)))
            == Walked(4 * path[i + 1].word, PathCore(words, keeps, path, i + 1, x17))
  {
    assert Follows(words, keeps, path[i + 1 - 1], path[i + 1]);
    assert PlaceOf(Walked(4 * path[i].word, PathCore(words, keeps, path, i, x17))) == path[i];
    var c := |Schedule(words, keeps, path, i)|;
    ScheduledDoes(Schedule(words, keeps, path, |path| - 1), keeps, words[path[i].word],
                  Machine(0, PathCore(words, keeps, path, i, x17)));
    if !KeepsFlags(keeps, words[path[i].word]) {
      PathSetsFlags(words, keeps, path, i);
      assert map[0 := c][0 := c + 1] == map[0 := c + 1];
    }
  }

  lemma {:induction false} WalkAlong(advance: Walked -> Walked, core: Core, trail: seq<Walked>, i: nat)
    requires i < |trail| && trail[0] == Walked(0, core)
    requires forall j | 0 < j < |trail| :: advance(trail[j - 1]) == trail[j]
    ensures Walk(advance, core, i) == trail[i]
  {
    if i > 0 {
      WalkAlong(advance, core, trail, i - 1);
    }
  }

  function TrailAt(words: Block, keeps: nat -> bool, path: seq<Place>, i: nat, x17: nat): (r: Walked)
    requires InWords(path) && i < |path|
    ensures InBlock(r)
  {
    Walked(4 * path[i].word, PathCore(words, keeps, path, i, x17))
  }

  function Trail(words: Block, keeps: nat -> bool, path: seq<Place>, x17: nat): (r: seq<Walked>)
    requires InWords(path)
    ensures |r| == |path| && forall i | 0 <= i < |r| :: InBlock(r[i])
  {
    seq(|path|, i requires 0 <= i < |path| => TrailAt(words, keeps, path, i, x17))
  }

  function PathIsa(words: Block, keeps: nat -> bool, path: seq<Place>): Isa
    requires InWords(path)
  {
    Scheduled(Schedule(words, keeps, path, |path| - 1), keeps)
  }

  /** The walk of that instruction set is the path. */
  lemma {:induction false} WalkIsPath(words: Block, keeps: nat -> bool, path: seq<Place>, x17: nat)
    requires IsPath(words, keeps, path)
    ensures forall i | 0 <= i < |path| ::
              Walk(Advancer(PathIsa(words, keeps, path), words), PathCore(words, keeps, path, 0, x17), i)
              == Trail(words, keeps, path, x17)[i]
  {
    var advance, trail := Advancer(PathIsa(words, keeps, path), words), Trail(words, keeps, path, x17);
    forall j | 0 < j < |trail| ensures advance(trail[j - 1]) == trail[j] {
      PathAdvances(words, keeps, path, j - 1, x17);
    }
    forall i | 0 <= i < |path| ensures Walk(advance, PathCore(words, keeps, path, 0, x17), i) == trail[i] {
      WalkAlong(advance, PathCore(words, keeps, path, 0, x17), trail, i);
    }
  }

  // ---------------------------------------------------------------------------
  // Where a far trampoline can be left
  // ---------------------------------------------------------------------------

  const FAR: nat := 0x100_0000_0000

  /** A place for the trampoline that no conditional branch of the target can reach. */
  function Far(target: nat): int {
    if target < 0x4000_0000_0000_0000 then target + FAR else target - FAR
  }

  predicate Near(t: int, pc: int) { t - 0x20_0000 <= pc <= t + 0x20_0000 }

  lemma FarIsPlaced(target: uintptr)
    requires target % 4 == 0
    ensures Placed(target, Far(target))
  {
  }

  /** Where a branch out of the target's words goes is not near the far trampoline. */
  lemma OutsideIsFar(target: uintptr, offset: int)
    requires -0x10_0000 <= offset <= 0x10_0010 && !(0 <= offset <= 16) && target <= MAX_ADDRESS - 16
    ensures var pc := Wrapped(target + offset);
            pc != target && pc != target + 16 && !(target <= pc < target + 16) && !Near(Far(target), pc)
  {
    var a := target + offset;
    if a < 0 {
      assert Wrapped(a) == a + MAX_ADDRESS + 1;
    } else if a > MAX_ADDRESS {
      assert Wrapped(a) == a - MAX_ADDRESS - 1;
    } else {
      assert Wrapped(a) == a;
    }
  }

  /** Advancing keeps the registers and goes no further than a conditional branch can. */
  predicate IsShort(s: Walked, next: Walked) {
    next.core.x == s.core.x && next.offset % 4 == 0 && -0x10_0000 <= next.offset <= 0x10_0010
  }

  ghost predicate AdvancesShort(advance: Walked -> Walked) {
    forall s: Walked | InBlock(s) :: IsShort(s, advance(s))
  }

  lemma ScheduledIsShort(schedule: seq<Flags>, keeps: nat -> bool, words: Block)
    ensures AdvancesShort(Advancer(Scheduled(schedule, keeps), words))
  {
    forall s: Walked | InBlock(s) ensures IsShort(s, Advance(Scheduled(schedule, keeps), words, s)) {
      LandingIsShort(words, PlaceOf(s));
      ScheduledDoes(schedule, keeps, words[s.offset / 4], Machine(0, s.core));
    }
  }

  lemma LandingIsShort(words: Block, p: Place)
    requires p.word < 4
    ensures -0x10_0000 <= Landing(words, p) <= 0x10_0010 && Landing(words, p) % 4 == 0
  {
    LowBitsIs(ShiftRight(words[p.word], 5), 19);
    Powers();
  }

  /** In the trampoline's code, at an instruction, with a known x17. */
  predicate Aboard(t: nat, target: nat, m: Machine) {
    && t <= m.pc < t + TRAMPOLINE_CODE && (m.pc - t) % 4 == 0
    && (Register(m.core, 17) == target || Register(m.core, 17) == target + 16)
  }

  predicate Ashore(t: nat, target: nat, m: Machine) {
    !(t <= m.pc < t + TRAMPOLINE_CODE) && (m.pc == target || m.pc == target + 16 || Near(t, m.pc))
  }

  lemma AboardInBlock(after: Machine -> Machine, advance: Walked -> Walked, t: nat, target: nat, m: Machine)
    requires FollowsFrom(after, advance, t + 4) && AdvancesShort(advance)
    requires 0x20_0000 <= t <= MAX_ADDRESS - 0x40_0000 && Aboard(t, target, m) && t + 4 <= m.pc < t + 20
    ensures Aboard(t, target, after(m)) || Ashore(t, target, after(m))
  {
    var s := Walked(m.pc - t - 4, m.core);
    LaidInBlock(t + 4, s);
    assert after(Laid(t + 4, s)) == Laid(t + 4, advance(s));
    assert IsShort(s, advance(s));
    assert Wrapped(t + 4 + advance(s).offset) == t + 4 + advance(s).offset;
  }

  /** One step of the trampoline stays in its code, or goes to the target, behind it, or nearby. */
  lemma AboardStep(after: Machine -> Machine, advance: Walked -> Walked, t: nat, target: nat, m: Machine)
    requires FollowsFrom(after, advance, t + 4) && Framed(after, t, target + 16) && AdvancesShort(advance)
    requires 0x20_0000 <= t <= MAX_ADDRESS - 0x40_0000 && Placed(target, t) && Aboard(t, target, m)
    ensures Aboard(t, target, after(m)) || Ashore(t, target, after(m))
  {
    if t + 4 <= m.pc < t + 20 {
      AboardInBlock(after, advance, t, target, m);
    } else {
      assert FramedFor(after, t, target + 16, m.core);
      assert m == Machine(t, m.core) || m == Machine(t + 20, m.core) || m == Machine(t + 24, m.core);
    }
  }

  lemma {:induction false} AboardRun(after: Machine -> Machine, advance: Walked -> Walked, t: nat, target: nat,
                                     m: Machine, k: nat)
    requires FollowsFrom(after, advance, t + 4) && Framed(after, t, target + 16) && AdvancesShort(advance)
    requires 0x20_0000 <= t <= MAX_ADDRESS - 0x40_0000 && Placed(target, t) && Aboard(t, target, m)
    requires forall i: nat | i < k :: t <= Steps(after, m, i).pc < t + TRAMPOLINE_CODE
    ensures Aboard(t, target, Steps(after, m, k)) || Ashore(t, target, Steps(after, m, k))
  {
    if k > 0 {
      AboardRun(after, advance, t, target, m, k - 1);
      AboardStep(after, advance, t, target, Steps(after, m, k - 1));
      StepsLast(after, m, k - 1);
    }
  }

  // ---------------------------------------------------------------------------
  // Escaping words do not mean the same
  // ---------------------------------------------------------------------------

  /** The original leaves at step `n`, and the trampoline never leaves like that. */
  ghost predicate OnlyTargetLeaves(before: Machine -> Machine, after: Machine -> Machine, target: nat, t: nat,
                                   core: Core, n: nat) {
    LeavesTarget(before, target, core, n) && forall k: nat :: !SameExit(before, after, target, t, core, n, k)
  }

  /** A walk that leaves the block sideways: the original goes where no trampoline exit goes. */
  lemma SidewaysDiffers(before: Machine -> Machine, after: Machine -> Machine, advance: Walked -> Walked,
                        target: uintptr, core: Core, n: nat)
    requires target % 4 == 0 && target <= MAX_ADDRESS - 16 && Register(core, 17) == target
    requires FollowsFrom(before, advance, target) && FollowsFrom(after, advance, Far(target) + 4)
    requires Framed(after, Far(target), target + 16) && AdvancesShort(advance)
    requires n > 0 && StaysInBlock(advance, core, n) && !(0 <= Walk(advance, core, n).offset <= 16)
    ensures OnlyTargetLeaves(before, after, target, Far(target), core, n)
  {
    var t := Far(target);
    FarIsPlaced(target);
    SidewaysLeaves(before, advance, target, core, n);
    forall k: nat ensures !SameExit(before, after, target, t, core, n, k) {
      if LeavesTrampoline(after, t, core, k) {
        AboardRun(after, advance, t, target, Machine(t, core), k);
      }
    }
  }

  lemma SidewaysLeaves(before: Machine -> Machine, advance: Walked -> Walked, target: uintptr, core: Core, n: nat)
    requires target <= MAX_ADDRESS - 16 && FollowsFrom(before, advance, target) && AdvancesShort(advance)
    requires n > 0 && StaysInBlock(advance, core, n) && !(0 <= Walk(advance, core, n).offset <= 16)
    ensures LeavesTarget(before, target, core, n)
    ensures var pc := Steps(before, Machine(target, core), n).pc;
            pc != target && pc != target + 16 && !Near(Far(target), pc)
  {
    var s := Walk(advance, core, n - 1);
    assert InBlock(s) && IsShort(s, advance(s));
    FollowsWalk(before, advance, target, core, n);
    OutsideIsFar(target, Walk(advance, core, n).offset);
    forall i: nat | i < n ensures target <= Steps(before, Machine(target, core), i).pc < target + 16 {
      FollowsWalk(before, advance, target, core, i);
      LaidInBlock(target, Walk(advance, core, i));
    }
  }

  lemma {:induction false} PathEscapes(words: Block, keeps: nat -> bool, path: seq<Place>, x17: nat)
    requires IsPath(words, keeps, path) && !(0 <= Landing(words, path[|path| - 1]) <= 16)
    ensures var advance, core := Advancer(PathIsa(words, keeps, path), words), PathCore(words, keeps, path, 0, x17);
            && StaysInBlock(advance, core, |path|)
            && Walk(advance, core, |path|).offset == Landing(words, path[|path| - 1])
  {
    WalkIsPath(words, keeps, path, x17);
    var last := Trail(words, keeps, path, x17)[|path| - 1];
    assert PlaceOf(last) == path[|path| - 1];
  }

  /** One instruction set, core and pair of machines for which only the target is left. */
  lemma DifferentRuns(original: seq<byte>, target: nat, t: nat, keeps: nat -> bool, isa: Isa, core: Core,
                      before: Machine -> Machine, after: Machine -> Machine, n: nat)
    requires |original| == OVERWRITE_SIZE && Independent(isa, Words(original))
    requires SparesFlags(isa, Words(original), keeps)
    requires Executes(before, isa, target, original)
    requires Executes(after, isa, t, Trampoline(original, target + OVERWRITE_SIZE))
    requires OnlyTargetLeaves(before, after, target, t, core, n)
    ensures !MeansTheSame(original, target, t, keeps)
  {
    assert !SameExits(before, after, target, t, core);
  }

  /** Both copies of the words follow the walk of a scheduled instruction set. */
  lemma ScheduledFollows(original: seq<byte>, schedule: seq<Flags>, keeps: nat -> bool, target: uintptr, t: nat,
                         before: Machine -> Machine, after: Machine -> Machine)
    requires |original| == OVERWRITE_SIZE && AllAccepted(original)
    requires target <= MAX_ADDRESS - OVERWRITE_SIZE && Placed(target, t)
    requires Executes(before, Scheduled(schedule, keeps), target, original)
    requires Executes(after, Scheduled(schedule, keeps), t, Trampoline(original, target + OVERWRITE_SIZE))
    ensures var advance := Advancer(Scheduled(schedule, keeps), Words(original));
            && FollowsFrom(before, advance, target) && AdvancesShort(advance)
            && FollowsFrom(after, advance, t + 4) && Framed(after, t, target + 16)
  {
    ScheduledIsIndependent(schedule, keeps, Words(original));
    ScheduledIsShort(schedule, keeps, Words(original));
    ExecutedFollows(before, Scheduled(schedule, keeps), target, original);
    TrampolineFollows(after, Scheduled(schedule, keeps), t, original, target + OVERWRITE_SIZE);
  }

  /** A walk of one instruction set that leaves the words sideways. */
  lemma SidewaysChangesMeaning(original: seq<byte>, target: uintptr, t: nat, keeps: nat -> bool, isa: Isa,
                               advance: Walked -> Walked, core: Core, n: nat,
                               before: Machine -> Machine, after: Machine -> Machine)
    requires |original| == OVERWRITE_SIZE && Independent(isa, Words(original))
    requires SparesFlags(isa, Words(original), keeps)
    requires Executes(before, isa, target, original)
    requires Executes(after, isa, t, Trampoline(original, target + OVERWRITE_SIZE))
    requires target % 4 == 0 && target <= MAX_ADDRESS - 16 && t == Far(target) && Register(core, 17) == target
    requires FollowsFrom(before, advance, target) && FollowsFrom(after, advance, t + 4)
    requires Framed(after, t, target + 16) && AdvancesShort(advance)
    requires n > 0 && StaysInBlock(advance, core, n) && !(0 <= Walk(advance, core, n).offset <= 16)
    ensures !MeansTheSame(original, target, t, keeps)
  {
    SidewaysDiffers(before, after, advance, target, core, n);
    DifferentRuns(original, target, t, keeps, isa, core, before, after, n);
  }

  /** An instruction set that follows the path tells the two copies apart. */
  lemma {:induction false} PathChangesMeaning(original: seq<byte>, target: uintptr, t: nat, keeps: nat -> bool,
                                              path: seq<Place>, before: Machine -> Machine, after: Machine -> Machine)
    requires |original| == OVERWRITE_SIZE && AllAccepted(original)
    requires target % 4 == 0 && target <= MAX_ADDRESS - OVERWRITE_SIZE && t == Far(target) && Placed(target, t)
    requires IsPath(Words(original), keeps, path) && !(0 <= Landing(Words(original), path[|path| - 1]) <= 16)
    requires Executes(before, PathIsa(Words(original), keeps, path), target, original)
    requires Executes(after, PathIsa(Words(original), keeps, path), t, Trampoline(original, target + OVERWRITE_SIZE))
    ensures !MeansTheSame(original, target, t, keeps)
  {
    var words := Words(original);
    var isa, core := PathIsa(words, keeps, path), PathCore(words, keeps, path, 0, target);
    ScheduledFollows(original, Schedule(words, keeps, path, |path| - 1), keeps, target, t, before, after);
    ScheduledIsIndependent(Schedule(words, keeps, path, |path| - 1), keeps, words);
    PathEscapes(words, keeps, path, target);
    SidewaysChangesMeaning(original, target, t, keeps, isa, Advancer(isa, words), core, |path|, before, after);
  }

  /** Zero bytes everywhere but from `a` on. */
  function CodeAt(a: nat, bytes: seq<byte>): Code {
    p => if a <= p < a + |bytes| then bytes[p - a] else 0
  }

  function MachineAt(isa: Isa, a: nat, bytes: seq<byte>): Machine -> Machine {
    m => Step(isa, CodeAt(a, bytes), m)
  }

  lemma MachineAtExecutes(isa: Isa, a: nat, bytes: seq<byte>)
    ensures Executes(MachineAt(isa, a, bytes), isa, a, bytes)
  {
    assert Runs(MachineAt(isa, a, bytes), isa, CodeAt(a, bytes));
    assert Installed(CodeAt(a, bytes), a, bytes);
  }

  lemma EscapingPath(words: Block, keeps: nat -> bool) returns (path: seq<Place>)
    requires CanEscape(words, keeps)
    ensures IsPath(words, keeps, path) && !(0 <= Landing(words, path[|path| - 1]) <= 16)
  {
    var p :| p in Reachable(words, keeps, Entry()) && !(0 <= Landing(words, p) <= 16);
    path := PathTo(words, keeps, p);
  }

  lemma EscapeChangesMeaning(original: seq<byte>, target: uintptr, keeps: nat -> bool)
    requires |original| == OVERWRITE_SIZE && AllAccepted(original) && CanEscape(Words(original), keeps)
    requires target % 4 == 0 && target <= MAX_ADDRESS - OVERWRITE_SIZE
    ensures Placed(target, Far(target)) && !MeansTheSame(original, target, Far(target), keeps)
  {
    var t := Far(target);
    var trampoline := Trampoline(original, target + OVERWRITE_SIZE);
    var path := EscapingPath(Words(original), keeps);
    var isa := PathIsa(Words(original), keeps, path);
    FarIsPlaced(target);
    MachineAtExecutes(isa, target, original);
    MachineAtExecutes(isa, t, trampoline);
    PathChangesMeaning(original, target, t, keeps, path, MachineAt(isa, target, original),
                       MachineAt(isa, t, trampoline));
  }

  // ---------------------------------------------------------------------------
  // Main results
  // ---------------------------------------------------------------------------

  lemma MeaningIsExact(original: seq<byte>, target: uintptr, keeps: nat -> bool)
    requires |original| == OVERWRITE_SIZE && AllAccepted(original)
    requires target % 4 == 0 && target <= MAX_ADDRESS - OVERWRITE_SIZE
    ensures (forall t: nat | Placed(target, t) :: MeansTheSame(original, target, t, keeps))
            <==> !CanEscape(Words(original), keeps)
  {
    if CanEscape(Words(original), keeps) {
      EscapeChangesMeaning(original, target, keeps);
    } else {
      forall t: nat | Placed(target, t) ensures MeansTheSame(original, target, t, keeps) {
        RelocatedMeansTheSame(original, target, t, keeps);
      }
    }
  }

  /**
   The trampoline of a ready plan means what the stolen words mean, for every instruction
   set that meets the hypothesis and wherever it is placed, if and only if no branch that
   can be reached and taken among the stolen words leaves them.
   */
  lemma TrampolinePreservesMeaning(target: uintptr, replacement: uintptr, prologue: seq<byte>, keeps: nat -> bool)
    requires Planned(target, replacement, prologue).status == Ready
    ensures var plan := Planned(target, replacement, prologue);
            && plan.trampoline == Trampoline(plan.originalBytes, target + OVERWRITE_SIZE)
            && ((forall t: nat | Placed(target, t) :: MeansTheSame(plan.originalBytes, target, t, keeps))
                <==> !CanEscape(Words(plan.originalBytes), keeps))
  {
    ReadyWordsAccepted(prologue, 0);
    MeaningIsExact(prologue[..OVERWRITE_SIZE], target, keeps);
  }

  // ---------------------------------------------------------------------------
  // A trampoline right behind the stolen words
  // ---------------------------------------------------------------------------

  ghost predicate AlwaysConfined(advance: Walked -> Walked) {
    forall core: Core :: Confined(advance, core)
  }

  /** Its resume address is its own first instruction, so it starts again and again. */
  lemma {:induction false} NeverLeaves(after: Machine -> Machine, advance: Walked -> Walked, t: nat, core: Core, k: nat)
    requires FollowsFrom(after, advance, t + 4) && t + 20 <= MAX_ADDRESS && Framed(after, t, t)
    requires AlwaysConfined(advance)
    ensures !LeavesTrampoline(after, t, core, k)
    decreases k
  {
    if LeavesTrampoline(after, t, core, k) {
      LeavesOnlyAtEnd(after, advance, t, t, core, k);
      var n: nat :| Ends(advance, core, n);
      TrampolineResumes(after, advance, t, t, core, n);
      var again := Steps(after, Machine(t, core), n + 3);
      assert k > n + 3;
      forall i: nat | i <= k - (n + 3) ensures Steps(after, again, i) == Steps(after, Machine(t, core), n + 3 + i) {
        StepsSplit(after, Machine(t, core), n + 3, i);
      }
      assert LeavesTrampoline(after, t, again.core, k - (n + 3));
      NeverLeaves(after, advance, t, again.core, k - (n + 3));
    }
  }

  predicate IsStraight(words: Block) {
    forall k | 0 <= k < 4 :: !IsConsistentBranch(words[k])
  }

  lemma {:induction false} StraightWalk(isa: Isa, words: Block, core: Core, n: nat)
    requires IsStraight(words) && n <= 4
    ensures Walk(Advancer(isa, words), core, n).offset == 4 * n
  {
    if n > 0 {
      StraightWalk(isa, words, core, n - 1);
    }
  }

  lemma StraightEnds(isa: Isa, words: Block, core: Core)
    requires IsStraight(words)
    ensures Ends(Advancer(isa, words), core, 4)
  {
    StraightWalk(isa, words, core, 0);
    StraightWalk(isa, words, core, 1);
    StraightWalk(isa, words, core, 2);
    StraightWalk(isa, words, core, 3);
    StraightWalk(isa, words, core, 4);
    EndsAtFour(Advancer(isa, words), core);
  }

  lemma EndsAtFour(advance: Walked -> Walked, core: Core)
    requires Walk(advance, core, 0).offset == 0 && Walk(advance, core, 1).offset == 4
    requires Walk(advance, core, 2).offset == 8 && Walk(advance, core, 3).offset == 12
    requires Walk(advance, core, 4).offset == 16
    ensures Ends(advance, core, 4)
  {
    forall i: nat | i < 4 ensures InBlock(Walk(advance, core, i)) {
      assert i == 0 || i == 1 || i == 2 || i == 3;
    }
  }

  lemma NoEscapeIsAlwaysConfined(isa: Isa, words: Block, keeps: nat -> bool)
    requires !CanEscape(words, keeps) && SparesFlags(isa, words, keeps)
    ensures AlwaysConfined(Advancer(isa, words))
  {
    forall core: Core ensures Confined(Advancer(isa, words), core) {
      NoEscapeIsConfined(isa, words, keeps, core);
    }
  }

  lemma BehindNeverLeaves(isa: Isa, original: seq<byte>, keeps: nat -> bool, t: uintptr, after: Machine -> Machine,
                          core: Core, k: nat)
    requires |original| == OVERWRITE_SIZE && AllAccepted(original) && !CanEscape(Words(original), keeps)
    requires t + 20 <= MAX_ADDRESS && Independent(isa, Words(original)) && SparesFlags(isa, Words(original), keeps)
    requires Executes(after, isa, t, Trampoline(original, t))
    ensures !LeavesTrampoline(after, t, core, k)
  {
    TrampolineFollows(after, isa, t, original, t);
    NoEscapeIsAlwaysConfined(isa, Words(original), keeps);
    NeverLeaves(after, Advancer(isa, Words(original)), t, core, k);
  }

  lemma StraightLeaves(isa: Isa, original: seq<byte>, target: uintptr, before: Machine -> Machine, core: Core)
    requires |original| == OVERWRITE_SIZE && AllAccepted(original) && IsStraight(Words(original))
    requires target + 16 <= MAX_ADDRESS && Independent(isa, Words(original)) && Executes(before, isa, target, original)
    ensures LeavesTarget(before, target, core, 4)
  {
    ExecutedFollows(before, isa, target, original);
    StraightEnds(isa, Words(original), core);
    EndsLeaves(before, Advancer(isa, Words(original)), target, core, 4);
  }

  lemma BehindDiffers(isa: Isa, original: seq<byte>, keeps: nat -> bool, target: uintptr, t: uintptr,
                      before: Machine -> Machine, after: Machine -> Machine, core: Core)
    requires |original| == OVERWRITE_SIZE && AllAccepted(original) && IsStraight(Words(original))
    requires t == target + 16 && t + 20 <= MAX_ADDRESS
    requires Independent(isa, Words(original)) && SparesFlags(isa, Words(original), keeps)
    requires Executes(before, isa, target, original) && Executes(after, isa, t, Trampoline(original, t))
    ensures OnlyTargetLeaves(before, after, target, t, core, 4)
  {
    InsideNeverEscapes(Words(original), keeps);
    StraightLeaves(isa, original, target, before, core);
    forall k: nat ensures !LeavesTrampoline(after, t, core, k) {
      BehindNeverLeaves(isa, original, keeps, t, after, core, k);
    }
  }

  /** validPlan admits this address, but there the trampoline of a straight prologue never gets on. */
  lemma BehindLosesMeaning(original: seq<byte>, target: uintptr, keeps: nat -> bool)
    requires |original| == OVERWRITE_SIZE && AllAccepted(original) && IsStraight(Words(original))
    requires target + 36 <= MAX_ADDRESS
    ensures !MeansTheSame(original, target, target + 16, keeps)
  {
    var t := target + 16;
    var isa, core := Scheduled([], keeps), Core(map[], 0, map[]);
    var before, after := MachineAt(isa, target, original), MachineAt(isa, t, Trampoline(original, t));
    MachineAtExecutes(isa, target, original);
    MachineAtExecutes(isa, t, Trampoline(original, t));
    ScheduledIsIndependent([], keeps, Words(original));
    BehindDiffers(isa, original, keeps, target, t, before, after, core);
    DifferentRuns(original, target, t, keeps, isa, core, before, after, 4);
  }

  /**
   A straight prologue, at every address that a plan may give its trampoline: the meaning
   is kept exactly when the trampoline is not right behind the stolen words.
   */
  lemma StraightPrologueMeans(target: uintptr, replacement: uintptr, prologue: seq<byte>, t: uintptr,
                              keeps: nat -> bool)
    requires Planned(target, replacement, prologue).status == Ready
    requires Admitted(target, t)
    requires IsStraight(Words(prologue[..OVERWRITE_SIZE]))
    ensures MeansTheSame(prologue[..OVERWRITE_SIZE], target, t, keeps) <==> t != target + 16
  {
    var original := prologue[..OVERWRITE_SIZE];
    ReadyWordsAccepted(prologue, 0);
    StraightMeans(original, target, t, keeps);
  }

  lemma StraightMeans(original: seq<byte>, target: uintptr, t: uintptr, keeps: nat -> bool)
    requires |original| == OVERWRITE_SIZE && AllAccepted(original) && IsStraight(Words(original))
    requires target <= MAX_ADDRESS - OVERWRITE_SIZE
    requires Admitted(target, t)
    ensures MeansTheSame(original, target, t, keeps) <==> t != target + 16
  {
    InsideNeverEscapes(Words(original), keeps);
    if t == target + 16 {
      BehindLosesMeaning(original, target, keeps);
    } else {
      RelocatedMeansTheSame(original, target, t, keeps);
    }
  }
}
