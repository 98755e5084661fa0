/**
 The precompiled trampoline of the supported device: it loads the resume address from its
 cell into x17 first, returns -ENOSYS if nothing has been bound, and otherwise runs the
 stolen words and branches.
 */
module PrecompiledTrampolines {
  import opened Bytes
  import opened Arm64
  import opened PatchPlanner
  import opened Trampolines
  import opened StolenWords
  import opened Relocation

  const LDAR_X17_X16: nat := 0xc8dffe11
  const CBZ_X17_UNBOUND: nat := 0xb40000d1
  const MOV_W0_ENOSYS: nat := 0x128004a0
  const RET: nat := 0xd65f03c0

  /** Where the relocated words start, where an unbound trampoline goes instead, and the end. */
  const RELOCATED: nat := 20
  const UNBOUND: nat := 40
  const PRECOMPILED_SIZE: nat := 48

  /** ADRP x16; the linker chooses the page. */
  predicate IsAdrpX16(w: nat) {
    w < 0x1_0000_0000 && Bits(w, 24, 5) == 0x10 && Bits(w, 31, 1) == 1 && Bits(w, 0, 5) == 16
  }

  /** ADD x16, x16; the linker chooses the offset in the page. */
  predicate IsAddX16(w: nat) {
    w < 0x1_0000_0000 && Bits(w, 24, 8) == 0x91 && Bits(w, 22, 2) == 0 && Bits(w, 5, 5) == 16 && Bits(w, 0, 5) == 16
  }

  /** The page that ADRP at `pc` names: imm21 pages from its own, signed. */
  function PageFrom(adrp: nat, pc: nat): nat {
    var imm21 := 4 * Bits(adrp, 5, 19) + Bits(adrp, 29, 2);
    Wrapped(pc - pc % 4096 + 4096 * (if imm21 < 0x10_0000 then imm21 else imm21 - 0x20_0000))
  }

  /** The address of the resume cell. */
  function CellOf(adrp: nat, add: nat, t: nat): nat {
    Wrapped(PageFrom(adrp, t + 4) + Bits(add, 10, 12))
  }

  /** What memory holds at `a`. */
  function Doubleword(core: Core, a: nat): nat {
    if a in core.data then Wrapped(core.data[a]) else 0
  }

  /** Words as code. */
  function WordCode(words: seq<nat>): (r: seq<byte>)
    ensures |r| == 4 * |words|
  {
    if words == [] then [] else LittleEndian(words[0], 4) + WordCode(words[1..])
  }

  function LoadCode(adrp: nat, add: nat): seq<byte> {
    WordCode([BTI_CALL, adrp, add, LDAR_X17_X16, CBZ_X17_UNBOUND])
  }

  function LeaveCode(): seq<byte> {
    WordCode([BRANCH_IP1, MOV_W0_ENOSYS, RET])
  }

  /** The whole trampoline around the stolen words. */
  function PrecompiledCode(adrp: nat, add: nat, original: seq<byte>): seq<byte> {
    LoadCode(adrp, add) + original + LeaveCode()
  }

  // ---------------------------------------------------------------------------
  // Hypotheses on the instruction set
  // ---------------------------------------------------------------------------

  function With(core: Core, register: nat, value: nat): Core {
    core.(x := core.x[register := value])
  }

  ghost predicate DoesAdrp(isa: Isa, w: nat, pc: nat, page: nat) {
    forall core: Core :: isa.effect(w, Machine(pc, core)) == Machine(pc + 4, With(core, 16, page))
  }

  ghost predicate DoesAdd(isa: Isa, w: nat, offset: nat) {
    forall m: Machine {:trigger isa.effect(w, m)} ::
      isa.effect(w, m) == Machine(m.pc + 4, With(m.core, 16, Wrapped(Register(m.core, 16) + offset)))
  }

  ghost predicate DoesLdar(isa: Isa) {
    forall m: Machine {:trigger isa.effect(LDAR_X17_X16, m)} ::
      isa.effect(LDAR_X17_X16, m) == Machine(m.pc + 4, With(m.core, 17, Doubleword(m.core, Register(m.core, 16))))
  }

  ghost predicate DoesCbz(isa: Isa) {
    forall m: Machine {:trigger isa.effect(CBZ_X17_UNBOUND, m)} ::
      isa.effect(CBZ_X17_UNBOUND, m) == m.(pc := if Register(m.core, 17) == 0 then Wrapped(m.pc + 24) else m.pc + 4)
  }

  ghost predicate DoesMov(isa: Isa) {
    forall m: Machine {:trigger isa.effect(MOV_W0_ENOSYS, m)} ::
      isa.effect(MOV_W0_ENOSYS, m) == Machine(m.pc + 4, With(m.core, 0, 0xffff_ffda))
  }

  ghost predicate DoesRet(isa: Isa) {
    forall m: Machine {:trigger isa.effect(RET, m)} :: isa.effect(RET, m) == m.(pc := Register(m.core, 30))
  }

  /** The instructions of a trampoline at `t` that are outside the machine do what the manual says. */
  ghost predicate IsA64(isa: Isa, adrp: nat, add: nat, t: nat) {
    && DoesAdrp(isa, adrp, t + 4, PageFrom(adrp, t + 4)) && DoesAdd(isa, add, Bits(add, 10, 12))
    && DoesLdar(isa) && DoesCbz(isa) && DoesMov(isa) && DoesRet(isa)
  }

  function Scratched(core: Core, x16: nat, x17: nat): Core {
    core.(x := core.x[16 := x16][17 := x17])
  }

  /** The word neither reads nor writes x16 and x17. */
  predicate SparesScratchAt(isa: Isa, w: nat, p: nat, core: Core, x16: nat, x17: nat) {
    isa.effect(w, Machine(p, Scratched(core, x16, x17))).core
    == Scratched(isa.effect(w, Machine(p, core)).core, x16, x17)
  }

  ghost predicate SparesScratch(isa: Isa, words: Block) {
    forall k, p: nat, core: Core, x16: nat, x17: nat | 0 <= k < 4 && !IsFixed(words[k]) ::
      SparesScratchAt(isa, words[k], p, core, x16, x17)
  }

  // ---------------------------------------------------------------------------
  // The instructions, one by one
  // ---------------------------------------------------------------------------

  /** Outside the words that the machine runs itself, by the top byte. */
  predicate IsOther(top: nat) {
    top != 0x58 && top != 0x54 && top != 0xd5 && top != 0xd6 && top != 0xd7
  }

  lemma PadTop()
    ensures ShiftRight(BTI_CALL, 24) == 0xd5
  {
    Powers();
    ShiftRightIs(BTI_CALL, 24);
  }

  lemma BranchTop(w: nat)
    requires w == 0xd61f0000 + 32 * Bits(w, 5, 5)
    ensures ShiftRight(w, 24) == 0xd6
  {
    Powers();
    LowBitsIs(ShiftRight(w, 5), 5);
    ShiftRightIs(w, 24);
  }

  lemma TopByte(w: nat)
    ensures Bits(w, 24, 8) == ShiftRight(w, 24) % 256
  {
    Powers();
    LowBitsIs(ShiftRight(w, 24), 8);
  }

  lemma OtherIsNoBranch(w: nat)
    requires IsOther(ShiftRight(w, 24) % 256)
    ensures w != 0xd61f0000 + 32 * Bits(w, 5, 5)
  {
    if w == 0xd61f0000 + 32 * Bits(w, 5, 5) {
      BranchTop(w);
    }
  }

  lemma OtherWord(w: nat)
    requires IsOther(ShiftRight(w, 24) % 256)
    ensures w != BTI_CALL && Bits(w, 24, 8) != 0x58 && !IsConditionalBranch(w)
    ensures w != 0xd61f0000 + 32 * Bits(w, 5, 5)
  {
    TopByte(w);
    PadTop();
    OtherIsNoBranch(w);
  }

  lemma LowFive(w: nat)
    ensures Bits(w, 24, 5) == ShiftRight(w, 24) % 256 % 32
  {
    Powers();
    LowBitsIs(ShiftRight(w, 24), 5);
    RemainderOfRemainder(ShiftRight(w, 24));
  }

  lemma RemainderOfRemainder(v: nat)
    ensures v % 32 == v % 256 % 32
  {
  }

  lemma AdrpIsOther(w: nat)
    requires IsAdrpX16(w)
    ensures IsOther(ShiftRight(w, 24) % 256)
  {
    LowFive(w);
  }

  lemma AddIsOther(w: nat)
    requires IsAddX16(w)
    ensures IsOther(ShiftRight(w, 24) % 256)
  {
    TopByte(w);
  }

  lemma FixedAreOther(w: nat)
    requires w == LDAR_X17_X16 || w == CBZ_X17_UNBOUND || w == MOV_W0_ENOSYS
    ensures IsOther(ShiftRight(w, 24) % 256)
  {
    Powers();
    ShiftRightIs(w, 24);
  }

  /** RET is a register branch, but not the BR that the machine runs itself. */
  lemma ReturnIsNoBranch()
    ensures RET != BTI_CALL && Bits(RET, 24, 8) != 0x58 && !IsConditionalBranch(RET)
    ensures RET != 0xd61f0000 + 32 * Bits(RET, 5, 5)
  {
    Powers();
    ShiftRightIs(RET, 24);
    LowBitsIs(0xd6, 8);
    LowBitsIs(ShiftRight(RET, 5), 5);
  }

  lemma StepsByIsa(isa: Isa, code: Code, m: Machine, w: nat)
    requires Fetch(code, m.pc, 4) == w && w != BTI_CALL && Bits(w, 24, 8) != 0x58 && !IsConditionalBranch(w)
    requires w != 0xd61f0000 + 32 * Bits(w, 5, 5)
    ensures Step(isa, code, m) == isa.effect(w, m)
  {
  }

  lemma {:induction false} WordFetched(code: Code, t: nat, words: seq<nat>, k: nat)
    requires Installed(code, t, WordCode(words)) && k < |words| && words[k] < 0x1_0000_0000
    ensures Fetch(code, t + 4 * k, 4) == words[k]
    decreases k
  {
    InstalledParts(code, t, LittleEndian(words[0], 4), WordCode(words[1..]));
    if k == 0 {
      Powers();
      FetchField(code, t, words[0], 4);
    } else {
      WordFetched(code, t + 4, words[1..], k - 1);
    }
  }

  /** The eight instructions around the stolen words. */
  ghost predicate HasPrecompiled(code: Code, t: nat, adrp: nat, add: nat) {
    && Fetch(code, t, 4) == BTI_CALL && Fetch(code, t + 4, 4) == adrp && Fetch(code, t + 8, 4) == add
    && Fetch(code, t + 12, 4) == LDAR_X17_X16 && Fetch(code, t + 16, 4) == CBZ_X17_UNBOUND
    && Fetch(code, t + 36, 4) == BRANCH_IP1 && Fetch(code, t + 40, 4) == MOV_W0_ENOSYS && Fetch(code, t + 44, 4) == RET
  }

  lemma LoadFetched(code: Code, t: nat, words: seq<nat>)
    requires |words| == 5 && Installed(code, t, WordCode(words)) && forall k | 0 <= k < 5 :: words[k] < 0x1_0000_0000
    ensures Fetch(code, t, 4) == words[0] && Fetch(code, t + 4, 4) == words[1] && Fetch(code, t + 8, 4) == words[2]
    ensures Fetch(code, t + 12, 4) == words[3] && Fetch(code, t + 16, 4) == words[4]
  {
    WordFetched(code, t, words, 0);
    WordFetched(code, t, words, 1);
    WordFetched(code, t, words, 2);
    WordFetched(code, t, words, 3);
    WordFetched(code, t, words, 4);
  }

  lemma LeaveFetched(code: Code, t: nat, words: seq<nat>)
    requires |words| == 3 && Installed(code, t, WordCode(words)) && forall k | 0 <= k < 3 :: words[k] < 0x1_0000_0000
    ensures Fetch(code, t, 4) == words[0] && Fetch(code, t + 4, 4) == words[1] && Fetch(code, t + 8, 4) == words[2]
  {
    WordFetched(code, t, words, 0);
    WordFetched(code, t, words, 1);
    WordFetched(code, t, words, 2);
  }

  lemma PrecompiledFetched(code: Code, t: nat, adrp: nat, add: nat, original: seq<byte>)
    requires |original| == OVERWRITE_SIZE && Installed(code, t, PrecompiledCode(adrp, add, original))
    requires adrp < 0x1_0000_0000 && add < 0x1_0000_0000
    ensures HasPrecompiled(code, t, adrp, add) && Installed(code, t + RELOCATED, original)
  {
    InstalledParts(code, t, LoadCode(adrp, add) + original, LeaveCode());
    InstalledParts(code, t, LoadCode(adrp, add), original);
    LoadFetched(code, t, [BTI_CALL, adrp, add, LDAR_X17_X16, CBZ_X17_UNBOUND]);
    LeaveFetched(code, t + 36, [BRANCH_IP1, MOV_W0_ENOSYS, RET]);
  }

  /** The instructions around the stolen words, from any core. */
  predicate StepsAs(step: Machine -> Machine, t: nat, page: nat, offset: nat, core: Core) {
    && step(Machine(t, core)) == Machine(t + 4, core)
    && step(Machine(t + 4, core)) == Machine(t + 8, With(core, 16, page))
    && step(Machine(t + 8, core)) == Machine(t + 12, With(core, 16, Wrapped(Register(core, 16) + offset)))
    && step(Machine(t + 12, core)) == Machine(t + 16, With(core, 17, Doubleword(core, Register(core, 16))))
    && step(Machine(t + 16, core)) == Machine(if Register(core, 17) == 0 then t + UNBOUND else t + RELOCATED, core)
    && step(Machine(t + 36, core)) == Machine(Register(core, 17), core)
    && step(Machine(t + 40, core)) == Machine(t + 44, With(core, 0, 0xffff_ffda))
    && step(Machine(t + 44, core)) == Machine(Register(core, 30), core)
  }

  ghost predicate IsPrecompiled(step: Machine -> Machine, t: nat, page: nat, offset: nat) {
    forall core: Core :: StepsAs(step, t, page, offset, core)
  }

  /** The word at `a` is left to the instruction set. */
  ghost predicate LeftAt(step: Machine -> Machine, isa: Isa, a: nat, w: nat) {
    forall core: Core :: step(Machine(a, core)) == isa.effect(w, Machine(a, core))
  }

  lemma OtherIsLeft(step: Machine -> Machine, isa: Isa, code: Code, a: nat, w: nat)
    requires Runs(step, isa, code) && IsOther(ShiftRight(w, 24) % 256) && Fetch(code, a, 4) == w
    ensures LeftAt(step, isa, a, w)
  {
    OtherWord(w);
    forall core: Core ensures step(Machine(a, core)) == isa.effect(w, Machine(a, core)) {
      StepsByIsa(isa, code, Machine(a, core), w);
    }
  }

  lemma ReturnIsLeft(step: Machine -> Machine, isa: Isa, code: Code, a: nat)
    requires Runs(step, isa, code) && Fetch(code, a, 4) == RET
    ensures LeftAt(step, isa, a, RET)
  {
    ReturnIsNoBranch();
    forall core: Core ensures step(Machine(a, core)) == isa.effect(RET, Machine(a, core)) {
      StepsByIsa(isa, code, Machine(a, core), RET);
    }
  }

  /** The landing pad at `t`, and BR x17 behind the words. */
  ghost predicate IsFramed(step: Machine -> Machine, t: nat) {
    forall core: Core :: PadAndBranch(step, t, core)
  }

  predicate PadAndBranch(step: Machine -> Machine, t: nat, core: Core) {
    && step(Machine(t, core)) == Machine(t + 4, core)
    && step(Machine(t + 36, core)) == Machine(Register(core, 17), core)
  }

  lemma FrameRuns(step: Machine -> Machine, isa: Isa, code: Code, t: nat)
    requires Runs(step, isa, code) && Fetch(code, t, 4) == BTI_CALL && Fetch(code, t + 36, 4) == BRANCH_IP1
    ensures IsFramed(step, t)
  {
    BranchFields();
    forall core: Core ensures PadAndBranch(step, t, core) {
      assert step(Machine(t, core)) == Step(isa, code, Machine(t, core));
      assert step(Machine(t + 36, core)) == Step(isa, code, Machine(t + 36, core));
    }
  }

  /** All six instructions outside the machine are left to the instruction set. */
  ghost predicate AllLeft(step: Machine -> Machine, isa: Isa, t: nat, adrp: nat, add: nat) {
    && LeftAt(step, isa, t + 4, adrp) && LeftAt(step, isa, t + 8, add)
    && LeftAt(step, isa, t + 12, LDAR_X17_X16) && LeftAt(step, isa, t + 16, CBZ_X17_UNBOUND)
    && LeftAt(step, isa, t + 40, MOV_W0_ENOSYS) && LeftAt(step, isa, t + 44, RET)
  }

  lemma LeftToIsa(step: Machine -> Machine, isa: Isa, code: Code, t: nat, adrp: nat, add: nat)
    requires Runs(step, isa, code) && HasPrecompiled(code, t, adrp, add) && IsAdrpX16(adrp) && IsAddX16(add)
    ensures AllLeft(step, isa, t, adrp, add)
  {
    AdrpIsOther(adrp);
    OtherIsLeft(step, isa, code, t + 4, adrp);
    AddIsOther(add);
    OtherIsLeft(step, isa, code, t + 8, add);
    FixedAreOther(LDAR_X17_X16);
    OtherIsLeft(step, isa, code, t + 12, LDAR_X17_X16);
    FixedAreOther(CBZ_X17_UNBOUND);
    OtherIsLeft(step, isa, code, t + 16, CBZ_X17_UNBOUND);
    FixedAreOther(MOV_W0_ENOSYS);
    OtherIsLeft(step, isa, code, t + 40, MOV_W0_ENOSYS);
    ReturnIsLeft(step, isa, code, t + 44);
  }

  lemma AddStep(step: Machine -> Machine, isa: Isa, a: nat, add: nat, offset: nat, core: Core)
    requires LeftAt(step, isa, a, add) && DoesAdd(isa, add, offset)
    ensures step(Machine(a, core)) == Machine(a + 4, With(core, 16, Wrapped(Register(core, 16) + offset)))
  {
    assert step(Machine(a, core)) == isa.effect(add, Machine(a, core));
  }

  lemma LdarStep(step: Machine -> Machine, isa: Isa, a: nat, core: Core)
    requires LeftAt(step, isa, a, LDAR_X17_X16) && DoesLdar(isa)
    ensures step(Machine(a, core)) == Machine(a + 4, With(core, 17, Doubleword(core, Register(core, 16))))
  {
    assert step(Machine(a, core)) == isa.effect(LDAR_X17_X16, Machine(a, core));
  }

  lemma CbzStep(step: Machine -> Machine, isa: Isa, a: nat, core: Core)
    requires LeftAt(step, isa, a, CBZ_X17_UNBOUND) && DoesCbz(isa) && a + 24 <= MAX_ADDRESS
    ensures step(Machine(a, core)) == Machine(if Register(core, 17) == 0 then a + 24 else a + 4, core)
  {
    assert step(Machine(a, core)) == isa.effect(CBZ_X17_UNBOUND, Machine(a, core));
    assert Wrapped(a + 24) == a + 24;
  }

  lemma OtherSteps(step: Machine -> Machine, isa: Isa, t: nat, adrp: nat, page: nat, core: Core)
    requires LeftAt(step, isa, t + 4, adrp) && DoesAdrp(isa, adrp, t + 4, page)
    requires LeftAt(step, isa, t + 40, MOV_W0_ENOSYS) && DoesMov(isa) && LeftAt(step, isa, t + 44, RET) && DoesRet(isa)
    ensures step(Machine(t + 4, core)) == Machine(t + 8, With(core, 16, page))
    ensures step(Machine(t + 40, core)) == Machine(t + 44, With(core, 0, 0xffff_ffda))
    ensures step(Machine(t + 44, core)) == Machine(Register(core, 30), core)
  {
    assert step(Machine(t + 4, core)) == isa.effect(adrp, Machine(t + 4, core));
    assert step(Machine(t + 40, core)) == isa.effect(MOV_W0_ENOSYS, Machine(t + 40, core));
    assert step(Machine(t + 44, core)) == isa.effect(RET, Machine(t + 44, core));
  }

  lemma PrecompiledStepsAs(step: Machine -> Machine, isa: Isa, t: nat, adrp: nat, add: nat, page: nat, offset: nat,
                           core: Core)
    requires AllLeft(step, isa, t, adrp, add) && IsFramed(step, t) && t + PRECOMPILED_SIZE <= MAX_ADDRESS
    requires DoesAdrp(isa, adrp, t + 4, page) && DoesAdd(isa, add, offset)
    requires DoesLdar(isa) && DoesCbz(isa) && DoesMov(isa) && DoesRet(isa)
    ensures StepsAs(step, t, page, offset, core)
  {
    assert PadAndBranch(step, t, core);
    OtherSteps(step, isa, t, adrp, page, core);
    AddStep(step, isa, t + 8, add, offset, core);
    LdarStep(step, isa, t + 12, core);
    CbzStep(step, isa, t + 16, core);
  }

  lemma PrecompiledSteps(step: Machine -> Machine, isa: Isa, t: nat, adrp: nat, add: nat, original: seq<byte>)
    requires |original| == OVERWRITE_SIZE && Executes(step, isa, t, PrecompiledCode(adrp, add, original))
    requires IsAdrpX16(adrp) && IsAddX16(add) && IsA64(isa, adrp, add, t) && t + PRECOMPILED_SIZE <= MAX_ADDRESS
    ensures IsPrecompiled(step, t, PageFrom(adrp, t + 4), Bits(add, 10, 12))
    ensures Executes(step, isa, t + RELOCATED, original)
  {
    var code: Code :| Runs(step, isa, code) && Installed(code, t, PrecompiledCode(adrp, add, original));
    var page, offset := PageFrom(adrp, t + 4), Bits(add, 10, 12);
    PrecompiledFetched(code, t, adrp, add, original);
    FrameRuns(step, isa, code, t);
    LeftToIsa(step, isa, code, t, adrp, add);
    forall core: Core ensures StepsAs(step, t, page, offset, core) {
      PrecompiledStepsAs(step, isa, t, adrp, add, page, offset, core);
    }
  }

  // ---------------------------------------------------------------------------
  // The load
  // ---------------------------------------------------------------------------

  lemma {:induction false} ChainRuns(step: Machine -> Machine, ms: seq<Machine>, i: nat)
    requires i < |ms| && forall j | 0 < j < |ms| :: step(ms[j - 1]) == ms[j]
    ensures Steps(step, ms[0], i) == ms[i]
  {
    if i > 0 {
      ChainRuns(step, ms, i - 1);
      StepsLast(step, ms[0], i - 1);
    }
  }

  lemma ScratchedIs(core: Core, page: nat, cell: nat, v: nat)
    ensures With(With(With(core, 16, page), 16, cell), 17, v) == Scratched(core, cell, v)
  {
    assert core.x[16 := page][16 := cell] == core.x[16 := cell];
  }

  /** The states of the load, one by one. */
  function LoadTrail(t: nat, page: nat, cell: nat, core: Core): seq<Machine> {
    var v := Doubleword(core, cell);
    [Machine(t, core), Machine(t + 4, core), Machine(t + 8, With(core, 16, page)),
     Machine(t + 12, With(With(core, 16, page), 16, cell)), Machine(t + 16, Scratched(core, cell, v)),
     Machine(if v == 0 then t + UNBOUND else t + RELOCATED, Scratched(core, cell, v))]
  }

  lemma AddressLoaded(step: Machine -> Machine, t: nat, page: nat, offset: nat, core: Core)
    requires StepsAs(step, t, page, offset, core) && StepsAs(step, t, page, offset, With(core, 16, page))
    ensures step(Machine(t, core)) == Machine(t + 4, core)
    ensures step(Machine(t + 4, core)) == Machine(t + 8, With(core, 16, page))
    ensures step(Machine(t + 8, With(core, 16, page)))
            == Machine(t + 12, With(With(core, 16, page), 16, Wrapped(page + offset)))
  {
  }

  lemma CellLoaded(step: Machine -> Machine, t: nat, page: nat, offset: nat, cell: nat, core: Core)
    requires StepsAs(step, t, page, offset, With(With(core, 16, page), 16, cell))
    ensures step(Machine(t + 12, With(With(core, 16, page), 16, cell)))
            == Machine(t + 16, Scratched(core, cell, Doubleword(core, cell)))
  {
    ScratchedIs(core, page, cell, Doubleword(core, cell));
  }

  lemma CellTested(step: Machine -> Machine, t: nat, page: nat, offset: nat, cell: nat, v: nat, core: Core)
    requires StepsAs(step, t, page, offset, Scratched(core, cell, v))
    ensures step(Machine(t + 16, Scratched(core, cell, v)))
            == Machine(if v == 0 then t + UNBOUND else t + RELOCATED, Scratched(core, cell, v))
  {
  }

  lemma LoadTrailSteps(step: Machine -> Machine, t: nat, page: nat, offset: nat, cell: nat, core: Core)
    requires IsPrecompiled(step, t, page, offset) && cell == Wrapped(page + offset)
    ensures var ms := LoadTrail(t, page, cell, core); forall j | 0 < j < |ms| :: step(ms[j - 1]) == ms[j]
  {
    AddressLoaded(step, t, page, offset, core);
    CellLoaded(step, t, page, offset, cell, core);
    CellTested(step, t, page, offset, cell, Doubleword(core, cell), core);
  }

  /** After the load: x16 has the address of the cell and x17 what it holds; 0 goes to the unbound exit. */
  lemma LoadRuns(step: Machine -> Machine, t: nat, page: nat, offset: nat, cell: nat, core: Core) returns (n: nat)
    requires IsPrecompiled(step, t, page, offset) && cell == Wrapped(page + offset)
    ensures var v := Doubleword(core, cell);
            Steps(step, Machine(t, core), n)
            == Machine(if v == 0 then t + UNBOUND else t + RELOCATED, Scratched(core, cell, v))
    ensures forall i: nat | i < n :: t <= Steps(step, Machine(t, core), i).pc < t + RELOCATED
  {
    n := 5;
    var ms := LoadTrail(t, page, cell, core);
    LoadTrailSteps(step, t, page, offset, cell, core);
    forall i: nat | i < 6 ensures Steps(step, Machine(t, core), i) == ms[i] {
      ChainRuns(step, ms, i);
    }
  }

  // ---------------------------------------------------------------------------
  // Words that spare x16 and x17
  // ---------------------------------------------------------------------------

  function ScratchedAt(s: Walked, x16: nat, x17: nat): Walked {
    Walked(s.offset, Scratched(s.core, x16, x17))
  }

  /** The same whatever x16 and x17 hold. */
  predicate IgnoresScratchAt(advance: Walked -> Walked, s: Walked, x16: nat, x17: nat) {
    advance(ScratchedAt(s, x16, x17)) == ScratchedAt(advance(s), x16, x17)
  }

  ghost predicate IgnoresScratch(advance: Walked -> Walked, x16: nat, x17: nat) {
    forall s: Walked :: IgnoresScratchAt(advance, s, x16, x17)
  }

  lemma SparedIsIgnored(isa: Isa, words: Block, x16: nat, x17: nat)
    requires SparesScratch(isa, words)
    ensures IgnoresScratch(Advancer(isa, words), x16, x17)
  {
    forall s: Walked ensures IgnoresScratchAt(Advancer(isa, words), s, x16, x17) {
      if InBlock(s) {
        var w := words[s.offset / 4];
        if !IsFixed(w) {
          assert SparesScratchAt(isa, w, 0, s.core, x16, x17);
        }
      }
    }
  }

  lemma {:induction false} ScratchedWalk(advance: Walked -> Walked, core: Core, x16: nat, x17: nat, n: nat)
    requires IgnoresScratch(advance, x16, x17)
    ensures Walk(advance, Scratched(core, x16, x17), n) == ScratchedAt(Walk(advance, core, n), x16, x17)
  {
    if n > 0 {
      ScratchedWalk(advance, core, x16, x17, n - 1);
      assert IgnoresScratchAt(advance, Walk(advance, core, n - 1), x16, x17);
    }
  }

  /** The walk stays in the block, and ends behind it, whatever x16 and x17 hold. */
  lemma ScratchedEnds(advance: Walked -> Walked, core: Core, x16: nat, x17: nat, n: nat)
    requires IgnoresScratch(advance, x16, x17)
    ensures StaysInBlock(advance, Scratched(core, x16, x17), n) <==> StaysInBlock(advance, core, n)
    ensures Ends(advance, Scratched(core, x16, x17), n) <==> Ends(advance, core, n)
    ensures Walk(advance, Scratched(core, x16, x17), n).core == Scratched(Walk(advance, core, n).core, x16, x17)
  {
    forall i: nat | i <= n
      ensures Walk(advance, Scratched(core, x16, x17), i) == ScratchedAt(Walk(advance, core, i), x16, x17)
    {
      ScratchedWalk(advance, core, x16, x17, i);
    }
  }

  // ---------------------------------------------------------------------------
  // Main results
  // ---------------------------------------------------------------------------

  ghost predicate LeavesPrecompiled(after: Machine -> Machine, t: nat, core: Core, k: nat) {
    Leaves(after, t, t + PRECOMPILED_SIZE, Machine(t, core), k)
  }

  /** A stretch inside the range before a run that leaves it. */
  lemma LeavesLater(step: Machine -> Machine, lo: nat, hi: nat, m: Machine, m1: Machine, n: nat, k: nat)
    requires Steps(step, m, n) == m1 && Leaves(step, lo, hi, m1, k)
    requires forall i: nat | i < n :: lo <= Steps(step, m, i).pc < hi
    ensures Leaves(step, lo, hi, m, n + k) && Steps(step, m, n + k) == Steps(step, m1, k)
  {
    StepsSplit(step, m, n, k);
    forall i: nat | i < n + k ensures lo <= Steps(step, m, i).pc < hi {
      if n <= i {
        StepsSplit(step, m, n, i - n);
      }
    }
  }

  /**
   The original leaves its words at the resume address, and the trampoline leaves for the
   address in its cell, in the same state up to x16 and x17.
   */
  ghost predicate GoesOnAlike(before: Machine -> Machine, after: Machine -> Machine, target: nat, t: nat,
                              cell: nat, core: Core, n: nat, k: nat) {
    var left, v := Steps(before, Machine(target, core), n), Doubleword(core, cell);
    && LeavesTarget(before, target, core, n) && left.pc == target + 16
    && LeavesPrecompiled(after, t, core, k)
    && Steps(after, Machine(t, core), k) == Machine(v, Scratched(left.core, cell, v))
  }

  /** The words and the branch behind them. */
  lemma WordsThenBranch(after: Machine -> Machine, advance: Walked -> Walked, t: nat, core: Core, v: nat, n: nat)
    requires FollowsFrom(after, advance, t + RELOCATED) && t + PRECOMPILED_SIZE <= MAX_ADDRESS && Ends(advance, core, n)
    requires after(Machine(t + 36, Walk(advance, core, n).core)) == Machine(v, Walk(advance, core, n).core)
    requires !(t <= v < t + PRECOMPILED_SIZE)
    ensures var m := Machine(t + RELOCATED, core);
            && Leaves(after, t, t + PRECOMPILED_SIZE, m, n + 1)
            && Steps(after, m, n + 1) == Machine(v, Walk(advance, core, n).core)
  {
    EndsLeaves(after, advance, t + RELOCATED, core, n);
    StepsLast(after, Machine(t + RELOCATED, core), n);
  }

  /** The load, the words and the branch. */
  lemma TrampolineGoesOn(after: Machine -> Machine, advance: Walked -> Walked, t: nat, page: nat, offset: nat,
                         cell: nat, v: nat, core: Core, n: nat) returns (k: nat)
    requires FollowsFrom(after, advance, t + RELOCATED) && t + PRECOMPILED_SIZE <= MAX_ADDRESS
    requires IsPrecompiled(after, t, page, offset) && cell == Wrapped(page + offset) && v == Doubleword(core, cell) != 0
    requires Ends(advance, Scratched(core, cell, v), n) && !(t <= v < t + PRECOMPILED_SIZE)
    requires Register(Walk(advance, Scratched(core, cell, v), n).core, 17) == v
    ensures LeavesPrecompiled(after, t, core, k)
    ensures Steps(after, Machine(t, core), k) == Machine(v, Walk(advance, Scratched(core, cell, v), n).core)
  {
    var scratched := Scratched(core, cell, v);
    assert StepsAs(after, t, page, offset, Walk(advance, scratched, n).core);
    WordsThenBranch(after, advance, t, scratched, v, n);
    var load := LoadRuns(after, t, page, offset, cell, core);
    LeavesLater(after, t, t + PRECOMPILED_SIZE, Machine(t, core), Machine(t + RELOCATED, scratched), load, n + 1);
    k := load + (n + 1);
  }

  lemma BothGoOn(before: Machine -> Machine, after: Machine -> Machine, advance: Walked -> Walked, target: nat, t: nat,
                 page: nat, offset: nat, cell: nat, core: Core, n: nat) returns (k: nat)
    requires target + 16 <= MAX_ADDRESS && t + PRECOMPILED_SIZE <= MAX_ADDRESS && Ends(advance, core, n)
    requires FollowsFrom(before, advance, target) && FollowsFrom(after, advance, t + RELOCATED)
    requires IsPrecompiled(after, t, page, offset) && cell == Wrapped(page + offset)
    requires IgnoresScratch(advance, cell, Doubleword(core, cell))
    requires Doubleword(core, cell) != 0 && !(t <= Doubleword(core, cell) < t + PRECOMPILED_SIZE)
    ensures GoesOnAlike(before, after, target, t, cell, core, n, k)
  {
    var v := Doubleword(core, cell);
    ScratchedEnds(advance, core, cell, v, n);
    EndsLeaves(before, advance, target, core, n);
    k := TrampolineGoesOn(after, advance, t, page, offset, cell, v, core, n);
  }

  /** While the walk stays in the block, so does the trampoline stay in its code. */
  lemma StaysInCode(after: Machine -> Machine, advance: Walked -> Walked, t: nat, page: nat, offset: nat, cell: nat,
                    v: nat, core: Core, k: nat)
    requires FollowsFrom(after, advance, t + RELOCATED) && t + PRECOMPILED_SIZE <= MAX_ADDRESS
    requires IsPrecompiled(after, t, page, offset) && cell == Wrapped(page + offset) && v == Doubleword(core, cell) != 0
    requires StaysInBlock(advance, Scratched(core, cell, v), k + 1)
    ensures t <= Steps(after, Machine(t, core), k).pc < t + PRECOMPILED_SIZE
  {
    var load := LoadRuns(after, t, page, offset, cell, core);
    if load <= k {
      var scratched, j := Scratched(core, cell, v), k - load;
      StepsSplit(after, Machine(t, core), load, j);
      FollowsWalk(after, advance, t + RELOCATED, scratched, j);
      LaidInBlock(t + RELOCATED, Walk(advance, scratched, j));
    }
  }

  /** A trampoline that leaves its code has come to the end of the words. */
  lemma LeavesAtEnd(after: Machine -> Machine, advance: Walked -> Walked, t: nat, page: nat, offset: nat, cell: nat,
                    v: nat, core: Core, k: nat) returns (n: nat)
    requires FollowsFrom(after, advance, t + RELOCATED) && t + PRECOMPILED_SIZE <= MAX_ADDRESS
    requires IsPrecompiled(after, t, page, offset) && cell == Wrapped(page + offset) && v == Doubleword(core, cell) != 0
    requires IgnoresScratch(advance, cell, v) && Confined(advance, core) && LeavesPrecompiled(after, t, core, k)
    ensures Ends(advance, core, n)
  {
    ScratchedEnds(advance, core, cell, v, k + 1);
    if StaysInBlock(advance, core, k + 1) {
      StaysInCode(after, advance, t, page, offset, cell, v, core, k);
    }
    FirstEnd(advance, core, k + 1);
    n :| Ends(advance, core, n);
  }

  /** Each of the two runs leaves just when the other does. */
  ghost predicate SameWayOn(before: Machine -> Machine, after: Machine -> Machine, target: nat, t: nat,
                            cell: nat, core: Core) {
    && (forall n: nat | LeavesTarget(before, target, core, n) ::
          exists k: nat :: GoesOnAlike(before, after, target, t, cell, core, n, k))
    && (forall k: nat | LeavesPrecompiled(after, t, core, k) ::
          exists n: nat :: GoesOnAlike(before, after, target, t, cell, core, n, k))
  }

  lemma ConfinedGoesOn(before: Machine -> Machine, after: Machine -> Machine, advance: Walked -> Walked, target: nat,
                       t: nat, page: nat, offset: nat, cell: nat, core: Core)
    requires target + 16 <= MAX_ADDRESS && t + PRECOMPILED_SIZE <= MAX_ADDRESS && Confined(advance, core)
    requires FollowsFrom(before, advance, target) && FollowsFrom(after, advance, t + RELOCATED)
    requires IsPrecompiled(after, t, page, offset) && cell == Wrapped(page + offset)
    requires IgnoresScratch(advance, cell, Doubleword(core, cell))
    requires Doubleword(core, cell) != 0 && !(t <= Doubleword(core, cell) < t + PRECOMPILED_SIZE)
    ensures SameWayOn(before, after, target, t, cell, core)
  {
    forall n: nat | LeavesTarget(before, target, core, n)
      ensures exists k: nat :: GoesOnAlike(before, after, target, t, cell, core, n, k)
    {
      TargetLeaves(before, advance, target, core, n);
      var k := BothGoOn(before, after, advance, target, t, page, offset, cell, core, n);
    }
    forall k: nat | LeavesPrecompiled(after, t, core, k)
      ensures exists n: nat :: GoesOnAlike(before, after, target, t, cell, core, n, k)
    {
      var n := LeavesAtEnd(after, advance, t, page, offset, cell, Doubleword(core, cell), core, k);
      var j := BothGoOn(before, after, advance, target, t, page, offset, cell, core, n);
      LeavesOnce(after, t, t + PRECOMPILED_SIZE, Machine(t, core), j, k);
    }
  }

  lemma PrecompiledFollows(isa: Isa, original: seq<byte>, target: uintptr, t: nat, adrp: nat, add: nat,
                           before: Machine -> Machine, after: Machine -> Machine)
    requires |original| == OVERWRITE_SIZE && AllAccepted(original) && Independent(isa, Words(original))
    requires IsAdrpX16(adrp) && IsAddX16(add) && IsA64(isa, adrp, add, t)
    requires target + 16 <= MAX_ADDRESS && t + PRECOMPILED_SIZE <= MAX_ADDRESS
    requires Executes(before, isa, target, original) && Executes(after, isa, t, PrecompiledCode(adrp, add, original))
    ensures FollowsFrom(before, Advancer(isa, Words(original)), target)
    ensures FollowsFrom(after, Advancer(isa, Words(original)), t + RELOCATED)
    ensures IsPrecompiled(after, t, PageFrom(adrp, t + 4), Bits(add, 10, 12))
  {
    PrecompiledSteps(after, isa, t, adrp, add, original);
    ExecutedFollows(before, isa, target, original);
    ExecutedFollows(after, isa, t + RELOCATED, original);
  }

  /**
   A precompiled trampoline whose cell has been bound leaves just when the target's words
   leave: for the address in the cell, in the same state up to x16 and x17. The words must
   spare these two, and no branch among them may leave them.
   */
  lemma PrecompiledRuns(isa: Isa, original: seq<byte>, target: uintptr, t: nat, adrp: nat, add: nat,
                        keeps: nat -> bool, core: Core, before: Machine -> Machine, after: Machine -> Machine)
    requires |original| == OVERWRITE_SIZE && AllAccepted(original) && !CanEscape(Words(original), keeps)
    requires Independent(isa, Words(original)) && SparesFlags(isa, Words(original), keeps)
    requires SparesScratch(isa, Words(original)) && IsAdrpX16(adrp) && IsAddX16(add) && IsA64(isa, adrp, add, t)
    requires target + 16 <= MAX_ADDRESS && t + PRECOMPILED_SIZE <= MAX_ADDRESS
    requires Executes(before, isa, target, original) && Executes(after, isa, t, PrecompiledCode(adrp, add, original))
    requires var v := Doubleword(core, CellOf(adrp, add, t)); v != 0 && !(t <= v < t + PRECOMPILED_SIZE)
    ensures SameWayOn(before, after, target, t, CellOf(adrp, add, t), core)
  {
    var page, offset, cell := PageFrom(adrp, t + 4), Bits(add, 10, 12), CellOf(adrp, add, t);
    PrecompiledFollows(isa, original, target, t, adrp, add, before, after);
    SparedIsIgnored(isa, Words(original), cell, Doubleword(core, cell));
    NoEscapeIsConfined(isa, Words(original), keeps, core);
    ConfinedGoesOn(before, after, Advancer(isa, Words(original)), target, t, page, offset, cell, core);
  }

  /**
   With nothing bound it returns -ENOSYS to the caller in x30, changes no other register but
   x16 and x17, and runs none of the stolen words.
   */
  lemma UnboundReturns(isa: Isa, original: seq<byte>, t: nat, adrp: nat, add: nat, core: Core,
                       after: Machine -> Machine) returns (k: nat)
    requires |original| == OVERWRITE_SIZE && IsAdrpX16(adrp) && IsAddX16(add) && IsA64(isa, adrp, add, t)
    requires t + PRECOMPILED_SIZE <= MAX_ADDRESS && Executes(after, isa, t, PrecompiledCode(adrp, add, original))
    requires Doubleword(core, CellOf(adrp, add, t)) == 0 && !(t <= Register(core, 30) < t + PRECOMPILED_SIZE)
    ensures LeavesPrecompiled(after, t, core, k)
    ensures Steps(after, Machine(t, core), k)
            == Machine(Register(core, 30), With(Scratched(core, CellOf(adrp, add, t), 0), 0, 0xffff_ffda))
    ensures forall i: nat | i < k :: !(t + RELOCATED <= Steps(after, Machine(t, core), i).pc < t + UNBOUND)
  {
    PrecompiledSteps(after, isa, t, adrp, add, original);
    k := UnboundLeaves(after, t, PageFrom(adrp, t + 4), Bits(add, 10, 12), CellOf(adrp, add, t), core);
  }

  lemma UnboundTail(after: Machine -> Machine, t: nat, page: nat, offset: nat, cell: nat, core: Core)
    requires IsPrecompiled(after, t, page, offset)
    ensures var c := Scratched(core, cell, 0);
            && after(Machine(t + UNBOUND, c)) == Machine(t + 44, With(c, 0, 0xffff_ffda))
            && after(Machine(t + 44, With(c, 0, 0xffff_ffda))) == Machine(Register(core, 30), With(c, 0, 0xffff_ffda))
  {
    var c := Scratched(core, cell, 0);
    assert StepsAs(after, t, page, offset, c) && StepsAs(after, t, page, offset, With(c, 0, 0xffff_ffda));
  }

  lemma UnboundLeaves(after: Machine -> Machine, t: nat, page: nat, offset: nat, cell: nat, core: Core) returns (k: nat)
    requires IsPrecompiled(after, t, page, offset) && cell == Wrapped(page + offset)
    requires Doubleword(core, cell) == 0 && !(t <= Register(core, 30) < t + PRECOMPILED_SIZE)
    ensures LeavesPrecompiled(after, t, core, k)
    ensures Steps(after, Machine(t, core), k)
            == Machine(Register(core, 30), With(Scratched(core, cell, 0), 0, 0xffff_ffda))
    ensures forall i: nat | i < k :: !(t + RELOCATED <= Steps(after, Machine(t, core), i).pc < t + UNBOUND)
  {
    var load := LoadRuns(after, t, page, offset, cell, core);
    var c := Scratched(core, cell, 0);
    var m0, m1 := Machine(t + UNBOUND, c), Machine(t + 44, With(c, 0, 0xffff_ffda));
    var m2 := Machine(Register(core, 30), m1.core);
    UnboundTail(after, t, page, offset, cell, core);
    TwoSteps(after, t, t + PRECOMPILED_SIZE, m0, m1, m2);
    LeavesLater(after, t, t + PRECOMPILED_SIZE, Machine(t, core), m0, load, 2);
    k := load + 2;
    StepsSplit(after, Machine(t, core), load, 1);
    forall i: nat | i < k ensures !(t + RELOCATED <= Steps(after, Machine(t, core), i).pc < t + UNBOUND) {
      assert i < load || i == load || i == load + 1;
    }
  }

  lemma TwoSteps(step: Machine -> Machine, lo: nat, hi: nat, m0: Machine, m1: Machine, m2: Machine)
    requires step(m0) == m1 && step(m1) == m2 && lo <= m0.pc < hi && lo <= m1.pc < hi && !(lo <= m2.pc < hi)
    ensures Leaves(step, lo, hi, m0, 2) && Steps(step, m0, 2) == m2 && Steps(step, m0, 1) == m1
  {
    assert Steps(step, m0, 1) == Steps(step, m1, 0) == m1;
    assert Steps(step, m0, 2) == Steps(step, m1, 1) == Steps(step, m2, 0) == m2;
    assert Steps(step, m0, 0) == m0;
  }
}
