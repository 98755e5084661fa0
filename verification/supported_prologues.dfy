/**
 The prologues of the supported device profile, and two prologues with a BC.cond: one that
 the planner should refuse and one it may steal.
 */
module SupportedPrologues {
  import opened Bytes
  import opened Arm64
  import opened PatchPlanner
  import opened Trampolines
  import opened StolenWords
  import opened Relocation
  import opened RelocationLimits
  import opened PrecompiledTrampolines

  const ON_TRANSACT: seq<byte> := [
    0x3f, 0x23, 0x03, 0xd5, 0xff, 0x83, 0x02, 0xd1, 0xfd, 0x7b, 0x04, 0xa9, 0xfc, 0x6f, 0x05, 0xa9]
  const CHARACTERISTICS: seq<byte> := [
    0x3f, 0x23, 0x03, 0xd5, 0xff, 0x03, 0x07, 0xd1, 0xfd, 0x7b, 0x16, 0xa9, 0xfc, 0x6f, 0x17, 0xa9]

  lemma WordTop(bytes: seq<byte>, offset: nat)
    requires offset + 4 <= |bytes|
    ensures ShiftRight(WordAt(bytes, offset), 24) == bytes[offset + 3]
  {
    var b := bytes[offset..offset + 4];
    var low := 65536 * (b[2] as int) + 256 * (b[1] as int) + b[0] as int;
    assert Value(b[3..]) == b[3];
    assert Value(b[2..]) == b[2] + 256 * Value(b[2..][1..]) && b[2..][1..] == b[3..];
    assert Value(b[1..]) == b[1] + 256 * Value(b[1..][1..]) && b[1..][1..] == b[2..];
    assert Value(b) == 0x100_0000 * b[3] + low;
    Powers();
    ShiftRightIs(Value(b), 24);
    RemainderIs(Value(b), 0x100_0000, b[3], low);
  }

  lemma NothingRefused(prologue: seq<byte>)
    requires |prologue| == OVERWRITE_SIZE
    requires Accepted(WordAt(prologue, 0)) && Accepted(WordAt(prologue, 4))
    requires Accepted(WordAt(prologue, 8)) && Accepted(WordAt(prologue, 12))
    ensures Refusal(prologue, 0) == Ready
  {
    assert Refusal(prologue, 8) == Refusal(prologue, 12) == Refusal(prologue, 16);
  }

  /** PACIASP and NOP, SUB, and STP words, by their top byte. */
  lemma PlainWord(bytes: seq<byte>, offset: nat)
    requires offset + 4 <= |bytes|
    requires bytes[offset + 3] == 0xd5 || bytes[offset + 3] == 0xd1 || bytes[offset + 3] == 0xa9
    ensures Accepted(WordAt(bytes, offset)) && !IsConsistentBranch(WordAt(bytes, offset))
  {
    WordTop(bytes, offset);
    assert IsOutside(0xd5) && IsOutside(0xd1) && IsOutside(0xa9);
    TopByteOutside(WordAt(bytes, offset));
    AcceptedWords(WordAt(bytes, offset));
  }

  lemma SupportedWord(prologue: seq<byte>, offset: nat)
    requires prologue == ON_TRANSACT || prologue == CHARACTERISTICS
    requires offset == 0 || offset == 4 || offset == 8 || offset == 12
    ensures Accepted(WordAt(prologue, offset)) && !IsConsistentBranch(WordAt(prologue, offset))
  {
    PlainWord(prologue, offset);
  }

  lemma SupportedIsReady(prologue: seq<byte>)
    requires prologue == ON_TRANSACT || prologue == CHARACTERISTICS
    ensures Refusal(prologue, 0) == Ready && IsStraight(Words(prologue))
  {
    SupportedWord(prologue, 0);
    SupportedWord(prologue, 4);
    SupportedWord(prologue, 8);
    SupportedWord(prologue, 12);
    NothingRefused(prologue);
    FourPlain(prologue);
  }

  lemma FourPlain(prologue: seq<byte>)
    requires |prologue| == OVERWRITE_SIZE
    requires !IsConsistentBranch(WordAt(prologue, 0)) && !IsConsistentBranch(WordAt(prologue, 4))
    requires !IsConsistentBranch(WordAt(prologue, 8)) && !IsConsistentBranch(WordAt(prologue, 12))
    ensures IsStraight(Words(prologue))
  {
    assert Words(prologue)[0] == WordAt(prologue, 0) && Words(prologue)[1] == WordAt(prologue, 4);
    assert Words(prologue)[2] == WordAt(prologue, 8) && Words(prologue)[3] == WordAt(prologue, 12);
  }

  /**
   Both supported prologues give ready plans. At every address that a plan may give it the
   trampoline preserves their meaning, except right behind the stolen words.
   */
  lemma SupportedProloguesRelocate(prologue: seq<byte>, target: uintptr, replacement: uintptr, t: uintptr,
                                   keeps: nat -> bool)
    requires prologue == ON_TRANSACT || prologue == CHARACTERISTICS
    requires ValidAddresses(target, replacement) && Admitted(target, t)
    ensures Planned(target, replacement, prologue).status == Ready
    ensures MeansTheSame(prologue, target, t, keeps) <==> t != target + 16
  {
    SupportedIsReady(prologue);
    assert prologue[..OVERWRITE_SIZE] == prologue;
    StraightPrologueMeans(target, replacement, prologue, t, keeps);
  }

  // ---------------------------------------------------------------------------
  // Prologues that start with BC.EQ
  // ---------------------------------------------------------------------------

  /** BC.EQ over 20 bytes, to behind the stolen words, then three NOPs. */
  const BRANCH_OUT: seq<byte> := [
    0xb0, 0x00, 0x00, 0x54, 0x1f, 0x20, 0x03, 0xd5, 0x1f, 0x20, 0x03, 0xd5, 0x1f, 0x20, 0x03, 0xd5]
  /** BC.EQ to the next word, then three NOPs. */
  const BRANCH_ON: seq<byte> := [
    0x30, 0x00, 0x00, 0x54, 0x1f, 0x20, 0x03, 0xd5, 0x1f, 0x20, 0x03, 0xd5, 0x1f, 0x20, 0x03, 0xd5]

  lemma BranchFieldsOf(w: nat)
    ensures Bits(w, 24, 8) == w / 0x1000000 % 256 && Bits(w, 4, 1) == w / 16 % 2 && Bits(w, 5, 19) == w / 32 % 0x80000
  {
    Powers();
    ShiftRightIs(w, 24);
    ShiftRightIs(w, 4);
    ShiftRightIs(w, 5);
    LowBitsIs(w / 0x1000000, 8);
    LowBitsIs(w / 16, 1);
    LowBitsIs(w / 32, 19);
  }

  lemma BranchWord(w: nat)
    requires w / 0x1000000 % 256 == 0x54 && w / 16 % 2 == 1 && w / 32 % 0x80000 < 0x40000
    ensures IsConsistentBranch(w) && Displacement(w) == 4 * (w / 32 % 0x80000)
  {
    BranchFieldsOf(w);
  }

  /** The first word of a prologue whose second and third byte are 0. */
  lemma FirstWord(prologue: seq<byte>)
    requires |prologue| >= 4 && prologue[1] == 0 && prologue[2] == 0
    ensures WordAt(prologue, 0) == prologue[0] as int + 0x1000000 * prologue[3] as int
  {
    var b := prologue[0..4];
    assert Value(b[3..]) == b[3];
    assert Value(b[2..]) == b[2] + 256 * Value(b[2..][1..]) && b[2..][1..] == b[3..];
    assert Value(b[1..]) == b[1] + 256 * Value(b[1..][1..]) && b[1..][1..] == b[2..];
  }

  lemma BranchParts(b: nat, w: nat)
    requires b < 256 && b / 16 % 2 == 1 && w == b + 0x54000000
    ensures w / 0x1000000 % 256 == 0x54 && w / 16 % 2 == 1 && w / 32 % 0x80000 == b / 32
  {
    assert w / 16 == b / 16 + 0x5400000 && w / 32 == b / 32 + 0x54 * 0x80000;
  }

  /** A BC.cond with a short forward displacement, by its bytes. */
  lemma BranchFirst(prologue: seq<byte>)
    requires |prologue| >= 4 && prologue[1] == 0 && prologue[2] == 0 && prologue[3] == 0x54 && prologue[0] / 16 % 2 == 1
    ensures var w := WordAt(prologue, 0);
            Accepted(w) && IsConsistentBranch(w) && Displacement(w) == 4 * (prologue[0] / 32) as int
  {
    var w := WordAt(prologue, 0);
    FirstWord(prologue);
    BranchParts(prologue[0], w);
    BranchWord(w);
    AcceptedWords(w);
  }

  lemma NopWord(prologue: seq<byte>, offset: nat)
    requires prologue == BRANCH_OUT || prologue == BRANCH_ON
    requires offset == 4 || offset == 8 || offset == 12
    ensures Accepted(WordAt(prologue, offset)) && !IsConsistentBranch(WordAt(prologue, offset))
  {
    PlainWord(prologue, offset);
  }

  /** The planner is ready to steal both; only the first can leave the stolen words. */
  lemma BranchPrologues(prologue: seq<byte>, target: uintptr, replacement: uintptr, keeps: nat -> bool)
    requires prologue == BRANCH_OUT || prologue == BRANCH_ON
    requires ValidAddresses(target, replacement)
    ensures Planned(target, replacement, prologue).status == Ready
    ensures CanEscape(Words(prologue), keeps) <==> prologue == BRANCH_OUT
  {
    BranchFirst(prologue);
    NopWord(prologue, 4);
    NopWord(prologue, 8);
    NopWord(prologue, 12);
    NothingRefused(prologue);
    OneBranch(prologue, keeps);
  }

  lemma OneBranch(prologue: seq<byte>, keeps: nat -> bool)
    requires |prologue| == OVERWRITE_SIZE && IsConsistentBranch(WordAt(prologue, 0))
    requires !IsConsistentBranch(WordAt(prologue, 4)) && !IsConsistentBranch(WordAt(prologue, 8))
    requires !IsConsistentBranch(WordAt(prologue, 12))
    ensures CanEscape(Words(prologue), keeps) <==> !(0 <= Displacement(WordAt(prologue, 0)) <= 16)
  {
    var words := Words(prologue);
    assert words[0] == WordAt(prologue, 0) && words[1] == WordAt(prologue, 4);
    assert words[2] == WordAt(prologue, 8) && words[3] == WordAt(prologue, 12);
    OneBranchEscapesExactly(words, keeps);
  }

  // ---------------------------------------------------------------------------
  // The hypotheses about the precompiled trampoline can be met
  // ---------------------------------------------------------------------------

  /** The six instructions of the precompiled trampoline as in the manual; the others do nothing. */
  function SampleEffect(adrp: nat, add: nat, page: nat -> nat, offset: nat, w: nat, m: Machine): Machine {
    if w == adrp then Machine(m.pc + 4, With(m.core, 16, page(m.pc)))
    else if w == add then Machine(m.pc + 4, With(m.core, 16, Wrapped(Register(m.core, 16) + offset)))
    else if w == LDAR_X17_X16 then Machine(m.pc + 4, With(m.core, 17, Doubleword(m.core, Register(m.core, 16))))
    else if w == CBZ_X17_UNBOUND then m.(pc := if Register(m.core, 17) == 0 then Wrapped(m.pc + 24) else m.pc + 4)
    else if w == MOV_W0_ENOSYS then Machine(m.pc + 4, With(m.core, 0, 0xffff_ffda))
    else if w == RET then m.(pc := Register(m.core, 30))
    else m.(pc := m.pc + 4)
  }

  function SampleIsa(adrp: nat, add: nat, page: nat -> nat, offset: nat): Isa {
    Isa((w: nat, m: Machine) => SampleEffect(adrp, add, page, offset, w, m))
  }

  lemma AdrpByFields(w: nat)
    requires w < 0x1_0000_0000 && w / 0x1000000 % 32 == 0x10 && w / 0x8000_0000 % 2 == 1 && w % 32 == 16
    ensures IsAdrpX16(w)
  {
    Powers();
    assert Pow2(32) == 2 * Pow2(31);
    ShiftRightIs(w, 24);
    ShiftRightIs(w, 31);
    LowBitsIs(w / 0x1000000, 5);
    LowBitsIs(w / 0x8000_0000, 1);
    LowBitsIs(w, 5);
  }

  lemma AddByFields(w: nat)
    requires w < 0x1_0000_0000 && w / 0x1000000 % 256 == 0x91 && w / 0x40_0000 % 4 == 0
    requires w / 32 % 32 == 16 && w % 32 == 16
    ensures IsAddX16(w)
  {
    Powers();
    assert Pow2(23) == 2 * Pow2(22) && Pow2(3) == 2 * Pow2(2);
    ShiftRightIs(w, 24);
    ShiftRightIs(w, 22);
    ShiftRightIs(w, 5);
    LowBitsIs(w / 0x1000000, 8);
    LowBitsIs(w / 0x40_0000, 2);
    LowBitsIs(w / 32, 5);
    LowBitsIs(w, 5);
  }

  /** Words that are none of the six. */
  predicate AreOthers(adrp: nat, add: nat, words: Block) {
    forall k | 0 <= k < 4 ::
      words[k] !in {adrp, add, LDAR_X17_X16, CBZ_X17_UNBOUND, MOV_W0_ENOSYS, RET}
  }

  lemma SampleFindsCell(adrp: nat, add: nat, page: nat -> nat, offset: nat, pc: nat)
    requires adrp != add
    ensures var isa := SampleIsa(adrp, add, page, offset);
            DoesAdrp(isa, adrp, pc, page(pc)) && DoesAdd(isa, add, offset)
  {
  }

  lemma SampleLoads(adrp: nat, add: nat, page: nat -> nat, offset: nat)
    requires adrp !in {LDAR_X17_X16, CBZ_X17_UNBOUND} && add !in {LDAR_X17_X16, CBZ_X17_UNBOUND}
    ensures var isa := SampleIsa(adrp, add, page, offset); DoesLdar(isa) && DoesCbz(isa)
  {
  }

  lemma SampleReturns(adrp: nat, add: nat, page: nat -> nat, offset: nat)
    requires adrp !in {MOV_W0_ENOSYS, RET} && add !in {MOV_W0_ENOSYS, RET}
    ensures var isa := SampleIsa(adrp, add, page, offset); DoesMov(isa) && DoesRet(isa)
  {
  }

  lemma SampleMeets(adrp: nat, add: nat, page: nat -> nat, offset: nat, words: Block, keeps: nat -> bool)
    requires AreOthers(adrp, add, words)
    ensures var isa := SampleIsa(adrp, add, page, offset);
            Independent(isa, words) && SparesScratch(isa, words) && SparesFlags(isa, words, keeps)
  {
    var isa := SampleIsa(adrp, add, page, offset);
    forall k, m: Machine | 0 <= k < 4 ensures isa.effect(words[k], m) == m.(pc := m.pc + 4) {
      assert words[k] !in {adrp, add, LDAR_X17_X16, CBZ_X17_UNBOUND, MOV_W0_ENOSYS, RET};
    }
    DoesNothingMeets(isa, words, keeps);
  }

  lemma SampleIsA64(adrp: nat, add: nat, page: nat -> nat, offset: nat, t: nat)
    requires adrp !in {add, LDAR_X17_X16, CBZ_X17_UNBOUND, MOV_W0_ENOSYS, RET}
    requires add !in {LDAR_X17_X16, CBZ_X17_UNBOUND, MOV_W0_ENOSYS, RET}
    requires page(t + 4) == PageFrom(adrp, t + 4) && offset == Bits(add, 10, 12)
    ensures IsA64(SampleIsa(adrp, add, page, offset), adrp, add, t)
  {
    SampleFindsCell(adrp, add, page, offset, t + 4);
    SampleLoads(adrp, add, page, offset);
    SampleReturns(adrp, add, page, offset);
  }

  lemma DoesNothingMeets(isa: Isa, words: Block, keeps: nat -> bool)
    requires forall k, m: Machine {:trigger isa.effect(words[k], m)} | 0 <= k < 4 ::
               isa.effect(words[k], m) == m.(pc := m.pc + 4)
    ensures Independent(isa, words) && SparesScratch(isa, words) && SparesFlags(isa, words, keeps)
  {
    forall k, p: nat, q: nat, core: Core | 0 <= k < 4 ensures FallsThroughAlike(isa, words[k], p, q, core) {
    }
    forall k, p: nat, core: Core, x16: nat, x17: nat | 0 <= k < 4
      ensures SparesScratchAt(isa, words[k], p, core, x16, x17)
    {
    }
  }

  lemma OtherThan(w: nat, v: nat)
    requires w / 0x1000000 == v && (v == 0xd5 || v == 0xd1 || v == 0xa9)
    ensures w !in {0x90000010, 0x91000210, LDAR_X17_X16, CBZ_X17_UNBOUND, MOV_W0_ENOSYS, RET}
  {
  }

  lemma TopIsQuotient(bytes: seq<byte>, offset: nat)
    requires offset + 4 <= |bytes|
    ensures WordAt(bytes, offset) / 0x1000000 == bytes[offset + 3]
  {
    WordTop(bytes, offset);
    Powers();
    ShiftRightIs(WordAt(bytes, offset), 24);
  }

  lemma SupportedIsOther(prologue: seq<byte>, offset: nat)
    requires prologue == ON_TRANSACT || prologue == CHARACTERISTICS
    requires offset == 0 || offset == 4 || offset == 8 || offset == 12
    ensures WordAt(prologue, offset)
            !in {0x90000010, 0x91000210, LDAR_X17_X16, CBZ_X17_UNBOUND, MOV_W0_ENOSYS, RET}
  {
    TopIsQuotient(prologue, offset);
    OtherThan(WordAt(prologue, offset), prologue[offset + 3]);
  }

  /** ADRP x16 to its own page and ADD x16, x16, 0. */
  lemma SampleWords(prologue: seq<byte>) returns (adrp: nat, add: nat)
    requires prologue == ON_TRANSACT || prologue == CHARACTERISTICS
    ensures IsAdrpX16(adrp) && IsAddX16(add) && AreOthers(adrp, add, Words(prologue))
    ensures adrp !in {add, LDAR_X17_X16, CBZ_X17_UNBOUND, MOV_W0_ENOSYS, RET}
    ensures add !in {LDAR_X17_X16, CBZ_X17_UNBOUND, MOV_W0_ENOSYS, RET}
  {
    adrp, add := 0x90000010, 0x91000210;
    AdrpByFields(adrp);
    AddByFields(add);
    SupportedAreOthers(prologue, adrp, add);
  }

  lemma SupportedAreOthers(prologue: seq<byte>, adrp: nat, add: nat)
    requires prologue == ON_TRANSACT || prologue == CHARACTERISTICS
    requires adrp == 0x90000010 && add == 0x91000210
    ensures AreOthers(adrp, add, Words(prologue))
  {
    SupportedIsOther(prologue, 0);
    SupportedIsOther(prologue, 4);
    SupportedIsOther(prologue, 8);
    SupportedIsOther(prologue, 12);
    assert Words(prologue)[0] == WordAt(prologue, 0) && Words(prologue)[1] == WordAt(prologue, 4);
    assert Words(prologue)[2] == WordAt(prologue, 8) && Words(prologue)[3] == WordAt(prologue, 12);
  }

  lemma SupportedNeverEscapes(prologue: seq<byte>, keeps: nat -> bool)
    requires prologue == ON_TRANSACT || prologue == CHARACTERISTICS
    ensures !CanEscape(Words(prologue), keeps)
  {
    SupportedIsReady(prologue);
    InsideNeverEscapes(Words(prologue), keeps);
  }

  lemma BoundCell(cell: nat, resume: uintptr) returns (core: Core)
    ensures Doubleword(core, cell) == resume
  {
    core := Core(map[], 0, map[cell := resume]);
  }

  /**
   For both supported prologues there is an instruction set with the six instructions of the
   manual that meets every hypothesis, and a memory in which the cell has been bound.
   */
  lemma PrecompiledCanRun(prologue: seq<byte>, t: nat, resume: uintptr, keeps: nat -> bool)
    returns (isa: Isa, adrp: nat, add: nat, core: Core)
    requires prologue == ON_TRANSACT || prologue == CHARACTERISTICS
    ensures IsAdrpX16(adrp) && IsAddX16(add) && IsA64(isa, adrp, add, t)
    ensures Independent(isa, Words(prologue)) && SparesScratch(isa, Words(prologue))
    ensures SparesFlags(isa, Words(prologue), keeps) && !CanEscape(Words(prologue), keeps)
    ensures Doubleword(core, CellOf(adrp, add, t)) == resume
  {
    adrp, add := SampleWords(prologue);
    var page := (pc: nat) => PageFrom(adrp, pc);
    var offset := Bits(add, 10, 12);
    isa := SampleIsa(adrp, add, page, offset);
    core := BoundCell(CellOf(adrp, add, t), resume);
    SampleIsA64(adrp, add, page, offset, t);
    SampleMeets(adrp, add, page, offset, Words(prologue), keeps);
    SupportedNeverEscapes(prologue, keeps);
  }
}
