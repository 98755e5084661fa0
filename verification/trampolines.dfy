/**
 Running what the planner built, instruction by instruction: the absolute branch, the
 entry patch, and the three parts of the trampoline.
 */
module Trampolines {
  import opened Bytes
  import opened Arm64
  import opened PatchPlanner

  predicate Accepted(w: nat) {
    !IsPcRelative(w) && !IsRegisterControlFlow(w)
  }

  /** What an accepted word does: the landing pad, BC.cond, or what the instruction set says. */
  function Ran(isa: Isa, w: nat, m: Machine): Machine {
    if w == BTI_CALL then m.(pc := m.pc + 4)
    else if IsConsistentBranch(w) then
      m.(pc := if Taken(w, m.core.flags) then Wrapped(m.pc + Displacement(w)) else m.pc + 4)
    else isa.effect(w, m)
  }

  lemma BranchFields()
    ensures Bits(LOAD_IP1_FROM_PC_PLUS_8, 24, 8) == 0x58 && Bits(LOAD_IP1_FROM_PC_PLUS_8, 23, 1) == 0
    ensures Bits(LOAD_IP1_FROM_PC_PLUS_8, 5, 18) == 2 && Bits(LOAD_IP1_FROM_PC_PLUS_8, 0, 5) == 17
    ensures Bits(BRANCH_IP1, 24, 8) == 0xd6 && Bits(BRANCH_IP1, 5, 5) == 17
  {
    Powers();
    ShiftRightIs(LOAD_IP1_FROM_PC_PLUS_8, 24);
    ShiftRightIs(LOAD_IP1_FROM_PC_PLUS_8, 23);
    ShiftRightIs(LOAD_IP1_FROM_PC_PLUS_8, 5);
    ShiftRightIs(BRANCH_IP1, 24);
    ShiftRightIs(BRANCH_IP1, 5);
    LowBitsIs(0x58, 8);
    LowBitsIs(0xb0, 1);
    LowBitsIs(0x2c00002, 18);
    LowBitsIs(LOAD_IP1_FROM_PC_PLUS_8, 5);
    LowBitsIs(0xd6, 8);
    LowBitsIs(0x6b0f811, 5);
  }

  /** The branch and load forms the machine runs itself are in listed classes. */
  lemma LoadFormIsListed(w: nat)
    requires Bits(w, 24, 8) == 0x58
    ensures IsLoadLiteral(w)
  {
    TopByteFields(w);
    var v := ShiftRight(w, 24);
    assert LowBits(v / 2, 7) == 0x2c;
    assert LowBits(v / 2 / 2, 6) == 0x16;
    assert LowBits(v / 2 / 2 / 2, 5) == 0xb;
    Narrow(v, 8, 2);
    Narrow(v / 2 / 2 / 2, 5, 3);
  }

  lemma BranchFormIsListed(w: nat)
    requires w == 0xd61f0000 + 32 * Bits(w, 5, 5)
    ensures IsBranchRegister(w)
  {
    Powers();
    LowBitsIs(ShiftRight(w, 5), 5);
    ShiftRightIs(w, 25);
    assert w / 0x2000000 == 0x6b;
    LowBitsIs(0x6b, 7);
  }

  lemma ConcreteFormsAreListed(w: nat)
    ensures Bits(w, 24, 8) == 0x58 || w == 0xd61f0000 + 32 * Bits(w, 5, 5) ==> IsListed(w)
  {
    if Bits(w, 24, 8) == 0x58 {
      LoadFormIsListed(w);
    }
    if w == 0xd61f0000 + 32 * Bits(w, 5, 5) {
      BranchFormIsListed(w);
    }
  }

  lemma StepAccepted(isa: Isa, code: Code, m: Machine)
    requires Accepted(Fetch(code, m.pc, 4))
    ensures Step(isa, code, m) == Ran(isa, Fetch(code, m.pc, 4), m)
  {
    AcceptedWords(Fetch(code, m.pc, 4));
    ConcreteFormsAreListed(Fetch(code, m.pc, 4));
  }

  lemma InstalledParts(code: Code, a: nat, x: seq<byte>, y: seq<byte>)
    requires Installed(code, a, x + y)
    ensures Installed(code, a, x) && Installed(code, a + |x|, y)
  {
    forall i | 0 <= i < |x| ensures code(a + i) == x[i] {
      assert (x + y)[i] == x[i];
    }
    forall i | 0 <= i < |y| ensures code(a + |x| + i) == y[i] {
      assert code(a + (|x| + i)) == (x + y)[|x| + i];
    }
  }

  lemma FetchField(code: Code, a: nat, v: nat, n: nat)
    requires Installed(code, a, LittleEndian(v, n)) && v < Pow2(8 * n)
    ensures Fetch(code, a, n) == v
  {
    FetchInstalled(code, a, LittleEndian(v, n), 0, n);
    assert LittleEndian(v, n)[0..n] == LittleEndian(v, n);
    ValueOfLittleEndian(v, n);
    RemainderIs(v, Pow2(8 * n), 0, v);
  }

  lemma AbsoluteBranchFetches(code: Code, a: nat, address: uintptr)
    requires Installed(code, a, AbsoluteBranch(address))
    ensures Fetch(code, a, 4) == LOAD_IP1_FROM_PC_PLUS_8
    ensures Fetch(code, a + 4, 4) == BRANCH_IP1
    ensures Fetch(code, a + 8, 8) == address
  {
    var load := LittleEndian(LOAD_IP1_FROM_PC_PLUS_8, 4);
    var branch := LittleEndian(BRANCH_IP1, 4);
    InstalledParts(code, a, load + branch, LittleEndian(address, 8));
    InstalledParts(code, a, load, branch);
    Powers();
    FetchField(code, a, LOAD_IP1_FROM_PC_PLUS_8, 4);
    FetchField(code, a + 4, BRANCH_IP1, 4);
    FetchField(code, a + 8, address, 8);
  }

  lemma AbsoluteBranchSteps(isa: Isa, code: Code, a: nat, core: Core, address: uintptr)
    requires Installed(code, a, AbsoluteBranch(address))
    ensures var loaded := Machine(a + 4, core.(x := core.x[17 := address]));
            && Step(isa, code, Machine(a, core)) == loaded
            && Step(isa, code, Machine(a + 4, core)) == Machine(Register(core, 17), core)
  {
    AbsoluteBranchFetches(code, a, address);
    BranchFields();
  }

  /** The absolute branch: two instructions, and only x17 changes. */
  lemma AbsoluteBranchRuns(step: Machine -> Machine, isa: Isa, a: nat, core: Core, address: uintptr)
    requires Executes(step, isa, a, AbsoluteBranch(address))
    ensures Steps(step, Machine(a, core), 2) == Machine(address, core.(x := core.x[17 := address]))
  {
    var code: Code :| Runs(step, isa, code) && Installed(code, a, AbsoluteBranch(address));
    var m1 := Machine(a + 4, core.(x := core.x[17 := address]));
    AbsoluteBranchSteps(isa, code, a, core, address);
    AbsoluteBranchSteps(isa, code, a, m1.core, address);
    assert Steps(step, Machine(a, core), 2) == Steps(step, m1, 1) == Steps(step, step(m1), 0);
  }

  // ---------------------------------------------------------------------------
  // The stolen words
  // ---------------------------------------------------------------------------

  /** The k-th stolen word. */
  function Stolen(original: seq<byte>, k: nat): nat
    requires |original| == OVERWRITE_SIZE && k < 4
  {
    WordAt(original, 4 * k)
  }

  predicate AllAccepted(original: seq<byte>)
    requires |original| == OVERWRITE_SIZE
  {
    forall k {:trigger Accepted(Stolen(original, k))} | 0 <= k < 4 :: Accepted(Stolen(original, k))
  }

  /** Every prologue the planner accepts has accepted words only. */
  lemma {:induction false} ReadyWordsAccepted(prologue: seq<byte>, k: nat)
    requires |prologue| >= OVERWRITE_SIZE && k <= 4 && Refusal(prologue, 4 * k) == Ready
    ensures forall j | k <= j < 4 :: Accepted(Stolen(prologue[..OVERWRITE_SIZE], j))
    decreases 4 - k
  {
    if k < 4 {
      var at := 4 * k;
      assert prologue[..OVERWRITE_SIZE][at..at + 4] == prologue[at..at + 4];
      ReadyWordsAccepted(prologue, k + 1);
    }
  }

  lemma TrampolineParts(code: Code, t: nat, original: seq<byte>, resume: nat)
    requires |original| == OVERWRITE_SIZE
    requires Installed(code, t, Trampoline(original, resume))
    ensures Fetch(code, t, 4) == BTI_CALL
    ensures Installed(code, t + 4, original)
    ensures Installed(code, t + 20, AbsoluteBranch(resume))
  {
    var pad := LittleEndian(BTI_CALL, 4);
    InstalledParts(code, t, pad + original, AbsoluteBranch(resume));
    InstalledParts(code, t, pad, original);
    Powers();
    FetchField(code, t, BTI_CALL, 4);
  }

  /** The entry patch of a ready plan reaches the replacement and changes only x17. */
  lemma EntryPatchReachesReplacement(step: Machine -> Machine, isa: Isa, target: uintptr, replacement: uintptr,
                                     prologue: seq<byte>, core: Core)
    requires Planned(target, replacement, prologue).status == Ready
    requires Executes(step, isa, target, Planned(target, replacement, prologue).entryPatch)
    ensures Steps(step, Machine(target, core), 2) == Machine(replacement, core.(x := core.x[17 := replacement]))
  {
    AbsoluteBranchRuns(step, isa, target, core, replacement);
  }
}
