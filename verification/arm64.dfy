/**
 The part of A64 that the patch planner relies on (Arm Architecture Reference Manual,
 DDI 0487): the encoding classes its masks test, and a machine that runs BTI, the literal
 load, BR and the conditional branches, and everything else by an arbitrary semantics.
 */
module Arm64 {
  import opened Bytes

  const BTI_CALL: nat := 0xd503245f
  const LOAD_IP1_FROM_PC_PLUS_8: nat := 0x58000051
  const BRANCH_IP1: nat := 0xd61f0220

  // Encoding classes, by fields of the instruction word.

  predicate IsAddress(w: nat) { Bits(w, 24, 5) == 0x10 }
  predicate IsLoadLiteral(w: nat) { Bits(w, 27, 3) == 3 && Bits(w, 24, 2) == 0 }
  predicate IsBranchImmediate(w: nat) { Bits(w, 26, 5) == 5 }
  predicate IsConditionalBranch(w: nat) { Bits(w, 24, 8) == 0x54 }
  predicate IsCompareBranch(w: nat) { Bits(w, 25, 6) == 0x1a }
  predicate IsTestBranch(w: nat) { Bits(w, 25, 6) == 0x1b }
  predicate IsBranchRegister(w: nat) { Bits(w, 25, 7) == 0x6b }

  /** BC.cond: the conditional branch with bit 4 set. */
  predicate IsConsistentBranch(w: nat) { IsConditionalBranch(w) && Bits(w, 4, 1) == 1 }

  /** Where a conditional branch goes, relative to itself: imm19 words, signed. */
  function Displacement(w: nat): int {
    var imm19 := Bits(w, 5, 19);
    4 * (if imm19 < 0x40000 then imm19 else imm19 - 0x80000)
  }

  /** The condition flags N, Z, C and V, from the highest bit down. */
  type Flags = f: int | 0 <= f < 16

  /** ConditionHolds of the Arm pseudocode (section C1.2.4 lists the codes). */
  predicate ConditionHolds(cond: nat, flags: Flags) {
    var n, z, c, v := flags / 8 == 1, flags / 4 % 2 == 1, flags / 2 % 2 == 1, flags % 2 == 1;
    match cond
    case 0 => z
    case 1 => !z
    case 2 => c
    case 3 => !c
    case 4 => n
    case 5 => !n
    case 6 => v
    case 7 => !v
    case 8 => c && !z
    case 9 => !(c && !z)
    case 10 => n == v
    case 11 => n != v
    case 12 => n == v && !z
    case 13 => !(n == v && !z)
    case _ => true
  }

  predicate Taken(w: nat, flags: Flags) { ConditionHolds(Bits(w, 0, 4), flags) }

  /** Registers by number, the condition flags, and everything else (SP, vectors, memory) in `data`. */
  datatype Core = Core(x: map<nat, nat>, flags: Flags, data: map<int, int>)

  datatype Machine = Machine(pc: nat, core: Core)

  /** An instruction set: what the remaining words do to the machine. Nothing is assumed about it. */
  datatype Isa = Isa(effect: (nat, Machine) -> Machine)

  /** The word falls through, and what it does to the core does not depend on where it is. */
  ghost predicate PositionIndependent(isa: Isa, w: nat) {
    forall p: nat, q: nat, core: Core :: FallsThroughAlike(isa, w, p, q, core)
  }

  predicate FallsThroughAlike(isa: Isa, w: nat, p: nat, q: nat, core: Core) {
    && isa.effect(w, Machine(p, core)).pc == p + 4
    && isa.effect(w, Machine(p, core)).core == isa.effect(w, Machine(q, core)).core
  }

  /** Addresses wrap at 64 bits. */
  function Wrapped(a: int): nat { a % (MAX_ADDRESS + 1) }

  /** Instruction memory, one byte per address. */
  type Code = nat -> byte

  function Fetch(code: Code, a: nat, n: nat): nat {
    Value(seq(n, i requires 0 <= i => code(a + i)))
  }

  ghost predicate Installed(code: Code, a: nat, bytes: seq<byte>) {
    forall i | 0 <= i < |bytes| :: code(a + i) == bytes[i]
  }

  function Register(core: Core, n: nat): nat {
    if n in core.x then core.x[n] else 0
  }

  /** One instruction: BTI, LDR Xt from a literal, BR Xn, B.cond and BC.cond, or what the set defines. */
  function Step(isa: Isa, code: Code, m: Machine): Machine {
    var w := Fetch(code, m.pc, 4);
    if w == BTI_CALL then m.(pc := m.pc + 4)
    else if Bits(w, 24, 8) == 0x58 && Bits(w, 23, 1) == 0 then
      var literal := Fetch(code, m.pc + 4 * Bits(w, 5, 18), 8);
      Machine(m.pc + 4, m.core.(x := m.core.x[Bits(w, 0, 5) := literal]))
    else if w == 0xd61f0000 + 32 * Bits(w, 5, 5) then m.(pc := Register(m.core, Bits(w, 5, 5)))
    else if IsConditionalBranch(w) then
      m.(pc := if Taken(w, m.core.flags) then Wrapped(m.pc + Displacement(w)) else m.pc + 4)
    else isa.effect(w, m)
  }

  /** `step` is the machine with this instruction set and this code. */
  ghost predicate Runs(step: Machine -> Machine, isa: Isa, code: Code) {
    forall m: Machine {:trigger Step(isa, code, m)} :: step(m) == Step(isa, code, m)
  }

  /** `step` is a machine with this instruction set whose code has these bytes at `a`. */
  ghost predicate Executes(step: Machine -> Machine, isa: Isa, a: nat, bytes: seq<byte>) {
    exists code: Code :: Runs(step, isa, code) && Installed(code, a, bytes)
  }

  function Steps(step: Machine -> Machine, m: Machine, n: nat): Machine
    decreases n
  {
    if n == 0 then m else Steps(step, step(m), n - 1)
  }

  lemma {:induction false} StepsSplit(step: Machine -> Machine, m: Machine, a: nat, b: nat)
    ensures Steps(step, m, a + b) == Steps(step, Steps(step, m, a), b)
    decreases a
  {
    if a > 0 {
      StepsSplit(step, step(m), a - 1, b);
    }
  }

  lemma StepsLast(step: Machine -> Machine, m: Machine, n: nat)
    ensures Steps(step, m, n + 1) == step(Steps(step, m, n))
  {
    StepsSplit(step, m, n, 1);
    assert Steps(step, Steps(step, m, n), 1) == Steps(step, step(Steps(step, m, n)), 0);
  }

  lemma FetchInstalled(code: Code, a: nat, bytes: seq<byte>, k: nat, n: nat)
    requires Installed(code, a, bytes) && k + n <= |bytes|
    ensures Fetch(code, a + k, n) == Value(bytes[k..k + n])
  {
    var fetched := seq(n, i requires 0 <= i => code(a + k + i));
    assert fetched == bytes[k..k + n];
  }
}
