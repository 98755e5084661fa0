/**
 planArm64InlineHook: the entry patch and trampoline bytes for a 16-byte inline hook,
 and which instruction words it refuses to steal.
 */
module PatchPlanner {
  import opened Bytes
  import opened Arm64

  const OVERWRITE_SIZE: nat := 16

  type uintptr = x: int | 0 <= x <= MAX_ADDRESS

  datatype PlanStatus =
    | Ready
    | InvalidAddress
    | InsufficientPrologue
    | PcRelativeInstruction
    | ControlFlowInstruction

  datatype Plan = Plan(
    status: PlanStatus,
    overwriteSize: nat,
    resumeAddress: nat,
    originalBytes: seq<byte>,
    entryPatch: seq<byte>,
    trampoline: seq<byte>)

  function Failure(status: PlanStatus): Plan {
    Plan(status, 0, 0, [], [], [])
  }

  predicate IsPcRelative(w: nat) {
    || And(w, 0x1f000000) == 0x10000000
    || And(w, 0x3b000000) == 0x18000000
    || And(w, 0x7c000000) == 0x14000000
    || And(w, 0xff000010) == 0x54000000
    || And(w, 0x7e000000) == 0x34000000
    || And(w, 0x7e000000) == 0x36000000
  }

  predicate IsRegisterControlFlow(w: nat) {
    And(w, 0xfe000000) == 0xd6000000
  }

  // ---------------------------------------------------------------------------
  // What the masks recognise
  // ---------------------------------------------------------------------------

  lemma {:induction false} ShiftTwice(w: nat, a: nat, b: nat)
    ensures ShiftRight(ShiftRight(w, a), b) == ShiftRight(w, a + b)
  {
    if a > 0 {
      ShiftTwice(w / 2, a - 1, b);
    }
  }

  /** A mask test whose mask is `n` ones at `lo`, in the source's literals. */
  lemma MaskIs(w: nat, mask: nat, pattern: nat, lo: nat, n: nat, c: nat)
    requires mask == Ones(n) * Pow2(lo) && pattern == c * Pow2(lo)
    ensures And(w, mask) == pattern <==> Bits(w, lo, n) == c
  {
    ShiftLeftIs(Ones(n), lo);
    ShiftLeftIs(c, lo);
    MaskTestsField(w, lo, n, c);
  }

  lemma SimpleMasks(w: nat)
    ensures And(w, 0x1f000000) == 0x10000000 <==> IsAddress(w)
    ensures And(w, 0x7c000000) == 0x14000000 <==> IsBranchImmediate(w)
    ensures And(w, 0x7e000000) == 0x34000000 <==> IsCompareBranch(w)
    ensures And(w, 0x7e000000) == 0x36000000 <==> IsTestBranch(w)
    ensures And(w, 0xfe000000) == 0xd6000000 <==> IsBranchRegister(w)
  {
    Powers();
    assert Ones(5) == 31 && Ones(6) == 63 && Ones(7) == 127;
    MaskIs(w, 0x1f000000, 0x10000000, 24, 5, 0x10);
    MaskIs(w, 0x7c000000, 0x14000000, 26, 5, 5);
    MaskIs(w, 0x7e000000, 0x34000000, 25, 6, 0x1a);
    MaskIs(w, 0x7e000000, 0x36000000, 25, 6, 0x1b);
    MaskIs(w, 0xfe000000, 0xd6000000, 25, 7, 0x6b);
  }

  lemma LiteralMask(w: nat)
    ensures And(w, 0x3b000000) == 0x18000000 <==> IsLoadLiteral(w)
  {
    Powers();
    var v := ShiftRight(w, 24);
    AndShift(w, 0x3b, 24);
    ShiftLeftIs(0x3b, 24);
    ShiftLeftIs(And(v, 0x3b), 24);
    assert And(w, 0x3b000000) == And(v, 0x3b) * 0x1000000;
    var v1 := v / 2;
    var v2 := v1 / 2;
    var v3 := v2 / 2;
    AndDouble(v, 0x1d);
    AndDouble(v1, 0xe);
    AndDouble(v2, 7);
    AndOnes(v3, 3);
    assert Ones(3) == 7;
    assert And(v, 0x3b) == 2 * (2 * (2 * LowBits(v3, 3)) + v1 % 2) + v % 2;
    ShiftTwice(w, 24, 3);
    assert ShiftRight(v, 3) == ShiftRight(v1, 2) == ShiftRight(v2, 1) == v3;
    assert LowBits(v1, 1) == v1 % 2;
    assert LowBits(v, 2) == 2 * (v1 % 2) + v % 2;
  }

  /** The conditional-branch mask also demands that bit 4 is clear. */
  lemma ConditionalMask(w: nat)
    ensures And(w, 0xff000010) == 0x54000000 <==> IsConditionalBranch(w) && !IsConsistentBranch(w)
  {
    Powers();
    var v := ShiftRight(w, 4);
    AndShift(w, 0xff00001, 4);
    ShiftLeftIs(0xff00001, 4);
    ShiftLeftIs(And(v, 0xff00001), 4);
    assert And(w, 0xff000010) == And(v, 0xff00001) * 16;
    AndDouble(v, 0x7f80000);
    AndShift(v / 2, Ones(8), 19);
    AndOnes(ShiftRight(v / 2, 19), 8);
    ShiftLeftIs(Ones(8), 19);
    ShiftLeftIs(Bits(v / 2, 19, 8), 19);
    assert Ones(8) == 255;
    assert And(v, 0xff00001) == 2 * (Bits(v / 2, 19, 8) * 0x80000) + v % 2;
    ShiftTwice(w, 4, 20);
    assert ShiftRight(v, 20) == ShiftRight(v / 2, 19);
    assert LowBits(v, 1) == v % 2;
  }

  /** The fields at bits 25, 26 and 27 are the top byte without its lowest bits. */
  lemma TopByteFields(w: nat)
    ensures var v := ShiftRight(w, 24);
            && ShiftRight(w, 25) == v / 2 && ShiftRight(w, 26) == v / 2 / 2 && ShiftRight(w, 27) == v / 2 / 2 / 2
  {
    ShiftTwice(w, 24, 1);
    ShiftTwice(w, 24, 2);
    ShiftTwice(w, 24, 3);
  }

  /** Conditional branches share no word with the other classes. */
  lemma ConditionalIsDisjoint(w: nat)
    requires IsConditionalBranch(w)
    ensures !IsAddress(w) && !IsLoadLiteral(w) && !IsBranchImmediate(w)
    ensures !IsCompareBranch(w) && !IsTestBranch(w) && !IsBranchRegister(w)
  {
    TopByteFields(w);
    var v := ShiftRight(w, 24);
    assert LowBits(v / 2, 7) == 0x2a;
    assert LowBits(v / 2 / 2, 6) == 0x15;
    assert LowBits(v / 2 / 2 / 2, 5) == 0xa;
    Narrow(v, 8, 5);
    Narrow(v / 2, 7, 6);
    Narrow(v / 2 / 2, 6, 5);
    Narrow(v / 2 / 2 / 2, 5, 3);
  }

  /** The classes the planner means to refuse, without the BC.cond half of the conditional branches. */
  predicate IsListed(w: nat) {
    || IsAddress(w) || IsLoadLiteral(w) || IsBranchImmediate(w) || (IsConditionalBranch(w) && !IsConsistentBranch(w))
    || IsCompareBranch(w) || IsTestBranch(w) || IsBranchRegister(w)
  }

  /** The planner rejects exactly the words of the listed classes, and accepts every BC.cond. */
  lemma AcceptedWords(w: nat)
    ensures IsPcRelative(w) || IsRegisterControlFlow(w) <==> IsListed(w)
    ensures IsConsistentBranch(w) ==> !IsListed(w)
  {
    SimpleMasks(w);
    LiteralMask(w);
    ConditionalMask(w);
    if IsConsistentBranch(w) {
      ConditionalIsDisjoint(w);
    }
  }

  /** BC.EQ with a zero offset is accepted although it is a conditional branch. */
  lemma AcceptedBranch()
    ensures !IsPcRelative(0x54000010) && !IsRegisterControlFlow(0x54000010) && IsConditionalBranch(0x54000010)
  {
    Powers();
    ShiftRightIs(0x54000010, 24);
    ShiftRightIs(0x54000010, 4);
    LowBitsIs(0x54, 8);
    LowBitsIs(0x5400001, 1);
    assert IsConsistentBranch(0x54000010);
    AcceptedWords(0x54000010);
  }

  /** The fields of the listed classes, as remainders of the top byte. */
  lemma TopByteRemainders(v: nat)
    ensures LowBits(v, 2) == v % 4 && LowBits(v, 5) == v % 32 && LowBits(v, 8) == v % 256
    ensures LowBits(v / 2, 6) == v / 2 % 64 && LowBits(v / 2, 7) == v / 2 % 128
    ensures LowBits(v / 2 / 2, 5) == v / 2 / 2 % 32 && LowBits(v / 2 / 2 / 2, 3) == v / 2 / 2 / 2 % 8
  {
    Powers();
    LowBitsIs(v, 2);
    LowBitsIs(v, 5);
    LowBitsIs(v, 8);
    LowBitsIs(v / 2, 6);
    LowBitsIs(v / 2, 7);
    LowBitsIs(v / 2 / 2, 5);
    LowBitsIs(v / 2 / 2 / 2, 3);
  }

  /** A top byte outside every listed class and the conditional branches. */
  predicate IsOutside(v: nat) {
    && v % 32 != 0x10 && (v / 2 / 2 / 2 % 8 != 3 || v % 4 != 0) && v / 2 / 2 % 32 != 5 && v % 256 != 0x54
    && v / 2 % 64 != 0x1a && v / 2 % 64 != 0x1b && v / 2 % 128 != 0x6b
  }

  lemma TopByteOutside(w: nat)
    requires IsOutside(ShiftRight(w, 24))
    ensures !IsListed(w) && !IsConditionalBranch(w)
  {
    TopByteFields(w);
    TopByteRemainders(ShiftRight(w, 24));
  }

  /**
   Words that read the program counter need not be in a listed class: PACIASPPC, AUTIASPPC
   and RETAASPPC of FEAT_PAuth_LR are accepted.
   */
  lemma AcceptedPcReaders(w: nat)
    requires w == 0xdac1a3fe || w == 0xf380001f || w == 0x5500001f
    ensures !IsPcRelative(w) && !IsRegisterControlFlow(w) && !IsConditionalBranch(w)
  {
    Powers();
    ShiftRightIs(w, 24);
    assert IsOutside(0xda) && IsOutside(0xf3) && IsOutside(0x55);
    TopByteOutside(w);
    AcceptedWords(w);
  }

  // ---------------------------------------------------------------------------
  // The plan
  // ---------------------------------------------------------------------------

  function WordAt(bytes: seq<byte>, offset: nat): nat
    requires offset + 4 <= |bytes|
  {
    Value(bytes[offset..offset + 4])
  }

  /** LDR x17 from the literal two words ahead, BR x17, the literal. */
  function AbsoluteBranch(address: nat): seq<byte> {
    LittleEndian(LOAD_IP1_FROM_PC_PLUS_8, 4) + LittleEndian(BRANCH_IP1, 4) + LittleEndian(address, 8)
  }

  function Trampoline(original: seq<byte>, resume: nat): seq<byte> {
    LittleEndian(BTI_CALL, 4) + original + AbsoluteBranch(resume)
  }

  predicate ValidAddresses(target: uintptr, replacement: uintptr) {
    && target != 0 && replacement != 0 && target % 4 == 0 && replacement % 4 == 0
    && target <= MAX_ADDRESS - OVERWRITE_SIZE
  }

  /** The first reason, in prologue order, to refuse one of the stolen words. */
  function Refusal(prologue: seq<byte>, offset: nat): PlanStatus
    requires |prologue| >= OVERWRITE_SIZE
    decreases OVERWRITE_SIZE - offset
  {
    if offset + 4 > OVERWRITE_SIZE then Ready
    else if IsPcRelative(WordAt(prologue, offset)) then PcRelativeInstruction
    else if IsRegisterControlFlow(WordAt(prologue, offset)) then ControlFlowInstruction
    else Refusal(prologue, offset + 4)
  }

  function PlanFor(target: uintptr, replacement: uintptr, original: seq<byte>): Plan {
    var resume := target + OVERWRITE_SIZE;
    Plan(Ready, OVERWRITE_SIZE, resume, original, AbsoluteBranch(replacement), Trampoline(original, resume))
  }

  function Planned(target: uintptr, replacement: uintptr, prologue: seq<byte>): Plan {
    if !ValidAddresses(target, replacement) then Failure(InvalidAddress)
    else if |prologue| < OVERWRITE_SIZE then Failure(InsufficientPrologue)
    else if Refusal(prologue, 0) != Ready then Failure(Refusal(prologue, 0))
    else PlanFor(target, replacement, prologue[..OVERWRITE_SIZE])
  }

  /** append32 and append64: one byte per iteration, shifting the value down. */
  method Append(output: seq<byte>, value: nat, width: nat) returns (r: seq<byte>)
    ensures r == output + LittleEndian(value, width)
  {
    r := output;
    var rest := value;
    var i := 0;
    while i < width
      invariant 0 <= i <= width
      invariant output + LittleEndian(value, width) == r + LittleEndian(rest, width - i)
    {
      r := r + [rest % 256];
      rest := rest / 256;
      i := i + 1;
    }
  }

  method AppendAbsoluteBranch(output: seq<byte>, address: nat) returns (r: seq<byte>)
    ensures r == output + AbsoluteBranch(address)
  {
    r := Append(output, LOAD_IP1_FROM_PC_PLUS_8, 4);
    r := Append(r, BRANCH_IP1, 4);
    r := Append(r, address, 8);
  }

  method BuildTrampoline(original: seq<byte>, resume: nat) returns (r: seq<byte>)
    ensures r == Trampoline(original, resume)
  {
    r := Append([], BTI_CALL, 4);
    r := AppendAbsoluteBranch(r + original, resume);
  }

  method CheckPrologue(prologue: seq<byte>) returns (status: PlanStatus)
    requires |prologue| >= OVERWRITE_SIZE
    ensures status == Refusal(prologue, 0)
  {
    var offset := 0;
    while offset < OVERWRITE_SIZE
      invariant offset <= OVERWRITE_SIZE && offset % 4 == 0
      invariant Refusal(prologue, 0) == Refusal(prologue, offset)
    {
      var instruction := WordAt(prologue, offset);
      if IsPcRelative(instruction) {
        return PcRelativeInstruction;
      }
      if IsRegisterControlFlow(instruction) {
        return ControlFlowInstruction;
      }
      offset := offset + 4;
    }
    return Ready;
  }

  method PlanArm64InlineHook(target: uintptr, replacement: uintptr, prologue: seq<byte>) returns (plan: Plan)
    ensures plan == Planned(target, replacement, prologue)
  {
    if !ValidAddresses(target, replacement) {
      return Failure(InvalidAddress);
    }
    if |prologue| < OVERWRITE_SIZE {
      return Failure(InsufficientPrologue);
    }
    var status := CheckPrologue(prologue);
    if status != Ready {
      return Failure(status);
    }
    var resume := target + OVERWRITE_SIZE;
    var entryPatch := AppendAbsoluteBranch([], replacement);
    var trampoline := BuildTrampoline(prologue[..OVERWRITE_SIZE], resume);
    plan := Plan(Ready, OVERWRITE_SIZE, resume, prologue[..OVERWRITE_SIZE], entryPatch, trampoline);
  }
}
