/**
 The memory a patch transaction works on and the callbacks it reaches it through. Any
 callback may fail; a failed write may leave anything in its own range. Other threads
 may change memory until the exclusive window is entered.
 */
module PatchBackends {
  import opened Environment
  import opened Bytes

  type Memory = nat -> byte

  function Slice(m: Memory, a: nat, n: nat): (r: seq<byte>)
    ensures |r| == n
  {
    seq(n, i requires 0 <= i => m(a + i))
  }

  function Stored(m: Memory, a: nat, bytes: seq<byte>): Memory {
    (p: nat) => if a <= p < a + |bytes| then bytes[p - a] else m(p)
  }

  function Overlaid(m: Memory, bytes: map<nat, byte>): Memory {
    (p: nat) => if p in bytes then bytes[p] else m(p)
  }

  /** The memories agree on `n` bytes from `a`. */
  ghost predicate SameIn(m: Memory, m': Memory, a: nat, n: nat) {
    forall p: nat | a <= p < a + n :: m(p) == m'(p)
  }

  /** The memories agree everywhere but on `n` bytes from `a`. */
  ghost predicate SameOutside(m: Memory, m': Memory, a: nat, n: nat) {
    forall p: nat | p < a || a + n <= p :: m(p) == m'(p)
  }

  lemma SliceOfStored(m: Memory, a: nat, bytes: seq<byte>)
    ensures Slice(Stored(m, a, bytes), a, |bytes|) == bytes
  {
  }

  lemma SameSlice(m: Memory, m': Memory, a: nat, n: nat)
    requires SameIn(m, m', a, n)
    ensures Slice(m, a, n) == Slice(m', a, n)
  {
  }

  /** Equal slices are equal memory. */
  lemma SliceDetermines(m: Memory, m': Memory, a: nat, n: nat)
    requires Slice(m, a, n) == Slice(m', a, n)
    ensures SameIn(m, m', a, n)
  {
    forall p: nat | a <= p < a + n ensures m(p) == m'(p) {
      assert Slice(m, a, n)[p - a] == Slice(m', a, n)[p - a];
    }
  }

  /** One callback invocation and its answer. */
  datatype PatchCall =
    | Entered(ok: bool)
    | Left(ok: bool)
    | ReadBack(address: nat, ok: bool, bytes: seq<byte>)
    | Wrote(address: nat, bytes: seq<byte>, ok: bool)
    | Synced(address: nat, size: nat, ok: bool)
    | Bound(resume: nat, ok: bool)
    | Published(address: nat, ok: bool)

  class PatchBackend {
    /** Every required operation is supplied. */
    const complete: bool
    var memory: Memory
    ghost var trace: seq<PatchCall>
    /** The addresses other threads have written. */
    ghost var foreign: set<nat>

    /** Other threads run: memory changes arbitrarily. */
    method OthersRun()
      modifies this`memory, this`foreign
      ensures foreign >= old(foreign) && forall p: nat | p !in foreign :: memory(p) == old(memory)(p)
    {
      var bytes := Arbitrary<map<nat, byte>>();
      memory := Overlaid(memory, bytes);
      foreign := foreign + bytes.Keys;
    }

    /** enterExclusiveWindow: whatever the answer, others ran until now. */
    method EnterExclusiveWindow() returns (ok: bool)
      modifies this
      ensures foreign >= old(foreign) && forall p: nat | p !in foreign :: memory(p) == old(memory)(p)
      ensures trace == old(trace) + [Entered(ok)]
    {
      OthersRun();
      ok := Arbitrary<bool>();
      trace := trace + [Entered(ok)];
    }

    /** leaveExclusiveWindow. */
    method LeaveExclusiveWindow() returns (ok: bool)
      modifies this`trace
      ensures trace == old(trace) + [Left(ok)]
    {
      ok := Arbitrary<bool>();
      trace := trace + [Left(ok)];
    }

    /** readMemory. */
    method ReadMemory(address: nat, size: nat) returns (ok: bool, bytes: seq<byte>)
      modifies this`trace
      ensures |bytes| == size && (ok ==> bytes == Slice(memory, address, size))
      ensures trace == old(trace) + [ReadBack(address, ok, bytes)]
    {
      ok := Arbitrary<bool>();
      bytes := Slice(memory, address, size);
      if !ok {
        var other := Arbitrary<seq<byte>>();
        if |other| == size {
          bytes := other;
        }
      }
      trace := trace + [ReadBack(address, ok, bytes)];
    }

    /** writeMemory: exact on success, anything within its own range on failure. */
    method WriteMemory(address: nat, bytes: seq<byte>) returns (ok: bool)
      modifies this`memory, this`trace
      ensures ok ==> memory == Stored(old(memory), address, bytes)
      ensures SameOutside(memory, old(memory), address, |bytes|)
      ensures trace == old(trace) + [Wrote(address, bytes, ok)]
    {
      ok := Arbitrary<bool>();
      if ok {
        memory := Stored(memory, address, bytes);
      } else {
        var partial := Arbitrary<map<nat, byte>>();
        memory := Overlaid(memory, map p | p in partial && address <= p < address + |bytes| :: partial[p]);
      }
      trace := trace + [Wrote(address, bytes, ok)];
    }

    /** synchronizeInstructionCache. */
    method SynchronizeInstructionCache(address: nat, size: nat) returns (ok: bool)
      modifies this`trace
      ensures trace == old(trace) + [Synced(address, size, ok)]
    {
      ok := Arbitrary<bool>();
      trace := trace + [Synced(address, size, ok)];
    }

    /** The bindResumeAddress callback of a precompiled trampoline. */
    method BindResumeAddress(resume: nat) returns (ok: bool)
      modifies this`trace
      ensures trace == old(trace) + [Bound(resume, ok)]
    {
      ok := Arbitrary<bool>();
      trace := trace + [Bound(resume, ok)];
    }

    /** publishOriginalTrampoline. */
    method PublishOriginalTrampoline(address: nat) returns (ok: bool)
      modifies this`trace
      ensures trace == old(trace) + [Published(address, ok)]
    {
      ok := Arbitrary<bool>();
      trace := trace + [Published(address, ok)];
    }
  }
}
