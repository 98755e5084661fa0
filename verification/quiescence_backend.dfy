/**
 The backend table the coordinator calls through. Its answers are arbitrary; every
 call is recorded together with its answer.
 */
module QuiescenceBackends {
  import opened Environment

  datatype Snapshot = Snapshot(threadId: int, pc: nat, epoch: nat)

  /** One call through the table and its answer. */
  datatype BackendCall =
    | Enumerated(ok: bool, count: nat, ids: seq<int>)
    | Parked(thread: int, epoch: nat, ok: bool)
    | Waited(epoch: nat, ids: seq<int>, ok: bool, out: seq<Snapshot>)
    | Resumed(epoch: nat, ok: bool)

  class QuiescenceBackend {
    const hasEnumerate: bool
    const hasRequest: bool
    const hasWait: bool
    const hasResume: bool
    ghost var trace: seq<BackendCall>

    /** enumerateThreads: fills a buffer of `capacity` IDs and reports any count. */
    method EnumerateThreads(capacity: nat) returns (ok: bool, ids: seq<int>, count: nat)
      modifies this
      ensures |ids| == capacity
      ensures trace == old(trace) + [Enumerated(ok, count, if count <= capacity then ids[..count] else [])]
    {
      ok := Arbitrary<bool>();
      ids := Arbitrary<seq<int>>();
      count := Arbitrary<nat>();
      if |ids| != capacity {
        ids := seq(capacity, _ => 0);
      }
      trace := trace + [Enumerated(ok, count, if count <= capacity then ids[..count] else [])];
    }

    /** requestThreadPark. */
    method RequestThreadPark(thread: int, epoch: nat) returns (ok: bool)
      modifies this
      ensures trace == old(trace) + [Parked(thread, epoch, ok)]
    {
      ok := Arbitrary<bool>();
      trace := trace + [Parked(thread, epoch, ok)];
    }

    /** waitForParkedThreads: fills a buffer of `capacity` snapshots and reports any count. */
    method WaitForParkedThreads(epoch: nat, ids: seq<int>, capacity: nat)
      returns (ok: bool, out: seq<Snapshot>, count: nat)
      modifies this
      ensures |out| == capacity
      ensures trace == old(trace) + [Waited(epoch, ids, ok, if count <= capacity then out[..count] else [])]
    {
      ok := Arbitrary<bool>();
      out := Arbitrary<seq<Snapshot>>();
      count := Arbitrary<nat>();
      if |out| != capacity {
        out := seq(capacity, _ => Snapshot(-1, 0, 0));
      }
      trace := trace + [Waited(epoch, ids, ok, if count <= capacity then out[..count] else [])];
    }

    /** resumeParkedThreads. */
    method ResumeParkedThreads(epoch: nat) returns (ok: bool)
      modifies this
      ensures trace == old(trace) + [Resumed(epoch, ok)]
    {
      ok := Arbitrary<bool>();
      trace := trace + [Resumed(epoch, ok)];
    }
  }
}
