/**
 Vocabulary of the thread quiescence coordinator: its configuration and results, the
 laws over the backend calls it makes, and its checks of thread inventories.
 */
module CoordinatorLaws {
  import opened Bytes
  import opened QuiescenceBackends
  import opened Sorting

  const MAXIMUM_SUPPORTED_THREADS: nat := 4096
  const MAXIMUM_SUPPORTED_PASSES: nat := 16

  datatype State = Empty | Prepared | Exclusive | Released | Failed

  datatype Status =
    | Ok
    | InvalidState
    | InvalidConfiguration
    | InvalidBackend
    | EnumerationFailed
    | ThreadCapacityExceeded
    | ThreadInventoryInvalid
    | ParkRequestFailed
    | ParkWaitFailed
    | ParkedInventoryMismatch
    | ParkedProgramCounterInvalid
    | ThreadInTargetRange
    | ThreadInventoryChanged
    | ThreadSetUnstable
    | ResumeFailed

  datatype Outcome = Outcome(status: Status, state: State, parkedThreadCount: nat, unsafeThreadId: int, unsafePc: nat)

  datatype Configuration = Configuration(
    targetAddress: nat,
    targetSize: nat,
    currentThreadId: int,
    epoch: nat,
    maximumThreads: nat,
    maximumStabilizationPasses: nat,
    waitTimeoutMilliseconds: nat)

  predicate RangeFits(start: nat, size: nat) {
    size != 0 && start + size <= MAX_ADDRESS
  }

  predicate ValidConfiguration(c: Configuration) {
    && c.targetAddress != 0 && c.targetAddress % 4 == 0
    && RangeFits(c.targetAddress, c.targetSize)
    && c.currentThreadId > 0 && c.epoch != 0
    && 0 < c.maximumThreads <= MAXIMUM_SUPPORTED_THREADS
    && 0 < c.maximumStabilizationPasses <= MAXIMUM_SUPPORTED_PASSES
    && c.waitTimeoutMilliseconds != 0
  }

  predicate InTarget(c: Configuration, pc: nat) {
    c.targetAddress <= pc < c.targetAddress + c.targetSize
  }

  // ---------------------------------------------------------------------------
  // Laws over the sequence of calls the coordinator makes
  // ---------------------------------------------------------------------------

  /** Running account of the calls made so far. */
  datatype Ledger = Ledger(lawful: bool, parks: set<int>, waited: set<int>, resumes: nat, resumed: bool)

  const NOTHING := Ledger(true, {}, {}, 0, false)

  /** Books one call; the ledger stops being lawful when the call breaks a rule. */
  function Book(l: Ledger, call: BackendCall, c: Configuration): Ledger {
    match call
    case Enumerated(_, _, _) => l
    case Parked(t, e, _) =>
      l.(lawful := l.lawful && t != c.currentThreadId && e == c.epoch && t !in l.parks && l.resumes == 0,
         parks := l.parks + {t})
    case Waited(e, ids, _, _) =>
      l.(lawful := l.lawful && e == c.epoch && l.waited < Elements(ids) && Elements(ids) == l.parks,
         waited := Elements(ids))
    case Resumed(e, ok) =>
      l.(lawful := l.lawful && e == c.epoch && l.parks != {} && !l.resumed,
         resumes := l.resumes + 1, resumed := l.resumed || ok)
  }

  function Tally(tr: seq<BackendCall>, c: Configuration): Ledger {
    if tr == [] then NOTHING
    else Book(Tally(tr[..|tr| - 1], c), tr[|tr| - 1], c)
  }

  lemma TallyAppend(tr: seq<BackendCall>, call: BackendCall, c: Configuration)
    ensures Tally(tr + [call], c) == Book(Tally(tr, c), call, c)
  {
    assert (tr + [call])[..|tr + [call]| - 1] == tr;
  }

  function ResumeIndices(tr: seq<BackendCall>): set<int> {
    set i | 0 <= i < |tr| && tr[i].Resumed?
  }

  /** What the ledger's figures mean in terms of the calls. */
  lemma {:induction false} TallyMeans(tr: seq<BackendCall>, c: Configuration)
    ensures var l := Tally(tr, c);
            && l.resumes == |ResumeIndices(tr)|
            && (forall i | 0 <= i < |tr| && tr[i].Parked? :: tr[i].thread in l.parks)
            && (forall i | 0 <= i < |tr| && tr[i].Resumed? && tr[i].ok :: l.resumed)
            && (l.resumes == 0 <==> forall i | 0 <= i < |tr| :: !tr[i].Resumed?)
            && (l.lawful ==> forall i | 0 <= i < |tr| && tr[i].Waited? :: Elements(tr[i].ids) <= l.waited)
  {
    if tr != [] {
      var head := tr[..|tr| - 1];
      TallyMeans(head, c);
      assert forall i | 0 <= i < |head| :: head[i] == tr[i];
      var n := |head|;
      assert ResumeIndices(tr) == ResumeIndices(head) + (if tr[n].Resumed? then {n} else {});
    }
  }

  /** The laws of a coordinator's calls, stated over the calls themselves. */
  predicate CallsLawful(tr: seq<BackendCall>, c: Configuration) {
    && (forall i | 0 <= i < |tr| && tr[i].Parked? :: tr[i].thread != c.currentThreadId && tr[i].epoch == c.epoch)
    && (forall i, j | 0 <= i < j < |tr| && tr[i].Parked? && tr[j].Parked? :: tr[i].thread != tr[j].thread)
    && (forall i, j | 0 <= i < j < |tr| && tr[i].Resumed? :: !tr[j].Parked?)
    && (forall i, j | 0 <= i < j < |tr| && tr[i].Resumed? && tr[j].Resumed? :: !tr[i].ok)
    && (forall i, j | 0 <= i < j < |tr| && tr[i].Waited? && tr[j].Waited? ::
          Elements(tr[i].ids) < Elements(tr[j].ids))
  }

  /** The laws of a whole lifetime: also, every park is undone and resume is called at most twice. */
  predicate LifetimeLawful(tr: seq<BackendCall>, c: Configuration) {
    CallsLawful(tr, c) && EveryParkResumed(tr) && |ResumeIndices(tr)| <= 2
  }

  /** Every park request is followed by a resume. */
  predicate EveryParkResumed(tr: seq<BackendCall>) {
    forall i | 0 <= i < |tr| && tr[i].Parked? :: exists j | i < j < |tr| :: tr[j].Resumed?
  }

  lemma {:induction false} LawfulCalls(tr: seq<BackendCall>, c: Configuration)
    requires Tally(tr, c).lawful
    ensures CallsLawful(tr, c)
  {
    if tr != [] {
      var head := tr[..|tr| - 1];
      LawfulCalls(head, c);
      TallyMeans(head, c);
      assert forall i | 0 <= i < |head| :: head[i] == tr[i];
    }
  }

  lemma ResumedAfterParks(tr: seq<BackendCall>, c: Configuration)
    requires Tally(tr, c).lawful && (Tally(tr, c).parks == {} || Tally(tr, c).resumes > 0)
    ensures EveryParkResumed(tr)
  {
    LawfulCalls(tr, c);
    TallyMeans(tr, c);
    forall i | 0 <= i < |tr| && tr[i].Parked? ensures exists j | i < j < |tr| :: tr[j].Resumed? {
      assert tr[i].thread in Tally(tr, c).parks;
      var j :| 0 <= j < |tr| && tr[j].Resumed?;
      assert j != i && !(j < i);
    }
  }

  // ---------------------------------------------------------------------------
  // Inventory checks
  // ---------------------------------------------------------------------------

  predicate AdjacentEqual(s: seq<int>) {
    exists i | 0 <= i < |s| - 1 :: s[i] == s[i + 1]
  }

  lemma NoAdjacentEqual(s: seq<int>)
    requires Sorted(s)
    ensures !AdjacentEqual(s) <==> StrictlySorted(s)
  {
    if !AdjacentEqual(s) {
      forall i, j | 0 <= i < j < |s| ensures s[i] < s[j] {
        assert s[j - 1] != s[(j - 1) + 1];
      }
    }
  }

  /**
   Sorts the inventory and accepts it exactly when it is non-empty, fits the buffer,
   has only positive, distinct IDs and contains the caller.
   */
  method ValidInventory(buffer: seq<int>, count: nat, current: int) returns (ok: bool, sorted: seq<int>)
    ensures |sorted| == |buffer|
    ensures ok <==>
              && 0 < count <= |buffer|
              && NoDuplicates(buffer[..count])
              && (forall x | x in buffer[..count] :: x > 0)
              && current in buffer[..count]
    ensures ok ==> StrictlySorted(sorted[..count]) && Elements(sorted[..count]) == Elements(buffer[..count])
  {
    sorted := buffer;
    if count == 0 || count > |buffer| {
      return false, sorted;
    }
    var prefix := SortIds(buffer[..count]);
    sorted := prefix + buffer[count..];
    assert sorted[..count] == prefix;
    DistinctIsPermutationInvariant(buffer[..count], prefix);
    NoAdjacentEqual(prefix);
    StrictIsDistinct(prefix);
    assert forall x :: x in prefix <==> x in Elements(prefix);
    assert forall x :: x in buffer[..count] <==> x in Elements(buffer[..count]);
    assert prefix[0] in prefix;
    if prefix[0] <= 0 || AdjacentEqual(prefix) || exists x | x in prefix :: x <= 0 {
      return false, sorted;
    }
    ok := BinarySearch(prefix, current);
  }

  lemma StrictIsDistinct(s: seq<int>)
    requires Sorted(s)
    ensures StrictlySorted(s) <==> NoDuplicates(s)
  {
  }

  lemma {:induction false} DistinctMultiset(s: seq<int>)
    ensures NoDuplicates(s) <==> forall x | x in s :: multiset(s)[x] == 1
  {
    if s != [] {
      var n := |s| - 1;
      var head := s[..n];
      assert s == head + [s[n]];
      DistinctMultiset(head);
      assert NoDuplicates(s) <==> NoDuplicates(head) && s[n] !in head;
      assert s[n] in head <==> s[n] in multiset(head);
      forall x | x in s ensures multiset(s)[x] == multiset(head)[x] + (if x == s[n] then 1 else 0) {}
      if forall x | x in s :: multiset(s)[x] == 1 {
        assert multiset(s)[s[n]] == 1;
        forall x | x in head ensures multiset(head)[x] == 1 {
          assert x in s && multiset(s)[x] == 1;
          assert x in multiset(head);
        }
      }
    }
  }

  lemma DistinctIsPermutationInvariant(a: seq<int>, b: seq<int>)
    requires multiset(a) == multiset(b)
    ensures NoDuplicates(a) <==> NoDuplicates(b)
  {
    DistinctMultiset(a);
    DistinctMultiset(b);
    assert forall x :: x in a <==> x in multiset(a);
    assert forall x :: x in b <==> x in multiset(b);
  }

  /** Every requested thread is still listed. */
  method FinalInventoryContainsEveryRequested(final: seq<int>, requested: seq<int>) returns (all: bool)
    requires StrictlySorted(final)
    ensures all <==> Elements(requested) <= Elements(final)
  {
    var index := 0;
    while index < |requested|
      invariant 0 <= index <= |requested|
      invariant forall i | 0 <= i < index :: requested[i] in final
    {
      if !BinarySearch(final, requested[index]) {
        assert requested[index] in Elements(requested) && requested[index] !in Elements(final);
        return false;
      }
      index := index + 1;
    }
    all := true;
  }

  function Without(s: seq<int>, x: int): seq<int> {
    if s == [] then []
    else Without(s[..|s| - 1], x) + (if s[|s| - 1] == x then [] else [s[|s| - 1]])
  }

  lemma {:induction false} WithoutSorted(s: seq<int>, x: int)
    requires StrictlySorted(s)
    ensures StrictlySorted(Without(s, x)) && Elements(Without(s, x)) == Elements(s) - {x}
  {
    if s != [] {
      var n := |s| - 1;
      WithoutSorted(s[..n], x);
      assert Elements(s) == Elements(s[..n]) + {s[n]};
      forall y | y in Without(s[..n], x) ensures y < s[n] {
        assert y in Elements(Without(s[..n], x));
        assert y in Elements(s[..n]);
      }
      var tail := if s[n] == x then [] else [s[n]];
      var head := Without(s[..n], x);
      assert Without(s, x) == head + tail;
      assert forall i | 0 <= i < |head| :: (head + tail)[i] == head[i] && head[i] in head;
      assert Elements(Without(s, x)) == Elements(head) + Elements(tail);
    }
  }

  /** Walks both sorted lists in step, skipping the caller. */
  method MatchesInOrder(final: seq<int>, requested: seq<int>, current: int) returns (matches: bool)
    ensures matches <==> |final| == |requested| + 1 && Without(final, current) == requested
  {
    if |final| != |requested| + 1 {
      return false;
    }
    var requestedIndex := 0;
    var index := 0;
    while index < |final|
      invariant 0 <= index <= |final| && 0 <= requestedIndex <= |requested|
      invariant Without(final[..index], current) == requested[..requestedIndex]
    {
      assert final[..index + 1][..index] == final[..index];
      var threadId := final[index];
      if threadId != current {
        if requestedIndex >= |requested| || requested[requestedIndex] != threadId {
          WithoutPrefix(final, index + 1, current);
          assert Without(final, current)[requestedIndex] == threadId;
          return false;
        }
        requestedIndex := requestedIndex + 1;
      }
      index := index + 1;
    }
    assert final[..index] == final;
    matches := requestedIndex == |requested|;
  }

  /**
   The final inventory is exact precisely when, as sets, it is the requested threads
   plus the caller, and the caller was not requested.
   */
  method FinalInventoryIsExact(final: seq<int>, requested: seq<int>, current: int) returns (exact: bool)
    requires StrictlySorted(final) && StrictlySorted(requested)
    ensures exact <==> current !in requested && Elements(final) == Elements(requested) + {current}
  {
    ExactShape(final, requested, current);
    exact := MatchesInOrder(final, requested, current);
  }

  /** Set equality of sorted inventories, as one comparison of sequences. */
  lemma ExactShape(final: seq<int>, requested: seq<int>, current: int)
    requires StrictlySorted(final) && StrictlySorted(requested)
    ensures (current !in requested && Elements(final) == Elements(requested) + {current}) <==>
            (|final| == |requested| + 1 && Without(final, current) == requested)
  {
    WithoutSorted(final, current);
    DistinctSize(final);
    DistinctSize(requested);
    var rest := Without(final, current);
    DistinctSize(rest);
    if current !in requested && Elements(final) == Elements(requested) + {current} {
      assert current !in Elements(requested);
      assert Elements(rest) == Elements(requested);
      SameElements(rest, requested);
    }
    if |final| == |requested| + 1 && rest == requested {
      assert current !in Elements(rest);
      assert current in Elements(final);
    }
  }

  lemma {:induction false} WithoutPrefix(s: seq<int>, k: nat, x: int)
    requires k <= |s|
    ensures |Without(s[..k], x)| <= |Without(s, x)|
    ensures Without(s, x)[..|Without(s[..k], x)|] == Without(s[..k], x)
  {
    if k < |s| {
      WithoutPrefix(s[..|s| - 1], k, x);
      assert s[..|s| - 1][..k] == s[..k];
    } else {
      assert s[..k] == s;
    }
  }
}
