/**
 Android14ProtocolEvidence: four monotone masks that any number of threads record into,
 and a snapshot that loads them one after the other. Masks are sets of role bits; every
 atomic operation is one step, taken as sequentially consistent.
 */
module ProtocolEvidence {

  /** Bits of the reviewed roles; the other two are optional evidence. */
  const ROLES: set<nat> := {0, 1, 2, 3, 4, 5, 6, 7, 8, 9, 10, 11}
  const REQUIRED: set<nat> := {0, 1, 2, 3, 5, 6, 8, 9, 10, 11}

  /** What an observation says about its payload. */
  datatype Finding = Valid | Unsupported | Invalid | NotRouted

  /** `role` is a bit, or none for a role outside the template. */
  datatype Observation = Observation(role: nat, finding: Finding)

  datatype Masks = Masks(seen: set<nat>, valid: set<nat>, invalid: set<nat>, unsupported: set<nat>)

  const EMPTY := Masks({}, {}, {}, {})

  datatype Verdict = Pending | Rejected | ProbeCompatible

  function VerdictOf(valid: set<nat>, invalid: set<nat>, unsupported: set<nat>): Verdict {
    if invalid * REQUIRED != {} || unsupported * REQUIRED != {} then Rejected
    else if REQUIRED <= valid then ProbeCompatible
    else Pending
  }

  /** The verdict of the masks at one instant. */
  function VerdictAt(m: Masks): Verdict {
    VerdictOf(m.valid, m.invalid, m.unsupported)
  }

  datatype Snapshot = Snapshot(
    seen: set<nat>, valid: set<nat>, invalid: set<nat>, unsupported: set<nat>, verdict: Verdict)

  // ---------------------------------------------------------------------------
  // The steps
  // ---------------------------------------------------------------------------

  /** The first fetch_or of a record. */
  function See(m: Masks, o: Observation): Masks {
    m.(seen := m.seen + {o.role})
  }

  /** The second fetch_or, if the finding has one. */
  function Classify(m: Masks, o: Observation): Masks {
    match o.finding
    case Valid => m.(valid := m.valid + {o.role})
    case Unsupported => m.(unsupported := m.unsupported + {o.role})
    case Invalid => m.(invalid := m.invalid + {o.role})
    case NotRouted => m
  }

  /** How far a snapshot has come. */
  datatype Reader =
    | Idle
    | HasSeen(seen: set<nat>)
    | HasValid(seen: set<nat>, valid: set<nat>)
    | HasInvalid(seen: set<nat>, valid: set<nat>, invalid: set<nat>)
    | Reported(snapshot: Snapshot)

  /** `halfway`: recorders between their two steps. `begun`, `ended` are auxiliary. */
  datatype System = System(
    masks: Masks,
    halfway: map<int, Observation>,
    reader: Reader,
    begun: set<Observation>,
    ended: set<Observation>)

  datatype Event =
    | Begin(thread: int, observation: Observation)
    | End(thread: int)
    | Load

  function LoadNext(m: Masks, r: Reader): Reader {
    match r
    case Idle => HasSeen(m.seen)
    case HasSeen(seen) => HasValid(seen, m.valid)
    case HasValid(seen, valid) => HasInvalid(seen, valid, m.invalid)
    case HasInvalid(seen, valid, invalid) =>
      Reported(Snapshot(seen, valid, invalid, m.unsupported, VerdictOf(valid, invalid, m.unsupported)))
    case Reported(_) => r
  }

  /** One step; an observation of an unknown role does nothing. */
  function Apply(s: System, ev: Event): System {
    match ev
    case Begin(t, o) =>
      if t in s.halfway || o.role !in ROLES then s
      else s.(masks := See(s.masks, o), halfway := s.halfway[t := o], begun := s.begun + {o})
    case End(t) =>
      if t !in s.halfway then s
      else s.(masks := Classify(s.masks, s.halfway[t]), halfway := s.halfway - {t}, ended := s.ended + {s.halfway[t]})
    case Load => s.(reader := LoadNext(s.masks, s.reader))
  }

  function Run(s: System, evs: seq<Event>): System
    decreases |evs|
  {
    if evs == [] then s else Run(Apply(s, evs[0]), evs[1..])
  }

  // ---------------------------------------------------------------------------
  // Masks only grow
  // ---------------------------------------------------------------------------

  predicate Within(m: Masks, n: Masks) {
    m.seen <= n.seen && m.valid <= n.valid && m.invalid <= n.invalid && m.unsupported <= n.unsupported
  }

  lemma {:induction false} MasksGrow(s: System, evs: seq<Event>)
    ensures Within(s.masks, Run(s, evs).masks)
    decreases |evs|
  {
    if evs != [] {
      MasksGrow(Apply(s, evs[0]), evs[1..]);
    }
  }

  lemma {:induction false} RunConcat(s: System, a: seq<Event>, b: seq<Event>)
    ensures Run(s, a + b) == Run(Run(s, a), b)
    decreases |a|
  {
    if a == [] {
      assert a + b == b;
    } else {
      assert (a + b)[1..] == a[1..] + b;
      RunConcat(Apply(s, a[0]), a[1..], b);
    }
  }

  /** The next load of the reader, found in the run. */
  lemma {:induction false} NextLoad(s: System, evs: seq<Event>) returns (k: nat)
    requires Run(s, evs).reader != s.reader
    ensures k < |evs| && evs[k] == Load && Run(s, evs[..k]).reader == s.reader
    ensures Run(s, evs[..k + 1]).reader == LoadNext(Run(s, evs[..k]).masks, s.reader)
    ensures Run(s, evs[..k + 1]).masks == Run(s, evs[..k]).masks
    decreases |evs|
  {
    var s' := Apply(s, evs[0]);
    if evs[0] == Load {
      k := 0;
      assert evs[..1][1..] == [];
    } else {
      var j := NextLoad(s', evs[1..]);
      k := j + 1;
      assert evs[..k][1..] == evs[1..][..j];
      assert evs[..k + 1][1..] == evs[1..][..j + 1];
    }
  }

  lemma Continue(s: System, evs: seq<Event>, k: nat, j: nat)
    requires k <= |evs| && j <= |evs[k..]|
    ensures Run(Run(s, evs[..k]), evs[k..][..j]) == Run(s, evs[..k + j])
    ensures Run(Run(s, evs[..k]), evs[k..]) == Run(s, evs)
  {
    RunConcat(s, evs[..k], evs[k..][..j]);
    assert evs[..k] + evs[k..][..j] == evs[..k + j];
    RunConcat(s, evs[..k], evs[k..]);
    assert evs[..k] + evs[k..] == evs;
  }

  /** The system after the first `k` steps. */
  function At(s: System, evs: seq<Event>, k: nat): System
    requires k <= |evs|
  {
    Run(s, evs[..k])
  }

  /** The next load at or behind `from`. */
  lemma LoadFrom(s: System, evs: seq<Event>, from: nat) returns (k: nat)
    requires from <= |evs| && Run(s, evs).reader != At(s, evs, from).reader
    ensures from <= k < |evs| && evs[k] == Load && At(s, evs, k).reader == At(s, evs, from).reader
    ensures At(s, evs, k + 1).reader == LoadNext(At(s, evs, k).masks, At(s, evs, from).reader)
  {
    var here, rest := At(s, evs, from), evs[from..];
    Continue(s, evs, from, 0);
    var j := NextLoad(here, rest);
    k := from + j;
    Continue(s, evs, from, j);
    Continue(s, evs, from, j + 1);
  }

  lemma GrowsBetween(s: System, evs: seq<Event>, i: nat, j: nat)
    requires i <= j <= |evs|
    ensures Within(At(s, evs, i).masks, At(s, evs, j).masks)
  {
    Continue(s, evs, i, j - i);
    MasksGrow(At(s, evs, i), evs[i..][..j - i]);
  }

  /** Masks loaded at three instants of growth give the verdict of one of them. */
  lemma TornVerdict(m2: Masks, m3: Masks, m4: Masks)
    requires Within(m2, m3) && Within(m3, m4)
    ensures var v := VerdictOf(m2.valid, m3.invalid, m4.unsupported);
            v == VerdictAt(match v case Pending => m2 case ProbeCompatible => m3 case Rejected => m4)
  {
    assert m3.invalid * REQUIRED <= m4.invalid * REQUIRED;
    assert m2.invalid * REQUIRED <= m3.invalid * REQUIRED;
    assert m2.unsupported * REQUIRED <= m3.unsupported * REQUIRED <= m4.unsupported * REQUIRED;
  }

  /** The four masks in the order of their loads. */
  function Part(m: Masks, a: nat): set<nat>
    requires a < 4
  {
    if a == 0 then m.seen else if a == 1 then m.valid else if a == 2 then m.invalid else m.unsupported
  }

  function MasksOf(r: Snapshot): Masks {
    Masks(r.seen, r.valid, r.invalid, r.unsupported)
  }

  /** The events that load the four masks. */
  predicate AreLoads(s: System, evs: seq<Event>, loads: seq<nat>) {
    && |loads| == 4 && loads[0] < loads[1] < loads[2] < loads[3] < |evs|
    && (forall a | 0 <= a < 4 :: evs[loads[a]] == Load)
    && At(s, evs, loads[0]).reader.Idle? && At(s, evs, loads[1]).reader.HasSeen?
    && At(s, evs, loads[2]).reader.HasValid? && At(s, evs, loads[3]).reader.HasInvalid?
  }

  /** The instants of the four loads, and what they loaded. */
  lemma LoadTimes(s: System, evs: seq<Event>) returns (loads: seq<nat>)
    requires s.reader == Idle && Run(s, evs).reader.Reported?
    ensures AreLoads(s, evs, loads)
    ensures var r := Run(s, evs).reader.snapshot;
            && r.seen == At(s, evs, loads[0]).masks.seen && r.valid == At(s, evs, loads[1]).masks.valid
            && r.invalid == At(s, evs, loads[2]).masks.invalid
            && r.unsupported == At(s, evs, loads[3]).masks.unsupported
            && r.verdict == VerdictOf(r.valid, r.invalid, r.unsupported)
  {
    assert At(s, evs, 0) == s && evs[..|evs|] == evs;
    var k1 := LoadFrom(s, evs, 0);
    var k2 := LoadFrom(s, evs, k1 + 1);
    var k3 := LoadFrom(s, evs, k2 + 1);
    var k4 := LoadFrom(s, evs, k3 + 1);
    ReportStays(s, evs, k4 + 1);
    loads := [k1, k2, k3, k4];
  }

  /**
   Main result: whatever recorders do in between, the verdict a snapshot reports is the
   verdict the masks had at some instant while the snapshot was being taken.
   */
  lemma VerdictIsReal(s: System, evs: seq<Event>) returns (k: nat)
    requires s.reader == Idle && Run(s, evs).reader.Reported?
    ensures k <= |evs| && !At(s, evs, k).reader.Idle? && !At(s, evs, k).reader.Reported?
    ensures VerdictAt(At(s, evs, k).masks) == Run(s, evs).reader.snapshot.verdict
  {
    var loads := LoadTimes(s, evs);
    var k2, k3, k4 := loads[1], loads[2], loads[3];
    GrowsBetween(s, evs, k2, k3);
    GrowsBetween(s, evs, k3, k4);
    TornVerdict(At(s, evs, k2).masks, At(s, evs, k3).masks, At(s, evs, k4).masks);
    k := match Run(s, evs).reader.snapshot.verdict case Pending => k2 case ProbeCompatible => k3 case Rejected => k4;
  }

  lemma ReportStays(s: System, evs: seq<Event>, k: nat)
    requires k <= |evs| && At(s, evs, k).reader.Reported?
    ensures Run(s, evs).reader == At(s, evs, k).reader
  {
    ReportStaysOnce(At(s, evs, k), evs[k..]);
    Continue(s, evs, k, 0);
  }

  lemma {:induction false} ReportStaysOnce(s: System, evs: seq<Event>)
    requires s.reader.Reported?
    ensures Run(s, evs).reader == s.reader
    decreases |evs|
  {
    if evs != [] {
      ReportStaysOnce(Apply(s, evs[0]), evs[1..]);
    }
  }

  // ---------------------------------------------------------------------------
  // At rest the order and repetition of observations do not matter
  // ---------------------------------------------------------------------------

  function RolesOf(os: set<Observation>, f: Finding): set<nat> {
    set o | o in os && o.finding == f :: o.role
  }

  ghost predicate Underway(halfway: map<int, Observation>, o: Observation) {
    exists t | t in halfway :: halfway[t] == o
  }

  /** The masks in terms of which observations have begun and ended. */
  ghost predicate Accounted(s: System) {
    && s.masks == Masks(set o | o in s.begun :: o.role, RolesOf(s.ended, Valid), RolesOf(s.ended, Invalid),
                        RolesOf(s.ended, Unsupported))
    && s.ended <= s.begun && (forall t | t in s.halfway :: s.halfway[t] in s.begun)
    && (forall o | o in s.begun :: o in s.ended || Underway(s.halfway, o))
  }

  lemma RolesOfMore(os: set<Observation>, o: Observation, f: Finding)
    ensures RolesOf(os + {o}, f) == RolesOf(os, f) + if o.finding == f then {o.role} else {}
  {
  }

  lemma EndKeepsAccount(s: System, t: int)
    requires Accounted(s) && t in s.halfway
    ensures Accounted(Apply(s, End(t)))
  {
    var o, s' := s.halfway[t], Apply(s, End(t));
    RolesOfMore(s.ended, o, Valid);
    RolesOfMore(s.ended, o, Invalid);
    RolesOfMore(s.ended, o, Unsupported);
    forall x | x in s'.begun ensures x in s'.ended || Underway(s'.halfway, x) {
      if x !in s'.ended {
        assert Underway(s.halfway, x);
        var u :| u in s.halfway && s.halfway[u] == x;
        assert s'.halfway[u] == x;
      }
    }
  }

  lemma BeginKeepsAccount(s: System, t: int, o: Observation)
    requires Accounted(s) && t !in s.halfway && o.role in ROLES
    ensures Accounted(Apply(s, Begin(t, o)))
  {
    var s' := Apply(s, Begin(t, o));
    assert s'.halfway[t] == o;
    forall x | x in s'.begun ensures x in s'.ended || Underway(s'.halfway, x) {
      if x != o && x !in s.ended {
        assert Underway(s.halfway, x);
        var u :| u in s.halfway && s.halfway[u] == x;
        assert s'.halfway[u] == x;
      }
    }
  }

  lemma {:induction false} RunKeepsAccount(s: System, evs: seq<Event>)
    requires Accounted(s)
    ensures Accounted(Run(s, evs))
    decreases |evs|
  {
    if evs != [] {
      match evs[0] {
        case Begin(t, o) => if t !in s.halfway && o.role in ROLES { BeginKeepsAccount(s, t, o); }
        case End(t) => if t in s.halfway { EndKeepsAccount(s, t); }
        case Load =>
      }
      RunKeepsAccount(Apply(s, evs[0]), evs[1..]);
    }
  }

  const START := System(EMPTY, map[], Idle, {}, {})

  /**
   Two runs that recorded the same observations, in whatever order, interleaving and
   number, end at rest with the same masks, and so with the same verdict.
   */
  lemma OrderDoesNotMatter(evs: seq<Event>, other: seq<Event>)
    requires Run(START, evs).halfway == map[] && Run(START, other).halfway == map[]
    requires Run(START, evs).begun == Run(START, other).begun
    ensures Run(START, evs).masks == Run(START, other).masks
  {
    assert Accounted(START);
    RunKeepsAccount(START, evs);
    RunKeepsAccount(START, other);
    AtRest(Run(START, evs));
    AtRest(Run(START, other));
  }

  lemma AtRest(s: System)
    requires Accounted(s) && s.halfway == map[]
    ensures s.ended == s.begun
  {
  }

  // A snapshot whose masks are those of no instant: the verdict is real, the masks need not be.

  /** At every instant, what is classified has been seen. */
  lemma ClassifiedIsSeen(evs: seq<Event>)
    ensures var m := Run(START, evs).masks; m.valid + m.invalid + m.unsupported <= m.seen
  {
    assert Accounted(START);
    RunKeepsAccount(START, evs);
  }

  lemma TornMasks()
    ensures var o := Observation(0, Valid);
            var r := Run(START, [Load, Begin(1, o), End(1), Load, Load, Load]).reader;
            r.Reported? && r.snapshot.seen == {} && r.snapshot.valid == {0}
  {
    var o := Observation(0, Valid);
    var s1 := START.(reader := HasSeen({}));
    var s2 := s1.(masks := Masks({0}, {}, {}, {}), halfway := map[1 := o], begun := {o});
    var s3 := s2.(masks := Masks({0}, {0}, {}, {}), halfway := map[], ended := {o});
    var s4 := s3.(reader := HasValid({}, {0}));
    var s5 := s4.(reader := HasInvalid({}, {0}, {}));
    assert Apply(START, Load) == s1 && Apply(s1, Begin(1, o)) == s2 && Apply(s2, End(1)) == s3;
    assert Apply(s3, Load) == s4 && Apply(s4, Load) == s5;
    assert Apply(s5, Load).reader.snapshot.valid == {0};
    var evs := [Load, Begin(1, o), End(1), Load, Load, Load];
    assert evs[1..] == [Begin(1, o), End(1), Load, Load, Load];
    assert Run(START, evs) == Run(s1, [Begin(1, o), End(1), Load, Load, Load]);
    assert [Begin(1, o), End(1), Load, Load, Load][1..] == [End(1), Load, Load, Load];
    assert [End(1), Load, Load, Load][1..] == [Load, Load, Load] && [Load, Load, Load][1..] == [Load, Load];
    assert Run(START, evs) == Run(s3, [Load, Load, Load]) == Run(s4, [Load, Load]);
    assert [Load, Load][1..] == [Load] && [Load][1..] == [];
    assert Run(s4, [Load, Load]) == Run(s5, [Load]) == Apply(s5, Load);
  }

  // When the masks of a snapshot are those of an instant.

  lemma AtNext(s: System, evs: seq<Event>, k: nat)
    requires k < |evs|
    ensures At(s, evs, k + 1) == Apply(At(s, evs, k), evs[k])
  {
    Continue(s, evs, k, 1);
    assert evs[k..][..1] == [evs[k]] && [evs[k]][1..] == [];
  }

  /** Step `i` sets a bit of mask `a`. */
  predicate Gains(s: System, evs: seq<Event>, i: nat, a: nat)
    requires i < |evs| && a < 4
  {
    Part(At(s, evs, i).masks, a) != Part(At(s, evs, i + 1).masks, a)
  }

  /** A step sets a bit of one mask at most, and a load of none. */
  lemma OneMaskAtATime(s: System, evs: seq<Event>, i: nat, a: nat, b: nat)
    requires i < |evs| && a < 4 && b < 4 && Gains(s, evs, i, a)
    ensures evs[i] != Load && (Gains(s, evs, i, b) ==> a == b)
  {
    AtNext(s, evs, i);
  }

  lemma PartGrows(s: System, evs: seq<Event>, i: nat, j: nat, a: nat)
    requires i <= j <= |evs| && a < 4
    ensures Part(At(s, evs, i).masks, a) <= Part(At(s, evs, j).masks, a)
  {
    GrowsBetween(s, evs, i, j);
  }

  lemma {:induction false} NothingGained(s: System, evs: seq<Event>, i: nat, j: nat, a: nat)
    requires i <= j <= |evs| && a < 4 && forall k: nat | i <= k < j :: !Gains(s, evs, k, a)
    ensures Part(At(s, evs, i).masks, a) == Part(At(s, evs, j).masks, a)
    decreases j - i
  {
    if i < j {
      NothingGained(s, evs, i, j - 1, a);
      assert !Gains(s, evs, j - 1, a);
    }
  }

  /** Step `i` sets a bit of a mask that has been loaded already. */
  ghost predicate GainsLate(s: System, evs: seq<Event>, loads: seq<nat>, i: nat)
    requires |loads| == 4 && i < |evs|
  {
    exists a: nat :: a < 4 && loads[a] < i && Gains(s, evs, i, a)
  }

  /** Step `j` sets a bit of a mask that is yet to be loaded. */
  ghost predicate GainsEarly(s: System, evs: seq<Event>, loads: seq<nat>, j: nat)
    requires |loads| == 4 && j < |evs|
  {
    exists b: nat :: b < 4 && j < loads[b] && Gains(s, evs, j, b)
  }

  /** A mask gains a bit after its own load and, later, another gains one before its own load. */
  ghost predicate Torn(s: System, evs: seq<Event>, loads: seq<nat>)
    requires |loads| == 4
  {
    exists i: nat, j: nat :: i < j < |evs| && GainsLate(s, evs, loads, i) && GainsEarly(s, evs, loads, j)
  }

  /** `m` is what the four loads give. */
  predicate LoadedMasks(s: System, evs: seq<Event>, loads: seq<nat>, m: Masks)
    requires |loads| == 4 && forall a | 0 <= a < 4 :: loads[a] < |evs|
  {
    forall a: nat | a < 4 :: Part(m, a) == Part(At(s, evs, loads[a]).masks, a)
  }

  /** An instant with these masks lies before every late bit and behind every early one. */
  lemma InstantIsNotTorn(s: System, evs: seq<Event>, loads: seq<nat>, m: Masks, k: nat, i: nat, j: nat)
    requires AreLoads(s, evs, loads) && LoadedMasks(s, evs, loads, m) && k <= |evs| && At(s, evs, k).masks == m
    requires i < |evs| && j < |evs| && GainsLate(s, evs, loads, i) && GainsEarly(s, evs, loads, j)
    ensures j < k <= i
  {
    var a: nat :| a < 4 && loads[a] < i && Gains(s, evs, i, a);
    var b: nat :| b < 4 && j < loads[b] && Gains(s, evs, j, b);
    PartGrows(s, evs, loads[a], i, a);
    PartGrows(s, evs, i, i + 1, a);
    PartGrows(s, evs, j, j + 1, b);
    PartGrows(s, evs, j + 1, loads[b], b);
    if k > i {
      PartGrows(s, evs, i + 1, k, a);
    }
    if k <= j {
      PartGrows(s, evs, k, j, b);
    }
  }

  /** The first late bit, if there is one. */
  lemma FirstLate(s: System, evs: seq<Event>, loads: seq<nat>, n: nat) returns (i: nat)
    requires |loads| == 4 && n <= |evs|
    ensures i <= n && forall k: nat | k < i :: !GainsLate(s, evs, loads, k)
    ensures i < n ==> GainsLate(s, evs, loads, i)
  {
    i := 0;
    while i < n && !GainsLate(s, evs, loads, i)
      invariant i <= n && forall k: nat | k < i :: !GainsLate(s, evs, loads, k)
    {
      i := i + 1;
    }
  }

  /** Right before the first late bit, or at the end, each mask is as it was loaded. */
  lemma AsLoaded(s: System, evs: seq<Event>, loads: seq<nat>, i: nat, b: nat)
    requires AreLoads(s, evs, loads) && !Torn(s, evs, loads) && i <= |evs| && b < 4
    requires forall k: nat | k < i :: !GainsLate(s, evs, loads, k)
    requires i < |evs| ==> GainsLate(s, evs, loads, i)
    ensures Part(At(s, evs, i).masks, b) == Part(At(s, evs, loads[b]).masks, b)
  {
    if loads[b] < i {
      forall k: nat | loads[b] <= k < i ensures !Gains(s, evs, k, b) {
        if Gains(s, evs, k, b) {
          OneMaskAtATime(s, evs, k, b, b);
          assert GainsLate(s, evs, loads, k);
        }
      }
      NothingGained(s, evs, loads[b], i, b);
    } else {
      var a: nat :| a < 4 && loads[a] < i && Gains(s, evs, i, a);
      forall k: nat | i <= k < loads[b] ensures !Gains(s, evs, k, b) {
        if Gains(s, evs, k, b) {
          if k == i {
            OneMaskAtATime(s, evs, i, a, b);
          }
          assert GainsEarly(s, evs, loads, k);
        }
      }
      NothingGained(s, evs, i, loads[b], b);
    }
  }

  /**
   The four masks of a snapshot are those of one instant exactly when it is not torn: no
   mask gains a bit after its own load before another gains one ahead of its own.
   */
  lemma SnapshotOfAnInstant(s: System, evs: seq<Event>) returns (loads: seq<nat>)
    requires s.reader == Idle && Run(s, evs).reader.Reported?
    ensures AreLoads(s, evs, loads)
    ensures var m := MasksOf(Run(s, evs).reader.snapshot);
            (exists k :: 0 <= k <= |evs| && At(s, evs, k).masks == m) <==> !Torn(s, evs, loads)
  {
    var m := MasksOf(Run(s, evs).reader.snapshot);
    loads := LoadTimes(s, evs);
    assert LoadedMasks(s, evs, loads, m);
    if k :| 0 <= k <= |evs| && At(s, evs, k).masks == m {
      forall i: nat, j: nat | i < j < |evs| && GainsLate(s, evs, loads, i) && GainsEarly(s, evs, loads, j)
        ensures false
      {
        InstantIsNotTorn(s, evs, loads, m, k, i, j);
      }
    }
    if !Torn(s, evs, loads) {
      var i := FirstLate(s, evs, loads, |evs|);
      forall b: nat | b < 4 ensures Part(At(s, evs, i).masks, b) == Part(m, b) {
        AsLoaded(s, evs, loads, i, b);
      }
      SameParts(At(s, evs, i).masks, m);
    }
  }

  lemma SameParts(m: Masks, n: Masks)
    requires forall b: nat | b < 4 :: Part(m, b) == Part(n, b)
    ensures m == n
  {
    assert Part(m, 0) == Part(n, 0) && Part(m, 1) == Part(n, 1) && Part(m, 2) == Part(n, 2) && Part(m, 3) == Part(n, 3);
  }

  /** In particular, when no bit is set between the first load and the last. */
  lemma QuietSnapshot(s: System, evs: seq<Event>) returns (loads: seq<nat>)
    requires s.reader == Idle && Run(s, evs).reader.Reported?
    ensures AreLoads(s, evs, loads)
    ensures At(s, evs, loads[0]).masks == At(s, evs, loads[3]).masks ==>
              MasksOf(Run(s, evs).reader.snapshot) == At(s, evs, loads[0]).masks
  {
    loads := LoadTimes(s, evs);
    GrowsBetween(s, evs, loads[0], loads[1]);
    GrowsBetween(s, evs, loads[1], loads[2]);
    GrowsBetween(s, evs, loads[2], loads[3]);
  }

  /** A role classified but not seen, as in `TornMasks`, is in the masks of no instant. */
  lemma SnapshotOfNoInstant(evs: seq<Event>) returns (loads: seq<nat>)
    requires Run(START, evs).reader.Reported?
    requires var r := Run(START, evs).reader.snapshot; !(r.valid + r.invalid + r.unsupported <= r.seen)
    ensures AreLoads(START, evs, loads) && Torn(START, evs, loads)
  {
    forall k | 0 <= k <= |evs| ensures At(START, evs, k).masks != MasksOf(Run(START, evs).reader.snapshot) {
      ClassifiedIsSeen(evs[..k]);
    }
    loads := SnapshotOfAnInstant(START, evs);
  }
}
