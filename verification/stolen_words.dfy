/**
 The four stolen words on their own: where control can go among them, for every value of
 the condition flags, and whether it can leave them other than behind the last one.
 */
module StolenWords {
  import opened Bytes
  import opened Arm64

  type Block = words: seq<nat> | |words| == 4 witness [0, 0, 0, 0]

  /** About to run the word at this index with these flags. */
  datatype Place = Place(word: nat, flags: Flags)

  function Places(): set<Place> {
    set k: nat, f: Flags | 0 <= k < 4 && 0 <= f < 16 :: Place(k, f)
  }

  /** Entering at the first word, with any flags. */
  function Entry(): (r: set<Place>)
    ensures r <= Places()
  {
    set f: Flags | 0 <= f < 16 :: Place(0, f)
  }

  /** BTI and BC.cond change nothing but the program counter. */
  predicate IsFixed(w: nat) { w == BTI_CALL || IsConsistentBranch(w) }

  /** These and the words in `keeps` leave the flags alone. Any other accepted word may change them. */
  predicate KeepsFlags(keeps: nat -> bool, w: nat) { IsFixed(w) || keeps(w) }

  /** Byte offset of the next instruction from the start of the block. */
  function Landing(words: Block, p: Place): int
    requires p.word < 4
  {
    var w := words[p.word];
    4 * p.word + if IsConsistentBranch(w) && Taken(w, p.flags) then Displacement(w) else 4
  }

  predicate Follows(words: Block, keeps: nat -> bool, p: Place, q: Place)
    requires p.word < 4
  {
    && q.word < 4 && Landing(words, p) == 4 * q.word
    && (KeepsFlags(keeps, words[p.word]) ==> q.flags == p.flags)
  }

  function Next(words: Block, keeps: nat -> bool, s: set<Place>): set<Place> {
    set q | q in Places() && exists p :: p in s && p.word < 4 && Follows(words, keeps, p, q) :: q
  }

  /** Everything that can be reached from `s`, as a fixed point. */
  function Reachable(words: Block, keeps: nat -> bool, s: set<Place>): (r: set<Place>)
    requires s <= Places()
    ensures r <= Places()
    decreases Places() - s
  {
    if Next(words, keeps, s) <= s then s
    else
      assert Places() - (s + Next(words, keeps, s)) < Places() - s by {
        var q :| q in Next(words, keeps, s) && q !in s;
        assert q in Places() - s;
      }
      Reachable(words, keeps, s + Next(words, keeps, s))
  }

  /** A branch that can be reached and taken goes outside the block. */
  predicate CanEscape(words: Block, keeps: nat -> bool) {
    exists p :: p in Reachable(words, keeps, Entry()) && !(0 <= Landing(words, p) <= 16)
  }

  lemma {:induction false} ReachableIsClosed(words: Block, keeps: nat -> bool, s: set<Place>)
    requires s <= Places()
    ensures s <= Reachable(words, keeps, s)
    ensures Next(words, keeps, Reachable(words, keeps, s)) <= Reachable(words, keeps, s)
    decreases Places() - s
  {
    if !(Next(words, keeps, s) <= s) {
      Shrinks(words, keeps, s);
      ReachableIsClosed(words, keeps, s + Next(words, keeps, s));
    }
  }

  lemma Shrinks(words: Block, keeps: nat -> bool, s: set<Place>)
    requires !(Next(words, keeps, s) <= s)
    ensures Places() - (s + Next(words, keeps, s)) < Places() - s
  {
    var q :| q in Next(words, keeps, s) && q !in s;
    assert q in Places() - s;
  }

  lemma {:induction false} ReachableIsLeast(words: Block, keeps: nat -> bool, s: set<Place>, t: set<Place>)
    requires s <= t <= Places() && Next(words, keeps, t) <= t
    ensures Reachable(words, keeps, s) <= t
    decreases Places() - s
  {
    if !(Next(words, keeps, s) <= s) {
      Shrinks(words, keeps, s);
      assert Next(words, keeps, s) <= Next(words, keeps, t);
      ReachableIsLeast(words, keeps, s + Next(words, keeps, s), t);
    }
  }

  /** One step stays in the reachable places unless it leaves the block. */
  lemma ReachableStep(words: Block, keeps: nat -> bool, p: Place, q: Place)
    requires p in Reachable(words, keeps, Entry()) && Follows(words, keeps, p, q)
    ensures q in Reachable(words, keeps, Entry())
  {
    ReachableIsClosed(words, keeps, Entry());
    assert q in Places();
    assert q in Next(words, keeps, Reachable(words, keeps, Entry()));
  }

  lemma EntryIsReachable(words: Block, keeps: nat -> bool, f: Flags)
    ensures Place(0, f) in Reachable(words, keeps, Entry())
  {
    ReachableIsClosed(words, keeps, Entry());
    assert Place(0, f) in Entry();
  }

  // ---------------------------------------------------------------------------
  // Paths
  // ---------------------------------------------------------------------------

  predicate InWords(path: seq<Place>) {
    |path| > 0 && forall i | 0 <= i < |path| :: path[i].word < 4
  }

  predicate IsPath(words: Block, keeps: nat -> bool, path: seq<Place>) {
    InWords(path) && path[0].word == 0 && forall i | 0 < i < |path| :: Follows(words, keeps, path[i - 1], path[i])
  }

  ghost predicate HasPath(words: Block, keeps: nat -> bool, p: Place) {
    exists path :: IsPath(words, keeps, path) && path[|path| - 1] == p
  }

  lemma {:induction false} ReachableHasPath(words: Block, keeps: nat -> bool, s: set<Place>)
    requires s <= Places() && forall p | p in s :: HasPath(words, keeps, p)
    ensures forall p | p in Reachable(words, keeps, s) :: HasPath(words, keeps, p)
    decreases Places() - s
  {
    if !(Next(words, keeps, s) <= s) {
      Shrinks(words, keeps, s);
      forall q | q in Next(words, keeps, s) ensures HasPath(words, keeps, q) {
        var p :| p in s && p.word < 4 && Follows(words, keeps, p, q);
        var path :| IsPath(words, keeps, path) && path[|path| - 1] == p;
        assert IsPath(words, keeps, path + [q]) && (path + [q])[|path|] == q;
      }
      ReachableHasPath(words, keeps, s + Next(words, keeps, s));
    }
  }

  /** Every reachable place is at the end of a path from the entry. */
  lemma PathTo(words: Block, keeps: nat -> bool, p: Place) returns (path: seq<Place>)
    requires p in Reachable(words, keeps, Entry())
    ensures IsPath(words, keeps, path) && path[|path| - 1] == p
  {
    forall q | q in Entry() ensures HasPath(words, keeps, q) {
      assert IsPath(words, keeps, [q]) && [q][0] == q;
    }
    ReachableHasPath(words, keeps, Entry());
    path :| IsPath(words, keeps, path) && path[|path| - 1] == p;
  }

  // ---------------------------------------------------------------------------
  // What the condition means for single branches
  // ---------------------------------------------------------------------------

  /** Every BC.cond of the block goes to one of its words or to its end. */
  predicate BranchesInside(words: Block) {
    forall k | 0 <= k < 4 && IsConsistentBranch(words[k]) :: 0 <= 4 * k + Displacement(words[k]) <= 16
  }

  lemma InsideNeverEscapes(words: Block, keeps: nat -> bool)
    requires BranchesInside(words)
    ensures !CanEscape(words, keeps)
  {
  }

  /** Every condition holds for some flags. */
  lemma SomeFlags(w: nat) returns (f: Flags)
    ensures Taken(w, f)
  {
    var cond := Bits(w, 0, 4);
    f := if cond == 0 || cond == 13 then 4
         else if cond == 2 || cond == 8 then 2
         else if cond == 4 || cond == 11 then 8
         else if cond == 6 then 1 else 0;
  }

  /** Straight on through words that are not BC.cond. */
  lemma {:induction false} StraightTo(words: Block, keeps: nat -> bool, k: nat, f: Flags)
    requires k < 4 && forall j | 0 <= j < k :: !IsConsistentBranch(words[j])
    ensures Place(k, f) in Reachable(words, keeps, Entry())
  {
    if k == 0 {
      EntryIsReachable(words, keeps, f);
    } else {
      StraightTo(words, keeps, k - 1, f);
      ReachableStep(words, keeps, Place(k - 1, f), Place(k, f));
    }
  }

  /** The first BC.cond of the block is always reached, and always taken for some flags. */
  lemma FirstBranchEscapes(words: Block, keeps: nat -> bool, k: nat)
    requires k < 4 && IsConsistentBranch(words[k]) && forall j | 0 <= j < k :: !IsConsistentBranch(words[j])
    requires !(0 <= 4 * k + Displacement(words[k]) <= 16)
    ensures CanEscape(words, keeps)
  {
    var f := SomeFlags(words[k]);
    StraightTo(words, keeps, k, f);
  }

  /** With one BC.cond at most, the block can be left exactly when that branch goes outside it. */
  lemma OneBranchEscapesExactly(words: Block, keeps: nat -> bool)
    requires forall j, k | 0 <= j < k < 4 :: !(IsConsistentBranch(words[j]) && IsConsistentBranch(words[k]))
    ensures CanEscape(words, keeps) <==> !BranchesInside(words)
  {
    if BranchesInside(words) {
      InsideNeverEscapes(words, keeps);
    } else {
      var k :| 0 <= k < 4 && IsConsistentBranch(words[k]) && !(0 <= 4 * k + Displacement(words[k]) <= 16);
      FirstBranchEscapes(words, keeps, k);
    }
  }

  // With two, a branch outside may be dead: behind a branch on the same condition that
  // skips it, with only flag-keeping words in between, it is never taken, wherever it goes.

  predicate IsDead(words: Block, keeps: nat -> bool, k: nat)
    requires 0 < k < 4
  {
    && IsConsistentBranch(words[0]) && Displacement(words[0]) == 4 * k + 4
    && IsConsistentBranch(words[k]) && Bits(words[0], 0, 4) == Bits(words[k], 0, 4)
    && forall j | 0 < j < 4 && j != k :: !IsConsistentBranch(words[j]) && (j < k ==> KeepsFlags(keeps, words[j]))
  }

  predicate IsLive(words: Block, k: nat, p: Place)
    requires 0 < k < 4
  {
    p.word < 4 && !(0 < p.word <= k && Taken(words[k], p.flags))
  }

  lemma LiveLanding(words: Block, keeps: nat -> bool, k: nat, p: Place)
    requires 0 < k < 4 && IsDead(words, keeps, k) && IsLive(words, k, p)
    ensures Landing(words, p) == 4 * p.word + 4
            || (p.word == 0 && Landing(words, p) == 4 * k + 4 && Taken(words[k], p.flags))
  {
    if p.word != 0 && p.word != k {
      assert !IsConsistentBranch(words[p.word]);
    }
  }

  lemma LiveStep(words: Block, keeps: nat -> bool, k: nat, p: Place, q: Place)
    requires 0 < k < 4 && IsDead(words, keeps, k) && IsLive(words, k, p) && Follows(words, keeps, p, q)
    ensures IsLive(words, k, q)
  {
    LiveLanding(words, keeps, k, p);
    if 0 < p.word < k {
      assert KeepsFlags(keeps, words[p.word]);
    }
  }

  lemma DeadBranchNeverEscapes(words: Block, keeps: nat -> bool, k: nat)
    requires 0 < k < 4 && IsDead(words, keeps, k)
    ensures !CanEscape(words, keeps)
  {
    var live := set p | p in Places() && IsLive(words, k, p) :: p;
    forall q | q in Next(words, keeps, live) ensures q in live {
      var p :| p in live && p.word < 4 && Follows(words, keeps, p, q);
      LiveStep(words, keeps, k, p, q);
    }
    ReachableIsLeast(words, keeps, Entry(), live);
    forall p | p in Reachable(words, keeps, Entry()) ensures 0 <= Landing(words, p) <= 16 {
      LiveLanding(words, keeps, k, p);
    }
  }
}
