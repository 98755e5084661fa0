/**
 The streaming Sha256 class: a 64-byte buffer, compressed whenever it is full, and the
 final padding.
 */
module Sha256Stream {
  import opened Bytes
  import opened Sha256Spec

  lemma AddsCommute(p: nat, q: nat, r: nat, s: nat)
    ensures Add(Add(Add(p, q), r), s) == Add(Add(Add(s, r), q), p)
  {
    AddsFlatten(p, q, r, s);
    AddsFlatten(s, r, q, p);
  }

  lemma AddsFlatten(p: nat, q: nat, r: nat, s: nat)
    ensures Add(Add(Add(p, q), r), s) == (p + q + r + s) % TWO_32
  {
    AddFlat(p + q, r);
    AddFlat(p + q + r, s);
  }

  lemma AddFlat(x: nat, y: nat)
    ensures Add(x % TWO_32, y) == (x + y) % TWO_32
  {
  }

  /** The whole schedule of a block. */
  function Scheduled(b: seq<byte>): (s: seq<word>)
    requires |b| == BLOCK
    ensures |s| == 64
  {
    seq(64, t requires 0 <= t => W(b, t))
  }

  lemma ScheduleStep(b: seq<byte>, i: nat)
    requires |b| == BLOCK && 16 <= i < 64
    ensures var s := Scheduled(b);
            s[i] == Add(Add(Add(s[i - 16], Sigma0(s[i - 15])), s[i - 7]), Sigma1(s[i - 2]))
  {
    AddsCommute(W(b, i - 16), Sigma0(W(b, i - 15)), W(b, i - 7), Sigma1(W(b, i - 2)));
  }

  /** The first sixteen words of the schedule. */
  method LoadWords(block: array<byte>, ghost s: seq<word>) returns (words: array<word>)
    requires block.Length == BLOCK && s == Scheduled(block[..])
    ensures fresh(words) && words.Length == 64
    ensures forall t | 0 <= t < 16 :: words[t] == s[t]
  {
    words := new word[64](_ => 0);
    ghost var b := block[..];
    var i := 0;
    while i < 16
      invariant 0 <= i <= 16 && block[..] == b
      invariant forall t | 0 <= t < i :: words[t] == s[t]
    {
      words[i] := BigEndian(block[4 * i], block[4 * i + 1], block[4 * i + 2], block[4 * i + 3]);
      assert s[i] == W(b, i);
      i := i + 1;
    }
  }

  /** The message schedule of a block. */
  method Schedule(block: array<byte>) returns (words: array<word>)
    requires block.Length == BLOCK
    ensures fresh(words) && words.Length == 64
    ensures forall t | 0 <= t < 64 :: words[t] == Scheduled(block[..])[t]
  {
    ghost var b, s := block[..], Scheduled(block[..]);
    words := LoadWords(block, s);
    var i := 16;
    while i < 64
      invariant 16 <= i <= 64 && block[..] == b
      invariant forall t | 0 <= t < i :: words[t] == s[t]
    {
      ScheduleStep(b, i);
      words[i] := Add(Add(Add(words[i - 16], Sigma0(words[i - 15])), words[i - 7]), Sigma1(words[i - 2]));
      i := i + 1;
    }
  }

  /** transform: the hash value after one more block. */
  method Transform(state: Working, block: array<byte>) returns (r: Working)
    requires block.Length == BLOCK
    ensures r == Compress(state, block[..])
  {
    var words := Schedule(block);
    ghost var b, s := block[..], Scheduled(block[..]);
    var v := state;
    var i := 0;
    while i < 64
      invariant 0 <= i <= 64 && block[..] == b && v == Rounds(state, b, i)
      invariant forall t | 0 <= t < 64 :: words[t] == s[t]
    {
      v := OneRound(v, K[i], words[i]);
      assert s[i] == W(b, i);
      i := i + 1;
    }
    r := Added(state, v);
  }

  method OneRound(v: Working, k: word, w: word) returns (r: Working)
    ensures r == Round(v, k, w)
  {
    var sum1 := Sum1(v.e);
    var choice := Ch(v.e, v.f, v.g);
    var temp1 := Add(Add(Add(Add(v.h, sum1), choice), k), w);
    var sum0 := Sum0(v.a);
    var majority := Maj(v.a, v.b, v.c);
    var temp2 := Add(sum0, majority);
    r := v;
    r := r.(h := v.g, g := v.f, f := v.e, e := Add(v.d, temp1));
    r := r.(d := v.c, c := v.b, b := v.a, a := Add(temp1, temp2));
  }

  // ---------------------------------------------------------------------------
  // The stream
  // ---------------------------------------------------------------------------

  /** `message` is folded into `state` except for its end, which is in the buffer. */
  ghost predicate Holds<H(!new)>(step: Step<H>, initial: H, message: seq<byte>, state: H, buffer: seq<byte>) {
    && |buffer| <= |message| && (|message| - |buffer|) % BLOCK == 0
    && message[|message| - |buffer|..] == buffer
    && state == Fold(step, initial, message[..|message| - |buffer|])
  }

  lemma Absorb<H(!new)>(step: Step<H>, initial: H, message: seq<byte>, state: H, buffer: seq<byte>, input: seq<byte>)
    requires Holds(step, initial, message, state, buffer)
    ensures Holds(step, initial, message + input, state, buffer + input)
  {
    var n := |message| - |buffer|;
    assert (message + input)[..n] == message[..n];
    assert (message + input)[n..] == buffer + input;
  }

  lemma Flush<H(!new)>(step: Step<H>, initial: H, message: seq<byte>, state: H, buffer: seq<byte>)
    requires Holds(step, initial, message, state, buffer) && |buffer| == BLOCK
    ensures Holds(step, initial, message, step(state, buffer), [])
  {
    var n := |message| - BLOCK;
    FoldBlock(step, initial, message[..n], buffer);
    assert message[..n] + buffer == message[..|message|];
  }

  /** `step` is the compression function; proofs that only pass it on are spared its definition. */
  ghost predicate IsCompress(step: Step<Working>) {
    forall h, b {:trigger Compress(h, b)} :: step(h, b) == Compress(h, b)
  }

  class Sha256 {
    ghost const step: Step<Working>
    var state: Working
    const block: array<byte>
    var blockSize: nat
    var totalBytes: nat
    /** Everything passed to Update so far. */
    ghost var message: seq<byte>

    /** The state and the buffer account for the message. */
    ghost predicate Buffering()
      reads this, block
    {
      && block.Length == BLOCK && blockSize < BLOCK
      && IsCompress(step) && Holds(step, INITIAL, message, state, block[..blockSize])
    }

    ghost predicate Valid()
      reads this, block
    {
      Buffering() && totalBytes == |message| % TWO_64
    }

    constructor ()
      ensures Valid() && message == [] && fresh(block)
    {
      step, state := Compress, INITIAL;
      block := new byte[BLOCK](_ => 0);
      blockSize, totalBytes, message := 0, 0, [];
    }

    /** memcpy into the buffer. */
    method Copy(input: seq<byte>)
      requires block.Length == BLOCK && blockSize + |input| <= BLOCK
      modifies this`blockSize, block
      ensures blockSize == old(blockSize) + |input|
      ensures block[..blockSize] == old(block[..blockSize]) + input
    {
      var start := blockSize;
      var i := 0;
      while i < |input|
        invariant 0 <= i <= |input| && blockSize == start + i
        invariant block[..blockSize] == old(block[..blockSize]) + input[..i]
      {
        block[blockSize] := input[i];
        blockSize := blockSize + 1;
        i := i + 1;
      }
      assert input[..i] == input;
    }

    /** One turn of the update loop: fills the buffer further and compresses it when full. */
    method Feed(part: seq<byte>)
      requires Buffering() && blockSize + |part| <= BLOCK
      modifies this`state, this`blockSize, this`message, block
      ensures Buffering() && message == old(message) + part
    {
      Absorb(step, INITIAL, message, state, block[..blockSize], part);
      Copy(part);
      message := message + part;
      if blockSize == BLOCK {
        Flush(step, INITIAL, message, state, block[..blockSize]);
        assert block[..] == block[..blockSize];
        state := Transform(state, block);
        blockSize := 0;
        assert block[..0] == [];
      }
    }

    /** update: everything fed so far stays accounted for. */
    method Update(input: seq<byte>)
      requires Valid()
      modifies this, block
      ensures Valid() && message == old(message) + input
    {
      totalBytes := (totalBytes + |input|) % TWO_64;
      ghost var before := message;
      var rest := input;
      while rest != []
        invariant Buffering() && message + rest == before + input
        invariant totalBytes == (|before| % TWO_64 + |input|) % TWO_64
        decreases |rest|
      {
        var copied := if |rest| < BLOCK - blockSize then |rest| else BLOCK - blockSize;
        assert rest == rest[..copied] + rest[copied..];
        Feed(rest[..copied]);
        rest := rest[copied..];
      }
      assert message + [] == message;
      LengthsAdd(|before|, |input|);
    }

    /** One byte behind the buffered ones. */
    method Put(b: byte)
      requires block.Length == BLOCK && blockSize < BLOCK
      modifies this`blockSize, block
      ensures blockSize == old(blockSize) + 1 && block[..blockSize] == old(block[..blockSize]) + [b]
    {
      block[blockSize] := b;
      blockSize := blockSize + 1;
    }

    /** std::fill with zeros up to `end`. */
    method FillZeros(end: nat)
      requires block.Length == BLOCK && blockSize <= end <= BLOCK
      modifies this`blockSize, block
      ensures blockSize == end && block[..end] == old(block[..blockSize]) + Zeros(end - old(blockSize))
    {
      ghost var start := blockSize;
      while blockSize < end
        invariant start <= blockSize <= end
        invariant block[..blockSize] == old(block[..blockSize]) + Zeros(blockSize - start)
      {
        Put(0);
        assert Zeros(blockSize - start) == Zeros(blockSize - 1 - start) + [0];
      }
    }

    /** The bit count into the last eight bytes, least significant byte last. */
    method PutLength(bitCount: nat)
      requires block.Length == BLOCK
      modifies block
      ensures block[..] == old(block[..56]) + Length64(bitCount)
    {
      ghost var bytes := LittleEndian(bitCount, 8);
      var rest := bitCount;
      var i := 0;
      while i < 8
        invariant 0 <= i <= 8 && block[..56] == old(block[..56])
        invariant bytes[i..] == LittleEndian(rest, 8 - i)
        invariant forall k | 64 - i <= k < 64 :: block[k] == bytes[63 - k]
      {
        assert bytes[i] == bytes[i..][0] && bytes[i + 1..] == bytes[i..][1..];
        block[63 - i] := rest % 256;
        rest := rest / 256;
        i := i + 1;
      }
    }

    /** The end of the padding: zeros up to byte 56, the length, and the last block. */
    method FinishBlock(bitCount: nat, ghost padded: seq<byte>)
      requires block.Length == BLOCK && blockSize <= 56
      requires IsCompress(step) && Holds(step, INITIAL, padded, state, block[..blockSize])
      modifies this`state, this`blockSize, block
      ensures state == Fold(step, INITIAL, padded + Zeros(56 - old(blockSize)) + Length64(bitCount))
    {
      ghost var zeros := Zeros(56 - blockSize);
      Absorb(step, INITIAL, padded, state, block[..blockSize], zeros);
      FillZeros(56);
      Absorb(step, INITIAL, padded + zeros, state, block[..56], Length64(bitCount));
      PutLength(bitCount);
      Flush(step, INITIAL, padded + zeros + Length64(bitCount), state, block[..]);
      state := Transform(state, block);
      WholeIsFolded(step, INITIAL, padded + zeros + Length64(bitCount), state);
    }

    /** Fills the block with zeros, folds it in and starts a new one. */
    method CloseBlock(ghost padded: seq<byte>)
      requires block.Length == BLOCK && blockSize <= BLOCK
      requires IsCompress(step) && Holds(step, INITIAL, padded, state, block[..blockSize])
      modifies this`state, this`blockSize, block
      ensures blockSize == 0 && Holds(step, INITIAL, padded + Zeros(BLOCK - old(blockSize)), state, [])
    {
      ghost var zeros := Zeros(BLOCK - blockSize);
      Absorb(step, INITIAL, padded, state, block[..blockSize], zeros);
      FillZeros(BLOCK);
      assert block[..] == block[..BLOCK];
      Flush(step, INITIAL, padded + zeros, state, block[..]);
      state := Transform(state, block);
      blockSize := 0;
    }

    /** The one bit, and a block of its own if the length no longer fits behind it. */
    method StartPadding() returns (ghost padded: seq<byte>)
      requires Buffering()
      modifies this`state, this`blockSize, block
      ensures blockSize <= 56 && Holds(step, INITIAL, padded, state, block[..blockSize])
      ensures if old(blockSize) + 1 > 56 then padded == message + [0x80] + Zeros(63 - old(blockSize)) && blockSize == 0
              else padded == message + [0x80] && blockSize == old(blockSize) + 1
    {
      padded := message + [0x80];
      Absorb(step, INITIAL, message, state, block[..blockSize], [0x80]);
      Put(0x80);
      if blockSize > 56 {
        ghost var zeros := Zeros(BLOCK - blockSize);
        CloseBlock(padded);
        padded := padded + zeros;
        assert block[..0] == [];
      }
    }

    /** finish: the digest of everything fed, for any length. */
    method Finish() returns (digest: seq<byte>)
      requires Valid()
      modifies this, block
      ensures digest == Digest(old(message))
    {
      var bitCount := (totalBytes * 8) % TWO_64;
      ghost var size := blockSize;
      ghost var padded := StartPadding();
      ghost var last := blockSize;
      FinishBlock(bitCount, padded);
      FinishedDigest(step, message, size, padded, last, bitCount, state);
      digest := Serialized(state);
    }
  }

  lemma FinishedDigest(step: Step<Working>, message: seq<byte>, size: nat, padded: seq<byte>, last: nat,
                       bitCount: nat, state: Working)
    requires IsCompress(step) && last <= 56
    requires size < BLOCK && size <= |message| && (|message| - size) % BLOCK == 0
    requires if size + 1 > 56 then padded == message + [0x80] + Zeros(63 - size) && last == 0
             else padded == message + [0x80] && last == size + 1
    requires bitCount == ((|message| % TWO_64) * 8) % TWO_64
    requires state == Fold(step, INITIAL, padded + Zeros(56 - last) + Length64(bitCount))
    ensures Serialized(state) == Digest(message)
  {
    PaddedInParts(message, size, padded, last);
    BitCount(|message|);
    SameFold(step, Compress, INITIAL, Padded(message));
  }

  lemma WholeIsFolded<H(!new)>(step: Step<H>, initial: H, message: seq<byte>, state: H)
    requires Holds(step, initial, message, state, [])
    ensures state == Fold(step, initial, message)
  {
    assert message[..|message|] == message;
  }

  lemma BitCount(n: nat)
    ensures ((n % TWO_64) * 8) % TWO_64 == (8 * n) % TWO_64
  {
    var x, q := (n % TWO_64) * 8, 8 * (n / TWO_64);
    assert 8 * n == q * TWO_64 + x;
    RemainderIs(8 * n, TWO_64, q + x / TWO_64, x % TWO_64);
  }

  lemma {:induction false} SameFold(step: Step<Working>, other: Step<Working>, h: Working, data: seq<byte>)
    requires IsCompress(step) && other == Compress
    ensures Fold(step, h, data) == Fold(other, h, data)
    decreases |data|
  {
    if |data| >= BLOCK {
      assert step(h, data[..BLOCK]) == Compress(h, data[..BLOCK]);
      SameFold(step, other, step(h, data[..BLOCK]), data[BLOCK..]);
    }
  }

  /** Both padding cases: the length fits behind the message, or needs a block of its own. */
  lemma PaddedInParts(message: seq<byte>, size: nat, padded: seq<byte>, last: nat)
    requires size < BLOCK && size <= |message| && (|message| - size) % BLOCK == 0
    requires if size + 1 > 56 then padded == message + [0x80] + Zeros(63 - size) && last == 0
             else padded == message + [0x80] && last == size + 1
    ensures padded + Zeros(56 - last) + Length64((8 * |message|) % TWO_64) == Padded(message)
  {
    var k := (55 - |message|) % BLOCK;
    if size + 1 > 56 {
      assert k == 119 - size;
      assert Zeros(63 - size) + Zeros(56) == Zeros(k);
    } else {
      assert k == 55 - size;
    }
  }

  lemma LengthsAdd(m: nat, n: nat)
    ensures (m % TWO_64 + n) % TWO_64 == (m + n) % TWO_64
  {
  }

  /** However a message is cut into updates, the digest is that of the whole. */
  method HashChunks(chunks: seq<seq<byte>>) returns (digest: seq<byte>)
    ensures digest == Digest(Flat(chunks))
  {
    var hash := new Sha256();
    var i := 0;
    while i < |chunks|
      invariant 0 <= i <= |chunks| && fresh(hash) && fresh(hash.block)
      invariant hash.Valid() && hash.message == Flat(chunks[..i])
    {
      assert chunks[..i + 1][..i] == chunks[..i];
      hash.Update(chunks[i]);
      i := i + 1;
    }
    assert chunks[..i] == chunks;
    digest := hash.Finish();
  }
}
