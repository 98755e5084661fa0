/** Bytes, little-endian words and bitwise masks over natural numbers. */
module Bytes {

  type byte = x: int | 0 <= x < 256

  /** The largest 64-bit address. */
  const MAX_ADDRESS: nat := 0xffff_ffff_ffff_ffff

  function Pow2(n: nat): (r: nat)
    ensures r > 0
  {
    if n == 0 then 1 else 2 * Pow2(n - 1)
  }

  /** The `n` low-order bytes of `v`, least significant first. */
  function LittleEndian(v: nat, n: nat): (r: seq<byte>)
    ensures |r| == n
  {
    if n == 0 then [] else [v % 256] + LittleEndian(v / 256, n - 1)
  }

  /** The number a little-endian byte string denotes. */
  function Value(bs: seq<byte>): nat {
    if bs == [] then 0 else bs[0] + 256 * Value(bs[1..])
  }

  /** Reading back what was written, truncated to the width. */
  lemma {:induction false} ValueOfLittleEndian(v: nat, n: nat)
    ensures Value(LittleEndian(v, n)) == v % Pow2(8 * n)
  {
    if n == 0 {
      assert Pow2(0) == 1;
    } else {
      var rest := LittleEndian(v / 256, n - 1);
      assert LittleEndian(v, n)[1..] == rest;
      ValueOfLittleEndian(v / 256, n - 1);
      EightMore(n - 1);
      SplitModulus(v, Pow2(8 * (n - 1)));
    }
  }

  lemma EightMore(n: nat)
    ensures Pow2(8 * (n + 1)) == 256 * Pow2(8 * n)
  {
    var k := 8 * n;
    assert Pow2(k + 8) == 2 * Pow2(k + 7) == 4 * Pow2(k + 6) == 8 * Pow2(k + 5) == 16 * Pow2(k + 4);
    assert Pow2(k + 4) == 2 * Pow2(k + 3) == 4 * Pow2(k + 2) == 8 * Pow2(k + 1) == 16 * Pow2(k);
  }

  lemma SplitModulus(v: nat, m: nat)
    requires m > 0
    ensures v % (256 * m) == v % 256 + 256 * ((v / 256) % m)
  {
    var q, r := (v / 256) / m, (v / 256) % m;
    assert v / 256 == q * m + r;
    assert v == 256 * (q * m + r) + v % 256;
    assert v == q * (256 * m) + (256 * r + v % 256) by {
      assert 256 * (q * m) == q * (256 * m);
    }
    RemainderIs(v, 256 * m, q, 256 * r + v % 256);
  }

  lemma {:induction false} MultiplyStep(a: nat, b: nat, d: nat)
    requires a < b
    ensures a * d + d <= b * d
    decreases b
  {
    if a + 1 < b {
      MultiplyStep(a, b - 1, d);
      assert b * d == (b - 1) * d + d;
    } else {
      assert b * d == (a + 1) * d == a * d + d;
    }
  }

  lemma RemainderIs(v: nat, d: nat, q: nat, r: nat)
    requires d > 0 && v == q * d + r && r < d
    ensures v % d == r && v / d == q
  {
    var q', r' := v / d, v % d;
    assert v == q' * d + r' && r' < d;
    if q' < q {
      MultiplyStep(q', q, d);
    } else if q < q' {
      MultiplyStep(q, q', d);
    }
  }

  lemma {:induction false} LittleEndianOfValue(bs: seq<byte>)
    ensures LittleEndian(Value(bs), |bs|) == bs && Value(bs) < Pow2(8 * |bs|)
  {
    if bs != [] {
      LittleEndianOfValue(bs[1..]);
      EightMore(|bs| - 1);
      var rest := Value(bs[1..]);
      RemainderIs(Value(bs), 256, rest, bs[0]);
      assert bs == [bs[0]] + bs[1..];
    }
  }

  /** Pieces put together. */
  function Flat(pieces: seq<seq<byte>>): seq<byte> {
    if pieces == [] then [] else Flat(pieces[..|pieces| - 1]) + pieces[|pieces| - 1]
  }

  /** Bitwise and. */
  function And(a: nat, b: nat): nat {
    if a == 0 || b == 0 then 0
    else 2 * And(a / 2, b / 2) + (if a % 2 == 1 && b % 2 == 1 then 1 else 0)
  }

  function ShiftRight(a: nat, n: nat): nat {
    if n == 0 then a else ShiftRight(a / 2, n - 1)
  }

  function ShiftLeft(a: nat, n: nat): nat {
    if n == 0 then a else 2 * ShiftLeft(a, n - 1)
  }

  /** The `n` low-order bits. */
  function LowBits(a: nat, n: nat): nat {
    if n == 0 then 0 else 2 * LowBits(a / 2, n - 1) + a % 2
  }

  /** A number of `n` one bits. */
  function Ones(n: nat): nat {
    if n == 0 then 0 else 2 * Ones(n - 1) + 1
  }

  /** The field of `n` bits whose lowest bit is `lo`. */
  function Bits(w: nat, lo: nat, n: nat): nat {
    LowBits(ShiftRight(w, lo), n)
  }

  lemma AndDouble(a: nat, k: nat)
    ensures And(a, 2 * k) == 2 * And(a / 2, k)
    ensures And(a, 2 * k + 1) == 2 * And(a / 2, k) + a % 2
  {
  }

  lemma {:induction false} AndShift(a: nat, k: nat, lo: nat)
    ensures And(a, ShiftLeft(k, lo)) == ShiftLeft(And(ShiftRight(a, lo), k), lo)
  {
    if lo > 0 {
      AndDouble(a, ShiftLeft(k, lo - 1));
      AndShift(a / 2, k, lo - 1);
    }
  }

  lemma {:induction false} AndOnes(a: nat, n: nat)
    ensures And(a, Ones(n)) == LowBits(a, n)
  {
    if n > 0 {
      AndDouble(a, Ones(n - 1));
      AndOnes(a / 2, n - 1);
    }
  }

  lemma {:induction false} ShiftLeftInjective(a: nat, b: nat, n: nat)
    ensures ShiftLeft(a, n) == ShiftLeft(b, n) <==> a == b
  {
    if n > 0 {
      ShiftLeftInjective(a, b, n - 1);
    }
  }

  /** A narrower field of the same bits. */
  lemma {:induction false} Narrow(a: nat, m: nat, n: nat)
    requires n <= m
    ensures LowBits(LowBits(a, m), n) == LowBits(a, n)
  {
    if n > 0 {
      Narrow(a / 2, m - 1, n - 1);
    }
  }

  /** Masking with `n` ones at `lo` and comparing is a test of that field. */
  lemma MaskTestsField(w: nat, lo: nat, n: nat, c: nat)
    ensures And(w, ShiftLeft(Ones(n), lo)) == ShiftLeft(c, lo) <==> Bits(w, lo, n) == c
  {
    AndShift(w, Ones(n), lo);
    AndOnes(ShiftRight(w, lo), n);
    ShiftLeftInjective(Bits(w, lo, n), c, lo);
  }

  // The same operations as arithmetic.

  lemma {:induction false} ShiftLeftIs(a: nat, n: nat)
    ensures ShiftLeft(a, n) == a * Pow2(n)
  {
    if n > 0 {
      ShiftLeftIs(a, n - 1);
      assert a * Pow2(n) == 2 * (a * Pow2(n - 1));
    }
  }

  lemma {:induction false} ShiftRightIs(a: nat, n: nat)
    ensures ShiftRight(a, n) == a / Pow2(n)
  {
    if n > 0 {
      ShiftRightIs(a / 2, n - 1);
      DivideTwice(a, Pow2(n - 1));
    }
  }

  lemma {:induction false} LowBitsIs(a: nat, n: nat)
    ensures LowBits(a, n) == a % Pow2(n)
  {
    if n > 0 {
      LowBitsIs(a / 2, n - 1);
      DivideTwice(a, Pow2(n - 1));
    }
  }

  lemma DivideTwice(a: nat, d: nat)
    requires d > 0
    ensures (a / 2) / d == a / (2 * d) && a % (2 * d) == 2 * ((a / 2) % d) + a % 2
  {
    var q, r := (a / 2) / d, (a / 2) % d;
    assert a == q * (2 * d) + (2 * r + a % 2) by {
      assert a / 2 == q * d + r;
      assert 2 * (q * d) == q * (2 * d);
    }
    RemainderIs(a, 2 * d, q, 2 * r + a % 2);
  }

  lemma Powers()
    ensures Pow2(1) == 2 && Pow2(3) == 8 && Pow2(4) == 16 && Pow2(5) == 32 && Pow2(6) == 64 && Pow2(7) == 128
    ensures Pow2(8) == 0x100 && Pow2(18) == 0x40000 && Pow2(19) == 0x80000 && Pow2(23) == 0x800000
    ensures Pow2(24) == 0x1000000 && Pow2(25) == 0x2000000 && Pow2(26) == 0x4000000 && Pow2(27) == 0x8000000
    ensures Pow2(32) == 0x1_0000_0000 && Pow2(64) == 0x1_0000_0000_0000_0000
  {
    EightMore(0);
    EightMore(1);
    EightMore(2);
    EightMore(3);
    EightMore(4);
    EightMore(5);
    EightMore(6);
    EightMore(7);
    assert Pow2(18) == 4 * Pow2(16) && Pow2(19) == 2 * Pow2(18);
    assert Pow2(24) == 2 * Pow2(23);
    assert Pow2(27) == 2 * Pow2(26) && Pow2(26) == 2 * Pow2(25) && Pow2(25) == 2 * Pow2(24);
  }
}
