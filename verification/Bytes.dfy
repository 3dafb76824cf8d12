/**
 Bytes, little-endian numbers, 64-bit alignment and bit packing.
 */
module Bytes {
  import opened Prelude

  type Byte = x: int | 0 <= x < 256

  const U64_MAX: nat := 0xFFFF_FFFF_FFFF_FFFF

  /* ---------------------------------------------------------------- Little-endian numbers */

  function Pow256(w: nat): (p: nat)
    ensures p > 0
  {
    if w == 0 then 1 else 256 * Pow256(w - 1)
  }

  /** The `w` low-order bytes of `n`, least significant first. */
  function ToLe(n: nat, w: nat): (b: seq<Byte>)
    ensures |b| == w
  {
    if w == 0 then [] else [n % 256] + ToLe(n / 256, w - 1)
  }

  function FromLe(b: seq<Byte>): nat {
    if b == [] then 0 else b[0] + 256 * FromLe(b[1..])
  }

  lemma {:induction false} LeRoundTrip(n: nat, w: nat)
    requires n < Pow256(w)
    ensures FromLe(ToLe(n, w)) == n
  {
    if w > 0 {
      LeRoundTrip(n / 256, w - 1);
      assert ToLe(n, w)[1..] == ToLe(n / 256, w - 1);
    }
  }

  /** Encoding what a number decodes to restores its bytes. */
  lemma {:induction false} LeInverse(b: seq<Byte>)
    ensures ToLe(FromLe(b), |b|) == b
  {
    if b != [] {
      LeInverse(b[1..]);
      assert FromLe(b) / 256 == FromLe(b[1..]) && FromLe(b) % 256 == b[0];
    }
  }

  /** Byte `i` of an encoded number is its digit of weight 256 to the power of `i`. */
  lemma {:induction false} LeDigit(n: nat, w: nat, i: nat)
    requires i < w
    ensures ToLe(n, w)[i] == n / Pow256(i) % 256
  {
    if i > 0 {
      LeDigit(n / 256, w - 1, i - 1);
      DivideTwice(n, 256, Pow256(i - 1));
    }
  }

  lemma {:induction false} DivideTwice(n: nat, a: nat, b: nat)
    requires a > 0 && b > 0
    ensures a * b > 0 && n / a / b == n / (a * b)
  {
    StepUp(a, 0, b);
    Composed(a, b, n / a, n / a / b, n / a % b, n % a);
    QuotientIs(n, a * b, n / a / b, a * (n / a % b) + n % a);
  }

  lemma {:induction false} Composed(a: nat, b: nat, m: nat, q: nat, r: nat, s: nat)
    requires m == b * q + r && s < a && r < b
    ensures a * m + s == (a * b) * q + (a * r + s) && a * r + s < a * b
  {
    Expand(a, b * q, r);
    Regroup(a, b, q);
    StepUp(a, r, b);
  }

  lemma {:induction false} StepUp(d: nat, x: nat, y: nat)
    requires x < y
    ensures d * x + d <= d * y
  {
    Expand(d, x + 1, y - x - 1);
    Expand(d, x, 1);
    assert 0 <= d * (y - x - 1);
  }

  lemma {:induction false} Expand(d: nat, x: nat, y: nat)
    ensures d * (x + y) == d * x + d * y
  {
  }

  lemma {:induction false} Regroup(a: nat, b: nat, q: nat)
    ensures a * (b * q) == (a * b) * q
  {
  }

  /** A quotient is fixed by its remainder. */
  lemma {:induction false} QuotientIs(n: nat, d: nat, q: nat, r: nat)
    requires d > 0 && n == d * q + r && r < d
    ensures n / d == q
  {
    var p := n / d;
    if p < q {
      StepUp(d, p, q);
    } else if q < p {
      StepUp(d, q, p);
    }
  }

  lemma {:induction false} FromLeBound(b: seq<Byte>)
    ensures FromLe(b) < Pow256(|b|)
  {
    if b != [] {
      FromLeBound(b[1..]);
    }
  }

  lemma {:induction false} U64Range()
    ensures Pow256(8) == U64_MAX + 1
  {
  }

  /** Saturating `u64` addition. */
  function SatAdd(a: nat, b: nat): nat {
    if a + b <= U64_MAX then a + b else U64_MAX
  }

  /** Checked `u64` addition. */
  function CheckedAdd(a: nat, b: nat): Result<nat> {
    if a + b <= U64_MAX then Ok(a + b) else Err(Zero)
  }

  /* ---------------------------------------------------------------- Alignment */

  function Zeros(n: nat): seq<Byte> {
    seq(n, _ => 0)
  }

  /** Number of bytes from `n` to the next multiple of eight. */
  function Pad(n: nat): (p: nat)
    ensures p < 8 && (n + p) % 8 == 0
  {
    if n % 8 == 0 then 0 else 8 - n % 8
  }

  function Align(n: nat): (a: nat)
    ensures a % 8 == 0 && n <= a < n + 8
  {
    n + Pad(n)
  }

  /** Rounding up to a multiple of eight within `u64`. */
  function CheckedAlign(n: nat): Result<nat> {
    if Align(n) <= U64_MAX then Ok(Align(n)) else Err(Zero)
  }

  /* ---------------------------------------------------------------- Bit packing, Lsb0 order */

  function Pow2(n: nat): (p: nat)
    ensures p > 0
  {
    if n == 0 then 1 else 2 * Pow2(n - 1)
  }

  /** The number whose binary digits, least significant first, are `bits`. */
  function Low(bits: seq<bool>): (b: nat)
    ensures b < Pow2(|bits|)
  {
    if bits == [] then 0 else (if bits[0] then 1 else 0) + 2 * Low(bits[1..])
  }

  function ByteOf(bits: seq<bool>): Byte
    requires |bits| <= 8
  {
    assert Low(bits) < 256 by { Pow2Monotone(|bits|, 8); assert Pow2(8) == 256; }
    Low(bits)
  }

  lemma {:induction false} Pow2Monotone(m: nat, n: nat)
    requires m <= n
    ensures Pow2(m) <= Pow2(n)
  {
    if m < n {
      Pow2Monotone(m, n - 1);
    }
  }

  /** The `n` low-order bits of `b`, least significant first. */
  function BitsOf(b: nat, n: nat): (bits: seq<bool>)
    ensures |bits| == n
  {
    if n == 0 then [] else [b % 2 == 1] + BitsOf(b / 2, n - 1)
  }

  function Falses(n: nat): seq<bool> {
    seq(n, _ => false)
  }

  lemma {:induction false} BitsOfZero(n: nat)
    ensures BitsOf(0, n) == Falses(n)
  {
    if n > 0 {
      BitsOfZero(n - 1);
    }
  }

  lemma {:induction false} BitsOfLow(bits: seq<bool>, n: nat)
    requires |bits| <= n
    ensures BitsOf(Low(bits), n) == bits + Falses(n - |bits|)
  {
    if bits == [] {
      BitsOfZero(n);
    } else {
      BitsOfLow(bits[1..], n - 1);
      assert bits == [bits[0]] + bits[1..];
    }
  }

  /** Packs bits eight to a byte; the last byte is filled with zero bits. */
  function PackBits(bits: seq<bool>): (b: seq<Byte>)
    ensures |b| == (|bits| + 7) / 8
  {
    if |bits| == 0 then []
    else if |bits| <= 8 then [ByteOf(bits)]
    else [ByteOf(bits[..8])] + PackBits(bits[8..])
  }

  function UnpackBits(b: seq<Byte>): (bits: seq<bool>)
    ensures |bits| == 8 * |b|
  {
    if b == [] then [] else BitsOf(b[0], 8) + UnpackBits(b[1..])
  }

  /** Unpacking restores the packed bits, followed by the zero fill of the last byte. */
  lemma {:induction false} BitsRoundTrip(bits: seq<bool>)
    ensures bits <= UnpackBits(PackBits(bits))
  {
    if |bits| == 0 {
    } else if |bits| <= 8 {
      BitsOfLow(bits, 8);
      assert PackBits(bits)[1..] == [];
    } else {
      BitsOfLow(bits[..8], 8);
      BitsRoundTrip(bits[8..]);
      assert PackBits(bits)[1..] == PackBits(bits[8..]);
      assert bits == bits[..8] + bits[8..];
      assert BitsOf(ByteOf(bits[..8]), 8) == bits[..8];
    }
  }

  /** Bit `i` is binary digit `i % 8` of byte `i / 8`. */
  lemma {:induction false} PackedBit(bits: seq<bool>, i: nat)
    requires i < |bits|
    ensures i / 8 < |PackBits(bits)| && (PackBits(bits)[i / 8] / Pow2(i % 8) % 2 == 1 <==> bits[i])
  {
    if i < 8 {
      PackedFirst(bits);
      LowBit(if |bits| <= 8 then bits else bits[..8], i);
    } else {
      PackedBit(bits[8..], i - 8);
      PackedBehind(bits, i);
    }
  }

  lemma {:induction false} PackedBehind(bits: seq<bool>, i: nat)
    requires 8 <= i < |bits|
    ensures var behind := PackBits(bits[8..]);
            |PackBits(bits)| == |behind| + 1 && (i - 8) / 8 == i / 8 - 1 && (i - 8) % 8 == i % 8
            && (i / 8 - 1 < |behind| ==> PackBits(bits)[i / 8] == behind[i / 8 - 1])
  {
  }

  lemma {:induction false} PackedFirst(bits: seq<bool>)
    requires bits != []
    ensures PackBits(bits) != [] && PackBits(bits)[0] == Low(if |bits| <= 8 then bits else bits[..8])
  {
  }

  lemma {:induction false} LowBit(bits: seq<bool>, i: nat)
    requires i < |bits|
    ensures Low(bits) / Pow2(i) % 2 == 1 <==> bits[i]
  {
    if i > 0 {
      LowBit(bits[1..], i - 1);
      DivideTwice(Low(bits), 2, Pow2(i - 1));
    }
  }

  /* ---------------------------------------------------------------- Bytes within bytes */

  /** The bytes `b` lie at `at` in `m`. */
  predicate LieAt(m: seq<Byte>, at: nat, b: seq<Byte>) {
    at + |b| <= |m| && m[at..at + |b|] == b
  }

  lemma {:induction false} LieThroughout(a: seq<Byte>, b: seq<Byte>, c: seq<Byte>)
    ensures LieAt(a + b + c, |a|, b)
  {
  }

  /** What lies in two parts lies part by part. */
  lemma {:induction false} PartsLie(m: seq<Byte>, at: nat, a: seq<Byte>, b: seq<Byte>)
    requires LieAt(m, at, a + b)
    ensures LieAt(m, at, a) && LieAt(m, at + |a|, b)
  {
    forall k | 0 <= k < |a| ensures m[at + k] == a[k] {
      assert m[at..at + |a + b|][k] == (a + b)[k];
    }
    forall k | 0 <= k < |b| ensures m[at + |a| + k] == b[k] {
      assert m[at..at + |a + b|][|a| + k] == (a + b)[|a| + k];
    }
  }

  /** A slice of what lies in `m` is a slice of `m`. */
  lemma {:induction false} SliceLies(m: seq<Byte>, at: nat, b: seq<Byte>, from: nat, to: nat)
    requires LieAt(m, at, b) && from <= to <= |b|
    ensures at + to <= |m| && m[at + from..at + to] == b[from..to]
  {
    var left, right := m[at + from..at + to], b[from..to];
    forall k | 0 <= k < |left| ensures left[k] == right[k] {
      assert left[k] == m[at..at + |b|][from + k];
    }
  }
}
