/** Machine-integer ranges, powers of two and the division facts the hardware counters rest on. */
module Prelude {

  type u8 = x: int | 0 <= x < 0x100
  type u16 = x: int | 0 <= x < 0x1_0000
  type u32 = x: int | 0 <= x < 0x1_0000_0000
  type u64 = x: int | 0 <= x < 0x1_0000_0000_0000_0000

  type pos = x: int | 0 < x witness 1

  datatype Option<+T> = None | Some(value: T)

  function Max(a: int, b: int): int { if a < b then b else a }

  function Min(a: int, b: int): int { if a < b then a else b }

  function Pow2(n: nat): pos {
    if n == 0 then 1 else 2 * Pow2(n - 1)
  }

  /** The bit of weight `weight` in `x`; every mask test of one bit is written this way. */
  predicate Bit(x: nat, weight: pos) {
    (x / weight) % 2 == 1
  }

  /** The weights of the counter bits that the timer, the serial clock and the APU divider watch. */
  predicate CounterBit(weight: nat) {
    weight in {4, 8, 32, 128, 256, 512, 4096, 8192}
  }

  /** A bit is set exactly in the upper half of its period. */
  lemma BitIsUpperHalf(x: nat, weight: pos)
    ensures Bit(x, weight) <==> x % (2 * weight) >= weight
  {
    var q, r := x / weight, x % weight;
    assert x == q * weight + r;
    var h, b := q / 2, q % 2;
    assert q * weight == h * (2 * weight) + b * weight;
    assert b * weight + r < 2 * weight;
    DivUnique(x, 2 * weight, h, b * weight + r);
  }

  /** A bit of a wrapping 16-bit counter falls exactly when the counter crosses a multiple of twice its weight. */
  lemma FallingEdge(x: u16, weight: pos)
    requires CounterBit(weight)
    ensures Bit(x, weight) && !Bit((x + 1) % 0x1_0000, weight) <==> (x + 1) % (2 * weight) == 0
  {
    BitIsUpperHalf(x, weight);
    BitIsUpperHalf((x + 1) % 0x1_0000, weight);
    WrapKeepsPeriod(x + 1, weight);
    DivSucc(x, 2 * weight);
  }

  /** Wrapping at 2^16 does not move a counter within the period of one of its bits. */
  lemma WrapKeepsPeriod(x: nat, weight: pos)
    requires CounterBit(weight)
    ensures (x % 0x1_0000) % (2 * weight) == x % (2 * weight)
  {
    var q := x / 0x1_0000;
    var r := x % 0x1_0000;
    assert x == 0x1_0000 * q + r;
    var m := 0x1_0000 / (2 * weight);
    assert 0x1_0000 == m * (2 * weight) by {
      assert weight in {4, 8, 32, 128, 256, 512, 4096, 8192};
    }
    assert x == (m * q) * (2 * weight) + r by {
      assert 0x1_0000 * q == (m * (2 * weight)) * q == (m * q) * (2 * weight);
    }
    ModAddMultiple(r, m * q, 2 * weight);
  }

  /** Euclidean division is unique. */
  lemma DivUnique(x: int, d: pos, q: int, r: int)
    requires x == q * d + r && 0 <= r < d
    ensures x / d == q && x % d == r
  {
    var e := x / d;
    assert x == e * d + x % d;
    assert (q - e) * d == x % d - r;
    MultipleOutsideGap(q - e, d);
  }

  /** A nonzero multiple of `d` lies at least `d` away from zero. */
  lemma MultipleOutsideGap(k: int, d: pos)
    ensures k >= 1 ==> k * d >= d
    ensures k <= -1 ==> k * d + d <= 0
  {
    if k >= 1 {
      assert (k - 1) * d >= 0;
      assert k * d == (k - 1) * d + d;
    } else if k <= -1 {
      assert (-k - 1) * d >= 0;
      assert k * d == -((-k - 1) * d) - d;
    }
  }

  lemma ModAddMultiple(x: int, k: int, d: pos)
    ensures (k * d + x) % d == x % d
    ensures (k * d + x) / d == k + x / d
  {
    assert x == (x / d) * d + x % d;
    assert k * d + x == (k + x / d) * d + x % d by {
      assert (k + x / d) * d == k * d + (x / d) * d;
    }
    DivUnique(k * d + x, d, k + x / d, x % d);
  }

  /** Reducing an intermediate sum does not change the reduced total. */
  lemma ModOfReducedSum(x: int, y: int, d: pos)
    ensures (x % d + y) % d == (x + y) % d
  {
    ModAddMultiple(x % d + y, x / d, d);
    assert (x / d) * d + (x % d + y) == x + y;
  }

  /** Counting up by one moves to the next quotient exactly when the remainder returns to zero. */
  lemma DivSucc(x: nat, d: pos)
    ensures (x + 1) % d == 0 ==> (x + 1) / d == x / d + 1 && x % d == d - 1
    ensures (x + 1) % d != 0 ==> (x + 1) / d == x / d && (x + 1) % d == x % d + 1
    ensures x % d == d - 1 ==> (x + 1) % d == 0
  {
    var q, r := x / d, x % d;
    assert x == q * d + r;
    if r == d - 1 {
      assert (q + 1) * d == q * d + d;
      DivUnique(x + 1, d, q + 1, 0);
    } else {
      DivUnique(x + 1, d, q, r + 1);
    }
  }

  /** `x / d` has passed `k` exactly when `x` has reached `k * d`. */
  lemma DivReaches(x: nat, d: pos, k: nat)
    ensures x / d >= k <==> x >= k * d
  {
    var q, r := x / d, x % d;
    assert x - k * d == (q - k) * d + r;
    MultipleOutsideGap(q - k, d);
  }

  lemma DivMonotone(x: nat, y: nat, d: pos)
    requires x <= y
    ensures x / d <= y / d
  {
    DivReaches(y, d, x / d);
    assert x == (x / d) * d + x % d;
  }

  /** A bit of a wrapped running count falls exactly when the unwrapped count completes a period of the bit. */
  lemma CountFalls(x: nat, weight: pos)
    requires CounterBit(weight)
    ensures (x % 0x1_0000 + 1) % 0x1_0000 == (x + 1) % 0x1_0000
    ensures Bit(x % 0x1_0000, weight) && !Bit((x + 1) % 0x1_0000, weight) <==> (x + 1) % (2 * weight) == 0
  {
    hide Bit;
    FallingEdge(x % 0x1_0000, weight);
    ModOfReducedSum(x, 1, 0x1_0000);
    WrapKeepsPeriod(x, weight);
    hide CounterBit;
    ModOfReducedSum(x % 0x1_0000, 1, 2 * weight);
    ModOfReducedSum(x, 1, 2 * weight);
  }

  lemma {:induction false} Pow2Add(a: nat, b: nat)
    ensures Pow2(a) * Pow2(b) == Pow2(a + b)
  {
    if a > 0 {
      Pow2Add(a - 1, b);
    }
  }

  lemma Pow2Byte()
    ensures Pow2(7) == 0x80 && Pow2(8) == 0x100
  {
    assert Pow2(4) == 16;
    Pow2Add(4, 4);
    assert Pow2(8) == 2 * Pow2(7);
  }

  lemma {:induction false} Pow2Grows(a: nat, b: nat)
    requires a <= b
    ensures Pow2(a) <= Pow2(b)
  {
    if a < b {
      Pow2Grows(a, b - 1);
    }
  }

  lemma Pow2Order(a: nat, b: nat)
    ensures Pow2(a) < Pow2(b) ==> a < b
  {
    if b <= a {
      Pow2Grows(b, a);
    }
  }

  lemma DoublesWithPower(x: nat, k: nat)
    ensures x * Pow2(k + 1) == 2 * (x * Pow2(k)) == (2 * x) * Pow2(k)
  {
  }

  /** A positive factor keeps order, both ways. */
  lemma FactorKeepsOrder(a: int, b: int, p: pos)
    ensures a <= b <==> a * p <= b * p
  {
    assert b * p == a * p + (b - a) * p;
    MultipleOutsideGap(b - a, p);
  }
}
