/** The 80-bit extended sample rate of an AIFC header: an exact encoding of every unsigned 32-bit rate. */
module Aifc {
  import opened Prelude

  /** Biased exponent of 2^63: 16383 + 63. */
  const TOP_EXPONENT: nat := 0x403E
  const SIGNIFICAND_TOP: nat := 0x8000_0000_0000_0000

  /** `n` bytes, most significant first. */
  function BeBytes(value: nat, n: nat): (bytes: seq<u8>)
    ensures |bytes| == n
  {
    if n == 0 then [] else BeBytes(value / 0x100, n - 1) + [value % 0x100]
  }

  function FromBe(bytes: seq<u8>): nat {
    if bytes == [] then 0 else 0x100 * FromBe(bytes[..|bytes| - 1]) + bytes[|bytes| - 1]
  }

  lemma {:induction false} BeRoundTrip(value: nat, n: nat)
    requires value < Pow2(8 * n)
    ensures FromBe(BeBytes(value, n)) == value
  {
    if n > 0 {
      assert Pow2(8 * n) == 0x100 * Pow2(8 * (n - 1)) by {
        Pow2Byte();
        Pow2Add(8, 8 * (n - 1));
      }
      BeRoundTrip(value / 0x100, n - 1);
      assert BeBytes(value, n)[..n - 1] == BeBytes(value / 0x100, n - 1);
    }
  }

  /** Doublings that bring a nonzero 64-bit value's top bit into place. */
  function LeadingZeros(x: u64): nat
    decreases if x == 0 then 0 else SIGNIFICAND_TOP - x
  {
    if x == 0 || x >= SIGNIFICAND_TOP then 0 else 1 + LeadingZeros(2 * x)
  }

  ghost function Exponent(rate: u32): nat {
    LeadingZerosBounds(rate);
    TOP_EXPONENT - LeadingZeros(rate)
  }

  ghost function Significand(rate: u32): nat {
    rate * Pow2(LeadingZeros(rate))
  }

  lemma {:induction false} NormalizedShift(x: u64)
    requires x > 0
    ensures SIGNIFICAND_TOP <= x * Pow2(LeadingZeros(x)) < 2 * SIGNIFICAND_TOP
    decreases LeadingZeros(x)
  {
    if x < SIGNIFICAND_TOP {
      NormalizedShift(2 * x);
      DoublesWithPower(x, LeadingZeros(2 * x));
      hide Pow2;
    }
  }

  lemma Pow2Word()
    ensures Pow2(63) == SIGNIFICAND_TOP && Pow2(64) == 2 * SIGNIFICAND_TOP && Pow2(16) == 0x1_0000
    ensures Pow2(31) == 0x8000_0000
  {
    hide Pow2;
    Pow2Byte();
    Pow2Add(8, 8);
    Pow2Add(16, 16);
    Pow2Add(32, 32);
    DoublesWithPower(1, 31);
    DoublesWithPower(1, 63);
  }

  /** A 32-bit rate has at least 32 and, when nonzero, at most 63 leading zeros. */
  lemma LeadingZerosBounds(rate: u32)
    ensures LeadingZeros(rate) <= 63
    ensures rate > 0 ==> LeadingZeros(rate) >= 32
  {
    var k := LeadingZeros(rate);
    if rate > 0 {
      NormalizedShift(rate);
      Pow2Word();
      hide Pow2, LeadingZeros;
      FactorKeepsOrder(1, rate, Pow2(k));
      Pow2Order(k, 64);
      FactorKeepsOrder(Pow2(k), 0x8000_0000, rate);
      Pow2Order(31, k);
    }
  }

  method AifcSampleRateBytes(sampleRateHz: u32) returns (bytes: array<u8>)
    ensures fresh(bytes)
    ensures bytes[..] == BeBytes(Exponent(sampleRateHz), 2) + BeBytes(Significand(sampleRateHz), 8)
  {
    LeadingZerosBounds(sampleRateHz);
    bytes := new u8[10](_ => 0);
    var significand: u64 := sampleRateHz;
    var exponent: u16 := TOP_EXPONENT;
    // As a signed 64-bit number the significand is positive while its top bit is clear.
    while 0 < significand < SIGNIFICAND_TOP
      invariant significand * Pow2(LeadingZeros(significand)) == Significand(sampleRateHz)
      invariant exponent - LeadingZeros(significand) == Exponent(sampleRateHz)
      decreases LeadingZeros(significand)
    {
      DoublingKeepsValue(significand);
      significand := 2 * significand;
      exponent := exponent - 1;
    }
    var e, s := BeBytes(exponent, 2), BeBytes(significand, 8);
    forall i | 0 <= i < 2 {
      bytes[i] := e[i];
    }
    forall i | 2 <= i < 10 {
      bytes[i] := s[i - 2];
    }
    assert bytes[..] == e + s;
  }

  lemma DoublingKeepsValue(x: u64)
    requires 0 < x < SIGNIFICAND_TOP
    ensures LeadingZeros(x) == LeadingZeros(2 * x) + 1
    ensures (2 * x) * Pow2(LeadingZeros(2 * x)) == x * Pow2(LeadingZeros(x))
  {
    DoublesWithPower(x, LeadingZeros(2 * x));
    hide Pow2;
  }

  /** A normalised extended number of this exponent and significand has the integer value `rate`:
      significand * 2^(exponent - 16383 - 63), with the division written as a multiplication. */
  ghost predicate Represents(exponent: int, significand: int, rate: nat) {
    && 0 <= exponent <= TOP_EXPONENT
    && SIGNIFICAND_TOP <= significand < 2 * SIGNIFICAND_TOP
    && significand == rate * Pow2(TOP_EXPONENT - exponent)
  }

  /** Two and four digits to the base 256, most significant first. */
  function Two(a: int, b: int): int {
    a * 0x100 + b
  }

  function Four(a: int, b: int, c: int, d: int): int {
    a * 0x100_0000 + b * 0x1_0000 + c * 0x100 + d
  }

  /** Ten bytes as a sign and exponent of two bytes and a significand of eight, most significant byte first. */
  function ExponentIn(bytes: seq<u8>): int
    requires |bytes| == 10
  {
    Two(bytes[0], bytes[1])
  }

  function SignificandIn(bytes: seq<u8>): int
    requires |bytes| == 10
  {
    Four(bytes[2], bytes[3], bytes[4], bytes[5]) * 0x1_0000_0000 + Four(bytes[6], bytes[7], bytes[8], bytes[9])
  }

  lemma ReadTwo(b: seq<u8>)
    requires |b| == 2
    ensures FromBe(b) == Two(b[0], b[1])
  {
    assert b[..1][..0] == [];
    assert FromBe(b[..1]) == b[0];
  }

  lemma ReadFour(b: seq<u8>)
    requires |b| == 4
    ensures FromBe(b) == Four(b[0], b[1], b[2], b[3])
  {
    ReadTwo(b[..2]);
    assert b[..3][..2] == b[..2];
    assert FromBe(b[..3]) == 0x100 * FromBe(b[..2]) + b[2];
  }

  lemma {:induction false} ReadAfter(a: seq<u8>, b: seq<u8>)
    requires |b| <= 4
    ensures |b| == 4 ==> FromBe(a + b) == FromBe(a) * 0x1_0000_0000 + FromBe(b)
    ensures |b| == 1 ==> FromBe(a + b) == FromBe(a) * 0x100 + FromBe(b)
    ensures |b| == 2 ==> FromBe(a + b) == FromBe(a) * 0x1_0000 + FromBe(b)
    ensures |b| == 3 ==> FromBe(a + b) == FromBe(a) * 0x100_0000 + FromBe(b)
    ensures |b| == 0 ==> FromBe(a + b) == FromBe(a)
  {
    if |b| == 0 {
      assert a + b == a;
    } else {
      var m := |b| - 1;
      ReadAfter(a, b[..m]);
      assert (a + b)[..|a| + m] == a + b[..m];
      assert FromBe(b[..0]) == 0;
    }
  }

  lemma ReadEncoding(bytes: seq<u8>)
    requires |bytes| == 10
    ensures FromBe(bytes[..2]) == ExponentIn(bytes) && FromBe(bytes[2..]) == SignificandIn(bytes)
  {
    ReadTwo(bytes[..2]);
    ReadFour(bytes[2..6]);
    ReadFour(bytes[6..]);
    assert bytes[2..] == bytes[2..6] + bytes[6..];
    ReadAfter(bytes[2..6], bytes[6..]);
    hide FromBe;
  }

  /** The rate 0 keeps the top exponent and a zero significand. */
  lemma ZeroRate()
    ensures BeBytes(Exponent(0), 2) + BeBytes(Significand(0), 8) == [0x40, 0x3E, 0, 0, 0, 0, 0, 0, 0, 0]
  {
    assert Exponent(0) == 0x403E && Significand(0) == 0;
    assert BeBytes(0x403E, 2) == [0x40, 0x3E];
    assert BeBytes(0, 4) == [0, 0, 0, 0];
    assert BeBytes(0, 8) == [0, 0, 0, 0, 0, 0, 0, 0];
  }

  /** The ten bytes are a normalised number of exactly the rate's value, positive, with the exponent of its highest
      bit. */
  lemma EncodingIsExact(rate: u32)
    requires rate > 0
    ensures var bytes := BeBytes(Exponent(rate), 2) + BeBytes(Significand(rate), 8);
      var exponent, significand := ExponentIn(bytes), SignificandIn(bytes);
      && Represents(exponent, significand, rate)
      && bytes[0] < 0x80
      && 16383 <= exponent && Pow2(exponent - 16383) <= rate < Pow2(exponent - 16383 + 1)
  {
    hide *;
    EncodedParts(rate);
    NormalizedShift(rate);
    ExponentAndSignificand(rate);
    var e, s := BeBytes(Exponent(rate), 2), BeBytes(Significand(rate), 8);
    assert (e + s)[..2] == e && (e + s)[2..] == s;
    ReadEncoding(e + s);
    TwoBytes(Exponent(rate));
    HighestBit(rate);
    RepresentsShift(rate, LeadingZeros(rate));
  }

  lemma ExponentAndSignificand(rate: u32)
    ensures LeadingZeros(rate) <= 63 && Exponent(rate) == 16383 + 63 - LeadingZeros(rate)
    ensures Significand(rate) == rate * Pow2(LeadingZeros(rate))
  {
    LeadingZerosBounds(rate);
  }

  lemma RepresentsShift(rate: nat, k: nat)
    requires k <= 63 && SIGNIFICAND_TOP <= rate * Pow2(k) < 2 * SIGNIFICAND_TOP
    ensures Represents(16383 + 63 - k, rate * Pow2(k), rate)
  {
    hide Pow2;
  }

  lemma TwoBytes(value: nat)
    requires value < 0x8000
    ensures BeBytes(value, 2)[0] < 0x80
  {
    assert BeBytes(value / 0x100, 1) == [value / 0x100 % 0x100];
  }

  lemma HighestBit(rate: u32)
    requires rate > 0 && LeadingZeros(rate) <= 63
    ensures Pow2(63 - LeadingZeros(rate)) <= rate < Pow2(63 - LeadingZeros(rate) + 1)
  {
    var k := LeadingZeros(rate);
    NormalizedShift(rate);
    Pow2Word();
    Pow2Add(63 - k, k);
    Pow2Add(64 - k, k);
    hide *;
    FactorKeepsOrder(Pow2(63 - k), rate, Pow2(k));
    FactorKeepsOrder(Pow2(64 - k), rate, Pow2(k));
  }

  /** A value has one normalised representation, so the encoding is the only one there is. */
  lemma RepresentationIsUnique(e1: nat, s1: nat, e2: nat, s2: nat, rate: nat)
    requires Represents(e1, s1, rate) && Represents(e2, s2, rate)
    ensures e1 == e2 && s1 == s2
  {
    if e1 < e2 {
      DistinctExponents(e1, s1, e2, s2, rate);
    } else if e2 < e1 {
      DistinctExponents(e2, s2, e1, s1, rate);
    }
  }

  lemma DistinctExponents(e1: nat, s1: nat, e2: nat, s2: nat, rate: nat)
    requires Represents(e1, s1, rate) && Represents(e2, s2, rate)
    ensures !(e1 < e2)
  {
    if e1 < e2 {
      var a, b := TOP_EXPONENT - e2, e2 - e1;
      Pow2Add(a, b);
      Pow2Grows(1, b);
      assert s1 == s2 * Pow2(b);
      FactorKeepsOrder(2, Pow2(b), s2);
      assert false;
    }
  }

  /** Different rates have different bytes, zero included. */
  lemma EncodingIsInjective(a: u32, b: u32)
    requires BeBytes(Exponent(a), 2) + BeBytes(Significand(a), 8)
          == BeBytes(Exponent(b), 2) + BeBytes(Significand(b), 8)
    ensures a == b
  {
    hide *;
    SplitEncoding(BeBytes(Exponent(a), 2), BeBytes(Significand(a), 8),
                  BeBytes(Exponent(b), 2), BeBytes(Significand(b), 8));
    EncodedParts(a);
    EncodedParts(b);
    ExponentAndSignificand(a);
    ExponentAndSignificand(b);
    FactorKeepsOrder(a, b, Pow2(LeadingZeros(a)));
    FactorKeepsOrder(b, a, Pow2(LeadingZeros(a)));
  }

  lemma SplitEncoding(e1: seq<u8>, s1: seq<u8>, e2: seq<u8>, s2: seq<u8>)
    requires |e1| == |e2| && e1 + s1 == e2 + s2
    ensures e1 == e2 && s1 == s2
  {
    assert e1 == (e1 + s1)[..|e1|] && s1 == (e1 + s1)[|e1|..];
    assert e2 == (e2 + s2)[..|e2|] && s2 == (e2 + s2)[|e2|..];
  }

  lemma EncodedParts(rate: u32)
    ensures Exponent(rate) < 0x8000
    ensures FromBe(BeBytes(Exponent(rate), 2)) == Exponent(rate)
    ensures FromBe(BeBytes(Significand(rate), 8)) == Significand(rate)
  {
    LeadingZerosBounds(rate);
    Pow2Word();
    if rate > 0 {
      NormalizedShift(rate);
    }
    BeRoundTrip(Exponent(rate), 2);
    BeRoundTrip(Significand(rate), 8);
  }
}
