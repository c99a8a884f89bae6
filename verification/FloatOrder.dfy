/**
Single-precision patterns as numbers: the non-negative ones are ordered as
their patterns are, which settles what the range checks let through.
 */
module FloatOrder {
  import opened Common
  import opened Handoff
  import Session = ConfigSession
  import Migration

  const INFINITY: Bits := 0x7F80_0000
  const ONE: Bits := 0x3F80_0000
  const SIGN: Bits := 0x8000_0000

  // ---------------------------------------------------------------------
  // Scaling by powers of two
  // ---------------------------------------------------------------------

  /** Doubling is one more power of two. */
  lemma {:induction false} ScaleShift(r: real, e: int)
    ensures Scale(r * 2.0, e) == Scale(r, e + 1)
    decreases if e < 0 then -e else e
  {
    if e > 0 {
      ScaleShift(r * 2.0, e - 1);
    } else if e < 0 {
      assert r * 2.0 / 2.0 == r;
    }
  }

  lemma {:induction false} ScaleGrows(x: real, y: real, e: int)
    requires x < y
    ensures Scale(x, e) < Scale(y, e)
    decreases if e < 0 then -e else e
  {
    if e > 0 {
      ScaleGrows(x * 2.0, y * 2.0, e - 1);
    } else if e < 0 {
      ScaleGrows(x / 2.0, y / 2.0, e + 1);
    }
  }

  lemma {:induction false} ScaleZero(e: int)
    ensures Scale(0.0, e) == 0.0
    decreases if e < 0 then -e else e
  {
    if e > 0 {
      ScaleZero(e - 1);
    } else if e < 0 {
      ScaleZero(e + 1);
    }
  }

  lemma {:induction false} ScaleOne(k: nat)
    ensures Scale(Pow2(k) as real, 0 - k) == 1.0
  {
    if k > 0 {
      ScaleOne(k - 1);
      assert Pow2(k) as real / 2.0 == Pow2(k - 1) as real;
    }
  }

  // ---------------------------------------------------------------------
  // Order
  // ---------------------------------------------------------------------

  lemma DecodesZero()
    ensures Decode(0) == Finite(0.0)
  {
    hide Scale;
    ScaleZero(-149);
  }

  lemma TwentyThree()
    ensures Pow2(23) == 0x80_0000
  {
    assert Pow2(8) == 256;
    assert Pow2(16) == 0x1_0000;
  }

  lemma DecodesOne()
    ensures Decode(ONE) == Finite(1.0)
  {
    hide Scale, Pow2;
    TwentyThree();
    ScaleOne(23);
  }

  /** The fields of a non-negative finite pattern and of the next one. */
  lemma NextFields(b: nat)
    requires b + 1 < INFINITY
    ensures var e, f := b / 0x80_0000, b % 0x80_0000;
            && e < 255 && e % 256 == e
            && (if f + 1 < 0x80_0000 then (b + 1) / 0x80_0000 == e && (b + 1) % 0x80_0000 == f + 1
                else (b + 1) / 0x80_0000 == e + 1 && (b + 1) % 0x80_0000 == 0 && e + 1 < 255)
  {
  }

  /** The next pattern is a greater number. */
  lemma NextIsGreater(b: Bits)
    requires b + 1 < INFINITY
    ensures Decode(b).Finite? && Decode(b + 1).Finite? && Decode(b).value < Decode(b + 1).value
  {
    hide Scale;
    NextFields(b);
    var e, f := b / 0x80_0000, b % 0x80_0000;
    if e == 0 {
      ScaleGrows(f as real, (f + 1) as real, -149);
    } else {
      ScaleGrows((0x80_0000 + f) as real, (0x80_0000 + f + 1) as real, e - 150);
      if f + 1 == 0x80_0000 {
        ScaleShift(0x80_0000 as real, e - 150);
      }
    }
  }

  lemma {:induction false} PatternsOrder(a: Bits, b: Bits)
    requires a < b < INFINITY
    ensures Decode(a).Finite? && Decode(b).Finite? && Decode(a).value < Decode(b).value
    decreases b - a
  {
    hide Decode;
    NextIsGreater(b - 1);
    if a < b - 1 {
      PatternsOrder(a, b - 1);
    }
  }

  /** Non-negative numbers compare as their patterns do. */
  lemma AtMostIsPatternOrder(a: Bits, b: Bits)
    requires a < INFINITY && b < INFINITY
    ensures AtMost(a, b) <==> a <= b
  {
    hide Decode;
    if a < b {
      PatternsOrder(a, b);
    } else if b < a {
      PatternsOrder(b, a);
    } else {
      FiniteBelow(a);
    }
  }

  lemma FiniteBelow(a: Bits)
    requires a < INFINITY
    ensures Decode(a).Finite?
  {
    hide Scale;
    assert a / 0x80_0000 < 255;
  }

  /** The sign bit negates, and nothing else. */
  lemma SignNegates(b: Bits)
    requires b < SIGN
    ensures Decode(b).Finite? <==> Decode(b + SIGN).Finite?
    ensures Decode(b).Finite? ==> Decode(b + SIGN).value == -Decode(b).value
  {
    hide Scale;
    SignFields(b);
  }

  lemma SignFields(b: nat)
    requires b < SIGN
    ensures (b + SIGN) / 0x80_0000 % 256 == b / 0x80_0000 % 256 && (b + SIGN) % 0x80_0000 == b % 0x80_0000
  {
    assert (b + SIGN) / 0x80_0000 == b / 0x80_0000 + 256;
  }

  lemma NotFinite(b: Bits)
    requires INFINITY <= b < SIGN
    ensures !Decode(b).Finite?
  {
    hide Scale;
    assert b / 0x80_0000 == 255;
  }

  lemma PositiveInUnit(b: Bits)
    requires b < SIGN
    ensures InUnit(b) <==> b <= ONE
    ensures Decode(b).Finite? ==> Decode(b).value >= 0.0 && (Decode(b).value == 0.0 <==> b == 0)
  {
    hide Decode;
    DecodesZero();
    DecodesOne();
    if b >= INFINITY {
      NotFinite(b);
    } else {
      if b > 0 { PatternsOrder(0, b); }
      if b < ONE { PatternsOrder(b, ONE); }
      if b > ONE { PatternsOrder(ONE, b); }
    }
  }

  /** What the range check lets through: the patterns from zero to one, and the
      negative zero. Infinities, every other negative and what is no number are
      turned away. */
  lemma InUnitIff(b: Bits)
    ensures InUnit(b) <==> b <= ONE || b == SIGN
  {
    hide Decode;
    if b < SIGN {
      PositiveInUnit(b);
    } else {
      PositiveInUnit(b - SIGN);
      SignNegates(b - SIGN);
    }
  }

  /** The thresholds the monitor starts from would pass Safe Mode's checks. */
  lemma DefaultsAreValid()
    ensures Session.ValidConfig(Migration.DEFAULTS)
  {
    hide InUnit, AtMost;
    var t := Migration.DEFAULTS;
    InUnitIff(t.repetition);
    InUnitIff(t.selfReferential);
    InUnitIff(t.tokenVelocity);
    InUnitIff(t.toolRetry);
    InUnitIff(t.soft);
    InUnitIff(t.medium);
    InUnitIff(t.hard);
    AtMostIsPatternOrder(t.soft, t.medium);
    AtMostIsPatternOrder(t.medium, t.hard);
  }
}
