/** IEEE 754 words of double and single precision, and the conversions between them. */
module Floats {
  import opened Octets

  type word64 = x: int | 0 <= x < U64 witness 0

  type word32 = x: int | 0 <= x < U32 witness 0

  const F23 := 0x80_0000
  const F29 := 0x2000_0000
  const F52 := 0x10_0000_0000_0000
  const SIGN32 := 0x8000_0000
  const SIGN64 := 0x8000_0000_0000_0000

  function Exponent(w: word64): (e: nat)
    ensures e < 0x800
  {
    w / F52 % 0x800
  }

  function Fraction(w: word64): (f: nat)
    ensures f < F52
  {
    w % F52
  }

  /** The absolute value of a finite double is its significand times 2^(scale - 1075). */
  function Significand(w: word64): (m: nat)
    ensures m < 2 * F52
  {
    (if Exponent(w) == 0 then 0 else F52) + Fraction(w)
  }

  function Scale(w: word64): (e: nat)
    ensures 1 <= e < 0x800
  {
    if Exponent(w) == 0 then 1 else Exponent(w)
  }

  /** The same in units of 2^-1074. */
  function Magnitude(w: word64): nat {
    Significand(w) * Pow2(Scale(w) - 1)
  }

  /** The same, cut off to a whole number. */
  function WholePart(w: word64): nat {
    if Scale(w) >= 1075 then Significand(w) * Pow2(Scale(w) - 1075) else Significand(w) / Pow2(1075 - Scale(w))
  }

  predicate Finite(w: word64) {
    Exponent(w) != 0x7FF
  }

  predicate FiniteSingle(w: word32) {
    w % SIGN32 < 0xFF * F23
  }

  /** A NaN without the bit that keeps it quiet. */
  predicate Signalling(w: word32) {
    0xFF * F23 < w % SIGN32 < 0xFF * F23 + F23 / 2
  }

  // ---------------------------------------------------------------- single to double

  /** The double-precision word of a single-precision word. */
  function Widen(w: word32): word64 {
    var sign, exponent, fraction := w / SIGN32, w % SIGN32 / F23, w % F23;
    sign * SIGN64 +
    if exponent == 0xFF then 0x7FF * F52 + fraction * F29
    else if exponent > 0 then (exponent + 896) * F52 + fraction * F29
    else if fraction == 0 then 0
    else WidenSubnormal(fraction, 0)
  }

  /** Shifts a subnormal fraction left until its leading one leaves the 23-bit field. */
  function WidenSubnormal(fraction: nat, shifts: nat): (w: nat)
    requires shifts <= 22 && Pow2(shifts) <= fraction < F23
    ensures F52 <= w < 897 * F52
    decreases 22 - shifts
  {
    var doubled := 2 * fraction;
    if doubled >= F23 then (896 - shifts) * F52 + (doubled - F23) * F29
    else
      Pow2Values();
      WidenSubnormal(doubled, shifts + 1)
  }

  // ---------------------------------------------------------------- double to single

  /** `m / d` rounded to the nearest whole number, a tie to the even one. */
  function RoundEven(m: nat, d: nat): nat
    requires d > 0
  {
    var whole, rest := m / d, m % d;
    if 2 * rest < d || (2 * rest == d && whole % 2 == 0) then whole else whole + 1
  }

  /** `pack` of a double as a single: the nearest one, unless that would be past the greatest. */
  function Narrow(w: word64): (r: Result<word32>)
    ensures r.Err? ==> r.error == OutOfRange
  {
    var sign, exponent, fraction := w / SIGN64, Exponent(w), Fraction(w);
    if exponent == 0x7FF then
      var kept := fraction / F29;
      Ok(sign * SIGN32 + 0xFF * F23 + if fraction != 0 && kept < F23 / 2 then kept + F23 / 2 else kept)
    else
      var single := NarrowFinite(Scale(w), Significand(w));
      if single < 0xFF * F23 then Ok(sign * SIGN32 + single) else Err(OutOfRange)
  }

  /** Rounding up may carry into the exponent, which is just as it should be. */
  function NarrowFinite(scale: nat, significand: nat): nat {
    if scale > 896 then (scale - 897) * F23 + RoundEven(significand, F29)
    else RoundEven(significand, Pow2(926 - scale))
  }

  // ---------------------------------------------------------------- what is proved of them

  lemma WordFields(sign: nat, exponent: nat, fraction: nat)
    requires sign < 2 && exponent < 0x800 && fraction < F52
    ensures var w := sign * SIGN64 + exponent * F52 + fraction;
      w < U64 && w / SIGN64 == sign && Exponent(w) == exponent && Fraction(w) == fraction
  {
    var w := sign * SIGN64 + exponent * F52 + fraction;
    assert w / F52 == sign * 0x800 + exponent;
  }

  lemma SingleFields(w: word32)
    ensures w == w / SIGN32 * SIGN32 + w % SIGN32 && w / SIGN32 < 2
    ensures w % SIGN32 == w % SIGN32 / F23 * F23 + w % F23
  {
  }

  lemma RoundExact(k: nat, d: nat)
    requires d > 0
    ensures RoundEven(k * d, d) == k
  {
    Division(k * d, d, k, 0);
  }

  function Distance(a: nat, b: nat): nat {
    if a <= b then b - a else a - b
  }

  /** No other multiple is nearer. */
  lemma RoundNearest(m: nat, d: nat, k: nat)
    requires d > 0
    ensures Distance(RoundEven(m, d) * d, m) <= Distance(k * d, m)
  {
    var q, r := m / d, m % d;
    assert m == q * d + r;
    assert (q + 1) * d == q * d + d;
    if k <= q {
      Times(k, q, d);
    } else {
      Times(q + 1, k, d);
    }
  }

  lemma {:induction false} Pow2Sum(j: nat, k: nat)
    ensures Pow2(j + k) == Pow2(j) * Pow2(k)
  {
    if j > 0 {
      Pow2Sum(j - 1, k);
    }
  }

  /** A subnormal fraction is shifted left until its leading one is just where it is implied. */
  lemma {:induction false} WidenShifts(fraction: nat, shifts: nat) returns (j: nat, m: nat)
    requires shifts <= 22 && Pow2(shifts) <= fraction < F23
    ensures shifts + j <= 22 && m == fraction * Pow2(j + 1) && F23 <= m < 2 * F23
    ensures WidenSubnormal(fraction, shifts) == (896 - shifts - j) * F52 + (m - F23) * F29
    decreases 22 - shifts
  {
    var doubled := 2 * fraction;
    if doubled >= F23 {
      j, m := 0, doubled;
      assert Pow2(1) == 2 * Pow2(0);
    } else {
      Pow2Values();
      j, m := WidenShifts(doubled, shifts + 1);
      MulAssoc(fraction, 2, Pow2(j + 1));
      j := j + 1;
    }
  }

  /** A single widened to a double is narrowed to itself. */
  lemma NarrowWiden(s: word32)
    requires !Signalling(s)
    ensures Narrow(Widen(s)) == Ok(s)
  {
    hide Narrow, Widen, Signalling;
    if s % SIGN32 / F23 > 0 {
      NormalBack(s);
    } else {
      SmallBack(s);
    }
  }

  lemma ZeroBack()
    ensures Widen(0) == 0 && Narrow(0) == Ok(0)
  {
    NarrowWiden(0);
  }

  lemma NormalBack(s: word32)
    requires s % SIGN32 / F23 > 0 && !Signalling(s)
    ensures Narrow(Widen(s)) == Ok(s)
  {
    hide Pow2, RoundEven, WidenSubnormal, Exponent, Fraction;
    SingleFields(s);
    var sign, exponent, fraction := s / SIGN32, s % SIGN32 / F23, s % F23;
    WordFields(sign, if exponent == 0xFF then 0x7FF else exponent + 896, fraction * F29);
    Division(fraction * F29, F29, fraction, 0);
    RoundExact(F23 + fraction, F29);
  }

  lemma SmallBack(s: word32)
    requires s % SIGN32 / F23 == 0
    ensures Narrow(Widen(s)) == Ok(s)
  {
    hide Pow2, RoundEven, WidenSubnormal, Exponent, Fraction;
    SingleFields(s);
    var sign, fraction := s / SIGN32, s % F23;
    if fraction == 0 {
      WordFields(sign, 0, 0);
      RoundExact(0, Pow2(925));
    } else {
      var j := SubnormalBack(fraction);
      RoundExact(fraction, Pow2(30 + j));
      NarrowSmall(sign, 896 - j, fraction * Pow2(30 + j), fraction);
    }
  }

  lemma NarrowSmall(sign: nat, e: nat, m: nat, fraction: nat)
    requires sign < 2 && 0 < e <= 896 && F52 <= m < 2 * F52 && RoundEven(m, Pow2(926 - e)) == fraction < F23
    ensures var w := sign * SIGN64 + (e * F52 + (m - F52)); w < U64 && Narrow(w) == Ok(sign * SIGN32 + fraction)
  {
    hide Pow2, RoundEven, Exponent, Fraction;
    WordFields(sign, e, m - F52);
  }

  /** A double comes back from a single exactly if it is the widening of one. */
  lemma NarrowExactly(w: word64)
    ensures Narrow(w).Ok? && Widen(Narrow(w).value) == w <==> exists s: word32 :: !Signalling(s) && Widen(s) == w
  {
    if s: word32 :| !Signalling(s) && Widen(s) == w {
      NarrowWiden(s);
    } else if Narrow(w).Ok? {
      NotSignalling(w);
    }
  }

  lemma NotSignalling(w: word64)
    requires Narrow(w).Ok?
    ensures !Signalling(Narrow(w).value)
  {
    hide NarrowFinite, Exponent, Fraction;
    DoubleFields(w);
  }

  lemma SubnormalBack(fraction: nat) returns (j: nat)
    requires 0 < fraction < F23
    ensures Pow2(0) <= fraction && j <= 22 && F52 <= fraction * Pow2(30 + j) < 2 * F52
    ensures WidenSubnormal(fraction, 0) == (896 - j) * F52 + (fraction * Pow2(30 + j) - F52)
  {
    assert Pow2(0) == 1;
    var m;
    j, m := WidenShifts(fraction, 0);
    F29Power();
    Pow2Sum(j + 1, 29);
    MulAssoc(fraction, Pow2(j + 1), F29);
  }

  lemma F29Power()
    ensures Pow2(29) == F29
  {
    Pow2Values();
    Pow2Sum(7, 22);
    assert Pow2(7) == 128 by { assert Pow2(4) == 16; }
  }

  lemma DoubleFields(w: word64)
    ensures w == w / SIGN64 * SIGN64 + Exponent(w) * F52 + Fraction(w) && w / SIGN64 < 2
    ensures w < SIGN64 ==> w / SIGN64 == 0
  {
    var high := w / F52;
    assert w == high * F52 + w % F52;
    assert high == high / 0x800 * 0x800 + high % 0x800;
    assert high / 0x800 == w / SIGN64;
  }

  // ---------------------------------------------------------------- nearest

  /** The absolute value of a finite single, without its sign bit, in units of 2^-149. */
  function Steps(x: nat): nat {
    if x < F23 then x else (F23 + x % F23) * Pow2(x / F23 - 1)
  }

  lemma WidenMagnitude(s: word32)
    requires FiniteSingle(s)
    ensures Magnitude(Widen(s)) == Steps(s % SIGN32) * Pow2(925)
  {
    hide Pow2, RoundEven, WidenSubnormal, Exponent, Fraction;
    SingleFields(s);
    var sign, exponent, fraction := s / SIGN32, s % SIGN32 / F23, s % F23;
    if exponent > 0 {
      WordFields(sign, exponent + 896, fraction * F29);
      NormalMagnitude(F23 + fraction, exponent);
    } else if fraction == 0 {
      WordFields(sign, 0, 0);
    } else {
      var j := SubnormalBack(fraction);
      var m := fraction * Pow2(30 + j);
      WordFields(sign, 896 - j, m - F52);
      Pow2Sum(30 + j, 895 - j);
      MulAssoc(fraction, Pow2(30 + j), Pow2(895 - j));
    }
  }

  lemma NormalMagnitude(m: nat, exponent: nat)
    requires exponent > 0
    ensures m * F29 * Pow2(exponent + 895) == m * Pow2(exponent - 1) * Pow2(925)
  {
    F29Power();
    Pow2Sum(29, exponent + 895);
    Pow2Sum(exponent - 1, 925);
    hide Pow2;
    MulAssoc(m, F29, Pow2(exponent + 895));
    MulAssoc(m, Pow2(exponent - 1), Pow2(925));
  }

  /** A finite double is `m` units of some size, `d` of which make one step of the singles around it. */
  lemma Units(w: word64) returns (m: nat, unit: nat, d: nat, q: nat)
    requires Finite(w)
    ensures Magnitude(w) == m * unit && d > 0 && d * unit == Pow2(q) * Pow2(925)
    ensures NarrowFinite(Scale(w), Significand(w)) == q * F23 + RoundEven(m, d)
    ensures m <= 2 * F23 * d && (q > 0 ==> m >= F23 * d)
  {
    hide Pow2, RoundEven, Exponent, Fraction;
    var e := Scale(w);
    m, unit := Significand(w), Pow2(e - 1);
    F29Power();
    if e > 896 {
      d, q := F29, e - 897;
      Pow2Sum(29, e - 1);
      Pow2Sum(q, 925);
    } else {
      d, q := Pow2(926 - e), 0;
      PowOne();
      Pow2Sum(926 - e, e - 1);
      Pow2Sum(29, 897 - e);
      Times(1, Pow2(897 - e), F29);
    }
  }

  lemma PowOne()
    ensures Pow2(0) == 1 && Pow2(1) == 2
  {
    assert Pow2(1) == 2 * Pow2(0);
  }

  lemma RoundBounds(m: nat, d: nat, k: nat)
    requires d > 0
    ensures m <= k * d ==> RoundEven(m, d) <= k
    ensures m >= k * d ==> RoundEven(m, d) >= k
  {
    var q, r := m / d, m % d;
    assert m == q * d + r && (q + 1) * d == q * d + d;
    if q < k {
      Times(q + 1, k, d);
    } else {
      Times(k, q, d);
    }
  }

  lemma StepsOf(e: nat, f: nat)
    requires f < F23
    ensures Steps(e * F23 + f) == if e == 0 then f else (F23 + f) * Pow2(e - 1)
  {
    hide Pow2;
    Division(e * F23 + f, F23, e, f);
  }

  lemma StepsAt(q: nat, r: nat)
    requires r <= 2 * F23 && (q > 0 ==> r >= F23)
    ensures Steps(q * F23 + r) == r * Pow2(q)
  {
    PowOne();
    hide Pow2, Steps;
    if r == 2 * F23 {
      StepsOf(q + 2, 0);
      Pow2Sum(1, q);
      MulAssoc(F23, 2, Pow2(q));
    } else if r >= F23 {
      StepsOf(q + 1, r - F23);
    } else {
      StepsOf(0, r);
    }
  }

  /** Any single is a whole number of steps of size 2^q, or smaller than all those whose steps have that size. */
  lemma StepsOver(y: nat, q: nat) returns (k: nat)
    ensures Steps(y) == k * Pow2(q) || (q > 0 && k == F23 && Steps(y) <= k * Pow2(q))
  {
    PowOne();
    hide Pow2;
    var e := y / F23;
    if e > q {
      k := (F23 + y % F23) * Pow2(e - 1 - q);
      Pow2Sum(e - 1 - q, q);
      MulAssoc(F23 + y % F23, Pow2(e - 1 - q), Pow2(q));
    } else if q == 0 {
      k := y;
    } else if e == 0 {
      k := F23;
      Times(1, Pow2(q), F23);
    } else {
      k := F23;
      Times(F23 + y % F23, 2 * F23, Pow2(e - 1));
      Pow2Sum(1, e - 1);
      Pow2Sum(e, q - e);
      Times(1, Pow2(q - e), Pow2(e));
      Times(Pow2(e), Pow2(q), F23);
    }
  }

  lemma Scaled(a: nat, b: nat, unit: nat)
    ensures Distance(a * unit, b * unit) == Distance(a, b) * unit
  {
    if a <= b {
      Times(a, b, unit);
      assert b * unit - a * unit == (b - a) * unit;
    } else {
      Times(b, a, unit);
      assert a * unit - b * unit == (a - b) * unit;
    }
  }

  /** A finite double that does not overflow is narrowed to a single as near to it as any, with its sign. */
  lemma NarrowNearest(w: word64, s: word32)
    requires Finite(w) && Narrow(w).Ok? && FiniteSingle(s)
    ensures var n := Narrow(w).value;
      && FiniteSingle(n) && n / SIGN32 == w / SIGN64
      && Distance(Magnitude(Widen(n)), Magnitude(w)) <= Distance(Magnitude(Widen(s)), Magnitude(w))
  {
    hide Pow2, RoundEven, Exponent, Fraction, Scale, Significand, Steps, NarrowFinite, Magnitude, Widen, Distance;
    var n := Narrow(w).value;
    var m, unit, d, q := Units(w);
    var r := RoundEven(m, d);
    RoundBounds(m, d, 2 * F23);
    RoundBounds(m, d, F23);
    StepsAt(q, r);
    WidenMagnitude(n);
    WidenMagnitude(s);
    var k := StepsOver(s % SIGN32, q);
    RoundNearest(m, d, k);
    Nearest(m, unit, d, r, k, Pow2(q), Pow2(925), Steps(s % SIGN32));
  }

  lemma Nearest(m: nat, unit: nat, d: nat, r: nat, k: nat, step: nat, scale: nat, other: nat)
    requires d * unit == step * scale && Distance(r * d, m) <= Distance(k * d, m)
    requires other == k * step || (other <= k * step && k * d <= m)
    ensures Distance(r * step * scale, m * unit) <= Distance(other * scale, m * unit)
  {
    Multiples(r, step, scale, d, unit);
    Multiples(k, step, scale, d, unit);
    Scaled(r * d, m, unit);
    Scaled(k * d, m, unit);
    Times(Distance(r * d, m), Distance(k * d, m), unit);
    if other != k * step {
      Times(other, k * step, scale);
      Times(k * d, m, unit);
    }
  }

  lemma Multiples(r: nat, step: nat, scale: nat, d: nat, unit: nat)
    requires d * unit == step * scale
    ensures r * step * scale == r * d * unit
  {
    MulAssoc(r, step, scale);
    MulAssoc(r, d, unit);
  }

  /** Halfway between two it is the even one. */
  lemma RoundTie(m: nat, d: nat)
    requires d > 0 && 2 * (m % d) == d
    ensures RoundEven(m, d) % 2 == 0
  {
  }

  /** What overflows is all from half a step past the greatest single up to infinity. */
  lemma NarrowOverflows(w: word64)
    ensures Narrow(w).Err? <==> 0x47EF_FFFF_F000_0000 <= w % SIGN64 < 0x7FF0_0000_0000_0000
  {
    DoubleFields(w);
    var e, f := Exponent(w), Fraction(w);
    assert w % SIGN64 == e * F52 + f;
    hide Exponent, Fraction, Pow2;
    hide RoundEven;
    if e == 0x7FF {
    } else if e > 896 {
      RoundBounds(F52 + f, F29, 2 * F23);
      RoundBounds(F52 + f, F29, F23);
      LastRound(f);
    } else {
      SmallRound(Significand(w), 926 - Scale(w));
    }
  }

  lemma SmallRound(m: nat, k: nat)
    requires m < 2 * F52 && k >= 30
    ensures RoundEven(m, Pow2(k)) <= 2 * F23
  {
    F29Power();
    PowGrows(29, k);
    hide Pow2;
    Times(F29, Pow2(k), 2 * F23);
    RoundBounds(m, Pow2(k), 2 * F23);
  }

  lemma LastRound(f: nat)
    requires f < F52
    ensures RoundEven(F52 + f, F29) >= 2 * F23 <==> f >= F52 - F29 / 2
    ensures RoundEven(F52 + f, F29) <= 2 * F23
  {
  }

  lemma {:induction false} PowGrows(j: nat, k: nat)
    requires j <= k
    ensures Pow2(j) <= Pow2(k)
    decreases k
  {
    if j < k {
      PowGrows(j, k - 1);
    }
  }

  /** Infinities are kept, and NaNs stay NaNs, both ways. */
  lemma NotFinite(w: word64, s: word32)
    ensures !Finite(w) ==>
      && Narrow(w).Ok? && Narrow(w).value / SIGN32 == w / SIGN64
      && !FiniteSingle(Narrow(w).value) && (Narrow(w).value % F23 == 0 <==> Fraction(w) == 0)
    ensures !FiniteSingle(s) ==>
      !Finite(Widen(s)) && Widen(s) / SIGN64 == s / SIGN32 && (Fraction(Widen(s)) == 0 <==> s % F23 == 0)
  {
    DoubleFields(w);
    SingleFields(s);
    var sign, fraction := s / SIGN32, s % F23;
    if !FiniteSingle(s) {
      assert s % SIGN32 / F23 == 0xFF;
      WordFields(sign, 0x7FF, fraction * F29);
      hide Exponent, Fraction;
    }
  }

  lemma Floored(m: nat, d: nat, unit: nat)
    requires d > 0 && unit > 0
    ensures m / d * (d * unit) <= m * unit < (m / d + 1) * (d * unit)
  {
    var q := m / d;
    assert m == q * d + m % d && (q + 1) * d == q * d + d;
    Times(q * d, m, unit);
    Times(m + 1, (q + 1) * d, unit);
    assert (m + 1) * unit == m * unit + unit;
    MulAssoc(q, d, unit);
    MulAssoc(q + 1, d, unit);
  }

  /** The whole part of a float is not past it and less than one short of it. */
  lemma WholePartOf(w: word64)
    ensures WholePart(w) * Pow2(1074) <= Magnitude(w) < (WholePart(w) + 1) * Pow2(1074)
  {
    hide Pow2, Significand, Scale;
    var m, e := Significand(w), Scale(w);
    if e >= 1075 {
      Pow2Sum(e - 1075, 1074);
      MulAssoc(m, Pow2(e - 1075), Pow2(1074));
      OneMore(WholePart(w), Pow2(1074));
    } else {
      Pow2Sum(1075 - e, e - 1);
      Floored(m, Pow2(1075 - e), Pow2(e - 1));
    }
  }

  lemma OneMore(a: nat, d: nat)
    ensures (a + 1) * d == a * d + d
  {
  }
}
