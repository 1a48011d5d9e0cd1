/** The biquad designs of the voicing chain, over real numbers, and their stability. */
module Cookbook {

  /** The library functions and the division the formulas use; a division by zero may give anything. */
  datatype Math = Math(pi: real, sin: real -> real, cos: real -> real, pow10: real -> real, sqrt: real -> real,
                       tanh: real -> real, quot: (real, real) -> real)

  /** What is used of them. */
  ghost predicate Genuine(m: Math) {
    && m.pi > 0.0
    && (forall x :: -1.0 <= m.cos(x) <= 1.0)
    && (forall x :: m.sin(x) != 0.0 ==> -1.0 < m.cos(x) < 1.0)
    && (forall x :: 0.0 < x < m.pi ==> m.sin(x) > 0.0)
    && (forall x :: -m.pi < x < 0.0 ==> m.sin(x) < 0.0)
    && m.sin(0.0) == 0.0 && m.cos(0.0) == 1.0
    && (forall x :: m.pow10(x) > 0.0) && m.pow10(0.0) == 1.0
    && (forall x :: x > 0.0 ==> m.sqrt(x) > 0.0 && m.sqrt(x) * m.sqrt(x) == x)
    && (forall x :: -1.0 <= m.tanh(x) <= 1.0)
    && (forall x, y :: y != 0.0 ==> m.quot(x, y) == x / y)
  }

  /** A biquad before normalisation: numerator and denominator. */
  datatype Raw = Raw(n0: real, n1: real, n2: real, d0: real, d1: real, d2: real)

  datatype Coef = Coef(b0: real, b1: real, b2: real, a1: real, a2: real)

  function Normal(m: Math, r: Raw): Coef {
    Coef(m.quot(r.n0, r.d0), m.quot(r.n1, r.d0), m.quot(r.n2, r.d0), m.quot(r.d1, r.d0), m.quot(r.d2, r.d0))
  }

  /** The poles of a normalised biquad are inside the unit circle: the second-order stability triangle. */
  predicate Stable(c: Coef) {
    -1.0 < c.a2 < 1.0 && -(1.0 + c.a2) < c.a1 < 1.0 + c.a2
  }

  // ------------------------------------------------------------ the four designs

  function Omega(m: Math, sr: real, fc: real): real {
    m.quot(2.0 * m.pi * fc, sr)
  }

  function Alpha(m: Math, sr: real, fc: real, q: real): real {
    m.quot(m.sin(Omega(m, sr, fc)), 2.0 * q)
  }

  function Gain(m: Math, db: real): real {
    m.pow10(m.quot(db, 40.0))
  }

  function HighpassRaw(cw: real, alpha: real): Raw {
    Raw((1.0 + cw) * 0.5, -(1.0 + cw), (1.0 + cw) * 0.5, 1.0 + alpha, -2.0 * cw, 1.0 - alpha)
  }

  function PeakingRaw(cw: real, up: real, down: real): Raw {
    Raw(1.0 + up, -2.0 * cw, 1.0 - up, 1.0 + down, -2.0 * cw, 1.0 - down)
  }

  function LowShelfRaw(cw: real, A: real, tsa: real): Raw {
    Raw(A * ((A + 1.0) - (A - 1.0) * cw + tsa),
        2.0 * A * ((A - 1.0) - (A + 1.0) * cw),
        A * ((A + 1.0) - (A - 1.0) * cw - tsa),
        (A + 1.0) + (A - 1.0) * cw + tsa,
        -2.0 * ((A - 1.0) + (A + 1.0) * cw),
        (A + 1.0) + (A - 1.0) * cw - tsa)
  }

  function HighShelfRaw(cw: real, A: real, tsa: real): Raw {
    Raw(A * ((A + 1.0) + (A - 1.0) * cw + tsa),
        -2.0 * A * ((A - 1.0) + (A + 1.0) * cw),
        A * ((A + 1.0) + (A - 1.0) * cw - tsa),
        (A + 1.0) - (A - 1.0) * cw + tsa,
        2.0 * ((A - 1.0) - (A + 1.0) * cw),
        (A + 1.0) - (A - 1.0) * cw - tsa)
  }

  function Highpass(m: Math, sr: real, fc: real, q: real): Raw {
    HighpassRaw(m.cos(Omega(m, sr, fc)), Alpha(m, sr, fc, q))
  }

  function Peaking(m: Math, sr: real, fc: real, q: real, db: real): Raw {
    var A, alpha := Gain(m, db), Alpha(m, sr, fc, q);
    PeakingRaw(m.cos(Omega(m, sr, fc)), alpha * A, m.quot(alpha, A))
  }

  function LowShelf(m: Math, sr: real, fc: real, q: real, db: real): Raw {
    var A := Gain(m, db);
    LowShelfRaw(m.cos(Omega(m, sr, fc)), A, 2.0 * m.sqrt(A) * Alpha(m, sr, fc, q))
  }

  function HighShelf(m: Math, sr: real, fc: real, q: real, db: real): Raw {
    var A := Gain(m, db);
    HighShelfRaw(m.cos(Omega(m, sr, fc)), A, 2.0 * m.sqrt(A) * Alpha(m, sr, fc, q))
  }

  // ------------------------------------------------------------ stability

  lemma Scale(x: real, y: real, d: real, xd: real, yd: real)
    requires d > 0.0 && x * d == xd && y * d == yd && xd < yd
    ensures x < y
  {
    SignOfProduct(y - x, d);
    Expand(y, -x, d);
  }

  /** The triangle, in terms of a positive denominator. */
  lemma Inside(a1: real, a2: real, d0: real, d1: real, d2: real)
    requires d0 > 0.0 && a1 * d0 == d1 && a2 * d0 == d2
    requires -d0 < d2 < d0 && -(d0 + d2) < d1 < d0 + d2
    ensures -1.0 < a2 < 1.0 && -(1.0 + a2) < a1 < 1.0 + a2
  {
    Scale(a2, 1.0, d0, d2, d0);
    Scale(-1.0, a2, d0, -d0, d2);
    Expand(1.0, a2, d0);
    Scale(a1, 1.0 + a2, d0, d1, d0 + d2);
    Expand(0.0, 1.0 + a2, d0);
    Scale(-(1.0 + a2), a1, d0, -(d0 + d2), d1);
  }

  lemma Expand(x: real, y: real, z: real)
    ensures (x + y) * z == x * z + y * z && -y * z == -(y * z) == y * -z
  {
  }

  /** A last coefficient as large as the first one puts a pole on or outside the circle. */
  lemma Outside(c: Coef, d0: real, d2: real)
    requires d0 != 0.0 && c.a2 * d0 == d2
    requires (d0 > 0.0 && d2 >= d0) || (d0 < 0.0 && d2 >= -d0)
    ensures !Stable(c)
  {
    if d0 > 0.0 {
      SignOfProduct(1.0 - c.a2, d0);
      Expand(1.0, -c.a2, d0);
    } else {
      SignOfProduct(1.0 + c.a2, -d0);
      Expand(1.0, c.a2, -d0);
    }
  }

  lemma Divided(m: Math, r: Raw)
    requires Genuine(m) && r.d0 != 0.0
    ensures Normal(m, r).a1 * r.d0 == r.d1 && Normal(m, r).a2 * r.d0 == r.d2
  {
    assert r.d1 / r.d0 * r.d0 == r.d1 && r.d2 / r.d0 * r.d0 == r.d2;
  }

  /** A denominator `P + t, d1, P - t` with P not negative, and |d1| < 2P where it matters, is stable after
      normalisation exactly when t is positive. */
  lemma StableIff(m: Math, r: Raw, P: real, t: real)
    requires Genuine(m)
    requires r.d0 == P + t && r.d2 == P - t && r.d0 != 0.0 && P >= 0.0
    requires t > 0.0 ==> -2.0 * P < r.d1 < 2.0 * P
    ensures Stable(Normal(m, r)) <==> t > 0.0
  {
    var c := Normal(m, r);
    if t > 0.0 {
      assert Stable(c) by {
        Divided(m, r);
        Inside(c.a1, c.a2, r.d0, r.d1, r.d2);
      }
    } else {
      assert !Stable(c) by {
        Divided(m, r);
        Outside(c, r.d0, r.d2);
      }
    }
  }

  lemma HighpassStable(m: Math, cw: real, alpha: real)
    requires Genuine(m) && -1.0 <= cw <= 1.0 && (alpha > 0.0 ==> -1.0 < cw < 1.0) && 1.0 + alpha != 0.0
    ensures Stable(Normal(m, HighpassRaw(cw, alpha))) <==> alpha > 0.0
  {
    StableIff(m, HighpassRaw(cw, alpha), 1.0, alpha);
  }

  lemma PeakingStable(m: Math, cw: real, up: real, down: real)
    requires Genuine(m) && -1.0 <= cw <= 1.0 && (down > 0.0 ==> -1.0 < cw < 1.0) && 1.0 + down != 0.0
    ensures Stable(Normal(m, PeakingRaw(cw, up, down))) <==> down > 0.0
  {
    StableIff(m, PeakingRaw(cw, up, down), 1.0, down);
  }

  lemma TimesPositive(x: real, y: real)
    requires x > 0.0 && y >= 0.0
    ensures x * y >= 0.0 && (y > 0.0 ==> x * y > 0.0)
  {
  }

  /** The shelves' denominators, with `c` the cosine for the low shelf and its negation for the high one. */
  lemma ShelfBounds(c: real, A: real, P: real, Q: real)
    requires -1.0 <= c <= 1.0 && A > 0.0
    requires P == (A + 1.0) + (A - 1.0) * c && Q == (A - 1.0) + (A + 1.0) * c
    ensures P >= 0.0 && (-1.0 < c < 1.0 ==> -P < Q < P)
  {
    TimesPositive(A, 1.0 + c);
    assert P + Q == 2.0 * (A * (1.0 + c)) && P - Q == 2.0 - 2.0 * c;
    assert P == (1.0 - c) + A * (1.0 + c);
  }

  lemma LowShelfStable(m: Math, cw: real, A: real, tsa: real)
    requires Genuine(m) && -1.0 <= cw <= 1.0 && (tsa > 0.0 ==> -1.0 < cw < 1.0) && A > 0.0
    requires LowShelfRaw(cw, A, tsa).d0 != 0.0
    ensures Stable(Normal(m, LowShelfRaw(cw, A, tsa))) <==> tsa > 0.0
  {
    var P := (A + 1.0) + (A - 1.0) * cw;
    ShelfBounds(cw, A, P, (A - 1.0) + (A + 1.0) * cw);
    StableIff(m, LowShelfRaw(cw, A, tsa), P, tsa);
  }

  lemma HighShelfStable(m: Math, cw: real, A: real, tsa: real)
    requires Genuine(m) && -1.0 <= cw <= 1.0 && (tsa > 0.0 ==> -1.0 < cw < 1.0) && A > 0.0
    requires HighShelfRaw(cw, A, tsa).d0 != 0.0
    ensures Stable(Normal(m, HighShelfRaw(cw, A, tsa))) <==> tsa > 0.0
  {
    var P := (A + 1.0) - (A - 1.0) * cw;
    ShelfBounds(-cw, A, P, (A - 1.0) - (A + 1.0) * cw);
    StableIff(m, HighShelfRaw(cw, A, tsa), P, tsa);
  }

  lemma TurnRange(pi: real, sr: real, fc: real, w0: real)
    requires pi > 0.0 && sr > 0.0 && w0 * sr == 2.0 * pi * fc && -0.5 * sr < fc <= 0.45 * sr
    ensures -pi < w0 < pi && (w0 > 0.0 <==> fc > 0.0)
  {
    assert 2.0 * pi * fc == 2.0 * (pi * fc);
    TimesMonotone(pi, -0.5 * sr, fc);
    TimesMonotone(pi, fc, 0.5 * sr);
    assert pi * (-0.5 * sr) == -0.5 * (pi * sr) && pi * (0.5 * sr) == 0.5 * (pi * sr);
    assert -pi * sr == -(pi * sr);
    Scale(w0, pi, sr, w0 * sr, pi * sr);
    Scale(-pi, w0, sr, -(pi * sr), w0 * sr);
    SignOfProduct(w0, sr);
    SignOfProduct(fc, pi);
    assert fc * pi == pi * fc;
  }

  lemma TimesMonotone(x: real, y: real, z: real)
    requires x > 0.0 && y < z
    ensures x * y < x * z
  {
    assert x * (z - y) > 0.0;
  }

  lemma SignOfProduct(x: real, y: real)
    requires y > 0.0
    ensures x * y > 0.0 <==> x > 0.0
    ensures x * y >= 0.0 <==> x >= 0.0
  {
    if x > 0.0 {
      TimesPositive(y, x);
    } else if x < 0.0 {
      TimesPositive(y, -x);
      assert -x * y == -(x * y);
    }
  }

  /** The sine of the angle of a frequency is positive. */
  predicate Rising(m: Math, sr: real, fc: real) {
    m.sin(Omega(m, sr, fc)) > 0.0
  }

  /** Between minus one half and 0.45 of the sample rate, that is the sign of the frequency. */
  lemma RisingIffPositive(m: Math, sr: real, fc: real)
    requires Genuine(m) && sr > 0.0 && -0.5 * sr < fc <= 0.45 * sr
    ensures Rising(m, sr, fc) <==> fc > 0.0
  {
    var w0 := Omega(m, sr, fc);
    assert w0 == 2.0 * m.pi * fc / sr;
    TurnRange(m.pi, sr, fc, w0);
  }

  lemma SameSign(m: Math, x: real, y: real)
    requires Genuine(m) && y > 0.0
    ensures m.quot(x, y) > 0.0 <==> x > 0.0
  {
    var z := m.quot(x, y);
    assert z * y == x;
    SignOfProduct(z, y);
  }

  /** The one sign that decides: that of the sine of the angle. */
  lemma Signs(m: Math, sr: real, fc: real, q: real, db: real)
    requires Genuine(m) && q > 0.0
    ensures var A, alpha := Gain(m, db), Alpha(m, sr, fc, q);
            && A > 0.0
            && (alpha > 0.0 <==> Rising(m, sr, fc)) && (m.quot(alpha, A) > 0.0 <==> Rising(m, sr, fc))
            && (2.0 * m.sqrt(A) * alpha > 0.0 <==> Rising(m, sr, fc))
  {
    var A, alpha := Gain(m, db), Alpha(m, sr, fc, q);
    SameSign(m, m.sin(Omega(m, sr, fc)), 2.0 * q);
    SameSign(m, alpha, A);
    assert m.sqrt(A) > 0.0;
    SignOfProduct(alpha, 2.0 * m.sqrt(A));
  }

  /** That sign decides: positive, the design is sound; otherwise it divides by zero or is unstable. */
  predicate Decides(m: Math, r: Raw, rising: bool) {
    (rising ==> r.d0 > 0.0) && (r.d0 != 0.0 ==> (Stable(Normal(m, r)) <==> rising))
  }

  /** The high-pass is stable exactly where the sine is positive, and so are the other three designs; this holds for
      any frequency whatever. */
  lemma HighpassIffRising(m: Math, sr: real, fc: real, q: real)
    requires Genuine(m) && q > 0.0
    ensures Decides(m, Highpass(m, sr, fc, q), Rising(m, sr, fc))
  {
    Signs(m, sr, fc, q, 0.0);
    var cw, alpha := m.cos(Omega(m, sr, fc)), Alpha(m, sr, fc, q);
    if 1.0 + alpha != 0.0 {
      HighpassStable(m, cw, alpha);
    }
  }

  lemma PeakingIffRising(m: Math, sr: real, fc: real, q: real, db: real)
    requires Genuine(m) && q > 0.0
    ensures Decides(m, Peaking(m, sr, fc, q, db), Rising(m, sr, fc))
  {
    Signs(m, sr, fc, q, db);
    var cw, A, alpha := m.cos(Omega(m, sr, fc)), Gain(m, db), Alpha(m, sr, fc, q);
    if 1.0 + m.quot(alpha, A) != 0.0 {
      PeakingStable(m, cw, alpha * A, m.quot(alpha, A));
    }
  }

  lemma Parts(m: Math, sr: real, fc: real, q: real, db: real) returns (cw: real, A: real, tsa: real)
    requires Genuine(m) && q > 0.0
    ensures A > 0.0 && -1.0 <= cw <= 1.0 && (Rising(m, sr, fc) ==> -1.0 < cw < 1.0)
    ensures tsa > 0.0 <==> Rising(m, sr, fc)
    ensures LowShelf(m, sr, fc, q, db) == LowShelfRaw(cw, A, tsa)
    ensures HighShelf(m, sr, fc, q, db) == HighShelfRaw(cw, A, tsa)
  {
    Signs(m, sr, fc, q, db);
    cw, A, tsa := m.cos(Omega(m, sr, fc)), Gain(m, db), 2.0 * m.sqrt(Gain(m, db)) * Alpha(m, sr, fc, q);
  }

  lemma LowShelfDecides(m: Math, r: Raw, cw: real, A: real, tsa: real, rising: bool)
    requires Genuine(m) && -1.0 <= cw <= 1.0 && (rising ==> -1.0 < cw < 1.0) && A > 0.0 && (tsa > 0.0 <==> rising)
    requires r == LowShelfRaw(cw, A, tsa)
    ensures Decides(m, r, rising)
  {
    ShelfBounds(cw, A, (A + 1.0) + (A - 1.0) * cw, (A - 1.0) + (A + 1.0) * cw);
    if r.d0 != 0.0 {
      LowShelfStable(m, cw, A, tsa);
    }
  }

  lemma LowShelfIffRising(m: Math, sr: real, fc: real, q: real, db: real)
    requires Genuine(m) && q > 0.0
    ensures Decides(m, LowShelf(m, sr, fc, q, db), Rising(m, sr, fc))
  {
    var cw, A, tsa := Parts(m, sr, fc, q, db);
    LowShelfDecides(m, LowShelf(m, sr, fc, q, db), cw, A, tsa, Rising(m, sr, fc));
  }

  lemma HighShelfDecides(m: Math, r: Raw, cw: real, A: real, tsa: real, rising: bool)
    requires Genuine(m) && -1.0 <= cw <= 1.0 && (rising ==> -1.0 < cw < 1.0) && A > 0.0 && (tsa > 0.0 <==> rising)
    requires r == HighShelfRaw(cw, A, tsa)
    ensures Decides(m, r, rising)
  {
    ShelfBounds(-cw, A, (A + 1.0) - (A - 1.0) * cw, (A - 1.0) - (A + 1.0) * cw);
    if r.d0 != 0.0 {
      HighShelfStable(m, cw, A, tsa);
    }
  }

  lemma HighShelfIffRising(m: Math, sr: real, fc: real, q: real, db: real)
    requires Genuine(m) && q > 0.0
    ensures Decides(m, HighShelf(m, sr, fc, q, db), Rising(m, sr, fc))
  {
    var cw, A, tsa := Parts(m, sr, fc, q, db);
    HighShelfDecides(m, HighShelf(m, sr, fc, q, db), cw, A, tsa, Rising(m, sr, fc));
  }

  /** At 0 Hz the low shelf's denominator is 2A: it divides, and the result is not stable. */
  lemma ZeroHertzUnstable(m: Math, sr: real, q: real, db: real)
    requires Genuine(m) && sr > 0.0 && q > 0.0
    ensures LowShelf(m, sr, 0.0, q, db).d0 > 0.0 && !Stable(Normal(m, LowShelf(m, sr, 0.0, q, db)))
  {
    assert Omega(m, sr, 0.0) == 0.0 / sr == 0.0;
    assert Alpha(m, sr, 0.0, q) == 0.0 / (2.0 * q) == 0.0;
    LowShelfIffRising(m, sr, 0.0, q, db);
  }

  // ------------------------------------------------------------ unity at 0 dB

  /** A biquad whose numerator is its denominator. */
  predicate Flat(r: Raw) {
    r.n0 == r.d0 && r.n1 == r.d1 && r.n2 == r.d2
  }

  /** After normalisation: the numerator is the denominator, and b0 is 1. */
  predicate Unity(c: Coef) {
    c.b0 == 1.0 && c.b1 == c.a1 && c.b2 == c.a2
  }

  lemma FlatNormal(m: Math, r: Raw)
    requires Genuine(m) && Flat(r) && r.d0 != 0.0
    ensures Unity(Normal(m, r))
  {
    SelfQuotient(r.d0);
  }

  lemma SelfQuotient(x: real)
    requires x != 0.0
    ensures x / x == 1.0
  {
  }

  lemma GainAtZero(m: Math)
    requires Genuine(m)
    ensures Gain(m, 0.0) == 1.0
  {
    assert m.quot(0.0, 40.0) == 0.0 / 40.0 == 0.0;
  }

  /** Each band is an exact unity at 0 dB, whatever its frequency and Q. */
  lemma PeakingUnity(m: Math, sr: real, fc: real, q: real)
    requires Genuine(m) && Peaking(m, sr, fc, q, 0.0).d0 != 0.0
    ensures Unity(Normal(m, Peaking(m, sr, fc, q, 0.0)))
  {
    GainAtZero(m);
    assert m.quot(Alpha(m, sr, fc, q), 1.0) == Alpha(m, sr, fc, q);
    FlatNormal(m, Peaking(m, sr, fc, q, 0.0));
  }

  lemma LowShelfUnity(m: Math, sr: real, fc: real, q: real)
    requires Genuine(m) && LowShelf(m, sr, fc, q, 0.0).d0 != 0.0
    ensures Unity(Normal(m, LowShelf(m, sr, fc, q, 0.0)))
  {
    GainAtZero(m);
    FlatNormal(m, LowShelf(m, sr, fc, q, 0.0));
  }

  lemma HighShelfUnity(m: Math, sr: real, fc: real, q: real)
    requires Genuine(m) && HighShelf(m, sr, fc, q, 0.0).d0 != 0.0
    ensures Unity(Normal(m, HighShelf(m, sr, fc, q, 0.0)))
  {
    GainAtZero(m);
    FlatNormal(m, HighShelf(m, sr, fc, q, 0.0));
  }
}
