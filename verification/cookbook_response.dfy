/** What the four designs do to frequencies: their gains at both ends of the band and at the design frequency, and the
    width their Q gives them. */
module CookbookResponse {
  import opened Cookbook

  // ------------------------------------------------------------ the response of a section

  datatype Complex = Complex(re: real, im: real)

  /** x0 z + x1 + x2 / z at the point z of the unit circle with cosine `c` and sine `s`. */
  function At(x0: real, x1: real, x2: real, c: real, s: real): Complex {
    Complex((x0 + x2) * c + x1, (x0 - x2) * s)
  }

  function Upper(f: Coef, c: real, s: real): Complex {
    At(f.b0, f.b1, f.b2, c, s)
  }

  function Lower(f: Coef, c: real, s: real): Complex {
    At(1.0, f.a1, f.a2, c, s)
  }

  function Times(x: Complex, k: real): Complex {
    Complex(x.re * k, x.im * k)
  }

  function Power(x: Complex): real {
    x.re * x.re + x.im * x.im
  }

  /** The section multiplies a constant by `g`. */
  predicate ConstantGain(f: Coef, g: real) {
    f.b0 + f.b1 + f.b2 == g * (1.0 + f.a1 + f.a2)
  }

  /** The section multiplies a signal that alternates with every sample by `g`. */
  predicate AlternatingGain(f: Coef, g: real) {
    f.b0 - f.b1 + f.b2 == g * (1.0 - f.a1 + f.a2)
  }

  /** The section multiplies the power of the frequency with cosine `c` and sine `s` by `g`. */
  predicate PowerGain(f: Coef, c: real, s: real, g: real) {
    Power(Upper(f, c, s)) == g * Power(Lower(f, c, s))
  }

  /** The section multiplies that frequency by the complex number `re` + j `im`. */
  predicate ComplexGain(f: Coef, c: real, s: real, re: real, im: real) {
    var u, l := Upper(f, c, s), Lower(f, c, s);
    u.re == re * l.re - im * l.im && u.im == re * l.im + im * l.re
  }

  // ------------------------------------------------------------ the same before normalisation

  function RawUpper(r: Raw, c: real, s: real): Complex {
    At(r.n0, r.n1, r.n2, c, s)
  }

  function RawLower(r: Raw, c: real, s: real): Complex {
    At(r.d0, r.d1, r.d2, c, s)
  }

  /** The coefficients of a section are those of the raw design times `k`. */
  predicate Scaled(f: Coef, r: Raw, k: real) {
    && f.b0 == r.n0 * k && f.b1 == r.n1 * k && f.b2 == r.n2 * k
    && 1.0 == r.d0 * k && f.a1 == r.d1 * k && f.a2 == r.d2 * k
  }

  lemma NormalScales(m: Math, r: Raw) returns (k: real)
    requires Genuine(m) && r.d0 != 0.0
    ensures Scaled(Normal(m, r), r, k)
  {
    k := 1.0 / r.d0;
    Quotient(m, r.n0, r.d0, k);
    Quotient(m, r.n1, r.d0, k);
    Quotient(m, r.n2, r.d0, k);
    Quotient(m, r.d1, r.d0, k);
    Quotient(m, r.d2, r.d0, k);
  }

  lemma Quotient(m: Math, x: real, d: real, k: real)
    requires Genuine(m) && d != 0.0 && k == 1.0 / d
    ensures m.quot(x, d) == x * k && d * k == 1.0
  {
    Inverse(x, d, k);
  }

  lemma Inverse(x: real, d: real, k: real)
    requires d != 0.0 && k == 1.0 / d
    ensures x / d == x * k && d * k == 1.0
  {
  }

  lemma Distribute(a: real, b: real, c: real, k: real)
    ensures (a + b + c) * k == a * k + b * k + c * k
    ensures (a - b + c) * k == a * k - b * k + c * k
    ensures (a + b) * k == a * k + b * k && (a - b) * k == a * k - b * k
  {
  }

  lemma Swap(x: real, y: real, k: real)
    ensures x * k * y == x * y * k
  {
  }

  /** Scaling leaves the gains of a design as they are. */
  lemma EndsScale(f: Coef, r: Raw, k: real, low: real, high: real)
    requires Scaled(f, r, k)
    requires r.n0 + r.n1 + r.n2 == low * (r.d0 + r.d1 + r.d2)
    requires r.n0 - r.n1 + r.n2 == high * (r.d0 - r.d1 + r.d2)
    ensures ConstantGain(f, low) && AlternatingGain(f, high)
  {
    Distribute(r.n0, r.n1, r.n2, k);
    Distribute(r.d0, r.d1, r.d2, k);
    Swap(low, r.d0 + r.d1 + r.d2, k);
    Swap(high, r.d0 - r.d1 + r.d2, k);
    Group(low, r.d0 + r.d1 + r.d2, k);
    Group(high, r.d0 - r.d1 + r.d2, k);
  }

  lemma Group(x: real, y: real, k: real)
    ensures x * y * k == x * (y * k)
  {
  }

  lemma ScaledParts(f: Coef, r: Raw, k: real, c: real, s: real)
    requires Scaled(f, r, k)
    ensures Upper(f, c, s) == Times(RawUpper(r, c, s), k)
    ensures Lower(f, c, s) == Times(RawLower(r, c, s), k)
  {
    ScaledPart(r.n0, r.n1, r.n2, f.b0, f.b1, f.b2, k, c, s);
    OnePart(r.d0, r.d1, r.d2, f.a1, f.a2, k, c, s);
  }

  lemma OnePart(d0: real, d1: real, d2: real, a1: real, a2: real, k: real, c: real, s: real)
    requires 1.0 == d0 * k && a1 == d1 * k && a2 == d2 * k
    ensures At(1.0, a1, a2, c, s) == Times(At(d0, d1, d2, c, s), k)
  {
    ScaledPart(d0, d1, d2, 1.0, a1, a2, k, c, s);
  }

  lemma ScaledPart(n0: real, n1: real, n2: real, b0: real, b1: real, b2: real, k: real, c: real, s: real)
    requires b0 == n0 * k && b1 == n1 * k && b2 == n2 * k
    ensures At(b0, b1, b2, c, s) == Times(At(n0, n1, n2, c, s), k)
  {
    Distribute(n0, n2, 0.0, k);
    assert b0 + b2 == (n0 + n2) * k && b0 - b2 == (n0 - n2) * k;
    Swap(n0 + n2, c, k);
    Swap(n0 - n2, s, k);
    Distribute((n0 + n2) * c, n1, 0.0, k);
  }

  /** A number that turns the raw denominator into the raw numerator turns the one of the section into the other. */
  lemma ComplexScales(f: Coef, r: Raw, k: real, c: real, s: real, re: real, im: real)
    requires Scaled(f, r, k)
    requires RawUpper(r, c, s).re == re * RawLower(r, c, s).re - im * RawLower(r, c, s).im
    requires RawUpper(r, c, s).im == re * RawLower(r, c, s).im + im * RawLower(r, c, s).re
    ensures ComplexGain(f, c, s, re, im)
  {
    ScaledParts(f, r, k, c, s);
    TurnTimes(RawUpper(r, c, s), RawLower(r, c, s), Upper(f, c, s), Lower(f, c, s), re, im, k);
  }

  lemma TurnTimes(u: Complex, l: Complex, v: Complex, n: Complex, re: real, im: real, k: real)
    requires u.re == re * l.re - im * l.im && u.im == re * l.im + im * l.re
    requires v == Times(u, k) && n == Times(l, k)
    ensures v.re == re * n.re - im * n.im && v.im == re * n.im + im * n.re
  {
    Distribute(re * l.re, im * l.im, 0.0, k);
    Distribute(re * l.im, im * l.re, 0.0, k);
    Group(re, l.re, k);
    Group(im, l.im, k);
    Group(re, l.im, k);
    Group(im, l.re, k);
  }

  lemma PowerScales(f: Coef, r: Raw, k: real, c: real, s: real, g: real)
    requires Scaled(f, r, k)
    requires Power(RawUpper(r, c, s)) == g * Power(RawLower(r, c, s))
    ensures PowerGain(f, c, s, g)
  {
    ScaledParts(f, r, k, c, s);
    PowerTimes(RawUpper(r, c, s), k);
    PowerTimes(RawLower(r, c, s), k);
    Group(g, Power(RawLower(r, c, s)), k * k);
  }

  lemma PowerTimes(x: Complex, k: real)
    ensures Power(Times(x, k)) == Power(x) * (k * k)
  {
    SquareTimes(x.re, k);
    SquareTimes(x.im, k);
    Distribute(x.re * x.re, x.im * x.im, 0.0, k * k);
  }

  lemma SquareTimes(x: real, k: real)
    ensures (x * k) * (x * k) == x * x * (k * k)
  {
  }

  // ------------------------------------------------------------ the four shapes

  /** A high-pass: nothing of a constant passes, with both zeros there, everything of the highest frequency does, and
      the cutoff frequency is amplified by `q` and turned by a quarter. */
  predicate IsHighpass(f: Coef, c: real, s: real, q: real) {
    ConstantGain(f, 0.0) && f.b0 == f.b2 && AlternatingGain(f, 1.0) && ComplexGain(f, c, s, 0.0, q)
  }

  /** A peak: both ends of the band are left alone, the centre is amplified by `g`, and where the cosine is off by
      s / 2q times the sine, at the edges of the band, the power is: half as many decibels. */
  ghost predicate IsPeak(f: Coef, c: real, s: real, q: real, g: real) {
    ConstantGain(f, 1.0) && AlternatingGain(f, 1.0) && ComplexGain(f, c, s, g, 0.0) && IsBand(f, c, s, q, g)
  }

  ghost predicate IsBand(f: Coef, c: real, s: real, q: real, g: real) {
    forall x, y :: IsEdge(c, s, q, x, y) ==> PowerGain(f, x, y, g)
  }

  predicate IsEdge(c: real, s: real, q: real, x: real, y: real) {
    (x - c) * (2.0 * q) == y * s || (x - c) * (2.0 * q) == -(y * s)
  }

  /** The corner of a shelf of gain `A` squared: there the amplitude is amplified by A, and how far the frequency is
      turned depends on q. */
  predicate IsCorner(f: Coef, c: real, s: real, q: real, A: real, root: real, turn: real) {
    CornerAt(Upper(f, c, s), Lower(f, c, s), q, A, root, turn)
  }

  predicate CornerAt(u: Complex, l: Complex, q: real, A: real, root: real, turn: real) {
    u.re == -A * l.re && u.im == A * l.im && (A - 1.0) * q * l.im == turn * root * l.re
  }

  /** A low shelf amplifies a constant by g, the square of A, and leaves the highest frequency alone. */
  predicate IsLowShelf(f: Coef, c: real, s: real, q: real, A: real, g: real, root: real) {
    ConstantGain(f, g) && AlternatingGain(f, 1.0) && IsCorner(f, c, s, q, A, root, -1.0)
  }

  /** A high shelf does the reverse. */
  predicate IsHighShelf(f: Coef, c: real, s: real, q: real, A: real, g: real, root: real) {
    ConstantGain(f, 1.0) && AlternatingGain(f, g) && IsCorner(f, c, s, q, A, root, 1.0)
  }

  // ------------------------------------------------------------ the raw designs

  lemma HighpassRawIs(c: real, s: real, alpha: real, q: real)
    requires c * c + s * s == 1.0 && 2.0 * q * alpha == s
    ensures var r := HighpassRaw(c, alpha);
            && r.n0 + r.n1 + r.n2 == 0.0 && r.n0 == r.n2
            && r.n0 - r.n1 + r.n2 == r.d0 - r.d1 + r.d2
            && RawUpper(r, c, s) == Complex(-(s * s), 0.0)
            && RawLower(r, c, s) == Complex(0.0, 2.0 * alpha * s)
            && q * (2.0 * alpha * s) == s * s
  {
    Group(2.0 * q, alpha, s);
  }

  lemma PeakingRawIs(c: real, s: real, up: real, down: real)
    ensures var r := PeakingRaw(c, up, down);
            && r.n0 + r.n1 + r.n2 == r.d0 + r.d1 + r.d2
            && r.n0 - r.n1 + r.n2 == r.d0 - r.d1 + r.d2
            && RawUpper(r, c, s) == Complex(0.0, 2.0 * up * s)
            && RawLower(r, c, s) == Complex(0.0, 2.0 * down * s)
  {
  }

  lemma PeakingRawAt(c: real, up: real, down: real, x: real, y: real)
    ensures var r := PeakingRaw(c, up, down);
            && RawUpper(r, x, y) == Complex(2.0 * (x - c), 2.0 * up * y)
            && RawLower(r, x, y) == Complex(2.0 * (x - c), 2.0 * down * y)
  {
  }

  /** The four sums the shelves are made of. */
  lemma Corners(c: real, s: real, A: real, E: real, F: real, G: real, H: real)
    requires c * c + s * s == 1.0
    requires E == (A + 1.0) - (A - 1.0) * c && F == (A + 1.0) + (A - 1.0) * c
    requires G == (A - 1.0) - (A + 1.0) * c && H == (A - 1.0) + (A + 1.0) * c
    ensures E + G == A * (F - H) && F + H == A * (E - G)
    ensures E * c + G == (A - 1.0) * (s * s) && F * c - H == -((A - 1.0) * (s * s))
  {
    var u, w := A * c, A * (c * c);
    assert E == A + 1.0 - u + c && F == A + 1.0 + u - c && G == A - 1.0 - u - c && H == A - 1.0 + u + c;
    assert A * (F - H) == A * (2.0 - 2.0 * c) == 2.0 * A - 2.0 * u;
    assert A * (E - G) == A * (2.0 + 2.0 * c) == 2.0 * A + 2.0 * u;
    assert u * c == w && c * c == 1.0 - s * s && w == A - A * (s * s);
    assert E * c == A * c + c - u * c + c * c && F * c == A * c + c + u * c - c * c;
    assert (A - 1.0) * (s * s) == A * (s * s) - s * s;
  }

  lemma Twice(A: real, E: real, t: real)
    ensures A * (E + t) + A * (E - t) == 2.0 * (A * E) && A * (E + t) - A * (E - t) == 2.0 * (A * t)
  {
  }

  /** A shelf whose numerator is A times E and G, and whose denominator is F and H. */
  lemma ShelfEnds(r: Raw, A: real, E: real, F: real, G: real, H: real, t: real)
    requires r == Raw(A * (E + t), 2.0 * (A * G), A * (E - t), F + t, -2.0 * H, F - t)
    requires E + G == A * (F - H) && F + H == A * (E - G)
    ensures r.n0 + r.n1 + r.n2 == A * A * (r.d0 + r.d1 + r.d2)
    ensures r.n0 - r.n1 + r.n2 == r.d0 - r.d1 + r.d2
  {
    Twice(A, E, t);
    Distribute(E, 0.0, G, A);
    Distribute(E, G, 0.0, A);
    assert r.n0 + r.n1 + r.n2 == 2.0 * (A * (E + G));
    assert r.n0 - r.n1 + r.n2 == 2.0 * (A * (E - G));
    Group(A, A, F - H);
    assert r.d0 + r.d1 + r.d2 == 2.0 * (F - H) && r.d0 - r.d1 + r.d2 == 2.0 * (F + H);
    Doubled(A * A, F - H);
  }

  lemma Doubled(x: real, y: real)
    ensures x * (2.0 * y) == 2.0 * (x * y)
  {
  }

  lemma ShelfCorner(r: Raw, A: real, E: real, F: real, G: real, H: real, t: real, c: real, s: real, e: real, y: real)
    requires r == Raw(A * (E + t), 2.0 * (A * G), A * (E - t), F + t, -2.0 * H, F - t)
    requires E * c + G == e && F * c - H == -e && y == 2.0 * t * s
    ensures RawUpper(r, c, s) == Complex(2.0 * (A * e), A * y)
    ensures RawLower(r, c, s) == Complex(-(2.0 * e), y)
  {
    Twice(A, E, t);
    assert 2.0 * (A * E) * c + 2.0 * (A * G) == 2.0 * (A * e) by {
      Group(A, E, c);
      Distribute(E * c, G, 0.0, A);
    }
    assert 2.0 * (A * t) * s == A * y;
  }

  lemma LowShape(c: real, A: real, t: real, E: real, F: real, G: real, H: real)
    requires E == (A + 1.0) - (A - 1.0) * c && F == (A + 1.0) + (A - 1.0) * c
    requires G == (A - 1.0) - (A + 1.0) * c && H == (A - 1.0) + (A + 1.0) * c
    ensures LowShelfRaw(c, A, t) == Raw(A * (E + t), 2.0 * (A * G), A * (E - t), F + t, -2.0 * H, F - t)
    ensures HighShelfRaw(c, A, t) == Raw(A * (F + t), -(2.0 * (A * H)), A * (F - t), E + t, 2.0 * G, E - t)
  {
    Group(2.0, A, G);
    Group(2.0, A, H);
  }

  lemma ShelfParts(c: real, s: real, A: real, t: real) returns (E: real, F: real, G: real, H: real)
    requires c * c + s * s == 1.0
    ensures LowShelfRaw(c, A, t) == Raw(A * (E + t), 2.0 * (A * G), A * (E - t), F + t, -2.0 * H, F - t)
    ensures HighShelfRaw(c, A, t) == Raw(A * (F + t), -(2.0 * (A * H)), A * (F - t), E + t, 2.0 * G, E - t)
    ensures E + G == A * (F - H) && F + H == A * (E - G)
    ensures E * c + G == (A - 1.0) * (s * s) && F * c - H == -((A - 1.0) * (s * s))
  {
    E, F := (A + 1.0) - (A - 1.0) * c, (A + 1.0) + (A - 1.0) * c;
    G, H := (A - 1.0) - (A + 1.0) * c, (A - 1.0) + (A + 1.0) * c;
    LowShape(c, A, t, E, F, G, H);
    Corners(c, s, A, E, F, G, H);
  }

  lemma HighEnds(r: Raw, A: real, E: real, F: real, G: real, H: real, t: real)
    requires r == Raw(A * (F + t), -(2.0 * (A * H)), A * (F - t), E + t, 2.0 * G, E - t)
    requires E + G == A * (F - H) && F + H == A * (E - G)
    ensures r.n0 + r.n1 + r.n2 == r.d0 + r.d1 + r.d2
    ensures r.n0 - r.n1 + r.n2 == A * A * (r.d0 - r.d1 + r.d2)
  {
    Twice(A, F, t);
    Distribute(F, H, 0.0, A);
    assert r.n0 + r.n1 + r.n2 == 2.0 * (A * (F - H)) && r.n0 - r.n1 + r.n2 == 2.0 * (A * (F + H));
    Group(A, A, E - G);
    assert r.d0 - r.d1 + r.d2 == 2.0 * (E - G);
    Doubled(A * A, E - G);
  }

  lemma HighCorner(r: Raw, A: real, E: real, F: real, G: real, H: real, t: real, c: real, s: real, e: real, y: real)
    requires r == Raw(A * (F + t), -(2.0 * (A * H)), A * (F - t), E + t, 2.0 * G, E - t)
    requires E * c + G == e && F * c - H == -e && y == 2.0 * t * s
    ensures RawUpper(r, c, s) == Complex(-(2.0 * (A * e)), A * y)
    ensures RawLower(r, c, s) == Complex(2.0 * e, y)
  {
    Twice(A, F, t);
    assert 2.0 * (A * F) * c - 2.0 * (A * H) == -(2.0 * (A * e)) by {
      Group(A, F, c);
      Distribute(F * c, H, 0.0, A);
    }
    assert 2.0 * (A * t) * s == A * y;
  }

  // ------------------------------------------------------------ the designs

  lemma CornerTimes(u: Complex, l: Complex, q: real, A: real, root: real, turn: real, k: real)
    requires CornerAt(u, l, q, A, root, turn)
    ensures CornerAt(Times(u, k), Times(l, k), q, A, root, turn)
  {
    Group(-A, l.re, k);
    Group(A, l.im, k);
    Group((A - 1.0) * q, l.im, k);
    Group(turn * root, l.re, k);
  }

  lemma CornerScales(f: Coef, r: Raw, k: real, c: real, s: real, q: real, A: real, root: real, turn: real)
    requires Scaled(f, r, k)
    requires CornerAt(RawUpper(r, c, s), RawLower(r, c, s), q, A, root, turn)
    ensures IsCorner(f, c, s, q, A, root, turn)
  {
    ScaledParts(f, r, k, c, s);
    CornerTimes(RawUpper(r, c, s), RawLower(r, c, s), q, A, root, turn, k);
  }

  /** The corner's angle: `t` is the root of the gain times the sine over q. */
  lemma Turned(A: real, q: real, t: real, s: real, root: real, e: real, y: real)
    requires t * q == root * s && e == (A - 1.0) * (s * s) && y == 2.0 * t * s
    ensures (A - 1.0) * q * y == root * (2.0 * e)
  {
    var b := A - 1.0;
    assert b * q * (2.0 * t * s) == 2.0 * (b * ((t * q) * s));
    assert root * (2.0 * (b * (s * s))) == 2.0 * (b * ((root * s) * s));
  }

  lemma LowCornerAt(A: real, e: real, y: real, q: real, root: real)
    requires (A - 1.0) * q * y == root * (2.0 * e)
    ensures CornerAt(Complex(2.0 * (A * e), A * y), Complex(-(2.0 * e), y), q, A, root, -1.0)
  {
    Doubled(A, e);
    assert -A * -(2.0 * e) == A * (2.0 * e);
    assert -1.0 * root * -(2.0 * e) == root * (2.0 * e);
  }

  lemma HighCornerAt(A: real, e: real, y: real, q: real, root: real)
    requires (A - 1.0) * q * y == root * (2.0 * e)
    ensures CornerAt(Complex(-(2.0 * (A * e)), A * y), Complex(2.0 * e, y), q, A, root, 1.0)
  {
    Doubled(A, e);
    assert -A * (2.0 * e) == -(A * (2.0 * e));
  }

  lemma LowShelfFrom(f: Coef, r: Raw, k: real, A: real, E: real, F: real, G: real, H: real, t: real,
                     c: real, s: real, q: real, g: real, root: real, e: real, y: real)
    requires Scaled(f, r, k) && g == A * A
    requires r == Raw(A * (E + t), 2.0 * (A * G), A * (E - t), F + t, -2.0 * H, F - t)
    requires E + G == A * (F - H) && F + H == A * (E - G)
    requires E * c + G == e && F * c - H == -e && y == 2.0 * t * s && (A - 1.0) * q * y == root * (2.0 * e)
    ensures IsLowShelf(f, c, s, q, A, g, root)
  {
    ShelfEnds(r, A, E, F, G, H, t);
    EndsScale(f, r, k, g, 1.0);
    ShelfCorner(r, A, E, F, G, H, t, c, s, e, y);
    LowCornerAt(A, e, y, q, root);
    CornerScales(f, r, k, c, s, q, A, root, -1.0);
  }

  lemma HighShelfFrom(f: Coef, r: Raw, k: real, A: real, E: real, F: real, G: real, H: real, t: real,
                      c: real, s: real, q: real, g: real, root: real, e: real, y: real)
    requires Scaled(f, r, k) && g == A * A
    requires r == Raw(A * (F + t), -(2.0 * (A * H)), A * (F - t), E + t, 2.0 * G, E - t)
    requires E + G == A * (F - H) && F + H == A * (E - G)
    requires E * c + G == e && F * c - H == -e && y == 2.0 * t * s && (A - 1.0) * q * y == root * (2.0 * e)
    ensures IsHighShelf(f, c, s, q, A, g, root)
  {
    HighEnds(r, A, E, F, G, H, t);
    EndsScale(f, r, k, 1.0, g);
    HighCorner(r, A, E, F, G, H, t, c, s, e, y);
    HighCornerAt(A, e, y, q, root);
    CornerScales(f, r, k, c, s, q, A, root, 1.0);
  }

  lemma HighpassFrom(f: Coef, r: Raw, k: real, c: real, s: real, alpha: real, q: real)
    requires Scaled(f, r, k) && r == HighpassRaw(c, alpha)
    requires c * c + s * s == 1.0 && 2.0 * q * alpha == s
    ensures IsHighpass(f, c, s, q)
  {
    HighpassRawIs(c, s, alpha, q);
    EndsScale(f, r, k, 0.0, 1.0);
    ComplexScales(f, r, k, c, s, 0.0, q);
  }

  lemma PeakFrom(f: Coef, r: Raw, k: real, c: real, s: real, up: real, down: real, alpha: real, q: real, A: real,
                 g: real)
    requires Scaled(f, r, k) && r == PeakingRaw(c, up, down) && g == A * A
    requires up == alpha * A && down * A == alpha && 2.0 * q * alpha == s && q > 0.0
    ensures IsPeak(f, c, s, q, g)
  {
    PeakingRawIs(c, s, up, down);
    EndsScale(f, r, k, 1.0, 1.0);
    CentreGain(up, down, alpha, A, s);
    ComplexScales(f, r, k, c, s, g, 0.0);
    forall x, y | IsEdge(c, s, q, x, y) ensures PowerGain(f, x, y, g) {
      PeakEdge(r, c, s, up, down, alpha, q, A, x, y);
      PowerScales(f, r, k, x, y, g);
    }
  }

  lemma PeakEdge(r: Raw, c: real, s: real, up: real, down: real, alpha: real, q: real, A: real, x: real, y: real)
    requires r == PeakingRaw(c, up, down) && IsEdge(c, s, q, x, y)
    requires up == alpha * A && down * A == alpha && 2.0 * q * alpha == s && q > 0.0
    ensures Power(RawUpper(r, x, y)) == A * A * Power(RawLower(r, x, y))
  {
    PeakingRawAt(c, up, down, x, y);
    EdgeOffset(c, s, q, alpha, x, y);
    CentreGain(up, down, alpha, A, y);
    EdgeGain(2.0 * (x - c), 2.0 * up * y, 2.0 * down * y, 2.0 * alpha * y, A);
  }

  lemma CentreGain(up: real, down: real, alpha: real, A: real, s: real)
    requires up == alpha * A && down * A == alpha
    ensures 2.0 * up * s == A * A * (2.0 * down * s)
    ensures 2.0 * up * s == (2.0 * alpha * s) * A && (2.0 * down * s) * A == 2.0 * alpha * s
  {
    assert up == down * A * A;
    assert A * A * (2.0 * down * s) == 2.0 * ((down * A * A) * s);
    Swap(2.0 * alpha, s, A);
    Swap(2.0 * down, s, A);
  }

  lemma EdgeOffset(c: real, s: real, q: real, alpha: real, x: real, y: real)
    requires IsEdge(c, s, q, x, y) && 2.0 * q * alpha == s && q > 0.0
    ensures x - c == alpha * y || x - c == -(alpha * y)
  {
    assert (x - c) * (2.0 * q) == (alpha * y) * (2.0 * q) || (x - c) * (2.0 * q) == -(alpha * y) * (2.0 * q) by {
      assert y * s == (alpha * y) * (2.0 * q);
    }
    Cancel(x - c, alpha * y, 2.0 * q);
    Cancel(x - c, -(alpha * y), 2.0 * q);
  }

  lemma Cancel(x: real, y: real, z: real)
    requires z > 0.0
    ensures x * z == y * z ==> x == y
  {
    if x * z == y * z {
      assert (x - y) * z == 0.0;
    }
  }

  /** Numerator h + j gA and denominator h + j g/A with h = g or h = -g: the powers differ by A squared. */
  lemma EdgeGain(h: real, above: real, below: real, g: real, A: real)
    requires (h == g || h == -g) && above == g * A && below * A == g
    ensures h * h + above * above == A * A * (h * h + below * below)
  {
    var p := g * g;
    assert h * h == p && above * above == A * A * p by { SquareTimes(g, A); }
    assert (below * A) * (below * A) == p;
    SquareTimes(below, A);
    Distribute(p, below * below, 0.0, A * A);
  }

  // ------------------------------------------------------------ the driver's four functions

  /** `w` is the angle by which the frequency `fc` advances per sample, on the unit circle. */
  ghost predicate Advances(m: Math, sr: real, fc: real, w: real) {
    w * sr == 2.0 * m.pi * fc && m.cos(w) * m.cos(w) + m.sin(w) * m.sin(w) == 1.0
  }

  lemma OmegaIs(m: Math, sr: real, fc: real, w: real)
    requires Genuine(m) && sr > 0.0 && Advances(m, sr, fc, w)
    ensures Omega(m, sr, fc) == w
  {
    var x := 2.0 * m.pi * fc;
    Divides(m, x, sr);
    Cancel(m.quot(x, sr), w, sr);
  }

  lemma Divides(m: Math, x: real, d: real)
    requires Genuine(m) && d > 0.0
    ensures m.quot(x, d) * d == x && m.quot(x, d) == x / d
  {
    assert x / d * d == x;
  }

  lemma AlphaIs(m: Math, sr: real, fc: real, q: real, w: real) returns (alpha: real)
    requires Genuine(m) && q > 0.0 && Omega(m, sr, fc) == w
    ensures alpha == Alpha(m, sr, fc, q) && 2.0 * q * alpha == m.sin(w)
  {
    alpha := Alpha(m, sr, fc, q);
    Divides(m, m.sin(w), 2.0 * q);
  }

  lemma GainIs(m: Math, db: real) returns (A: real)
    requires Genuine(m)
    ensures A == Gain(m, db) == m.pow10(db / 40.0) && A > 0.0
  {
    A := Gain(m, db);
    Divides(m, db, 40.0);
  }

  /** bq_highpass. */
  lemma HighpassResponse(m: Math, sr: real, fc: real, q: real, w: real)
    requires Genuine(m) && sr > 0.0 && q > 0.0 && Advances(m, sr, fc, w)
    requires Highpass(m, sr, fc, q).d0 != 0.0
    ensures IsHighpass(Normal(m, Highpass(m, sr, fc, q)), m.cos(w), m.sin(w), q)
  {
    OmegaIs(m, sr, fc, w);
    var alpha := AlphaIs(m, sr, fc, q, w);
    HighpassNormal(m, Highpass(m, sr, fc, q), m.cos(w), m.sin(w), alpha, q);
  }

  lemma HighpassNormal(m: Math, r: Raw, c: real, s: real, alpha: real, q: real)
    requires Genuine(m) && r.d0 != 0.0
    requires r == HighpassRaw(c, alpha) && c * c + s * s == 1.0 && 2.0 * q * alpha == s
    ensures IsHighpass(Normal(m, r), c, s, q)
  {
    var k := NormalScales(m, r);
    HighpassFrom(Normal(m, r), r, k, c, s, alpha, q);
  }

  lemma PeakingIs(m: Math, sr: real, fc: real, q: real, db: real, w: real, A: real, alpha: real)
    requires Omega(m, sr, fc) == w && A == Gain(m, db) && alpha == Alpha(m, sr, fc, q)
    ensures Peaking(m, sr, fc, q, db) == PeakingRaw(m.cos(w), alpha * A, m.quot(alpha, A))
  {
  }

  /** What the peak is designed from. */
  lemma PeakingDesign(m: Math, sr: real, fc: real, q: real, db: real, w: real)
    requires Genuine(m) && sr > 0.0 && q > 0.0 && Advances(m, sr, fc, w)
    ensures PeakOf(Peaking(m, sr, fc, q, db), m.cos(w), m.sin(w), q, m.pow10(db / 40.0))
  {
    OmegaIs(m, sr, fc, w);
    var alpha := AlphaIs(m, sr, fc, q, w);
    var A := GainIs(m, db);
    PeakingIs(m, sr, fc, q, db, w, A, alpha);
    Divides(m, alpha, A);
    PeakOfParts(Peaking(m, sr, fc, q, db), m.cos(w), m.sin(w), q, A, alpha * A, m.quot(alpha, A), alpha);
  }

  ghost predicate PeakOf(r: Raw, c: real, s: real, q: real, A: real) {
    exists up, down, alpha :: PeakParts(r, c, s, q, A, up, down, alpha)
  }

  predicate PeakParts(r: Raw, c: real, s: real, q: real, A: real, up: real, down: real, alpha: real) {
    r == PeakingRaw(c, up, down) && up == alpha * A && down * A == alpha && 2.0 * q * alpha == s
  }

  lemma PeakOfParts(r: Raw, c: real, s: real, q: real, A: real, up: real, down: real, alpha: real)
    requires PeakParts(r, c, s, q, A, up, down, alpha)
    ensures PeakOf(r, c, s, q, A)
  {
  }

  lemma PeakNormal(m: Math, r: Raw, c: real, s: real, q: real, A: real, g: real)
    requires Genuine(m) && r.d0 != 0.0 && q > 0.0 && PeakOf(r, c, s, q, A) && g == A * A
    ensures IsPeak(Normal(m, r), c, s, q, g)
  {
    var up, down, alpha :| PeakParts(r, c, s, q, A, up, down, alpha);
    var k := NormalScales(m, r);
    PeakFrom(Normal(m, r), r, k, c, s, up, down, alpha, q, A, g);
  }

  /** bq_peaking: twice the decibels of A at the centre, those of A at the edges. */
  lemma PeakingResponse(m: Math, sr: real, fc: real, q: real, db: real, w: real, A: real, g: real)
    requires A == m.pow10(db / 40.0) && g == A * A
    requires Genuine(m) && sr > 0.0 && q > 0.0 && Advances(m, sr, fc, w)
    requires Peaking(m, sr, fc, q, db).d0 != 0.0
    ensures IsPeak(Normal(m, Peaking(m, sr, fc, q, db)), m.cos(w), m.sin(w), q, g)
  {
    PeakingDesign(m, sr, fc, q, db, w);
    PeakNormal(m, Peaking(m, sr, fc, q, db), m.cos(w), m.sin(w), q, A, g);
  }

  /** The shelves' tsa: times q, the root of the gain times the sine. */
  lemma TsaIs(root: real, alpha: real, q: real, s: real) returns (t: real)
    requires 2.0 * q * alpha == s
    ensures t == 2.0 * root * alpha && t * q == root * s
  {
    t := 2.0 * root * alpha;
    assert root * s == root * (2.0 * q * alpha);
  }

  lemma LowShelfNormal(m: Math, r: Raw, c: real, s: real, A: real, g: real, t: real, q: real, root: real)
    requires Genuine(m) && r.d0 != 0.0 && g == A * A
    requires r == LowShelfRaw(c, A, t) && c * c + s * s == 1.0 && t * q == root * s
    ensures IsLowShelf(Normal(m, r), c, s, q, A, g, root)
  {
    var k := NormalScales(m, r);
    var E, F, G, H := ShelfParts(c, s, A, t);
    var e, y := (A - 1.0) * (s * s), 2.0 * t * s;
    Turned(A, q, t, s, root, e, y);
    LowShelfFrom(Normal(m, r), r, k, A, E, F, G, H, t, c, s, q, g, root, e, y);
  }

  lemma HighShelfNormal(m: Math, r: Raw, c: real, s: real, A: real, g: real, t: real, q: real, root: real)
    requires Genuine(m) && r.d0 != 0.0 && g == A * A
    requires r == HighShelfRaw(c, A, t) && c * c + s * s == 1.0 && t * q == root * s
    ensures IsHighShelf(Normal(m, r), c, s, q, A, g, root)
  {
    var k := NormalScales(m, r);
    var E, F, G, H := ShelfParts(c, s, A, t);
    var e, y := (A - 1.0) * (s * s), 2.0 * t * s;
    Turned(A, q, t, s, root, e, y);
    HighShelfFrom(Normal(m, r), r, k, A, E, F, G, H, t, c, s, q, g, root, e, y);
  }

  lemma ShelvesAre(m: Math, sr: real, fc: real, q: real, db: real, w: real, A: real, alpha: real, t: real)
    requires Omega(m, sr, fc) == w && A == Gain(m, db) && alpha == Alpha(m, sr, fc, q)
    requires t == 2.0 * m.sqrt(A) * alpha
    ensures LowShelf(m, sr, fc, q, db) == LowShelfRaw(m.cos(w), A, t)
    ensures HighShelf(m, sr, fc, q, db) == HighShelfRaw(m.cos(w), A, t)
  {
  }

  /** What the shelves are designed from. */
  lemma ShelfDesign(m: Math, sr: real, fc: real, q: real, db: real, w: real) returns (t: real)
    requires Genuine(m) && sr > 0.0 && q > 0.0 && Advances(m, sr, fc, w)
    ensures var A := m.pow10(db / 40.0);
            && LowShelf(m, sr, fc, q, db) == LowShelfRaw(m.cos(w), A, t)
            && HighShelf(m, sr, fc, q, db) == HighShelfRaw(m.cos(w), A, t)
            && t * q == m.sqrt(A) * m.sin(w)
  {
    OmegaIs(m, sr, fc, w);
    var alpha := AlphaIs(m, sr, fc, q, w);
    var A := GainIs(m, db);
    t := TsaIs(m.sqrt(A), alpha, q, m.sin(w));
    ShelvesAre(m, sr, fc, q, db, w, A, alpha, t);
  }

  /** bq_lowshelf: twice the decibels of A for a constant, those of A at the corner. */
  lemma LowShelfResponse(m: Math, sr: real, fc: real, q: real, db: real, w: real, A: real, g: real)
    requires A == m.pow10(db / 40.0) && g == A * A
    requires Genuine(m) && sr > 0.0 && q > 0.0 && Advances(m, sr, fc, w)
    requires LowShelf(m, sr, fc, q, db).d0 != 0.0
    ensures IsLowShelf(Normal(m, LowShelf(m, sr, fc, q, db)), m.cos(w), m.sin(w), q, A, g, m.sqrt(A))
  {
    var t := ShelfDesign(m, sr, fc, q, db, w);
    LowShelfNormal(m, LowShelf(m, sr, fc, q, db), m.cos(w), m.sin(w), A, g, t, q, m.sqrt(A));
  }

  /** bq_highshelf: the reverse. */
  lemma HighShelfResponse(m: Math, sr: real, fc: real, q: real, db: real, w: real, A: real, g: real)
    requires A == m.pow10(db / 40.0) && g == A * A
    requires Genuine(m) && sr > 0.0 && q > 0.0 && Advances(m, sr, fc, w)
    requires HighShelf(m, sr, fc, q, db).d0 != 0.0
    ensures IsHighShelf(Normal(m, HighShelf(m, sr, fc, q, db)), m.cos(w), m.sin(w), q, A, g, m.sqrt(A))
  {
    var t := ShelfDesign(m, sr, fc, q, db, w);
    HighShelfNormal(m, HighShelf(m, sr, fc, q, db), m.cos(w), m.sin(w), A, g, t, q, m.sqrt(A));
  }
}
