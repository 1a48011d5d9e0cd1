/** What the voicing plugin does to a signal: five recurrences in series and a limiter, each section with the response
    its controls ask for. */
module HpfResponse {
  import opened Cookbook
  import opened CookbookResponse
  import opened HpfLimiter
  import opened HpfSessions

  // ------------------------------------------------------------ the loops interchanged

  /** A whole signal through one section. */
  function Through(b: Biquad, x: seq<real>): (r: (seq<real>, Biquad))
    ensures |r.0| == |x|
  {
    if x == [] then ([], b)
    else
      var k := |x| - 1;
      var (out, c) := Through(b, x[..k]);
      var y := Output(c, x[k]);
      (out + [y], Shift(c, x[k], y))
  }

  /** A whole signal through one section after the other. */
  function Series(bs: seq<Biquad>, n: nat, x: seq<real>): (r: (seq<real>, seq<Biquad>))
    requires n <= |bs|
    ensures |r.0| == |x| && |r.1| == |bs|
    ensures forall i :: n <= i < |bs| ==> r.1[i] == bs[i]
  {
    if n == 0 then (x, bs)
    else
      var (s, cs) := Series(bs, n - 1, x);
      var (y, b) := Through(bs[n - 1], s);
      (y, cs[n - 1 := b])
  }

  function Limited(m: Math, l: Loudness, x: seq<real>): (out: seq<real>)
    ensures |out| == |x| && forall i :: 0 <= i < |x| ==> out[i] == Limit(m, l, x[i])
  {
    seq(|x|, i requires 0 <= i < |x| => Limit(m, l, x[i]))
  }

  lemma ThroughNext(b: Biquad, x: seq<real>, v: real)
    ensures var (out, c) := Through(b, x);
            var y := Output(c, v);
            Through(b, x + [v]) == (out + [y], Shift(c, v, y))
  {
    assert (x + [v])[..|x|] == x;
  }

  lemma {:induction false} SeriesEmpty(bs: seq<Biquad>, n: nat)
    requires n <= |bs|
    ensures Series(bs, n, []) == ([], bs)
  {
    if n > 0 {
      SeriesEmpty(bs, n - 1);
      assert bs[n - 1 := bs[n - 1]] == bs;
    }
  }

  /** One more sample goes through the sections the way the driver's inner loop takes it. */
  lemma {:induction false} SeriesNext(bs: seq<Biquad>, n: nat, x: seq<real>, v: real)
    requires n <= |bs|
    ensures var (s, cs) := Series(bs, n, x);
            var (y, ds) := Chain(cs, n, v);
            Series(bs, n, x + [v]) == (s + [y], ds)
  {
    if n > 0 {
      SeriesNext(bs, n - 1, x, v);
      var r := Series(bs, n - 1, x);
      var q := Chain(r.1, n - 1, v);
      var b := Through(bs[n - 1], r.0).1;
      ThroughNext(bs[n - 1], r.0, q.0);
      ChainElsewhere(r.1, n - 1, v, b);
      ChainOn(r.1[n - 1 := b], n - 1, v);
      UpdateTwice(q.1, n - 1, b, Shift(b, q.0, Output(b, q.0)));
    }
  }

  lemma UpdateTwice(bs: seq<Biquad>, n: nat, b: Biquad, c: Biquad)
    requires n < |bs|
    ensures bs[n := b][n := c] == bs[n := c]
  {
  }

  /** The first `n` sections do not look at the next one. */
  lemma {:induction false} ChainElsewhere(bs: seq<Biquad>, n: nat, v: real, b: Biquad)
    requires n < |bs|
    ensures Chain(bs[n := b], n, v) == (Chain(bs, n, v).0, Chain(bs, n, v).1[n := b])
  {
    ChainPrefix(bs, bs[n := b], n, v);
    assert Chain(bs[n := b], n, v).1 == Chain(bs, n, v).1[n := b];
  }

  lemma {:induction false} ChainPrefix(a: seq<Biquad>, b: seq<Biquad>, n: nat, v: real)
    requires n <= |a| == |b| && forall i :: 0 <= i < n ==> a[i] == b[i]
    ensures Chain(a, n, v).0 == Chain(b, n, v).0
    ensures forall i :: 0 <= i < n ==> Chain(a, n, v).1[i] == Chain(b, n, v).1[i]
  {
    if n > 0 {
      ChainPrefix(a, b, n - 1, v);
    }
  }

  /** The plugin takes every sample through all sections; that is taking the signal through every section in turn. */
  lemma {:induction false} PlayIsSeries(m: Math, bs: seq<Biquad>, n: nat, l: Loudness, input: seq<real>)
    requires n <= |bs|
    ensures Play(m, bs, n, l, input) == (Limited(m, l, Series(bs, n, input).0), Series(bs, n, input).1)
  {
    if input == [] {
      SeriesEmpty(bs, n);
    } else {
      var k := |input| - 1;
      PlayIsSeries(m, bs, n, l, input[..k]);
      SeriesNext(bs, n, input[..k], input[k]);
      assert input == input[..k] + [input[k]];
      var (s, cs) := Series(bs, n, input[..k]);
      LimitedNext(m, l, s, Chain(cs, n, input[k]).0);
    }
  }

  lemma LimitedNext(m: Math, l: Loudness, x: seq<real>, v: real)
    ensures Limited(m, l, x + [v]) == Limited(m, l, x) + [Limit(m, l, v)]
  {
  }

  // ------------------------------------------------------------ the recurrence

  /** From the third sample on, `y` comes out of the filter with coefficients `f` when `x` goes in. */
  ghost predicate Recurs(f: Coef, x: seq<real>, y: seq<real>) {
    |x| == |y| && forall i :: 2 <= i < |x| ==> RecursAt(f, x, y, i)
  }

  predicate RecursAt(f: Coef, x: seq<real>, y: seq<real>, i: nat)
    requires |x| == |y| && 2 <= i < |x|
  {
    y[i] == f.b0 * x[i] + f.b1 * x[i - 1] + f.b2 * x[i - 2] - f.a1 * y[i - 1] - f.a2 * y[i - 2]
  }

  /** A section with its past keeps to its recurrence, and ends with the last two samples as its past. */
  lemma {:induction false} ThroughRecurs(b: Biquad, x: seq<real>)
    ensures var (out, c) := Through(b, x);
            var (X, Y, n) := ([b.x2, b.x1] + x, [b.y2, b.y1] + out, |x|);
            Recurs(b.c, X, Y) && c == Biquad(b.c, X[n + 1], X[n], Y[n + 1], Y[n])
  {
    if x != [] {
      var k := |x| - 1;
      ThroughRecurs(b, x[..k]);
      var (out, c) := Through(b, x[..k]);
      var y := Output(c, x[k]);
      var X, Y := [b.x2, b.x1] + x[..k], [b.y2, b.y1] + out;
      assert [b.x2, b.x1] + x == X + [x[k]] && [b.y2, b.y1] + (out + [y]) == Y + [y];
      RecursNext(b.c, X, Y, c, x[k]);
    }
  }

  lemma RecursNext(f: Coef, X: seq<real>, Y: seq<real>, b: Biquad, v: real)
    requires Recurs(f, X, Y) && |X| >= 2
    requires var n := |X|; b == Biquad(f, X[n - 1], X[n - 2], Y[n - 1], Y[n - 2])
    ensures Recurs(f, X + [v], Y + [Output(b, v)])
  {
    var n := |X|;
    var x, y := X + [v], Y + [Output(b, v)];
    forall i | 2 <= i < n + 1 ensures RecursAt(f, x, y, i) {
      if i < n {
        assert RecursAt(f, X, Y, i);
      }
    }
  }

  /** A section that starts as `b` turns `x` into `y` by the recurrence with coefficients `f`, and ends as `c`. */
  ghost predicate Voiced(f: Coef, b: Biquad, x: seq<real>, y: seq<real>, c: Biquad) {
    var (X, Y, n) := ([b.x2, b.x1] + x, [b.y2, b.y1] + y, |x|);
    Recurs(f, X, Y) && c == Biquad(f, X[n + 1], X[n], Y[n + 1], Y[n])
  }

  lemma {:induction false} SeriesAt(bs: seq<Biquad>, n: nat, x: seq<real>, k: nat)
    requires k < n <= |bs|
    ensures Series(bs, k + 1, x).0 == Through(bs[k], Series(bs, k, x).0).0
    ensures Series(bs, n, x).1[k] == Through(bs[k], Series(bs, k, x).0).1
  {
    if k < n - 1 {
      SeriesAt(bs, n - 1, x, k);
    }
  }

  /** Every call of run: the input passes the five recurrences designed for the controls, each going on from where the
      call before left it, and then the limiter. */
  lemma RunIsVoicing(kit: Kit, s: Sections, c: Controls, input: seq<real>) returns (sigs: seq<seq<real>>)
    requires Coherent(kit, s)
    ensures |sigs| == 6 && sigs[0] == input
    ensures RunSpec(kit, s, c, 5, input).0 == Limited(kit.m, Loud(kit.m, c), sigs[5])
    ensures var (cs, t) := (kit.design(Clamp(kit.sr, Read(c))), RunSpec(kit, s, c, 5, input).1);
            forall k :: 0 <= k < 5 ==> Voiced(cs[k], s.bq[k], sigs[k], sigs[k + 1], t.bq[k])
  {
    RunIsEager(kit, s, c, 5, input);
    var cs := kit.design(Clamp(kit.sr, Read(c)));
    var bs := Recomputed(kit, s, c).bq;
    PlayIsSeries(kit.m, bs, 5, Loud(kit.m, c), input);
    sigs := seq(6, k requires 0 <= k < 6 => Series(bs, k, input).0);
    forall k | 0 <= k < 5 ensures Voiced(cs[k], s.bq[k], sigs[k], sigs[k + 1], Series(bs, 5, input).1[k]) {
      SeriesAt(bs, 5, input, k);
      ThroughRecurs(bs[k], sigs[k]);
    }
  }

  /** Activation forgets the past: the first call goes on from silence. */
  lemma ActivatedSilent(kit: Kit, s: Sections)
    ensures Coherent(kit, Activated(s))
    ensures forall k :: 0 <= k < 5 ==>
              var b := Activated(s).bq[k]; b.x1 == 0.0 && b.x2 == 0.0 && b.y1 == 0.0 && b.y2 == 0.0
  {
  }

  // ------------------------------------------------------------ what the gains mean

  lemma SumTimes(a: real, b: real, c: real, v: real)
    ensures (a + b + c) * v == a * v + b * v + c * v
    ensures (a - b + c) * v == a * v - b * v + c * v
  {
  }

  /** Once settled on a constant, the section multiplies it by its gain. */
  lemma ConstantPasses(b: Biquad, g: real, v: real)
    requires ConstantGain(b.c, g) && b.x1 == v && b.x2 == v && b.y1 == g * v && b.y2 == g * v
    ensures Output(b, v) == g * v
  {
    SumTimes(b.c.b0, b.c.b1, b.c.b2, v);
    SumTimes(1.0, b.c.a1, b.c.a2, g * v);
    assert g * (1.0 + b.c.a1 + b.c.a2) * v == (1.0 + b.c.a1 + b.c.a2) * (g * v);
  }

  lemma AlternatingPasses(b: Biquad, g: real, v: real)
    requires AlternatingGain(b.c, g) && b.x1 == -v && b.x2 == v && b.y1 == -(g * v) && b.y2 == g * v
    ensures Output(b, v) == g * v
  {
    SumTimes(b.c.b0, b.c.b1, b.c.b2, v);
    SumTimes(1.0, b.c.a1, b.c.a2, g * v);
    assert g * (1.0 - b.c.a1 + b.c.a2) * v == (1.0 - b.c.a1 + b.c.a2) * (g * v);
  }

  function Product(x: Complex, y: Complex): Complex {
    Complex(x.re * y.re - x.im * y.im, x.re * y.im + x.im * y.re)
  }

  /** A point that turns by `z` with every sample, `p` being where it was at the last one. */
  predicate Turns(x: real, x1: real, x2: real, p: Complex, z: Complex) {
    x == Product(p, z).re && x1 == p.re && x2 == Product(p, Complex(z.re, -z.im)).re
  }

  /** If inputs and outputs so far were those of a frequency, the outputs multiplied by the gain, so is the next. */
  lemma FrequencyPasses(b: Biquad, v: real, y: real, z: Complex, h: Complex, p: Complex)
    requires ComplexGain(b.c, z.re, z.im, h.re, h.im)
    requires Turns(v, b.x1, b.x2, p, z) && Turns(y, b.y1, b.y2, Product(h, p), z)
    ensures Output(b, v) == y
  {
    var u, l, q := Upper(b.c, z.re, z.im), Lower(b.c, z.re, z.im), Product(h, p);
    Combined(b.c.b0, b.c.b1, b.c.b2, p, z, v, b.x1, b.x2);
    Combined(1.0, b.c.a1, b.c.a2, q, z, y, b.y1, b.y2);
    Associated(h, p, l, u);
  }

  lemma Combined(k0: real, k1: real, k2: real, p: Complex, z: Complex, x: real, x1: real, x2: real)
    requires Turns(x, x1, x2, p, z)
    ensures k0 * x + k1 * x1 + k2 * x2 == Product(p, At(k0, k1, k2, z.re, z.im)).re
  {
    assert p.im * -z.im == -(p.im * z.im);
    Weighed(k0, k1, k2, p.re, p.im, z.re, z.im, p.re * z.re, p.im * z.im);
  }

  lemma Weighed(k0: real, k1: real, k2: real, p: real, r: real, c: real, s: real, a: real, b: real)
    requires a == p * c && b == r * s
    ensures k0 * (a - b) + k1 * p + k2 * (a + b) == p * ((k0 + k2) * c + k1) - r * ((k0 - k2) * s)
  {
    Across(k0 + k2, p, c);
    Across(k0 - k2, r, s);
    SumTimes(k0, 0.0, k2, a);
    SumTimes(k0, k2, 0.0, b);
    assert p * ((k0 + k2) * c + k1) == p * ((k0 + k2) * c) + p * k1;
    assert k0 * (a - b) == k0 * a - k0 * b && k2 * (a + b) == k2 * a + k2 * b;
  }

  lemma Across(k: real, x: real, y: real)
    ensures k * (x * y) == x * (k * y)
  {
  }

  lemma Associated(h: Complex, p: Complex, l: Complex, u: Complex)
    requires u == Product(h, l)
    ensures Product(p, u) == Product(Product(h, p), l)
  {
  }

  // ------------------------------------------------------------ the five sections

  /** Half of `db` decibels as a ratio of amplitudes. */
  function Amplitude(m: Math, db: real): real {
    m.pow10(db / 40.0)
  }

  function Square(x: real): real {
    x * x
  }

  /** `f` is a high-pass at the frequency `fc`. */
  ghost predicate HighpassAt(m: Math, sr: real, fc: real, q: real, f: Coef) {
    forall w :: Advances(m, sr, fc, w) ==> IsHighpass(f, m.cos(w), m.sin(w), q)
  }

  /** `f` is a low shelf of `db` decibels at `fc`. */
  ghost predicate LowShelfAt(m: Math, sr: real, fc: real, q: real, db: real, f: Coef) {
    var A := Amplitude(m, db);
    forall w :: Advances(m, sr, fc, w) ==> IsLowShelf(f, m.cos(w), m.sin(w), q, A, Square(A), m.sqrt(A))
  }

  ghost predicate HighShelfAt(m: Math, sr: real, fc: real, q: real, db: real, f: Coef) {
    var A := Amplitude(m, db);
    forall w :: Advances(m, sr, fc, w) ==> IsHighShelf(f, m.cos(w), m.sin(w), q, A, Square(A), m.sqrt(A))
  }

  ghost predicate PeakAt(m: Math, sr: real, fc: real, q: real, db: real, f: Coef) {
    var A := Amplitude(m, db);
    forall w :: Advances(m, sr, fc, w) ==> IsPeak(f, m.cos(w), m.sin(w), q, Square(A))
  }

  lemma HighpassThere(m: Math, sr: real, fc: real, q: real)
    requires Genuine(m) && sr > 0.0 && q > 0.0 && Highpass(m, sr, fc, q).d0 != 0.0
    ensures HighpassAt(m, sr, fc, q, Normal(m, Highpass(m, sr, fc, q)))
  {
    forall w | Advances(m, sr, fc, w)
      ensures IsHighpass(Normal(m, Highpass(m, sr, fc, q)), m.cos(w), m.sin(w), q)
    {
      HighpassResponse(m, sr, fc, q, w);
    }
  }

  lemma LowShelfThere(m: Math, sr: real, fc: real, q: real, db: real)
    requires Genuine(m) && sr > 0.0 && q > 0.0 && LowShelf(m, sr, fc, q, db).d0 != 0.0
    ensures LowShelfAt(m, sr, fc, q, db, Normal(m, LowShelf(m, sr, fc, q, db)))
  {
    var A := Amplitude(m, db);
    var g := Square(A);
    forall w | Advances(m, sr, fc, w)
      ensures IsLowShelf(Normal(m, LowShelf(m, sr, fc, q, db)), m.cos(w), m.sin(w), q, A, g, m.sqrt(A))
    {
      LowShelfResponse(m, sr, fc, q, db, w, A, g);
    }
  }

  lemma HighShelfThere(m: Math, sr: real, fc: real, q: real, db: real)
    requires Genuine(m) && sr > 0.0 && q > 0.0 && HighShelf(m, sr, fc, q, db).d0 != 0.0
    ensures HighShelfAt(m, sr, fc, q, db, Normal(m, HighShelf(m, sr, fc, q, db)))
  {
    var A := Amplitude(m, db);
    var g := Square(A);
    forall w | Advances(m, sr, fc, w)
      ensures IsHighShelf(Normal(m, HighShelf(m, sr, fc, q, db)), m.cos(w), m.sin(w), q, A, g, m.sqrt(A))
    {
      HighShelfResponse(m, sr, fc, q, db, w, A, g);
    }
  }

  lemma PeakThere(m: Math, sr: real, fc: real, q: real, db: real)
    requires Genuine(m) && sr > 0.0 && q > 0.0 && Peaking(m, sr, fc, q, db).d0 != 0.0
    ensures PeakAt(m, sr, fc, q, db, Normal(m, Peaking(m, sr, fc, q, db)))
  {
    var A := Amplitude(m, db);
    var g := Square(A);
    forall w | Advances(m, sr, fc, w)
      ensures IsPeak(Normal(m, Peaking(m, sr, fc, q, db)), m.cos(w), m.sin(w), q, g)
    {
      PeakingResponse(m, sr, fc, q, db, w, A, g);
    }
  }

  /** The chain of the header: two high-passes at the cutoff with the Butterworth Qs, then warmth, presence and air. */
  lemma DesignResponse(m: Math, sr: real, u: Tuned)
    requires Genuine(m) && sr > 0.0 && 0.0 < u.cut <= 0.45 * sr && u.pq > 0.0 && Divisible(m, sr, u)
    ensures var cs := Design(m, sr, u);
            && HighpassAt(m, sr, u.cut, 0.54119610, cs[0]) && HighpassAt(m, sr, u.cut, 1.30656296, cs[1])
            && LowShelfAt(m, sr, u.whz, 0.70710678, u.wdb, cs[2])
            && PeakAt(m, sr, u.phz, u.pq, u.pdb, cs[3])
            && HighShelfAt(m, sr, u.ahz, 0.70710678, u.adb, cs[4])
  {
    RisingIffPositive(m, sr, u.cut);
    HighpassIffRising(m, sr, u.cut, 0.54119610);
    HighpassIffRising(m, sr, u.cut, 1.30656296);
    HighpassThere(m, sr, u.cut, 0.54119610);
    HighpassThere(m, sr, u.cut, 1.30656296);
    LowShelfThere(m, sr, u.whz, 0.70710678, u.wdb);
    PeakThere(m, sr, u.phz, u.pq, u.pdb);
    HighShelfThere(m, sr, u.ahz, 0.70710678, u.adb);
  }

  /** Together the two high-passes halve the power of the cutoff frequency, to seven digits. */
  lemma ButterworthCutoff()
    ensures var g := 0.54119610 * 1.30656296; -0.0000001 < g * g - 0.5 < 0.0000001
  {
  }

  // ------------------------------------------------------------ the controls

  /** A value between the bounds is left alone; one outside moves to the nearer bound. */
  predicate Nearest(x: real, low: real, high: real, y: real) {
    low <= y <= high && (low <= x <= high ==> y == x) && (x < low ==> y == low) && (x > high ==> y == high)
  }

  /** The cutoff is kept between 20 Hz and 0.45 of the sample rate, the bands below that, the presence Q above 0.1, and
      the gains are not touched. */
  lemma ClampNearest(sr: real, t: Tuned)
    requires 0.45 * sr >= 20.0
    ensures var u := Clamp(sr, t);
            && Nearest(t.cut, 20.0, 0.45 * sr, u.cut)
            && u.whz <= 0.45 * sr && u.phz <= 0.45 * sr && u.ahz <= 0.45 * sr
            && (t.whz <= 0.45 * sr ==> u.whz == t.whz) && (t.phz <= 0.45 * sr ==> u.phz == t.phz)
            && (t.ahz <= 0.45 * sr ==> u.ahz == t.ahz)
            && u.pq >= 0.1 && (t.pq >= 0.1 ==> u.pq == t.pq)
            && u.wdb == t.wdb && u.pdb == t.pdb && u.adb == t.adb
  {
  }

  /** With no port connected, at any usual sample rate: a 180 Hz high-pass, flat bands, no makeup, the ceiling at full
      scale. */
  lemma Defaults(m: Math, sr: real)
    requires Genuine(m) && sr >= 20000.0
    ensures var c := Controls(Open, Open, Open, Open, Open, Open, Open, Open, Open, Open);
            && Clamp(sr, Read(c)) == Tuned(180.0, 250.0, 0.0, 2500.0, 1.0, 0.0, 8000.0, 0.0)
            && FlatBands(c) && PositiveBands(c) && Loud(m, c) == Loudness(1.0, 1.0)
  {
    assert m.quot(0.0, 20.0) == 0.0 / 20.0 == 0.0;
  }

  /** Makeup is in decibels; the ceiling is kept between 0.05 and full scale. */
  lemma LoudIs(m: Math, c: Controls, db: real, ceil: real)
    requires Genuine(m) && c.makeup == Connected(db) && c.ceiling == Connected(ceil)
    ensures Loud(m, c).gain == m.pow10(db / 20.0) && Nearest(ceil, 0.05, 1.0, Loud(m, c).ceil)
  {
  }

  // ------------------------------------------------------------ the limiter

  /** What is used of the hyperbolic tangent besides its bounds: it is odd, below its argument, and close to it. */
  predicate Saturates(m: Math, x: real) {
    m.tanh(-x) == -m.tanh(x) && 3.0 * x - x * x * x <= 3.0 * m.tanh(x) && m.tanh(x) <= x
  }

  /** Quiet signals pass with the makeup gain: the limiter takes away at most a third of the cube of the level in terms
      of the ceiling, never adds anything, and treats both signs alike. */
  lemma LimiterTransparent(m: Math, l: Loudness, v: real, x: real)
    requires Genuine(m) && Saturates(m, x) && l.ceil > 0.0 && x * l.ceil == v * l.gain && x >= 0.0
    ensures l.ceil * (3.0 * x - x * x * x) <= 3.0 * Limit(m, l, v) && Limit(m, l, v) <= v * l.gain
    ensures Limit(m, l, -v) == -Limit(m, l, v)
  {
    Negated(x, l.ceil);
    Negated(v, l.gain);
    LevelIs(m, l, v, x);
    LevelIs(m, l, -v, -x);
    Squeezed(l.ceil, 3.0 * x - x * x * x, m.tanh(x), x);
  }

  lemma Negated(x: real, y: real)
    ensures -x * y == -(x * y)
  {
  }

  lemma Squeezed(k: real, low: real, x: real, high: real)
    requires k > 0.0 && low <= 3.0 * x && x <= high
    ensures k * low <= 3.0 * (k * x) && k * x <= k * high && k * high == high * k && k * -x == -(k * x)
  {
    TimesPositive(k, 3.0 * x - low);
    TimesPositive(k, high - x);
  }

  lemma LevelIs(m: Math, l: Loudness, v: real, x: real)
    requires Genuine(m) && l.ceil > 0.0 && x * l.ceil == v * l.gain
    ensures Limit(m, l, v) == l.ceil * m.tanh(x)
  {
    var k := m.quot(1.0, l.ceil);
    Divides(m, 1.0, l.ceil);
    Level(v * l.gain, k, l.ceil, x);
    assert Drive(m, l, v) == x;
  }

  lemma Level(a: real, k: real, ceil: real, x: real)
    requires ceil > 0.0 && k * ceil == 1.0 && x * ceil == a
    ensures a * k == x
  {
    Group(x, ceil, k);
    assert ceil * k == 1.0;
  }
}
