/** Whole sessions of the voicing plugin: caching, block splitting, stability and flat equaliser settings. */
module HpfSessions {
  import opened Cookbook
  import opened HpfLimiter

  /** What a host does with an instance. */
  datatype Call = Activate | Block(controls: Controls, input: seq<real>)

  type Sections = s: State | |s.bq| == 5
    witness State(seq(5, _ => Biquad(Coef(0.0, 0.0, 0.0, 0.0, 0.0), 0.0, 0.0, 0.0, 0.0)),
                  Tuned(0.0, 0.0, 0.0, 0.0, 0.0, 0.0, 0.0, 0.0), false)

  /** The plugin's session, with the samples of all blocks in a row. */
  function Session(kit: Kit, s: Sections, calls: seq<Call>, n: nat): (r: (seq<real>, Sections))
    requires n <= 5
  {
    if calls == [] then ([], s)
    else
      var k := |calls| - 1;
      var (out, t) := Session(kit, s, calls[..k], n);
      match calls[k]
      case Activate => (out, Activated(t))
      case Block(c, input) => var (more, u) := RunSpec(kit, t, c, n, input); (out + more, u)
  }

  /** The reference: a plugin that recomputes its coefficients before every block. */
  function Eager(kit: Kit, s: Sections, c: Controls, n: nat, input: seq<real>): (r: (seq<real>, State))
    requires n <= 5
    ensures |r.1.bq| == 5
  {
    Rendered(kit.m, Recomputed(kit, s, c), c, n, input)
  }

  function EagerSession(kit: Kit, s: Sections, calls: seq<Call>, n: nat): (r: (seq<real>, Sections))
    requires n <= 5
  {
    if calls == [] then ([], s)
    else
      var k := |calls| - 1;
      var (out, t) := EagerSession(kit, s, calls[..k], n);
      match calls[k]
      case Activate => (out, Activated(t))
      case Block(c, input) => var (more, u) := Eager(kit, t, c, n, input); (out + more, u)
  }

  // ------------------------------------------------------------ caching is transparent

  predicate HasCoefs(bs: seq<Biquad>, cs: seq<Coef>) {
    |bs| == |cs| && forall i :: 0 <= i < |bs| ==> bs[i].c == cs[i]
  }

  /** Once primed, the coefficients are those of the cached controls, and these are clamped. */
  predicate Coherent(kit: Kit, s: Sections) {
    s.primed ==> HasCoefs(s.bq, kit.design(s.cached)) && Clamp(kit.sr, s.cached) == s.cached
  }

  lemma ClampIdempotent(sr: real, t: Tuned)
    ensures Clamp(sr, Clamp(sr, t)) == Clamp(sr, t)
  {
  }

  /** With unmoved controls, recomputing would write what is there already. */
  lemma UnmovedIsFresh(kit: Kit, s: Sections, c: Controls)
    requires Coherent(kit, s) && !Moved(s, c)
    ensures Recomputed(kit, s, c) == s
  {
    var cs := kit.design(s.cached);
    assert forall i :: 0 <= i < 5 ==> s.bq[i].(c := cs[i]) == s.bq[i];
    assert WithCoefs(s.bq, cs) == s.bq;
  }

  lemma RunIsEager(kit: Kit, s: Sections, c: Controls, n: nat, input: seq<real>)
    requires Coherent(kit, s) && n <= 5
    ensures RunSpec(kit, s, c, n, input) == Eager(kit, s, c, n, input)
    ensures Coherent(kit, RunSpec(kit, s, c, n, input).1)
  {
    if !Moved(s, c) {
      UnmovedIsFresh(kit, s, c);
    }
    ClampIdempotent(kit.sr, Read(c));
  }

  /** Over any calls, with controls in range or out of it, the plugin computes the same samples and the same state
      as the one that recomputes before every block. */
  lemma {:induction false} CachingTransparent(kit: Kit, s: Sections, calls: seq<Call>, n: nat)
    requires Coherent(kit, s) && n <= 5
    ensures Session(kit, s, calls, n) == EagerSession(kit, s, calls, n)
    ensures Coherent(kit, Session(kit, s, calls, n).1)
  {
    if calls != [] {
      var k := |calls| - 1;
      CachingTransparent(kit, s, calls[..k], n);
      var t := Session(kit, s, calls[..k], n).1;
      if calls[k].Block? {
        RunIsEager(kit, t, calls[k].controls, n, calls[k].input);
      }
    }
  }

  // ------------------------------------------------------------ blocks can be split anywhere

  /** One more sample. */
  function Next(m: Math, n: nat, l: Loudness, r: (seq<real>, seq<Biquad>), v: real): (seq<real>, seq<Biquad>)
    requires n <= |r.1|
  {
    var (x, ds) := Chain(r.1, n, v);
    (r.0 + [Limit(m, l, x)], ds)
  }

  lemma PlayNext(m: Math, bs: seq<Biquad>, n: nat, l: Loudness, a: seq<real>, v: real)
    requires n <= |bs|
    ensures Play(m, bs, n, l, a + [v]) == Next(m, n, l, Play(m, bs, n, l, a), v)
  {
    assert (a + [v])[..|a|] == a;
  }

  function Prefixed(before: seq<real>, r: (seq<real>, seq<Biquad>)): (seq<real>, seq<Biquad>) {
    (before + r.0, r.1)
  }

  lemma NextPrefixed(m: Math, n: nat, l: Loudness, before: seq<real>, r: (seq<real>, seq<Biquad>), v: real)
    requires n <= |r.1|
    ensures Next(m, n, l, Prefixed(before, r), v) == Prefixed(before, Next(m, n, l, r, v))
  {
    var last := [Limit(m, l, Chain(r.1, n, v).0)];
    assert (before + r.0) + last == before + (r.0 + last);
  }

  lemma {:induction false} PlaySplit(m: Math, bs: seq<Biquad>, n: nat, l: Loudness, a: seq<real>, b: seq<real>)
    requires n <= |bs|
    ensures var one := Play(m, bs, n, l, a);
            Play(m, bs, n, l, a + b) == Prefixed(one.0, Play(m, one.1, n, l, b))
  {
    var one := Play(m, bs, n, l, a);
    if b == [] {
      assert a + b == a && one.0 + [] == one.0;
    } else {
      var k := |b| - 1;
      PlaySplit(m, bs, n, l, a, b[..k]);
      assert b == b[..k] + [b[k]] && a + b == (a + b[..k]) + [b[k]];
      PlayNext(m, bs, n, l, a + b[..k], b[k]);
      PlayNext(m, one.1, n, l, b[..k], b[k]);
      NextPrefixed(m, n, l, one.0, Play(m, one.1, n, l, b[..k]), b[k]);
    }
  }

  /** After a block the same controls change nothing. */
  lemma SettledAgain(kit: Kit, s: Sections, c: Controls, n: nat, input: seq<real>)
    requires Coherent(kit, s) && n <= 5
    ensures var t := Eager(kit, s, c, n, input).1; Recomputed(kit, t, c) == t
  {
    var t := Eager(kit, s, c, n, input).1;
    var cs := kit.design(Clamp(kit.sr, Read(c)));
    assert forall i :: 0 <= i < 5 ==> t.bq[i].(c := cs[i]) == t.bq[i];
    assert WithCoefs(t.bq, cs) == t.bq;
  }

  /** One block is two blocks at the same controls. */
  lemma SplittingChangesNothing(kit: Kit, s: Sections, c: Controls, n: nat, a: seq<real>, b: seq<real>)
    requires Coherent(kit, s) && n <= 5
    ensures var one := RunSpec(kit, s, c, n, a);
            var two := RunSpec(kit, one.1, c, n, b);
            RunSpec(kit, s, c, n, a + b) == (one.0 + two.0, two.1)
  {
    RunIsEager(kit, s, c, n, a);
    RunIsEager(kit, s, c, n, a + b);
    var one := Eager(kit, s, c, n, a);
    RunIsEager(kit, one.1, c, n, b);
    SettledAgain(kit, s, c, n, a);
    PlaySplit(kit.m, Recomputed(kit, s, c).bq, n, Loud(kit.m, c), a, b);
  }

  // ------------------------------------------------------------ the limiter

  lemma LimitBound(m: Math, l: Loudness, v: real)
    requires Genuine(m) && l.ceil > 0.0
    ensures -l.ceil <= Limit(m, l, v) <= l.ceil
  {
    CeilingHolds(l.ceil, m.tanh(Drive(m, l, v)));
  }

  predicate Within(out: seq<real>, ceil: real) {
    forall v :: v in out ==> -ceil <= v <= ceil
  }

  lemma {:induction false} BlockWithin(m: Math, bs: seq<Biquad>, n: nat, l: Loudness, input: seq<real>)
    requires Genuine(m) && n <= |bs| && l.ceil > 0.0
    ensures Within(Play(m, bs, n, l, input).0, l.ceil)
  {
    if input != [] {
      var k := |input| - 1;
      var r := Play(m, bs, n, l, input[..k]);
      BlockWithin(m, bs, n, l, input[..k]);
      LimitBound(m, l, Chain(r.1, n, input[k]).0);
    }
  }

  /** For every sample of a session, the ceiling its own block was played with. */
  function Ceilings(m: Math, calls: seq<Call>): seq<real> {
    if calls == [] then []
    else
      var k := |calls| - 1;
      match calls[k]
      case Activate => Ceilings(m, calls[..k])
      case Block(c, input) => Ceilings(m, calls[..k]) + seq(|input|, _ => Loud(m, c).ceil)
  }

  predicate Below(out: seq<real>, ceils: seq<real>) {
    |out| == |ceils| && forall i :: 0 <= i < |out| ==> ceils[i] <= 1.0 && -ceils[i] <= out[i] <= ceils[i]
  }

  lemma BelowAppend(a: seq<real>, b: seq<real>, c: seq<real>, d: seq<real>)
    requires Below(a, c) && Below(b, d)
    ensures Below(a + b, c + d)
  {
  }

  /** Over any calls and controls, no sample leaves louder than the ceiling of its own block, nor than full scale. */
  lemma {:induction false} NeverAboveCeiling(kit: Kit, s: Sections, calls: seq<Call>, n: nat)
    requires Genuine(kit.m) && n <= 5
    ensures Below(Session(kit, s, calls, n).0, Ceilings(kit.m, calls))
  {
    if calls != [] {
      var k := |calls| - 1;
      NeverAboveCeiling(kit, s, calls[..k], n);
      var (out, t) := Session(kit, s, calls[..k], n);
      match calls[k]
      case Activate =>
      case Block(c, input) =>
        RunBelow(kit, t, c, n, input);
        BelowAppend(out, RunSpec(kit, t, c, n, input).0, Ceilings(kit.m, calls[..k]),
                    seq(|input|, _ => Loud(kit.m, c).ceil));
    }
  }

  lemma RunBelow(kit: Kit, t: Sections, c: Controls, n: nat, input: seq<real>)
    requires Genuine(kit.m) && n <= 5
    ensures Below(RunSpec(kit, t, c, n, input).0, seq(|input|, _ => Loud(kit.m, c).ceil))
  {
    var bs := (if Moved(t, c) then Recomputed(kit, t, c) else t).bq;
    var l := Loud(kit.m, c);
    BlockWithin(kit.m, bs, n, l, input);
    var out := Play(kit.m, bs, n, l, input).0;
    assert forall i :: 0 <= i < |out| ==> out[i] in out;
  }

  lemma CeilingHolds(ceil: real, t: real)
    requires ceil > 0.0 && -1.0 <= t <= 1.0
    ensures -ceil <= ceil * t <= ceil
  {
    TimesPositive(ceil, 1.0 - t);
    TimesPositive(ceil, 1.0 + t);
  }

  // ------------------------------------------------------------ stability over sessions

  /** Frequencies a caller may set for the three equaliser bands without upsetting them. */
  predicate PositiveBands(c: Controls) {
    Read(c).whz > 0.0 && Read(c).phz > 0.0 && Read(c).ahz > 0.0
  }

  /** Whatever the cutoff and the presence Q are, the clamps keep the high-pass positive and every frequency below
      0.45 of the sample rate. */
  lemma ClampedRanges(sr: real, t: Tuned)
    requires sr > 0.0
    ensures var u := Clamp(sr, t);
            && 0.0 < u.cut <= 0.45 * sr && u.pq >= 0.1
            && u.whz <= 0.45 * sr && u.phz <= 0.45 * sr && u.ahz <= 0.45 * sr
            && (u.whz > 0.0 <==> t.whz > 0.0) && (u.phz > 0.0 <==> t.phz > 0.0) && (u.ahz > 0.0 <==> t.ahz > 0.0)
            && (t.whz > -0.5 * sr ==> u.whz > -0.5 * sr) && (t.phz > -0.5 * sr ==> u.phz > -0.5 * sr)
            && (t.ahz > -0.5 * sr ==> u.ahz > -0.5 * sr)
  {
  }

  predicate AllStable(cs: seq<Coef>) {
    forall i :: 0 <= i < |cs| ==> Stable(cs[i])
  }

  /** The equaliser's normalisations do not divide by zero. */
  predicate Divisible(m: Math, sr: real, u: Tuned) {
    && LowShelf(m, sr, u.whz, 0.70710678, u.wdb).d0 != 0.0
    && Peaking(m, sr, u.phz, u.pq, u.pdb).d0 != 0.0
    && HighShelf(m, sr, u.ahz, 0.70710678, u.adb).d0 != 0.0
  }

  /** The three band frequencies, once clamped, have angles with a positive sine. */
  predicate RisingBands(m: Math, sr: real, u: Tuned) {
    Rising(m, sr, u.whz) && Rising(m, sr, u.phz) && Rising(m, sr, u.ahz)
  }

  /** For any control values whatever that divide, all five sections are stable exactly if the three bands rise. */
  lemma StableIffRisingBands(m: Math, sr: real, c: Controls)
    requires Genuine(m) && sr > 0.0
    ensures var u := Clamp(sr, Read(c));
            && (RisingBands(m, sr, u) ==> Divisible(m, sr, u))
            && (Divisible(m, sr, u) ==> (AllStable(Design(m, sr, u)) <==> RisingBands(m, sr, u)))
  {
    ClampedRanges(sr, Read(c));
    var u := Clamp(sr, Read(c));
    RisingIffPositive(m, sr, u.cut);
    HighpassIffRising(m, sr, u.cut, 0.54119610);
    HighpassIffRising(m, sr, u.cut, 1.30656296);
    LowShelfIffRising(m, sr, u.whz, 0.70710678, u.wdb);
    PeakingIffRising(m, sr, u.phz, u.pq, u.pdb);
    HighShelfIffRising(m, sr, u.ahz, 0.70710678, u.adb);
    var cs := Design(m, sr, u);
    assert AllStable(cs) <==> Stable(cs[0]) && Stable(cs[1]) && Stable(cs[2]) && Stable(cs[3]) && Stable(cs[4]);
  }

  /** Between minus one half and 0.45 of the sample rate, where the clamps leave the rest, rising is being positive. */
  lemma StableIffPositiveBands(m: Math, sr: real, c: Controls)
    requires Genuine(m) && sr > 0.0 && Divisible(m, sr, Clamp(sr, Read(c)))
    requires Read(c).whz > -0.5 * sr && Read(c).phz > -0.5 * sr && Read(c).ahz > -0.5 * sr
    ensures AllStable(Design(m, sr, Clamp(sr, Read(c)))) <==> PositiveBands(c)
  {
    StableIffRisingBands(m, sr, c);
    RisingIffPositiveBands(m, sr, c);
  }

  lemma RisingIffPositiveBands(m: Math, sr: real, c: Controls)
    requires Genuine(m) && sr > 0.0
    requires Read(c).whz > -0.5 * sr && Read(c).phz > -0.5 * sr && Read(c).ahz > -0.5 * sr
    ensures RisingBands(m, sr, Clamp(sr, Read(c))) <==> PositiveBands(c)
  {
    ClampedRanges(sr, Read(c));
    var u := Clamp(sr, Read(c));
    RisingIffPositive(m, sr, u.whz);
    RisingIffPositive(m, sr, u.phz);
    RisingIffPositive(m, sr, u.ahz);
  }

  /** Positive band frequencies never divide by zero, and all five sections are stable. */
  lemma DesignStable(m: Math, sr: real, c: Controls)
    requires Genuine(m) && sr > 0.0 && PositiveBands(c)
    ensures AllStable(Design(m, sr, Clamp(sr, Read(c)))) && Divisible(m, sr, Clamp(sr, Read(c)))
  {
    RisingIffPositiveBands(m, sr, c);
    StableIffRisingBands(m, sr, c);
  }

  /** All ports unconnected except the warmth frequency. */
  function WarmthAt(hz: real): Controls {
    Controls(Open, Connected(hz), Open, Open, Open, Open, Open, Open, Open, Open)
  }

  /** The clamps let a warmth frequency of 0 Hz through; nothing divides by zero, and the warmth section is unstable. */
  lemma ZeroWarmthUnstable(m: Math, sr: real)
    requires Genuine(m) && sr > 0.0
    ensures var u := Clamp(sr, Read(WarmthAt(0.0)));
            u.whz == 0.0 && Divisible(m, sr, u) && !Stable(Design(m, sr, u)[2])
  {
    var c := WarmthAt(0.0);
    var u := Clamp(sr, Read(c));
    ClampedRanges(sr, Read(c));
    ZeroHertzUnstable(m, sr, 0.70710678, u.wdb);
    RisingIffPositive(m, sr, u.phz);
    RisingIffPositive(m, sr, u.ahz);
    PeakingIffRising(m, sr, u.phz, u.pq, u.pdb);
    HighShelfIffRising(m, sr, u.ahz, 0.70710678, u.adb);
  }

  predicate PositiveCalls(calls: seq<Call>) {
    forall i :: 0 <= i < |calls| && calls[i].Block? ==> PositiveBands(calls[i].controls)
  }

  predicate StableState(s: Sections) {
    forall i :: 0 <= i < 5 ==> Stable(s.bq[i].c)
  }

  /** A session whose band frequencies are always positive only ever filters with stable sections. */
  lemma {:induction false} SessionStable(m: Math, sr: real, s: Sections, calls: seq<Call>, n: nat)
    requires Genuine(m) && sr > 0.0 && !s.primed && n <= 5 && PositiveCalls(calls)
    ensures var t := Session(Driver(m, sr), s, calls, n).1; t.primed ==> StableState(t)
  {
    if calls != [] {
      var k := |calls| - 1;
      SessionStable(m, sr, s, calls[..k], n);
      CachingTransparent(Driver(m, sr), s, calls[..k], n);
      var t := Session(Driver(m, sr), s, calls[..k], n).1;
      if calls[k].Block? {
        RunStable(m, sr, t, calls[k].controls, n, calls[k].input);
      }
    }
  }

  lemma RunStable(m: Math, sr: real, t: Sections, c: Controls, n: nat, input: seq<real>)
    requires Genuine(m) && sr > 0.0 && n <= 5 && PositiveBands(c) && Coherent(Driver(m, sr), t)
    ensures StableState(RunSpec(Driver(m, sr), t, c, n, input).1)
  {
    RunIsEager(Driver(m, sr), t, c, n, input);
    DesignStable(m, sr, c);
    EagerCoefs(Driver(m, sr), t, c, n, input);
  }

  lemma EagerCoefs(kit: Kit, s: Sections, c: Controls, n: nat, input: seq<real>)
    requires n <= 5
    ensures HasCoefs(Eager(kit, s, c, n, input).1.bq, kit.design(Clamp(kit.sr, Read(c))))
  {
  }

  // ------------------------------------------------------------ a flat equaliser is not there

  /** All three bands at 0 dB. */
  predicate FlatBands(c: Controls) {
    Read(c).wdb == 0.0 && Read(c).pdb == 0.0 && Read(c).adb == 0.0
  }

  predicate FlatCall(m: Math, sr: real, call: Call) {
    call.Block? ==> FlatBands(call.controls) && Divisible(m, sr, Clamp(sr, Read(call.controls)))
  }

  predicate FlatCalls(m: Math, sr: real, calls: seq<Call>) {
    forall i :: 0 <= i < |calls| ==> FlatCall(m, sr, calls[i])
  }

  /** Past outputs are past inputs. */
  predicate Even(b: Biquad) {
    b.x1 == b.y1 && b.x2 == b.y2
  }

  lemma UnityPasses(b: Biquad, v: real)
    requires Unity(b.c) && Even(b)
    ensures Output(b, v) == v && Even(Shift(b, v, v))
  {
  }

  predicate EvenBands(bs: seq<Biquad>) {
    |bs| == 5 && Even(bs[2]) && Even(bs[3]) && Even(bs[4])
  }

  predicate UnityBands(cs: seq<Coef>) {
    |cs| == 5 && Unity(cs[2]) && Unity(cs[3]) && Unity(cs[4])
  }

  lemma FlatDesign(m: Math, sr: real, c: Controls)
    requires Genuine(m) && sr > 0.0 && FlatBands(c) && Divisible(m, sr, Clamp(sr, Read(c)))
    ensures UnityBands(Design(m, sr, Clamp(sr, Read(c))))
  {
    var u := Clamp(sr, Read(c));
    LowShelfUnity(m, sr, u.whz, 0.70710678);
    PeakingUnity(m, sr, u.phz, u.pq);
    HighShelfUnity(m, sr, u.ahz, 0.70710678);
  }

  /** The first two sections of `r` and `q` agree, and the bands of `r` are even. */
  predicate Shadows(r: seq<Biquad>, q: seq<Biquad>) {
    |r| == 5 && |q| == 5 && r[0] == q[0] && r[1] == q[1] && EvenBands(r)
  }

  predicate UnityState(bs: seq<Biquad>) {
    |bs| == 5 && Unity(bs[2].c) && Unity(bs[3].c) && Unity(bs[4].c)
  }

  /** Through unity bands a sample comes out as it left the high-pass. */
  lemma ChainFlat(r: seq<Biquad>, q: seq<Biquad>, v: real)
    requires Shadows(r, q) && UnityState(r)
    ensures Chain(r, 5, v).0 == Chain(q, 2, v).0 && Shadows(Chain(r, 5, v).1, Chain(q, 2, v).1)
  {
    ChainTwo(r, q, v);
    var x := Chain(r, 2, v).0;
    UnityPasses(r[2], x);
    UnityPasses(r[3], x);
    UnityPasses(r[4], x);
    ChainOn(r, 2, v);
    ChainOn(r, 3, v);
    ChainOn(r, 4, v);
  }

  /** Chain, one section on. */
  lemma ChainOn(bs: seq<Biquad>, n: nat, v: real)
    requires n < |bs|
    ensures var (x, y) := (Chain(bs, n, v).0, Output(bs[n], Chain(bs, n, v).0));
            Chain(bs, n + 1, v) == (y, Chain(bs, n, v).1[n := Shift(bs[n], x, y)])
  {
  }

  lemma ChainTwo(r: seq<Biquad>, q: seq<Biquad>, v: real)
    requires Shadows(r, q)
    ensures Chain(r, 2, v).0 == Chain(q, 2, v).0
    ensures Chain(r, 2, v).1[0] == Chain(q, 2, v).1[0] && Chain(r, 2, v).1[1] == Chain(q, 2, v).1[1]
  {
    ChainOn(r, 0, v);
    ChainOn(r, 1, v);
    ChainOn(q, 0, v);
    ChainOn(q, 1, v);
  }

  lemma {:induction false} PlayFlat(m: Math, r: seq<Biquad>, q: seq<Biquad>, l: Loudness, input: seq<real>)
    requires Shadows(r, q) && UnityState(r)
    ensures Play(m, r, 5, l, input).0 == Play(m, q, 2, l, input).0
    ensures Shadows(Play(m, r, 5, l, input).1, Play(m, q, 2, l, input).1)
  {
    if input != [] {
      var k := |input| - 1;
      PlayFlat(m, r, q, l, input[..k]);
      ChainFlat(Play(m, r, 5, l, input[..k]).1, Play(m, q, 2, l, input[..k]).1, input[k]);
    }
  }

  lemma BlockFlat(m: Math, sr: real, s: Sections, t: Sections, c: Controls, input: seq<real>)
    requires Genuine(m) && sr > 0.0 && FlatBands(c) && Divisible(m, sr, Clamp(sr, Read(c)))
    requires Shadows(s.bq, t.bq)
    ensures var (a, b) := (Eager(Driver(m, sr), s, c, 5, input), Eager(Driver(m, sr), t, c, 2, input));
            a.0 == b.0 && Shadows(a.1.bq, b.1.bq)
  {
    FlatDesign(m, sr, c);
    var kit := Driver(m, sr);
    RecomputedShadows(kit, s, t, c);
    PlayFlat(m, Recomputed(kit, s, c).bq, Recomputed(kit, t, c).bq, Loud(m, c), input);
  }

  lemma RecomputedShadows(kit: Kit, s: Sections, t: Sections, c: Controls)
    requires Shadows(s.bq, t.bq) && UnityBands(kit.design(Clamp(kit.sr, Read(c))))
    ensures Shadows(Recomputed(kit, s, c).bq, Recomputed(kit, t, c).bq) && UnityState(Recomputed(kit, s, c).bq)
  {
  }

  /** With all three bands at 0 dB from activation on, every sample of the whole session is the one the high-pass
      and the limiter alone would have produced. */
  lemma {:induction false} FlatIsAbsent(m: Math, sr: real, s: Sections, calls: seq<Call>)
    requires Genuine(m) && sr > 0.0
    requires FlatCalls(m, sr, calls)
    ensures var (a, b) := (EagerSession(Driver(m, sr), Activated(s), calls, 5),
                           EagerSession(Driver(m, sr), Activated(s), calls, 2));
            a.0 == b.0 && Shadows(a.1.bq, b.1.bq)
  {
    if calls != [] {
      var k := |calls| - 1;
      var kit := Driver(m, sr);
      FlatIsAbsent(m, sr, s, calls[..k]);
      if calls[k].Block? {
        BlockFlat(m, sr, EagerSession(kit, Activated(s), calls[..k], 5).1,
                  EagerSession(kit, Activated(s), calls[..k], 2).1, calls[k].controls, calls[k].input);
      }
    }
  }

  /** The same for the plugin as it is, with its cached coefficients. */
  lemma FlatConfigIsHighpassAndLimiter(m: Math, sr: real, s: Sections, calls: seq<Call>)
    requires Genuine(m) && sr > 0.0
    requires FlatCalls(m, sr, calls)
    ensures Session(Driver(m, sr), Activated(s), calls, 5).0 == Session(Driver(m, sr), Activated(s), calls, 2).0
  {
    CachingTransparent(Driver(m, sr), Activated(s), calls, 5);
    CachingTransparent(Driver(m, sr), Activated(s), calls, 2);
    FlatIsAbsent(m, sr, s, calls);
  }
}
