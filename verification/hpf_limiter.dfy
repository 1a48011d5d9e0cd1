/** The speaker voicing plugin: five biquads with cached coefficients, makeup gain and a soft limiter. */
module HpfLimiter {
  import opened Cookbook

  /** A control port that may be left unconnected. */
  datatype Port = Open | Connected(value: real)

  datatype Controls = Controls(cutoff: Port, warmthHz: Port, warmthDb: Port, presenceHz: Port, presenceQ: Port,
                               presenceDb: Port, airHz: Port, airDb: Port, makeup: Port, ceiling: Port)

  function Val(p: Port, dflt: real): real {
    if p.Connected? then p.value else dflt
  }

  /** The control values the coefficients depend on. */
  datatype Tuned = Tuned(cut: real, whz: real, wdb: real, phz: real, pq: real, pdb: real, ahz: real, adb: real)

  function Read(c: Controls): Tuned {
    Tuned(Val(c.cutoff, 180.0), Val(c.warmthHz, 250.0), Val(c.warmthDb, 0.0), Val(c.presenceHz, 2500.0),
          Val(c.presenceQ, 1.0), Val(c.presenceDb, 0.0), Val(c.airHz, 8000.0), Val(c.airDb, 0.0))
  }

  function AtMost(x: real, top: real): real {
    if x > top then top else x
  }

  function AtLeast(x: real, bottom: real): real {
    if x < bottom then bottom else x
  }

  function Clamp(sr: real, t: Tuned): Tuned {
    var nyq := sr * 0.45;
    t.(cut := AtMost(AtLeast(t.cut, 20.0), nyq), whz := AtMost(t.whz, nyq), phz := AtMost(t.phz, nyq),
       ahz := AtMost(t.ahz, nyq), pq := AtLeast(t.pq, 0.1))
  }

  /** The five sections: two high-passes, warmth, presence and air. */
  function Design(m: Math, sr: real, t: Tuned): Bank
  {
    [Normal(m, Highpass(m, sr, t.cut, 0.54119610)),
     Normal(m, Highpass(m, sr, t.cut, 1.30656296)),
     Normal(m, LowShelf(m, sr, t.whz, 0.70710678, t.wdb)),
     Normal(m, Peaking(m, sr, t.phz, t.pq, t.pdb)),
     Normal(m, HighShelf(m, sr, t.ahz, 0.70710678, t.adb))]
  }

  type Bank = c: seq<Coef> | |c| == 5 witness seq(5, _ => Coef(0.0, 0.0, 0.0, 0.0, 0.0))

  /** What a plugin instance is built on: its mathematics, its sample rate and how it designs its sections. */
  datatype Kit = Kit(m: Math, sr: real, design: Tuned -> Bank)

  function Driver(m: Math, sr: real): Kit {
    Kit(m, sr, t => Design(m, sr, t))
  }

  // ------------------------------------------------------------ filtering

  /** A section: its coefficients and its last two inputs and outputs. */
  datatype Biquad = Biquad(c: Coef, x1: real, x2: real, y1: real, y2: real)

  function Output(b: Biquad, v: real): real {
    b.c.b0 * v + b.c.b1 * b.x1 + b.c.b2 * b.x2 - b.c.a1 * b.y1 - b.c.a2 * b.y2
  }

  function Shift(b: Biquad, v: real, y: real): Biquad {
    b.(x2 := b.x1, x1 := v, y2 := b.y1, y1 := y)
  }

  /** A sample through the first `n` sections: what comes out, and the sections afterwards. */
  function Chain(bs: seq<Biquad>, n: nat, v: real): (r: (real, seq<Biquad>))
    requires n <= |bs|
    ensures |r.1| == |bs|
    ensures forall i :: n <= i < |bs| ==> r.1[i] == bs[i]
    ensures forall i :: 0 <= i < |bs| ==> r.1[i].c == bs[i].c
  {
    if n == 0 then (v, bs)
    else
      var (x, cs) := Chain(bs, n - 1, v);
      var y := Output(bs[n - 1], x);
      (y, cs[n - 1 := Shift(bs[n - 1], x, y)])
  }

  /** Makeup gain and ceiling of a block. */
  datatype Loudness = Loudness(gain: real, ceil: real)

  function Loud(m: Math, c: Controls): (l: Loudness)
    ensures 0.05 <= l.ceil <= 1.0
  {
    Loudness(m.pow10(m.quot(Val(c.makeup, 0.0), 20.0)), AtMost(AtLeast(Val(c.ceiling, 1.0), 0.05), 1.0))
  }

  /** The amplified sample in terms of the ceiling. */
  function Drive(m: Math, l: Loudness, v: real): real {
    v * l.gain * m.quot(1.0, l.ceil)
  }

  function Limit(m: Math, l: Loudness, v: real): real {
    l.ceil * m.tanh(Drive(m, l, v))
  }

  /** A block of samples through the first `n` sections and the limiter. */
  function Play(m: Math, bs: seq<Biquad>, n: nat, l: Loudness, input: seq<real>): (r: (seq<real>, seq<Biquad>))
    requires n <= |bs|
    ensures |r.0| == |input| && |r.1| == |bs|
    ensures forall i :: 0 <= i < |bs| ==> r.1[i].c == bs[i].c
  {
    if input == [] then ([], bs)
    else
      var k := |input| - 1;
      var (out, cs) := Play(m, bs, n, l, input[..k]);
      var (v, ds) := Chain(cs, n, input[k]);
      (out + [Limit(m, l, v)], ds)
  }

  // ------------------------------------------------------------ the plugin

  datatype State = State(bq: seq<Biquad>, cached: Tuned, primed: bool)

  predicate Moved(s: State, c: Controls) {
    !s.primed || Read(c) != s.cached
  }

  function WithCoefs(bs: seq<Biquad>, cs: seq<Coef>): (r: seq<Biquad>)
    requires |bs| == |cs|
    ensures |r| == |bs| && forall i :: 0 <= i < |bs| ==> r[i] == bs[i].(c := cs[i])
  {
    seq(|bs|, i requires 0 <= i < |bs| => bs[i].(c := cs[i]))
  }

  function Recomputed(kit: Kit, s: State, c: Controls): State
    requires |s.bq| == 5
  {
    var t := Clamp(kit.sr, Read(c));
    State(WithCoefs(s.bq, kit.design(t)), t, true)
  }

  function Silent(b: Biquad): Biquad {
    b.(x1 := 0.0, x2 := 0.0, y1 := 0.0, y2 := 0.0)
  }

  function Activated(s: State): (t: State)
    ensures |t.bq| == |s.bq|
  {
    State(seq(|s.bq|, i requires 0 <= i < |s.bq| => Silent(s.bq[i])), s.cached, false)
  }

  /** One call of run; `n` is 5 for the whole chain. */
  function Rendered(m: Math, s: State, c: Controls, n: nat, input: seq<real>): (seq<real>, State)
    requires n <= |s.bq|
  {
    var (out, bs) := Play(m, s.bq, n, Loud(m, c), input);
    (out, s.(bq := bs))
  }

  /** What run does: coefficients are recomputed only when a control differs from its cached value. */
  function RunSpec(kit: Kit, s: State, c: Controls, n: nat, input: seq<real>): (r: (seq<real>, State))
    requires |s.bq| == 5 && n <= 5
    ensures |r.1.bq| == 5
  {
    Rendered(kit.m, if Moved(s, c) then Recomputed(kit, s, c) else s, c, n, input)
  }

  class Plugin {
    const kit: Kit
    const bq: array<Biquad>
    var cached: Tuned
    var primed: bool

    ghost predicate Valid()
    {
      bq.Length == 5
    }

    ghost function View(): State
      reads this, bq
    {
      State(bq[..], cached, primed)
    }

    /** instantiate: everything zero. */
    constructor (kit: Kit)
      ensures Valid() && fresh(bq) && !primed && this.kit == kit
    {
      this.kit, primed := kit, false;
      cached := Tuned(0.0, 0.0, 0.0, 0.0, 0.0, 0.0, 0.0, 0.0);
      bq := new Biquad[5](_ => Biquad(Coef(0.0, 0.0, 0.0, 0.0, 0.0), 0.0, 0.0, 0.0, 0.0));
    }

    method Recompute(c: Controls)
      requires Valid()
      modifies this, bq
      ensures View() == Recomputed(kit, old(View()), c)
    {
      var nyq := kit.sr * 0.45;
      var t := Read(c);
      var cut, whz, phz, ahz, pq := t.cut, t.whz, t.phz, t.ahz, t.pq;
      if cut < 20.0 { cut := 20.0; }
      if cut > nyq { cut := nyq; }
      if whz > nyq { whz := nyq; }
      if phz > nyq { phz := nyq; }
      if ahz > nyq { ahz := nyq; }
      if pq < 0.1 { pq := 0.1; }
      cached := Tuned(cut, whz, t.wdb, phz, pq, t.pdb, ahz, t.adb);
      assert cached == Clamp(kit.sr, t);
      SetCoefs(kit.design(cached));
      primed := true;
    }

    /** Writes the coefficients; the histories stay. */
    method SetCoefs(cs: Bank)
      requires Valid()
      modifies bq
      ensures bq[..] == WithCoefs(old(bq[..]), cs)
    {
      for i := 0 to 5
        invariant forall k :: 0 <= k < 5 ==> bq[k] == if k < i then old(bq[k]).(c := cs[k]) else old(bq[k])
      {
        bq[i] := bq[i].(c := cs[i]);
      }
    }

    method Activate()
      requires Valid()
      modifies this, bq
      ensures View() == Activated(old(View()))
    {
      for i := 0 to 5
        invariant forall k :: 0 <= k < 5 ==> bq[k] == if k < i then Silent(old(bq[k])) else old(bq[k])
        invariant cached == old(cached)
      {
        bq[i] := bq[i].(x1 := 0.0, x2 := 0.0, y1 := 0.0, y2 := 0.0);
      }
      primed := false;
      assert bq[..] == Activated(old(View())).bq;
    }

    /** The inner loop of run: one sample through the sections, each updated in place. */
    method Sample(v0: real) returns (v: real)
      requires Valid()
      modifies bq
      ensures (v, bq[..]) == Chain(old(bq[..]), 5, v0)
    {
      v := v0;
      for s := 0 to 5
        invariant (v, bq[..]) == Chain(old(bq[..]), s, v0)
      {
        ghost var cs := bq[..];
        var b := bq[s];
        var y := Output(b, v);
        bq[s] := b.(x2 := b.x1, x1 := v, y2 := b.y1, y1 := y);
        assert bq[..] == cs[s := Shift(b, v, y)];
        v := y;
      }
    }

    /** The sample loop of run; the output may be the input buffer. */
    method Block(l: Loudness, input: array<real>, output: array<real>, n: nat)
      requires Valid() && n <= input.Length && n <= output.Length
      modifies bq, output
      ensures (output[..n], bq[..]) == Play(kit.m, old(bq[..]), 5, l, old(input[..n]))
      ensures output[n..] == old(output[n..])
    {
      ghost var bs, was, rest := bq[..], input[..n], output[n..];
      for i := 0 to n
        invariant output[..i] == Play(kit.m, bs, 5, l, was[..i]).0
        invariant bq[..] == Play(kit.m, bs, 5, l, was[..i]).1
        invariant forall k :: i <= k < n ==> input[k] == was[k]
        invariant output[n..] == rest
      {
        ghost var out := output[..i];
        var v := Sample(input[i]);
        assert was[..i + 1][..i] == was[..i];
        output[i] := Limit(kit.m, l, v);
        assert output[..i + 1] == out + [Limit(kit.m, l, v)];
      }
      assert was[..n] == was;
    }

    /** run. */
    method Run(c: Controls, input: array<real>, output: array<real>, n: nat)
      requires Valid() && n <= input.Length && n <= output.Length
      modifies this, bq, output
      ensures (output[..n], View()) == RunSpec(kit, old(View()), c, 5, old(input[..n]))
      ensures output[n..] == old(output[n..])
    {
      var l := Loud(kit.m, c);
      if !primed || Read(c) != cached {
        Recompute(c);
      }
      Block(l, input, output, n);
    }
  }
}
