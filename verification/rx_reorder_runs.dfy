/** The reorder window over unbounded numbers, and what it keeps over every run. */
module RxReorderRuns {
  import opened Bytes
  import opened RxReorder

  // ------------------------------------------------------------ unbounded numbers

  /** The number nearest to `base` whose 12-bit form is `sn`. */
  function Number(base: int, sn: Sn): int {
    var d := (sn - base) % 0x1000;
    if d < 0x800 then base + d else base + d - 0x1000
  }

  lemma NumberIs(base: int, sn: Sn)
    ensures Number(base, sn) % 0x1000 == sn && base - 0x800 <= Number(base, sn) < base + 0x800
  {
  }

  /** For numbers less than half the space apart, serial comparison is comparison. */
  lemma SerialOrder(a: int, b: int)
    requires -0x800 <= a - b < 0x800
    ensures SnLess(a % 0x1000, b % 0x1000) <==> a < b
    ensures a % 0x1000 == b % 0x1000 <==> a == b
  {
    var q := a / 0x1000 - b / 0x1000;
    assert a % 0x1000 - b % 0x1000 == (a - b) - 0x1000 * q;
    ModOf(a % 0x1000 - b % 0x1000, if a < b then -1 - q else -q, if a < b then a - b + 0x1000 else a - b);
    assert a % 0x1000 == b % 0x1000 ==> a - b == 0x1000 * q;
  }

  lemma ModOf(x: int, q: int, r: int)
    requires x == 0x1000 * q + r && 0 <= r < 0x1000
    ensures x % 0x1000 == r
  {
  }

  lemma AddMod(base: int, k: int)
    ensures (base % 0x1000 + k) % 0x1000 == (base + k) % 0x1000
  {
  }

  /** A frame with its unbounded number. */
  type Item = (int, Frame)

  predicate Ascending(buf: seq<Item>) {
    forall i, j :: 0 <= i < j < |buf| ==> buf[i].0 < buf[j].0
  }

  /** All numbers lie between `lo` and `hi`. */
  predicate Between(buf: seq<Item>, lo: int, hi: int) {
    forall i :: 0 <= i < |buf| ==> lo <= buf[i].0 <= hi
  }

  /** The list with each frame's unbounded number. */
  predicate Mirrors(list: seq<Frame>, buf: seq<Item>) {
    |list| == |buf| && forall i :: 0 <= i < |buf| ==> list[i] == buf[i].1 && list[i].sn == buf[i].0 % 0x1000
  }

  // ------------------------------------------------------------ the window over unbounded numbers

  function PlaceOf(buf: seq<Item>, v: int, k: nat): (p: nat)
    requires k <= |buf|
    ensures k <= p <= |buf|
    ensures forall i :: k <= i < p ==> buf[i].0 < v
    ensures p < |buf| ==> buf[p].0 >= v
    decreases |buf| - k
  {
    if k < |buf| && buf[k].0 < v then PlaceOf(buf, v, k + 1) else k
  }

  function ClimbTo(base: int, buf: seq<Item>, k: nat): (int, bool)
    requires k <= |buf|
    decreases |buf| - k
  {
    if k == |buf| then (base, false)
    else if base < buf[k].0 then (base, true)
    else ClimbTo(if base == buf[k].0 then base + 1 else base, buf, k + 1)
  }

  function DueTo(base: int, buf: seq<Item>): (n: nat)
    ensures n <= |buf|
    ensures forall i :: 0 <= i < n ==> buf[i].0 <= base
    ensures n < |buf| ==> base < buf[n].0
  {
    if buf == [] || base < buf[0].0 then 0 else 1 + DueTo(base, buf[1..])
  }

  lemma {:induction false} PlaceMirrors(list: seq<Frame>, buf: seq<Item>, v: int, k: nat)
    requires Mirrors(list, buf) && k <= |buf| && Between(buf, v - 0x7FF, v + 0x7FF)
    ensures Place(list, v % 0x1000, k) == PlaceOf(buf, v, k)
    decreases |buf| - k
  {
    if k < |buf| {
      SerialOrder(buf[k].0, v);
      PlaceMirrors(list, buf, v, k + 1);
    }
  }

  lemma {:induction false} ClimbMirrors(list: seq<Frame>, buf: seq<Item>, base: int, k: nat, hi: int)
    requires Mirrors(list, buf) && Ascending(buf) && k <= |buf| && base <= hi + 1
    requires forall i :: k <= i < |buf| ==> base - 0x7FF <= buf[i].0 <= base + 0x7FF && buf[i].0 <= hi
    ensures var (b, more) := ClimbTo(base, buf, k);
            Climb(base % 0x1000, list, k) == (b % 0x1000, more) && base <= b <= hi + 1
    decreases |buf| - k
  {
    if k < |buf| {
      SerialOrder(base, buf[k].0);
      var next := if base == buf[k].0 then base + 1 else base;
      AddMod(base, 1);
      if base >= buf[k].0 {
        ClimbMirrors(list, buf, next, k + 1, hi);
      }
    }
  }

  lemma {:induction false} DueMirrors(list: seq<Frame>, buf: seq<Item>, base: int)
    requires Mirrors(list, buf) && Between(buf, base - 0x7FF, base + 0x7FF)
    ensures Due(base % 0x1000, list) == DueTo(base, buf)
  {
    if buf != [] {
      SerialOrder(base, buf[0].0);
      DueMirrors(list[1..], buf[1..], base);
    }
  }

  /** The climb ends on no number of the list, and says whether one lies beyond. */
  lemma {:induction false} ClimbEnds(base: int, buf: seq<Item>, k: nat)
    requires Ascending(buf) && k <= |buf| && forall i :: 0 <= i < k ==> buf[i].0 < base
    ensures var (b, more) := ClimbTo(base, buf, k);
            && base <= b && (forall i :: 0 <= i < |buf| ==> buf[i].0 != b)
            && (more <==> DueTo(b, buf) < |buf|)
    decreases |buf| - k
  {
    if k < |buf| && base >= buf[k].0 {
      ClimbEnds(if base == buf[k].0 then base + 1 else base, buf, k + 1);
    }
  }

  // ------------------------------------------------------------ what is handed up

  /** A frame handed up from the window, or because it was behind it. */
  datatype Sent = InOrder(v: int, f: Frame) | Behind(v: int, f: Frame)

  function InOrders(items: seq<Item>): (r: seq<Sent>)
    ensures |r| == |items| && forall i :: 0 <= i < |items| ==> r[i] == InOrder(items[i].0, items[i].1)
  {
    seq(|items|, i requires 0 <= i < |items| => InOrder(items[i].0, items[i].1))
  }

  function Frames(log: seq<Sent>): (r: seq<Frame>)
    ensures |r| == |log| && forall i :: 0 <= i < |log| ==> r[i] == log[i].f
  {
    seq(|log|, i requires 0 <= i < |log| => log[i].f)
  }

  /** The frames from the window left in strictly ascending order, all below `bound`, as did those behind it;
      the numbers are those the frames carry. */
  predicate Ordered(log: seq<Sent>, bound: int) {
    && (forall i :: 0 <= i < |log| ==> log[i].v < bound && log[i].v % 0x1000 == log[i].f.sn)
    && (forall i, j :: 0 <= i < j < |log| && log[i].InOrder? && log[j].InOrder? ==> log[i].v < log[j].v)
  }

  /** Before the first frame, or with the window starting at `base`, the items waiting, and what was handed up. */
  datatype Track = Idle | Going(base: int, buf: seq<Item>, log: seq<Sent>)

  /** The window climbs from `base` and hands up what it has passed. */
  function Emit(base: int, buf: seq<Item>, log: seq<Sent>): Track {
    var b := ClimbTo(base, buf, 0).0;
    var n := DueTo(b, buf);
    Going(b, buf[n..], log + InOrders(buf[..n]))
  }

  function Entered(k: Track, f: Frame): Track {
    if k.Idle? then Going(f.sn, [], []) else k
  }

  /** Where the window starts once number `v`, not behind it, has arrived. */
  function Moved(base: int, v: int): int {
    if v == base then base + 1 else if v > base + 63 then v - 63 else base
  }

  function Inserted(buf: seq<Item>, p: nat, item: Item): seq<Item>
    requires p <= |buf|
  {
    buf[..p] + [item] + buf[p..]
  }

  /** The reference: the arrival of number `v`. */
  function TrackAt(k: Track, f: Frame, v: int): Track
    requires k.Going?
  {
    if v < k.base then k.(log := k.log + if f.rtp then [] else [Behind(v, f)])
    else
      var p := PlaceOf(k.buf, v, 0);
      if p < |k.buf| && k.buf[p].0 == v then k
      else Emit(Moved(k.base, v), Inserted(k.buf, p, (v, f)), k.log)
  }

  /** The number of a frame is the one nearest to the window's start. */
  function TrackArrive(k: Track, f: Frame): Track {
    var k := Entered(k, f);
    TrackAt(k, f, Number(k.base, f.sn))
  }

  /** A forced window starts at its first waiting frame. */
  function TrackWork(k: Track): Track {
    if k.Idle? || k.buf == [] then k else Emit(k.buf[0].0, k.buf, k.log)
  }

  /** Everything that waits lies in the 63 numbers behind the window's start, in order; what was handed up is in order
      and below. */
  predicate Sound(k: Track) {
    k.Going? ==> Ascending(k.buf) && Between(k.buf, k.base + 1, k.base + 63) && Ordered(k.log, k.base)
  }

  /** The driver's state is the 12-bit image of the track. */
  predicate Represents(s: State, k: Track) {
    match k
    case Idle => s.list == [] && (s.enable ==> s.ind == 0xFFFF)
    case Going(base, buf, _) => s.enable && s.ind == base % 0x1000 && Mirrors(s.list, buf)
  }

  /** A waiting frame has its timer or its work pending. */
  predicate Attended(s: State) {
    s.list != [] ==> s.timer || s.work
  }

  lemma WindowBack(v: int, sn: Sn)
    requires v % 0x1000 == sn
    ensures (v - 63) % 0x1000 == if sn >= 63 then sn - 63 else sn + 4033
  {
    AddMod(v, -63);
  }

  lemma CheckIs(base: int, sn: Sn)
    ensures var v := Number(base, sn);
            CheckSpec(base % 0x1000, sn) ==
            if v < base then Checked(true, base % 0x1000) else Checked(false, Moved(base, v) % 0x1000)
  {
    var v := Number(base, sn);
    NumberIs(base, sn);
    SerialOrder(v, base);
    AddMod(base, 63);
    AddMod(base, 1);
    WindowBack(v, sn);
    if v >= base {
      SerialOrder(base + 63, v);
    }
  }

  lemma OrderedMore(log: seq<Sent>, items: seq<Item>, lo: int, bound: int)
    requires Ordered(log, lo) && lo <= bound && Ascending(items)
    requires forall i :: 0 <= i < |items| ==> lo <= items[i].0 < bound && items[i].0 % 0x1000 == items[i].1.sn
    ensures Ordered(log + InOrders(items), bound)
  {
  }

  lemma FramesMore(log: seq<Sent>, list: seq<Frame>, buf: seq<Item>, n: nat)
    requires Mirrors(list, buf) && n <= |buf|
    ensures Frames(log + InOrders(buf[..n])) == Frames(log) + list[..n]
  {
  }

  lemma Remaining(list: seq<Frame>, buf: seq<Item>, n: nat, b: int, hi: int)
    requires Mirrors(list, buf) && Ascending(buf) && n <= |buf| && (n < |buf| ==> b < buf[n].0)
    requires hi <= b + 63 && forall i :: 0 <= i < |buf| ==> buf[i].0 <= hi
    ensures Mirrors(list[n..], buf[n..]) && Ascending(buf[n..]) && Between(buf[n..], b + 1, b + 63)
  {
    forall i | n <= i < |buf| ensures b < buf[i].0 {
    }
  }

  /** Climbing and handing up, in 12 bits and over unbounded numbers; `low` is above everything handed up before. */
  lemma EmitMirrors(s: State, base: int, buf: seq<Item>, log: seq<Sent>, low: int, lo: int, hi: int)
    requires Mirrors(s.list, buf) && Ascending(buf) && Between(buf, lo, hi) && Ordered(log, low)
    requires low <= lo && low <= base && lo - 1 <= base <= hi + 1 && hi - lo <= 0x7FE && hi - base <= 63
    requires s.ind == base % 0x1000
    ensures Sound(Emit(base, buf, log))
    ensures Emitted(s, Climb(s.ind, s.list, 0), log, Emit(base, buf, log))
  {
    var (b, more) := ClimbTo(base, buf, 0);
    ClimbMirrors(s.list, buf, base, 0, hi);
    ClimbEnds(base, buf, 0);
    DueMirrors(s.list, buf, b);
    var n := DueTo(b, buf);
    Remaining(s.list, buf, n, b, hi);
    FramesMore(log, s.list, buf, n);
    forall i | 0 <= i < n ensures buf[i].0 < b {
      assert buf[i].0 != b;
    }
    OrderedMore(log, buf[..n], low, b);
  }

  /** What handing up in 12 bits does, once the climb has ended with `c`. */
  predicate Emitted(s: State, c: (u16, bool), log: seq<Sent>, k: Track) {
    var n := Due(c.0, s.list);
    && k.Going? && c.0 == k.base % 0x1000 && Mirrors(s.list[n..], k.buf)
    && Frames(k.log) == Frames(log) + s.list[..n]
    && (c.1 <==> s.list[n..] != [])
  }

  // ------------------------------------------------------------ every event

  function LogOf(k: Track): seq<Sent> {
    if k.Idle? then [] else k.log
  }

  /** The event keeps the driver's state the image of a sound track, hands up what the track says, leaves no waiting
      frame unattended, and loses or doubles no frame; `came` are the frames that came in. */
  predicate Refines(s: State, k: Track, e: Effect, k': Track, came: multiset<Frame>) {
    && Sound(k') && Represents(e.state, k') && Attended(e.state)
    && Frames(LogOf(k')) == Frames(LogOf(k)) + e.up
    && multiset(e.up) + multiset(e.freed) + multiset(e.state.list) == multiset(s.list) + came
  }

  lemma PutMirrors(list: seq<Frame>, buf: seq<Item>, p: nat, v: int, f: Frame)
    requires Mirrors(list, buf) && Ascending(buf) && p <= |buf| && f.sn == v % 0x1000
    requires (forall i :: 0 <= i < p ==> buf[i].0 < v) && (p < |buf| ==> v < buf[p].0)
    ensures Mirrors(list[..p] + [f] + list[p..], Inserted(buf, p, (v, f))) && Ascending(Inserted(buf, p, (v, f)))
    ensures multiset(list[..p] + [f] + list[p..]) == multiset(list) + multiset{f}
  {
    assert list == list[..p] + list[p..];
  }

  lemma InsertedBetween(buf: seq<Item>, p: nat, v: int, f: Frame, base: int)
    requires p <= |buf| && Between(buf, base + 1, base + 63) && v >= base
    ensures Between(Inserted(buf, p, (v, f)), if v == base then base else base + 1,
                    if v > base + 63 then v else base + 63)
  {
  }

  lemma Split(list: seq<Frame>, n: nat)
    requires n <= |list|
    ensures multiset(list[..n]) + multiset(list[n..]) == multiset(list)
  {
    assert list == list[..n] + list[n..];
  }

  /** An arrival that is neither late nor waiting already, taken apart. */
  lemma ArriveAccepted(s: State, f: Frame, ind: u16, p: nat)
    requires s.enable && CheckSpec(s.ind, f.sn) == Checked(false, ind) && p == Place(s.list, f.sn, 0)
    requires p < |s.list| ==> s.list[p].sn != f.sn
    ensures var list := s.list[..p] + [f] + s.list[p..];
            var c := Climb(ind, list, 0);
            ArriveSpec(s, f) == HandUp(State(true, c.0, list, c.1, s.work))
  {
  }

  lemma HandUpRefines(s: State, k: Track, t: State, c: (u16, bool), e: Effect, k': Track, came: multiset<Frame>)
    requires Sound(k') && Emitted(t, c, LogOf(k), k') && multiset(t.list) == multiset(s.list) + came
    requires e == HandUp(State(true, c.0, t.list, e.state.timer, e.state.work))
    requires c.1 ==> e.state.timer
    ensures Refines(s, k, e, k', came)
  {
    Split(t.list, Due(c.0, t.list));
  }

  /** The same in terms of the track. */
  lemma AcceptIs(s: State, k: Track, f: Frame, v: int, p: nat)
    requires Sound(k) && k.Going? && Represents(s, k)
    requires v == Number(k.base, f.sn) && v >= k.base && p == PlaceOf(k.buf, v, 0)
    requires p < |k.buf| ==> k.buf[p].0 != v
    ensures p <= |s.list| && f.sn == v % 0x1000
    ensures var list := s.list[..p] + [f] + s.list[p..];
            var c := Climb(Moved(k.base, v) % 0x1000, list, 0);
            ArriveSpec(s, f) == HandUp(State(true, c.0, list, c.1, s.work))
  {
    NumberIs(k.base, f.sn);
    CheckIs(k.base, f.sn);
    PlaceMirrors(s.list, k.buf, v, 0);
    if p < |k.buf| {
      SerialOrder(k.buf[p].0, v);
    }
    ArriveAccepted(s, f, Moved(k.base, v) % 0x1000, p);
  }

  lemma AcceptRefines(s: State, k: Track, f: Frame, v: int, p: nat)
    requires Sound(k) && k.Going? && Represents(s, k)
    requires v == Number(k.base, f.sn) && v >= k.base && p == PlaceOf(k.buf, v, 0)
    requires p < |k.buf| ==> k.buf[p].0 != v
    ensures ArriveSpec(s, f).state.timer <==> ArriveSpec(s, f).state.list != []
    ensures Refines(s, k, ArriveSpec(s, f), Emit(Moved(k.base, v), Inserted(k.buf, p, (v, f)), k.log), multiset{f})
  {
    AcceptIs(s, k, f, v, p);
    NumberIs(k.base, f.sn);
    PutMirrors(s.list, k.buf, p, v, f);
    var list := s.list[..p] + [f] + s.list[p..];
    AcceptedRefines(s, k, State(true, Moved(k.base, v) % 0x1000, list, s.timer, s.work), v, p, f, ArriveSpec(s, f));
  }

  lemma AcceptedRefines(s: State, k: Track, t: State, v: int, p: nat, f: Frame, e: Effect)
    requires Sound(k) && k.Going? && p <= |k.buf| && k.base <= v <= k.base + 0x7FF
    requires Mirrors(t.list, Inserted(k.buf, p, (v, f))) && Ascending(Inserted(k.buf, p, (v, f)))
    requires t.ind == Moved(k.base, v) % 0x1000 && multiset(t.list) == multiset(s.list) + multiset{f}
    requires var c := Climb(t.ind, t.list, 0); e == HandUp(State(true, c.0, t.list, c.1, t.work))
    ensures e.state.timer <==> e.state.list != []
    ensures Refines(s, k, e, Emit(Moved(k.base, v), Inserted(k.buf, p, (v, f)), k.log), multiset{f})
  {
    var b, buf := Moved(k.base, v), Inserted(k.buf, p, (v, f));
    InsertedBetween(k.buf, p, v, f, k.base);
    EmitMirrors(t, b, buf, k.log, k.base, if v == k.base then k.base else k.base + 1,
                if v > k.base + 63 then v else k.base + 63);
    HandUpRefines(s, k, t, Climb(t.ind, t.list, 0), e, Emit(b, buf, k.log), multiset{f});
  }

  /** What a late arrival does: a frame that is not at the window's start goes up, unless it is RTP. */
  lemma LateIs(s: State, f: Frame)
    requires s.enable && CheckSpec(s.ind, f.sn) == Checked(true, s.ind) && f.sn != s.ind
    ensures ArriveSpec(s, f) == if f.rtp then Effect(s, [], [f]) else Effect(s, [f], [])
  {
  }

  lemma LateOutcome(s: State, k: Track, f: Frame, v: int, e: Effect)
    requires Sound(k) && k.Going? && Represents(s, k) && Attended(s) && v < k.base && v % 0x1000 == f.sn
    requires e == if f.rtp then Effect(s, [], [f]) else Effect(s, [f], [])
    ensures Refines(s, k, e, TrackAt(k, f, v), multiset{f})
  {
  }

  /** An arrival behind the window. */
  lemma LateRefines(s: State, k: Track, f: Frame)
    requires Sound(k) && k.Going? && Represents(s, k) && Attended(s) && Number(k.base, f.sn) < k.base
    ensures Refines(s, k, ArriveSpec(s, f), TrackArrive(k, f), multiset{f})
  {
    var v := Number(k.base, f.sn);
    NumberIs(k.base, f.sn);
    CheckIs(k.base, f.sn);
    SerialOrder(v, k.base);
    LateIs(s, f);
    LateOutcome(s, k, f, v, ArriveSpec(s, f));
  }

  /** An arrival whose number is waiting already. */
  lemma TwiceRefines(s: State, k: Track, f: Frame, p: nat)
    requires Sound(k) && k.Going? && Represents(s, k) && Attended(s) && Number(k.base, f.sn) >= k.base
    requires p == PlaceOf(k.buf, Number(k.base, f.sn), 0) && p < |k.buf| && k.buf[p].0 == Number(k.base, f.sn)
    ensures Refines(s, k, ArriveSpec(s, f), k, multiset{f})
  {
    NumberIs(k.base, f.sn);
    CheckIs(k.base, f.sn);
    PlaceMirrors(s.list, k.buf, Number(k.base, f.sn), 0);
  }

  lemma GoingRefines(s: State, k: Track, f: Frame)
    requires Sound(k) && k.Going? && Represents(s, k) && Attended(s)
    ensures Refines(s, k, ArriveSpec(s, f), TrackArrive(k, f), multiset{f})
  {
    var v := Number(k.base, f.sn);
    if v < k.base {
      LateRefines(s, k, f);
    } else {
      var p := PlaceOf(k.buf, v, 0);
      if p < |k.buf| && k.buf[p].0 == v {
        TwiceRefines(s, k, f, p);
      } else {
        AcceptRefines(s, k, f, v, p);
      }
    }
  }

  /** The first arrival: the window starts at its number. */
  lemma FirstIsGoing(s: State, k: Track, f: Frame)
    requires k.Idle? && Represents(s, k)
    ensures ArriveSpec(s, f) == ArriveSpec(Woken(s).(ind := f.sn), f)
    ensures TrackArrive(k, f) == TrackArrive(Going(f.sn, [], []), f)
  {
  }

  /** Every arrival does what the reference does. */
  lemma ArriveRefines(s: State, k: Track, f: Frame)
    requires Sound(k) && Represents(s, k) && Attended(s)
    ensures Refines(s, k, ArriveSpec(s, f), TrackArrive(k, f), multiset{f})
  {
    if k.Idle? {
      FirstIsGoing(s, k, f);
      GoingRefines(Woken(s).(ind := f.sn), Going(f.sn, [], []), f);
    } else {
      GoingRefines(s, k, f);
    }
  }

  lemma WorkRefines(s: State, k: Track)
    requires Sound(k) && Represents(s, k) && Attended(s)
    ensures Refines(s, k, WorkSpec(s), TrackWork(k), multiset{})
  {
    if k.Going? && k.buf != [] {
      var first := k.buf[0].0;
      var t := s.(ind := first % 0x1000);
      EmitMirrors(t, first, k.buf, k.log, k.base, k.base + 1, k.base + 63);
      HandUpRefines(s, k, t, Climb(t.ind, t.list, 0), WorkSpec(s), TrackWork(k), multiset{});
    }
  }

  // ------------------------------------------------------------ every run

  datatype Event = Arrive(f: Frame) | Fire | Work | Flush

  /** The driver's state and its track; what was handed up before each flush; all frames handed up, freed and given. */
  datatype World = World(s: State, k: Track, past: seq<seq<Sent>>, up: seq<Frame>, freed: seq<Frame>, given: seq<Frame>)

  /** A flush hands up what waits, in order, and forgets the window. */
  function Flushed(k: Track): seq<Sent> {
    if k.Idle? then [] else k.log + InOrders(k.buf)
  }

  function Step(w: World, ev: Event): World {
    match ev
    case Arrive(f) =>
      var e := ArriveSpec(w.s, f);
      w.(s := e.state, k := TrackArrive(w.k, f), up := w.up + e.up, freed := w.freed + e.freed, given := w.given + [f])
    case Fire => if w.s.timer then w.(s := FireSpec(w.s).state) else w
    case Work =>
      if w.s.work then
        var e := WorkSpec(w.s);
        w.(s := e.state, k := TrackWork(w.k), up := w.up + e.up)
      else w
    case Flush =>
      if w.s.enable then
        var e := FlushSpec(w.s);
        w.(s := e.state, k := Idle, past := w.past + [Flushed(w.k)], up := w.up + e.up)
      else w
  }

  const START := World(State(true, 0xFFFF, [], false, false), Idle, [], [], [], [])

  function Run(evs: seq<Event>): World {
    if evs == [] then START else Step(Run(evs[..|evs| - 1]), evs[|evs| - 1])
  }

  /** Every event of the run is good in the world it meets. */
  ghost predicate Throughout(good: (World, Event) -> bool, evs: seq<Event>) {
    forall n :: 0 <= n < |evs| ==> good(Run(evs[..n]), evs[n])
  }

  lemma ThroughoutFront(good: (World, Event) -> bool, evs: seq<Event>)
    requires evs != []
    ensures var n := |evs| - 1;
            Throughout(good, evs) <==> Throughout(good, evs[..n]) && good(Run(evs[..n]), evs[n])
  {
    var n := |evs| - 1;
    assert forall i :: 0 <= i <= n ==> evs[..n][..i] == evs[..i];
    assert forall i :: 0 <= i < n ==> evs[..n][i] == evs[i];
    forall i | 0 <= i < n ensures Run(evs[..n][..i]) == Run(evs[..i]) {
    }
  }

  /** What left between two flushes: the frames from the window in strictly ascending order. */
  predicate Ascends(log: seq<Sent>) {
    && (forall i :: 0 <= i < |log| ==> log[i].v % 0x1000 == log[i].f.sn)
    && (forall i, j :: 0 <= i < j < |log| && log[i].InOrder? && log[j].InOrder? ==> log[i].v < log[j].v)
  }

  predicate WorldOk(w: World) {
    && Sound(w.k) && Represents(w.s, w.k) && Attended(w.s)
    && (forall log :: log in w.past ==> Ascends(log))
    && w.up == Frames(Flatten(w.past) + LogOf(w.k))
    && multiset(w.up) + multiset(w.freed) + multiset(w.s.list) == multiset(w.given)
  }

  lemma FramesAppend(a: seq<Sent>, b: seq<Sent>)
    ensures Frames(a + b) == Frames(a) + Frames(b)
  {
  }

  lemma Balance(up: multiset<Frame>, freed: multiset<Frame>, list: multiset<Frame>, given: multiset<Frame>,
                up': multiset<Frame>, freed': multiset<Frame>, list': multiset<Frame>, came: multiset<Frame>)
    requires up + freed + list == given && up' + freed' + list' == list + came
    ensures (up + up') + (freed + freed') + list' == given + came
  {
    assert (up + up') + (freed + freed') + list' == (up + freed) + (up' + freed' + list');
    assert (up + freed) + (list + came) == (up + freed + list) + came;
  }

  /** A step that refines keeps the accounts. */
  lemma Accounts(w: World, e: Effect, k': Track, came: seq<Frame>)
    requires WorldOk(w) && Refines(w.s, w.k, e, k', multiset(came))
    ensures WorldOk(World(e.state, k', w.past, w.up + e.up, w.freed + e.freed, w.given + came))
  {
    FramesAppend(Flatten(w.past), LogOf(w.k));
    FramesAppend(Flatten(w.past), LogOf(k'));
    Assoc(Frames(Flatten(w.past)), Frames(LogOf(w.k)), e.up);
    Balance(multiset(w.up), multiset(w.freed), multiset(w.s.list), multiset(w.given),
            multiset(e.up), multiset(e.freed), multiset(e.state.list), multiset(came));
  }

  lemma FlushedAscends(k: Track, list: seq<Frame>)
    requires Sound(k) && k.Going? && Mirrors(list, k.buf)
    ensures Ascends(Flushed(k)) && Frames(Flushed(k)) == Frames(k.log) + list
  {
    OrderedMore(k.log, k.buf, k.base, k.base + 64);
  }

  /** What a flush hands up closes the epoch. */
  lemma FlushCloses(past: seq<seq<Sent>>, now: seq<Sent>, log: seq<Sent>, list: seq<Frame>)
    requires Frames(log) == Frames(now) + list
    ensures Frames(Flatten(past + [log]) + []) == Frames(Flatten(past) + now) + list
  {
    FlattenSnoc(past, log);
    FramesAppend(Flatten(past), now);
    FramesAppend(Flatten(past), log);
    Assoc(Frames(Flatten(past)), Frames(now), list);
    assert Flatten(past + [log]) + [] == Flatten(past + [log]);
  }

  /** A flush closes the epoch with what waits, in order. */
  lemma FlushUp(w: World)
    requires WorldOk(w) && w.s.enable
    ensures Ascends(Flushed(w.k))
    ensures Frames(Flatten(w.past + [Flushed(w.k)]) + []) == w.up + w.s.list
  {
    if w.k.Going? {
      FlushedAscends(w.k, w.s.list);
    }
    FlushCloses(w.past, LogOf(w.k), Flushed(w.k), w.s.list);
  }

  lemma FlushKeeps(w: World)
    requires WorldOk(w)
    ensures WorldOk(Step(w, Flush))
  {
    if w.s.enable {
      FlushUp(w);
      assert multiset(w.up + w.s.list) == multiset(w.up) + multiset(w.s.list);
    }
  }

  lemma StepKeeps(w: World, ev: Event)
    requires WorldOk(w)
    ensures WorldOk(Step(w, ev))
  {
    match ev
    case Arrive(f) =>
      ArriveRefines(w.s, w.k, f);
      assert multiset([f]) == multiset{f};
      Accounts(w, ArriveSpec(w.s, f), TrackArrive(w.k, f), [f]);
    case Fire =>
    case Work =>
      if w.s.work {
        WorkRefines(w.s, w.k);
        Accounts(w, WorkSpec(w.s), TrackWork(w.k), []);
        assert w.freed + [] == w.freed && w.given + [] == w.given;
      }
    case Flush => FlushKeeps(w);
  }

  /** Over every run of arrivals, timeouts and flushes: between two flushes the frames that wait in the window leave it
      in strictly ascending order of their unbounded numbers; every frame given is handed up once, freed once, or waits;
      and no frame waits without a timer or its work pending. */
  lemma {:induction false} RunOk(evs: seq<Event>)
    ensures WorldOk(Run(evs))
  {
    if evs != [] {
      RunOk(evs[..|evs| - 1]);
      StepKeeps(Run(evs[..|evs| - 1]), evs[|evs| - 1]);
    }
  }

  /** At most 63 frames wait. */
  lemma AtMost63(k: Track)
    requires Sound(k) && k.Going?
    ensures |k.buf| <= 63
  {
    Spread(k.buf, |k.buf|);
  }

  lemma {:induction false} Spread(buf: seq<Item>, n: nat)
    requires Ascending(buf) && n <= |buf|
    ensures n > 0 ==> buf[n - 1].0 >= buf[0].0 + n - 1
  {
    if n > 1 {
      Spread(buf, n - 1);
    }
  }

  // ------------------------------------------------------------ when nothing is skipped

  /** The numbers that left from the window. */
  function Numbers(log: seq<Sent>): seq<int> {
    if log == [] then []
    else
      var last := log[|log| - 1];
      Numbers(log[..|log| - 1]) + if last.InOrder? then [last.v] else []
  }

  function Range(lo: int, hi: int): seq<int>
    decreases hi - lo
  {
    if hi <= lo then [] else Range(lo, hi - 1) + [hi - 1]
  }

  /** Every number from `start` up to the window's start has left from the window, each once, in order. */
  predicate Gapless(k: Track, start: int) {
    k.Going? && start <= k.base && Numbers(k.log) == Range(start, k.base)
  }

  lemma {:induction false} NumbersMore(log: seq<Sent>, items: seq<Item>, start: int, base: int, n: nat)
    requires n <= |items| && start <= base && Numbers(log) == Range(start, base)
    requires forall i :: 0 <= i < n ==> items[i].0 == base + i
    ensures Numbers(log + InOrders(items[..n])) == Range(start, base + n)
  {
    if n == 0 {
      assert log + InOrders(items[..0]) == log;
    } else {
      NumbersMore(log, items, start, base, n - 1);
      var l := log + InOrders(items[..n]);
      assert l[..|l| - 1] == log + InOrders(items[..n - 1]);
    }
  }

  /** A climb from where the numbers so far are consecutive ends behind the longest consecutive front. */
  lemma {:induction false} ClimbRuns(base: int, buf: seq<Item>, k: nat) returns (n: nat)
    requires Ascending(buf) && k <= |buf| && forall i :: 0 <= i < k ==> buf[i].0 == base - k + i
    requires forall i :: k <= i < |buf| ==> buf[i].0 >= base
    ensures k <= n <= |buf| && ClimbTo(base, buf, k).0 == base - k + n
    ensures (forall i :: 0 <= i < n ==> buf[i].0 == base - k + i) && (n < |buf| ==> buf[n].0 > base - k + n)
    decreases |buf| - k
  {
    if k < |buf| && base == buf[k].0 {
      n := ClimbRuns(base + 1, buf, k + 1);
    } else {
      n := k;
    }
  }

  lemma DueIs(b: int, buf: seq<Item>, n: nat)
    requires Ascending(buf) && n <= |buf|
    requires (forall i :: 0 <= i < n ==> buf[i].0 <= b) && (n < |buf| ==> buf[n].0 > b)
    ensures DueTo(b, buf) == n
  {
  }

  /** A climb over a list that begins with the window's old start. */
  lemma EmitRuns(base: int, buf: seq<Item>, log: seq<Sent>) returns (n: nat)
    requires Ascending(buf) && buf != [] && buf[0].0 == base
    ensures 0 < n <= |buf| && (forall i :: 0 <= i < n ==> buf[i].0 == base + i)
    ensures Emit(base + 1, buf, log) == Going(base + n, buf[n..], log + InOrders(buf[..n]))
  {
    n := ClimbRuns(base + 1, buf, 1);
    assert ClimbTo(base + 1, buf, 0) == ClimbTo(base + 1, buf, 1);
    DueIs(base + n, buf, n);
  }

  lemma PlaceFirst(buf: seq<Item>, v: int, lo: int, hi: int)
    requires Between(buf, lo, hi) && v < lo
    ensures PlaceOf(buf, v, 0) == 0 && (buf != [] ==> buf[0].0 != v)
  {
  }

  lemma GaplessAfter(base: int, buf: seq<Item>, log: seq<Sent>, n: nat, t: Track, start: int)
    requires n <= |buf| && t == Going(base + n, buf[n..], log + InOrders(buf[..n]))
    requires forall i :: 0 <= i < n ==> buf[i].0 == base + i
    requires start <= base && Numbers(log) == Range(start, base)
    ensures Gapless(t, start)
  {
    NumbersMore(log, buf, start, base, n);
  }

  lemma InsertedFirst(k: Track, f: Frame, t: Track) returns (buf: seq<Item>)
    requires Sound(k) && k.Going? && t == TrackAt(k, f, k.base)
    ensures t == Emit(k.base + 1, buf, k.log) && Ascending(buf) && buf != [] && buf[0] == (k.base, f)
  {
    PlaceFirst(k.buf, k.base, k.base + 1, k.base + 63);
    buf := Inserted(k.buf, 0, (k.base, f));
    InsertedAscends(k.buf, k.base, f);
  }

  /** The next number arrives: it leaves at once, and with it the consecutive ones that waited for it. */
  lemma NextGapless(k: Track, f: Frame, t: Track, start: int)
    requires Sound(k) && Gapless(k, start) && t == TrackAt(k, f, k.base)
    ensures Gapless(t, start)
  {
    var buf := InsertedFirst(k, f, t);
    var n := EmitRuns(k.base, buf, k.log);
    GaplessAfter(k.base, buf, k.log, n, t, start);
  }

  lemma InsertedAscends(buf: seq<Item>, v: int, f: Frame)
    requires Ascending(buf) && Between(buf, v + 1, v + 63)
    ensures var r := Inserted(buf, 0, (v, f)); Ascending(r) && r != [] && r[0] == (v, f)
  {
  }

  lemma EmitNothing(base: int, buf: seq<Item>, log: seq<Sent>)
    requires buf != [] && base < buf[0].0
    ensures Emit(base, buf, log) == Going(base, buf, log)
  {
    assert log + InOrders(buf[..0]) == log;
  }

  /** A number inside the window, with one missing before it, waits. */
  lemma WaitStays(k: Track, f: Frame, v: int, t: Track)
    requires Sound(k) && k.Going? && k.base < v <= k.base + 63 && t == TrackAt(k, f, v)
    ensures t.Going? && t.base == k.base && t.log == k.log
  {
    var p := PlaceOf(k.buf, v, 0);
    if !(p < |k.buf| && k.buf[p].0 == v) {
      EmitNothing(k.base, Inserted(k.buf, p, (v, f)), k.log);
    }
  }

  lemma SameGapless(k: Track, t: Track, start: int)
    requires Gapless(k, start) && t.Going? && t.base == k.base && t.log == k.log
    ensures Gapless(t, start)
  {
  }

  /** A frame behind the window is no part of the order. */
  lemma LateGapless(k: Track, f: Frame, v: int, t: Track, start: int)
    requires Gapless(k, start) && v < k.base && t == TrackAt(k, f, v)
    ensures Gapless(t, start)
  {
    if !f.rtp {
      assert t.log[..|t.log| - 1] == k.log;
    } else {
      assert t.log == k.log;
    }
  }

  /** Frames arrive no further than the window reaches, and the timer's work does not force it. */
  predicate Calm(w: World, ev: Event) {
    match ev
    case Arrive(f) => w.k.Going? ==> Number(w.k.base, f.sn) <= w.k.base + 63
    case Fire => true
    case Work => !w.s.work
    case Flush => !w.s.enable
  }

  /** As long as no frame overshoots the window and no timeout forces it, nothing is skipped: the frames that left the
      window carry exactly the consecutive numbers from the first frame's on. */
  lemma {:induction false} NothingSkipped(evs: seq<Event>)
    requires Throughout(Calm, evs)
    ensures Run(evs).k.Going? ==> exists start :: Gapless(Run(evs).k, start)
  {
    if evs != [] {
      var n := |evs| - 1;
      ThroughoutFront(Calm, evs);
      NothingSkipped(evs[..n]);
      RunOk(evs[..n]);
      CalmStep(Run(evs[..n]), evs[n]);
    }
  }

  lemma CalmStep(w: World, ev: Event)
    requires WorldOk(w) && Calm(w, ev) && (w.k.Going? ==> exists start :: Gapless(w.k, start))
    ensures Step(w, ev).k.Going? ==> exists start :: Gapless(Step(w, ev).k, start)
  {
    if ev.Arrive? {
      CalmArrival(w.k, ev.f, TrackArrive(w.k, ev.f));
    }
  }

  lemma CalmArrival(k: Track, f: Frame, t: Track)
    requires Sound(k) && (k.Going? ==> exists start :: Gapless(k, start)) && t == TrackArrive(k, f)
    requires k.Going? ==> Number(k.base, f.sn) <= k.base + 63
    ensures exists start :: Gapless(t, start)
  {
    var j := Entered(k, f);
    if k.Idle? {
      assert Gapless(j, f.sn);
      ArriveGapless(j, f, Number(j.base, f.sn), t, f.sn);
    } else {
      var start :| Gapless(k, start);
      ArriveGapless(k, f, Number(k.base, f.sn), t, start);
    }
  }

  lemma ArriveGapless(k: Track, f: Frame, v: int, t: Track, start: int)
    requires Sound(k) && Gapless(k, start) && v <= k.base + 63 && t == TrackAt(k, f, v)
    ensures Gapless(t, start)
  {
    if v < k.base {
      LateGapless(k, f, v, t, start);
    } else if v == k.base {
      NextGapless(k, f, t, start);
    } else {
      WaitStays(k, f, v, t);
      SameGapless(k, t, start);
    }
  }

  // ------------------------------------------------------------ nothing waits longer than it must

  /** The frame the window starts at is handed up by its own arrival. */
  lemma NextDelivered(k: Track, f: Frame)
    requires Sound(k) && k.Going? && Number(k.base, f.sn) == k.base
    ensures var t := TrackArrive(k, f);
            t.Going? && t.base > k.base && |t.log| > |k.log| && t.log[|k.log|] == InOrder(k.base, f)
  {
    DeliveredAt(k, f, TrackArrive(k, f));
  }

  lemma DeliveredAt(k: Track, f: Frame, t: Track)
    requires Sound(k) && k.Going? && t == TrackAt(k, f, k.base)
    ensures t.Going? && t.base > k.base && |t.log| > |k.log| && t.log[|k.log|] == InOrder(k.base, f)
  {
    var buf := InsertedFirst(k, f, t);
    var n := EmitRuns(k.base, buf, k.log);
    FirstEmitted(t, k.base, buf, k.log, n);
  }

  lemma FirstEmitted(t: Track, base: int, buf: seq<Item>, log: seq<Sent>, n: nat)
    requires 0 < n <= |buf| && t == Going(base + n, buf[n..], log + InOrders(buf[..n]))
    ensures t.base > base && |t.log| > |log| && t.log[|log|] == InOrder(buf[0].0, buf[0].1)
  {
  }

  /** So is the first frame of all. */
  lemma FirstDelivered(f: Frame)
    ensures var t := TrackArrive(Idle, f); t.Going? && t.base > f.sn && |t.log| > 0 && t.log[0] == InOrder(f.sn, f)
  {
    var k := Going(f.sn, [], []);
    NextDelivered(k, f);
    assert TrackArrive(Idle, f) == TrackArrive(k, f);
  }

  /** A timeout hands up at least the first frame that waits. */
  lemma WorkDelivers(k: Track)
    requires Sound(k) && k.Going? && k.buf != []
    ensures var t := TrackWork(k);
            t.Going? && t.base > k.buf[0].0 && |t.log| > |k.log| && t.log[|k.log|] == InOrder(k.buf[0].0, k.buf[0].1)
  {
    var n := EmitRuns(k.buf[0].0, k.buf, k.log);
    assert ClimbTo(k.buf[0].0, k.buf, 0) == ClimbTo(k.buf[0].0 + 1, k.buf, 1) == ClimbTo(k.buf[0].0 + 1, k.buf, 0);
  }

  /** After the arrival of a frame that is neither behind nor waiting already, the timer runs exactly if something
      waits. */
  lemma TimerIff(s: State, k: Track, f: Frame)
    requires Sound(k) && k.Going? && Represents(s, k) && Number(k.base, f.sn) >= k.base
    requires forall i :: 0 <= i < |k.buf| ==> k.buf[i].0 != Number(k.base, f.sn)
    ensures ArriveSpec(s, f).state.timer <==> ArriveSpec(s, f).state.list != []
  {
    var v := Number(k.base, f.sn);
    AcceptRefines(s, k, f, v, PlaceOf(k.buf, v, 0));
  }

  // ------------------------------------------------------------ when everything leaves in order

  /** Everything handed up, the frames behind the window included, is in strictly ascending order. */
  predicate AllAscending(log: seq<Sent>) {
    forall i, j :: 0 <= i < j < |log| ==> log[i].v < log[j].v
  }

  /** The frame is behind the window, and its number or a later one has been handed up. */
  predicate Overtaken(k: Track, f: Frame, v: int)
    requires k.Going?
  {
    v < k.base && !f.rtp && exists i :: 0 <= i < |k.log| && k.log[i].v >= v
  }

  lemma EmitAscends(base: int, buf: seq<Item>, log: seq<Sent>, low: int)
    requires AllAscending(log) && Ordered(log, low)
    requires Ascending(buf) && forall i :: 0 <= i < |buf| ==> buf[i].0 >= low
    ensures AllAscending(Emit(base, buf, log).log)
  {
  }

  lemma AcceptedAscends(k: Track, f: Frame, v: int, p: nat)
    requires Sound(k) && k.Going? && AllAscending(k.log) && v >= k.base
    requires p == PlaceOf(k.buf, v, 0) && (p < |k.buf| ==> k.buf[p].0 != v)
    ensures AllAscending(Emit(Moved(k.base, v), Inserted(k.buf, p, (v, f)), k.log).log)
  {
    InsertedBetween(k.buf, p, v, f, k.base);
    EmitAscends(Moved(k.base, v), Inserted(k.buf, p, (v, f)), k.log, k.base);
  }

  /** Order is lost exactly by handing up a frame that was overtaken. */
  lemma ArrivalLosesIff(k: Track, f: Frame)
    requires Sound(k) && k.Going? && AllAscending(k.log)
    ensures AllAscending(TrackArrive(k, f).log) <==> !Overtaken(k, f, Number(k.base, f.sn))
  {
    ArrivalLosesAt(k, f, Number(k.base, f.sn), TrackArrive(k, f));
  }

  lemma ArrivalLosesAt(k: Track, f: Frame, v: int, t: Track)
    requires Sound(k) && k.Going? && AllAscending(k.log) && t == TrackAt(k, f, v)
    ensures AllAscending(t.log) <==> !Overtaken(k, f, v)
  {
    if v < k.base {
      var n := |k.log|;
      if Overtaken(k, f, v) {
        var i :| 0 <= i < n && k.log[i].v >= v;
        assert t.log[i] == k.log[i] && t.log[n].v == v;
      }
    } else {
      var p := PlaceOf(k.buf, v, 0);
      if !(p < |k.buf| && k.buf[p].0 == v) {
        AcceptedAscends(k, f, v, p);
      }
    }
  }

  /** A timeout never costs the order. */
  lemma WorkAscends(k: Track)
    requires Sound(k) && k.Going? && AllAscending(k.log)
    ensures AllAscending(TrackWork(k).log)
  {
    if k.buf != [] {
      EmitAscends(k.buf[0].0, k.buf, k.log, k.base);
    }
  }

  /** The event hands up no frame that was overtaken. */
  predicate Timely(w: World, ev: Event) {
    ev.Arrive? && w.k.Going? ==> !Overtaken(w.k, ev.f, Number(w.k.base, ev.f.sn))
  }

  /** What was handed up between any two flushes, and since the last one, is in strictly ascending order. */
  predicate InOrderSoFar(w: World) {
    (forall log :: log in w.past ==> AllAscending(log)) && AllAscending(LogOf(w.k))
  }

  lemma PrefixAscends(a: seq<Sent>, b: seq<Sent>)
    requires AllAscending(a + b)
    ensures AllAscending(a)
  {
    forall i, j | 0 <= i < j < |a| ensures a[i].v < a[j].v {
      assert (a + b)[i] == a[i] && (a + b)[j] == a[j];
    }
  }

  /** An arrival only adds to what was handed up. */
  lemma ArrivalExtends(k: Track, f: Frame, t: Track) returns (more: seq<Sent>)
    requires k.Going? && t == TrackArrive(k, f)
    ensures t.Going? && t.log == k.log + more
  {
    more := t.log[|k.log|..];
  }

  lemma ArrivalOrder(k: Track, f: Frame)
    requires Sound(k)
    ensures AllAscending(LogOf(TrackArrive(k, f))) <==>
            AllAscending(LogOf(k)) && !(k.Going? && Overtaken(k, f, Number(k.base, f.sn)))
  {
    if k.Idle? {
      var j := Going(f.sn, [], []);
      ArrivalLosesIff(j, f);
      assert TrackArrive(k, f) == TrackArrive(j, f);
    } else if AllAscending(k.log) {
      ArrivalLosesIff(k, f);
    } else {
      var more := ArrivalExtends(k, f, TrackArrive(k, f));
      if AllAscending(k.log + more) {
        PrefixAscends(k.log, more);
      }
    }
  }

  lemma WorkOrder(k: Track)
    requires Sound(k)
    ensures AllAscending(LogOf(TrackWork(k))) <==> AllAscending(LogOf(k))
  {
    if k.Going? && k.buf != [] {
      if AllAscending(k.log) {
        WorkAscends(k);
      } else {
        var t := TrackWork(k);
        assert t.log == k.log + t.log[|k.log|..];
        if AllAscending(t.log) {
          PrefixAscends(k.log, t.log[|k.log|..]);
        }
      }
    }
  }

  lemma FlushOrder(k: Track)
    requires Sound(k)
    ensures AllAscending(Flushed(k)) <==> AllAscending(LogOf(k))
  {
    if k.Going? && AllAscending(k.log + InOrders(k.buf)) {
      PrefixAscends(k.log, InOrders(k.buf));
    }
  }

  lemma StepOrder(w: World, ev: Event)
    requires WorldOk(w)
    ensures InOrderSoFar(Step(w, ev)) <==> InOrderSoFar(w) && Timely(w, ev)
  {
    match ev
    case Arrive(f) => ArrivalOrder(w.k, f);
    case Fire =>
    case Work => WorkOrder(w.k);
    case Flush =>
      FlushOrder(w.k);
      var past := w.past + [Flushed(w.k)];
      assert Flushed(w.k) in past && forall log :: log in past <==> log in w.past || log == Flushed(w.k);
  }

  /** Over every run: all that was handed up between flushes, the frames behind the window included, is in order if and
      only if no frame had been overtaken when it came. */
  lemma {:induction false} OrderLostIff(evs: seq<Event>)
    ensures InOrderSoFar(Run(evs)) <==> Throughout(Timely, evs)
  {
    if evs != [] {
      var n := |evs| - 1;
      OrderLostIff(evs[..n]);
      RunOk(evs[..n]);
      StepOrder(Run(evs[..n]), evs[n]);
      ThroughoutFront(Timely, evs);
    }
  }

  /** A frame behind the window is handed up at once: number 4 after number 5, and number 5 a second time. */
  lemma BehindOutOfOrder(a: Frame, b: Frame, c: Frame)
    requires a.sn == 5 && b.sn == 4 && c.sn == 5 && !b.rtp && !c.rtp
    ensures var one := ArriveSpec(START.s, a);
            var two := ArriveSpec(one.state, b);
            one.up == [a] && two.up == [b] && ArriveSpec(two.state, c).up == [c]
  {
    FirstAlone(a);
    assert SnLess(4, 6) && SnLess(5, 6);
  }

  lemma FirstAlone(a: Frame)
    requires a.sn == 5
    ensures var e := ArriveSpec(START.s, a); e.state.enable && e.state.ind == 6 && e.up == [a]
  {
    assert CheckSpec(0xFFFF, 5) == Checked(false, 6);
    var none: seq<Frame> := [];
    assert none[..0] + [a] + none[0..] == [a];
    ArriveAccepted(START.s, a, 6, 0);
    assert Climb(6, [a], 0) == Climb(6, [a], 1) == (6, false);
    assert [a][1..] == none;
    assert Due(6, [a]) == 1 + Due(6, none);
  }
}
