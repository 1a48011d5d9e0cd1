/** What holds over every run of the acknowledgement filter. */
module TcpAckRuns {
  import opened Bytes
  import opened TcpAck

  datatype Event =
    | Send(m: Msg, a: Ack, now: nat)
    | Timer(i: nat, late: bool)
    | Pushed(flow: Flow, num: u32)
    | Moved(m: Msg)
    | Deinit

  /** What one event does with messages: hand one back to the caller, transmit one from the timer, free some. */
  datatype Effect = Effect(table: Table, returned: seq<Msg>, sent: seq<Msg>, freed: seq<Msg>)

  function AsSeq(o: Option<Msg>): seq<Msg> {
    if o.Some? then [o.value] else []
  }

  function Step(t: Table, e: Event, timeout: nat): Effect {
    match e
    case Send(m, a, now) =>
      var v := SendSpec(t, m, a, now, timeout);
      Effect(v.table, if v.ret == 0 then [m] else [], [], AsSeq(v.drop))
    case Timer(i, late) =>
      if i < |t.slots| then
        var (s, sent) := FireSpec(t.slots[i], late);
        Effect(t.(slots := t.slots[i := s]), [], AsSeq(sent), [])
      else Effect(t, [], [], [])
    case Pushed(flow, num) => Effect(RxSpec(t, flow, num), [], [], [])
    case Moved(m) => Effect(MoveSpec(t, m), [], [], [])
    case Deinit => Effect(t.(enable := false, slots := Cleared(t.slots)), [], [], HeldList(t.slots))
  }

  // ---------------------------------------------------------------- the table invariant

  /** Busy slots serve distinct flows, they are counted exactly, and the slot kept for the next flow is idle. */
  ghost predicate TableOk(t: Table) {
    && |t.slots| == 32
    && t.maxNum == CountBusy(t.slots)
    && -1 <= t.freeIndex < 32
    && (t.freeIndex >= 0 ==> !t.slots[t.freeIndex].busy)
    && forall i, j :: 0 <= i < j < 32 && t.slots[i].busy && t.slots[j].busy ==> t.slots[i].flow != t.slots[j].flow
  }

  lemma {:induction false} CountBound(slots: seq<Slot>)
    ensures CountBusy(slots) <= |slots|
    ensures CountBusy(slots) == |slots| <==> forall i :: 0 <= i < |slots| ==> slots[i].busy
  {
    if slots != [] {
      var front := slots[..|slots| - 1];
      CountBound(front);
      if forall i :: 0 <= i < |front| ==> front[i].busy {
        assert forall i :: 0 <= i < |front| ==> slots[i] == front[i];
      } else {
        var i :| 0 <= i < |front| && !front[i].busy;
        assert !slots[i].busy;
      }
    }
  }

  /** Same busy flags, same count. */
  lemma {:induction false} CountSame(a: seq<Slot>, b: seq<Slot>)
    requires |a| == |b| && forall i :: 0 <= i < |a| ==> a[i].busy == b[i].busy
    ensures CountBusy(a) == CountBusy(b)
  {
    if a != [] {
      CountSame(a[..|a| - 1], b[..|b| - 1]);
    }
  }

  lemma {:induction false} MatchFromIs(slots: seq<Slot>, flow: Flow, i: nat)
    requires i <= |slots|
    ensures var k := MatchFrom(slots, flow, i);
            if k == -1 then forall j :: i <= j < |slots| ==> !Matches(slots[j], flow)
            else i <= k < |slots| && Matches(slots[k], flow)
    decreases |slots| - i
  {
    if i < |slots| && !Matches(slots[i], flow) {
      MatchFromIs(slots, flow, i + 1);
    }
  }

  lemma {:induction false} IdleFromIs(slots: seq<Slot>, i: nat)
    requires i <= |slots|
    ensures var k := IdleFrom(slots, i);
            if k == -1 then forall j :: i <= j < |slots| ==> slots[j].busy
            else i <= k < |slots| && !slots[k].busy
    decreases |slots| - i
  {
    if i < |slots| && slots[i].busy {
      IdleFromIs(slots, i + 1);
    }
  }

  lemma {:induction false} ExpiredFromIs(slots: seq<Slot>, now: nat, timeout: nat, i: nat)
    requires i <= |slots|
    ensures var k := ExpiredFrom(slots, now, timeout, i);
            if k == -1 then forall j :: i <= j < |slots| ==> !Expired(slots[j], now, timeout)
            else i <= k < |slots| && Expired(slots[k], now, timeout)
    decreases |slots| - i
  {
    if i < |slots| && !Expired(slots[i], now, timeout) {
      ExpiredFromIs(slots, now, timeout, i + 1);
    }
  }

  lemma InitOk(now: nat)
    ensures TableOk(InitSpec(now))
  {
    var t := InitSpec(now);
    AllIdle(t.slots);
  }

  lemma {:induction false} AllIdle(slots: seq<Slot>)
    requires forall i :: 0 <= i < |slots| ==> !slots[i].busy
    ensures CountBusy(slots) == 0
  {
    if slots != [] {
      AllIdle(slots[..|slots| - 1]);
    }
  }

  lemma UpdateOk(t: Table, now: nat, timeout: nat)
    requires TableOk(t)
    ensures TableOk(UpdateSpec(t, now, timeout))
  {
    ExpiredFromIs(t.slots, now, timeout, 0);
  }

  /** Allocation fails exactly when every slot is busy; otherwise it yields an idle slot and books it. */
  lemma AllocOk(t: Table)
    requires TableOk(t)
    ensures var (t', i) := AllocSpec(t);
            if i == -1 then t' == t && forall j :: 0 <= j < 32 ==> t.slots[j].busy
            else 0 <= i < 32 && !t.slots[i].busy && t' == t.(freeIndex := -1, maxNum := t.maxNum + 1)
  {
    CountBound(t.slots);
    IdleFromIs(t.slots, 0);
  }

  /** Changing one slot without touching its tenancy keeps the table in order. */
  lemma SlotOk(t: Table, i: nat, s: Slot)
    requires TableOk(t) && i < 32 && s.busy == t.slots[i].busy && s.flow == t.slots[i].flow
    ensures TableOk(t.(slots := t.slots[i := s]))
  {
    CountUpdate(t.slots, i, s);
  }

  lemma TenanciesOk(t: Table, slots: seq<Slot>)
    requires TableOk(t) && |slots| == 32
    requires forall i :: 0 <= i < 32 ==> slots[i].busy == t.slots[i].busy && slots[i].flow == t.slots[i].flow
    ensures TableOk(t.(slots := slots))
  {
    CountSame(slots, t.slots);
  }

  lemma MatchedOk(t: Table, index: nat, m: Msg, a: Ack, now: nat)
    requires TableOk(t) && index < 32
    ensures TableOk(SendMatched(t, index, m, a, now).table)
  {
    SlotOk(t, index, SendMatched(t, index, m, a, now).table.slots[index]);
  }

  lemma UnmatchedOk(t: Table, a: Ack, now: nat)
    requires TableOk(t) && forall j :: 0 <= j < 32 ==> !Matches(t.slots[j], a.flow)
    ensures TableOk(SendUnmatched(t, a, now).table)
  {
    AllocOk(t);
    var (t', i) := AllocSpec(t);
    if i >= 0 {
      CountUpdate(t.slots, i, Open(t.slots[i], a, now));
      forall j | 0 <= j < 32 && j != i && t.slots[j].busy ensures t.slots[j].flow != a.flow {
        assert !Matches(t.slots[j], a.flow);
      }
    }
  }

  lemma SendOk(t: Table, m: Msg, a: Ack, now: nat, timeout: nat)
    requires TableOk(t)
    ensures TableOk(SendSpec(t, m, a, now, timeout).table)
  {
    UpdateOk(t, now, timeout);
    var u := UpdateSpec(t, now, timeout);
    var index := MatchFrom(u.slots, a.flow, 0);
    MatchFromIs(u.slots, a.flow, 0);
    if index >= 0 {
      MatchedOk(u, index, m, a, now);
    } else {
      UnmatchedOk(u, a, now);
    }
  }

  lemma StepOk(t: Table, e: Event, timeout: nat)
    requires TableOk(t)
    ensures TableOk(Step(t, e, timeout).table)
  {
    match e
    case Send(m, a, now) => SendOk(t, m, a, now, timeout);
    case Timer(i, late) =>
      if i < 32 {
        SlotOk(t, i, FireSpec(t.slots[i], late).0);
      }
    case Pushed(flow, num) =>
      MatchFromIs(t.slots, flow, 0);
      var i := MatchFrom(t.slots, flow, 0);
      if i >= 0 {
        SlotOk(t, i, t.slots[i].(pshFlag := true, pshSeq := num));
      }
    case Moved(m) => TenanciesOk(t, UnmarkAll(t.slots, m));
    case Deinit =>
      TenanciesOk(t, Cleared(t.slots));
  }

  // ---------------------------------------------------------------- every message has one fate

  /** The table and the fates of all messages so far. */
  datatype World = World(table: Table, given: seq<Msg>, returned: seq<Msg>, sent: seq<Msg>, freed: seq<Msg>)

  function Advance(w: World, e: Event, timeout: nat): World {
    var f := Step(w.table, e, timeout);
    World(f.table, w.given + (if e.Send? then [e.m] else []),
          w.returned + f.returned, w.sent + f.sent, w.freed + f.freed)
  }

  function Run(w: World, es: seq<Event>, timeout: nat): World
    decreases |es|
  {
    if es == [] then w else Run(Advance(w, es[0], timeout), es[1..], timeout)
  }

  function Started(now: nat): World {
    World(InitSpec(now), [], [], [], [])
  }

  function Is(o: Option<Msg>, m: Msg): nat {
    if o == Some(m) then 1 else 0
  }

  function Count(log: seq<Msg>, m: Msg): nat {
    multiset(log)[m]
  }

  /** The number of slots that hold `m`. */
  function Holding(slots: seq<Slot>, m: Msg): nat {
    if slots == [] then 0
    else Holding(slots[..|slots| - 1], m) + Is(slots[|slots| - 1].msgbuf, m)
  }

  /** Every time `m` was given to the filter is accounted for exactly once. */
  ghost predicate Accounted(w: World, m: Msg) {
    Count(w.given, m) == Count(w.returned, m) + Count(w.sent, m) + Count(w.freed, m) + Holding(w.table.slots, m)
  }

  lemma {:induction false} HoldingUpdate(slots: seq<Slot>, i: nat, s: Slot, m: Msg)
    requires i < |slots|
    ensures Holding(slots[i := s], m) + Is(slots[i].msgbuf, m) == Holding(slots, m) + Is(s.msgbuf, m)
  {
    var n := |slots| - 1;
    if i < n {
      assert slots[i := s][..n] == slots[..n][i := s];
      HoldingUpdate(slots[..n], i, s, m);
    } else {
      assert slots[i := s][..n] == slots[..n];
    }
  }

  lemma {:induction false} HoldingSame(a: seq<Slot>, b: seq<Slot>, m: Msg)
    requires |a| == |b| && forall i :: 0 <= i < |a| ==> a[i].msgbuf == b[i].msgbuf
    ensures Holding(a, m) == Holding(b, m)
  {
    if a != [] {
      HoldingSame(a[..|a| - 1], b[..|b| - 1], m);
    }
  }

  lemma {:induction false} HoldingNone(slots: seq<Slot>, m: Msg)
    requires forall i :: 0 <= i < |slots| ==> slots[i].msgbuf.None?
    ensures Holding(slots, m) == 0
  {
    if slots != [] {
      HoldingNone(slots[..|slots| - 1], m);
    }
  }

  lemma {:induction false} HeldListIs(slots: seq<Slot>, m: Msg)
    ensures Count(HeldList(slots), m) == Holding(slots, m)
  {
    if slots != [] {
      HeldListIs(slots[..|slots| - 1], m);
    }
  }

  /** One event moves messages between the accounts without creating or losing any. */
  ghost predicate Balances(before: seq<Slot>, e: Event, f: Effect, m: Msg) {
    Holding(before, m) + (if e.Send? && e.m == m then 1 else 0) ==
    Count(f.returned, m) + Count(f.sent, m) + Count(f.freed, m) + Holding(f.table.slots, m)
  }

  /** The slot's share of that: what handling does with the new message and the one held before. */
  lemma HandleBalances(s: Slot, m: Msg, num: u32, now: nat, x: Msg)
    ensures var h := HandleSpec(s, m, num, now);
            Is(s.msgbuf, x) + Is(Some(m), x) ==
            (if h.ret == 0 then Is(Some(m), x) else 0) + Is(h.drop, x) + Is(h.slot.msgbuf, x)
  {
  }

  lemma StepBalances(t: Table, e: Event, timeout: nat, m: Msg)
    requires TableOk(t)
    ensures Balances(t.slots, e, Step(t, e, timeout), m)
  {
    var f := Step(t, e, timeout);
    match e
    case Send(_, _, _) => SendBalances(t, e, timeout, m);
    case Timer(i, late) =>
      if i < 32 {
        HoldingUpdate(t.slots, i, FireSpec(t.slots[i], late).0, m);
      }
    case Pushed(flow, num) => HoldingSame(t.slots, f.table.slots, m);
    case Moved(_) => HoldingSame(t.slots, f.table.slots, m);
    case Deinit =>
      HoldingNone(Cleared(t.slots), m);
      HeldListIs(t.slots, m);
  }

  lemma MatchedBalances(t: Table, index: nat, m: Msg, a: Ack, now: nat, x: Msg)
    requires index < |t.slots|
    ensures var v := SendMatched(t, index, m, a, now);
            Holding(t.slots, x) + Is(Some(m), x) ==
            (if v.ret == 0 then Is(Some(m), x) else 0) + Is(v.drop, x) + Holding(v.table.slots, x)
  {
    HoldingUpdate(t.slots, index, SendMatched(t, index, m, a, now).table.slots[index], x);
    HandleBalances(Rescale(t.slots[index], a), m, a.ackSeq, now, x);
  }

  lemma UnmatchedBalances(t: Table, a: Ack, now: nat, x: Msg)
    requires TableOk(t)
    ensures Holding(SendUnmatched(t, a, now).table.slots, x) == Holding(t.slots, x)
    ensures SendUnmatched(t, a, now).ret == 0 && SendUnmatched(t, a, now).drop == None
  {
    AllocOk(t);
    HoldingSame(t.slots, SendUnmatched(t, a, now).table.slots, x);
  }

  lemma SendBalances(t: Table, e: Event, timeout: nat, x: Msg)
    requires TableOk(t) && e.Send?
    ensures Balances(t.slots, e, Step(t, e, timeout), x)
  {
    UpdateOk(t, e.now, timeout);
    var f, u := Step(t, e, timeout), UpdateSpec(t, e.now, timeout);
    HoldingSame(t.slots, u.slots, x);
    MatchFromIs(u.slots, e.a.flow, 0);
    var index := MatchFrom(u.slots, e.a.flow, 0);
    if e.a.verdict == 0 && e.a.winScale == 0 {
    } else if index >= 0 {
      MatchedBalances(u, index, e.m, e.a, e.now, x);
    } else {
      UnmatchedBalances(u, e.a, e.now, x);
    }
  }

  /** Over any run, messages are accounted for exactly once and the table stays in order. */
  lemma {:induction false} RunAccounted(w: World, es: seq<Event>, timeout: nat, m: Msg)
    requires TableOk(w.table) && Accounted(w, m)
    ensures TableOk(Run(w, es, timeout).table) && Accounted(Run(w, es, timeout), m)
    decreases |es|
  {
    if es != [] {
      StepBalances(w.table, es[0], timeout, m);
      StepOk(w.table, es[0], timeout);
      RunAccounted(Advance(w, es[0], timeout), es[1..], timeout, m);
    }
  }

  /** A message that is given to the filter once has exactly one fate: handed back, sent by a timer, freed, or held
      in one slot. A message never given has none. */
  lemma OneFate(now: nat, es: seq<Event>, timeout: nat, m: Msg)
    ensures TableOk(Run(Started(now), es, timeout).table)
    ensures var w := Run(Started(now), es, timeout);
            Count(w.returned, m) + Count(w.sent, m) + Count(w.freed, m) + Holding(w.table.slots, m) ==
            Count(w.given, m)
  {
    InitOk(now);
    HoldingNone(InitSpec(now).slots, m);
    RunAccounted(Started(now), es, timeout, m);
  }

  // ---------------------------------------------------------------- cumulative progress

  /** The unbounded sequence number nearest to `u` whose 32-bit form is `raw`. */
  function Unwrap(u: int, raw: u32): int {
    var d := (u - raw) % 0x1_0000_0000;
    u - (if d >= 0x8000_0000 then d - 0x1_0000_0000 else d)
  }

  lemma UnwrapIs(u: int, raw: u32)
    ensures Unwrap(u, raw) % 0x1_0000_0000 == raw
    ensures Before(u % 0x1_0000_0000, raw) <==> u <= Unwrap(u, raw)
  {
    var d := (u - raw) % 0x1_0000_0000;
    assert (u % 0x1_0000_0000 - raw) % 0x1_0000_0000 == d;
  }

  /** Unwrapping is exact for numbers less than half the sequence space away. */
  lemma UnwrapTrue(u: int, v: int)
    requires -0x8000_0000 < v - u <= 0x8000_0000
    ensures Unwrap(u, v % 0x1_0000_0000) == v
  {
    assert (u - v % 0x1_0000_0000) % 0x1_0000_0000 == (u - v) % 0x1_0000_0000;
  }

  /** A message together with the unbounded number it acknowledges. */
  type Numbered = (Msg, int)

  /** The acknowledgements of one slot's tenancy: the slot's own number, all that were presented, those that went
      out, and the one held back. */
  datatype Track = Track(u: int, seen: seq<Numbered>, out: seq<Numbered>, held: Option<Numbered>)

  /** Whether event `e` presents an acknowledgement to slot `i`. */
  predicate Presents(t: Table, e: Event, i: nat, timeout: nat) {
    && e.Send? && e.a.verdict > 0 && t.enable
    && MatchFrom(UpdateSpec(t, e.now, timeout).slots, e.a.flow, 0) == i
  }

  function TrackStep(t: Table, e: Event, i: nat, k: Track, timeout: nat): Track
    requires i < |t.slots|
  {
    var f := Step(t, e, timeout);
    if Presents(t, e, i, timeout) then
      var v := Unwrap(k.u, e.a.ackSeq);
      var seen := k.seen + [(e.m, v)];
      if f.returned == [e.m] then Track(v, seen, k.out + [(e.m, v)], None)
      else if v < k.u then k.(seen := seen)
      else Track(v, seen, k.out, Some((e.m, v)))
    else if e.Timer? && e.i == i && k.held.Some? && f.sent == [k.held.value.0] then
      k.(out := k.out + [k.held.value], held := None)
    else k
  }

  /** An acknowledgement that went out or is still held back carries the number `x`. */
  predicate Carried(k: Track, x: int) {
    (exists p :: p in k.out && p.1 == x) || (k.held.Some? && k.held.value.1 == x)
  }

  /** The slot's number is the largest presented; the message the slot holds is the one that carries it, and if it
      holds none, one that carries it went out. */
  ghost predicate Covered(s: Slot, k: Track) {
    && s.ackSeq == k.u % 0x1_0000_0000
    && (forall p :: p in k.seen ==> p.1 <= k.u)
    && (if s.msgbuf.Some? then k.held == Some((s.msgbuf.value, k.u)) else k.held == None && Carried(k, k.u))
  }

  /** Slot `i` keeps serving its flow through event `e`. */
  predicate Keeps(t: Table, e: Event, i: nat, timeout: nat) {
    && i < |t.slots| && t.slots[i].busy
    && !e.Deinit?
    && (e.Send? && e.now > t.lastTime + timeout ==> !Expired(t.slots[i], e.now, timeout))
  }

  predicate KeepsAll(t: Table, es: seq<Event>, i: nat, timeout: nat)
    decreases |es|
  {
    es == [] || (Keeps(t, es[0], i, timeout) && KeepsAll(Step(t, es[0], timeout).table, es[1..], i, timeout))
  }

  function TrackRun(t: Table, es: seq<Event>, i: nat, k: Track, timeout: nat): (Table, Track)
    requires KeepsAll(t, es, i, timeout)
    decreases |es|
  {
    if es == [] then (t, k)
    else TrackRun(Step(t, es[0], timeout).table, es[1..], i, TrackStep(t, es[0], i, k, timeout), timeout)
  }

  lemma HandleCovered(s: Slot, m: Msg, raw: u32, now: nat, k: Track)
    requires Covered(s, k)
    ensures var h, v := HandleSpec(s, m, raw, now), Unwrap(k.u, raw);
            if v < k.u then h.ret == 1 && h.drop == Some(m) && h.slot == s.(lastTime := now)
            else
              && h.slot.ackSeq == v % 0x1_0000_0000
              && (h.ret == 0 ==> h.slot.msgbuf == None)
              && (h.ret != 0 ==> h.slot.msgbuf == Some(m))
              && h.drop == s.msgbuf
  {
    UnwrapIs(k.u, raw);
  }

  /** Slot `i` after event `e`: still this tenancy, and covered by the track. */
  ghost predicate StillCovered(t: Table, t': Table, i: nat, k: Track, k': Track)
    requires i < |t.slots|
  {
    && |t'.slots| == 32 && i < 32 && t'.slots[i].busy && t'.slots[i].flow == t.slots[i].flow
    && Covered(t'.slots[i], k') && k.u <= k'.u
  }

  lemma PresentedCovered(t: Table, e: Event, i: nat, k: Track, timeout: nat)
    requires TableOk(t) && Keeps(t, e, i, timeout) && Covered(t.slots[i], k) && Presents(t, e, i, timeout)
    ensures StillCovered(t, Step(t, e, timeout).table, i, k, TrackStep(t, e, i, k, timeout))
  {
    var u := UpdateSpec(t, e.now, timeout);
    assert u.slots[i] == t.slots[i];
    HandleCovered(Rescale(u.slots[i], e.a), e.m, e.a.ackSeq, e.now, k);
  }

  lemma OtherSendCovered(t: Table, e: Event, i: nat, k: Track, timeout: nat)
    requires TableOk(t) && Keeps(t, e, i, timeout) && Covered(t.slots[i], k) && e.Send? && !Presents(t, e, i, timeout)
    ensures StillCovered(t, Step(t, e, timeout).table, i, k, TrackStep(t, e, i, k, timeout))
  {
    UpdateOk(t, e.now, timeout);
    var u := UpdateSpec(t, e.now, timeout);
    assert u.slots[i] == t.slots[i];
    if e.a.verdict != 0 || e.a.winScale != 0 {
      OtherSlotKept(u, e.m, e.a, e.now, i);
    }
  }

  /** A frame that is not presented to slot `i` leaves its tenancy, its number and its message alone. */
  lemma OtherSlotKept(u: Table, m: Msg, a: Ack, now: nat, i: nat)
    requires TableOk(u) && i < 32 && u.slots[i].busy
    requires !(a.verdict > 0 && u.enable && MatchFrom(u.slots, a.flow, 0) == i)
    ensures var index := MatchFrom(u.slots, a.flow, 0);
            var t' := (if 0 <= index < |u.slots| then SendMatched(u, index, m, a, now)
                       else SendUnmatched(u, a, now)).table;
            && |t'.slots| == 32 && t'.slots[i].busy && t'.slots[i].flow == u.slots[i].flow
            && t'.slots[i].ackSeq == u.slots[i].ackSeq && t'.slots[i].msgbuf == u.slots[i].msgbuf
  {
    MatchFromIs(u.slots, a.flow, 0);
    AllocOk(u);
  }

  lemma StepCovered(t: Table, e: Event, i: nat, k: Track, timeout: nat)
    requires TableOk(t) && Keeps(t, e, i, timeout) && Covered(t.slots[i], k)
    ensures StillCovered(t, Step(t, e, timeout).table, i, k, TrackStep(t, e, i, k, timeout))
  {
    if e.Send? {
      if Presents(t, e, i, timeout) {
        PresentedCovered(t, e, i, k, timeout);
      } else {
        OtherSendCovered(t, e, i, k, timeout);
      }
    }
  }

  /** An acknowledgement at or above `x` went out or is still held back. */
  ghost predicate Superseded(k: Track, x: int) {
    exists y :: Carried(k, y) && x <= y
  }

  /** Suppression never loses cumulative progress: through any run in which the slot keeps its flow, its number never
      goes back, the message it holds is the one presented with that number, and every acknowledgement presented,
      the dropped ones included, is at or below one that went out or is still held back. */
  lemma {:induction false} ProgressKept(t: Table, es: seq<Event>, i: nat, k: Track, timeout: nat)
    requires TableOk(t) && KeepsAll(t, es, i, timeout) && i < |t.slots| && Covered(t.slots[i], k)
    ensures var (t', k') := TrackRun(t, es, i, k, timeout);
            && i < |t'.slots| && Covered(t'.slots[i], k') && k.u <= k'.u
            && forall p :: p in k'.seen ==> Superseded(k', p.1)
    decreases |es|
  {
    if es == [] {
      assert Carried(k, k.u);
    } else {
      StepOk(t, es[0], timeout);
      StepCovered(t, es[0], i, k, timeout);
      ProgressKept(Step(t, es[0], timeout).table, es[1..], i, TrackStep(t, es[0], i, k, timeout), timeout);
    }
  }

  /** A tenancy that begins without a held message begins covered: the opening acknowledgement goes out. */
  lemma OpeningCovered(t: Table, e: Event, timeout: nat, i: nat)
    requires TableOk(t) && e.Send? && (e.a.verdict > 0 || e.a.winScale != 0)
    requires var u := UpdateSpec(t, e.now, timeout);
             && MatchFrom(u.slots, e.a.flow, 0) == -1 && AllocSpec(u).1 == i
             && i < |u.slots| && u.slots[i].msgbuf == None
    ensures var f := Step(t, e, timeout);
            && i < |f.table.slots| && f.table.slots[i].busy && f.table.slots[i].flow == e.a.flow
            && f.returned == [e.m]
            && Covered(f.table.slots[i], Track(e.a.ackSeq, [(e.m, e.a.ackSeq)], [(e.m, e.a.ackSeq)], None))
  {
    UpdateOk(t, e.now, timeout);
    AllocOk(UpdateSpec(t, e.now, timeout));
  }

  // ---------------------------------------------------------------- when a held message is stranded

  /** A message is held back and no timer is running that would send it. */
  predicate Stalled(s: Slot) {
    s.msgbuf.Some? && !s.timer
  }

  /** The timer of a slot that holds a message expires while the slot still carries the marker of an earlier message,
      or has been released. */
  predicate FiresInVain(t: Table, e: Event, i: nat) {
    && e.Timer? && e.i == i && !e.late && i < |t.slots| && t.slots[i].msgbuf.Some?
    && (t.slots[i].inSend.Some? || !t.slots[i].busy)
  }

  lemma MatchedStall(t: Table, index: nat, m: Msg, a: Ack, now: nat, i: nat)
    requires index < |t.slots| && i < |t.slots| && !Stalled(t.slots[i])
    ensures !Stalled(SendMatched(t, index, m, a, now).table.slots[i])
  {
  }

  lemma UnmatchedStall(t: Table, a: Ack, now: nat, i: nat)
    requires TableOk(t) && i < 32
    ensures var t' := SendUnmatched(t, a, now).table;
            |t'.slots| == 32 && (Stalled(t'.slots[i]) <==> Stalled(t.slots[i]))
  {
    AllocOk(t);
  }

  lemma SendStall(t: Table, e: Event, i: nat, timeout: nat)
    requires TableOk(t) && i < 32 && !Stalled(t.slots[i]) && e.Send?
    ensures var t' := Step(t, e, timeout).table;
            |t'.slots| == 32 && !Stalled(t'.slots[i])
  {
    UpdateOk(t, e.now, timeout);
    var u := UpdateSpec(t, e.now, timeout);
    MatchFromIs(u.slots, e.a.flow, 0);
    var index := MatchFrom(u.slots, e.a.flow, 0);
    if index >= 0 {
      MatchedStall(u, index, e.m, e.a, e.now, i);
    } else {
      UnmatchedStall(u, e.a, e.now, i);
    }
  }

  /** A message becomes stranded exactly when its timer fires in vain. */
  lemma StallIff(t: Table, e: Event, i: nat, timeout: nat)
    requires TableOk(t) && i < 32 && !Stalled(t.slots[i])
    ensures var t' := Step(t, e, timeout).table;
            |t'.slots| == 32 && (Stalled(t'.slots[i]) <==> FiresInVain(t, e, i))
  {
    if e.Send? {
      SendStall(t, e, i, timeout);
    }
  }

  /** What gets a stranded message out of its slot: a later acknowledgement of the flow, which replaces it, a callback
      that finds neither marker nor released slot, or the end. */
  predicate Relieves(t: Table, e: Event, i: nat, timeout: nat) {
    && i < |t.slots|
    && (|| (Presents(t, e, i, timeout) && Before(t.slots[i].ackSeq, e.a.ackSeq))
        || (e.Timer? && e.i == i && t.slots[i].busy && t.slots[i].inSend.None?)
        || e.Deinit?)
  }

  /** The slot still holds its message, with no timer. */
  predicate StillStalled(t: Table, t': Table, i: nat)
    requires i < |t.slots|
  {
    i < |t'.slots| && Stalled(t'.slots[i]) && t'.slots[i].msgbuf == t.slots[i].msgbuf
  }

  lemma MatchedUntil(t: Table, index: nat, m: Msg, a: Ack, now: nat, i: nat)
    requires index < |t.slots| && i < |t.slots| && Stalled(t.slots[i])
    ensures StillStalled(t, SendMatched(t, index, m, a, now).table, i) <==>
            !(index == i && a.verdict > 0 && t.enable && Before(t.slots[i].ackSeq, a.ackSeq))
  {
  }

  lemma SendUntil(t: Table, e: Event, i: nat, timeout: nat)
    requires TableOk(t) && i < 32 && Stalled(t.slots[i]) && e.Send?
    ensures StillStalled(t, Step(t, e, timeout).table, i) <==> !Relieves(t, e, i, timeout)
  {
    UpdateOk(t, e.now, timeout);
    var u := UpdateSpec(t, e.now, timeout);
    MatchFromIs(u.slots, e.a.flow, 0);
    var index := MatchFrom(u.slots, e.a.flow, 0);
    if index < 0 {
      UnmatchedHolds(u, e.a, e.now, i);
    } else {
      MatchedUntil(u, index, e.m, e.a, e.now, i);
    }
  }

  /** A stranded message stays where it is until one of these happens; time alone does not move it. */
  lemma StalledUntil(t: Table, e: Event, i: nat, timeout: nat)
    requires TableOk(t) && i < 32 && Stalled(t.slots[i])
    ensures StillStalled(t, Step(t, e, timeout).table, i) <==> !Relieves(t, e, i, timeout)
  {
    if e.Send? {
      SendUntil(t, e, i, timeout);
    }
  }

  lemma UnmatchedHolds(t: Table, a: Ack, now: nat, i: nat)
    requires TableOk(t) && i < 32
    ensures var t' := SendUnmatched(t, a, now).table;
            |t'.slots| == 32 && t'.slots[i].msgbuf == t.slots[i].msgbuf && t'.slots[i].timer == t.slots[i].timer
  {
    AllocOk(t);
  }

  function First(flow: Flow): Event {
    Send(1, Ack(1, flow, 100, 0), 0)
  }

  function Second(flow: Flow): Event {
    Send(2, Ack(1, flow, 200, 0), 0)
  }

  function Third(flow: Flow): Event {
    Send(3, Ack(1, flow, 300, 0), 0)
  }

  /** A fourth frame, once every slot has been idle for long enough to be released. */
  function Other(flow: Flow, timeout: nat): Event {
    Send(4, Ack(0, flow, 0, 0), timeout + 1)
  }

  lemma {:induction false} RunSnoc(w: World, es: seq<Event>, e: Event, timeout: nat)
    ensures Run(w, es + [e], timeout) == Advance(Run(w, es, timeout), e, timeout)
    decreases |es|
  {
    if es == [] {
      RunCons(w, e, [], timeout);
      assert [e] + [] == [e] && es + [e] == [e];
    } else {
      assert (es + [e])[0] == es[0] && (es + [e])[1..] == es[1..] + [e];
      RunSnoc(Advance(w, es[0], timeout), es[1..], e, timeout);
    }
  }

  lemma RunCons(w: World, e: Event, rest: seq<Event>, timeout: nat)
    ensures Run(w, [e] + rest, timeout) == Run(Advance(w, e, timeout), rest, timeout)
  {
    assert ([e] + rest)[1..] == rest;
  }

  lemma Then(es: seq<Event>, e: Event, t: Table, timeout: nat)
    requires Run(Started(0), es, timeout).table == t
    ensures Run(Started(0), es + [e], timeout).table == Step(t, e, timeout).table
  {
    RunSnoc(Started(0), es, e, timeout);
  }

  lemma FirstOpens(t: Table, flow: Flow, timeout: nat)
    requires t == InitSpec(0)
    ensures var t' := Step(t, First(flow), timeout).table;
            && |t'.slots| == 32 && t'.enable && t'.lastTime == 0
            && t'.slots[0] == Open(FRESH.(lastTime := 0), First(flow).a, 0)
  {
    MatchFromIs(t.slots, flow, 0);
  }

  /** A further acknowledgement of the flow in slot 0, before anything can expire. */
  lemma NextHandled(t: Table, e: Event, s: Slot, timeout: nat)
    requires |t.slots| == 32 && t.enable && t.slots[0] == s
    requires e.Send? && e.a.verdict > 0 && e.a.winScale == 0 && e.now <= t.lastTime + timeout && Matches(s, e.a.flow)
    ensures Step(t, e, timeout).table == t.(slots := t.slots[0 := HandleSpec(s, e.m, e.a.ackSeq, e.now).slot])
  {
    assert MatchFrom(t.slots, e.a.flow, 0) == 0;
  }

  lemma SlotOfThree(flow: Flow) returns (s2: Slot, s3: Slot)
    ensures s2 == HandleSpec(Open(FRESH.(lastTime := 0), First(flow).a, 0), 2, 200, 0).slot && Matches(s2, flow)
    ensures s3 == HandleSpec(s2, 3, 300, 0).slot
    ensures s3.busy && s3.lastTime == 0 && s3.inSend == Some(2) && s3.msgbuf == Some(3) && s3.timer
  {
    s2 := HandleSpec(Open(FRESH.(lastTime := 0), First(flow).a, 0), 2, 200, 0).slot;
    s3 := HandleSpec(s2, 3, 300, 0).slot;
  }

  /** Three acknowledgements of one flow: the first two go out, the third is held with its timer running. */
  lemma ThreeSent(flow: Flow, timeout: nat) returns (es: seq<Event>, t: Table)
    ensures t == Run(Started(0), es, timeout).table
    ensures |t.slots| == 32 && t.enable && t.lastTime == 0
    ensures var s := t.slots[0];
            s.busy && s.lastTime == 0 && s.inSend == Some(2) && s.msgbuf == Some(3) && s.timer
  {
    var t0 := InitSpec(0);
    var s2, s3 := SlotOfThree(flow);
    FirstOpens(t0, flow, timeout);
    var t1 := Step(t0, First(flow), timeout).table;
    NextHandled(t1, Second(flow), t1.slots[0], timeout);
    var t2 := Step(t1, Second(flow), timeout).table;
    NextHandled(t2, Third(flow), s2, timeout);
    t := Step(t2, Third(flow), timeout).table;
    Then([], First(flow), t0, timeout);
    Then([] + [First(flow)], Second(flow), t1, timeout);
    es := [] + [First(flow)] + [Second(flow)];
    Then(es, Third(flow), t2, timeout);
    es := es + [Third(flow)];
  }

  lemma FiresBlocked(t: Table, timeout: nat)
    requires |t.slots| > 0 && (!t.slots[0].busy || t.slots[0].inSend.Some?)
    ensures Step(t, Timer(0, false), timeout).table == t.(slots := t.slots[0 := t.slots[0].(timer := false)])
  {
  }

  lemma MarkerCleared(t: Table, m: Msg, timeout: nat)
    requires |t.slots| > 0 && t.enable && t.slots[0].busy && t.slots[0].inSend == Some(m)
    ensures var t' := Step(t, Moved(m), timeout).table;
            |t'.slots| == |t.slots| && t'.lastTime == t.lastTime && t'.slots[0] == t.slots[0].(inSend := None)
  {
  }

  lemma OtherReleases(t: Table, flow: Flow, timeout: nat)
    requires |t.slots| > 0 && t.lastTime == 0 && t.slots[0].busy && t.slots[0].lastTime == 0
    ensures var t' := Step(t, Other(flow, timeout), timeout).table;
            |t'.slots| == |t.slots| && t'.slots[0] == t.slots[0].(busy := false)
  {
  }

  /** The third message of a flow has its timer expire while the second one is still marked as in flight, and stays
      held after that marker is cleared. */
  lemma StallReachable(flow: Flow, timeout: nat) returns (es: seq<Event>)
    ensures var s := Run(Started(0), es, timeout).table.slots;
            |s| == 32 && Stalled(s[0]) && s[0].busy && s[0].inSend.None? && s[0].msgbuf == Some(3)
  {
    var t: Table;
    es, t := ThreeSent(flow, timeout);
    FiresBlocked(t, timeout);
    Then(es, Timer(0, false), t, timeout);
    t := Step(t, Timer(0, false), timeout).table;
    MarkerCleared(t, 2, timeout);
    Then(es + [Timer(0, false)], Moved(2), t, timeout);
    es := es + [Timer(0, false)] + [Moved(2)];
  }

  /** Its timer expires after the slot was released, with no marker in the way. */
  lemma IdleStallReachable(flow: Flow, timeout: nat) returns (es: seq<Event>)
    ensures var s := Run(Started(0), es, timeout).table.slots;
            |s| == 32 && Stalled(s[0]) && !s[0].busy && s[0].inSend.None? && s[0].msgbuf == Some(3)
  {
    var t: Table;
    es, t := ThreeSent(flow, timeout);
    MarkerCleared(t, 2, timeout);
    Then(es, Moved(2), t, timeout);
    es, t := es + [Moved(2)], Step(t, Moved(2), timeout).table;
    OtherReleases(t, flow, timeout);
    Then(es, Other(flow, timeout), t, timeout);
    es, t := es + [Other(flow, timeout)], Step(t, Other(flow, timeout), timeout).table;
    FiresBlocked(t, timeout);
    Then(es, Timer(0, false), t, timeout);
    es := es + [Timer(0, false)];
  }
}
