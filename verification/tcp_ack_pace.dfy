/** When the acknowledgement filter lets an acknowledgement go: at once behind pushed data, every tenth otherwise, and
    when a flow loses its slot. */
module TcpAckPace {
  import opened Bytes
  import opened TcpAck
  import opened TcpAckRuns

  // ---------------------------------------------------------------- what is no acknowledgement

  /** A frame that is no pure acknowledgement is handed back at once, and so is every frame once the filter is off. */
  lemma OthersReturned(t: Table, e: Event, timeout: nat)
    requires e.Send? && (e.a.verdict == 0 || !t.enable)
    ensures Step(t, e, timeout).returned == [e.m] && Step(t, e, timeout).freed == []
  {
  }

  // ---------------------------------------------------------------- an acknowledgement in its slot

  /** The slot of a flow is the only one that matches it. */
  lemma MatchIs(t: Table, flow: Flow, i: nat)
    requires TableOk(t) && i < 32 && Matches(t.slots[i], flow)
    ensures MatchFrom(t.slots, flow, 0) == i
  {
    MatchFromIs(t.slots, flow, 0);
    var k := MatchFrom(t.slots, flow, 0);
    assert Matches(t.slots[k], flow);
  }

  /** Presenting an acknowledgement to slot `i` is handling it there. */
  lemma PresentedIs(t: Table, e: Event, i: nat, timeout: nat)
    requires TableOk(t) && i < 32 && Presents(t, e, i, timeout)
    ensures Matches(t.slots[i], e.a.flow)
    ensures var h := HandleSpec(Rescale(t.slots[i], e.a), e.m, e.a.ackSeq, e.now);
            var f := Step(t, e, timeout);
            && |f.table.slots| == 32 && f.table.slots[i] == h.slot && f.table.enable == t.enable
            && f.returned == (if h.ret == 0 then [e.m] else []) && f.freed == AsSeq(h.drop) && f.sent == []
  {
    var u := UpdateSpec(t, e.now, timeout);
    MatchFromIs(u.slots, e.a.flow, 0);
    assert u.slots[i] == t.slots[i];
  }

  /** Event `e` presents to slot `i` an acknowledgement that is not behind the slot's number. */
  predicate Fresh(t: Table, e: Event, i: nat, timeout: nat) {
    i < |t.slots| && Presents(t, e, i, timeout) && Before(t.slots[i].ackSeq, e.a.ackSeq)
  }

  /** One that is behind is freed. */
  lemma StaleFreed(t: Table, e: Event, i: nat, timeout: nat)
    requires TableOk(t) && i < 32 && Presents(t, e, i, timeout) && !Fresh(t, e, i, timeout)
    ensures Step(t, e, timeout).returned == [] && Step(t, e, timeout).freed == [e.m]
  {
    PresentedIs(t, e, i, timeout);
  }

  // ---------------------------------------------------------------- behind pushed data

  /** Slot `i` waits to let an acknowledgement beyond `p` go at once. */
  predicate Awaits(t: Table, i: nat, p: u32) {
    i < |t.slots| && t.slots[i].busy && t.slots[i].pshFlag && t.slots[i].pshSeq == p
  }

  /** The acknowledgement is new to the slot and beyond `p`. */
  predicate Beyond(t: Table, e: Event, i: nat, p: u32, timeout: nat) {
    Fresh(t, e, i, timeout) && !Before(e.a.ackSeq, p)
  }

  lemma PushMarks(t: Table, flow: Flow, p: u32, i: nat, timeout: nat)
    requires TableOk(t) && t.enable && i < 32 && Matches(t.slots[i], flow)
    ensures Awaits(Step(t, Pushed(flow, p), timeout).table, i, p)
  {
    MatchIs(t, flow, i);
  }

  /** The acknowledgement of the pushed data is handed back at once, and the waiting is over. */
  lemma BeyondReturned(t: Table, e: Event, i: nat, p: u32, timeout: nat)
    requires TableOk(t) && i < 32 && Awaits(t, i, p) && Beyond(t, e, i, p, timeout)
    ensures Step(t, e, timeout).returned == [e.m]
    ensures !Step(t, e, timeout).table.slots[i].pshFlag
  {
    PresentedIs(t, e, i, timeout);
  }

  /** Neither such an acknowledgement nor another push of the flow. */
  predicate Quiet(t: Table, e: Event, i: nat, p: u32, timeout: nat) {
    && Keeps(t, e, i, timeout) && !Beyond(t, e, i, p, timeout)
    && !(e.Pushed? && e.flow == t.slots[i].flow)
  }

  /** Whatever else happens while the slot serves its flow, it goes on waiting. */
  lemma AwaitsOn(t: Table, e: Event, i: nat, p: u32, timeout: nat)
    requires TableOk(t) && i < 32 && Awaits(t, i, p) && Quiet(t, e, i, p, timeout)
    ensures Awaits(Step(t, e, timeout).table, i, p)
  {
    if e.Send? {
      if Presents(t, e, i, timeout) {
        PresentedIs(t, e, i, timeout);
      } else {
        OtherSendAwaits(t, e, i, p, timeout);
      }
    } else if e.Pushed? {
      MatchFromIs(t.slots, e.flow, 0);
    }
  }

  lemma OtherSendAwaits(t: Table, e: Event, i: nat, p: u32, timeout: nat)
    requires TableOk(t) && i < 32 && Awaits(t, i, p) && Keeps(t, e, i, timeout) && e.Send?
    requires !Presents(t, e, i, timeout)
    ensures Awaits(Step(t, e, timeout).table, i, p)
  {
    UpdateOk(t, e.now, timeout);
    var u := UpdateSpec(t, e.now, timeout);
    assert u.slots[i] == t.slots[i];
    MatchFromIs(u.slots, e.a.flow, 0);
    AllocOk(u);
  }

  predicate QuietAll(t: Table, es: seq<Event>, i: nat, p: u32, timeout: nat)
    decreases |es|
  {
    es == [] || (Quiet(t, es[0], i, p, timeout) && QuietAll(Step(t, es[0], timeout).table, es[1..], i, p, timeout))
  }

  function After(t: Table, es: seq<Event>, timeout: nat): Table
    decreases |es|
  {
    if es == [] then t else After(Step(t, es[0], timeout).table, es[1..], timeout)
  }

  /** After data was pushed up to `p`, through any run in which the flow keeps its slot, the first new acknowledgement
      beyond `p` is handed back at once. */
  lemma {:induction false} PushedGoesOut(t: Table, es: seq<Event>, i: nat, p: u32, e: Event, timeout: nat)
    requires TableOk(t) && i < 32 && Awaits(t, i, p) && QuietAll(t, es, i, p, timeout)
    requires Beyond(After(t, es, timeout), e, i, p, timeout)
    ensures Step(After(t, es, timeout), e, timeout).returned == [e.m]
    decreases |es|
  {
    if es == [] {
      BeyondReturned(t, e, i, p, timeout);
    } else {
      AwaitsOn(t, es[0], i, p, timeout);
      StepOk(t, es[0], timeout);
      PushedGoesOut(Step(t, es[0], timeout).table, es[1..], i, p, e, timeout);
    }
  }

  // ---------------------------------------------------------------- every tenth

  /** Nothing pushed, nothing in flight, and `n` acknowledgements withheld since one was sent. */
  predicate Counting(t: Table, i: nat, n: int) {
    i < |t.slots| && t.slots[i].busy && !t.slots[i].pshFlag && t.slots[i].inSend.None? && t.slots[i].dropCnt == n
  }

  predicate FreshAll(t: Table, es: seq<Event>, i: nat, timeout: nat)
    decreases |es|
  {
    es == [] || (Fresh(t, es[0], i, timeout) && FreshAll(Step(t, es[0], timeout).table, es[1..], i, timeout))
  }

  /** All messages handed back in a run. */
  function Returned(t: Table, es: seq<Event>, timeout: nat): seq<Msg>
    decreases |es|
  {
    if es == [] then []
    else Step(t, es[0], timeout).returned + Returned(Step(t, es[0], timeout).table, es[1..], timeout)
  }

  lemma FreshCounts(t: Table, e: Event, i: nat, n: int, timeout: nat)
    requires TableOk(t) && i < 32 && Counting(t, i, n) && Fresh(t, e, i, timeout)
    ensures n < 9 ==> Step(t, e, timeout).returned == [] && Counting(Step(t, e, timeout).table, i, n + 1)
    ensures n >= 9 ==> Step(t, e, timeout).returned == [e.m]
  {
    PresentedIs(t, e, i, timeout);
  }

  /** Of successive new acknowledgements with nothing pushed and nothing in flight, the tenth since the last one sent is
      handed back and none before it. */
  lemma {:induction false} TenthGoesOut(t: Table, es: seq<Event>, i: nat, n: int, timeout: nat)
    requires TableOk(t) && i < 32 && 0 <= n <= 9 && Counting(t, i, n) && FreshAll(t, es, i, timeout)
    requires |es| <= 10 - n && forall k :: 0 <= k < |es| ==> es[k].Send?
    ensures Returned(t, es, timeout) == if |es| == 10 - n then [es[|es| - 1].m] else []
    decreases |es|
  {
    if es != [] {
      FreshCounts(t, es[0], i, n, timeout);
      if n < 9 {
        StepOk(t, es[0], timeout);
        TenthGoesOut(Step(t, es[0], timeout).table, es[1..], i, n + 1, timeout);
      }
    }
  }

  /** An acknowledgement handed back or sent by the timer starts the count over, once it is no longer in flight. */
  lemma SendingStartsOver(t: Table, e: Event, i: nat, m: Msg, timeout: nat)
    requires TableOk(t) && t.enable && i < 32 && t.slots[i].busy
    requires (Presents(t, e, i, timeout) && Step(t, e, timeout).returned == [m]) ||
             (e.Timer? && e.i == i && Step(t, e, timeout).sent == [m])
    ensures var t' := Step(t, e, timeout).table;
            && |t'.slots| == 32 && t'.slots[i].msgbuf.None? && t'.slots[i].inSend == Some(m)
            && (!t'.slots[i].pshFlag ==> Counting(Step(t', Moved(m), timeout).table, i, 0))
  {
    if e.Send? {
      PresentedIs(t, e, i, timeout);
    }
  }

  /** A new slot counts as if ten had been withheld. */
  lemma OpenCounts(t: Table, e: Event, i: nat, timeout: nat)
    requires Opens(t, e, i, timeout)
    ensures Step(t, e, timeout).returned == [e.m] && Counting(Step(t, e, timeout).table, i, 10)
  {
    UpdateOk(t, e.now, timeout);
    AllocOk(UpdateSpec(t, e.now, timeout));
  }

  /** The frame opens slot `i`, with no message and no marker left in it, for a flow that has none. */
  ghost predicate Opens(t: Table, e: Event, i: nat, timeout: nat) {
    && TableOk(t) && e.Send? && (e.a.verdict > 0 || e.a.winScale != 0)
    && (var u := UpdateSpec(t, e.now, timeout);
        && MatchFrom(u.slots, e.a.flow, 0) == -1 && AllocSpec(u).1 == i
        && i < |u.slots| && u.slots[i].msgbuf == None && u.slots[i].inSend == None)
  }

  /** The first acknowledgement of a flow goes out, and so does the next one. */
  lemma SecondGoesOut(t: Table, first: Event, second: Event, i: nat, timeout: nat)
    requires Opens(t, first, i, timeout) && Fresh(Step(t, first, timeout).table, second, i, timeout)
    ensures Step(t, first, timeout).returned == [first.m]
    ensures Step(Step(t, first, timeout).table, second, timeout).returned == [second.m]
  {
    OpenCounts(t, first, i, timeout);
    StepOk(t, first, timeout);
    FreshCounts(Step(t, first, timeout).table, second, i, 10, timeout);
  }

  // ---------------------------------------------------------------- when a flow loses its slot

  /** The time of the last acknowledgement is that of the last one presented. */
  lemma PresentedTimes(t: Table, e: Event, i: nat, timeout: nat)
    requires TableOk(t) && i < 32 && Presents(t, e, i, timeout)
    ensures Step(t, e, timeout).table.slots[i].lastTime == e.now
  {
    PresentedIs(t, e, i, timeout);
  }

  /** A frame of another flow releases a slot exactly if more than the timeout has passed both since the last scan and
      since the last acknowledgement of the slot's flow. */
  lemma ReleasedIff(t: Table, e: Event, i: nat, timeout: nat)
    requires TableOk(t) && i < 32 && t.slots[i].busy && e.Send? && e.a.flow != t.slots[i].flow && e.a.verdict == 0
    requires e.a.winScale == 0
    ensures Step(t, e, timeout).table.slots[i].busy <==>
            e.now <= t.lastTime + timeout || e.now <= t.slots[i].lastTime + timeout
    ensures Step(t, e, timeout).table.lastTime == if e.now > t.lastTime + timeout then e.now else t.lastTime
  {
  }
}
