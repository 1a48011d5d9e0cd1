/** Suppression of pure TCP acknowledgements: one slot per flow withholds, replaces or drops them. */
module TcpAck {
  import opened Bytes

  /** A message buffer, named by its address. */
  type Msg = nat

  datatype Flow = Flow(source: u16, dest: u16, saddr: u32, daddr: u32)

  /** What header inspection reports about a frame: 0 for no acknowledgement, 1 or 2 for one. */
  datatype Ack = Ack(verdict: nat, flow: Flow, ackSeq: u32, winScale: u16)

  datatype Slot = Slot(busy: bool, dropCnt: int, pshFlag: bool, pshSeq: u32, winScale: u16, lastTime: nat,
                       msgbuf: Option<Msg>, inSend: Option<Msg>, timer: bool, flow: Flow, ackSeq: u32)

  // TCP_ACK_NUM is 32, TCP_ACK_DROP_CNT is 10. Time is counted in ticks that do not wrap.

  /** U32_BEFORE: the 32-bit difference a - b, read as signed, is not positive. */
  predicate Before(a: u32, b: u32) {
    var d := (a - b) % 0x1_0000_0000;
    d == 0 || d >= 0x8000_0000
  }

  // ---------------------------------------------------------------- one slot

  datatype Handled = Handled(slot: Slot, ret: int, drop: Option<Msg>)

  /** tcp_ack_handle_new on one slot. */
  function HandleSpec(s: Slot, m: Msg, ackSeq: u32, now: nat): Handled {
    var s := s.(lastTime := now);
    if Before(s.ackSeq, ackSeq) then
      var quick := s.pshFlag && !Before(ackSeq, s.pshSeq);
      var dropCnt := if quick then s.dropCnt else s.dropCnt + 1;
      var s' := s.(msgbuf := None, pshFlag := s.pshFlag && !quick, dropCnt := dropCnt, ackSeq := ackSeq);
      if quick || (s.inSend.None? && dropCnt >= 10) then
        Handled(s'.(dropCnt := 0, inSend := Some(m), timer := false), 0, s.msgbuf)
      else
        Handled(s'.(msgbuf := Some(m), timer := true), 1, s.msgbuf)
    else
      Handled(s, 1, Some(m))
  }

  /** tcp_ack_timeout on one slot, with the message it transmits. A callback that was already running when the timer
      was stopped or restarted is `late` and leaves the timer's state alone. */
  function FireSpec(s: Slot, late: bool): (Slot, Option<Msg>) {
    var s := s.(timer := s.timer && late);
    if s.busy && s.msgbuf.Some? && s.inSend.None? then
      (s.(msgbuf := None, dropCnt := 0, inSend := s.msgbuf), s.msgbuf)
    else (s, None)
  }

  predicate Expired(s: Slot, now: nat, timeout: nat) {
    s.busy && now > s.lastTime + timeout
  }

  // ---------------------------------------------------------------- the table

  datatype Table = Table(enable: bool, maxNum: int, freeIndex: int, lastTime: nat, slots: seq<Slot>)

  predicate Matches(s: Slot, flow: Flow) {
    s.busy && s.flow == flow
  }

  /** The first slot from `i` on that serves the flow, or -1. */
  function MatchFrom(slots: seq<Slot>, flow: Flow, i: nat): int
    decreases |slots| - i
  {
    if i >= |slots| then -1 else if Matches(slots[i], flow) then i else MatchFrom(slots, flow, i + 1)
  }

  /** The first idle slot from `i` on, or -1. */
  function IdleFrom(slots: seq<Slot>, i: nat): int
    decreases |slots| - i
  {
    if i >= |slots| then -1 else if !slots[i].busy then i else IdleFrom(slots, i + 1)
  }

  function CountBusy(slots: seq<Slot>): nat {
    if slots == [] then 0 else CountBusy(slots[..|slots| - 1]) + if slots[|slots| - 1].busy then 1 else 0
  }

  function Release(s: Slot, now: nat, timeout: nat): Slot {
    if Expired(s, now, timeout) then s.(busy := false) else s
  }

  function ReleaseAll(slots: seq<Slot>, now: nat, timeout: nat): (r: seq<Slot>)
    ensures |r| == |slots|
    ensures forall i :: 0 <= i < |slots| ==> r[i] == Release(slots[i], now, timeout)
  {
    seq(|slots|, i requires 0 <= i < |slots| => Release(slots[i], now, timeout))
  }

  function ExpiredFrom(slots: seq<Slot>, now: nat, timeout: nat, i: nat): int
    decreases |slots| - i
  {
    if i >= |slots| then -1 else if Expired(slots[i], now, timeout) then i else ExpiredFrom(slots, now, timeout, i + 1)
  }

  /** tcp_ack_update: at most once per timeout, every slot idle for longer is released; the lowest becomes the
      next to be handed out. */
  function UpdateSpec(t: Table, now: nat, timeout: nat): Table {
    if now > t.lastTime + timeout then
      var released := ReleaseAll(t.slots, now, timeout);
      var first := ExpiredFrom(t.slots, now, timeout, 0);
      Table(t.enable, t.maxNum - (CountBusy(t.slots) - CountBusy(released)),
            if first >= 0 then first else t.freeIndex, now, released)
    else t
  }

  /** tcp_ack_alloc_index. */
  function AllocSpec(t: Table): (Table, int) {
    if t.maxNum == 32 then (t, -1)
    else if t.freeIndex >= 0 then (t.(freeIndex := -1, maxNum := t.maxNum + 1), t.freeIndex)
    else
      var i := IdleFrom(t.slots, 0);
      if i >= 0 then (t.(freeIndex := -1, maxNum := t.maxNum + 1), i) else (t, -1)
  }

  /** A slot taken over for a flow: message, marker and timer are left as they are. */
  function Open(s: Slot, a: Ack, now: nat): Slot {
    s.(busy := true, pshFlag := false, lastTime := now, dropCnt := 10,
       winScale := if a.winScale != 0 then a.winScale else 1, flow := a.flow, ackSeq := a.ackSeq)
  }

  datatype Verdict = Verdict(table: Table, ret: int, drop: Option<Msg>)

  function Rescale(s: Slot, a: Ack): Slot {
    if a.winScale != 0 && s.winScale != a.winScale then s.(winScale := a.winScale) else s
  }

  /** A frame of a flow that has a slot. */
  function SendMatched(t: Table, index: nat, m: Msg, a: Ack, now: nat): Verdict
    requires index < |t.slots|
  {
    var s := Rescale(t.slots[index], a);
    if a.verdict > 0 && t.enable then
      var h := HandleSpec(s, m, a.ackSeq, now);
      Verdict(t.(slots := t.slots[index := h.slot]), h.ret, h.drop)
    else Verdict(t.(slots := t.slots[index := s]), 0, None)
  }

  /** A frame of a flow that has none: it opens a slot if there is one, and goes out. */
  function SendUnmatched(t: Table, a: Ack, now: nat): Verdict {
    var (t', i) := AllocSpec(t);
    if 0 <= i < |t'.slots| then Verdict(t'.(slots := t'.slots[i := Open(t'.slots[i], a, now)]), 0, None)
    else Verdict(t', 0, None)
  }

  /** filter_send_tcp_ack: 0 hands the message back to the caller for transmission. */
  function SendSpec(t: Table, m: Msg, a: Ack, now: nat, timeout: nat): Verdict {
    var t := UpdateSpec(t, now, timeout);
    if a.verdict == 0 && a.winScale == 0 then Verdict(t, 0, None)
    else
      var index := MatchFrom(t.slots, a.flow, 0);
      if 0 <= index < |t.slots| then SendMatched(t, index, m, a, now) else SendUnmatched(t, a, now)
  }

  /** filter_rx_tcp_ack once header inspection has found a pushed segment of `flow`, seen from this side. */
  function RxSpec(t: Table, flow: Flow, ackSeq: u32): Table {
    var index := MatchFrom(t.slots, flow, 0);
    if t.enable && 0 <= index < |t.slots| then
      t.(slots := t.slots[index := t.slots[index].(pshFlag := true, pshSeq := ackSeq)])
    else t
  }

  function Unmark(s: Slot, m: Msg): Slot {
    if s.busy && s.inSend == Some(m) then s.(inSend := None) else s
  }

  function UnmarkAll(slots: seq<Slot>, m: Msg): (r: seq<Slot>)
    ensures |r| == |slots|
    ensures forall i :: 0 <= i < |slots| ==> r[i] == Unmark(slots[i], m)
  {
    seq(|slots|, i requires 0 <= i < |slots| => Unmark(slots[i], m))
  }

  /** move_tcpack_msg. */
  function MoveSpec(t: Table, m: Msg): Table {
    if t.enable then t.(slots := UnmarkAll(t.slots, m)) else t
  }

  function Cleared(slots: seq<Slot>): (r: seq<Slot>)
    ensures |r| == |slots|
    ensures forall i :: 0 <= i < |slots| ==> r[i] == slots[i].(timer := false, msgbuf := None)
  {
    seq(|slots|, i requires 0 <= i < |slots| => slots[i].(timer := false, msgbuf := None))
  }

  function HeldList(slots: seq<Slot>): seq<Msg> {
    if slots == [] then []
    else
      var last := slots[|slots| - 1];
      HeldList(slots[..|slots| - 1]) + if last.msgbuf.Some? then [last.msgbuf.value] else []
  }

  const NO_FLOW := Flow(0, 0, 0, 0)
  const FRESH := Slot(false, 0, false, 0, 0, 0, None, None, false, NO_FLOW, 0)

  function InitSpec(now: nat): Table {
    Table(true, 0, 0, now, seq(32, _ => FRESH.(lastTime := now)))
  }

  // ---------------------------------------------------------------- the driver's code

  class Manager {
    var enable: bool
    var maxNum: int
    var freeIndex: int
    var lastTime: nat
    const timeout: nat
    const slots: array<Slot>

    ghost predicate Shaped()
      reads this
    {
      slots.Length == 32 && freeIndex < 32
    }

    ghost function View(): Table
      reads this, slots
    {
      Table(enable, maxNum, freeIndex, lastTime, slots[..])
    }

    constructor (now: nat, timeout: nat)
      ensures Shaped() && fresh(slots) && View() == InitSpec(now) && this.timeout == timeout
    {
      enable, maxNum, freeIndex, lastTime := true, 0, 0, now;
      this.timeout := timeout;
      slots := new Slot[32](_ => FRESH.(lastTime := now));
    }

    method Match(flow: Flow) returns (ret: int)
      requires Shaped()
      ensures ret == MatchFrom(slots[..], flow, 0) && ret < 32
    {
      ret := -1;
      var i := 0;
      while ret < 0 && i < 32
        invariant 0 <= i <= 32 && -1 <= ret < 32
        invariant MatchFrom(slots[..], flow, 0) == if ret >= 0 then ret else MatchFrom(slots[..], flow, i)
        decreases 32 - i
      {
        if slots[i].busy && slots[i].flow == flow {
          ret := i;
        }
        i := i + 1;
      }
    }

    /** One slot of the ageing loop. */
    method ReleaseSlot(i: nat, now: nat)
      requires Shaped() && i < 32
      modifies this`freeIndex, this`maxNum, slots
      ensures Shaped() && slots[..] == old(slots[..])[i := Release(old(slots[i]), now, timeout)]
      ensures freeIndex == if Expired(old(slots[i]), now, timeout) then i else old(freeIndex)
      ensures maxNum == old(maxNum) - (CountBusy(old(slots[..])) - CountBusy(slots[..]))
    {
      ghost var before := slots[..];
      if slots[i].busy && now > slots[i].lastTime + timeout {
        CountUpdate(before, i, before[i].(busy := false));
        freeIndex := i;
        maxNum := maxNum - 1;
        slots[i] := slots[i].(busy := false);
      }
      assert slots[..] == before[i := slots[i]];
    }

    /** The ageing loop, from the last slot down. */
    method ReleaseDown(now: nat, ghost all: seq<Slot>)
      requires Shaped() && all == slots[..]
      modifies this`freeIndex, this`maxNum, slots
      ensures Shaped() && forall k :: 0 <= k < 32 ==> slots[k] == Release(all[k], now, timeout)
      ensures var first := ExpiredFrom(all, now, timeout, 0);
              freeIndex == (if first >= 0 then first else old(freeIndex))
      ensures maxNum == old(maxNum) - (CountBusy(all) - CountBusy(slots[..]))
    {
      var i := 31;
      while i >= 0
        invariant -1 <= i < 32 && Shaped()
        invariant forall k :: 0 <= k <= i ==> slots[k] == all[k]
        invariant forall k :: i < k < 32 ==> slots[k] == Release(all[k], now, timeout)
        invariant var first := ExpiredFrom(all, now, timeout, i + 1);
                  freeIndex == (if first >= 0 then first else old(freeIndex))
        invariant maxNum == old(maxNum) - (CountBusy(all) - CountBusy(slots[..]))
      {
        ghost var before := slots[..];
        ReleaseSlot(i, now);
        assert forall k :: 0 <= k < 32 ==> slots[k] == before[i := slots[i]][k];
        i := i - 1;
      }
    }

    method Update(now: nat)
      requires Shaped()
      modifies this, slots
      ensures Shaped() && View() == UpdateSpec(old(View()), now, timeout)
    {
      if now > lastTime + timeout {
        lastTime := now;
        ghost var all := slots[..];
        ReleaseDown(now, all);
        assert slots[..] == ReleaseAll(all, now, timeout);
      }
    }

    method AllocIndex() returns (ret: int)
      requires Shaped()
      modifies this
      ensures Shaped() && (View(), ret) == AllocSpec(old(View())) && ret < 32
    {
      if maxNum == 32 {
        return -1;
      }
      if freeIndex >= 0 {
        ret := freeIndex;
        freeIndex := -1;
        maxNum := maxNum + 1;
        return;
      }
      ret := -1;
      var i := 0;
      while ret < 0 && i < 32
        invariant 0 <= i <= 32 && -1 <= ret < 32 && Shaped()
        invariant IdleFrom(slots[..], 0) == if ret >= 0 then ret else IdleFrom(slots[..], i)
        invariant View() == if ret >= 0 then old(View()).(freeIndex := -1, maxNum := old(maxNum) + 1) else old(View())
        decreases 32 - i
      {
        if !slots[i].busy {
          freeIndex := -1;
          maxNum := maxNum + 1;
          ret := i;
        }
        i := i + 1;
      }
    }

    method HandleNew(m: Msg, i: nat, ackSeq: u32, now: nat) returns (ret: int, drop: Option<Msg>)
      requires Shaped() && i < 32
      modifies slots
      ensures var h := HandleSpec(old(slots[i]), m, ackSeq, now);
              ret == h.ret && drop == h.drop && slots[..] == old(slots[..])[i := h.slot]
    {
      var quickAck := false;
      ret, drop := 0, None;
      var s := slots[i];
      s := s.(lastTime := now);
      if Before(s.ackSeq, ackSeq) {
        if s.msgbuf.Some? {
          drop := s.msgbuf;
          s := s.(msgbuf := None);
        }
        if s.pshFlag && !Before(ackSeq, s.pshSeq) {
          s := s.(pshFlag := false);
          quickAck := true;
        } else {
          s := s.(dropCnt := s.dropCnt + 1);
        }
        s := s.(ackSeq := ackSeq);
        if quickAck || (s.inSend.None? && s.dropCnt >= 10) {
          s := s.(dropCnt := 0);
          s := s.(inSend := Some(m));
          s := s.(timer := false);
        } else {
          ret := 1;
          s := s.(msgbuf := Some(m));
          if !s.timer {
            s := s.(timer := true);
          }
        }
      } else {
        drop := Some(m);
        ret := 1;
      }
      slots[i] := s;
    }

    method Timeout(i: nat, late: bool) returns (sent: Option<Msg>)
      requires Shaped() && i < 32
      modifies slots
      ensures (slots[i], sent) == FireSpec(old(slots[i]), late)
      ensures slots[..] == old(slots[..])[i := slots[i]]
    {
      var s := slots[i];
      if !late {
        s := s.(timer := false);
      }
      var msg := s.msgbuf;
      sent := None;
      if s.busy && msg.Some? && s.inSend.None? {
        s := s.(msgbuf := None);
        s := s.(dropCnt := 0);
        s := s.(inSend := msg);
        sent := msg;
      }
      slots[i] := s;
    }

    method FilterSend(m: Msg, a: Ack, now: nat) returns (ret: int, drop: Option<Msg>)
      requires Shaped()
      modifies this, slots
      ensures Shaped() && Verdict(View(), ret, drop) == SendSpec(old(View()), m, a, now, timeout)
    {
      ret, drop := 0, None;
      Update(now);
      if a.verdict == 0 && a.winScale == 0 {
        return;
      }
      var index := Match(a.flow);
      if index >= 0 {
        ghost var before := slots[..];
        if a.winScale != 0 && slots[index].winScale != a.winScale {
          slots[index] := slots[index].(winScale := a.winScale);
        }
        assert slots[..] == before[index := Rescale(before[index], a)];
        if a.verdict > 0 && enable {
          ret, drop := HandleNew(m, index, a.ackSeq, now);
        }
        return;
      }
      index := AllocIndex();
      if index >= 0 {
        slots[index] := Open(slots[index], a, now);
      }
    }

    method FilterRx(flow: Flow, ackSeq: u32)
      requires Shaped()
      modifies slots
      ensures View() == RxSpec(old(View()), flow, ackSeq)
    {
      if !enable {
        return;
      }
      var index := Match(flow);
      if index >= 0 {
        slots[index] := slots[index].(pshFlag := true, pshSeq := ackSeq);
      }
    }

    method MoveMsg(m: Msg)
      requires Shaped()
      modifies slots
      ensures View() == MoveSpec(old(View()), m)
    {
      if !enable {
        return;
      }
      ghost var all := slots[..];
      ghost var done := UnmarkAll(all, m);
      for i := 0 to 32
        invariant forall k :: 0 <= k < 32 ==> slots[k] == if k < i then done[k] else all[k]
      {
        if slots[i].busy && slots[i].inSend == Some(m) {
          slots[i] := slots[i].(inSend := None);
        }
      }
      assert slots[..] == done;
    }

    method Deinit() returns (dropped: seq<Msg>)
      requires Shaped()
      modifies this, slots
      ensures Shaped() && View() == old(View()).(enable := false, slots := Cleared(old(slots[..])))
      ensures dropped == HeldList(old(slots[..]))
    {
      enable := false;
      dropped := [];
      ghost var all := slots[..];
      ghost var done := Cleared(all);
      for i := 0 to 32
        invariant forall k :: 0 <= k < 32 ==> slots[k] == if k < i then done[k] else all[k]
        invariant !enable && maxNum == old(maxNum) && freeIndex == old(freeIndex) && lastTime == old(lastTime)
        invariant dropped == HeldList(all[..i])
      {
        assert all[..i + 1][..i] == all[..i];
        var dropMsg := slots[i].msgbuf;
        slots[i] := slots[i].(timer := false, msgbuf := None);
        if dropMsg.Some? {
          dropped := dropped + [dropMsg.value];
        }
      }
      assert slots[..] == done && all[..32] == all;
    }
  }

  // ---------------------------------------------------------------- counting

  lemma {:induction false} CountUpdate(slots: seq<Slot>, i: nat, s: Slot)
    requires i < |slots|
    ensures CountBusy(slots[i := s]) ==
            CountBusy(slots) - (if slots[i].busy then 1 else 0) + (if s.busy then 1 else 0)
  {
    var n := |slots| - 1;
    if i < n {
      assert slots[i := s][..n] == slots[..n][i := s];
      CountUpdate(slots[..n], i, s);
    } else {
      assert slots[i := s][..n] == slots[..n];
    }
  }
}
