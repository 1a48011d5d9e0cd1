/** The receive reorder window of one station and traffic class. */
module RxReorder {
  import opened Bytes

  /** A 12-bit sequence number. */
  type Sn = x: int | 0 <= x < 0x1000

  /** A received frame, named by its identity. */
  datatype Frame = Frame(id: nat, sn: Sn, rtp: bool)

  // AICWF_REORDER_WINSIZE is 64; 0xFFFF in ind_sn says that no frame has been seen yet.

  /** SN_LESS: bit 11 of the difference. */
  predicate SnLess(a: int, b: int) {
    (a - b) % 0x1000 >= 0x800
  }

  // ------------------------------------------------------------ the four parts, on values

  datatype Checked = Checked(late: bool, ind: u16)

  /** reord_need_check: a frame behind the window is late; one at its start, or beyond its end, moves it. */
  function CheckSpec(ind: u16, sn: Sn): Checked {
    var wend := (ind + 63) % 0x1000;
    var ind := if ind == 0xFFFF then sn else ind;
    if SnLess(sn, ind) then Checked(true, ind)
    else if sn == ind then Checked(false, (ind + 1) % 0x1000)
    else if SnLess(wend, sn) then Checked(false, if sn >= 63 then sn - 63 else 0xFFF - (64 - (sn + 1)) + 1)
    else Checked(false, ind)
  }

  /** The first place of the list whose number is not less than `sn`. */
  function Place(list: seq<Frame>, sn: Sn, k: nat): (p: nat)
    requires k <= |list|
    ensures k <= p <= |list|
    ensures forall i :: k <= i < p ==> SnLess(list[i].sn, sn)
    ensures p < |list| ==> !SnLess(list[p].sn, sn)
    decreases |list| - k
  {
    if k < |list| && SnLess(list[k].sn, sn) then Place(list, sn, k + 1) else k
  }

  /** reord_rxframe_enqueue: refuses a number that is in the list. */
  function EnqueueSpec(list: seq<Frame>, f: Frame): Option<seq<Frame>> {
    var p := Place(list, f.sn, 0);
    if p < |list| && list[p].sn == f.sn then None else Some(list[..p] + [f] + list[p..])
  }

  /** The walk of reord_rxframes_process from place `k` on: the window's start climbs over the numbers it meets; it
      stops at the first number beyond, and says that there is one. */
  function Climb(ind: u16, list: seq<Frame>, k: nat): (u16, bool)
    requires k <= |list|
    decreases |list| - k
  {
    if k == |list| then (ind, false)
    else if SnLess(ind, list[k].sn) then (ind, true)
    else Climb(if ind == list[k].sn then (ind + 1) % 0x1000 else ind, list, k + 1)
  }

  function ProcessSpec(ind: u16, list: seq<Frame>, forced: bool): (u16, bool) {
    Climb(if forced && list != [] then list[0].sn else ind, list, 0)
  }

  /** How many frames at the front reord_rxframes_ind hands up. */
  function Due(ind: u16, list: seq<Frame>): (n: nat)
    ensures n <= |list|
  {
    if list == [] || SnLess(ind, list[0].sn) then 0 else 1 + Due(ind, list[1..])
  }

  // ------------------------------------------------------------ the events

  datatype State = State(enable: bool, ind: u16, list: seq<Frame>, timer: bool, work: bool)

  /** The state after an event, the frames handed up and the frames freed by it. */
  datatype Effect = Effect(state: State, up: seq<Frame>, freed: seq<Frame>)

  function HandUp(s: State): Effect {
    var n := Due(s.ind, s.list);
    Effect(s.(list := s.list[n..]), s.list[..n], [])
  }

  function Woken(s: State): State {
    if s.enable then s else s.(enable := true, ind := 0xFFFF)
  }

  /** reord_process_unit for a unicast data frame. */
  function ArriveSpec(s: State, f: Frame): Effect {
    var s := Woken(s);
    var c := CheckSpec(s.ind, f.sn);
    var s := s.(ind := c.ind);
    if c.late then
      if f.rtp && f.sn != c.ind then Effect(s, [], [f]) else Effect(s, [f], [])
    else
      match EnqueueSpec(s.list, f)
      case None => Effect(s, [], [f])
      case Some(list) =>
        var (ind, more) := ProcessSpec(s.ind, list, false);
        HandUp(s.(list := list, ind := ind, timer := more))
  }

  /** reord_timeout_handler: the timer is spent, the work is scheduled. */
  function FireSpec(s: State): Effect {
    Effect(s.(timer := false, work := true), [], [])
  }

  /** reord_timeout_worker: the window is forced to the first frame of the list. */
  function WorkSpec(s: State): Effect {
    var (ind, more) := ProcessSpec(s.ind, s.list, true);
    HandUp(s.(work := false, ind := ind, timer := s.timer || more))
  }

  /** reord_flush_tid. */
  function FlushSpec(s: State): Effect {
    if !s.enable then Effect(s, [], [])
    else Effect(s.(enable := false, list := [], timer := false, work := false), s.list, [])
  }

  // ------------------------------------------------------------ the driver's code

  class ReordCtrl {
    var enable: bool
    var indSn: u16
    var list: seq<Frame>
    var timer: bool                  // reord_timer is pending
    var work: bool                   // reord_timer_work is pending

    function View(): State
      reads this
    {
      State(enable, indSn, list, timer, work)
    }

    constructor ()
      ensures View() == State(true, 0xFFFF, [], false, false)
    {
      enable, indSn, list, timer, work := true, 0xFFFF, [], false, false;
    }

    method NeedCheck(seqNum: Sn) returns (late: bool)
      modifies `indSn
      ensures Checked(late, indSn) == CheckSpec(old(indSn), seqNum)
    {
      var wend := (indSn + 63) % 0x1000;
      if indSn == 0xFFFF {
        indSn := seqNum;
      }
      if SnLess(seqNum, indSn) {
        return true;
      }
      if seqNum == indSn {
        indSn := (indSn + 1) % 0x1000;
      } else if SnLess(wend, seqNum) {
        if seqNum >= 63 {
          indSn := seqNum - 63;
        } else {
          indSn := 0xFFF - (64 - (seqNum + 1)) + 1;
        }
      }
      return false;
    }

    method Enqueue(f: Frame) returns (refused: bool)
      modifies `list
      ensures refused == EnqueueSpec(old(list), f).None?
      ensures list == if refused then old(list) else EnqueueSpec(old(list), f).value
    {
      var p := 0;
      while p < |list|
        invariant 0 <= p <= |list| && Place(list, f.sn, 0) == Place(list, f.sn, p)
      {
        if SnLess(list[p].sn, f.sn) {
          p := p + 1;
        } else if list[p].sn == f.sn {
          return true;
        } else {
          break;
        }
      }
      list := list[..p] + [f] + list[p..];
      return false;
    }

    method Process(forced: bool) returns (pktInBuf: bool)
      modifies `indSn
      ensures (indSn, pktInBuf) == ProcessSpec(old(indSn), list, forced)
    {
      if forced {
        if list == [] {
          return false;
        }
        indSn := list[0].sn;
      }
      var k := 0;
      while k < |list|
        invariant 0 <= k <= |list|
        invariant Climb(indSn, list, k) == ProcessSpec(old(indSn), list, forced)
      {
        if SnLess(indSn, list[k].sn) {
          return true;
        }
        if indSn == list[k].sn {
          indSn := (indSn + 1) % 0x1000;
        }
        k := k + 1;
      }
      return false;
    }

    method Ind() returns (up: seq<Frame>)
      modifies `list
      ensures up == old(list)[..Due(indSn, old(list))] && list == old(list)[Due(indSn, old(list))..]
    {
      up := [];
      ghost var n := 0;
      while list != []
        invariant n <= |old(list)| && up == old(list)[..n] && list == old(list)[n..]
        invariant Due(indSn, old(list)) == n + Due(indSn, list)
        decreases |list|
      {
        if SnLess(indSn, list[0].sn) {
          break;
        }
        up := up + [list[0]];
        list := list[1..];
        n := n + 1;
      }
    }

    method ProcessUnit(f: Frame) returns (up: seq<Frame>, freed: seq<Frame>)
      modifies this
      ensures Effect(View(), up, freed) == ArriveSpec(old(View()), f)
    {
      up, freed := [], [];
      if !enable {
        enable, indSn := true, 0xFFFF;
      }
      var late := NeedCheck(f.sn);
      if late {
        if f.rtp {
          if f.sn == indSn {
            up := [f];
          } else {
            freed := [f];
          }
        } else {
          up := [f];
        }
        return;
      }
      var refused := Enqueue(f);
      if refused {
        freed := [f];
        return;
      }
      var more := Process(false);
      if more {
        if !timer {
          timer := true;
        }
      } else if timer {
        timer := false;
      }
      up := Ind();
    }

    method TimeoutHandler()
      modifies this
      ensures View() == FireSpec(old(View())).state
    {
      timer := false;
      if !work {
        work := true;
      }
    }

    method TimeoutWorker() returns (up: seq<Frame>)
      modifies this
      ensures Effect(View(), up, []) == WorkSpec(old(View()))
    {
      work := false;
      var more := Process(true);
      if more {
        timer := true;
      }
      up := Ind();
    }

    method FlushTid() returns (up: seq<Frame>)
      modifies this
      ensures Effect(View(), up, []) == FlushSpec(old(View()))
    {
      up := [];
      if !enable {
        return;
      }
      while list != []
        invariant up + list == old(list)
        invariant enable && indSn == old(indSn)
        decreases |list|
      {
        assert up + list == (up + [list[0]]) + list[1..];
        up := up + [list[0]];
        list := list[1..];
      }
      enable, timer, work := false, false, false;
    }
  }
}
