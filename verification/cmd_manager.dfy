/** The command manager of the firmware loader: queueing, confirmation and timeout of commands over one list. */
module CmdManager {
  import opened Bytes

  // ------------------------------------------------------------ commands

  datatype Flags = Flags(nonblock: bool, reqCfm: bool, waitPush: bool, waitAck: bool, waitCfm: bool, done: bool)

  /** 0, -EINTR, -EPIPE, -ENOMEM and -ETIMEDOUT. */
  datatype Status = Success | Interrupted | BrokenPipe | NoMemory | TimedOut

  /** A command; `completions` counts the wake-ups of its waiter, `answer` is what a confirmation left in e2a_msg. */
  datatype Cmd = Cmd(reqid: u16, flags: Flags, tkn: u32, result: Status, wantsAnswer: bool, answer: seq<u8>,
                     completions: nat)

  /** RWNX_CMD_WAIT_COMPLETE. */
  predicate WaitComplete(f: Flags) {
    !(f.waitAck || f.waitCfm)
  }

  /** The list holds commands by identity, oldest first. */
  datatype State = State(cmds: seq<nat>, recs: map<nat, Cmd>, queueSz: int, nextTkn: u32, crashed: bool)

  /** list_del. */
  function Removed(cmds: seq<nat>, id: nat): seq<nat> {
    if cmds == [] then [] else if cmds[0] == id then cmds[1..] else [cmds[0]] + Removed(cmds[1..], id)
  }

  function Finish(c: Cmd): Cmd {
    var d := c.(flags := c.flags.(done := true));
    if WaitComplete(c.flags) then d.(result := Success, completions := c.completions + 1) else d
  }

  function CompleteSpec(s: State, id: nat): State
    requires id in s.recs
  {
    s.(cmds := Removed(s.cmds, id), queueSz := s.queueSz - 1,
       recs := if s.recs[id].flags.nonblock then s.recs - {id} else s.recs[id := Finish(s.recs[id])])
  }

  /** The next push waits when the command before it does. */
  predicate MustDefer(s: State)
    requires forall id :: id in s.cmds ==> id in s.recs
  {
    s.cmds != [] && (var f := s.recs[s.cmds[|s.cmds| - 1]].flags; f.waitAck || f.waitPush)
  }

  function Accepted(c: Cmd, tkn: u32, deferred: bool): Cmd {
    c.(flags := c.flags.(waitPush := c.flags.waitPush || deferred, waitCfm := c.flags.waitCfm || c.flags.reqCfm),
       tkn := tkn, result := Interrupted)
  }

  /** RWNX_CMD_MAX_QUEUED is 8; a crashed manager refuses everything. */
  function Refusal(s: State): Status {
    if s.crashed then BrokenPipe else if s.cmds != [] && s.queueSz == 8 then NoMemory else Success
  }

  function QueueSpec(s: State, id: nat, c: Cmd): State
    requires forall i :: i in s.cmds ==> i in s.recs
  {
    if Refusal(s) != Success then s.(recs := s.recs[id := c.(result := Refusal(s))])
    else s.(cmds := s.cmds + [id], recs := s.recs[id := Accepted(c, s.nextTkn, MustDefer(s))],
            queueSz := s.queueSz + 1, nextTkn := (s.nextTkn + 1) % 0x1_0000_0000)
  }

  /** Whether a confirmation is for this command: same request, still waiting, not declined by the callback. */
  predicate Takes(c: Cmd, id: nat, reqid: u16, accept: nat -> bool) {
    c.reqid == reqid && c.flags.waitCfm && accept(id)
  }

  /** The first command of the list that takes the confirmation. */
  function FirstTaker(s: State, from: nat, reqid: u16, accept: nat -> bool): (k: nat)
    requires from <= |s.cmds| && forall id :: id in s.cmds ==> id in s.recs
    ensures from <= k <= |s.cmds|
    ensures k < |s.cmds| ==> Takes(s.recs[s.cmds[k]], s.cmds[k], reqid, accept)
    ensures forall j :: from <= j < k ==> !Takes(s.recs[s.cmds[j]], s.cmds[j], reqid, accept)
    decreases |s.cmds| - from
  {
    if from == |s.cmds| then from
    else if Takes(s.recs[s.cmds[from]], s.cmds[from], reqid, accept) then from
    else FirstTaker(s, from + 1, reqid, accept)
  }

  /** The parameters copied out are at most RWNX_CMD_E2AMSG_LEN_MAX (256 words) bytes. */
  function Clip(param: seq<u8>): seq<u8> {
    if |param| > 1024 then param[..1024] else param
  }

  function Answered(c: Cmd, param: seq<u8>): Cmd {
    c.(flags := c.flags.(waitCfm := false), answer := if c.wantsAnswer && param != [] then Clip(param) else c.answer)
  }

  function AnswerSpec(s: State, id: nat, param: seq<u8>): State
    requires id in s.recs
  {
    var t := s.(recs := s.recs[id := Answered(s.recs[id], param)]);
    if WaitComplete(t.recs[id].flags) then CompleteSpec(t, id) else t
  }

  function ConfirmSpec(s: State, reqid: u16, param: seq<u8>, accept: nat -> bool): State
    requires forall id :: id in s.cmds ==> id in s.recs
  {
    var k := FirstTaker(s, 0, reqid, accept);
    if k == |s.cmds| then s else AnswerSpec(s, s.cmds[k], param)
  }

  /** The locked part after a wait that ran out. */
  function TimeoutSpec(s: State, id: nat): State
    requires id in s.recs
  {
    var t := s.(crashed := true);
    if s.recs[id].flags.done then t
    else CompleteSpec(t.(recs := t.recs[id := t.recs[id].(result := TimedOut)]), id)
  }

  // ------------------------------------------------------------ the driver's code

  class CmdMgr {
    var cmds: seq<nat>
    var recs: map<nat, Cmd>
    var queueSz: int
    var nextTkn: u32
    var crashed: bool

    function View(): State
      reads this
    {
      State(cmds, recs, queueSz, nextTkn, crashed)
    }

    ghost predicate Known()
      reads this
    {
      forall id :: id in cmds ==> id in recs
    }

    constructor ()
      ensures View() == State([], map[], 0, 0, false)
    {
      cmds, recs, queueSz, nextTkn, crashed := [], map[], 0, 0, false;
    }

    /** cmd_complete. */
    method Complete(id: nat)
      requires id in recs
      modifies this
      ensures View() == CompleteSpec(old(View()), id)
    {
      cmds := Removed(cmds, id);
      queueSz := queueSz - 1;
      var c := recs[id];
      c := c.(flags := c.flags.(done := true));
      if c.flags.nonblock {
        recs := recs - {id};
      } else {
        if !(c.flags.waitAck || c.flags.waitCfm) {
          c := c.(result := Success, completions := c.completions + 1);
        }
        recs := recs[id := c];
      }
    }

    /** The locked part of cmd_mgr_queue. */
    method Queue(id: nat, cmd: Cmd) returns (err: Status, deferPush: bool)
      requires Known()
      modifies this
      ensures View() == QueueSpec(old(View()), id, cmd)
      ensures err == Refusal(old(View())) && deferPush == (err == Success && MustDefer(old(View())))
    {
      deferPush := false;
      var c := cmd;
      if crashed {
        recs := recs[id := c.(result := BrokenPipe)];
        return BrokenPipe, false;
      }
      if cmds != [] {
        if queueSz == 8 {
          recs := recs[id := c.(result := NoMemory)];
          return NoMemory, false;
        }
        var last := recs[cmds[|cmds| - 1]];
        if last.flags.waitAck || last.flags.waitPush {
          c := c.(flags := c.flags.(waitPush := true));
          deferPush := true;
        }
      }
      if c.flags.reqCfm {
        c := c.(flags := c.flags.(waitCfm := true));
      }
      c := c.(tkn := nextTkn, result := Interrupted);
      nextTkn := (nextTkn + 1) % 0x1_0000_0000;
      recs := recs[id := c];
      cmds := cmds + [id];
      queueSz := queueSz + 1;
      err := Success;
    }

    /** cmd_mgr_msgind; a missing callback accepts everything. */
    method Msgind(reqid: u16, param: seq<u8>, accept: nat -> bool) returns (found: bool)
      requires Known()
      modifies this
      ensures View() == ConfirmSpec(old(View()), reqid, param, accept)
      ensures found == (FirstTaker(old(View()), 0, reqid, accept) < |old(cmds)|)
    {
      found := false;
      var k := 0;
      while k < |cmds|
        invariant 0 <= k <= |cmds| && View() == old(View())
        invariant FirstTaker(View(), 0, reqid, accept) == FirstTaker(View(), k, reqid, accept)
      {
        var id := cmds[k];
        if recs[id].reqid == reqid && recs[id].flags.waitCfm && accept(id) {
          found := true;
          Confirm(id, param);
          return;
        }
        k := k + 1;
      }
    }

    /** The body of the search: the command is answered, and complete unless it still waits for something else. */
    method Confirm(id: nat, param: seq<u8>)
      requires id in recs
      modifies this
      ensures View() == AnswerSpec(old(View()), id, param)
    {
      var c := recs[id];
      c := c.(flags := c.flags.(waitCfm := false));
      var len := if |param| > 1024 then 1024 else |param|;
      assert param[..len] == Clip(param);
      if c.wantsAnswer && len > 0 {
        c := c.(answer := param[..len]);
      }
      recs := recs[id := c];
      if !(c.flags.waitAck || c.flags.waitCfm) {
        Complete(id);
      }
    }

    /** The end of cmd_mgr_queue when the wait ran out. */
    method Timeout(id: nat)
      requires id in recs
      modifies this
      ensures View() == TimeoutSpec(old(View()), id)
    {
      crashed := true;
      if !recs[id].flags.done {
        recs := recs[id := recs[id].(result := TimedOut)];
        Complete(id);
      }
    }
  }
}
