/** Every interleaving of command requests, confirmations, timeouts and wake-ups. */
module CmdManagerRuns {
  import opened Bytes
  import opened CmdManager

  /** The manager, the commands asked for so far, whose caller still waits, every cmd_complete call in order,
      and what each finished caller got. */
  datatype World = World(mgr: State, born: nat, waiting: set<nat>, finished: seq<nat>, returned: map<nat, Status>)

  datatype Event =
    | Request(reqid: u16, wantsAnswer: bool)
    | Confirmation(reqid: u16, param: seq<u8>, accept: nat -> bool)
    | WaitOver(id: nat)
    | WokenUp(id: nat)

  /** The flags rwnx_send_msg sets: never NONBLOCK, and only commands that want a confirmation are queued. */
  function NewCmd(reqid: u16, wantsAnswer: bool): Cmd {
    Cmd(reqid, Flags(false, true, false, false, false, false), 0, Interrupted, wantsAnswer, [], 0)
  }

  predicate Known(w: World) {
    && (forall id :: id in w.mgr.cmds ==> id in w.mgr.recs)
    && (forall id :: id in w.waiting ==> id in w.mgr.recs)
  }

  function RequestStep(w: World, reqid: u16, wantsAnswer: bool): World
    requires Known(w)
  {
    var err, id := Refusal(w.mgr), w.born;
    var t := w.(mgr := QueueSpec(w.mgr, id, NewCmd(reqid, wantsAnswer)), born := id + 1);
    if err != Success then t.(returned := w.returned[id := err])
    else if MustDefer(w.mgr) then t.(returned := w.returned[id := Success])
    else t.(waiting := w.waiting + {id})
  }

  function ConfirmationStep(w: World, reqid: u16, param: seq<u8>, accept: nat -> bool): World
    requires Known(w)
  {
    var k := FirstTaker(w.mgr, 0, reqid, accept);
    if k == |w.mgr.cmds| then w
    else
      var id := w.mgr.cmds[k];
      w.(mgr := AnswerSpec(w.mgr, id, param),
         finished := w.finished + if WaitComplete(Answered(w.mgr.recs[id], param).flags) then [id] else [])
  }

  function WaitOverStep(w: World, id: nat): World
    requires Known(w) && id in w.waiting
  {
    w.(mgr := TimeoutSpec(w.mgr, id), waiting := w.waiting - {id}, returned := w.returned[id := TimedOut],
       finished := w.finished + if w.mgr.recs[id].flags.done then [] else [id])
  }

  /** The caller wakes up and frees its command. */
  function WokenUpStep(w: World, id: nat): World {
    w.(mgr := w.mgr.(recs := w.mgr.recs - {id}), waiting := w.waiting - {id}, returned := w.returned[id := Success])
  }

  function Step(w: World, ev: Event): World
    requires Known(w)
  {
    match ev
    case Request(reqid, wantsAnswer) => RequestStep(w, reqid, wantsAnswer)
    case Confirmation(reqid, param, accept) => ConfirmationStep(w, reqid, param, accept)
    case WaitOver(id) => if id in w.waiting then WaitOverStep(w, id) else w
    case WokenUp(id) => if id in w.waiting && w.mgr.recs[id].completions > 0 then WokenUpStep(w, id) else w
  }

  // ------------------------------------------------------------ what every step keeps

  predicate Ascending(s: seq<nat>) {
    forall i, j :: 0 <= i < j < |s| ==> s[i] < s[j]
  }

  predicate Distinct(s: seq<nat>) {
    forall i, j :: 0 <= i < j < |s| ==> s[i] != s[j]
  }

  /** Listed: waits for its confirmation and for nothing else. */
  predicate Pending(c: Cmd) {
    c.flags == Flags(false, true, false, false, true, false) && c.result == Interrupted && c.completions == 0
  }

  /** Confirmed: its waiter has been woken once. */
  predicate Confirmed(c: Cmd) {
    c.flags == Flags(false, true, false, false, false, true) && c.result == Success && c.completions == 1
  }

  /** A command waits in the list, or waits to be woken up after its confirmation, or has returned. Only a caller
      that was woken up frees its command: a refused or timed-out command stays allocated. */
  predicate Placed(w: World, id: nat) {
    if id in w.waiting then
      && id !in w.returned && id in w.mgr.recs
      && (if id in w.mgr.cmds then id !in w.finished && Pending(w.mgr.recs[id])
          else id in w.finished && Confirmed(w.mgr.recs[id]))
    else
      && id in w.returned && id !in w.mgr.cmds && w.returned[id] != Interrupted
      && (id in w.finished <==> w.returned[id] == Success || w.returned[id] == TimedOut)
      && (id in w.mgr.recs <==> w.returned[id] != Success)
  }

  predicate Old(w: World) {
    && (forall id :: id in w.mgr.cmds ==> id < w.born)
    && (forall id :: id in w.waiting ==> id < w.born)
    && (forall id :: id in w.finished ==> id < w.born)
    && (forall id :: id in w.returned ==> id < w.born)
    && (forall id :: id in w.mgr.recs ==> id < w.born)
  }

  /** Sound worlds: the size is right and at most 8, the list is in order of arrival, every command has its place,
      cmd_complete was called at most once per command, and the manager has crashed exactly when a wait has run out. */
  predicate Sound(w: World) {
    && w.mgr.queueSz == |w.mgr.cmds| <= 8
    && Ascending(w.mgr.cmds)
    && Distinct(w.finished)
    && Old(w)
    && (forall id :: 0 <= id < w.born ==> Placed(w, id))
    && (w.mgr.crashed <==> exists id :: id in w.returned && w.returned[id] == TimedOut)
  }

  lemma SoundKnown(w: World)
    requires Sound(w)
    ensures Known(w) && !MustDefer(w.mgr)
  {
    forall id | id in w.mgr.cmds ensures id in w.mgr.recs {
      assert Placed(w, id);
    }
    forall id | id in w.waiting ensures id in w.mgr.recs {
      assert Placed(w, id);
    }
    if w.mgr.cmds != [] {
      var last := w.mgr.cmds[|w.mgr.cmds| - 1];
      assert last in w.mgr.cmds && Placed(w, last);
    }
  }

  lemma {:induction false} RemovedOne(cmds: seq<nat>, id: nat)
    requires Ascending(cmds) && id in cmds
    ensures Ascending(Removed(cmds, id)) && |Removed(cmds, id)| == |cmds| - 1
    ensures forall i :: i in Removed(cmds, id) <==> i in cmds && i != id
  {
    var rest, r := cmds[1..], Removed(cmds, id);
    assert forall i :: i in cmds <==> i == cmds[0] || i in rest;
    if cmds[0] != id {
      RemovedOne(rest, id);
      forall i, j | 0 <= i < j < |r| ensures r[i] < r[j] {
        assert r[j] in Removed(rest, id);
      }
    } else {
      forall i | i in rest ensures i != id {
        var k :| 0 <= k < |rest| && rest[k] == i;
        assert cmds[k + 1] == i;
      }
    }
  }

  lemma RequestPlaces(w: World, reqid: u16, wantsAnswer: bool, id: nat)
    requires Sound(w) && Known(w) && id <= w.born
    ensures id < RequestStep(w, reqid, wantsAnswer).born ==> Placed(RequestStep(w, reqid, wantsAnswer), id)
  {
    SoundKnown(w);
    if id < w.born {
      assert Placed(w, id);
    }
  }

  lemma RequestKeeps(w: World, reqid: u16, wantsAnswer: bool)
    requires Sound(w) && Known(w)
    ensures Sound(RequestStep(w, reqid, wantsAnswer))
  {
    SoundKnown(w);
    var t := RequestStep(w, reqid, wantsAnswer);
    forall i, j | 0 <= i < j < |t.mgr.cmds| ensures t.mgr.cmds[i] < t.mgr.cmds[j] {
      assert w.mgr.cmds[i] in w.mgr.cmds;
    }
    forall id | 0 <= id < t.born ensures Placed(t, id) {
      RequestPlaces(w, reqid, wantsAnswer, id);
    }
    if w.mgr.crashed {
      var id :| id in w.returned && w.returned[id] == TimedOut;
      assert id in t.returned && t.returned[id] == TimedOut;
    }
  }

  lemma ConfirmationKeeps(w: World, reqid: u16, param: seq<u8>, accept: nat -> bool)
    requires Sound(w) && Known(w)
    ensures Sound(ConfirmationStep(w, reqid, param, accept))
  {
    var k := FirstTaker(w.mgr, 0, reqid, accept);
    if k < |w.mgr.cmds| {
      var who := w.mgr.cmds[k];
      assert who in w.mgr.cmds && Placed(w, who);
      RemovedOne(w.mgr.cmds, who);
      var t := ConfirmationStep(w, reqid, param, accept);
      forall id | 0 <= id < t.born ensures Placed(t, id) {
        assert Placed(w, id);
      }
    }
  }

  lemma WaitOverKeeps(w: World, who: nat)
    requires Sound(w) && Known(w) && who in w.waiting
    ensures Sound(WaitOverStep(w, who))
  {
    assert Placed(w, who);
    if who in w.mgr.cmds {
      RemovedOne(w.mgr.cmds, who);
    }
    var t := WaitOverStep(w, who);
    forall id | 0 <= id < t.born ensures Placed(t, id) {
      assert Placed(w, id);
    }
    assert who in t.returned && t.returned[who] == TimedOut;
  }

  lemma WokenUpKeeps(w: World, who: nat)
    requires Sound(w) && Known(w) && who in w.waiting && w.mgr.recs[who].completions > 0
    ensures Sound(WokenUpStep(w, who))
  {
    assert Placed(w, who);
    var t := WokenUpStep(w, who);
    forall id | 0 <= id < t.born ensures Placed(t, id) {
      assert Placed(w, id);
    }
    if w.mgr.crashed {
      var id :| id in w.returned && w.returned[id] == TimedOut;
      assert id in t.returned && t.returned[id] == TimedOut;
    }
  }

  lemma StepKeeps(w: World, ev: Event)
    requires Sound(w) && Known(w)
    ensures Sound(Step(w, ev))
  {
    match ev
    case Request(reqid, wantsAnswer) => RequestKeeps(w, reqid, wantsAnswer);
    case Confirmation(reqid, param, accept) => ConfirmationKeeps(w, reqid, param, accept);
    case WaitOver(id) =>
      if id in w.waiting {
        WaitOverKeeps(w, id);
      }
    case WokenUp(id) =>
      if id in w.waiting && w.mgr.recs[id].completions > 0 {
        WokenUpKeeps(w, id);
      }
  }

  const START := World(State([], map[], 0, 0, false), 0, {}, [], map[])

  /** Whatever happens from a sound world on, the world stays sound. */
  function RunOn(w: World, evs: seq<Event>): (t: World)
    requires Sound(w)
    ensures Sound(t)
  {
    if evs == [] then w
    else
      var t := RunOn(w, evs[..|evs| - 1]);
      SoundStep(t, evs[|evs| - 1]);
      Step(t, evs[|evs| - 1])
  }

  lemma SoundStep(w: World, ev: Event)
    requires Sound(w)
    ensures Known(w) && Sound(Step(w, ev))
  {
    SoundKnown(w);
    StepKeeps(w, ev);
  }

  lemma SoundStart()
    ensures Sound(START)
  {
  }

  function Run(evs: seq<Event>): (w: World)
    ensures Sound(w)
  {
    SoundStart();
    RunOn(START, evs)
  }

  // ------------------------------------------------------------ what it means for reachable worlds and whole runs

  /** No push is ever deferred: no listed command waits for a push or an acknowledgement. */
  lemma NeverDeferred(w: World)
    requires Sound(w)
    ensures Known(w) && !MustDefer(w.mgr)
    ensures forall id :: id in w.mgr.cmds ==> Pending(w.mgr.recs[id])
  {
    SoundKnown(w);
    forall id | id in w.mgr.cmds ensures Pending(w.mgr.recs[id]) {
      assert Placed(w, id);
    }
  }

  lemma {:induction false} DistinctOnce(s: seq<nat>, id: nat)
    requires Distinct(s)
    ensures multiset(s)[id] == if id in s then 1 else 0
  {
    if s != [] {
      var n := |s| - 1;
      assert s == s[..n] + [s[n]];
      DistinctOnce(s[..n], id);
    }
  }

  predicate Refused(w: World, id: nat) {
    id in w.returned && (w.returned[id] == BrokenPipe || w.returned[id] == NoMemory)
  }

  /** Every command asked for is refused, or still listed, or has left the list exactly once,
      whichever of its confirmation and its timeout came first. */
  lemma LeavesOnce(w: World, id: nat)
    requires Sound(w) && id < w.born
    ensures multiset(w.finished)[id] == if Refused(w, id) || id in w.mgr.cmds then 0 else 1
    ensures !(Refused(w, id) && id in w.mgr.cmds)
  {
    assert Placed(w, id);
    DistinctOnce(w.finished, id);
  }

  predicate Tokened(w: World) {
    w.mgr.nextTkn == (|w.mgr.cmds| + |w.finished|) % 0x1_0000_0000
  }

  /** Commands only come in by being accepted, and cmd_complete moves them from the list to the finished ones. */
  lemma AcceptedStep(w: World, ev: Event)
    requires Sound(w) && Known(w)
    ensures var t := Step(w, ev);
            if ev.Request? && Refusal(w.mgr) == Success then
              |t.mgr.cmds| + |t.finished| == |w.mgr.cmds| + |w.finished| + 1 &&
              t.mgr.nextTkn == (w.mgr.nextTkn + 1) % 0x1_0000_0000
            else
              |t.mgr.cmds| + |t.finished| == |w.mgr.cmds| + |w.finished| && t.mgr.nextTkn == w.mgr.nextTkn
  {
    match ev
    case Request(reqid, wantsAnswer) =>
    case Confirmation(reqid, param, accept) =>
      NeverDeferred(w);
      var k := FirstTaker(w.mgr, 0, reqid, accept);
      if k < |w.mgr.cmds| {
        RemovedOne(w.mgr.cmds, w.mgr.cmds[k]);
      }
    case WaitOver(id) =>
      if id in w.waiting {
        assert Placed(w, id);
        if id in w.mgr.cmds {
          RemovedOne(w.mgr.cmds, id);
        }
      }
    case WokenUp(id) =>
  }

  lemma WrapNext(n: nat)
    ensures (n % 0x1_0000_0000 + 1) % 0x1_0000_0000 == (n + 1) % 0x1_0000_0000
  {
  }

  lemma TokenedStep(w: World, ev: Event)
    requires Sound(w) && Known(w) && Tokened(w)
    ensures Tokened(Step(w, ev))
  {
    AcceptedStep(w, ev);
    WrapNext(|w.mgr.cmds| + |w.finished|);
  }

  /** The next token counts the commands accepted so far, wrapping at 32 bits. */
  lemma {:induction false} TokensCount(evs: seq<Event>)
    ensures Tokened(Run(evs))
  {
    SoundStart();
    if evs != [] {
      var n := |evs| - 1;
      TokensCount(evs[..n]);
      SoundStep(Run(evs[..n]), evs[n]);
      TokenedStep(Run(evs[..n]), evs[n]);
    }
  }

  lemma CrashedStep(w: World, ev: Event)
    requires Sound(w) && Known(w) && w.mgr.crashed
    ensures Step(w, ev).mgr.crashed
    ensures forall id :: id in Step(w, ev).mgr.cmds ==> id in w.mgr.cmds
    ensures forall id :: id in w.returned ==> id in Step(w, ev).returned && Step(w, ev).returned[id] == w.returned[id]
    ensures w.born <= Step(w, ev).born <= w.born + 1
    ensures Step(w, ev).born > w.born ==> w.born in Step(w, ev).returned && Step(w, ev).returned[w.born] == BrokenPipe
  {
    match ev
    case Request(reqid, wantsAnswer) =>
    case Confirmation(reqid, param, accept) =>
      var k := FirstTaker(w.mgr, 0, reqid, accept);
      if k < |w.mgr.cmds| {
        RemovedOne(w.mgr.cmds, w.mgr.cmds[k]);
      }
    case WaitOver(id) =>
      if id in w.waiting {
        assert Placed(w, id);
        if id in w.mgr.cmds {
          RemovedOne(w.mgr.cmds, id);
        }
      }
    case WokenUp(id) =>
      if id in w.waiting {
        assert Placed(w, id);
      }
  }

  /** From `w` on nothing was accepted: the list has at most shrunk, and every later request was refused as broken. */
  predicate Absorbed(w: World, t: World) {
    && t.mgr.crashed && w.born <= t.born
    && (forall id :: id in t.mgr.cmds ==> id in w.mgr.cmds)
    && (forall id :: w.born <= id < t.born ==> id in t.returned && t.returned[id] == BrokenPipe)
  }

  lemma AbsorbedStep(w: World, t: World, ev: Event)
    requires Sound(t) && Known(t) && Absorbed(w, t)
    ensures Absorbed(w, Step(t, ev))
  {
    CrashedStep(t, ev);
  }

  /** A crashed manager accepts nothing further. */
  lemma {:induction false} CrashedAbsorbs(w: World, evs: seq<Event>)
    requires Sound(w) && w.mgr.crashed
    ensures Absorbed(w, RunOn(w, evs))
  {
    if evs != [] {
      var n := |evs| - 1;
      CrashedAbsorbs(w, evs[..n]);
      SoundStep(RunOn(w, evs[..n]), evs[n]);
      AbsorbedStep(w, RunOn(w, evs[..n]), evs[n]);
    }
  }

  /** A request is accepted if and only if the manager has not crashed and fewer than eight commands are listed: then it
      is the last of the list, waits for its confirmation and carries the next token. Otherwise its caller is told which
      of the two it was, and nothing changes for the others. */
  lemma AcceptedIff(w: World, reqid: u16, wantsAnswer: bool)
    requires Sound(w) && Known(w)
    ensures var (t, id) := (Step(w, Request(reqid, wantsAnswer)), w.born);
            && (id in t.mgr.cmds <==> !w.mgr.crashed && |w.mgr.cmds| < 8)
            && id in t.mgr.recs && t.mgr.recs == w.mgr.recs[id := t.mgr.recs[id]]
            && t.mgr.recs[id].reqid == reqid && t.mgr.recs[id].wantsAnswer == wantsAnswer
            && (if id in t.mgr.cmds then
                  && t.mgr.cmds == w.mgr.cmds + [id] && Pending(t.mgr.recs[id]) && t.mgr.recs[id].tkn == w.mgr.nextTkn
                  && t.waiting == w.waiting + {id} && t.returned == w.returned
                else
                  && t.mgr.cmds == w.mgr.cmds && t.waiting == w.waiting
                  && t.returned == w.returned[id := if w.mgr.crashed then BrokenPipe else NoMemory])
  {
    NeverDeferred(w);
    assert w.born !in w.mgr.cmds;
  }

  /** Its caller is then told of success and frees it; one that was not confirmed is not woken. */
  lemma WokenIff(w: World, who: nat)
    requires Sound(w) && Known(w) && who in w.waiting
    ensures var t := Step(w, WokenUp(who));
            if who in w.finished then
              t.returned == w.returned[who := Success] && t.waiting == w.waiting - {who} && who !in t.mgr.recs
            else t == w
  {
    assert Placed(w, who);
  }

  /** Whether a listed command takes the confirmation. */
  predicate Eligible(w: World, id: nat, reqid: u16, accept: nat -> bool) {
    id in w.mgr.cmds && id in w.mgr.recs && w.mgr.recs[id].reqid == reqid && accept(id)
  }

  lemma FirstIsOldest(w: World, reqid: u16, accept: nat -> bool)
    requires Sound(w) && Known(w)
    ensures var k := FirstTaker(w.mgr, 0, reqid, accept);
            && (k < |w.mgr.cmds| ==> Eligible(w, w.mgr.cmds[k], reqid, accept))
            && (forall id :: Eligible(w, id, reqid, accept) ==> k < |w.mgr.cmds| && w.mgr.cmds[k] <= id)
  {
    NeverDeferred(w);
    var k := FirstTaker(w.mgr, 0, reqid, accept);
    forall id | Eligible(w, id, reqid, accept) ensures k < |w.mgr.cmds| && w.mgr.cmds[k] <= id {
      var j :| 0 <= j < |w.mgr.cmds| && w.mgr.cmds[j] == id;
      assert k <= j;
    }
  }

  /** All of `s`, or its first `n` bytes. */
  predicate FrontOf(s: seq<u8>, n: nat, front: seq<u8>) {
    front <= s && (if |s| <= n then front == s else |front| == n)
  }

  /** A confirmation completes the oldest listed command of its request that the callback accepts, hands it the
      parameters, and changes no other command. */
  lemma ConfirmsOldest(w: World, reqid: u16, param: seq<u8>, accept: nat -> bool, who: nat)
    requires Sound(w) && Known(w)
    requires Eligible(w, who, reqid, accept) && forall id :: Eligible(w, id, reqid, accept) ==> who <= id
    ensures var t := Step(w, Confirmation(reqid, param, accept));
            && t.finished == w.finished + [who]
            && (forall id :: id in t.mgr.cmds <==> id in w.mgr.cmds && id != who)
            && who in t.mgr.recs && t.mgr.recs == w.mgr.recs[who := t.mgr.recs[who]] && Confirmed(t.mgr.recs[who])
            && (if w.mgr.recs[who].wantsAnswer && param != [] then FrontOf(param, 1024, t.mgr.recs[who].answer)
                else t.mgr.recs[who].answer == w.mgr.recs[who].answer)
            && t.mgr.recs[who].reqid == w.mgr.recs[who].reqid && t.mgr.recs[who].tkn == w.mgr.recs[who].tkn
  {
    FirstIsOldest(w, reqid, accept);
    NeverDeferred(w);
    RemovedOne(w.mgr.cmds, who);
  }

  /** A confirmation nobody takes changes nothing. */
  lemma ConfirmsNobody(w: World, reqid: u16, param: seq<u8>, accept: nat -> bool)
    requires Sound(w) && Known(w) && forall id :: !Eligible(w, id, reqid, accept)
    ensures Step(w, Confirmation(reqid, param, accept)) == w
  {
    FirstIsOldest(w, reqid, accept);
  }

  /** What the caller of a timed-out command finds. */
  predicate TimedOutOnce(t: World, who: nat, result: Status) {
    && who in t.returned && t.returned[who] == TimedOut && t.mgr.crashed
    && who !in t.mgr.cmds && multiset(t.finished)[who] == 1
    && who in t.mgr.recs && t.mgr.recs[who].result == result
  }

  lemma TwoSteps(w: World, one: Event, two: Event)
    requires Sound(w)
    ensures Known(w) && Sound(Step(w, one)) && Known(Step(w, one)) && Sound(Step(Step(w, one), two))
    ensures RunOn(w, [one, two]) == Step(Step(w, one), two)
  {
    SoundStep(w, one);
    SoundStep(Step(w, one), two);
    RunOnSnoc(w, [], one);
    RunOnSnoc(w, [] + [one], two);
    assert [] + [one] + [two] == [one, two];
  }

  lemma RunOnSnoc(w: World, evs: seq<Event>, ev: Event)
    requires Sound(w)
    ensures Known(RunOn(w, evs)) && RunOn(w, evs + [ev]) == Step(RunOn(w, evs), ev)
  {
    assert (evs + [ev])[..|evs|] == evs;
    SoundKnown(RunOn(w, evs));
  }

  /** When a wait runs out, the command is in place as timed out, if it was not confirmed before. */
  lemma WaitOverOnce(w: World, who: nat)
    requires Sound(w) && Known(w) && who in w.waiting
    ensures TimedOutOnce(Step(w, WaitOver(who)), who, if who in w.mgr.cmds then TimedOut else Success)
  {
    assert Placed(w, who);
    var t := Step(w, WaitOver(who));
    SoundStep(w, WaitOver(who));
    assert Placed(t, who);
    DistinctOnce(t.finished, who);
  }

  lemma OutcomeStays(w: World, ev: Event, who: nat, result: Status)
    requires Sound(w) && Known(w) && TimedOutOnce(w, who, result) && who < w.born && ev.Confirmation?
    ensures TimedOutOnce(Step(w, ev), who, result)
  {
    CrashedStep(w, ev);
    var t := Step(w, ev);
    SoundStep(w, ev);
    var k := FirstTaker(w.mgr, 0, ev.reqid, ev.accept);
    assert Placed(w, who) && Placed(t, who);
    DistinctOnce(t.finished, who);
    if k < |w.mgr.cmds| {
      assert w.mgr.cmds[k] in w.mgr.cmds;
    }
  }

  /** The race of a timeout with the confirmation of the same command: in either order the command leaves the list
      once, its caller is told of a timeout, and the manager has crashed. */
  lemma RaceOnce(w: World, reqid: u16, param: seq<u8>, accept: nat -> bool, who: nat)
    requires Sound(w)
    requires Eligible(w, who, reqid, accept) && forall id :: Eligible(w, id, reqid, accept) ==> who <= id
    ensures TimedOutOnce(RunOn(w, [Confirmation(reqid, param, accept), WaitOver(who)]), who, Success)
    ensures TimedOutOnce(RunOn(w, [WaitOver(who), Confirmation(reqid, param, accept)]), who, TimedOut)
  {
    var conf := Confirmation(reqid, param, accept);
    TwoSteps(w, conf, WaitOver(who));
    TwoSteps(w, WaitOver(who), conf);
    assert Placed(w, who);
    ConfirmsOldest(w, reqid, param, accept, who);
    assert who in Step(w, conf).waiting;
    WaitOverOnce(Step(w, conf), who);
    WaitOverOnce(w, who);
    OutcomeStays(Step(w, WaitOver(who)), conf, who, TimedOut);
  }
}
