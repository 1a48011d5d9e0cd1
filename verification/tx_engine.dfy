/** The SDIO transmit path: producers fill a priority queue, one consumer spends firmware credits on aggregates. */
module TxEngine {
  import opened Bytes
  import opened FrameQueues
  import opened TxFraming
  import Crc8

  // DATA_FLOW_CTRL_THRESH is 2, FLOW_CTRL_RETRY_COUNT is 50, MAX_AGGR_TXPKT_LEN is 1536 * 64 = 98304, TXQLEN is 8192.

  /** A packet whose record takes at most one of the 64 slots of 1536 bytes the aggregate buffer is made of. */
  predicate Sized(pkt: Packet) {
    WellFormed(pkt) && 4 + |Body(pkt)| + Pad(|Body(pkt)|) <= 1536
  }

  function OfClass(pkts: seq<Packet>, c: nat): seq<Packet> {
    if pkts == [] then []
    else
      var last := pkts[|pkts| - 1];
      OfClass(pkts[..|pkts| - 1], c) + if last.priority % 8 == c then [last] else []
  }

  lemma OfClassSnoc(pkts: seq<Packet>, pkt: Packet, c: nat)
    ensures OfClass(pkts + [pkt], c) == OfClass(pkts, c) + if pkt.priority % 8 == c then [pkt] else []
  {
    assert (pkts + [pkt])[..|pkts + [pkt]| - 1] == pkts;
  }

  predicate AllAre<T>(good: T -> bool, q: seq<T>) {
    forall k :: 0 <= k < |q| ==> good(q[k])
  }

  lemma AllJoin<T>(good: T -> bool, a: seq<T>, b: seq<T>)
    ensures AllAre(good, a + b) <==> AllAre(good, a) && AllAre(good, b)
  {
    assert forall k :: 0 <= k < |a| ==> a[k] == (a + b)[k];
    assert forall k :: 0 <= k < |b| ==> b[k] == (a + b)[|a| + k];
  }

  function InClass(c: nat): Packet -> bool {
    pkt => Sized(pkt) && pkt.priority % 8 == c
  }

  /** The queue `q` of class `c`: with what was taken it makes up what was accepted, in order. */
  ghost predicate ClassKept(q: seq<Packet>, taken: seq<Packet>, accepted: seq<Packet>, c: nat) {
    OfClass(taken, c) + q == OfClass(accepted, c) && AllAre(InClass(c), q)
  }

  /** Every accepted packet is queued in its class or was taken, class by class and in order. */
  ghost predicate Conserves(lists: seq<seq<Packet>>, taken: seq<Packet>, accepted: seq<Packet>) {
    |lists| == 8 && forall c :: 0 <= c < 8 ==> ClassKept(lists[c], taken, accepted, c)
  }

  lemma NothingYet(lists: seq<seq<Packet>>)
    requires |lists| == 8 && forall c :: 0 <= c < 8 ==> lists[c] == []
    ensures Conserves(lists, [], [])
  {
  }

  lemma SubmitKept(q: seq<Packet>, taken: seq<Packet>, accepted: seq<Packet>, pkt: Packet, c: nat)
    requires ClassKept(q, taken, accepted, c) && Sized(pkt)
    ensures ClassKept(if pkt.priority % 8 == c then q + [pkt] else q, taken, accepted + [pkt], c)
  {
    OfClassSnoc(accepted, pkt, c);
    if pkt.priority % 8 == c {
      Assoc(OfClass(taken, c), q, [pkt]);
      AllJoin(InClass(c), q, [pkt]);
    } else {
      assert OfClass(accepted, c) + [] == OfClass(accepted, c);
    }
  }

  lemma SubmitConserves(lists: seq<seq<Packet>>, taken: seq<Packet>, accepted: seq<Packet>, pkt: Packet)
    requires Conserves(lists, taken, accepted) && Sized(pkt)
    ensures var p := pkt.priority % 8; Conserves(lists[p := lists[p] + [pkt]], taken, accepted + [pkt])
  {
    forall c | 0 <= c < 8
      ensures ClassKept(if pkt.priority % 8 == c then lists[c] + [pkt] else lists[c], taken, accepted + [pkt], c)
    {
      SubmitKept(lists[c], taken, accepted, pkt, c);
    }
  }

  lemma TakeKept(q: seq<Packet>, taken: seq<Packet>, accepted: seq<Packet>, pkt: Packet, c: nat)
    requires ClassKept(if pkt.priority % 8 == c then [pkt] + q else q, taken, accepted, c)
    ensures ClassKept(q, taken + [pkt], accepted, c)
  {
    OfClassSnoc(taken, pkt, c);
    if pkt.priority % 8 == c {
      Assoc(OfClass(taken, c), [pkt], q);
      AllJoin(InClass(c), [pkt], q);
    } else {
      assert OfClass(taken, c) + [] == OfClass(taken, c);
    }
  }

  lemma HeadKept(q: seq<Packet>, taken: seq<Packet>, accepted: seq<Packet>, c: nat)
    requires ClassKept(q, taken, accepted, c) && q != []
    ensures q[0].priority % 8 == c && Sized(q[0]) && q == [q[0]] + q[1..]
  {
    assert InClass(c)(q[0]);
  }

  lemma TakeConserves(lists: seq<seq<Packet>>, taken: seq<Packet>, accepted: seq<Packet>, from: nat)
    requires Conserves(lists, taken, accepted) && from < 8 && lists[from] != []
    ensures Conserves(lists[from := lists[from][1..]], taken + [lists[from][0]], accepted)
    ensures Sized(lists[from][0])
  {
    var pkt := lists[from][0];
    var lists' := lists[from := lists[from][1..]];
    HeadKept(lists[from], taken, accepted, from);
    forall c | 0 <= c < 8 ensures ClassKept(lists'[c], taken + [pkt], accepted, c) {
      TakeKept(lists'[c], taken, accepted, pkt, c);
    }
  }

  /** What the receiver reads off a sequence of transmissions. */
  function Received(chip: Chip, sent: seq<seq<u8>>): seq<seq<u8>> {
    if sent == [] then [] else Received(chip, sent[..|sent| - 1]) + Walk(chip, sent[|sent| - 1])
  }

  lemma ReceivedSnoc(chip: Chip, sent: seq<seq<u8>>, one: seq<u8>)
    ensures Received(chip, sent + [one]) == Received(chip, sent) + Walk(chip, one)
  {
    assert (sent + [one])[..|sent + [one]| - 1] == sent;
  }

  lemma {:induction false} WiresSnoc(chip: Chip, pkts: seq<Packet>, pkt: Packet)
    ensures Wires(chip, pkts + [pkt]) == Wires(chip, pkts) + [Wire(chip, pkt)]
  {
    if pkts == [] {
      assert pkts + [pkt] == [pkt];
    } else {
      assert (pkts + [pkt])[1..] == pkts[1..] + [pkt];
      WiresSnoc(chip, pkts[1..], pkt);
    }
  }

  lemma Pieces<T>(a: seq<T>, b: seq<T>, n: nat)
    requires n <= |b|
    ensures (a + b)[..|a|] == a && (a + b)[|a| + n..] == b[n..]
  {
  }

  lemma Regroup<T>(a: seq<T>, b: seq<T>, c: seq<T>, d: seq<T>, e: seq<T>)
    ensures (((a + b) + c) + d) + e == a + (b + ((c + d) + e))
  {
  }

  lemma {:induction false} FrameSize(chip: Chip, pkts: seq<Packet>)
    requires forall i :: 0 <= i < |pkts| ==> Sized(pkts[i])
    ensures |Frame(chip, pkts)| <= 1536 * |pkts|
    ensures pkts != [] ==> |Frame(chip, pkts)| > 0
  {
    if pkts != [] {
      FrameSize(chip, pkts[1..]);
    }
  }

  /** An aggregate of at most `n` packets, each in its slot. */
  ghost predicate Aggregate(pkts: seq<Packet>, n: int) {
    |pkts| <= n && forall i :: 0 <= i < |pkts| ==> Sized(pkts[i])
  }

  /** A packet whose record fills its slot. */
  function Largest(): (pkt: Packet)
    ensures Sized(pkt) && |Body(pkt)| == 1532 && Pad(1532) == 0
  {
    PadAligns(1532);
    Packet(0, Zeros(28), Zeros(1504))
  }

  lemma {:induction false} LargestFrame(chip: Chip, n: nat)
    ensures |Frame(chip, seq(n, _ => Largest()))| == 1536 * n
  {
    if n > 0 {
      LargestFrame(chip, n - 1);
      assert seq(n, _ => Largest())[1..] == seq(n - 1, _ => Largest());
    }
  }

  /** Credit capped at `counter` lets counter - 2 packets into an aggregate. The buffer of 98304 bytes holds every such
      aggregate, tail word included, if and only if the cap is at most 66. */
  lemma BufferSuffices(chip: Chip, counter: int)
    ensures (forall pkts :: Aggregate(pkts, counter - 2) ==> |Block(chip, pkts)| <= 98304) <==> counter <= 66
  {
    if counter <= 66 {
      forall pkts | Aggregate(pkts, counter - 2) ensures |Block(chip, pkts)| <= 98304 {
        AggregateFits(chip, pkts);
      }
    } else {
      var pkts := Overrun(chip);
      assert Aggregate(pkts, counter - 2);
    }
  }

  lemma AggregateFits(chip: Chip, pkts: seq<Packet>)
    requires Aggregate(pkts, 64)
    ensures |Block(chip, pkts)| <= 98304
  {
    FrameSize(chip, pkts);
    FrameAligned(chip, pkts);
  }

  lemma Overrun(chip: Chip) returns (pkts: seq<Packet>)
    ensures Aggregate(pkts, 65) && |Block(chip, pkts)| > 98304
  {
    pkts := seq(65, _ => Largest());
    LargestFrame(chip, 65);
    assert |Block(chip, pkts)| >= |Frame(chip, pkts)|;
  }

  /** A transmission of the pending packets delivers exactly those. */
  lemma OneMore(chip: Chip, sent: seq<seq<u8>>, pending: seq<Packet>, one: seq<u8>)
    requires forall i :: 0 <= i < |pending| ==> Sized(pending[i])
    requires IsTransmission(chip, pending, one)
    ensures Received(chip, sent + [one]) + Wires(chip, []) == Received(chip, sent) + Wires(chip, pending)
  {
    forall i | 0 <= i < |pending| ensures WellFormed(pending[i]) && Fits(chip, pending[i]) {
      assert Sized(pending[i]);
    }
    TransmissionInvertible(chip, pending, one);
    ReceivedSnoc(chip, sent, one);
  }

  lemma StillDelivered(chip: Chip, sent: seq<seq<u8>>, pending: seq<Packet>, taken: seq<Packet>, pkt: Packet)
    requires Received(chip, sent) + Wires(chip, pending) == Wires(chip, taken)
    ensures Received(chip, sent) + Wires(chip, pending + [pkt]) == Wires(chip, taken + [pkt])
  {
    WiresSnoc(chip, pending, pkt);
    WiresSnoc(chip, taken, pkt);
    Assoc(Received(chip, sent), Wires(chip, pending), [Wire(chip, pkt)]);
  }

  /** One read of the flow-control register. */
  datatype RegRead = Failed | Value(v: u8)

  /** What producers do, one locked section in two steps: put the packet into the queue, then count it. */
  datatype ProducerStep = Submit(pkt: Packet) | Count

  /** What the other threads and the firmware contribute to one pass of the transmit loop. `late` says that a
      packet whose producer is still inside its locked section is not yet visible to the emptiness test. */
  datatype Turn = Turn(beforeTest: seq<ProducerStep>, late: bool, cmdPending: bool, credit: nat -> RegRead,
                       beforeDequeue: seq<ProducerStep>, beforeCheck: seq<ProducerStep>,
                       beforeUncount: seq<ProducerStep>)

  predicate AllSized(steps: seq<ProducerStep>) {
    forall i :: 0 <= i < |steps| ==> steps[i].Submit? ==> Sized(steps[i].pkt)
  }

  predicate SizedTurn(t: Turn) {
    AllSized(t.beforeTest) && AllSized(t.beforeDequeue) && AllSized(t.beforeCheck) && AllSized(t.beforeUncount)
  }

  class TxPriv {
    const chip: Chip
    const aggrCounter: int          // the module parameter tx_aggr_counter
    const txq: FrameQueue<Packet>
    const buf: array<u8>            // the aggregate buffer
    var tail: nat
    var aggrCount: nat
    var fwAvail: int                // fw_avail_bufcnt
    var pktcnt: int                 // tx_pktcnt
    var locked: bool                // a producer is between its enqueue and its count

    ghost var granted: int          // the credit as last read
    ghost var mark: int             // packets handed to the firmware up to then
    ghost var handed: nat           // packets handed to the firmware since then
    ghost var pending: seq<Packet>  // packets in the aggregate buffer
    ghost var accepted: seq<Packet> // packets the queue took, in order
    ghost var taken: seq<Packet>    // packets taken off the queue, in order
    ghost var sent: seq<seq<u8>>    // transmissions, in order

    ghost predicate Separate() {
      buf.Length == 98304 && (txq.lists as object) != buf
    }

    /** The aggregate buffer holds exactly the records of the pending packets. */
    ghost predicate Framed()
      reads `tail, `aggrCount, `pending, buf
    {
      && Separate()
      && aggrCount == |pending|
      && tail == |Frame(chip, pending)| <= buf.Length
      && buf[..tail] == Frame(chip, pending)
      && (forall i :: 0 <= i < |pending| ==> Sized(pending[i]))
    }

    /** Credits: everything handed over since the last read, and everything aggregated, stays two below it. */
    ghost predicate Solvent()
      reads `granted, `mark, `handed, `fwAvail, `aggrCount, `taken, `pending
    {
      && (granted > 2 ==> granted <= aggrCounter)
      && fwAvail == granted - handed
      && handed == |taken| - |pending| - mark
      && handed <= (if granted > 2 then granted - 2 else 0)
      && (if fwAvail > 2 then aggrCount < fwAvail - 2 else aggrCount == 0)
    }

    /** The aggregate buffer has room for as many packets as the cap on credit lets into an aggregate. */
    predicate Roomy() {
      aggrCounter <= 66
    }

    /** Queued packets whose producer has counted them. */
    ghost function Committed(): int
      reads `locked, txq
    {
      txq.qcnt - if locked then 1 else 0
    }

    /** tx_pktcnt counts the committed packets and the one in the consumer's hand. */
    ghost predicate Counted(inHand: nat)
      reads `pktcnt, `locked, txq, txq.lists
    {
      && txq.Valid()
      && pktcnt == Committed() + inHand
      && Committed() >= 0
    }

    ghost predicate Conserved()
      reads `taken, `accepted, txq.lists
    {
      Conserves(txq.lists[..], taken, accepted)
    }

    /** The firmware has received exactly the taken packets that are no longer pending, in order. */
    ghost predicate Delivered()
      reads `sent, `pending, `taken
    {
      Received(chip, sent) + Wires(chip, pending) == Wires(chip, taken)
    }

    ghost predicate Valid()
      reads this, txq, txq.lists, buf
    {
      && Framed() && Solvent() && Counted(0) && Conserved() && Delivered()
      && DriverChip(chip)
      && (aggrCount > 0 ==> Committed() > 0)
    }

    constructor (chip: Chip, aggrCounter: int)
      requires DriverChip(chip)
      ensures Valid() && fresh(txq) && fresh(txq.lists) && fresh(buf)
      ensures this.chip == chip && this.aggrCounter == aggrCounter
      ensures accepted == [] && sent == [] && fwAvail == 0
    {
      this.chip, this.aggrCounter := chip, aggrCounter;
      txq := new FrameQueue<Packet>(8192);
      buf := new u8[98304](_ => 0);
      tail, aggrCount, fwAvail, pktcnt, locked := 0, 0, 0, 0, false;
      granted, mark, handed, pending, accepted, taken, sent := 0, 0, 0, [], [], [], [];
      new;
      TotalZero(txq.lists[..]);
      NothingYet(txq.lists[..]);
      assert txq.Valid() && Counted(0) && Conserved();
      assert Frame(chip, []) == [] && buf[..0] == [];
      assert Framed() && Solvent() && Delivered();
    }

    // -------------------------------------------------------------- producers

    /** Runs other threads for a while. Only the queue, its counter and the lock change, and what is committed
        stays committed. */
    method Producers(steps: seq<ProducerStep>, ghost inHand: nat)
      requires Separate() && Counted(inHand) && Conserved() && AllSized(steps)
      modifies txq, txq.lists, this`pktcnt, this`locked, this`accepted
      ensures Counted(inHand) && Conserved()
      ensures Committed() >= old(Committed()) && txq.qcnt >= old(txq.qcnt)
    {
      for i := 0 to |steps|
        invariant Counted(inHand) && Conserved()
        invariant Committed() >= old(Committed()) && txq.qcnt >= old(txq.qcnt)
      {
        match steps[i]
        case Submit(pkt) =>
          if !locked {
            Submit(pkt, inHand);
          }
        case Count =>
          if locked {
            pktcnt := pktcnt + 1;
            locked := false;
          }
      }
    }

    /** A producer takes the lock and offers its packet; a full queue sends it away at once. */
    method Submit(pkt: Packet, ghost inHand: nat)
      requires Separate() && Counted(inHand) && Conserved() && Sized(pkt) && !locked
      modifies txq, txq.lists, this`locked, this`accepted
      ensures Counted(inHand) && Conserved()
      ensures Committed() == old(Committed()) && txq.qcnt >= old(txq.qcnt)
      ensures locked == (old(txq.qcnt) < txq.qmax)
      ensures accepted == old(accepted) + if locked then [pkt] else []
    {
      var prio := pkt.priority % 8;
      SubmitConserves(txq.lists[..], taken, accepted, pkt);
      var ok := txq.Enqueue(pkt, prio);
      if ok {
        locked := true;
        accepted := accepted + [pkt];
      }
    }

    // -------------------------------------------------------------- the consumer's steps

    /** The consumer waits for the queue lock, so that a producer inside it finishes, and takes one packet. */
    method Take() returns (pkt: Packet)
      requires Separate() && Counted(0) && Conserved() && txq.qcnt > 0
      modifies txq, txq.lists, this`pktcnt, this`locked, this`taken
      ensures Counted(1) && Conserved() && !locked
      ensures Sized(pkt) && taken == old(taken) + [pkt]
      ensures forall c :: pkt.priority % 8 < c < 8 ==> old(txq.lists[c]) == []
    {
      if locked {
        pktcnt := pktcnt + 1;
        locked := false;
      }
      pkt := TakeHead();
    }

    method TakeHead() returns (pkt: Packet)
      requires Separate() && txq.Valid() && Conserved() && txq.qcnt > 0
      modifies txq, txq.lists, this`taken
      ensures txq.Valid() && txq.qcnt == old(txq.qcnt) - 1 && Conserved()
      ensures Sized(pkt) && taken == old(taken) + [pkt]
      ensures forall c :: pkt.priority % 8 < c < 8 ==> old(txq.lists[c]) == []
    {
      ghost var before := txq.lists[..];
      var head, from := txq.Dequeue();
      assert from < 8 && before[from] != [] && head == Some(before[from][0]);
      HeadKept(before[from], taken, accepted, from);
      pkt := head.value;
      ghost var after := before[from := before[from][1..]];
      assert txq.lists[..] == after;
      TakeConserves(before, taken, accepted, from);
      taken := taken + [pkt];
      assert Conserves(after, taken, accepted);
    }

    /** memcpy to the tail of the aggregate buffer. */
    method Put(s: seq<u8>)
      requires tail + |s| <= buf.Length
      modifies buf, this`tail
      ensures tail == old(tail) + |s|
      ensures buf[..tail] == old(buf[..tail]) + s
    {
      forall i | 0 <= i < |s| {
        buf[tail + i] := s[i];
      }
      tail := tail + |s|;
    }

    method HeaderByte3(h0: u8, h1: u8, h2: u8) returns (h3: u8)
      requires DriverChip(chip)
      ensures h3 == if chip.Padded? then 0 else chip.crc([h0, h1, h2])
    {
      if chip.Padded? {
        return 0;
      }
      h3 := Crc8.CrcByte([h0, h1, h2]);
    }

    /** Word alignment of the tail. */
    method Align()
      requires tail + Pad(tail) <= buf.Length
      modifies buf, this`tail
      ensures tail == old(tail) + Pad(old(tail))
      ensures buf[..tail] == old(buf[..tail]) + Zeros(Pad(old(tail)))
    {
      PadAligns(tail);
      var currLen := tail;
      if currLen % 4 != 0 {
        var alignLen := RoundUp(currLen, 4) - currLen;
        Put(Zeros(alignLen));
      } else {
        assert buf[..tail] == buf[..tail] + Zeros(0);
      }
    }

    /** Overwrites the two length bytes of the record that starts at `startPtr`. */
    method PatchLength(startPtr: nat)
      requires startPtr + 4 <= tail <= buf.Length
      modifies buf
      ensures var len := tail - startPtr - 4;
              buf[..tail] == old(buf[..startPtr]) + [len % 256, len / 256 % 16] + old(buf[startPtr + 2..tail])
    {
      buf[startPtr] := (tail - startPtr - 4) % 256;
      buf[startPtr + 1] := (tail - startPtr - 4) / 256 % 16;
    }

    method PutHeader(len: nat)
      requires tail + 4 <= buf.Length && DriverChip(chip)
      modifies buf, this`tail
      ensures tail == old(tail) + 4
      ensures buf[..tail] == old(buf[..tail]) + Header(chip, len)
    {
      var h0, h1 := len % 256, len / 256 % 16;
      var h3 := HeaderByte3(h0, h1, 1);
      Put([h0, h1, 1, h3]);
    }

    /** Header with the exact length, descriptor, payload, and padding up to the next word. */
    method PutUnpatched(pkt: Packet)
      requires tail % 4 == 0 && tail + 4 + |Body(pkt)| + Pad(|Body(pkt)|) <= buf.Length && DriverChip(chip)
      modifies buf, this`tail
      ensures tail == old(tail) + 4 + |Body(pkt)| + Pad(|Body(pkt)|)
      ensures buf[..tail] == old(buf[..tail]) + (Header(chip, |Body(pkt)|) + (Body(pkt) + Zeros(Pad(|Body(pkt)|))))
    {
      ghost var start, body := buf[..tail], Body(pkt);
      PadSum(tail, |body|);
      PutHeader(|pkt.payload| + |pkt.desc|);
      Put(pkt.desc);
      Put(pkt.payload);
      Align();
      Regroup(start, Header(chip, |body|), pkt.desc, pkt.payload, Zeros(Pad(|body|)));
    }

    /** The older chips get the padded length patched in once the padding is known. */
    method PutRecord(pkt: Packet)
      requires tail % 4 == 0 && tail + 4 + |Body(pkt)| + Pad(|Body(pkt)|) <= buf.Length && DriverChip(chip)
      modifies buf, this`tail
      ensures tail == old(tail) + |Record(chip, pkt)| <= buf.Length
      ensures buf[..tail] == old(buf[..tail]) + Record(chip, pkt)
    {
      var startPtr := tail;
      ghost var start, header := buf[..tail], Header(chip, |Body(pkt)|);
      PutUnpatched(pkt);
      RecordAssembled(chip, pkt, start, header);
      if chip.Padded? {
        ghost var padded := header + (Body(pkt) + Zeros(Pad(|Body(pkt)|)));
        assert buf[..startPtr] == start && buf[startPtr + 2..tail] == padded[2..] by {
          Pieces(start, padded, 2);
          assert buf[..startPtr] == buf[..tail][..startPtr] && buf[startPtr + 2..tail] == buf[..tail][startPtr + 2..];
        }
        PatchLength(startPtr);
      }
    }

    method Aggr(pkt: Packet)
      requires Framed() && Sized(pkt) && DriverChip(chip) && aggrCount < 64
      modifies buf, this`tail, this`aggrCount, this`pending
      ensures Framed() && pending == old(pending) + [pkt]
    {
      FrameSize(chip, pending);
      FrameAligned(chip, pending);
      PutRecord(pkt);
      FrameSnoc(chip, pending, pkt);
      aggrCount := aggrCount + 1;
      pending := pending + [pkt];
    }

    /** Closes the aggregate with a zero word unless it ends on a block boundary. */
    method Close()
      requires Framed()
      modifies buf, this`tail
      ensures tail <= buf.Length && buf[..tail] == Block(chip, pending)
    {
      FrameAligned(chip, pending);
      var currLen := tail;
      if currLen % 512 != 0 {
        Put(Zeros(4));
      }
    }

    /** What aicwf_sdio_txpkt puts on the bus: whole 512-byte blocks from the front of the buffer. */
    ghost method OnTheBus() returns (one: seq<u8>)
      requires Separate() && tail <= buf.Length && buf[..tail] == Block(chip, pending)
      ensures IsTransmission(chip, pending, one)
    {
      var len := RoundUp(tail, 512);
      one := buf[..len];
      assert buf[..tail] == one[..tail];
    }

    /** Transmits the aggregate in whole blocks, with whatever the buffer holds behind it, and starts over. */
    method AggrSend()
      requires Framed() && Delivered()
      modifies buf, this`tail, this`aggrCount, this`pending, this`sent
      ensures Framed() && Delivered() && pending == []
      ensures |sent| == |old(sent)| + 1 && old(sent) <= sent
      ensures IsTransmission(chip, old(pending), sent[|sent| - 1])
    {
      Close();
      ghost var one := OnTheBus();
      OneMore(chip, sent, pending, one);
      sent := sent + [one];
      tail := 0;
      aggrCount := 0;
      pending := [];
    }

    // -------------------------------------------------------------- credits and the transmit loop

    /** The older chips use seven bits of the register. */
    function Masked(v: u8): u8 {
      if chip.Padded? then v % 128 else v
    }

    /** The first `k` reads succeeded without showing credit, and read `k` shows some. */
    ghost predicate CreditAt(credit: nat -> RegRead, k: nat) {
      && (forall j: nat :: j < k ==> credit(j).Value? && Masked(credit(j).v) <= 2)
      && credit(k).Value? && Masked(credit(k).v) > 2
    }

    /** Read `k` is the first one that fails, and none before shows credit. */
    ghost predicate FailsAt(credit: nat -> RegRead, k: nat) {
      && (forall j: nat :: j < k ==> credit(j).Value? && Masked(credit(j).v) <= 2)
      && credit(k).Failed?
    }

    /** On the older chips the top bit of the register is no credit; on the others all eight bits are. */
    lemma MaskedBits(v: u8)
      ensures v < 128 ==> Masked(v) == v
      ensures v >= 128 ==> Masked(v) == if chip.Padded? then v - 128 else v
    {
    }

    /** Polls the register at most 51 times; credit is capped by tx_aggr_counter, no credit is never positive. */
    method FlowCtrl(credit: nat -> RegRead) returns (c: int)
      ensures forall k: nat :: k <= 50 && CreditAt(credit, k) ==>
                c == (if Masked(credit(k).v) > aggrCounter then aggrCounter else Masked(credit(k).v))
      ensures forall k: nat :: k <= 50 && FailsAt(credit, k) ==> c == -1
      ensures (forall k: nat :: k <= 50 ==> credit(k).Value? && Masked(credit(k).v) <= 2) ==>
                c == -(Masked(credit(50).v) as int)
      ensures (forall k: nat :: k <= 50 ==> !CreditAt(credit, k)) ==> c <= 0
    {
      var count: nat := 0;
      while true
        invariant count <= 50
        invariant forall j: nat :: j < count ==> credit(j).Value? && Masked(credit(j).v) <= 2
        decreases 50 - count
      {
        var read := credit(count);
        if read.Failed? {
          return -1;
        }
        var fcReg := Masked(read.v);
        if fcReg > 2 {
          assert CreditAt(credit, count);
          var ret := fcReg;
          if ret > aggrCounter {
            return aggrCounter;
          }
          return ret;
        } else {
          if count >= 50 {
            return -(fcReg as int);
          }
          count := count + 1;
        }
      }
    }

    /** Reading the credit anew is only done with nothing aggregated. */
    method ReadCredit(credit: nat -> RegRead)
      requires Solvent() && aggrCount == 0
      modifies this`fwAvail, this`granted, this`mark, this`handed
      ensures Solvent() && granted == fwAvail && handed == 0
    {
      fwAvail := FlowCtrl(credit);
      granted, mark, handed := fwAvail, |taken| - |pending|, 0;
    }

    /** Takes one packet while producers go on before and after. It is in the consumer's hand: still counted. */
    method TakeAmong(before: seq<ProducerStep>, after: seq<ProducerStep>) returns (pkt: Packet)
      requires Separate() && Counted(0) && Conserved() && txq.qcnt > 0 && AllSized(before) && AllSized(after)
      modifies txq, txq.lists, this`pktcnt, this`locked, this`accepted, this`taken
      ensures Counted(1) && Conserved()
      ensures Sized(pkt) && taken == old(taken) + [pkt]
    {
      Producers(before, 0);
      pkt := Take();
      Producers(after, 1);
    }

    /** Moves one packet from the queue into the aggregate. */
    method TakeAndAggregate(turn: Turn)
      requires Valid() && Roomy() && fwAvail > 2 && txq.qcnt > 0 && SizedTurn(turn)
      modifies this`tail, this`aggrCount, this`pktcnt, this`locked, this`pending, this`accepted, this`taken,
               buf, txq, txq.lists
      ensures Framed() && Counted(1) && Conserved() && Delivered()
      ensures aggrCount == old(aggrCount) + 1 && |taken| - |pending| == old(|taken| - |pending|)
      ensures exists pkt :: taken == old(taken) + [pkt] && pending == old(pending) + [pkt]
    {
      var pkt := TakeAmong(turn.beforeDequeue, turn.beforeCheck);
      Aggr(pkt);
      StillDelivered(chip, sent, old(pending), old(taken), pkt);
    }

    /** The aggregate goes out when its last packet is the last counted one, when a command waits, or when the
        credit is used up. */
    method FlushIfDue(txnow: bool)
      requires Framed() && Delivered() && 0 < aggrCount <= fwAvail - 2
      requires granted > 2 && granted <= aggrCounter && fwAvail == granted - handed
      requires handed == |taken| - |pending| - mark
      modifies this`tail, this`aggrCount, this`fwAvail, this`handed, this`pending, this`sent, buf
      ensures Framed() && Delivered() && Solvent() && old(sent) <= sent
      ensures if pktcnt == 1 || txnow || old(aggrCount) == old(fwAvail) - 2 then
                pending == [] && |sent| == |old(sent)| + 1 && fwAvail == old(fwAvail) - old(aggrCount)
              else
                pending == old(pending) && sent == old(sent) && fwAvail == old(fwAvail)
    {
      if pktcnt == 1 || txnow || aggrCount == fwAvail - 2 {
        fwAvail := fwAvail - aggrCount;
        handed := handed + aggrCount;
        AggrSend();
      }
    }

    /** One pass of the sender. The two early exits of the code, for an aggregate that does not match its count and
        for a full aggregate, and the one for an empty queue, are dead. */
    method Send(txnow: bool, turn: Turn)
      requires Valid() && Roomy() && fwAvail > 2 && txq.qcnt > 0 && SizedTurn(turn)
      modifies this`tail, this`aggrCount, this`fwAvail, this`pktcnt, this`locked, this`handed, this`pending,
               this`accepted, this`taken, this`sent, buf, txq, txq.lists
      ensures Valid() && old(sent) <= sent
      ensures txnow ==> aggrCount == 0
      ensures |taken| == |old(taken)| + 1
    {
      TakeAndAggregate(turn);
      FlushAndUncount(txnow, turn);
    }

    method FlushAndUncount(txnow: bool, turn: Turn)
      requires Framed() && Delivered() && 0 < aggrCount <= fwAvail - 2 && DriverChip(chip)
      requires granted > 2 && granted <= aggrCounter && fwAvail == granted - handed
      requires handed == |taken| - |pending| - mark
      requires Counted(1) && Conserved() && SizedTurn(turn)
      modifies this`tail, this`aggrCount, this`fwAvail, this`pktcnt, this`locked, this`handed, this`pending,
               this`accepted, this`sent, buf, txq, txq.lists
      ensures Valid() && old(sent) <= sent
      ensures txnow ==> aggrCount == 0
    {
      FlushIfDue(txnow);
      Uncount(turn.beforeUncount);
    }

    method Uncount(steps: seq<ProducerStep>)
      requires Separate() && Counted(1) && Conserved() && AllSized(steps)
      modifies txq, txq.lists, this`pktcnt, this`locked, this`accepted
      ensures Counted(0) && Conserved()
      ensures Committed() >= old(Committed())
    {
      Producers(steps, 1);
      pktcnt := pktcnt - 1;
    }

    /** The conditions of the sender's first two early exits never hold. */
    lemma DeadExits()
      requires Valid() && fwAvail > 2
      ensures (aggrCount == 0 <==> tail == 0) && aggrCount != fwAvail - 2
    {
      FrameSize(chip, pending);
    }

    /** Other threads run while the consumer holds no packet. */
    method Interlude(steps: seq<ProducerStep>)
      requires Valid() && AllSized(steps)
      modifies this`pktcnt, this`locked, this`accepted, txq, txq.lists
      ensures Valid()
    {
      Producers(steps, 0);
    }

    /** The unlocked emptiness test: a packet still inside its producer's locked section may be missed. */
    method LooksEmpty(turn: Turn) returns (empty: bool)
      requires Valid() && AllSized(turn.beforeTest)
      modifies this`pktcnt, this`locked, this`accepted, txq, txq.lists
      ensures Valid()
      ensures empty ==> aggrCount == 0
      ensures empty <==> txq.qcnt == 0 || (turn.late && locked && txq.qcnt == 1)
    {
      Interlude(turn.beforeTest);
      empty := txq.IsEmpty();
      if turn.late && locked && txq.qcnt == 1 {
        empty := true;
      }
    }

    method Refill(credit: nat -> RegRead)
      requires Valid() && aggrCount == 0
      modifies this`fwAvail, this`granted, this`mark, this`handed
      ensures Valid()
    {
      ReadCredit(credit);
    }

    /** One pass of the transmit loop; `left` says that it breaks out. Otherwise it takes a packet, or reads the
        credit anew when that is used up. */
    method Pass(turn: Turn) returns (left: bool)
      requires Valid() && Roomy() && SizedTurn(turn)
      modifies this`tail, this`aggrCount, this`fwAvail, this`pktcnt, this`locked, this`granted, this`mark, this`handed,
               this`pending, this`accepted, this`taken, this`sent, buf, txq, txq.lists
      ensures Valid() && old(sent) <= sent
      ensures left ==> aggrCount == 0
      ensures turn.cmdPending ==> left
      ensures !left ==> |taken| == |old(taken)| + if old(fwAvail) > 2 then 1 else 0
    {
      var empty := LooksEmpty(turn);
      if empty {
        return true;
      }
      left := Serve(turn);
    }

    /** The pass once there is something queued. */
    method Serve(turn: Turn) returns (left: bool)
      requires Valid() && Roomy() && SizedTurn(turn) && txq.qcnt > 0
      modifies this`tail, this`aggrCount, this`fwAvail, this`pktcnt, this`locked, this`granted, this`mark, this`handed,
               this`pending, this`accepted, this`taken, this`sent, buf, txq, txq.lists
      ensures Valid() && old(sent) <= sent
      ensures left ==> aggrCount == 0
      ensures left == turn.cmdPending
      ensures |taken| == |old(taken)| + if old(fwAvail) > 2 then 1 else 0
    {
      if fwAvail <= 2 {
        if turn.cmdPending {
          return true;
        }
        Refill(turn.credit);
      } else if turn.cmdPending {
        Send(true, turn);
        return true;
      } else {
        Send(false, turn);
      }
      return false;
    }

    /** The transmit loop for as long as the environment is scripted by `turns`; the bus stays up. `exited` says
        that the loop was left, by an empty queue or by a waiting command: then nothing is stranded. */
    method TxProcess(first: Turn, turns: seq<Turn>) returns (exited: bool)
      requires Valid() && Roomy() && pending == []
      requires SizedTurn(first) && forall i :: 0 <= i < |turns| ==> SizedTurn(turns[i])
      modifies this`tail, this`aggrCount, this`fwAvail, this`pktcnt, this`locked, this`granted, this`mark, this`handed,
               this`pending, this`accepted, this`taken, this`sent, buf, txq, txq.lists
      ensures Valid() && old(sent) <= sent
      ensures exited ==> pending == [] && Received(chip, sent) == Wires(chip, taken)
    {
      var empty := LooksEmpty(first);
      if !empty {
        Refill(first.credit);
      }
      for i := 0 to |turns|
        invariant Valid() && old(sent) <= sent
      {
        exited := Pass(turns[i]);
        if exited {
          assert Received(chip, sent) + Wires(chip, []) == Received(chip, sent);
          return;
        }
      }
      return false;
    }
  }
}
