/** Taking received blocks apart: data and configuration records, word-aligned, closed by a zero length. */
module RxDeaggregation {
  import opened Bytes

  // RX_HWHRD_LEN is 60, RX_ALIGNMENT is 4, SDIO_TYPE_CFG is 0x10; the masks pick bit 4 and the low seven bits.

  /** What lies in memory behind a block: enough bytes for the longest record, whose length is not checked. */
  type Memory = m: seq<u8> | |m| >= 0x1_0004 witness Zeros(0x1_0004)

  /** What the receive loop hands on: data frames, and configuration messages with their type. */
  datatype Item = Data(frame: seq<u8>) | Config(kind: u8, body: seq<u8>)

  /** A record as the firmware puts it into a block: its bytes, starting with the length field, and its padding. */
  datatype Rec = Rec(bytes: seq<u8>, pad: seq<u8>)

  function PktLen(b: seq<u8>): nat
    requires |b| >= 2
  {
    b[0] as int + 256 * b[1] as int
  }

  predicate IsConfig(b: seq<u8>)
    requires |b| >= 3
  {
    b[2] / 16 % 2 == 1
  }

  /** A data record's length in the code's 16-bit variable. */
  function DataLen(pktLen: u16): u16 {
    if pktLen < 65476 then pktLen + 60 else pktLen - 65476
  }

  lemma DataLenWraps(pktLen: u16)
    ensures DataLen(pktLen) == (pktLen + 60) % 0x1_0000
  {
  }

  /** A 16-bit length rounded up to words, in the code's 16-bit variable. */
  function Adjust(aggrLen: u16): u16 {
    var words := (aggrLen + 3) / 4;
    if words == 0x4000 then 0 else 4 * words
  }

  lemma AdjustWraps(aggrLen: u16)
    ensures Adjust(aggrLen) == RoundUp(aggrLen, 4) % 0x1_0000
    ensures aggrLen <= RoundUp(aggrLen, 4) < aggrLen + 4
    ensures aggrLen % 4 == 0 ==> Adjust(aggrLen) == aggrLen
  {
    var words := (aggrLen + 3) / 4;
    assert RoundUp(aggrLen, 4) == 4 * words;
  }

  /** Bytes the loop hands on for the record at the front of `b`, and bytes it advances by. */
  function Taken(b: seq<u8>): nat
    requires |b| >= 3
  {
    if IsConfig(b) then PktLen(b) + 4 else DataLen(PktLen(b))
  }

  function Advance(b: seq<u8>): nat
    requires |b| >= 3
  {
    if IsConfig(b) then Adjust(PktLen(b)) + 4 else Adjust(DataLen(PktLen(b)))
  }

  function ItemOf(b: seq<u8>): Item
    requires |b| >= 3 && Taken(b) <= |b| && (IsConfig(b) ==> Taken(b) >= 4)
  {
    if IsConfig(b) then Config(b[2] % 128, b[4..Taken(b)]) else Data(b[..Taken(b)])
  }

  /** Data frames always go up; of the configuration messages only responses, confirmations and prints do. */
  function Handled(i: Item): seq<Item> {
    if i.Data? || i.kind == 0x11 || i.kind == 0x12 || i.kind == 0x13 then [i] else []
  }

  /** aicwf_another_ptk: something is left and its length is not zero. */
  predicate Another(b: seq<u8>, behind: Memory) {
    |b| > 0 && PktLen(b + behind) != 0
  }

  /** The loop advances by `n` bytes: skb_pull refuses to go beyond the block and leaves it as it is; the read pointer
      of the preallocated buffers just passes its end. */
  function Advanced(b: seq<u8>, n: nat, prealloc: bool): seq<u8> {
    if n <= |b| then b[n..] else if prealloc then [] else b
  }

  /** The loop comes to an end, having handed on some items, or hands on some and then the same ones for ever. */
  datatype Walk = Ends(items: seq<Item>) | Sticks(items: seq<Item>, again: seq<Item>)

  function After(items: seq<Item>, w: Walk): Walk {
    w.(items := items + w.items)
  }

  function Walked(b: seq<u8>, behind: Memory, prealloc: bool): Walk
    decreases |b|
  {
    if !Another(b, behind) then Ends([])
    else
      var m := b + behind;
      var next := Advanced(b, Advance(m), prealloc);
      if |next| < |b| then After(Handled(ItemOf(m)), Walked(next, behind, prealloc))
      else Sticks([], Handled(ItemOf(m)))
  }

  lemma AfterTwo(a: seq<Item>, b: seq<Item>, w: Walk)
    ensures After(a, After(b, w)) == After(a + b, w) && After([], w) == w
  {
    Assoc(a, b, w.items);
    assert [] + w.items == w.items;
  }

  method Padded(aggrLen: u16) returns (adjustLen: u16)
    ensures adjustLen == Adjust(aggrLen)
  {
    AdjustWraps(aggrLen);
    adjustLen := aggrLen;
    if aggrLen % 4 != 0 {
      adjustLen := RoundUp(aggrLen, 4) % 0x1_0000;
    }
  }

  /** One turn of the loop over the block `b`: what it hands on, and what is left of the block. */
  method TakeOne(b: seq<u8>, behind: Memory, prealloc: bool) returns (items: seq<Item>, next: seq<u8>)
    requires Another(b, behind)
    ensures var m := b + behind; items == Handled(ItemOf(m)) && next == Advanced(b, Advance(m), prealloc)
  {
    var skb := b + behind;
    var pktLen: u16 := PktLen(skb);
    items := [];
    if skb[2] / 16 % 2 != 1 {
      DataLenWraps(pktLen);
      var aggrLen: u16 := (pktLen + 60) % 0x1_0000;
      var adjustLen: nat := Padded(aggrLen);
      items := [Data(skb[..aggrLen])];
      next := Advanced(b, adjustLen, prealloc);
    } else {
      var aggrLen := pktLen;
      var adjustLen: nat := Padded(aggrLen);
      var msg := skb[..aggrLen + 4];
      var kind := msg[2] % 128;
      if kind == 0x11 {
        items := items + [Config(kind, msg[4..])];
      }
      if kind == 0x12 {
        items := items + [Config(kind, msg[4..])];
      }
      if kind == 0x13 {
        items := items + [Config(kind, msg[4..])];
      }
      next := Advanced(b, adjustLen + 4, prealloc);
    }
  }

  /** The loop over one block; a turn that leaves the block as it is repeats for ever. */
  method ProcessBlock(block: seq<u8>, behind: Memory, prealloc: bool) returns (w: Walk)
    ensures w == Walked(block, behind, prealloc)
  {
    var items: seq<Item> := [];
    var b := block;
    AfterTwo([], [], Walked(block, behind, prealloc));
    while |b| != 0 && PktLen(b + behind) != 0
      invariant Walked(block, behind, prealloc) == After(items, Walked(b, behind, prealloc))
      decreases |b|
    {
      var got, next := TakeOne(b, behind, prealloc);
      if |next| == |b| {
        assert items + [] == items;
        return Sticks(items, got);
      }
      AfterTwo(items, got, Walked(next, behind, prealloc));
      items := items + got;
      b := next;
    }
    assert items + [] == items;
    return Ends(items);
  }

  // ---------------------------------------------------------------- when the loop advances

  /** A turn leaves the block as it is exactly if the record reaches beyond an skb, or is a data record whose padded
      length is 65536. */
  lemma StuckIff(b: seq<u8>, behind: Memory, prealloc: bool)
    requires Another(b, behind)
    ensures var m := b + behind;
            |Advanced(b, Advance(m), prealloc)| == |b| <==>
            (!prealloc && Advance(m) > |b|) || (!IsConfig(m) && 65473 <= PktLen(m) <= 65476)
  {
    var m := b + behind;
    ZeroAdvance(PktLen(m));
    var n := Advance(m);
    if n <= |b| {
      assert |b[n..]| == |b| - n;
    }
  }

  lemma ZeroAdvance(n: u16)
    ensures Adjust(DataLen(n)) == 0 <==> 65473 <= n <= 65476
  {
  }

  /** A record's share of the block, as the loop steps over it. */
  predicate Share(p: seq<u8>) {
    |p| >= 4 && PktLen(p) != 0 && Advance(p) == |p|
  }

  /** The block is a row of shares, and what follows them says that there are no more. */
  ghost predicate Chained(b: seq<u8>, parts: seq<seq<u8>>, rest: seq<u8>, behind: Memory) {
    (forall p :: p in parts ==> Share(p)) && b == Flatten(parts) + rest && !Another(rest, behind)
  }

  lemma SameHeader(a: seq<u8>, b: seq<u8>)
    requires |a| >= 3 && |b| >= 3 && a[..3] == b[..3]
    ensures PktLen(a) == PktLen(b) && IsConfig(a) == IsConfig(b) && Taken(a) == Taken(b) && Advance(a) == Advance(b)
  {
    assert a[0] == a[..3][0] && a[1] == a[..3][1] && a[2] == a[..3][2];
    assert b[0] == b[..3][0] && b[1] == b[..3][1] && b[2] == b[..3][2];
  }

  lemma FirstShare(b: seq<u8>, n: nat, behind: Memory)
    requires Another(b, behind) && n == Advance(b + behind) && 0 < n <= |b|
    ensures Share(b[..n]) && b == b[..n] + b[n..]
  {
    var m := b + behind;
    assert b[..n][..3] == m[..3];
    SameHeader(b[..n], m);
  }

  lemma {:induction false} EndsChained(b: seq<u8>, behind: Memory) returns (parts: seq<seq<u8>>, rest: seq<u8>)
    requires Walked(b, behind, false).Ends?
    ensures Chained(b, parts, rest, behind)
    decreases |b|
  {
    parts, rest := [], b;
    assert Flatten(parts) + rest == b;
    if Another(b, behind) {
      var m := b + behind;
      var n := Advance(m);
      parts, rest := EndsChained(b[n..], behind);
      FirstShare(b, n, behind);
      FlattenCons(b[..n], parts);
      Assoc(b[..n], Flatten(parts), rest);
      parts := [b[..n]] + parts;
    }
  }

  lemma {:induction false} ChainedEnds(b: seq<u8>, parts: seq<seq<u8>>, rest: seq<u8>, behind: Memory)
    requires Chained(b, parts, rest, behind)
    ensures Walked(b, behind, false).Ends?
    decreases |parts|
  {
    if parts == [] {
      assert Flatten(parts) + rest == rest;
    } else {
      var p := parts[0];
      assert p in parts;
      var more := Flatten(parts[1..]) + rest;
      Assoc(p, Flatten(parts[1..]), rest);
      OneShare(p, more, behind);
      ChainedEnds(more, parts[1..], rest, behind);
    }
  }

  lemma OneShare(p: seq<u8>, more: seq<u8>, behind: Memory)
    requires Share(p)
    ensures var b := p + more; Another(b, behind) && Advanced(b, Advance(b + behind), false) == more
  {
    var b := p + more;
    var m := b + behind;
    assert m[..3] == p[..3];
    SameHeader(m, p);
    assert b[|p|..] == more;
  }

  /** Over an skb the loop comes to an end exactly on the blocks that are a row of shares and an end mark; on every
      other block it hands on the same item for ever. */
  lemma EndsIff(b: seq<u8>, behind: Memory)
    ensures Walked(b, behind, false).Ends? <==> exists parts, rest :: Chained(b, parts, rest, behind)
  {
    if Walked(b, behind, false).Ends? {
      var parts, rest := EndsChained(b, behind);
      assert Chained(b, parts, rest, behind);
    } else if exists parts, rest :: Chained(b, parts, rest, behind) {
      var parts, rest :| Chained(b, parts, rest, behind);
      ChainedEnds(b, parts, rest, behind);
    }
  }

  // ---------------------------------------------------------------- the format and its inverse

  /** The length field agrees with the record, and the padding fills it up to a word. */
  predicate WellFormed(r: Rec) {
    && |r.bytes| >= 4 && PktLen(r.bytes) != 0
    && |r.bytes| == (if IsConfig(r.bytes) then PktLen(r.bytes) + 4 else PktLen(r.bytes) + 60)
    && |r.pad| < 4 && |r.bytes| + |r.pad| == RoundUp(|r.bytes|, 4)
  }

  /** The padded length, without the four header bytes of a configuration record, fits a 16-bit variable. */
  predicate Narrow(r: Rec)
    requires WellFormed(r)
  {
    |r.bytes| + |r.pad| < if IsConfig(r.bytes) then 0x1_0004 else 0x1_0000
  }

  function RecItem(r: Rec): Item
    requires WellFormed(r)
  {
    if IsConfig(r.bytes) then Config(r.bytes[2] % 128, r.bytes[4..]) else Data(r.bytes)
  }

  function Encode(recs: seq<Rec>): seq<u8> {
    if recs == [] then [] else recs[0].bytes + recs[0].pad + Encode(recs[1..])
  }

  function Items(recs: seq<Rec>): seq<Item>
    requires forall r :: r in recs ==> WellFormed(r)
  {
    if recs == [] then [] else Handled(RecItem(recs[0])) + Items(recs[1..])
  }

  /** What may follow the records: nothing, or a zero length and anything. */
  predicate Trailer(rest: seq<u8>) {
    rest == [] || (|rest| >= 2 && rest[0] == 0 && rest[1] == 0)
  }

  lemma AdjustExact(n: nat)
    requires n < 0x1_0000 + 60
    ensures n < 0x1_0000 ==> (Adjust(n) == RoundUp(n, 4) <==> RoundUp(n, 4) < 0x1_0000)
    ensures n >= 0x1_0000 ==> Adjust(n - 0x1_0000) < RoundUp(n, 4) && RoundUp(n, 4) >= 0x1_0000
    ensures RoundUp(n + 4, 4) == RoundUp(n, 4) + 4
  {
    assert (n + 7) / 4 == (n + 3) / 4 + 1;
    var words := (n + 3) / 4;
    assert RoundUp(n, 4) == 4 * words;
    if n >= 0x1_0000 {
      assert Adjust(n - 0x1_0000) <= 64;
    }
  }

  /** The loop steps over a record exactly if its padded length fits. */
  lemma SteppedOver(r: Rec, rest: seq<u8>)
    requires WellFormed(r)
    ensures var b := r.bytes + r.pad + rest;
            (Taken(b) == |r.bytes| && Advance(b) == |r.bytes| + |r.pad|) <==> Narrow(r)
  {
    var b := r.bytes + r.pad + rest;
    assert b[0] == r.bytes[0] && b[1] == r.bytes[1] && b[2] == r.bytes[2];
    AdjustExact(if IsConfig(r.bytes) then PktLen(r.bytes) else PktLen(r.bytes) + 60);
  }

  lemma FrontRecord(r: Rec, rest: seq<u8>, behind: Memory)
    requires WellFormed(r) && Narrow(r)
    ensures var b := r.bytes + r.pad + rest;
            var m := b + behind;
            && Another(b, behind) && 0 < Advance(m) <= |b|
            && ItemOf(m) == RecItem(r) && b[Advance(m)..] == rest
  {
    var b := r.bytes + r.pad + rest;
    var m := b + behind;
    SteppedOver(r, rest + behind);
    assert m == r.bytes + r.pad + (rest + behind);
    assert m[0] == r.bytes[0] && m[1] == r.bytes[1] && m[2] == r.bytes[2];
    assert m[..|r.bytes|] == r.bytes && m[4..|r.bytes|] == r.bytes[4..];
    assert b[|r.bytes| + |r.pad|..] == rest;
  }

  /** Whatever follows, the loop hands on a list of records in order and goes on behind it. */
  lemma {:induction false} WalkRecords(recs: seq<Rec>, tail: seq<u8>, behind: Memory, prealloc: bool)
    requires forall r :: r in recs ==> WellFormed(r) && Narrow(r)
    ensures Walked(Encode(recs) + tail, behind, prealloc) == After(Items(recs), Walked(tail, behind, prealloc))
  {
    if recs == [] {
      assert Encode(recs) + tail == tail;
      AfterTwo([], [], Walked(tail, behind, prealloc));
    } else {
      var more := Encode(recs[1..]) + tail;
      assert Encode(recs) + tail == recs[0].bytes + recs[0].pad + more;
      WalkRecords(recs[1..], tail, behind, prealloc);
      FrontRecord(recs[0], more, behind);
      AfterTwo(Handled(RecItem(recs[0])), Items(recs[1..]), Walked(tail, behind, prealloc));
    }
  }

  /** De-aggregation inverts the format: every encoded list of records yields exactly that list, in order, whatever
      lies behind the block. */
  lemma DeaggregationInverts(recs: seq<Rec>, rest: seq<u8>, behind: Memory, prealloc: bool)
    requires forall r :: r in recs ==> WellFormed(r) && Narrow(r)
    requires Trailer(rest)
    ensures Walked(Encode(recs) + rest, behind, prealloc) == Ends(Items(recs))
  {
    WalkRecords(recs, rest, behind, prealloc);
    assert !Another(rest, behind);
    assert Items(recs) + [] == Items(recs);
  }

  /** A block cut off inside its last record: over an skb the loop hands on the records before it and then the same
      item, filled up from behind the block, for ever; over a preallocated buffer it hands that item on once. */
  lemma TruncatedSticks(recs: seq<Rec>, r: Rec, n: nat, behind: Memory, prealloc: bool)
    requires forall q :: q in recs ==> WellFormed(q) && Narrow(q)
    requires WellFormed(r) && Narrow(r) && 3 <= n < |r.bytes| + |r.pad|
    ensures var cut := (r.bytes + r.pad)[..n];
            var last := Handled(ItemOf(cut + behind));
            Walked(Encode(recs) + cut, behind, prealloc) ==
            if prealloc then Ends(Items(recs) + last) else Sticks(Items(recs), last)
  {
    var cut := (r.bytes + r.pad)[..n];
    var m := cut + behind;
    WalkRecords(recs, cut, behind, prealloc);
    CutHeader(r, n, behind);
    assert Another(cut, behind) && Advance(m) > n;
    assert Items(recs) + [] == Items(recs);
    var last := Handled(ItemOf(m));
    assert last + [] == last;
  }

  lemma CutHeader(r: Rec, n: nat, behind: Memory)
    requires WellFormed(r) && Narrow(r) && 3 <= n < |r.bytes| + |r.pad|
    ensures var m := (r.bytes + r.pad)[..n] + behind;
            PktLen(m) != 0 && Advance(m) == |r.bytes| + |r.pad|
  {
    var whole := r.bytes + r.pad;
    var m := whole[..n] + behind;
    SteppedOver(r, []);
    assert whole + [] == whole;
    assert m[..3] == whole[..3] == r.bytes[..3];
    SameHeader(m, whole);
    SameHeader(m, r.bytes);
  }

  /** Which records come out: data frames whole, and of the configuration messages, with the seven bits of their type
      and without their header, exactly the command responses, data confirmations and prints. */
  lemma {:induction false} ItemsAre(recs: seq<Rec>, i: Item)
    requires forall r :: r in recs ==> WellFormed(r)
    ensures i in Items(recs) <==>
            match i
            case Data(frame) => exists r :: r in recs && WellFormed(r) && !IsConfig(r.bytes) && r.bytes == frame
            case Config(kind, body) =>
              && (kind == 0x11 || kind == 0x12 || kind == 0x13)
              && exists r :: r in recs && WellFormed(r) && IsConfig(r.bytes) &&
                   r.bytes[2] % 128 == kind && r.bytes[4..] == body
  {
    if recs != [] {
      ItemsAre(recs[1..], i);
      assert forall r :: r in recs <==> r == recs[0] || r in recs[1..];
    }
  }

  /** How often: a list of records is handed on record by record, in order, each at most once. */
  lemma {:induction false} ItemsAppend(a: seq<Rec>, r: Rec)
    requires WellFormed(r) && forall q :: q in a ==> WellFormed(q)
    ensures forall q :: q in a + [r] ==> WellFormed(q)
    ensures Items(a + [r]) == Items(a) +
            if !IsConfig(r.bytes) then [Data(r.bytes)]
            else if r.bytes[2] % 128 == 0x11 || r.bytes[2] % 128 == 0x12 || r.bytes[2] % 128 == 0x13 then
              [Config(r.bytes[2] % 128, r.bytes[4..])]
            else []
  {
    if a == [] {
      assert [] + [r] == [r] && [r][1..] == [];
      assert Handled(RecItem(r)) + [] == Handled(RecItem(r));
    } else {
      assert (a + [r])[1..] == a[1..] + [r];
      ItemsAppend(a[1..], r);
      Assoc(Handled(RecItem(a[0])), Items(a[1..]), Handled(RecItem(r)));
    }
  }

  lemma {:induction false} EncodeNarrow(recs: seq<Rec>, r: Rec)
    requires forall r :: r in recs ==> WellFormed(r)
    requires r in recs && WellFormed(r) && |Encode(recs)| <= 127 * 512
    ensures Narrow(r)
  {
    if r != recs[0] {
      EncodeNarrow(recs[1..], r);
    }
  }

  /** Every block the hardware can transfer, 127 * 512 bytes at most, is inverted without further conditions. */
  lemma TransferInverts(recs: seq<Rec>, rest: seq<u8>, behind: Memory, prealloc: bool)
    requires forall r :: r in recs ==> WellFormed(r)
    requires Trailer(rest) && |Encode(recs) + rest| <= 127 * 512
    ensures Walked(Encode(recs) + rest, behind, prealloc) == Ends(Items(recs))
  {
    forall r | r in recs ensures Narrow(r) {
      EncodeNarrow(recs, r);
    }
    DeaggregationInverts(recs, rest, behind, prealloc);
  }

  /** A data record whose padded length needs more than 16 bits holds the loop up for ever, or is cut down to less than
      its header. */
  lemma WideDataFails(r: Rec, rest: seq<u8>, behind: Memory, prealloc: bool)
    requires WellFormed(r) && !IsConfig(r.bytes) && !Narrow(r)
    ensures var b := r.bytes + r.pad + rest;
            Walked(b, behind, prealloc).Sticks? || Taken(b + behind) < 60
  {
    var b := r.bytes + r.pad + rest;
    var m := b + behind;
    assert m[..3] == r.bytes[..3];
    SameHeader(m, r.bytes);
    WideLength(PktLen(m));
    StuckIff(b, behind, prealloc);
  }

  lemma WideLength(n: u16)
    requires RoundUp(n + 60, 4) >= 0x1_0000
    ensures n >= 65473 && (n > 65476 ==> DataLen(n) < 60)
  {
  }

  // ---------------------------------------------------------------- records as the firmware builds them

  /** SDIO_TYPE_DATA is 0: the length of the frame, low-order byte first, the type, and the rest of the 60-byte receive
      header with the frame behind it. */
  function DataBytes(n: u16, rest: seq<u8>): seq<u8>
    requires |rest| == n + 57
  {
    [n % 256, n / 256, 0] + rest
  }

  /** A configuration message: its length, its type, a reserved byte, and the message. */
  function ConfigBytes(kind: u8, reserved: u8, body: seq<u8>): seq<u8>
    requires |body| < 0x1_0000
  {
    [|body| % 256, |body| / 256, kind, reserved] + body
  }

  function Packed(bytes: seq<u8>): Rec {
    Rec(bytes, Zeros(RoundUp(|bytes|, 4) - |bytes|))
  }

  lemma RoundUpNear(n: nat)
    ensures n <= RoundUp(n, 4) < n + 4
  {
  }

  /** A data record is well formed, and is handed on whole. */
  lemma DataRecord(n: u16, rest: seq<u8>)
    requires |rest| == n + 57 && n != 0
    ensures var b := DataBytes(n, rest);
            WellFormed(Packed(b)) && Items([Packed(b)]) == [Data(b)] && (Narrow(Packed(b)) <==> n < 65473)
  {
    var b := DataBytes(n, rest);
    RoundUpNear(|b|);
    assert PktLen(b) == n;
    ItemsAppend([], Packed(b));
    assert [] + [Packed(b)] == [Packed(b)];
    WideIff(n);
  }

  lemma WideIff(n: u16)
    ensures RoundUp(n + 60, 4) < 0x1_0000 <==> n < 65473
  {
  }

  /** So is a configuration record; of the types 0x10 to 0x1F, only 0x11, 0x12 and 0x13 are handed on. */
  lemma ConfigRecord(kind: u8, reserved: u8, body: seq<u8>)
    requires 0x10 <= kind < 0x20 && 0 < |body| < 0x1_0000
    ensures var b := ConfigBytes(kind, reserved, body);
            && WellFormed(Packed(b))
            && Items([Packed(b)]) == if 0x11 <= kind <= 0x13 then [Config(kind, body)] else []
  {
    var b := ConfigBytes(kind, reserved, body);
    RoundUpNear(|b|);
    assert PktLen(b) == |body| && b[2] == kind && b[4..] == body;
    assert kind / 16 == 1;
    ItemsAppend([], Packed(b));
    assert [] + [Packed(b)] == [Packed(b)];
  }
}
