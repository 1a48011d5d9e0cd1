/** Reassembly of HCI packets from arbitrary fragments of a byte stream. */
module HciReassembly {
  import opened Bytes

  // HCI_ACLDATA_PKT is 2, HCI_SCODATA_PKT is 3, HCI_EVENT_PKT is 4; NUM_REASSEMBLY is 4.
  const EILSEQ: int := 84
  const ENOMEM: int := 12

  predicate IsType(kind: int) {
    2 <= kind <= 4
  }

  /** HCI_ACL_HDR_SIZE, HCI_SCO_HDR_SIZE, HCI_EVENT_HDR_SIZE. */
  function Hdr(kind: int): (h: nat)
    ensures 2 <= h <= 4
  {
    if kind == 2 then 4 else if kind == 3 then 3 else 2
  }

  /** HCI_MAX_FRAME_SIZE, HCI_MAX_SCO_SIZE, HCI_MAX_EVENT_SIZE: the room for a whole frame. */
  function Room(kind: int): nat {
    if kind == 2 then 1028 else if kind == 3 then 255 else 260
  }

  /** The payload length announced in a complete header. */
  function PayloadLen(kind: int, s: seq<u8>): nat
    requires |s| >= Hdr(kind)
  {
    if kind == 2 then s[2] as int + 256 * s[3] as int else if kind == 3 then s[2] else s[1]
  }

  function FrameLen(kind: int, s: seq<u8>): nat
    requires |s| >= Hdr(kind)
  {
    Hdr(kind) + PayloadLen(kind, s)
  }

  // ---------------------------------------------------------------- the stream a fragment-free receiver would see

  /** What the front of a stream holds. */
  datatype First = Partial | Overflow | Whole(len: nat)

  function Front(kind: int, s: seq<u8>): (f: First)
    ensures f.Whole? ==> Hdr(kind) <= f.len <= |s|
  {
    if |s| < Hdr(kind) then Partial
    else if FrameLen(kind, s) > Room(kind) then Overflow
    else if |s| < FrameLen(kind, s) then Partial
    else Whole(FrameLen(kind, s))
  }

  /** Frames, leftover, and whether a header announced more than there is room for; if so, everything behind that
      header, `dropped` bytes of it, is thrown away. */
  datatype Parsed = Parsed(frames: seq<seq<u8>>, rest: seq<u8>, overflow: bool, dropped: nat)

  function Prepend(frame: seq<u8>, p: Parsed): Parsed {
    p.(frames := [frame] + p.frames)
  }

  function Parse(kind: int, s: seq<u8>): Parsed
    decreases |s|
  {
    match Front(kind, s)
    case Partial => Parsed([], s, false, 0)
    case Overflow => Parsed([], [], true, |s| - Hdr(kind))
    case Whole(n) => Prepend(s[..n], Parse(kind, s[n..]))
  }

  /** A buffer that waits for more bytes. */
  predicate Incomplete(kind: int, b: seq<u8>) {
    Front(kind, b) == Partial
  }

  /** The bytes missing in the current phase: of the header, or of the body once the header is there. */
  function Missing(kind: int, b: seq<u8>): (m: nat)
    requires Incomplete(kind, b)
    ensures m > 0
  {
    if |b| < Hdr(kind) then Hdr(kind) - |b| else FrameLen(kind, b) - |b|
  }

  // ---------------------------------------------------------------- the driver's code

  datatype Skb = Skb(data: seq<u8>, missing: nat)

  class Hci {
    const reassembly: array<Option<Skb>>
    var delivered: seq<(int, seq<u8>)>    // frames handed to hci_recv_frame, with their type

    ghost predicate Valid()
      reads reassembly
    {
      && reassembly.Length == 4
      && forall i :: 1 <= i < 4 ==> SlotOk(i + 1, reassembly[i])
    }

    /** The count is the exact positive number of bytes still missing in the current phase. */
    static ghost predicate SlotOk(kind: int, slot: Option<Skb>) {
      slot.Some? ==> Incomplete(kind, slot.value.data) && slot.value.missing == Missing(kind, slot.value.data)
    }

    /** The bytes kept for the next fragment. */
    ghost function Pending(kind: int): seq<u8>
      requires IsType(kind) && reassembly.Length == 4
      reads reassembly
    {
      if reassembly[kind - 1].Some? then reassembly[kind - 1].value.data else []
    }

    constructor ()
      ensures Valid() && fresh(reassembly) && delivered == []
      ensures forall kind :: IsType(kind) ==> Pending(kind) == []
    {
      reassembly := new Option<Skb>[4](_ => None);
      delivered := [];
    }

    /** Appends bytes of the current phase; a complete header fixes the length of the body. */
    static method Absorb(kind: int, skb: Skb, bytes: seq<u8>) returns (next: Skb, oversized: bool)
      requires IsType(kind) && SlotOk(kind, Some(skb)) && 0 < |bytes| <= skb.missing
      ensures next.data == skb.data + bytes
      ensures oversized <==> Front(kind, next.data) == Overflow
      ensures Front(kind, next.data) == Partial ==> SlotOk(kind, Some(next)) && next.missing > 0
      ensures Front(kind, next.data).Whole? ==> next.missing == 0 && Front(kind, next.data) == Whole(|next.data|)
    {
      next := Skb(skb.data + bytes, skb.missing - |bytes|);
      oversized := false;
      if |next.data| == Hdr(kind) {
        next := next.(missing := PayloadLen(kind, next.data));
        if Room(kind) - |next.data| < next.missing {
          oversized := true;
        }
      }
    }

    /** The copying loop: fills the buffer phase by phase until a frame is complete or the fragment is used up. */
    static method Fill(kind: int, start: Skb, data: seq<u8>) returns (skb: Skb, remain: nat, oversized: bool)
      requires IsType(kind) && SlotOk(kind, Some(start))
      ensures var s := start.data + data;
              match Front(kind, s)
              case Partial => !oversized && remain == 0 && skb.data == s && SlotOk(kind, Some(skb)) && skb.missing > 0
              case Overflow => oversized
              case Whole(n) => !oversized && remain == |s| - n && skb.data == s[..n] && skb.missing == 0
    {
      skb, remain, oversized := start, |data|, false;
      var count, pos := |data|, 0;
      assert start.data + data[..0] == start.data;
      while count > 0
        invariant 0 <= pos <= |data| && count == |data| - pos == remain
        invariant skb.data == start.data + data[..pos]
        invariant SlotOk(kind, Some(skb))
        decreases count
      {
        var len := if skb.missing < count then skb.missing else count;
        assert start.data + data[..pos + len] == skb.data + data[pos..pos + len];
        skb, oversized := Absorb(kind, skb, data[pos..pos + len]);
        assert start.data + data == skb.data + data[pos + len..];
        FrontExtends(kind, skb.data, data[pos + len..]);
        count := count - len;
        pos := pos + len;
        remain := count;
        if oversized || skb.missing == 0 {
          return;
        }
      }
      assert data[..pos] == data;
      oversized := false;
    }

    /** Consumes a fragment up to the end of one frame, and returns how much of it is left. */
    method Reassembly(kind: int, data: seq<u8>, index: nat) returns (ret: int)
      requires Valid() && (IsType(kind) ==> index == kind - 1)
      modifies this, reassembly
      ensures Valid()
      ensures !IsType(kind) ==> ret == -EILSEQ && unchanged(this, reassembly)
      ensures IsType(kind) ==>
                var s := old(Pending(kind)) + data;
                match Front(kind, s)
                case Partial => ret == 0 && Pending(kind) == s && delivered == old(delivered)
                case Overflow => ret == -ENOMEM && Pending(kind) == [] && delivered == old(delivered)
                case Whole(n) => ret == |s| - n && Pending(kind) == [] && delivered == old(delivered) + [(kind, s[..n])]
      ensures forall i :: 0 <= i < 4 && i != kind - 1 ==> reassembly[i] == old(reassembly[i])
    {
      if kind < 2 || kind > 4 || index >= 4 {
        return -EILSEQ;
      }
      var skb := if reassembly[index].Some? then reassembly[index].value else Skb([], Hdr(kind));
      var remain, oversized;
      skb, remain, oversized := Fill(kind, skb, data);
      if oversized {
        reassembly[index] := None;
        return -ENOMEM;
      }
      if skb.missing == 0 {
        delivered := delivered + [(kind, skb.data)];
        reassembly[index] := None;
      } else {
        reassembly[index] := Some(skb);
      }
      return remain;
    }

    /** Feeds a whole fragment: what the buffer and the fragment together hold is parsed to the end, unless a header
        announces too much. */
    method RecvFragment(kind: int, data: seq<u8>) returns (rem: int)
      requires Valid()
      modifies this, reassembly
      ensures Valid()
      ensures !IsType(kind) ==> rem == -EILSEQ && unchanged(this, reassembly)
      ensures IsType(kind) ==>
                var p := Parse(kind, old(Pending(kind)) + data);
                && rem == (if p.overflow then -ENOMEM else 0)
                && Pending(kind) == p.rest
                && delivered == old(delivered) + Tagged(kind, p.frames)
      ensures forall i :: 0 <= i < 4 && i != kind - 1 ==> reassembly[i] == old(reassembly[i])
    {
      rem := 0;
      if kind < 2 || kind > 4 {
        return -EILSEQ;
      }
      ghost var s := Pending(kind) + data;
      ghost var done: seq<seq<u8>> := [];
      var count, pos := |data|, 0;
      assert data[0..] == data;
      ProgressStart(kind, s);
      while count > 0
        invariant 0 <= pos <= |data| && count == |data| - pos && Valid()
        invariant rem == 0 || rem == count
        invariant Progress(kind, s, done, Pending(kind) + data[pos..])
        invariant delivered == old(delivered) + Tagged(kind, done)
        invariant forall i :: 0 <= i < 4 && i != kind - 1 ==> reassembly[i] == old(reassembly[i])
        decreases count
      {
        ghost var t := Pending(kind) + data[pos..];
        rem := Reassembly(kind, data[pos..], kind - 1);
        if rem < 0 {
          assert done + [] == done;
          return;
        }
        pos := pos + (count - rem);
        count := rem;
        ghost var f := Front(kind, t);
        if f.Whole? {
          ProgressStep(kind, s, done, t);
          TaggedSnoc(kind, done, t[..f.len]);
          assert t[f.len..] == Pending(kind) + data[pos..];
          done := done + [t[..f.len]];
        } else {
          assert t == Pending(kind) + data[pos..];
        }
      }
      assert SlotOk(kind, reassembly[kind - 1]);
      assert Pending(kind) + data[pos..] == Pending(kind) && done + [] == done;
    }
  }

  /** Parsing `s` yields the frames `done` and then what parsing `t` yields. */
  ghost predicate Progress(kind: int, s: seq<u8>, done: seq<seq<u8>>, t: seq<u8>) {
    Parse(kind, s) == Parse(kind, t).(frames := done + Parse(kind, t).frames)
  }

  lemma ProgressStart(kind: int, s: seq<u8>)
    ensures Progress(kind, s, [], s)
  {
    assert [] + Parse(kind, s).frames == Parse(kind, s).frames;
  }

  lemma ProgressStep(kind: int, s: seq<u8>, done: seq<seq<u8>>, t: seq<u8>)
    requires Progress(kind, s, done, t) && Front(kind, t).Whole?
    ensures var n := Front(kind, t).len; Progress(kind, s, done + [t[..n]], t[n..])
  {
    var n := Front(kind, t).len;
    assert done + ([t[..n]] + Parse(kind, t[n..]).frames) == (done + [t[..n]]) + Parse(kind, t[n..]).frames;
  }

  function Tagged(kind: int, frames: seq<seq<u8>>): (t: seq<(int, seq<u8>)>)
    ensures |t| == |frames|
    ensures forall i :: 0 <= i < |frames| ==> t[i] == (kind, frames[i])
  {
    seq(|frames|, i requires 0 <= i < |frames| => (kind, frames[i]))
  }

  lemma TaggedSnoc(kind: int, frames: seq<seq<u8>>, frame: seq<u8>)
    ensures Tagged(kind, frames + [frame]) == Tagged(kind, frames) + [(kind, frame)]
  {
  }

  // ---------------------------------------------------------------- independence of fragmentation

  /** Frames delivered and bytes kept after a list of fragments, starting from the pending bytes `b`. */
  function Feed(kind: int, b: seq<u8>, frags: seq<seq<u8>>): (seq<seq<u8>>, seq<u8>)
    decreases |frags|
  {
    if frags == [] then ([], b)
    else
      var p := Parse(kind, b + frags[0]);
      var (frames, rest) := Feed(kind, p.rest, frags[1..]);
      (p.frames + frames, rest)
  }

  lemma FrontExtends(kind: int, s: seq<u8>, x: seq<u8>)
    ensures Front(kind, s) != Partial ==> Front(kind, s + x) == Front(kind, s)
  {
  }

  /** Parsing `s` and then the leftover with `x` behind it; behind an oversized header nothing is left to go on from. */
  function Resumed(kind: int, p: Parsed, x: seq<u8>): Parsed {
    if p.overflow then p.(dropped := p.dropped + |x|)
    else
      var q := Parse(kind, p.rest + x);
      q.(frames := p.frames + q.frames)
  }

  lemma ResumedPrepend(kind: int, frame: seq<u8>, p: Parsed, x: seq<u8>)
    ensures Resumed(kind, Prepend(frame, p), x) == Prepend(frame, Resumed(kind, p, x))
  {
    if !p.overflow {
      Assoc([frame], p.frames, Parse(kind, p.rest + x).frames);
    }
  }

  /** Parsing may stop anywhere and go on from the leftover. */
  lemma {:induction false} ParseSplit(kind: int, s: seq<u8>, x: seq<u8>)
    ensures Parse(kind, s + x) == Resumed(kind, Parse(kind, s), x)
    decreases |s|
  {
    FrontExtends(kind, s, x);
    match Front(kind, s)
    case Partial =>
      var q := Parse(kind, s + x);
      assert [] + q.frames == q.frames;
    case Overflow =>
    case Whole(n) =>
      ParseSplit(kind, s[n..], x);
      assert (s + x)[n..] == s[n..] + x && (s + x)[..n] == s[..n];
      ResumedPrepend(kind, s[..n], Parse(kind, s[n..]), x);
  }

  lemma {:induction false} FeedNothing(kind: int, frags: seq<seq<u8>>)
    requires Flatten(frags) == []
    ensures Feed(kind, [], frags) == ([], [])
    decreases |frags|
  {
    if frags != [] {
      assert frags[0] == [] && Flatten(frags[1..]) == [];
      FeedNothing(kind, frags[1..]);
    }
  }

  /** As long as no bytes follow an oversized header, every way of cutting the stream gives the parse of the stream. */
  lemma {:induction false} FragmentsAgree(kind: int, b: seq<u8>, frags: seq<seq<u8>>)
    requires Front(kind, b) == Partial && Parse(kind, b + Flatten(frags)).dropped == 0
    ensures var p := Parse(kind, b + Flatten(frags)); Feed(kind, b, frags) == (p.frames, p.rest)
    decreases |frags|
  {
    if frags == [] {
      assert b + Flatten(frags) == b;
    } else {
      var more := Flatten(frags[1..]);
      var p := Parse(kind, b + frags[0]);
      assert b + Flatten(frags) == (b + frags[0]) + more;
      ParseSplit(kind, b + frags[0], more);
      RestIncomplete(kind, b + frags[0]);
      if p.overflow {
        OverflowRest(kind, b + frags[0]);
        assert |more| == 0;
        FeedNothing(kind, frags[1..]);
        assert p.frames + [] == p.frames;
      } else {
        FragmentsAgree(kind, p.rest, frags[1..]);
      }
    }
  }

  lemma {:induction false} RestIncomplete(kind: int, s: seq<u8>)
    ensures Front(kind, Parse(kind, s).rest) == Partial
    decreases |s|
  {
    match Front(kind, s)
    case Partial =>
    case Overflow =>
    case Whole(n) => RestIncomplete(kind, s[n..]);
  }

  /** All ways of cutting the stream agree if and only if parsing it drops nothing. */
  lemma AgreeIffNothingDropped(kind: int, s: seq<u8>)
    ensures (forall frags: seq<seq<u8>> :: Flatten(frags) == s ==> Feed(kind, [], frags) == Feed(kind, [], [s]))
            <==> Parse(kind, s).dropped == 0
  {
    var whole: seq<seq<u8>> := [s];
    assert whole[1..] == [] && Flatten(whole) == s + Flatten(whole[1..]) == s && [] + s == s;
    if Parse(kind, s).dropped == 0 {
      forall frags: seq<seq<u8>> | Flatten(frags) == s ensures Feed(kind, [], frags) == Feed(kind, [], whole) {
        assert [] + Flatten(frags) == s;
        FragmentsAgree(kind, [], frags);
        FragmentsAgree(kind, [], whole);
      }
    } else {
      LastByteSurvives(kind, s);
      var cut: seq<seq<u8>> := [s[..|s| - 1], s[|s| - 1..]];
      assert Flatten(cut) == s && Feed(kind, [], cut) != Feed(kind, [], whole);
    }
  }

  /** Cutting off the last dropped byte makes it the start of a new frame instead. */
  lemma LastByteSurvives(kind: int, s: seq<u8>)
    requires Parse(kind, s).dropped > 0
    ensures s != []
    ensures var frags := [s[..|s| - 1], s[|s| - 1..]];
            Flatten(frags) == s && Feed(kind, [], frags).1 == s[|s| - 1..] && Feed(kind, [], [s]).1 == []
  {
    assert Front(kind, []) == Partial && Parse(kind, []).dropped == 0;
    OverflowRest(kind, s);
    var init, last := s[..|s| - 1], s[|s| - 1..];
    assert init + last == s;
    ParseSplit(kind, init, last);
    RestIncomplete(kind, init);
    OverflowRest(kind, init);
    var p := Parse(kind, init);
    if !p.overflow {
      OneByteDropsNothing(kind, p.rest, last);
    }
    var frags: seq<seq<u8>> := [init, last];
    var nothing: seq<seq<u8>> := [];
    assert frags[1..] == [last] && frags[1..][1..] == nothing && [s][1..] == nothing;
    assert Flatten(frags[1..]) == last + Flatten(frags[1..][1..]) == last;
    assert [] + init == init && [] + last == last && [] + s == s;
    assert Front(kind, last) == Partial;
    assert Feed(kind, [], frags).1 == Feed(kind, p.rest, frags[1..]).1;
    assert Feed(kind, [], frags[1..]).1 == Feed(kind, last, frags[1..][1..]).1 == last;
  }

  lemma {:induction false} OverflowRest(kind: int, s: seq<u8>)
    ensures Parse(kind, s).overflow ==> Parse(kind, s).rest == []
    ensures Parse(kind, s).dropped > 0 ==> Parse(kind, s).overflow
    decreases |s|
  {
    match Front(kind, s)
    case Partial =>
    case Overflow =>
    case Whole(n) => OverflowRest(kind, s[n..]);
  }

  /** An incomplete buffer and one more byte can complete an oversized header, but nothing lies behind it. */
  lemma OneByteDropsNothing(kind: int, b: seq<u8>, x: seq<u8>)
    requires Front(kind, b) == Partial && |x| == 1
    ensures Parse(kind, b + x).dropped == 0
  {
    match Front(kind, b + x)
    case Partial =>
    case Overflow =>
    case Whole(n) => assert (b + x)[n..] == [];
  }

  // ---------------------------------------------------------------- the same, as a condition on the stream

  /** A frame of exactly the length its header announces, for which there is room. */
  predicate IsFrame(kind: int, f: seq<u8>) {
    |f| >= Hdr(kind) && |f| == FrameLen(kind, f) <= Room(kind)
  }

  /** The stream consists of these whole frames and a rest that begins with a header announcing more than there is
      room for, with at least one byte behind that header. */
  predicate OversizedBehind(kind: int, s: seq<u8>, frames: seq<seq<u8>>, rest: seq<u8>) {
    && s == Flatten(frames) + rest
    && (forall f :: f in frames ==> IsFrame(kind, f))
    && |rest| > Hdr(kind) && FrameLen(kind, rest) > Room(kind)
  }

  lemma FrameInFront(kind: int, f: seq<u8>, x: seq<u8>)
    requires IsFrame(kind, f)
    ensures Front(kind, f + x) == Whole(|f|) && (f + x)[..|f|] == f && (f + x)[|f|..] == x
  {
    FrontExtends(kind, f, x);
  }

  lemma WholeIsFrame(kind: int, s: seq<u8>)
    requires Front(kind, s).Whole?
    ensures IsFrame(kind, s[..Front(kind, s).len])
  {
  }

  lemma {:induction false} DroppedBehind(kind: int, s: seq<u8>) returns (frames: seq<seq<u8>>, rest: seq<u8>)
    requires Parse(kind, s).dropped > 0
    ensures OversizedBehind(kind, s, frames, rest)
    decreases |s|
  {
    match Front(kind, s)
    case Overflow =>
      frames, rest := [], s;
      assert [] + s == s;
    case Whole(n) =>
      var more;
      more, rest := DroppedBehind(kind, s[n..]);
      WholeIsFrame(kind, s);
      frames := [s[..n]] + more;
      FlattenCons(s[..n], more);
      Assoc(s[..n], Flatten(more), rest);
      assert s == s[..n] + s[n..];
  }

  lemma {:induction false} BehindDrops(kind: int, s: seq<u8>, frames: seq<seq<u8>>, rest: seq<u8>)
    requires OversizedBehind(kind, s, frames, rest)
    ensures Parse(kind, s).dropped > 0
    decreases |frames|
  {
    if frames == [] {
      assert [] + rest == rest;
    } else {
      var x := Flatten(frames[1..]) + rest;
      Assoc(frames[0], Flatten(frames[1..]), rest);
      FrameInFront(kind, frames[0], x);
      BehindDrops(kind, x, frames[1..], rest);
    }
  }

  /** Reassembly does not depend on how the stream is cut if and only if no byte follows an oversized header. */
  lemma FragmentationIndependent(kind: int, s: seq<u8>)
    ensures (forall frags: seq<seq<u8>> :: Flatten(frags) == s ==> Feed(kind, [], frags) == Feed(kind, [], [s]))
            <==> !exists frames, rest :: OversizedBehind(kind, s, frames, rest)
  {
    AgreeIffNothingDropped(kind, s);
    if Parse(kind, s).dropped > 0 {
      var frames, rest := DroppedBehind(kind, s);
    } else if frames, rest :| OversizedBehind(kind, s, frames, rest) {
      BehindDrops(kind, s, frames, rest);
    }
  }

  /** An ACL header that announces 1025 bytes, and one byte: in one fragment the byte is lost, in two it is kept as
      the start of the next frame. */
  lemma OversizedAclDiffers()
    ensures Feed(2, [], [[0, 0, 1, 4, 9]]) == ([], []) && Feed(2, [], [[0, 0, 1, 4], [9]]) == ([], [9])
  {
    var header: seq<u8> := [0, 0, 1, 4];
    var last: seq<u8> := [9];
    var s: seq<u8> := [0, 0, 1, 4, 9];
    var none: seq<u8> := [];
    assert none + s == s && none + header == header && none + last == last;
    assert Front(2, s) == Overflow && Front(2, header) == Overflow && Front(2, last) == Partial;
    FeedOne(s, Parse(2, s));
    FeedOne(last, Parse(2, last));
    var cut: seq<seq<u8>> := [header, last];
    assert cut[0] == header && cut[1..] == [last];
    assert Feed(2, none, cut).1 == Feed(2, none, [last]).1;
    assert Feed(2, none, cut).0 == Feed(2, none, [last]).0;
  }

  lemma FeedOne(s: seq<u8>, p: Parsed)
    requires p == Parse(2, s)
    ensures Feed(2, [], [s]) == (p.frames, p.rest)
  {
    var one: seq<seq<u8>> := [s];
    var nothing: seq<seq<u8>> := [];
    assert one[0] == s && one[1..] == nothing && [] + s == s;
    assert Feed(2, p.rest, nothing) == (nothing, p.rest);
    assert p.frames + nothing == p.frames;
  }

  // ---------------------------------------------------------------- the packets of the standard

  /** An ACL data, SCO data or event packet: part E, section 5.4 of the Bluetooth core specification. */
  datatype AnyPacket =
    | Acl(handle: u16, data: seq<u8>)
    | Sco(handle: u16, data: seq<u8>)
    | Event(code: u8, params: seq<u8>)

  function KindOf(p: AnyPacket): int {
    match p
    case Acl(_, _) => 2
    case Sco(_, _) => 3
    case Event(_, _) => 4
  }

  /** The length fits its field: two bytes, low-order byte first, for ACL data, and one byte for the others. */
  predicate Encodable(p: AnyPacket) {
    match p
    case Acl(_, data) => |data| < 0x1_0000
    case Sco(_, data) => |data| < 0x100
    case Event(_, params) => |params| < 0x100
  }

  type Packet = p: AnyPacket | Encodable(p) witness Event(0, [])

  function Encode(p: Packet): seq<u8> {
    match p
    case Acl(h, data) => [h % 256, h / 256, |data| % 256, |data| / 256] + data
    case Sco(h, data) => [h % 256, h / 256, |data|] + data
    case Event(code, params) => [code, |params|] + params
  }

  /** The driver has room for 1024 bytes of ACL data and for every event, but only for 252 bytes of SCO data. */
  predicate HasRoom(p: AnyPacket) {
    match p
    case Acl(_, data) => |data| <= 1024
    case Sco(_, data) => |data| <= 252
    case Event(_, _) => true
  }

  lemma LengthOf(p: Packet)
    ensures |Encode(p)| >= Hdr(KindOf(p)) && FrameLen(KindOf(p), Encode(p)) == |Encode(p)|
  {
  }

  /** A packet is one frame exactly if there is room for it; otherwise it is taken for oversized. */
  lemma PacketIsFrame(p: Packet)
    ensures IsFrame(KindOf(p), Encode(p)) <==> HasRoom(p)
    ensures !HasRoom(p) ==> Front(KindOf(p), Encode(p)) == Overflow
  {
    LengthOf(p);
  }

  predicate Sendable(p: Packet, kind: int) {
    KindOf(p) == kind && HasRoom(p)
  }

  function EncodeAll(ps: seq<Packet>): (r: seq<seq<u8>>)
    ensures |r| == |ps| && forall i :: 0 <= i < |ps| ==> r[i] == Encode(ps[i])
  {
    seq(|ps|, i requires 0 <= i < |ps| => Encode(ps[i]))
  }

  /** A stream of packets of one type is taken apart into exactly these packets; what comes behind is left over. */
  lemma {:induction false} PacketsParse(kind: int, ps: seq<Packet>, rest: seq<u8>)
    requires forall i :: 0 <= i < |ps| ==> Sendable(ps[i], kind)
    requires Front(kind, rest) == Partial
    ensures Parse(kind, Flatten(EncodeAll(ps)) + rest) == Parsed(EncodeAll(ps), rest, false, 0)
  {
    if ps == [] {
      assert Flatten(EncodeAll(ps)) + rest == rest;
    } else {
      var f, fs := Encode(ps[0]), EncodeAll(ps[1..]);
      PacketIsFrame(ps[0]);
      PacketsParse(kind, ps[1..], rest);
      assert EncodeAll(ps) == [f] + fs;
      ParseFrame(kind, f, fs, rest);
    }
  }

  lemma ParseFrame(kind: int, f: seq<u8>, fs: seq<seq<u8>>, rest: seq<u8>)
    requires IsFrame(kind, f)
    ensures Parse(kind, Flatten([f] + fs) + rest) == Prepend(f, Parse(kind, Flatten(fs) + rest))
  {
    FlattenCons(f, fs);
    Assoc(f, Flatten(fs), rest);
    FrameInFront(kind, f, Flatten(fs) + rest);
  }

  /** However the stream of such packets is cut into fragments, exactly these packets are delivered. */
  lemma PacketsDelivered(kind: int, ps: seq<Packet>, frags: seq<seq<u8>>)
    requires forall i :: 0 <= i < |ps| ==> Sendable(ps[i], kind)
    requires Flatten(frags) == Flatten(EncodeAll(ps))
    ensures Feed(kind, [], frags) == (EncodeAll(ps), [])
  {
    PacketsParse(kind, ps, []);
    assert Flatten(EncodeAll(ps)) + [] == Flatten(EncodeAll(ps)) == [] + Flatten(frags);
    FragmentsAgree(kind, [], frags);
  }
}
