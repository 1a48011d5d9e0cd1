/** The byte format of an aggregate: records with a four-byte header, padded to words, closed by a zero word. */
module TxFraming {
  import opened Bytes
  import Crc8

  /** Chips without a header checksum announce the padded length; the D80 family announces the exact one
      and puts a checksum of the first three header bytes into the fourth. */
  datatype Chip = Padded | Checked(crc: seq<u8> -> u8)

  /** `priority` picks the queue class; `desc` is the hardware descriptor that precedes the payload. */
  datatype Packet = Packet(priority: nat, desc: seq<u8>, payload: seq<u8>)

  // sizeof(struct txdesc_api) is 28, TX_ALIGNMENT and TAIL_LEN are 4, TXPKT_BLOCKSIZE is 512. They appear as
  // numerals below: multiplying by a named constant is non-linear arithmetic to the verifier.

  function Body(pkt: Packet): seq<u8> {
    pkt.desc + pkt.payload
  }

  /** Bytes of padding that bring a body of `len` bytes to a word boundary. */
  function Pad(len: nat): (pad: nat)
    ensures pad < 4
  {
    if len == 0 then 0 else if len < 4 then 4 - len else Pad(len - 4)
  }

  lemma {:induction false} PadAligns(len: nat)
    ensures (len + Pad(len)) % 4 == 0
    ensures Pad(len) == (if len % 4 == 0 then 0 else RoundUp(len, 4) - len)
    ensures len % 4 == 0 ==> Pad(len) == 0
  {
    if len >= 4 {
      PadAligns(len - 4);
      assert (len - 4 + 3) / 4 == (len + 3) / 4 - 1;
    }
  }

  /** Padding depends on the body alone when the record starts on a word boundary. */
  lemma PadSum(start: nat, len: nat)
    requires start % 4 == 0
    ensures Pad(start + 4 + len) == Pad(len)
  {
    PadAligns(start + 4 + len);
    PadAligns(len);
  }

  lemma PadAgain(len: nat)
    ensures Pad(len + Pad(len)) == 0
  {
    PadAligns(len);
    PadAligns(len + Pad(len));
  }

  /** What a receiver takes out of a record: the body, and on the older chips its padding too. */
  function Wire(chip: Chip, pkt: Packet): seq<u8> {
    if chip.Padded? then Body(pkt) + Zeros(Pad(|Body(pkt)|)) else Body(pkt)
  }

  /** Twelve bits of length, the type of data, and the checksum of those three bytes where the chip has one. */
  function Header(chip: Chip, len: nat): (h: seq<u8>)
    ensures |h| == 4
  {
    var h0, h1 := len % 256, len / 256 % 16;
    [h0, h1, 1, if chip.Padded? then 0 else chip.crc([h0, h1, 1])]
  }

  function Record(chip: Chip, pkt: Packet): (r: seq<u8>)
    ensures |r| == 4 + |Body(pkt)| + Pad(|Body(pkt)|)
  {
    Header(chip, |Wire(chip, pkt)|) + (Body(pkt) + Zeros(Pad(|Body(pkt)|)))
  }

  function Frame(chip: Chip, pkts: seq<Packet>): seq<u8> {
    if pkts == [] then [] else Record(chip, pkts[0]) + Frame(chip, pkts[1..])
  }

  /** A header with the exact length in front of a padded body is the record on the newer chips; on the older
      ones it becomes the record once the two length bytes are overwritten. */
  lemma RecordAssembled(chip: Chip, pkt: Packet, start: seq<u8>, header: seq<u8>)
    requires var h := Header(chip, |Body(pkt)|); header == h
    ensures var padded, h := header + (Body(pkt) + Zeros(Pad(|Body(pkt)|))), Header(chip, |Wire(chip, pkt)|);
            if chip.Checked? then start + padded == start + Record(chip, pkt)
            else start + [h[0], h[1]] + padded[2..] == start + Record(chip, pkt)
  {
    var h := Header(chip, |Wire(chip, pkt)|);
    if chip.Padded? {
      assert h == [h[0], h[1]] + header[2..];
    }
  }

  lemma RecordAligned(chip: Chip, pkt: Packet)
    ensures |Record(chip, pkt)| % 4 == 0
  {
    PadAligns(|Body(pkt)|);
  }

  /** Every record starts on a word boundary. */
  lemma {:induction false} FrameAligned(chip: Chip, pkts: seq<Packet>)
    ensures |Frame(chip, pkts)| % 4 == 0
  {
    if pkts != [] {
      FrameAligned(chip, pkts[1..]);
      RecordAligned(chip, pkts[0]);
      WordSum(|Record(chip, pkts[0])|, |Frame(chip, pkts[1..])|);
    }
  }

  lemma WordSum(a: nat, b: nat)
    requires a % 4 == 0 && b % 4 == 0
    ensures (a + b) % 4 == 0
  {
  }

  /** A block as flushed: no tail when the records end on a block boundary. */
  function Block(chip: Chip, pkts: seq<Packet>): seq<u8> {
    var f := Frame(chip, pkts);
    if |f| % 512 == 0 then f else f + Zeros(4)
  }

  function LengthField(b0: u8, b1: u8): nat {
    b0 as int + 256 * (b1 % 16) as int
  }

  /** The length announced by the header at the front of `bytes`; 0 for no or a bad header. */
  function Announced(chip: Chip, bytes: seq<u8>): (len: nat)
    ensures len > 0 ==> 4 + len + Pad(len) <= |bytes|
  {
    if |bytes| < 4 then 0
    else
      var len := LengthField(bytes[0], bytes[1]);
      if 4 + len + Pad(len) > |bytes| || bytes[..4] != Header(chip, len) then 0 else len
  }

  /** The receiving side: follow the headers until a zero length, a bad header, or the end. */
  function Walk(chip: Chip, bytes: seq<u8>): seq<seq<u8>>
    decreases |bytes|
  {
    var len := Announced(chip, bytes);
    if len == 0 then []
    else [bytes[4..4 + len]] + Walk(chip, bytes[4 + len + Pad(len)..])
  }

  function Wires(chip: Chip, pkts: seq<Packet>): seq<seq<u8>> {
    if pkts == [] then [] else [Wire(chip, pkts[0])] + Wires(chip, pkts[1..])
  }

  /** The announced length fits the twelve bits of the header. */
  predicate Fits(chip: Chip, pkt: Packet) {
    |Wire(chip, pkt)| < 4096
  }

  predicate WellFormed(pkt: Packet) {
    |pkt.desc| == 28
  }

  lemma {:induction false} FrameSnoc(chip: Chip, pkts: seq<Packet>, pkt: Packet)
    ensures Frame(chip, pkts + [pkt]) == Frame(chip, pkts) + Record(chip, pkt)
  {
    if pkts == [] {
      assert (pkts + [pkt])[1..] == [];
    } else {
      assert (pkts + [pkt])[1..] == pkts[1..] + [pkt];
      FrameSnoc(chip, pkts[1..], pkt);
      Assoc(Record(chip, pkts[0]), Frame(chip, pkts[1..]), Record(chip, pkt));
    }
  }

  lemma TwelveBits(len: nat)
    ensures len % 256 + 256 * (len / 256 % 16 % 16) == len % 4096
  {
    assert len == 4096 * (len / 4096) + len % 4096;
    assert len / 256 == 16 * (len / 4096) + len % 4096 / 256;
  }

  lemma HeaderLength(chip: Chip, len: nat)
    ensures LengthField(Header(chip, len)[0], Header(chip, len)[1]) == len % 4096
  {
    TwelveBits(len);
  }

  lemma HeaderField(chip: Chip, bytes: seq<u8>, wire: nat)
    requires |bytes| >= 4 && bytes[..4] == Header(chip, wire)
    ensures LengthField(bytes[0], bytes[1]) == wire % 4096
  {
    var h := bytes[..4];
    assert bytes[0] == h[0] && bytes[1] == h[1];
    HeaderLength(chip, wire);
  }

  lemma AnnouncedExact(chip: Chip, bytes: seq<u8>, len: nat)
    requires |bytes| >= 4 && bytes[..4] == Header(chip, len) && LengthField(bytes[0], bytes[1]) == len
    requires 4 + len + Pad(len) <= |bytes|
    ensures Announced(chip, bytes) == len
  {
  }

  lemma AnnouncedShort(chip: Chip, bytes: seq<u8>)
    ensures Announced(chip, bytes) < 4096
  {
  }

  /** A header announces its length if that fits twelve bits, and less if it does not. */
  lemma AnnouncedRecord(chip: Chip, pkt: Packet, rest: seq<u8>)
    requires WellFormed(pkt)
    ensures var len := Announced(chip, Record(chip, pkt) + rest);
            if Fits(chip, pkt) then len == |Wire(chip, pkt)| else len < |Wire(chip, pkt)|
  {
    var bytes, wire := Record(chip, pkt) + rest, |Wire(chip, pkt)|;
    if Fits(chip, pkt) {
      assert bytes[..4] == Header(chip, wire);
      assert 4 + wire + Pad(wire) <= |bytes| by { PadAgain(|Body(pkt)|); }
      assert LengthField(bytes[0], bytes[1]) == wire by { HeaderField(chip, bytes, wire); }
      AnnouncedExact(chip, bytes, wire);
    } else {
      AnnouncedShort(chip, bytes);
    }
  }

  lemma WalkRecord(chip: Chip, pkt: Packet, rest: seq<u8>)
    requires WellFormed(pkt)
    ensures Fits(chip, pkt) ==>
              Walk(chip, Record(chip, pkt) + rest) == [Wire(chip, pkt)] + Walk(chip, rest)
    ensures !Fits(chip, pkt) ==>
              var w := Walk(chip, Record(chip, pkt) + rest);
              w == [] || |w[0]| < |Wire(chip, pkt)|
  {
    var bytes, wire := Record(chip, pkt) + rest, Wire(chip, pkt);
    AnnouncedRecord(chip, pkt, rest);
    if Fits(chip, pkt) {
      var len := |wire|;
      PadAgain(|Body(pkt)|);
      assert 4 + len + Pad(len) == |Record(chip, pkt)|;
      assert bytes[4 + len + Pad(len)..] == rest;
      assert bytes[4..4 + len] == wire;
    }
  }

  /** Trailing bytes that a transmitted block may carry after the records: none, or a zero word and anything. */
  predicate Trailer(rest: seq<u8>) {
    rest == [] || (|rest| >= 4 && rest[..4] == Zeros(4))
  }

  lemma WalkTrailer(chip: Chip, rest: seq<u8>)
    requires Trailer(rest)
    ensures Walk(chip, rest) == []
  {
    if rest != [] {
      assert rest[0] == rest[..4][0] == 0 && rest[1] == rest[..4][1] == 0;
    }
  }

  /** The walk takes the first record of a frame and goes on with the rest of it, unless the record is oversized. */
  lemma WalkFront(chip: Chip, pkts: seq<Packet>, rest: seq<u8>)
    requires pkts != [] && WellFormed(pkts[0])
    ensures var w := Walk(chip, Frame(chip, pkts) + rest);
            if Fits(chip, pkts[0]) then w == [Wire(chip, pkts[0])] + Walk(chip, Frame(chip, pkts[1..]) + rest)
            else w == [] || |w[0]| < |Wire(chip, pkts[0])|
  {
    Assoc(Record(chip, pkts[0]), Frame(chip, pkts[1..]), rest);
    WalkRecord(chip, pkts[0], Frame(chip, pkts[1..]) + rest);
  }

  lemma {:induction false} WalkFrame(chip: Chip, pkts: seq<Packet>, rest: seq<u8>)
    requires forall i :: 0 <= i < |pkts| ==> WellFormed(pkts[i]) && Fits(chip, pkts[i])
    requires Trailer(rest)
    ensures Walk(chip, Frame(chip, pkts) + rest) == Wires(chip, pkts)
  {
    if pkts == [] {
      assert Frame(chip, pkts) + rest == rest;
      WalkTrailer(chip, rest);
    } else {
      WalkFrame(chip, pkts[1..], rest);
      WalkFront(chip, pkts, rest);
    }
  }

  lemma ConsDiffers<T>(x: T, a: seq<T>, b: seq<T>)
    requires a != b
    ensures [x] + a != [x] + b
  {
    assert ([x] + a)[1..] == a && ([x] + b)[1..] == b;
  }

  /** One oversized record is enough for the walk to go wrong. */
  lemma {:induction false} WalkBadFrame(chip: Chip, pkts: seq<Packet>, rest: seq<u8>, bad: Packet)
    requires forall i :: 0 <= i < |pkts| ==> WellFormed(pkts[i])
    requires bad in pkts && !Fits(chip, bad)
    ensures Walk(chip, Frame(chip, pkts) + rest) != Wires(chip, pkts)
  {
    WalkFront(chip, pkts, rest);
    if Fits(chip, pkts[0]) {
      assert bad in pkts[1..];
      WalkBadFrame(chip, pkts[1..], rest, bad);
      ConsDiffers(Wire(chip, pkts[0]), Walk(chip, Frame(chip, pkts[1..]) + rest), Wires(chip, pkts[1..]));
    }
  }

  /** `sent` is what goes over the bus: the block, rounded up to whole 512-byte blocks with whatever
      bytes the buffer held there before. */
  ghost predicate IsTransmission(chip: Chip, pkts: seq<Packet>, sent: seq<u8>) {
    var block := Block(chip, pkts);
    block <= sent && |sent| == RoundUp(|block|, 512)
  }

  /** Behind the records comes nothing or a zero word. */
  lemma Behind(chip: Chip, pkts: seq<Packet>, sent: seq<u8>) returns (rest: seq<u8>)
    requires IsTransmission(chip, pkts, sent)
    ensures sent == Frame(chip, pkts) + rest && Trailer(rest)
  {
    var f, block := Frame(chip, pkts), Block(chip, pkts);
    rest := sent[|f|..];
    assert sent == f + rest;
    FrameAligned(chip, pkts);
    if |f| % 512 == 0 {
      assert rest == [];
    } else {
      assert rest[..4] == block[|f|..] == Zeros(4);
    }
  }

  /** Following the headers of a transmission recovers exactly the aggregated records, in order, and nothing
      from the stale bytes behind them, if and only if every announced length fits twelve bits. */
  lemma TransmissionInvertible(chip: Chip, pkts: seq<Packet>, sent: seq<u8>)
    requires forall i :: 0 <= i < |pkts| ==> WellFormed(pkts[i])
    requires IsTransmission(chip, pkts, sent)
    ensures Walk(chip, sent) == Wires(chip, pkts) <==> forall i :: 0 <= i < |pkts| ==> Fits(chip, pkts[i])
  {
    var rest := Behind(chip, pkts, sent);
    if forall i :: 0 <= i < |pkts| ==> Fits(chip, pkts[i]) {
      WalkFrame(chip, pkts, rest);
    } else {
      var k :| 0 <= k < |pkts| && !Fits(chip, pkts[k]);
      WalkBadFrame(chip, pkts, rest, pkts[k]);
    }
  }

  /** The end mark never costs a block: as many whole blocks go out as the records fill. */
  lemma NoExtraBlock(chip: Chip, pkts: seq<Packet>, sent: seq<u8>)
    requires IsTransmission(chip, pkts, sent)
    ensures |sent| == RoundUp(|Frame(chip, pkts)|, 512)
  {
    FrameAligned(chip, pkts);
    MarkFits(|Frame(chip, pkts)|);
  }

  lemma MarkFits(n: nat)
    requires n % 4 == 0
    ensures n % 512 != 0 ==> RoundUp(n + 4, 512) == RoundUp(n, 512)
    ensures n % 512 == 0 ==> RoundUp(n, 512) == n
  {
    if n % 512 != 0 {
      assert n % 512 <= 508;
      assert (n + 4 + 511) / 512 == n / 512 + 1 == (n + 511) / 512;
    }
  }

  // ---------------------------------------------------------------- a record, byte by byte

  /** The checksum in the header of the D80 family is the driver's CRC-8. */
  ghost predicate DriverChip(chip: Chip) {
    chip.Checked? ==> forall h: seq<u8> :: |h| == 3 ==> Crc8.IsCrcByte(h, chip.crc(h))
  }

  /** The length a record announces: of descriptor and payload, on the older chips rounded up to words. */
  function WireLength(chip: Chip, payload: nat): nat {
    if chip.Padded? then RoundUp(28 + payload, 4) else 28 + payload
  }

  lemma WireLengthIs(chip: Chip, pkt: Packet)
    requires WellFormed(pkt)
    ensures |Wire(chip, pkt)| == WireLength(chip, |pkt.payload|)
  {
    PadAligns(|Body(pkt)|);
  }

  lemma HeaderBytes(chip: Chip, len: nat)
    requires DriverChip(chip) && len < 4096
    ensures var h := Header(chip, len);
            && h[0] as int + 256 * h[1] as int == len && h[2] == 1
            && (chip.Padded? ==> h[3] == 0)
            && (chip.Checked? ==> Crc8.IsCrcByte(h[..3], h[3]) && Crc8.ChecksOut(h))
  {
    TwelveBits(len);
    var h := Header(chip, len);
    assert h[..3] == [h[0], h[1], 1] && h == h[..3] + [h[3]];
    if chip.Checked? {
      Crc8.CheckedBytes(h[..3], h[3]);
    }
  }

  /** A record on the bus: length, type 1, checksum or zero, and then descriptor, payload and zeros up to a word. The
      checksum is the CRC of the three bytes before it, so that the four header bytes together have CRC zero. */
  lemma RecordLayout(chip: Chip, pkt: Packet)
    requires WellFormed(pkt) && Fits(chip, pkt) && DriverChip(chip)
    ensures var (r, n) := (Record(chip, pkt), |pkt.payload|);
            && |r| == RoundUp(32 + n, 4)
            && r[0] as int + 256 * r[1] as int == WireLength(chip, n) && r[2] == 1
            && (chip.Padded? ==> r[3] == 0)
            && (chip.Checked? ==> Crc8.IsCrcByte(r[..3], r[3]) && Crc8.ChecksOut(r[..4]))
            && r[4..32] == pkt.desc && r[32..32 + n] == pkt.payload
            && forall i :: 32 + n <= i < |r| ==> r[i] == 0
  {
    var r, h := Record(chip, pkt), Header(chip, |Wire(chip, pkt)|);
    WireLengthIs(chip, pkt);
    HeaderBytes(chip, |Wire(chip, pkt)|);
    PadAligns(|Body(pkt)|);
    RoundUpAligned(28 + |pkt.payload|);
    RecordPieces(h, pkt.desc, pkt.payload, Pad(|Body(pkt)|), r);
  }

  lemma RoundUpAligned(n: nat)
    ensures RoundUp(n + 4, 4) == RoundUp(n, 4) + 4
    ensures n % 4 == 0 ==> RoundUp(n, 4) == n
  {
    assert (n + 7) / 4 == (n + 3) / 4 + 1;
  }

  lemma RecordPieces(h: seq<u8>, desc: seq<u8>, payload: seq<u8>, pad: nat, r: seq<u8>)
    requires |h| == 4 && |desc| == 28 && r == h + ((desc + payload) + Zeros(pad))
    ensures r[..4] == h && r[..3] == h[..3] && r[4..32] == desc && r[32..32 + |payload|] == payload
    ensures |r| == 32 + |payload| + pad && forall i :: 32 + |payload| <= i < |r| ==> r[i] == 0
  {
    assert r[..3] == r[..4][..3];
  }
}
