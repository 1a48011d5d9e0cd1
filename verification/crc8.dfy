/** The header checksum of the SDIO framing: crc8_ponl_107 is a bit-serial division by x^8 + x^2 + x + 1. */
module Crc8 {
  import opened Bytes

  // ---------------------------------------------------------------- bytes as eight coefficients

  datatype Octet = Octet(b7: bool, b6: bool, b5: bool, b4: bool, b3: bool, b2: bool, b1: bool, b0: bool) {
    /** Coefficient of x^i. */
    function Coef(i: int): bool {
      match i
      case 0 => b0
      case 1 => b1
      case 2 => b2
      case 3 => b3
      case 4 => b4
      case 5 => b5
      case 6 => b6
      case 7 => b7
      case _ => false
    }

    /** The coefficients, highest first. */
    function Bits(): (bits: seq<bool>)
      ensures |bits| == 8
      ensures forall k :: 0 <= k < 8 ==> bits[k] == Coef(7 - k)
    {
      seq(8, k requires 0 <= k < 8 => Coef(7 - k))
    }

    function Plus(o: Octet): Octet {
      Octet(b7 != o.b7, b6 != o.b6, b5 != o.b5, b4 != o.b4, b3 != o.b3, b2 != o.b2, b1 != o.b1, b0 != o.b0)
    }
  }

  const ZERO := Octet(false, false, false, false, false, false, false, false)

  function OctetOf(b: bv8): Octet {
    Octet(b & 0x80 != 0, b & 0x40 != 0, b & 0x20 != 0, b & 0x10 != 0,
          b & 0x08 != 0, b & 0x04 != 0, b & 0x02 != 0, b & 0x01 != 0)
  }

  lemma OctetOfInjective(a: bv8, b: bv8)
    requires OctetOf(a) == OctetOf(b)
    ensures a == b
  {
  }

  /** The byte with the given coefficients. */
  function ByteOf(o: Octet): bv8 {
    (if o.b7 then 0x80 else 0) | (if o.b6 then 0x40 else 0) | (if o.b5 then 0x20 else 0) | (if o.b4 then 0x10 else 0) |
    (if o.b3 then 0x08 else 0) | (if o.b2 then 0x04 else 0) | (if o.b1 then 0x02 else 0) | (if o.b0 then 0x01 else 0)
  }

  lemma OctetOfByteOf(o: Octet)
    ensures OctetOf(ByteOf(o)) == o
  {
  }

  function MessageBits(msg: seq<bv8>): (bits: seq<bool>)
    ensures |bits| == 8 * |msg|
  {
    if msg == [] then [] else MessageBits(msg[..|msg| - 1]) + OctetOf(msg[|msg| - 1]).Bits()
  }

  lemma MessageBitsAppend(msg: seq<bv8>, b: bv8)
    ensures MessageBits(msg + [b]) == MessageBits(msg) + OctetOf(b).Bits()
  {
    assert (msg + [b])[..|msg + [b]| - 1] == msg;
  }

  // ---------------------------------------------------------------- the shift register

  /** What one message bit does to the register: shift it, and add the generator if bit and carry differ. */
  function BitStep(c: Octet, bit: bool): Octet {
    var t := c.b7 != bit;
    Octet(c.b6, c.b5, c.b4, c.b3, c.b2, c.b1 != t, c.b0 != t, t)
  }

  function Register(c: Octet, bits: seq<bool>): Octet {
    if bits == [] then c else BitStep(Register(c, bits[..|bits| - 1]), bits[|bits| - 1])
  }

  lemma RegisterNext(c: Octet, bits: seq<bool>, k: nat)
    requires k < |bits|
    ensures Register(c, bits[..k + 1]) == BitStep(Register(c, bits[..k]), bits[k])
  {
    assert bits[..k + 1][..k] == bits[..k];
  }

  /** The CRC of a message. */
  function Crc(msg: seq<bv8>): Octet {
    Register(ZERO, MessageBits(msg))
  }

  lemma {:induction false} RegisterAppend(c: Octet, a: seq<bool>, b: seq<bool>)
    ensures Register(c, a + b) == Register(Register(c, a), b)
    decreases |b|
  {
    if b == [] {
      assert a + b == a;
    } else {
      var s := a + b;
      assert s[..|s| - 1] == a + b[..|b| - 1];
      RegisterAppend(c, a, b[..|b| - 1]);
    }
  }

  lemma ShiftBits(c: bv8)
    ensures var o := OctetOf(c); OctetOf(c << 1) == Octet(o.b6, o.b5, o.b4, o.b3, o.b2, o.b1, o.b0, false)
  {
  }

  lemma Flip07Bits(c: bv8)
    ensures var o := OctetOf(c); OctetOf(c ^ 0x07) == Octet(o.b7, o.b6, o.b5, o.b4, o.b3, !o.b2, !o.b1, !o.b0)
  {
  }

  /** The selecting mask of the inner loop after `k` halvings. */
  predicate IsMask(i: bv8, k: int) {
    match k
    case 0 => i == 0x80
    case 1 => i == 0x40
    case 2 => i == 0x20
    case 3 => i == 0x10
    case 4 => i == 0x08
    case 5 => i == 0x04
    case 6 => i == 0x02
    case 7 => i == 0x01
    case 8 => i == 0
    case _ => false
  }

  lemma MaskSelects(b: bv8, i: bv8, k: int)
    requires IsMask(i, k) && i > 0
    ensures 0 <= k < 8
    ensures (b & i != 0) == OctetOf(b).Coef(7 - k)
  {
  }

  lemma MaskHalves(i: bv8, k: int)
    requires IsMask(i, k) && i > 0
    ensures IsMask(i / 2, k + 1)
  {
  }

  /** One pass of the inner loop: the two conditional corrections of the code are one BitStep. */
  method FeedBit(c: bv8, b: bv8, i: bv8, ghost k: int) returns (crc: bv8)
    requires IsMask(i, k) && i > 0
    ensures OctetOf(crc) == BitStep(OctetOf(c), OctetOf(b).Coef(7 - k))
  {
    MaskSelects(b, i, k);
    crc := c;
    ShiftBits(crc);
    Flip07Bits(crc << 1);
    if crc & 0x80 != 0 {
      crc := crc << 1;
      crc := crc ^ 0x07;
    } else {
      crc := crc << 1;
    }
    Flip07Bits(crc);
    if b & i != 0 {
      crc := crc ^ 0x07;
    }
  }

  /** One pass, the register having been fed the first `k` bits from `start`. */
  method FeedNext(c: bv8, b: bv8, i: bv8, ghost k: int, ghost start: Octet, ghost bits: seq<bool>) returns (crc: bv8)
    requires IsMask(i, k) && i > 0 && 0 <= k < 8 && bits == OctetOf(b).Bits()
    requires OctetOf(c) == Register(start, bits[..k])
    ensures OctetOf(crc) == Register(start, bits[..k + 1])
  {
    RegisterNext(start, bits, k);
    crc := FeedBit(c, b, i, k);
  }

  /** The inner loop: the mask runs from 0x80 down to nothing. */
  method FeedByte(c: bv8, b: bv8) returns (crc: bv8)
    ensures OctetOf(crc) == Register(OctetOf(c), OctetOf(b).Bits())
  {
    crc := c;
    ghost var start, bits := OctetOf(c), OctetOf(b).Bits();
    var i: bv8 := 0x80;
    ghost var k := 0;
    while i > 0
      invariant 0 <= k <= 8 && IsMask(i, k)
      invariant OctetOf(crc) == Register(start, bits[..k])
      decreases 8 - k
    {
      MaskHalves(i, k);
      crc := FeedNext(crc, b, i, k, start, bits);
      i := i / 2;
      k := k + 1;
    }
    assert bits[..8] == bits;
  }

  method Crc8Ponl107(buffer: seq<bv8>) returns (crc: bv8)
    ensures OctetOf(crc) == Crc(buffer)
  {
    crc := 0;
    if |buffer| == 0 {
      return;
    }
    var calSize := |buffer|;
    var p := 0;
    while calSize != 0
      invariant 0 <= p <= |buffer| && p + calSize == |buffer|
      invariant OctetOf(crc) == Crc(buffer[..p])
    {
      calSize := calSize - 1;
      crc := FeedByte(crc, buffer[p]);
      assert buffer[..p + 1] == buffer[..p] + [buffer[p]];
      MessageBitsAppend(buffer[..p], buffer[p]);
      RegisterAppend(ZERO, MessageBits(buffer[..p]), OctetOf(buffer[p]).Bits());
      p := p + 1;
    }
    assert buffer[..p] == buffer;
  }

  // ---------------------------------------------------------------- bytes as integers

  function AsBits(msg: seq<u8>): seq<bv8> {
    if msg == [] then [] else AsBits(msg[..|msg| - 1]) + [msg[|msg| - 1] as bv8]
  }

  /** `crc` is the CRC byte of a message given as integers, as the framing code has it. */
  ghost predicate IsCrcByte(msg: seq<u8>, crc: u8) {
    crc == ByteOf(Crc(AsBits(msg))) as int
  }

  method CrcByte(msg: seq<u8>) returns (crc: u8)
    ensures IsCrcByte(msg, crc)
  {
    var c := Crc8Ponl107(AsBits(msg));
    OctetOfByteOf(Crc(AsBits(msg)));
    OctetOfInjective(c, ByteOf(Crc(AsBits(msg))));
    crc := c as int;
  }

  // ---------------------------------------------------------------- polynomials over GF(2)

  /** Coefficient of x^i in the polynomial whose coefficients, highest first, are `p`. */
  function Coef(p: seq<bool>, i: int): bool {
    0 <= i < |p| && p[|p| - 1 - i]
  }

  /** Coefficient of x^i in `q` multiplied by the generator x^8 + x^2 + x + 1. */
  function TimesG(q: seq<bool>, i: int): bool {
    (Coef(q, i) != Coef(q, i - 1)) != (Coef(q, i - 2) != Coef(q, i - 8))
  }

  /** p(x) * x^8 == q(x) * g(x) + r(x) with deg r < 8: `r` is a remainder, `q` its quotient. */
  ghost predicate Divides(p: seq<bool>, q: seq<bool>, r: Octet) {
    forall i: int :: Coef(p, i - 8) == (TimesG(q, i) != r.Coef(i))
  }

  /** The quotient the shift register produces: one bit per message bit. */
  function Quotient(bits: seq<bool>): (q: seq<bool>)
    ensures |q| == |bits|
  {
    if bits == [] then []
    else
      var front := bits[..|bits| - 1];
      Quotient(front) + [Register(ZERO, front).b7 != bits[|bits| - 1]]
  }

  lemma {:induction false} QuotientDivides(bits: seq<bool>)
    ensures Divides(bits, Quotient(bits), Register(ZERO, bits))
  {
    if bits != [] {
      var n := |bits| - 1;
      var front, bit := bits[..n], bits[n];
      QuotientDivides(front);
      var c, d := Register(ZERO, front), Register(ZERO, bits);
      var q0, q := Quotient(front), Quotient(bits);
      var t := c.b7 != bit;
      forall i: int
        ensures Coef(bits, i - 8) == (TimesG(q, i) != d.Coef(i))
      {
        assert Coef(front, i - 9) == (TimesG(q0, i - 1) != c.Coef(i - 1));
        assert forall k: int :: Coef(q, k) == if k == 0 then t else Coef(q0, k - 1);
        assert Coef(bits, i - 8) == if i == 8 then bit else Coef(front, i - 9);
        assert d.Coef(i) == (0 <= i < 8 && (c.Coef(i - 1) != (i <= 2 && t)));
      }
    }
  }

  /** Two multiples of g that agree from x^8 up are multiples by the same quotient. */
  lemma {:induction false} SameMultiple(q1: seq<bool>, q2: seq<bool>, d: nat)
    requires forall i: int {:trigger TimesG(q1, i)} :: i >= 8 ==> TimesG(q1, i) == TimesG(q2, i)
    requires d <= |q1| + |q2|
    ensures forall i: int :: i >= |q1| + |q2| - d ==> Coef(q1, i) == Coef(q2, i)
    decreases d
  {
    if d > 0 {
      SameMultiple(q1, q2, d - 1);
      var i := |q1| + |q2| - d;
      assert TimesG(q1, i + 8) == TimesG(q2, i + 8);
      assert Coef(q1, i + 8) == Coef(q2, i + 8);
      assert Coef(q1, i + 7) == Coef(q2, i + 7);
      assert Coef(q1, i + 6) == Coef(q2, i + 6);
    }
  }

  lemma SameCoefsSameOctet(a: Octet, b: Octet)
    requires forall i: int :: 0 <= i < 8 ==> a.Coef(i) == b.Coef(i)
    ensures a == b
  {
    assert a.Coef(0) == b.Coef(0) && a.Coef(1) == b.Coef(1) && a.Coef(2) == b.Coef(2) && a.Coef(3) == b.Coef(3);
    assert a.Coef(4) == b.Coef(4) && a.Coef(5) == b.Coef(5) && a.Coef(6) == b.Coef(6) && a.Coef(7) == b.Coef(7);
  }

  lemma RemainderUnique(bits: seq<bool>, q: seq<bool>, r: Octet, q0: seq<bool>, c: Octet)
    requires Divides(bits, q, r) && Divides(bits, q0, c)
    ensures r == c
  {
    forall i: int ensures i >= 8 ==> TimesG(q, i) == TimesG(q0, i) {
      assert Coef(bits, i - 8) == (TimesG(q, i) != r.Coef(i));
      assert Coef(bits, i - 8) == (TimesG(q0, i) != c.Coef(i));
    }
    SameMultiple(q, q0, |q| + |q0|);
    forall i: int | 0 <= i < 8 ensures r.Coef(i) == c.Coef(i) {
      assert Coef(bits, i - 8) == (TimesG(q, i) != r.Coef(i));
      assert Coef(bits, i - 8) == (TimesG(q0, i) != c.Coef(i));
      assert forall k: int :: Coef(q, k) == Coef(q0, k);
    }
    SameCoefsSameOctet(r, c);
  }

  /** `r` is what is left of bits(x) * x^8 after division by the generator, for some quotient. */
  ghost predicate IsRemainder(bits: seq<bool>, r: Octet) {
    exists q :: Divides(bits, q, r)
  }

  /** The CRC is the remainder, and no other byte is. */
  lemma CrcIsTheRemainder(msg: seq<bv8>, r: Octet)
    ensures IsRemainder(MessageBits(msg), r) <==> r == Crc(msg)
  {
    var bits := MessageBits(msg);
    QuotientDivides(bits);
    forall q | Divides(bits, q, r) ensures r == Crc(msg) {
      RemainderUnique(bits, q, r, Quotient(bits), Crc(msg));
    }
    assert r == Crc(msg) ==> exists q :: Divides(bits, q, r);
  }

  // ---------------------------------------------------------------- what the remainder buys

  function Xor(a: seq<bool>, b: seq<bool>): (c: seq<bool>)
    requires |a| == |b|
    ensures |c| == |a|
    ensures forall i :: 0 <= i < |a| ==> c[i] == (a[i] != b[i])
  {
    seq(|a|, i requires 0 <= i < |a| => a[i] != b[i])
  }

  lemma BitStepLinear(c: Octet, d: Octet, x: bool, y: bool)
    ensures BitStep(c.Plus(d), x != y) == BitStep(c, x).Plus(BitStep(d, y))
  {
  }

  /** The register is linear in its contents and the bits fed to it. */
  lemma {:induction false} RegisterLinear(c: Octet, d: Octet, a: seq<bool>, b: seq<bool>)
    requires |a| == |b|
    ensures Register(c.Plus(d), Xor(a, b)) == Register(c, a).Plus(Register(d, b))
    decreases |a|
  {
    if a != [] {
      var n := |a| - 1;
      RegisterLinear(c, d, a[..n], b[..n]);
      assert Xor(a, b)[..n] == Xor(a[..n], b[..n]);
      BitStepLinear(Register(c, a[..n]), Register(d, b[..n]), a[n], b[n]);
    }
  }

  /** On messages of one length the CRC of the sum is the sum of the CRCs. */
  lemma CrcLinear(a: seq<bv8>, b: seq<bv8>, c: seq<bv8>)
    requires |a| == |b| == |c| && MessageBits(c) == Xor(MessageBits(a), MessageBits(b))
    ensures Crc(c) == Crc(a).Plus(Crc(b))
  {
    RegisterLinear(ZERO, ZERO, MessageBits(a), MessageBits(b));
    assert ZERO.Plus(ZERO) == ZERO;
  }

  function EightSteps(c: Octet, o: Octet): Octet {
    BitStep(BitStep(BitStep(BitStep(BitStep(BitStep(BitStep(BitStep(c,
      o.b7), o.b6), o.b5), o.b4), o.b3), o.b2), o.b1), o.b0)
  }

  lemma RegisterNibble(c: Octet, bits: seq<bool>)
    requires |bits| == 4
    ensures Register(c, bits) == BitStep(BitStep(BitStep(BitStep(c, bits[0]), bits[1]), bits[2]), bits[3])
  {
    assert bits[..3][..2] == bits[..2] && bits[..2][..1] == bits[..1] && bits[..1][..0] == [];
    assert Register(c, bits[..1]) == BitStep(c, bits[0]);
    assert Register(c, bits[..2]) == BitStep(Register(c, bits[..1]), bits[1]);
    assert Register(c, bits[..3]) == BitStep(Register(c, bits[..2]), bits[2]);
  }

  lemma RegisterOctet(c: Octet, o: Octet)
    ensures Register(c, o.Bits()) == EightSteps(c, o)
  {
    var high, low := [o.b7, o.b6, o.b5, o.b4], [o.b3, o.b2, o.b1, o.b0];
    assert o.Bits() == high + low;
    RegisterAppend(c, high, low);
    RegisterNibble(c, high);
    RegisterNibble(Register(c, high), low);
  }

  /** A message followed by its own CRC byte has CRC 0: what a receiver checks. */
  lemma AppendedCrcIsZero(msg: seq<bv8>, crc: bv8)
    requires OctetOf(crc) == Crc(msg)
    ensures Crc(msg + [crc]) == ZERO
  {
    var c := Crc(msg);
    MessageBitsAppend(msg, crc);
    RegisterAppend(ZERO, MessageBits(msg), c.Bits());
    RegisterOctet(c, c);
  }

  lemma {:induction false} ZerosKeepZero(bits: seq<bool>)
    requires forall i :: 0 <= i < |bits| ==> !bits[i]
    ensures Register(ZERO, bits) == ZERO
  {
    if bits != [] {
      ZerosKeepZero(bits[..|bits| - 1]);
    }
  }

  lemma {:induction false} ZerosKeepNonzero(c: Octet, bits: seq<bool>)
    requires c != ZERO && forall i :: 0 <= i < |bits| ==> !bits[i]
    ensures Register(c, bits) != ZERO
  {
    if bits != [] {
      ZerosKeepNonzero(c, bits[..|bits| - 1]);
    }
  }

  lemma BurstFromZero(bits: seq<bool>)
    requires |bits| == 8 && exists i :: 0 <= i < 8 && bits[i]
    ensures Register(ZERO, bits) != ZERO
  {
    var o := Octet(bits[0], bits[1], bits[2], bits[3], bits[4], bits[5], bits[6], bits[7]);
    assert o.Bits() == bits;
    RegisterOctet(ZERO, o);
  }

  lemma BurstNonzero(e: seq<bool>, w: nat)
    requires w + 8 <= |e| && exists i :: w <= i < w + 8 && e[i]
    requires forall i :: 0 <= i < |e| && !(w <= i < w + 8) ==> !e[i]
    ensures Register(ZERO, e) != ZERO
  {
    var lead, burst, rest := e[..w], e[w..w + 8], e[w + 8..];
    assert e == (lead + burst) + rest;
    var i :| w <= i < w + 8 && e[i];
    assert burst[i - w];
    ZerosKeepZero(lead);
    BurstFromZero(burst);
    RegisterAppend(ZERO, lead, burst);
    ZerosKeepNonzero(Register(ZERO, lead + burst), rest);
    RegisterAppend(ZERO, lead + burst, rest);
  }

  lemma {:induction false} MessageBitsAt(msg: seq<bv8>, n: nat, k: nat)
    requires n < |msg| && k < 8
    ensures MessageBits(msg)[8 * n + k] == OctetOf(msg[n]).Coef(7 - k)
    decreases |msg|
  {
    var last := |msg| - 1;
    if n < last {
      MessageBitsAt(msg[..last], n, k);
    }
  }

  lemma DifferentBits(a: seq<bv8>, b: seq<bv8>)
    requires |a| == |b| && a != b
    ensures exists i :: 0 <= i < 8 * |a| && MessageBits(a)[i] != MessageBits(b)[i]
  {
    var n :| 0 <= n < |a| && a[n] != b[n];
    var k := DifferentOctets(a[n], b[n]);
    MessageBitsAt(a, n, k);
    MessageBitsAt(b, n, k);
    assert 0 <= 8 * n + k < 8 * |a|;
  }

  lemma DifferentOctets(a: bv8, b: bv8) returns (k: nat)
    requires a != b
    ensures k < 8 && OctetOf(a).Coef(7 - k) != OctetOf(b).Coef(7 - k)
  {
    var x, y := OctetOf(a), OctetOf(b);
    if forall i :: 0 <= i < 8 ==> x.Coef(i) == y.Coef(i) {
      SameCoefsSameOctet(x, y);
      OctetOfInjective(a, b);
      assert false;
    } else {
      var i :| 0 <= i < 8 && x.Coef(i) != y.Coef(i);
      k := 7 - i;
    }
  }

  /** Any error confined to a window of eight bits is detected: `w` is where the window starts. */
  lemma BurstDetected(a: seq<bv8>, b: seq<bv8>, w: nat)
    requires |a| == |b| && a != b
    requires forall i :: 0 <= i < 8 * |a| && !(w <= i < w + 8) ==> MessageBits(a)[i] == MessageBits(b)[i]
    ensures Crc(a) != Crc(b)
  {
    var n := 8 * |a|;
    var e := Xor(MessageBits(a), MessageBits(b));
    DifferentBits(a, b);
    var i :| 0 <= i < n && MessageBits(a)[i] != MessageBits(b)[i];
    assert e[i];
    BurstNonzero(e, if w <= n - 8 then w else n - 8);
    RegisterLinear(ZERO, ZERO, MessageBits(a), MessageBits(b));
    assert ZERO.Plus(ZERO) == ZERO;
  }

  /** Only the message's own CRC byte makes it check out. */
  lemma OnlyCrcChecks(msg: seq<bv8>, x: bv8)
    ensures Crc(msg + [x]) == ZERO <==> OctetOf(x) == Crc(msg)
  {
    var c := ByteOf(Crc(msg));
    OctetOfByteOf(Crc(msg));
    AppendedCrcIsZero(msg, c);
    if x != c {
      MessageBitsAppend(msg, c);
      MessageBitsAppend(msg, x);
      assert (msg + [c])[|msg|] != (msg + [x])[|msg|];
      BurstDetected(msg + [c], msg + [x], 8 * |msg|);
      if OctetOf(x) == Crc(msg) {
        OctetOfInjective(x, c);
      }
    }
  }

  /** The bytes of a checked header, its checksum last, have CRC zero. */
  ghost predicate ChecksOut(h: seq<u8>) {
    |h| > 0 && exists b: bv8 :: b as int == h[|h| - 1] && Crc(AsBits(h[..|h| - 1]) + [b]) == ZERO
  }

  lemma CheckedBytes(msg: seq<u8>, crc: u8)
    requires IsCrcByte(msg, crc)
    ensures ChecksOut(msg + [crc])
  {
    var h, b := msg + [crc], ByteOf(Crc(AsBits(msg)));
    assert h[..|h| - 1] == msg;
    OctetOfByteOf(Crc(AsBits(msg)));
    AppendedCrcIsZero(AsBits(msg), b);
  }
}
