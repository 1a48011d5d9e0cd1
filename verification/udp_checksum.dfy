/** The incremental UDP checksum of a DHCP request whose BROADCAST flag gets set. */
module UdpChecksum {
  import opened Bytes

  // ------------------------------------------------------------ one's complement sums

  function Sum(w: seq<u16>): nat {
    if w == [] then 0 else Sum(w[..|w| - 1]) + w[|w| - 1]
  }

  /** The carries of a sum added back in, over and over (RFC 1071). */
  function Fold(sum: nat): (r: nat)
    ensures r < 0x1_0000
    decreases sum
  {
    if sum / 0x1_0000 == 0 then sum else Fold(sum % 0x1_0000 + sum / 0x1_0000)
  }

  /** Folding takes off a multiple of 65535, and only a zero sum folds to zero. */
  lemma {:induction false} FoldQuotient(sum: nat) returns (q: nat)
    ensures sum == 65535 * q + Fold(sum) && (Fold(sum) == 0 <==> sum == 0)
    decreases sum
  {
    q := sum / 0x1_0000;
    if q != 0 {
      var p := FoldQuotient(sum % 0x1_0000 + q);
      q := q + p;
    }
  }

  lemma Remainder(sum: nat, q: nat, r: nat)
    requires sum == 65535 * q + r && r <= 65535
    ensures sum % 65535 == if r == 65535 then 0 else r
  {
  }

  /** Folding keeps the residue modulo 65535. */
  lemma FoldResidue(sum: nat)
    ensures Fold(sum) == if sum == 0 then 0 else if sum % 65535 == 0 then 65535 else sum % 65535
  {
    var q := FoldQuotient(sum);
    Remainder(sum, q, Fold(sum));
  }

  lemma {:induction false} SumUpdate(w: seq<u16>, i: nat, x: u16)
    requires i < |w|
    ensures Sum(w[i := x]) == Sum(w) - w[i] + x
  {
    var n := |w| - 1;
    if i < n {
      SumUpdate(w[..n], i, x);
      assert w[i := x][..n] == w[..n][i := x];
    } else {
      assert w[i := x][..n] == w[..n];
    }
  }

  /** A receiver's test (RFC 768): no checksum, or all words with the pseudo-header sum up to all ones. */
  predicate Intact(pseudo: nat, w: seq<u16>) {
    Fold(pseudo + Sum(w)) == 0xFFFF
  }

  predicate Accepted(pseudo: nat, w: seq<u16>, check: nat)
    requires check < |w|
  {
    w[check] == 0 || Intact(pseudo, w)
  }

  /** The checksum computed from scratch. */
  function Recomputed(pseudo: nat, w: seq<u16>, check: nat): u16
    requires check < |w|
  {
    0xFFFF - Fold(pseudo + Sum(w[check := 0]))
  }

  /** Equal up to the two zeros of one's complement. */
  predicate SameOnes(a: u16, b: u16) {
    a == b || (a == 0 && b == 0xFFFF) || (a == 0xFFFF && b == 0)
  }

  // ------------------------------------------------------------ the driver's update

  /** htons(BROADCAST_FLAG) as a little-endian machine loads it is 0x0080. */
  predicate IsBroadcast(flags: u16) {
    flags / 0x80 % 2 == 1
  }

  /** The incremental checksum for the new flags word. */
  function Updated(check: u16, flags: u16): u16 {
    0xFFFF - Fold(0xFFFF - check + flags)
  }

  function Broadcasted(w: seq<u16>, check: nat, flags: nat): seq<u16>
    requires check < |w| && flags < |w| && !IsBroadcast(w[flags])
  {
    w[flags := w[flags] + 0x80][check := Updated(w[check], w[flags] + 0x80)]
  }

  /** Where the UDP header starts, in 16-bit words: behind 14 bytes of Ethernet and ihl words of IP. */
  function UdpAt(w: seq<u16>): nat
    requires |w| > 7
  {
    7 + 2 * (w[7] % 16)
  }

  /** The packet holds the headers it announces; the driver does not check lengths. Words are as loaded by a
      little-endian machine, an odd last byte being padded with zero. */
  predicate Fits(w: seq<u16>) {
    && |w| > 6
    && (w[6] == 0x0008 ==> |w| > 11)
    && (w[6] == 0x0008 && w[11] / 0x100 == 17 ==> |w| >= UdpAt(w) + 4)
    && (w[6] == 0x0008 && w[11] / 0x100 == 17 && w[UdpAt(w)] == 0x4400 && w[UdpAt(w) + 1] == 0x4300 ==>
          |w| >= UdpAt(w) + 124)
  }

  /** An IPv4 UDP packet from port 68 to port 67 with the DHCP magic cookie. */
  predicate IsRequest(w: seq<u16>)
    requires Fits(w)
  {
    && w[6] == 0x0008 && w[11] / 0x100 == 17
    && (var u := UdpAt(w); w[u] == 0x4400 && w[u + 1] == 0x4300 && w[u + 122] == 0x8263 && w[u + 123] == 0x6353)
  }

  /** The loop over the carries. */
  method AddCarries(total: nat) returns (sum: nat)
    ensures sum == Fold(total)
  {
    sum := total;
    while sum / 0x1_0000 != 0
      invariant Fold(sum) == Fold(total)
      decreases sum
    {
      sum := sum % 0x1_0000 + sum / 0x1_0000;
    }
  }

  /** dhcp_flag_bcast; the checksum is word 3 of the UDP header, the BOOTP flags are word 9. */
  method DhcpFlagBcast(data: array<u16>, disabled: bool)
    requires Fits(data[..])
    modifies data
    ensures var w := old(data[..]);
            data[..] == if !disabled && IsRequest(w) && !IsBroadcast(w[UdpAt(w) + 9])
                        then Broadcasted(w, UdpAt(w) + 3, UdpAt(w) + 9)
                        else w
  {
    if disabled || data[6] != 0x0008 || data[11] / 0x100 != 17 {
      return;
    }
    var u := 7 + 2 * (data[7] % 16);
    if data[u] == 0x4400 && data[u + 1] == 0x4300 && data[u + 122] == 0x8263 && data[u + 123] == 0x6353 {
      if data[u + 9] / 0x80 % 2 == 0 {
        data[u + 9] := data[u + 9] + 0x80;
        var sum: nat := (0xFFFF - data[u + 3]) as int + data[u + 9] as int;
        sum := AddCarries(sum);
        data[u + 3] := 0xFFFF - sum;
      }
    }
  }

  // ------------------------------------------------------------ when the result is right

  /** What the updated words sum up to: the old sum, less the old flags word (RFC 1624 would subtract it). */
  lemma SumBroadcasted(w: seq<u16>, check: nat, flags: nat)
    requires check < |w| && flags < |w| && check != flags && !IsBroadcast(w[flags])
    ensures Sum(Broadcasted(w, check, flags)) == Sum(w) - w[check] + 0x80 + Updated(w[check], w[flags] + 0x80)
  {
    SumUpdate(w, flags, w[flags] + 0x80);
    SumUpdate(w[flags := w[flags] + 0x80], check, Updated(w[check], w[flags] + 0x80));
  }

  /** A sum is intact exactly when it is a positive multiple of 65535. */
  lemma IntactIff(pseudo: nat, w: seq<u16>)
    ensures Intact(pseudo, w) <==> pseudo + Sum(w) > 0 && (pseudo + Sum(w)) % 65535 == 0
  {
    FoldResidue(pseudo + Sum(w));
  }

  lemma Shifted(q: nat, f: u16, total: nat)
    requires total == 65535 * q - f && !IsBroadcast(f)
    ensures total % 65535 == 0 <==> f == 0
  {
    Remainder(total, if f == 0 then q else q - 1, if f == 0 then 0 else 65535 - f);
  }

  /** A datagram that had a good checksum keeps one exactly when its flags word was zero: the update adds the whole
      new word, not its difference from the old one. */
  lemma RightIffFlagsZero(pseudo: nat, w: seq<u16>, check: nat, flags: nat)
    requires check < |w| && flags < |w| && check != flags && !IsBroadcast(w[flags])
    requires w[check] != 0 && Intact(pseudo, w)
    ensures Intact(pseudo, Broadcasted(w, check, flags)) <==> w[flags] == 0
  {
    var t := Broadcasted(w, check, flags);
    SumBroadcasted(w, check, flags);
    var n: nat := 0xFFFF - w[check] + (w[flags] + 0x80) as int;
    var q := FoldQuotient(pseudo + Sum(w));
    var p := FoldQuotient(n);
    IntactIff(pseudo, t);
    Shifted(q + 1 + p, w[flags], pseudo + Sum(t));
  }

  /** The same for the datagram inside the packet, `m` words long. */
  lemma RequestRightIff(pseudo: nat, packet: seq<u16>, m: nat)
    requires Fits(packet) && IsRequest(packet)
    requires 10 <= m && UdpAt(packet) + m <= |packet| && !IsBroadcast(packet[UdpAt(packet) + 9])
    requires packet[UdpAt(packet) + 3] != 0 && Intact(pseudo, packet[UdpAt(packet)..UdpAt(packet) + m])
    ensures var u := UdpAt(packet);
            Intact(pseudo, Broadcasted(packet, u + 3, u + 9)[u..u + m]) <==> packet[u + 9] == 0
  {
    var u := UdpAt(packet);
    var w := packet[u..u + m];
    assert Broadcasted(packet, u + 3, u + 9)[u..u + m] == Broadcasted(w, 3, 9);
    RightIffFlagsZero(pseudo, w, 3, 9);
  }

  lemma {:induction false} SumZeros(n: nat)
    ensures Sum(seq(n, _ => 0 as u16)) == 0
  {
    if n > 0 {
      SumZeros(n - 1);
      assert seq(n, _ => 0 as u16)[..n - 1] == seq(n - 1, _ => 0 as u16);
    }
  }

  /** A DHCP datagram of 124 words: ports 68 and 67, the magic cookie, a flags word of 1, and a checksum with which it
      sums to two times 65535. */
  lemma FlaggedDatagram() returns (w: seq<u16>)
    ensures |w| == 124 && w[0] == 0x4400 && w[1] == 0x4300 && w[122] == 0x8263 && w[123] == 0x6353
    ensures w[3] == 0x9347 && w[9] == 1 && Sum(w) == 0x1_FFFE
  {
    w := seq(124, _ => 0 as u16);
    SumZeros(124);
    SumUpdate(w, 0, 0x4400);
    w := w[0 := 0x4400];
    SumUpdate(w, 1, 0x4300);
    w := w[1 := 0x4300];
    SumUpdate(w, 3, 0x9347);
    w := w[3 := 0x9347];
    SumUpdate(w, 9, 1);
    w := w[9 := 1];
    SumUpdate(w, 122, 0x8263);
    w := w[122 := 0x8263];
    SumUpdate(w, 123, 0x6353);
    w := w[123 := 0x6353];
  }

  /** A datagram behind 14 bytes of Ethernet and 20 bytes of IP. */
  lemma Enveloped(w: seq<u16>) returns (packet: seq<u16>)
    ensures |packet| == 17 + |w| && packet[17..] == w
    ensures packet[6] == 0x0008 && packet[7] == 0x0045 && packet[11] == 0x1100
    ensures forall i :: 0 <= i < |w| ==> packet[17 + i] == w[i]
  {
    packet := seq(17, _ => 0 as u16)[6 := 0x0008][7 := 0x0045][11 := 0x1100] + w;
  }

  /** There is a request that the driver accepts and rewrites whose checksum is good before, and not afterwards. */
  lemma FlaggedRequestBreaks() returns (packet: seq<u16>)
    ensures |packet| == 141 && Fits(packet) && IsRequest(packet) && UdpAt(packet) == 17
    ensures packet[26] == 1 && !IsBroadcast(packet[26])
    ensures Intact(0, packet[17..141]) && !Intact(0, Broadcasted(packet, 20, 26)[17..141])
  {
    var w := FlaggedDatagram();
    packet := Enveloped(w);
    assert packet[17] == w[0] && packet[18] == w[1] && packet[20] == w[3] && packet[26] == w[9];
    assert packet[139] == w[122] && packet[140] == w[123];
    assert packet[17..141] == w;
    IntactIff(0, w);
    RequestRightIff(0, packet, 124);
  }

  lemma Complements(q: int, check: u16, rest: u16)
    requires rest + check == 65535 * q
    ensures q > 0 ==> SameOnes(check, 0xFFFF - rest)
  {
  }

  /** In that case the checksum is the recomputed one, up to the two zeros. */
  lemma AgreesWithRecomputed(pseudo: nat, w: seq<u16>, check: nat, flags: nat)
    requires check < |w| && flags < |w| && check != flags && w[flags] == 0
    requires w[check] != 0 && Intact(pseudo, w)
    ensures var t := Broadcasted(w, check, flags); SameOnes(t[check], Recomputed(pseudo, t, check))
  {
    var t := Broadcasted(w, check, flags);
    RightIffFlagsZero(pseudo, w, check, flags);
    SumUpdate(t, check, 0);
    var q := FoldQuotient(pseudo + Sum(t));
    var p := FoldQuotient(pseudo + Sum(t[check := 0]));
    Complements(q + 1 - p, t[check], Fold(pseudo + Sum(t[check := 0])));
  }

  /** The checksum turns into "none" exactly when it equalled the new flags word. */
  lemma VanishesIff(check: u16, flags: u16)
    requires IsBroadcast(flags) && check != 0
    ensures Updated(check, flags) == 0 <==> check == flags
  {
    var n: nat := (0xFFFF - check) as int + flags as int;
    FoldResidue(n);
    assert n % 65535 == if flags < check then n else n - 65535 - (if flags - check == 65535 then 65535 else 0);
  }

  /** A datagram without a checksum gets one, and is then accepted only if the rest of it happens to sum to zero. */
  lemma NoneBecomesSome(pseudo: nat, w: seq<u16>, check: nat, flags: nat)
    requires check < |w| && flags < |w| && check != flags && !IsBroadcast(w[flags]) && w[check] == 0
    ensures var t := Broadcasted(w, check, flags);
            && t[check] == 0xFFFF - t[flags]
            && (Accepted(pseudo, t, check) <==>
                t[flags] == 0xFFFF || (pseudo + Sum(w) - w[flags]) % 65535 == 0)
  {
    var t := Broadcasted(w, check, flags);
    OnTop(w[flags] + 0x80);
    SumBroadcasted(w, check, flags);
    if t[flags] != 0xFFFF {
      SumUpdate(t, flags, 0);
      IntactWith(pseudo, t, pseudo + Sum(w) - w[flags]);
    }
  }

  lemma IntactWith(pseudo: nat, w: seq<u16>, rest: int)
    requires pseudo + Sum(w) == rest + 65535 && pseudo + Sum(w) > 0
    ensures Intact(pseudo, w) <==> rest % 65535 == 0
  {
    IntactIff(pseudo, w);
    OneMore(rest, pseudo + Sum(w));
  }

  lemma OneMore(rest: int, sum: int)
    requires sum == rest + 65535
    ensures sum % 65535 == rest % 65535
  {
  }

  lemma OnTop(x: u16)
    requires x != 0
    ensures Updated(0, x) == 0xFFFF - x
  {
    var n: nat := 0xFFFF + x as int;
    assert Fold(n) == Fold(n % 0x1_0000 + n / 0x1_0000);
    assert n / 0x1_0000 == 1 && n % 0x1_0000 == x - 1;
  }

  // ------------------------------------------------------------ the packet as bytes on the wire

  /** Byte `k` of the packet: the words are loaded low-order byte first. */
  function ByteAt(w: seq<u16>, k: nat): u8
    requires k < 2 * |w|
  {
    if k % 2 == 0 then w[k / 2] % 0x100 else w[k / 2] / 0x100
  }

  /** A number of the packet: its high-order byte comes first. */
  function NumberAt(w: seq<u16>, k: nat): nat
    requires k + 1 < 2 * |w|
  {
    0x100 * ByteAt(w, k) as int + ByteAt(w, k + 1) as int
  }

  lemma WordAt(w: seq<u16>, i: nat, high: u8, low: u8)
    requires i < |w|
    ensures NumberAt(w, 2 * i) == 0x100 * (w[i] % 0x100) + w[i] / 0x100
    ensures w[i] == 0x100 * low + high <==> NumberAt(w, 2 * i) == 0x100 * high + low
  {
    assert ByteAt(w, 2 * i) == w[i] % 0x100;
    assert ByteAt(w, 2 * i + 1) == w[i] / 0x100 by {
      assert (2 * i + 1) / 2 == i && (2 * i + 1) % 2 == 1;
    }
    Digits(w[i], high, low);
  }

  lemma Digits(x: u16, high: u8, low: u8)
    ensures x == 0x100 * low + high <==> 0x100 * (x % 0x100) + x / 0x100 == 0x100 * high + low
  {
  }

  /** What is taken for a request: EtherType 0x0800, protocol 17, UDP from port 68 to port 67, and the magic cookie
      0x63825363 behind 236 bytes of BOOTP, the IP header being as long as it says. */
  lemma RequestBytes(w: seq<u16>, u: nat)
    requires Fits(w) && |w| > 11 && u == 14 + 4 * (ByteAt(w, 14) % 16) && u + 248 <= 2 * |w|
    ensures IsRequest(w) <==>
              && NumberAt(w, 12) == 0x0800 && ByteAt(w, 23) == 17
              && NumberAt(w, u) == 68 && NumberAt(w, u + 2) == 67
              && NumberAt(w, u + 8 + 236) == 0x6382 && NumberAt(w, u + 8 + 238) == 0x5363
  {
    var i := UdpAt(w);
    assert ByteAt(w, 14) == w[7] % 0x100 && ByteAt(w, 23) == w[11] / 0x100;
    HeaderLength(w[7]);
    WordAt(w, 6, 8, 0);
    WordAt(w, i, 0, 68);
    WordAt(w, i + 1, 0, 67);
    WordAt(w, i + 122, 0x63, 0x82);
    WordAt(w, i + 123, 0x53, 0x63);
  }

  lemma HeaderLength(x: u16)
    ensures x % 0x100 % 16 == x % 16
  {
    assert x == 0x100 * (x / 0x100) + x % 0x100;
    assert x == 16 * (16 * (x / 0x100) + x % 0x100 / 16) + x % 0x100 % 16;
  }

  /** The update sets the highest bit of the first flags byte and no other bit but those of the checksum. */
  lemma FlagSet(w: seq<u16>, check: nat, flags: nat, k: nat)
    requires check < |w| && flags < |w| && check != flags && !IsBroadcast(w[flags]) && k < 2 * |w| && k / 2 != check
    ensures ByteAt(Broadcasted(w, check, flags), k) == ByteAt(w, k) + if k == 2 * flags then 0x80 else 0
    ensures ByteAt(w, 2 * flags) < 0x80
  {
    var x := w[flags];
    assert x / 0x80 == 2 * (x / 0x100) + x % 0x100 / 0x80;
    assert (x + 0x80) % 0x100 == x % 0x100 + 0x80 && (x + 0x80) / 0x100 == x / 0x100;
    assert k / 2 == flags ==> k == 2 * flags || k == 2 * flags + 1;
  }
}
