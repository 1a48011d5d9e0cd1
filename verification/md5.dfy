/** The streaming part of MD5: chunks of any size refine one fold of the block function over the padded message. */
module Md5 {
  import opened Bytes

  datatype State = State(a: u32, b: u32, c: u32, d: u32)

  /** MD5Transform: any function from a state and a block of 64 bytes to a state. */
  type Transform = (State, seq<u8>) -> State

  const INIT := State(0x67452301, 0xEFCDAB89, 0x98BADCFE, 0x10325476)

  // ---------------------------------------------------------------- the specification: section 3 of RFC 1321

  /** Folds the block function over the complete 64-byte blocks of `s`; a shorter tail is ignored. */
  function Blocks(f: Transform, st: State, s: seq<u8>): State
    decreases |s|
  {
    if |s| < 64 then st else Blocks(f, f(st, s[..64]), s[64..])
  }

  /** The bytes of a word, low-order byte first. */
  function WordBytes(w: u32): (b: seq<u8>)
    ensures |b| == 4
  {
    [w % 256, w / 256 % 256, w / 0x1_0000 % 256, w / 0x100_0000 % 256]
  }

  function LittleEndian(words: seq<u32>): (b: seq<u8>)
    ensures |b| == 4 * |words|
  {
    if words == [] then [] else LittleEndian(words[..|words| - 1]) + WordBytes(words[|words| - 1])
  }

  /** How many bytes of 0x80, 0, 0, ... make the length congruent to 56 modulo 64: between 1 and 64. */
  function PadLen(n: nat): (p: nat)
    ensures 1 <= p <= 64
  {
    if n % 64 < 56 then 56 - n % 64 else 120 - n % 64
  }

  function Padding(n: nat): (p: seq<u8>)
    ensures |p| == PadLen(n)
  {
    [0x80] + Zeros(PadLen(n) - 1)
  }

  /** The bit length modulo 2^64 as two words, low-order word first. */
  function BitCount(n: nat): seq<u32> {
    [8 * n % 0x1_0000_0000, 8 * n / 0x1_0000_0000 % 0x1_0000_0000]
  }

  function Padded(msg: seq<u8>): seq<u8> {
    msg + Padding(|msg|) + LittleEndian(BitCount(|msg|))
  }

  function Digest(f: Transform, msg: seq<u8>): seq<u8> {
    var st := Blocks(f, INIT, Padded(msg));
    LittleEndian([st.a, st.b, st.c, st.d])
  }

  // ---------------------------------------------------------------- lemmas about the fold

  lemma {:induction false} BlocksAppend(f: Transform, st: State, a: seq<u8>, b: seq<u8>)
    requires |a| % 64 == 0
    ensures Blocks(f, st, a + b) == Blocks(f, Blocks(f, st, a), b)
    decreases |a|
  {
    if |a| == 0 {
      assert a + b == b;
    } else {
      assert (a + b)[..64] == a[..64] && (a + b)[64..] == a[64..] + b;
      BlocksAppend(f, f(st, a[..64]), a[64..], b);
    }
  }

  lemma OneBlock(f: Transform, st: State, b: seq<u8>)
    requires |b| == 64
    ensures Blocks(f, st, b) == f(st, b)
  {
    assert b[..64] == b;
  }

  lemma ShortTail(f: Transform, st: State, a: seq<u8>, b: seq<u8>)
    requires |a| % 64 == 0 && |b| < 64
    ensures Blocks(f, st, a + b) == Blocks(f, st, a)
  {
    BlocksAppend(f, st, a, b);
  }

  /** The bytes behind the last complete block. */
  function Tail(m: seq<u8>): (t: seq<u8>)
    ensures |t| == |m| % 64
  {
    m[|m| - |m| % 64..]
  }

  lemma SplitTail(m: seq<u8>) returns (whole: seq<u8>)
    ensures m == whole + Tail(m) && |whole| % 64 == 0
  {
    whole := m[..|m| - |m| % 64];
  }

  lemma TailOf(whole: seq<u8>, t: seq<u8>)
    requires |whole| % 64 == 0 && |t| < 64
    ensures Tail(whole + t) == t
  {
    assert |whole + t| % 64 == |t|;
  }

  lemma SplitFold(f: Transform, whole: seq<u8>, t: seq<u8>)
    requires |whole| % 64 == 0 && |t| < 64
    ensures Blocks(f, INIT, whole + t) == Blocks(f, INIT, whole) && Tail(whole + t) == t
  {
    ShortTail(f, INIT, whole, t);
    TailOf(whole, t);
  }

  lemma StepsTo(len: nat, start: nat, i: nat)
    requires start <= len && i == start + (len - start) / 64 * 64
    ensures start <= i <= len && len - i < 64 && (i - start) % 64 == 0
  {
  }

  // ---------------------------------------------------------------- the 32-bit loop guard

  /** Where the block loop of MD5Update ends: the tail that is kept starts here. */
  function TailStart(index: nat, len: nat): nat
    requires index < 64 && len >= 64 - index
  {
    var partLen := 64 - index;
    partLen + (len - partLen) / 64 * 64
  }

  /** The loop guard i + 64 <= len, computed in 32 bits, ends the loop where it should. */
  predicate GuardHolds(index: nat, len: nat)
    requires index < 64
  {
    len >= 64 - index ==> TailStart(index, len) + 64 < 0x1_0000_0000
  }

  /** Exactly the chunks that end within 64 bytes of 2^32 make the guard wrap and the loop run past its input. */
  lemma GuardWraps(index: nat, len: nat)
    requires index < 64 && 64 - index <= len < 0x1_0000_0000
    ensures (TailStart(index, len) + 64) % 0x1_0000_0000 <= len <==> !GuardHolds(index, len)
  {
    var t := TailStart(index, len);
    assert len - 64 < t <= len;
  }

  /** Whatever is buffered, the chunks short enough to be safe are those below 2^32 - 64 bytes. */
  lemma SafeLength(len: nat)
    requires len < 0x1_0000_0000
    ensures (forall index :: 0 <= index < 64 ==> GuardHolds(index, len)) <==> len < 0xFFFF_FFC0
  {
    if len >= 0xFFFF_FFC0 {
      var index := (64 - len % 64) % 64;
      assert (len - (64 - index)) % 64 == 0;
      assert !GuardHolds(index, len);
    }
  }

  /** The longest chunk there is makes it wrap, from an empty buffer. */
  lemma LongestChunkWraps()
    ensures !GuardHolds(0, 0xFFFF_FFFF)
  {
  }

  // ---------------------------------------------------------------- the bit counter

  /** The two-word counter stands at 8 * n modulo 2^64. */
  predicate Counts(count0: u32, count1: u32, n: nat) {
    count0 + 0x1_0000_0000 * count1 == 8 * n % 0x1_0000_0000_0000_0000
  }

  /** The 32-bit additions with carry of MD5Update. */
  function AddCount(count0: u32, count1: u32, len: u32): (u32, u32) {
    var low := len * 8 % 0x1_0000_0000;
    var c0 := (count0 + low) % 0x1_0000_0000;
    var c1 := if c0 < low then (count1 + 1) % 0x1_0000_0000 else count1;
    (c0, (c1 + len / 0x2000_0000) % 0x1_0000_0000)
  }

  lemma DivMod32(x: nat, q: nat, r: nat)
    requires x == 0x1_0000_0000 * q + r && r < 0x1_0000_0000
    ensures x / 0x1_0000_0000 == q && x % 0x1_0000_0000 == r
  {
  }

  lemma DivMod64(x: nat, q: nat, r: nat)
    requires x == 0x1_0000_0000_0000_0000 * q + r && r < 0x1_0000_0000_0000_0000
    ensures x % 0x1_0000_0000_0000_0000 == r
  {
  }

  lemma SplitLength(len: u32)
    ensures 8 * len == len * 8 % 0x1_0000_0000 + 0x1_0000_0000 * (len / 0x2000_0000)
  {
    var q, r := len / 0x2000_0000, len % 0x2000_0000;
    assert len == 0x2000_0000 * q + r;
    DivMod32(len * 8, q, 8 * r);
  }

  lemma Carry(a: u32, b: u32)
    ensures var c := (a + b) % 0x1_0000_0000; a + b == c + (if c < b then 0x1_0000_0000 else 0)
  {
    if a + b >= 0x1_0000_0000 {
      DivMod32(a + b, 1, a + b - 0x1_0000_0000);
    }
  }

  lemma CountsOn(count0: u32, count1: u32, n: nat, len: u32)
    requires Counts(count0, count1, n)
    ensures var (c0, c1) := AddCount(count0, count1, len); Counts(c0, c1, n + len)
  {
    var (c0, c1) := AddCount(count0, count1, len);
    var low, high := len * 8 % 0x1_0000_0000, len / 0x2000_0000;
    SplitLength(len);
    Carry(count0, low);
    var carry := if c0 < low then 1 else 0;
    var sum := count1 + carry + high;
    SumWraps(count1, carry, high);
    assert c1 == sum % 0x1_0000_0000;
    CountsWrap(n, len, c0, c1, sum / 0x1_0000_0000);
  }

  lemma SumWraps(count1: u32, carry: nat, high: nat)
    ensures ((count1 + carry) % 0x1_0000_0000 + high) % 0x1_0000_0000 == (count1 + carry + high) % 0x1_0000_0000
    ensures carry == 0 ==> (count1 + carry) % 0x1_0000_0000 == count1
  {
    var q := (count1 + carry) / 0x1_0000_0000;
    var x := (count1 + carry) % 0x1_0000_0000 + high;
    DivMod32(count1 + carry + high, q + x / 0x1_0000_0000, x % 0x1_0000_0000);
  }

  lemma CountsWrap(n: nat, len: nat, c0: u32, c1: u32, k: nat)
    requires 8 * n % 0x1_0000_0000_0000_0000 + 8 * len == c0 + 0x1_0000_0000 * (c1 + 0x1_0000_0000 * k)
    ensures Counts(c0, c1, n + len)
  {
    DivMod64(8 * (n + len), 8 * n / 0x1_0000_0000_0000_0000 + k, c0 + 0x1_0000_0000 * c1);
  }

  lemma CountsIndex(count0: u32, count1: u32, n: nat)
    requires Counts(count0, count1, n)
    ensures count0 / 8 % 64 == n % 64
    ensures [count0, count1] == BitCount(n)
  {
    var m := 8 * n / 0x1_0000_0000_0000_0000;
    var q := 0x1_0000_0000 * m + count1;
    assert 8 * n == 0x1_0000_0000 * q + count0;
    DivMod32(8 * n, q, count0);
    DivMod32(q, m, count1);
    Index(n, q, count0);
  }

  lemma Index(n: nat, q: nat, count0: u32)
    requires 8 * n == 0x1_0000_0000 * q + count0
    ensures count0 / 8 % 64 == n % 64
  {
    var j := count0 / 8;
    assert n == 64 * (0x80_0000 * q) + j;
  }

  // ---------------------------------------------------------------- the driver's code

  class Md5Ctx {
    const f: Transform
    var count0: u32
    var count1: u32
    var state: State
    const buffer: array<u8>
    ghost var msg: seq<u8>        // everything fed in so far

    /** The counter is exact modulo 2^64, the state is the fold so far, the buffer starts with the unprocessed tail. */
    ghost predicate Valid()
      reads this, buffer
    {
      && buffer.Length == 64
      && Counts(count0, count1, |msg|)
      && Folded(msg)
    }

    ghost predicate Folded(m: seq<u8>)
      requires buffer.Length == 64
      reads `state, buffer
    {
      state == Blocks(f, INIT, m) && buffer[..|Tail(m)|] == Tail(m)
    }

    constructor (f: Transform)
      ensures Valid() && msg == [] && this.f == f && fresh(buffer)
    {
      this.f := f;
      count0, count1 := 0, 0;
      state := INIT;
      buffer := new u8[64](_ => 0);
      msg := [];
    }

    /** memcpy into the buffer. */
    method Copy(index: nat, s: seq<u8>)
      requires buffer.Length == 64 && index + |s| <= 64
      modifies buffer
      ensures buffer[..index + |s|] == old(buffer[..index]) + s
    {
      forall k | 0 <= k < |s| {
        buffer[index + k] := s[k];
      }
    }

    /** The block loop: transforms complete blocks straight from the input, from `start` on. */
    method Absorb(input: seq<u8>, start: nat) returns (i: nat)
      requires |input| < 0x1_0000_0000 && start <= |input|
      requires start + (|input| - start) / 64 * 64 + 64 < 0x1_0000_0000
      modifies `state
      ensures i == start + (|input| - start) / 64 * 64
      ensures state == Blocks(f, old(state), input[start..i])
    {
      i := start;
      assert input[start..i] == [];
      while (i + 64) % 0x1_0000_0000 <= |input|
        invariant start <= i <= |input| && (i - start) % 64 == 0
        invariant i <= start + (|input| - start) / 64 * 64
        invariant state == Blocks(f, old(state), input[start..i])
        decreases |input| - i
      {
        BlocksAppend(f, old(state), input[start..i], input[i..i + 64]);
        assert input[start..i + 64] == input[start..i] + input[i..i + 64];
        OneBlock(f, state, input[i..i + 64]);
        state := f(state, input[i..i + 64]);
        i := i + 64;
      }
    }

    /** The counter that stood at 8 * n stands at 8 * (n + inputLen), modulo 2^64. */
    method AddLength(inputLen: u32, ghost n: nat)
      requires Counts(count0, count1, n)
      modifies `count0, `count1
      ensures Counts(count0, count1, n + inputLen)
    {
      CountsOn(count0, count1, n, inputLen);
      count0 := (count0 + inputLen * 8 % 0x1_0000_0000) % 0x1_0000_0000;
      if count0 < inputLen * 8 % 0x1_0000_0000 {
        count1 := (count1 + 1) % 0x1_0000_0000;
      }
      count1 := (count1 + inputLen / 0x2000_0000) % 0x1_0000_0000;
    }

    /** Fills the buffer up and transforms it. */
    method CompleteBlock(index: nat, first: seq<u8>, ghost whole: seq<u8>)
      requires buffer.Length == 64 && index + |first| == 64
      requires |whole| % 64 == 0 && state == Blocks(f, INIT, whole)
      modifies `state, buffer
      ensures state == Blocks(f, INIT, whole + (old(buffer[..index]) + first))
    {
      ghost var block := buffer[..index] + first;
      Copy(index, first);
      assert buffer[..] == block;
      OneBlock(f, state, block);
      BlocksAppend(f, INIT, whole, block);
      state := f(state, buffer[..]);
    }

    /** The data part of an update: `m` is what has been fed in before. */
    method Consume(index: nat, input: seq<u8>, ghost m: seq<u8>)
      requires buffer.Length == 64 && index == |m| % 64 && Folded(m)
      requires |input| < 0x1_0000_0000 && GuardHolds(index, |input|)
      modifies `state, buffer
      ensures Folded(m + input)
    {
      ghost var tail := Tail(m);
      ghost var whole := SplitTail(m);
      SplitFold(f, whole, tail);
      if |input| >= 64 - index {
        ConsumeBlocks(index, input, whole, tail);
      } else {
        Copy(index, input);
        SplitFold(f, whole, tail + input);
        Assoc(whole, tail, input);
      }
    }

    /** The buffered bytes become a block with the first of the input; complete blocks follow, and the rest is kept. */
    method ConsumeBlocks(index: nat, input: seq<u8>, ghost whole: seq<u8>, ghost tail: seq<u8>)
      requires buffer.Length == 64 && index == |tail| < 64 && buffer[..index] == tail
      requires |whole| % 64 == 0 && state == Blocks(f, INIT, whole)
      requires 64 - index <= |input| < 0x1_0000_0000 && GuardHolds(index, |input|)
      modifies `state, buffer
      ensures Folded((whole + tail) + input)
    {
      var partLen := 64 - index;
      CompleteBlock(index, input[..partLen], whole);
      var i := Absorb(input, partLen);
      StepsTo(|input|, partLen, i);
      ghost var done := FoldMiddle(f, whole, tail, input, partLen, i);
      assert buffer[..0] == [];
      Copy(0, input[i..]);
      SplitFold(f, done, input[i..]);
    }

    method Update(input: seq<u8>)
      requires Valid() && |input| < 0x1_0000_0000 && GuardHolds(|msg| % 64, |input|)
      modifies this, buffer
      ensures Valid() && msg == old(msg) + input
    {
      CountsIndex(count0, count1, |msg|);
      var index := count0 / 8 % 64;
      AddLength(|input|, |msg|);
      Consume(index, input, msg);
      msg := msg + input;
    }

    method Final() returns (digest: seq<u8>)
      requires Valid()
      modifies this, buffer
      ensures digest == Digest(f, old(msg))
    {
      CountsIndex(count0, count1, |msg|);
      var index := count0 / 8 % 64;
      var padLen := if index < 56 then 56 - index else 120 - index;
      var bits := Encode([count0, count1]);
      ghost var m := msg;
      Update(Padding64()[..padLen]);
      assert Padding64()[..padLen] == Padding(|m|);
      Update(bits);
      digest := Encode([state.a, state.b, state.c, state.d]);
    }
  }

  /** The completed block and the blocks taken straight from the input continue the fold. */
  lemma FoldMiddle(f: Transform, whole: seq<u8>, tail: seq<u8>, input: seq<u8>, p: nat, i: nat) returns (done: seq<u8>)
    requires |whole| % 64 == 0 && |tail| + p == 64 && p <= i <= |input| && (i - p) % 64 == 0
    ensures |done| % 64 == 0 && (whole + tail) + input == done + input[i..]
    ensures Blocks(f, Blocks(f, INIT, whole + (tail + input[..p])), input[p..i]) == Blocks(f, INIT, done)
  {
    var begun := whole + (tail + input[..p]);
    done := begun + input[p..i];
    assert |begun| == |whole| + 64;
    BlocksAppend(f, INIT, begun, input[p..i]);
    assert (whole + tail) + input == done + input[i..];
  }

  /** The driver's PADDING array. */
  function Padding64(): (p: seq<u8>)
    ensures |p| == 64
  {
    [0x80] + Zeros(63)
  }

  /** MD5Encode. */
  method Encode(input: seq<u32>) returns (output: seq<u8>)
    ensures output == LittleEndian(input)
  {
    output := [];
    var i := 0;
    while i < |input|
      invariant 0 <= i <= |input|
      invariant output == LittleEndian(input[..i])
    {
      assert input[..i + 1][..i] == input[..i];
      output := output + [input[i] % 256, input[i] / 256 % 256, input[i] / 0x1_0000 % 256, input[i] / 0x100_0000 % 256];
      i := i + 1;
    }
    assert input[..i] == input;
  }

  /** The length of a chunk is a 32-bit number, and the guard holds behind what was fed in before it. */
  ghost predicate ChunkSafe(chunks: seq<seq<u8>>, i: nat)
    requires i < |chunks|
  {
    |chunks[i]| < 0x1_0000_0000 && GuardHolds(|Flatten(chunks[..i])| % 64, |chunks[i]|)
  }

  /** Chunks below 2^32 - 64 bytes can be fed in any number and order. */
  lemma ShortChunksSafe(chunks: seq<seq<u8>>)
    requires forall c :: c in chunks ==> |c| < 0xFFFF_FFC0
    ensures forall i :: 0 <= i < |chunks| ==> ChunkSafe(chunks, i)
  {
    forall i | 0 <= i < |chunks| ensures ChunkSafe(chunks, i) {
      SafeLength(|chunks[i]|);
    }
  }

  /** Feeding a message in any chunks whose loop guard does not wrap yields the digest of the message. */
  method HashChunks(f: Transform, chunks: seq<seq<u8>>) returns (digest: seq<u8>)
    requires forall i :: 0 <= i < |chunks| ==> ChunkSafe(chunks, i)
    ensures digest == Digest(f, Flatten(chunks))
  {
    var ctx := new Md5Ctx(f);
    for i := 0 to |chunks|
      invariant ctx.Valid() && ctx.msg == Flatten(chunks[..i])
      invariant fresh(ctx) && fresh(ctx.buffer)
    {
      assert ChunkSafe(chunks, i);
      ctx.Update(chunks[i]);
      assert chunks[..i + 1] == chunks[..i] + [chunks[i]];
      FlattenSnoc(chunks[..i], chunks[i]);
    }
    assert chunks[..|chunks|] == chunks;
    digest := ctx.Final();
  }

  // ---------------------------------------------------------------- byte order and layout, in numbers

  function LittleEndianValue(b: seq<u8>): nat {
    if b == [] then 0 else b[0] + 256 * LittleEndianValue(b[1..])
  }

  lemma WordValue(w: u32)
    ensures LittleEndianValue(WordBytes(w)) == w
  {
    var b := WordBytes(w);
    Digits(w);
    assert b[0..] == b && b[4..] == [];
    ValueStep(b, 0);
    ValueStep(b, 1);
    ValueStep(b, 2);
    ValueStep(b, 3);
  }

  lemma Digits(w: u32)
    ensures w == w % 256 + 256 * (w / 256 % 256 + 256 * (w / 0x1_0000 % 256 + 256 * (w / 0x100_0000 % 256)))
  {
    var w1, w2, w3 := w / 256, w / 0x1_0000, w / 0x100_0000;
    assert w1 == w1 % 256 + 256 * w2 && w2 == w2 % 256 + 256 * w3 && w3 % 256 == w3;
  }

  lemma LittleEndianTwo(v: u32, w: u32)
    ensures LittleEndian([v, w]) == WordBytes(v) + WordBytes(w)
  {
    assert [v, w][..1] == [v] && [v][..0] == [];
    assert LittleEndian([v]) == WordBytes(v);
  }

  lemma LittleEndianFour(a: u32, b: u32, c: u32, d: u32)
    ensures LittleEndian([a, b, c, d]) == WordBytes(a) + WordBytes(b) + WordBytes(c) + WordBytes(d)
  {
    assert [a, b, c, d][..3] == [a, b, c] && [a, b, c][..2] == [a, b];
    LittleEndianTwo(a, b);
  }

  /** The four words of the digest, low-order byte first, are those of the fold over the padded message. */
  lemma DigestIs(f: Transform, msg: seq<u8>)
    ensures var (st, d) := (Blocks(f, INIT, Padded(msg)), Digest(f, msg));
            && |d| == 16
            && LittleEndianValue(d[..4]) == st.a && LittleEndianValue(d[4..8]) == st.b
            && LittleEndianValue(d[8..12]) == st.c && LittleEndianValue(d[12..]) == st.d
  {
    var st, d := Blocks(f, INIT, Padded(msg)), Digest(f, msg);
    LittleEndianFour(st.a, st.b, st.c, st.d);
    assert d[..4] == WordBytes(st.a) && d[4..8] == WordBytes(st.b);
    assert d[8..12] == WordBytes(st.c) && d[12..] == WordBytes(st.d);
    WordValue(st.a);
    WordValue(st.b);
    WordValue(st.c);
    WordValue(st.d);
  }

  /** The initial words as bytes count up and down through the nibbles (section 3.3 of RFC 1321). */
  lemma InitBytes()
    ensures LittleEndian([INIT.a, INIT.b, INIT.c, INIT.d]) ==
            [0x01, 0x23, 0x45, 0x67, 0x89, 0xAB, 0xCD, 0xEF, 0xFE, 0xDC, 0xBA, 0x98, 0x76, 0x54, 0x32, 0x10]
  {
    LittleEndianFour(INIT.a, INIT.b, INIT.c, INIT.d);
  }

  lemma ValueStep(b: seq<u8>, k: nat)
    requires k < |b|
    ensures LittleEndianValue(b[k..]) == b[k] + 256 * LittleEndianValue(b[k + 1..])
  {
    assert b[k..][1..] == b[k + 1..];
  }

  lemma ValueAppend(a: seq<u8>, b: seq<u8>)
    requires |a| == 4
    ensures LittleEndianValue(a + b) == LittleEndianValue(a) + 0x1_0000_0000 * LittleEndianValue(b)
  {
    var s := a + b;
    assert s[0..] == s && s[4..] == b && a[0..] == a && a[4..] == [];
    ValueStep(s, 0);
    ValueStep(s, 1);
    ValueStep(s, 2);
    ValueStep(s, 3);
    ValueStep(a, 0);
    ValueStep(a, 1);
    ValueStep(a, 2);
    ValueStep(a, 3);
  }

  lemma CountValue(n: nat)
    ensures LittleEndianValue(LittleEndian(BitCount(n))) == 8 * n % 0x1_0000_0000_0000_0000
  {
    var bits := BitCount(n);
    LittleEndianTwo(bits[0], bits[1]);
    ValueAppend(WordBytes(bits[0]), WordBytes(bits[1]));
    WordValue(bits[0]);
    WordValue(bits[1]);
    TwoWords(8 * n);
  }

  lemma PadFills(n: nat)
    ensures (n + PadLen(n) + 8) % 64 == 0
  {
    var q, r := n / 64, n % 64;
    assert n + PadLen(n) + 8 == if r < 56 then 64 * (q + 1) else 64 * (q + 2);
  }

  /** The message, a byte 0x80, the fewest zeros that make whole blocks, and the bit length modulo 2^64 (sections 3.1
      and 3.2). */
  lemma PaddedLayout(msg: seq<u8>)
    ensures var (s, n) := (Padded(msg), |msg|);
            && |s| % 64 == 0 && n + 9 <= |s| < n + 73
            && s[..n] == msg && s[n] == 0x80 && (forall i :: n < i < |s| - 8 ==> s[i] == 0)
            && LittleEndianValue(s[|s| - 8..]) == 8 * n % 0x1_0000_0000_0000_0000
  {
    var s, n := Padded(msg), |msg|;
    PadFills(n);
    CountValue(n);
    PaddedParts(msg, Padding(n), LittleEndian(BitCount(n)), s);
  }

  lemma PaddedParts(msg: seq<u8>, pad: seq<u8>, count: seq<u8>, s: seq<u8>)
    requires s == msg + pad + count && |count| == 8 && |pad| > 0 && pad == [0x80] + Zeros(|pad| - 1)
    ensures s[..|msg|] == msg && s[|msg|] == 0x80 && s[|s| - 8..] == count && |s| == |msg| + |pad| + 8
    ensures forall i :: |msg| < i < |s| - 8 ==> s[i] == 0
  {
    forall i | |msg| < i < |s| - 8 ensures s[i] == 0 {
      assert s[i] == pad[i - |msg|];
    }
  }

  lemma TwoWords(x: nat)
    ensures x % 0x1_0000_0000 + 0x1_0000_0000 * (x / 0x1_0000_0000 % 0x1_0000_0000) == x % 0x1_0000_0000_0000_0000
  {
    var q := x / 0x1_0000_0000;
    DivMod64(x, q / 0x1_0000_0000, x % 0x1_0000_0000 + 0x1_0000_0000 * (q % 0x1_0000_0000));
  }
}
