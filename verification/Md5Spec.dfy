/** MD5 as section 3 of RFC 1321 defines it: a function from a whole message to a digest. */
module Md5Spec {
  import opened ByteOrder

  /** The four chaining words A, B, C, D. */
  datatype State = State(a: bv32, b: bv32, c: bv32, d: bv32)

  // ---- Section 3.4: the compression of one 16-word block ----

  function F(x: bv32, y: bv32, z: bv32): bv32 { (x & y) | (!x & z) }

  function G(x: bv32, y: bv32, z: bv32): bv32 { (x & z) | (y & !z) }

  function H(x: bv32, y: bv32, z: bv32): bv32 { x ^ y ^ z }

  function I(x: bv32, y: bv32, z: bv32): bv32 { y ^ (x | !z) }

  /** The auxiliary function of operation `i`, which depends on the round only. */
  function Aux(i: nat, x: bv32, y: bv32, z: bv32): bv32 {
    if i < 16 then F(x, y, z) else if i < 32 then G(x, y, z) else if i < 48 then H(x, y, z) else I(x, y, z)
  }

  /** The word of the block that operation `i` reads. */
  function WordIndex(i: nat): (k: nat)
    ensures k < 16
  {
    if i < 16 then i else if i < 32 then (1 + 5 * i) % 16 else if i < 48 then (5 + 3 * i) % 16 else (7 * i) % 16
  }

  /** The entry of a row of four that belongs to operation `i`. */
  function Cycle<T>(i: nat, t0: T, t1: T, t2: T, t3: T): T {
    if i % 4 == 0 then t0 else if i % 4 == 1 then t1 else if i % 4 == 2 then t2 else t3
  }

  /** The rotation of operation `i`: each round cycles through four amounts. */
  function Amount(i: nat): (s: nat)
    ensures 0 < s < 32
  {
    if i < 16 then Cycle(i, 7, 12, 17, 22)
    else if i < 32 then Cycle(i, 5, 9, 14, 20)
    else if i < 48 then Cycle(i, 4, 11, 16, 23)
    else Cycle(i, 6, 10, 15, 21)
  }

  // The table T, by rounds: entry `i` is the integer part of 2^32 * abs(sin(i + 1)).

  function Sine1(i: nat): bv32 {
    if i < 4 then Cycle(i, 0xd76aa478, 0xe8c7b756, 0x242070db, 0xc1bdceee)
    else if i < 8 then Cycle(i, 0xf57c0faf, 0x4787c62a, 0xa8304613, 0xfd469501)
    else if i < 12 then Cycle(i, 0x698098d8, 0x8b44f7af, 0xffff5bb1, 0x895cd7be)
    else Cycle(i, 0x6b901122, 0xfd987193, 0xa679438e, 0x49b40821)
  }

  function Sine2(i: nat): bv32 {
    if i < 20 then Cycle(i, 0xf61e2562, 0xc040b340, 0x265e5a51, 0xe9b6c7aa)
    else if i < 24 then Cycle(i, 0xd62f105d, 0x02441453, 0xd8a1e681, 0xe7d3fbc8)
    else if i < 28 then Cycle(i, 0x21e1cde6, 0xc33707d6, 0xf4d50d87, 0x455a14ed)
    else Cycle(i, 0xa9e3e905, 0xfcefa3f8, 0x676f02d9, 0x8d2a4c8a)
  }

  function Sine3(i: nat): bv32 {
    if i < 36 then Cycle(i, 0xfffa3942, 0x8771f681, 0x6d9d6122, 0xfde5380c)
    else if i < 40 then Cycle(i, 0xa4beea44, 0x4bdecfa9, 0xf6bb4b60, 0xbebfbc70)
    else if i < 44 then Cycle(i, 0x289b7ec6, 0xeaa127fa, 0xd4ef3085, 0x04881d05)
    else Cycle(i, 0xd9d4d039, 0xe6db99e5, 0x1fa27cf8, 0xc4ac5665)
  }

  function Sine4(i: nat): bv32 {
    if i < 52 then Cycle(i, 0xf4292244, 0x432aff97, 0xab9423a7, 0xfc93a039)
    else if i < 56 then Cycle(i, 0x655b59c3, 0x8f0ccc92, 0xffeff47d, 0x85845dd1)
    else if i < 60 then Cycle(i, 0x6fa87e4f, 0xfe2ce6e0, 0xa3014314, 0x4e0811a1)
    else Cycle(i, 0xf7537e82, 0xbd3af235, 0x2ad7d2bb, 0xeb86d391)
  }

  function Sine(i: nat): bv32 {
    if i < 16 then Sine1(i) else if i < 32 then Sine2(i) else if i < 48 then Sine3(i) else Sine4(i)
  }

  /** `x` shifted left circularly by `s` bits. */
  function Rotate(x: bv32, s: nat): bv32
    requires 0 < s < 32
  {
    (x << s) | (x >> (32 - s))
  }

  /** Addition of words, modulo 2^32. */
  function Add(x: bv32, y: bv32): bv32 { x + y }

  function Sum(a: bv32, f: bv32, x: bv32, t: bv32): bv32 { a + f + x + t }

  /** Operation `i`: the oldest word is replaced and the four roles move on by one place. */
  function Operation(i: nat, st: State, x: seq<bv32>): State
    requires |x| == 16
  {
    var sum := Sum(st.a, Aux(i, st.b, st.c, st.d), x[WordIndex(i)], Sine(i));
    State(st.d, Add(st.b, Rotate(sum, Amount(i))), st.b, st.c)
  }

  /** The state after the first `n` operations. */
  function Operations(n: nat, st: State, x: seq<bv32>): State
    requires |x| == 16
  {
    if n == 0 then st else Operation(n - 1, Operations(n - 1, st, x), x)
  }

  function Wide(b: byte): bv32 { b as bv32 }

  function Joined(b0: bv32, b1: bv32, b2: bv32, b3: bv32): bv32 {
    b0 | (b1 << 8) | (b2 << 16) | (b3 << 24)
  }

  /** Word `k` of a block, least significant byte first. */
  function WordAt(block: Bytes, k: nat): bv32
    requires 4 * k + 4 <= |block|
  {
    Joined(Wide(block[4 * k]), Wide(block[4 * k + 1]), Wide(block[4 * k + 2]), Wide(block[4 * k + 3]))
  }

  function Words(block: Bytes): (x: seq<bv32>)
    requires |block| == 64
    ensures |x| == 16
  {
    seq(16, k requires 0 <= k < 16 => WordAt(block, k))
  }

  function Compress(st: State, block: Bytes): State
    requires |block| == 64
  {
    var r := Operations(64, st, Words(block));
    State(Add(st.a, r.a), Add(st.b, r.b), Add(st.c, r.c), Add(st.d, r.d))
  }

  /** Section 3.4 over a whole message: complete blocks are compressed in order, a tail is ignored. */
  function Chain(st: State, m: Bytes): State
    decreases |m|
  {
    if |m| < 64 then st else Chain(Compress(st, m[..64]), m[64..])
  }

  // ---- Sections 3.1, 3.2, 3.3 and 3.5 ----

  const INITIAL := State(0x67452301, 0xefcdab89, 0x98badcfe, 0x10325476)

  /** The number of zero bytes that brings the message and the byte 0x80 to 56 modulo 64. */
  function ZeroCount(n: nat): (k: nat)
    ensures k < 64 && (n + 1 + k) % 64 == 56
  {
    (119 - n % 64) % 64
  }

  function Pad(m: Bytes): Bytes {
    m + [0x80] + Zeros(ZeroCount(|m|)) + LittleEndian(8 * |m| % 0x1_0000_0000_0000_0000, 8)
  }

  /** The least significant byte of a word. */
  function Low(w: bv32): byte { ((w & 0xff) as bv8) as byte }

  function WordBytes(w: bv32): (r: Bytes)
    ensures |r| == 4
  {
    [Low(w), Low(w >> 8), Low(w >> 16), Low(w >> 24)]
  }

  function Output(st: State): (r: Bytes)
    ensures |r| == 16
  {
    WordBytes(st.a) + WordBytes(st.b) + WordBytes(st.c) + WordBytes(st.d)
  }

  function Digest(m: Bytes): (r: Bytes)
    ensures |r| == 16
  {
    Output(Chain(INITIAL, Pad(m)))
  }

  // ---- Bytes in words ----

  lemma WideIsSmall(b: byte)
    ensures Wide(b) < 256
  {}

  lemma JoinedApart(b0: bv32, b1: bv32, b2: bv32, b3: bv32)
    requires b0 < 256 && b1 < 256 && b2 < 256 && b3 < 256
    ensures var w := Joined(b0, b1, b2, b3);
            w & 0xff == b0 && (w >> 8) & 0xff == b1 && (w >> 16) & 0xff == b2 && (w >> 24) & 0xff == b3
  {}

  /** Byte j of word k is byte 4k + j of the block. */
  lemma WordHoldsBytes(block: Bytes, k: nat)
    requires 4 * k + 4 <= |block|
    ensures var w := WordAt(block, k);
            && w & 0xff == block[4 * k] as bv32
            && (w >> 8) & 0xff == block[4 * k + 1] as bv32
            && (w >> 16) & 0xff == block[4 * k + 2] as bv32
            && (w >> 24) & 0xff == block[4 * k + 3] as bv32
  {
    BytesInWord(block, k);
    hide WordAt;
  }

  lemma BytesInWord(block: Bytes, k: nat)
    requires 4 * k + 4 <= |block|
    ensures var w := WordAt(block, k);
            && w & 0xff == Wide(block[4 * k])
            && (w >> 8) & 0xff == Wide(block[4 * k + 1])
            && (w >> 16) & 0xff == Wide(block[4 * k + 2])
            && (w >> 24) & 0xff == Wide(block[4 * k + 3])
  {
    WideIsSmall(block[4 * k]);
    WideIsSmall(block[4 * k + 1]);
    WideIsSmall(block[4 * k + 2]);
    WideIsSmall(block[4 * k + 3]);
    hide Wide, Joined;
    JoinedApart(Wide(block[4 * k]), Wide(block[4 * k + 1]), Wide(block[4 * k + 2]), Wide(block[4 * k + 3]));
  }

  function Narrow(b: byte): bv8 { b as bv8 }

  lemma NarrowIs(b: byte)
    ensures Wide(b) == Narrow(b) as bv32 && Narrow(b) as byte == b
  {}

  lemma LowOf(w: bv32, x: bv8)
    requires w & 0xff == x as bv32
    ensures Low(w) == x as byte
  {
    assert (w & 0xff) as bv8 == x;
  }

  /** A byte survives being widened and masked. */
  lemma LowOfWide(w: bv32, b: byte)
    requires w & 0xff == Wide(b)
    ensures Low(w) == b
  {
    NarrowIs(b);
    hide Wide, Narrow;
    LowOf(w, Narrow(b));
  }

  lemma SameBytes(w: bv32, b: Bytes)
    requires |b| == 4 && Low(w) == b[0] && Low(w >> 8) == b[1] && Low(w >> 16) == b[2] && Low(w >> 24) == b[3]
    ensures WordBytes(w) == b
  {
    hide Low;
  }

  /** Taking a block apart into words and the words into bytes gives the block back. */
  lemma BytesOfWord(block: Bytes, k: nat)
    requires 4 * k + 4 <= |block|
    ensures WordBytes(WordAt(block, k)) == block[4 * k..4 * k + 4]
  {
    hide *;
    var w, b := WordAt(block, k), block[4 * k..4 * k + 4];
    BytesInWord(block, k);
    LowOfWide(w, b[0]);
    LowOfWide(w >> 8, b[1]);
    LowOfWide(w >> 16, b[2]);
    LowOfWide(w >> 24, b[3]);
    SameBytes(w, b);
  }

  function Part0(w: bv32): bv32 { w & 0xff }

  function Part1(w: bv32): bv32 { (w >> 8) & 0xff }

  function Part2(w: bv32): bv32 { (w >> 16) & 0xff }

  function Part3(w: bv32): bv32 { (w >> 24) & 0xff }

  lemma SameParts(v: bv32, w: bv32)
    requires Part0(v) == Part0(w) && Part1(v) == Part1(w) && Part2(v) == Part2(w) && Part3(v) == Part3(w)
    ensures v == w
  {}

  lemma WideOfLow(w: bv32)
    ensures Wide(Low(w)) == w & 0xff
  {
    NarrowIs(Low(w));
    NarrowOfLow(w);
    hide Wide, Narrow, Low;
  }

  lemma NarrowOfLow(w: bv32)
    ensures Narrow(Low(w)) as bv32 == w & 0xff
  {}

  lemma PartsOfBytes(w: bv32)
    ensures var b := WordBytes(w);
            Wide(b[0]) == Part0(w) && Wide(b[1]) == Part1(w) && Wide(b[2]) == Part2(w) && Wide(b[3]) == Part3(w)
  {
    WideOfLow(w);
    WideOfLow(w >> 8);
    WideOfLow(w >> 16);
    WideOfLow(w >> 24);
    hide Wide, Low;
  }

  lemma PartsOfWord(block: Bytes, k: nat)
    requires 4 * k + 4 <= |block|
    ensures var b, w := block[4 * k..4 * k + 4], WordAt(block, k);
            Wide(b[0]) == Part0(w) && Wide(b[1]) == Part1(w) && Wide(b[2]) == Part2(w) && Wide(b[3]) == Part3(w)
  {
    BytesInWord(block, k);
    hide Wide, WordAt;
  }

  /** And the other way round: the word is the one with these bytes. */
  lemma WordOfBytes(block: Bytes, k: nat, w: bv32)
    requires 4 * k + 4 <= |block| && block[4 * k..4 * k + 4] == WordBytes(w)
    ensures WordAt(block, k) == w
  {
    hide *;
    PartsOfWord(block, k);
    PartsOfBytes(w);
    SameParts(WordAt(block, k), w);
  }
}
