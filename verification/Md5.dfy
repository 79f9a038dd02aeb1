/** The streaming digest of kbase/md5.cpp, proved against the one-shot definition in Md5Spec. */
module Md5 {
  import opened ByteOrder
  import opened Sequences
  import opened Md5Spec
  import opened Md5Compress

  type uint32 = x: int | 0 <= x < 0x1_0000_0000

  const WRAP29 := 0x2000_0000
  const WRAP32 := 0x1_0000_0000
  const WRAP61 := 0x2000_0000_0000_0000

  // ---- Facts about the chaining of blocks ----

  /** Compressing n blocks in one call equals compressing them over two calls. */
  lemma {:induction false} ChainAppend(st: State, x: Bytes, y: Bytes)
    requires |x| % 64 == 0
    ensures Chain(st, x + y) == Chain(Chain(st, x), y)
    decreases |x|
  {
    if x == [] {
      assert x + y == y;
    } else {
      assert (x + y)[..64] == x[..64] && (x + y)[64..] == x[64..] + y;
      ChainAppend(Compress(st, x[..64]), x[64..], y);
    }
  }

  lemma ChainShort(st: State, x: Bytes)
    requires |x| < 64
    ensures Chain(st, x) == st
  {}

  lemma ChainBlock(st: State, block: Bytes)
    requires |block| == 64
    ensures Chain(st, block) == Compress(st, block)
  {
    assert block[..64] == block;
  }

  lemma {:induction false} ChainIgnoresTail(st: State, x: Bytes, tail: Bytes)
    requires |x| % 64 == 0 && |tail| < 64
    ensures Chain(st, x + tail) == Chain(st, x)
  {
    ChainAppend(st, x, tail);
  }

  // ---- Facts about the length bytes ----

  /** The low word of the bit count fills the first four bytes, the high word the last four. */
  lemma SplitLength(hi: nat, lo: nat)
    requires hi < WRAP32 && lo < WRAP29
    ensures LittleEndian(8 * (hi * WRAP29 + lo), 8) == LittleEndian(8 * lo, 4) + LittleEndian(hi, 4)
  {
    assert Pow256(4) == WRAP32;
    LittleEndianSplit(hi, 8 * lo, 4, 4);
  }

  /** The two counter fields hold n modulo 2^61. */
  predicate Counts(hi: nat, lo: nat, n: nat) {
    lo < WRAP29 && hi * WRAP29 + lo == n % WRAP61
  }

  /** The two counter fields add `size` to the byte count modulo 2^61. */
  lemma CounterStep(hi: uint32, lo: uint32, n: nat, size: nat, lo': nat, hi': nat)
    requires Counts(hi, lo, n)
    requires lo' == (lo + size) % WRAP29
    requires hi' == ((if lo' < lo then (hi + 1) % WRAP32 else hi) + size / WRAP29 % WRAP32) % WRAP32
    ensures Counts(hi', lo', n + size)
  {
    var carry := LowStep(lo, size, lo');
    var q := size / WRAP29;
    var k := HighStep(hi + carry, q, hi');
    Mod61(n + size, n / WRAP61 + k, hi' * WRAP29 + lo');
  }

  lemma HighStep(h: nat, q: nat, hi': nat) returns (k: nat)
    requires hi' == (h % WRAP32 + q % WRAP32) % WRAP32
    ensures h + q == k * WRAP32 + hi'
  {
    k := h / WRAP32 + q / WRAP32 + (h % WRAP32 + q % WRAP32) / WRAP32;
  }

  lemma LowStep(lo: nat, size: nat, lo': nat) returns (carry: nat)
    requires lo < WRAP29 && lo' == (lo + size) % WRAP29
    ensures carry == (if lo' < lo then 1 else 0)
    ensures lo + size == (size / WRAP29 + carry) * WRAP29 + lo'
  {
    carry := if lo + size % WRAP29 < WRAP29 then 0 else 1;
  }

  lemma Mod61(n: int, q: int, r: int)
    requires 0 <= r < WRAP61 && n == q * WRAP61 + r
    ensures n % WRAP61 == r
  {}

  /** The number of carried-over bytes can be read off the low counter field. */
  lemma CounterTail(hi: nat, lo: nat, blocks: Bytes, carry: Bytes)
    requires |blocks| % 64 == 0 && |carry| < 64
    requires Counts(hi, lo, |blocks + carry|)
    ensures lo % 64 == |carry|
  {
    var n := |blocks| + |carry|;
    assert n == 64 * (n / WRAP61 * (WRAP61 / 64) + hi * (WRAP29 / 64)) + lo;
  }

  /** Filling the buffer up moves a complete block out of the carry. */
  lemma Spill(x: Bytes, y: Bytes, data: Bytes, free: nat)
    requires free <= |data|
    ensures (x + (y + data[..free])) + data[free..] == (x + y) + data
  {}

  class MD5Context {
    var lo: uint32
    var hi: uint32
    var a: bv32
    var b: bv32
    var c: bv32
    var d: bv32
    const buffer: array<byte>

    /** The complete blocks passed to Update since Init, and the bytes after them. */
    ghost var blocks: Bytes
    ghost var carry: Bytes

    ghost function Message(): Bytes
      reads this
    {
      blocks + carry
    }

    ghost function Chained(): State
      reads this
    {
      State(a, b, c, d)
    }

    ghost predicate Counted()
      reads this
    {
      Counts(hi, lo, |Message()|)
    }

    /** The registers hold the chain over the complete blocks, the buffer starts with the rest. */
    ghost predicate Valid()
      reads this, buffer
    {
      && buffer.Length == 64
      && Counted()
      && |blocks| % 64 == 0 && |carry| < 64
      && Chained() == Chain(INITIAL, blocks)
      && buffer[..|carry|] == carry
    }

    /** A context as its owner declares it, before Init: every field is arbitrary. */
    constructor (anyLo: uint32, anyHi: uint32, any: State)
      ensures buffer.Length == 64 && fresh(buffer)
    {
      buffer := new byte[64](_ => 0);
      lo, hi, a, b, c, d := anyLo, anyHi, any.a, any.b, any.c, any.d;
      blocks, carry := [], [];
    }

    method Init()
      requires buffer.Length == 64
      modifies this
      ensures Valid() && Message() == []
    {
      a, b, c, d := 0x67452301, 0xefcdab89, 0x98badcfe, 0x10325476;
      lo, hi := 0, 0;
      blocks, carry := [], [];
    }

    /** Compresses the complete blocks of `data` in place, without touching the counters. */
    method Transform(data: Bytes)
      requires |data| > 0 && |data| % 64 == 0
      modifies `a, `b, `c, `d
      ensures Chained() == Chain(old(Chained()), data)
    {
      hide Chain, Compress, Operations;
      var ra, rb, rc, rd := a, b, c, d;
      var ptr, size := 0, |data|;
      ChainShort(Chained(), data[..0]);
      while size != 0
        invariant size % 64 == 0 && 0 <= size && ptr + size == |data|
        invariant State(ra, rb, rc, rd) == Chain(old(Chained()), data[..ptr])
      {
        ghost var st := State(ra, rb, rc, rd);
        var block := data[ptr..ptr + 64];
        ra, rb, rc, rd := CompressBlock(ra, rb, rc, rd, block);
        ChainAppend(old(Chained()), data[..ptr], block);
        ChainBlock(st, block);
        assert data[..ptr] + block == data[..ptr + 64];
        ptr, size := ptr + 64, size - 64;
      }
      assert data[..ptr] == data;
      a, b, c, d := ra, rb, rc, rd;
    }

    /** memcpy into the carry buffer. */
    method CopyIn(at: nat, source: Bytes)
      requires at + |source| <= buffer.Length
      modifies buffer
      ensures buffer[..at + |source|] == old(buffer[..at]) + source
      ensures buffer[at + |source|..] == old(buffer[at + |source|..])
    {
      forall i | 0 <= i < |source| {
        buffer[at + i] := source[i];
      }
    }

    /** The byte counter of Update: 29 bits in `lo`, the rest in `hi`. */
    method Count(size: nat)
      requires Counted()
      modifies `lo, `hi
      ensures Counts(hi, lo, |Message()| + size)
    {
      var savedLo := lo;
      ghost var savedHi := hi;
      lo := (savedLo + size) % WRAP29;
      if lo < savedLo {
        hi := (hi + 1) % WRAP32;
      }
      hi := (hi + size / WRAP29 % WRAP32) % WRAP32;
      CounterStep(savedHi, savedLo, |Message()|, size, lo, hi);
    }

    method Update(data: Bytes)
      requires Valid()
      modifies this, buffer
      ensures Valid() && Message() == old(Message()) + data
    {
      hide Chain, Compress, Operations, Counts;
      var size := |data|;
      var used := lo % 64;
      CounterTail(hi, lo, blocks, carry);
      Count(size);
      if used != 0 {
        var free := 64 - used;
        if size < free {
          CopyIn(used, data);
          Associate(blocks, carry, data);
          carry := carry + data;
          return;
        }
        Spill(blocks, carry, data, free);
        FillBuffer(used, data[..free]);
        AbsorbBlocks(data[free..]);
      } else {
        assert blocks + carry == blocks;
        AbsorbBlocks(data);
      }
    }

    /** The middle of Update: the carried bytes and the first of the new ones make a block. */
    method FillBuffer(used: nat, piece: Bytes)
      requires buffer.Length == 64 && used == |carry| && used + |piece| == 64
      requires buffer[..used] == carry
      requires |blocks| % 64 == 0 && Chained() == Chain(INITIAL, blocks)
      modifies `a, `b, `c, `d, `blocks, `carry, buffer
      ensures blocks == old(blocks + (carry + piece)) && |blocks| % 64 == 0
      ensures Chained() == Chain(INITIAL, blocks)
    {
      hide Chain, Compress, Operations, Counts;
      CopyIn(used, piece);
      ghost var filled := carry + piece;
      assert buffer[..] == buffer[..64] == filled;
      Transform(buffer[..]);
      ChainAppend(INITIAL, blocks, filled);
      blocks := blocks + filled;
    }

    /** The end of Update: complete blocks straight from the input, then the tail into the buffer. */
    method AbsorbBlocks(data: Bytes)
      requires buffer.Length == 64 && Counts(hi, lo, |blocks| + |data|)
      requires |blocks| % 64 == 0 && Chained() == Chain(INITIAL, blocks)
      modifies `a, `b, `c, `d, `blocks, `carry, buffer
      ensures Valid() && Message() == old(blocks) + data
    {
      hide Chain, Compress, Operations, Counts;
      var size, rest := |data|, data;
      if size >= 64 {
        var whole := size - size % 64;
        Transform(rest[..whole]);
        ChainAppend(INITIAL, blocks, rest[..whole]);
        Associate(blocks, rest[..whole], rest[whole..]);
        assert rest == rest[..whole] + rest[whole..];
        blocks := blocks + rest[..whole];
        rest := rest[whole..];
        size := size % 64;
      }
      CopyIn(0, rest);
      carry := rest;
    }

    /** memset on the carry buffer. */
    method Clear(at: nat, count: nat)
      requires at + count <= buffer.Length
      modifies buffer
      ensures buffer[..at + count] == old(buffer[..at]) + Zeros(count)
      ensures buffer[at + count..] == old(buffer[at + count..])
    {
      forall i | 0 <= i < count {
        buffer[at + i] := 0;
      }
    }

    /** Pads in place, compresses the last one or two blocks and wipes the context. */
    method Final(digest: array<byte>)
      requires Valid() && digest.Length == 16 && digest != buffer
      modifies this, buffer, digest
      ensures digest[..] == Digest(old(Message()))
      ensures lo == 0 && hi == 0 && Chained() == State(0, 0, 0, 0) && buffer[..] == Zeros(64)
    {
      hide Chain, Compress, Operations, Digest, Counts, Zeros, ZeroCount;
      ghost var front := StartPadding();
      FinishPadding(front, digest);
    }

    /** The middle of Final: 0x80 and zeros, in one block or two, up to the place of the length. */
    method StartPadding() returns (ghost front: Bytes)
      requires Valid()
      modifies `a, `b, `c, `d, buffer
      ensures |front| % 64 == 0 && Chained() == Chain(INITIAL, front)
      ensures front + buffer[..56] == Message() + [0x80] + Zeros(ZeroCount(|Message()|))
    {
      hide Counts, Chain, Compress, Operations, Zeros, ZeroCount;
      CounterTail(hi, lo, blocks, carry);
      var used := lo % 64;
      ghost var tail := carry + [0x80];
      buffer[used] := 0x80;
      used := used + 1;
      assert buffer[..used] == tail;
      var free := 64 - used;
      front := blocks;
      if free < 8 {
        Clear(used, free);
        ghost var head := tail + Zeros(free);
        assert buffer[..] == buffer[..64] == head;
        Transform(buffer[..]);
        used := 0;
        free := 64;
        ChainAppend(INITIAL, blocks, head);
        front := blocks + head;
      }
      Clear(used, free - 8);
      PaddedTail(blocks, carry, front, buffer[..56]);
    }

    /** The end of Final: the bit count completes the padded message. */
    method FinishPadding(ghost front: Bytes, digest: array<byte>)
      requires buffer.Length == 64 && digest.Length == 16 && digest != buffer
      requires Counted()
      requires |front| % 64 == 0 && Chained() == Chain(INITIAL, front)
      requires front + buffer[..56] == Message() + [0x80] + Zeros(ZeroCount(|Message()|))
      modifies this, buffer, digest
      ensures digest[..] == Digest(old(Message()))
      ensures lo == 0 && hi == 0 && Chained() == State(0, 0, 0, 0) && buffer[..] == Zeros(64)
    {
      hide Counts, Chain, Compress, Operations, LittleEndian, Output, Zeros, ZeroCount, Pad;
      ghost var body := buffer[..56];
      LengthBytes(hi, lo, |Message()|);
      Padded(Message(), front + body);
      lo := lo * 8 % WRAP32;
      StoreLength();
      ghost var last := body + LittleEndian(lo, 4) + LittleEndian(hi, 4);
      assert buffer[..] == last;
      Transform(buffer[..]);
      ChainAppend(INITIAL, front, last);
      Associate(front, body, LittleEndian(lo, 4) + LittleEndian(hi, 4));
      Associate(body, LittleEndian(lo, 4), LittleEndian(hi, 4));
      StoreDigest(digest);
      lo, hi, a, b, c, d := 0, 0, 0, 0, 0, 0;
      Clear(0, 64);
      assert buffer[..] == buffer[..64];
    }

    /** The eight bytes of the bit count, at offset 56. */
    method StoreLength()
      requires buffer.Length == 64
      modifies buffer
      ensures buffer[..] == old(buffer[..56]) + LittleEndian(lo, 4) + LittleEndian(hi, 4)
    {
      buffer[56] := (lo % 256) as byte;
      buffer[57] := (lo / 0x100 % 256) as byte;
      buffer[58] := (lo / 0x1_0000 % 256) as byte;
      buffer[59] := (lo / 0x100_0000 % 256) as byte;
      buffer[60] := (hi % 256) as byte;
      buffer[61] := (hi / 0x100 % 256) as byte;
      buffer[62] := (hi / 0x1_0000 % 256) as byte;
      buffer[63] := (hi / 0x100_0000 % 256) as byte;
      FourBytes(lo);
      FourBytes(hi);
    }

    /** Registers a to d, each least significant byte first. */
    method StoreDigest(digest: array<byte>)
      requires digest.Length == 16
      modifies digest
      ensures digest[..] == Output(Chained())
    {
      hide Low, WordBytes;
      StoreWord(digest, 0, a);
      StoreWord(digest, 4, b);
      StoreWord(digest, 8, c);
      StoreWord(digest, 12, d);
      assert digest[..] == digest[..16];
    }
  }

  method StoreWord(digest: array<byte>, at: nat, w: bv32)
    requires at + 4 <= digest.Length
    modifies digest
    ensures digest[..at + 4] == old(digest[..at]) + WordBytes(w)
    ensures digest[at + 4..] == old(digest[at + 4..])
  {
    hide Low;
    digest[at] := Low(w);
    digest[at + 1] := Low(w >> 8);
    digest[at + 2] := Low(w >> 16);
    digest[at + 3] := Low(w >> 24);
  }

  lemma FourBytes(n: nat)
    ensures LittleEndian(n, 4) ==
            [(n % 256) as byte, (n / 0x100 % 256) as byte, (n / 0x1_0000 % 256) as byte, (n / 0x100_0000 % 256) as byte]
  {
    assert LittleEndian(n / 0x100_0000, 1) == [(n / 0x100_0000 % 256) as byte];
    assert LittleEndian(n / 0x1_0000, 2) == [(n / 0x1_0000 % 256) as byte] + LittleEndian(n / 0x100_0000, 1);
    assert LittleEndian(n / 0x100, 3) == [(n / 0x100 % 256) as byte] + LittleEndian(n / 0x1_0000, 2);
  }

  lemma Mod64(n: int, q: int, r: int)
    requires 0 <= r < 8 * WRAP61 && n == q * (8 * WRAP61) + r
    ensures n % 0x1_0000_0000_0000_0000 == r
  {}

  /** The bytes Final stores are 8 times the byte count modulo 2^64. */
  lemma LengthBytes(hi: uint32, lo: uint32, n: nat)
    requires Counts(hi, lo, n)
    ensures LittleEndian(8 * n % 0x1_0000_0000_0000_0000, 8) ==
            LittleEndian(lo * 8 % WRAP32, 4) + LittleEndian(hi, 4)
  {
    var r := n % WRAP61;
    Mod64(8 * n, n / WRAP61, 8 * r);
    assert lo * 8 % WRAP32 == 8 * lo;
    SplitLength(hi, lo);
  }

  lemma Padded(message: Bytes, front: Bytes)
    requires front == message + [0x80] + Zeros(ZeroCount(|message|))
    ensures front + LittleEndian(8 * |message| % 0x1_0000_0000_0000_0000, 8) == Pad(message)
  {
    hide LittleEndian, Zeros, ZeroCount;
  }

  /** Where the two padding branches of Final leave the message: complete but for the length. */
  lemma PaddedTail(blocks: Bytes, carry: Bytes, front: Bytes, body: Bytes)
    requires |blocks| % 64 == 0 && |carry| < 64
    requires var tail := carry + [0x80];
             if 64 - |tail| < 8 then front == blocks + (tail + Zeros(64 - |tail|)) && body == Zeros(56)
             else front == blocks && body == tail + Zeros(56 - |tail|)
    ensures front + body == blocks + carry + [0x80] + Zeros(ZeroCount(|blocks + carry|))
  {
    var tail := carry + [0x80];
    assert ZeroCount(|blocks + carry|) == if 64 - |tail| < 8 then 120 - |tail| else 56 - |tail|;
  }

  /** One-shot digest. */
  method MD5Sum(data: Bytes, digest: array<byte>)
    requires digest.Length == 16
    modifies digest
    ensures digest[..] == Digest(data)
  {
    hide Digest, Chain, Counts, INITIAL;
    var context := new MD5Context(0, 0, INITIAL);
    context.Init();
    context.Update(data);
    assert [] + data == data;
    context.Final(digest);
  }

  function Concatenation(pieces: seq<Bytes>): Bytes {
    if pieces == [] then [] else Concatenation(pieces[..|pieces| - 1]) + pieces[|pieces| - 1]
  }

  /** However a message is cut into pieces, empty ones included, the digest is that of the whole. */
  method DigestOfPieces(pieces: seq<Bytes>, digest: array<byte>)
    requires digest.Length == 16
    modifies digest
    ensures digest[..] == Digest(Concatenation(pieces))
  {
    hide Digest, Chain, Counts, INITIAL;
    var context := new MD5Context(0, 0, INITIAL);
    context.Init();
    for i := 0 to |pieces|
      invariant context.Valid() && fresh(context) && fresh(context.buffer)
      invariant context.Message() == Concatenation(pieces[..i])
    {
      context.Update(pieces[i]);
      assert pieces[..i + 1][..i] == pieces[..i];
    }
    assert pieces[..|pieces|] == pieces;
    context.Final(digest);
  }
}
