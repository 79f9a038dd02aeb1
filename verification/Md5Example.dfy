/** The digest of a known message (tests/md5_unittest.cpp:16), computed from the definition step by step. */
module Md5Example {
  import opened ByteOrder
  import opened Md5Spec
  import opened Md5Compress

  /** "The quick brown fox jumps over the lazy dog" */
  const FOX: Bytes := ROW0 + ROW1 + REST

  const ROW0: Bytes :=
    [0x54, 0x68, 0x65, 0x20] + [0x71, 0x75, 0x69, 0x63] + [0x6b, 0x20, 0x62, 0x72] + [0x6f, 0x77, 0x6e, 0x20]

  const ROW1: Bytes :=
    [0x66, 0x6f, 0x78, 0x20] + [0x6a, 0x75, 0x6d, 0x70] + [0x73, 0x20, 0x6f, 0x76] + [0x65, 0x72, 0x20, 0x74]

  const REST: Bytes :=
    [0x68, 0x65, 0x20, 0x6c] + [0x61, 0x7a, 0x79, 0x20] + [0x64, 0x6f, 0x67]

  // Followed by 0x80, twelve zeros, and the length of 344 bits.

  const ROW2: Bytes :=
    [0x68, 0x65, 0x20, 0x6c] + [0x61, 0x7a, 0x79, 0x20] + [0x64, 0x6f, 0x67, 0x80] + [0x00, 0x00, 0x00, 0x00]

  const ROW3: Bytes :=
    [0x00, 0x00, 0x00, 0x00] + [0x00, 0x00, 0x00, 0x00] + [0x58, 0x01, 0x00, 0x00] + [0x00, 0x00, 0x00, 0x00]

  lemma PaddedFox()
    ensures Pad(FOX) == ROW0 + ROW1 + ROW2 + ROW3
  {
    assert |ROW0| == 16 && |ROW1| == 16 && |FOX| == 43 && ZeroCount(43) == 12;
    LengthOfFox();
    ZerosOfFox();
    hide LittleEndian, Zeros;
    var zeros: Bytes := [0, 0, 0, 0];
    var more: Bytes := [0, 0, 0, 0, 0, 0, 0, 0];
    RowsOfPadding();
    Regrouped(ROW0 + ROW1, REST, [0x80], zeros, more, [0x58, 1, 0, 0, 0, 0, 0, 0]);
  }

  lemma RowsOfPadding()
    ensures REST + [0x80] + [0, 0, 0, 0] == ROW2
    ensures [0, 0, 0, 0, 0, 0, 0, 0] + [0x58, 1, 0, 0, 0, 0, 0, 0] == ROW3
  {
    assert [0x64, 0x6f, 0x67] + [0x80] == [0x64, 0x6f, 0x67, 0x80];
  }

  lemma LengthOfFox()
    ensures LittleEndian(344, 8) == [0x58, 1, 0, 0, 0, 0, 0, 0]
  {}

  lemma ZerosOfFox()
    ensures Zeros(12) == [0, 0, 0, 0] + [0, 0, 0, 0, 0, 0, 0, 0]
  {}

  lemma Regrouped(a: Bytes, b: Bytes, c: Bytes, d: Bytes, e: Bytes, f: Bytes)
    ensures a + b + c + (d + e) + f == a + (b + c + d) + (e + f)
  {}

  predicate Has(x: seq<bv32>, k: nat, w: bv32) {
    |x| == 16 && k < 16 && x[k] == w
  }

  /** The words of the one block. */
  predicate FoxWords(x: seq<bv32>) {
    && Has(x, 0, 0x20656854) && Has(x, 1, 0x63697571)
    && Has(x, 2, 0x7262206b) && Has(x, 3, 0x206e776f)
    && Has(x, 4, 0x20786f66) && Has(x, 5, 0x706d756a)
    && Has(x, 6, 0x766f2073) && Has(x, 7, 0x74207265)
    && Has(x, 8, 0x6c206568) && Has(x, 9, 0x20797a61)
    && Has(x, 10, 0x80676f64) && Has(x, 11, 0x00000000)
    && Has(x, 12, 0x00000000) && Has(x, 13, 0x00000000)
    && Has(x, 14, 0x00000158) && Has(x, 15, 0x00000000)
  }

  lemma WordsAre(block: Bytes, q: nat, w0: bv32, w1: bv32, w2: bv32, w3: bv32)
    requires |block| == 64 && q < 4
    requires block[16 * q..16 * q + 16] == WordBytes(w0) + WordBytes(w1) + WordBytes(w2) + WordBytes(w3)
    ensures Has(Words(block), 4 * q, w0) && Has(Words(block), 4 * q + 1, w1)
    ensures Has(Words(block), 4 * q + 2, w2) && Has(Words(block), 4 * q + 3, w3)
  {
    hide WordAt, WordBytes;
    Quarters(block, 16 * q, WordBytes(w0), WordBytes(w1), WordBytes(w2), WordBytes(w3));
    WordOfBytes(block, 4 * q, w0);
    WordOfBytes(block, 4 * q + 1, w1);
    WordOfBytes(block, 4 * q + 2, w2);
    WordOfBytes(block, 4 * q + 3, w3);
  }

  lemma Quarters(s: Bytes, i: nat, a: Bytes, b: Bytes, c: Bytes, d: Bytes)
    requires i + 16 <= |s| && |a| == |b| == |c| == |d| == 4 && s[i..i + 16] == a + b + c + d
    ensures s[i..i + 4] == a && s[i + 4..i + 8] == b && s[i + 8..i + 12] == c && s[i + 12..i + 16] == d
  {
    var t := s[i..i + 16];
    assert t[0..4] == a && t[4..8] == b && t[8..12] == c && t[12..16] == d;
    SliceOfSlice(s, i, i + 16, 0, 4);
    SliceOfSlice(s, i, i + 16, 4, 8);
    SliceOfSlice(s, i, i + 16, 8, 12);
    SliceOfSlice(s, i, i + 16, 12, 16);
  }

  lemma SliceOfSlice(s: Bytes, a: nat, b: nat, c: nat, d: nat)
    requires a <= b <= |s| && c <= d <= b - a
    ensures s[a..b][c..d] == s[a + c..a + d]
  {
    var t, u := s[a..b][c..d], s[a + c..a + d];
    assert forall i :: 0 <= i < d - c ==> t[i] == s[a..b][c + i] == u[i];
  }

  lemma BytesOfRow0()
    ensures WordBytes(0x20656854) == [0x54, 0x68, 0x65, 0x20]
    ensures WordBytes(0x63697571) == [0x71, 0x75, 0x69, 0x63]
    ensures WordBytes(0x7262206b) == [0x6b, 0x20, 0x62, 0x72]
    ensures WordBytes(0x206e776f) == [0x6f, 0x77, 0x6e, 0x20]
  {}

  lemma WordsOfRow0(block: Bytes)
    requires |block| == 64 && block[0..16] == ROW0
    ensures Has(Words(block), 0, 0x20656854) && Has(Words(block), 1, 0x63697571)
    ensures Has(Words(block), 2, 0x7262206b) && Has(Words(block), 3, 0x206e776f)
  {
    BytesOfRow0();
    hide Has, Words, WordBytes;
    WordsAre(block, 0, 0x20656854, 0x63697571, 0x7262206b, 0x206e776f);
  }

  lemma BytesOfRow1()
    ensures WordBytes(0x20786f66) == [0x66, 0x6f, 0x78, 0x20]
    ensures WordBytes(0x706d756a) == [0x6a, 0x75, 0x6d, 0x70]
    ensures WordBytes(0x766f2073) == [0x73, 0x20, 0x6f, 0x76]
    ensures WordBytes(0x74207265) == [0x65, 0x72, 0x20, 0x74]
  {}

  lemma WordsOfRow1(block: Bytes)
    requires |block| == 64 && block[16..32] == ROW1
    ensures Has(Words(block), 4, 0x20786f66) && Has(Words(block), 5, 0x706d756a)
    ensures Has(Words(block), 6, 0x766f2073) && Has(Words(block), 7, 0x74207265)
  {
    BytesOfRow1();
    hide Has, Words, WordBytes;
    WordsAre(block, 1, 0x20786f66, 0x706d756a, 0x766f2073, 0x74207265);
  }

  lemma BytesOfRow2()
    ensures WordBytes(0x6c206568) == [0x68, 0x65, 0x20, 0x6c]
    ensures WordBytes(0x20797a61) == [0x61, 0x7a, 0x79, 0x20]
    ensures WordBytes(0x80676f64) == [0x64, 0x6f, 0x67, 0x80]
    ensures WordBytes(0x00000000) == [0x00, 0x00, 0x00, 0x00]
  {}

  lemma WordsOfRow2(block: Bytes)
    requires |block| == 64 && block[32..48] == ROW2
    ensures Has(Words(block), 8, 0x6c206568) && Has(Words(block), 9, 0x20797a61)
    ensures Has(Words(block), 10, 0x80676f64) && Has(Words(block), 11, 0x00000000)
  {
    BytesOfRow2();
    hide Has, Words, WordBytes;
    WordsAre(block, 2, 0x6c206568, 0x20797a61, 0x80676f64, 0x00000000);
  }

  lemma BytesOfRow3()
    ensures WordBytes(0x00000000) == [0x00, 0x00, 0x00, 0x00]
    ensures WordBytes(0x00000000) == [0x00, 0x00, 0x00, 0x00]
    ensures WordBytes(0x00000158) == [0x58, 0x01, 0x00, 0x00]
    ensures WordBytes(0x00000000) == [0x00, 0x00, 0x00, 0x00]
  {}

  lemma WordsOfRow3(block: Bytes)
    requires |block| == 64 && block[48..64] == ROW3
    ensures Has(Words(block), 12, 0x00000000) && Has(Words(block), 13, 0x00000000)
    ensures Has(Words(block), 14, 0x00000158) && Has(Words(block), 15, 0x00000000)
  {
    BytesOfRow3();
    hide Has, Words, WordBytes;
    WordsAre(block, 3, 0x00000000, 0x00000000, 0x00000158, 0x00000000);
  }

  lemma WordsOfFox()
    ensures |Pad(FOX)| == 64 && FoxWords(Words(Pad(FOX)))
  {
    PaddedFox();
    var block := Pad(FOX);
    assert block[0..16] == ROW0 && block[16..32] == ROW1 && block[32..48] == ROW2 && block[48..64] == ROW3;
    hide Pad, Has, Words;
    WordsOfRow0(block);
    WordsOfRow1(block);
    WordsOfRow2(block);
    WordsOfRow3(block);
  }

  /** Operation `i` with what it computes on the way: auxiliary function, sum, rotation and new word. */
  lemma Traced(i: nat, k: nat, s: nat, t: bv32, st: State, x: seq<bv32>, u: State,
               w: bv32, f: bv32, sum: bv32, rotated: bv32, n: bv32)
    requires Has(x, k, w) && 0 < s < 32 && Scheduled(i, k, s, t) && Operations(i, st, x) == u
    requires Aux(i, u.b, u.c, u.d) == f && Sum(u.a, f, w, t) == sum
    requires Rotate(sum, s) == rotated && Add(u.b, rotated) == n
    ensures Operations(i + 1, st, x) == State(u.d, n, u.b, u.c)
  {
    hide Aux, Sum, Rotate, Add, Sine, Amount, WordIndex;
  }

  lemma FirstRound(x: seq<bv32>, st: State)
    requires |x| == 16 && FoxWords(x) && Operations(0, st, x) == State(0x67452301, 0xefcdab89, 0x98badcfe, 0x10325476)
    ensures Operations(16, st, x) == State(0xd83df4bd, 0x5f98dbfa, 0xba2a7422, 0xb9f6e20c)
  {
    Schedule1();
    hide Operations, Has, Scheduled;
    Traced(0, 0, 7, 0xd76aa478, st, x, State(0x67452301, 0xefcdab89, 0x98badcfe, 0x10325476),
           0x20656854, 0x98badcfe, 0xf7d00ccb, 0xe80665fb, 0xd7d41184);
    Traced(1, 1, 12, 0xe8c7b756, st, x, State(0x10325476, 0xd7d41184, 0xefcdab89, 0x98badcfe),
           0x63697571, 0xcfeecdfa, 0x2c524f37, 0x24f372c5, 0xfcc78449);
    Traced(2, 2, 17, 0x242070db, st, x, State(0x98badcfe, 0xfcc78449, 0xd7d41184, 0xefcdab89),
           0x7262206b, 0xd7cc2b80, 0x070999c4, 0x33880e13, 0x304f925c);
    Traced(3, 3, 22, 0xc1bdceee, st, x, State(0xefcdab89, 0x304f925c, 0xfcc78449, 0xd7d41184),
           0x206e776f, 0xf7d781c8, 0xc9d173ae, 0xebb2745c, 0x1c0206b8);
    Traced(4, 4, 7, 0xf57c0faf, st, x, State(0xd7d41184, 0x1c0206b8, 0x304f925c, 0xfcc78449),
           0x20786f66, 0xf0c78259, 0xde9012f2, 0x4809796f, 0x640b8027);
    Traced(5, 5, 12, 0x4787c62a, st, x, State(0xfcc78449, 0x640b8027, 0x1c0206b8, 0x304f925c),
           0x706d756a, 0x14461278, 0xc902d255, 0x2d255c90, 0x9130dcb7);
    Traced(6, 6, 17, 0xa8304613, st, x, State(0x304f925c, 0x9130dcb7, 0x640b8027, 0x1c0206b8),
           0x766f2073, 0x0c02822f, 0x5af17b11, 0xf622b5e2, 0x87539299);
    Traced(7, 7, 22, 0xfd469501, st, x, State(0x1c0206b8, 0x87539299, 0x9130dcb7, 0x640b8027),
           0x74207265, 0xe11890b7, 0x6e819ed5, 0xb55ba067, 0x3caf3300);
    Traced(8, 8, 7, 0x698098d8, st, x, State(0x640b8027, 0x3caf3300, 0x87539299, 0x9130dcb7),
           0x6c206568, 0x8513deb7, 0xbec05d1e, 0x602e8f5f, 0x9cddc25f);
    Traced(9, 9, 12, 0x8b44f7af, st, x, State(0x9130dcb7, 0x9cddc25f, 0x3caf3300, 0x87539299),
           0x20797a61, 0x1f8f1280, 0x5c7e6147, 0xe61475c7, 0x82f23826);
    Traced(10, 10, 17, 0xffff5bb1, st, x, State(0x87539299, 0x82f23826, 0x9cddc25f, 0x3caf3300),
           0x80676f64, 0xbcdd0306, 0xc49760b4, 0xc169892e, 0x445bc154);
    Traced(11, 11, 22, 0x895cd7be, st, x, State(0x3caf3300, 0x445bc154, 0x82f23826, 0x9cddc25f),
           0x00000000, 0x98d6020f, 0x5ee20ccd, 0x3357b883, 0x77b379d7);
    Traced(12, 12, 7, 0x6b901122, st, x, State(0x9cddc25f, 0x77b379d7, 0x445bc154, 0x82f23826),
           0x00000000, 0xc4534174, 0xccc114f5, 0x608a7ae6, 0xd83df4bd);
    Traced(13, 13, 12, 0xfd987193, st, x, State(0x82f23826, 0xd83df4bd, 0x77b379d7, 0x445bc154),
           0x00000000, 0x547371d5, 0xd4fe1b8e, 0xe1b8ed4f, 0xb9f6e20c);
    Traced(14, 14, 17, 0xa679438e, st, x, State(0x445bc154, 0xb9f6e20c, 0xd83df4bd, 0x77b379d7),
           0x00000158, 0xde35f9df, 0xc90b0019, 0x00339216, 0xba2a7422);
    Traced(15, 15, 22, 0x49b40821, st, x, State(0x77b379d7, 0xba2a7422, 0xb9f6e20c, 0xd83df4bd),
           0x00000000, 0xf837e09d, 0xb99f6295, 0xa56e67d8, 0x5f98dbfa);
  }

  lemma SecondRound(x: seq<bv32>, st: State)
    requires |x| == 16 && FoxWords(x) && Operations(16, st, x) == State(0xd83df4bd, 0x5f98dbfa, 0xba2a7422, 0xb9f6e20c)
    ensures Operations(32, st, x) == State(0x783665b1, 0xa14e96ed, 0xced65265, 0xd7e7680d)
  {
    Schedule2();
    hide Operations, Has, Scheduled;
    Traced(16, 1, 5, 0xf61e2562, st, x, State(0xd83df4bd, 0x5f98dbfa, 0xba2a7422, 0xb9f6e20c),
           0x63697571, 0x1b98d62a, 0x4d5e65ba, 0xabccb749, 0x0b659343);
    Traced(17, 6, 9, 0xc040b340, st, x, State(0xb9f6e20c, 0x0b659343, 0x5f98dbfa, 0xba2a7422),
           0x766f2073, 0x4fb09bda, 0x40575199, 0xaea33280, 0xba08c5c3);
    Traced(18, 11, 14, 0x265e5a51, st, x, State(0xba2a7422, 0xba08c5c3, 0x0b659343, 0x5f98dbfa),
           0x00000000, 0x1a6dc1c3, 0xfaf69036, 0xa40dbebd, 0x5e168480);
    Traced(19, 0, 20, 0xe9b6c7aa, st, x, State(0x5f98dbfa, 0x5e168480, 0xba08c5c3, 0x0b659343),
           0x20656854, 0xba0cc480, 0x23c1d078, 0x07823c1d, 0x6598c09d);
    Traced(20, 5, 5, 0xd62f105d, st, x, State(0x0b659343, 0x6598c09d, 0x5e168480, 0xba08c5c3),
           0x706d756a, 0x641ec081, 0xb620d98b, 0xc41b3176, 0x29b3f213);
    Traced(21, 10, 9, 0x02441453, st, x, State(0xba08c5c3, 0x29b3f213, 0x6598c09d, 0x5e168480),
           0x80676f64, 0x299ac01d, 0x664f0997, 0x9e132ecc, 0xc7c720df);
    Traced(22, 15, 14, 0xd8a1e681, st, x, State(0x5e168480, 0xc7c720df, 0x29b3f213, 0x6598c09d),
           0x00000000, 0x4da3329f, 0x845b9da0, 0xe7682116, 0xaf2f41f5);
    Traced(23, 4, 20, 0xe7d3fbc8, st, x, State(0x6598c09d, 0xaf2f41f5, 0xc7c720df, 0x29b3f213),
           0x20786f66, 0xef6740dd, 0x5d4c6ca8, 0xca85d4c6, 0x79b516bb);
    Traced(24, 9, 5, 0x21e1cde6, st, x, State(0x29b3f213, 0x79b516bb, 0xaf2f41f5, 0xc7c720df),
           0x20797a61, 0x69ad41bb, 0xd5bc7c15, 0xb78f82ba, 0x31449975);
    Traced(25, 14, 9, 0xc33707d6, st, x, State(0xc7c720df, 0x31449975, 0x79b516bb, 0xaf2f41f5),
           0x00000158, 0x7194177f, 0xfc92418c, 0x248319f9, 0x55c7b36e);
    Traced(26, 3, 14, 0xf4d50d87, st, x, State(0xaf2f41f5, 0x55c7b36e, 0x31449975, 0x79b516bb),
           0x206e776f, 0x51c59b6e, 0x16386259, 0x1896458e, 0x6e5df8fc);
    Traced(27, 8, 20, 0x455a14ed, st, x, State(0x79b516bb, 0x6e5df8fc, 0x55c7b36e, 0x31449975),
           0x6c206568, 0x64c7ba7e, 0x8ff74b8e, 0xb8e8ff74, 0x2746f870);
    Traced(28, 13, 5, 0xa9e3e905, st, x, State(0x31449975, 0x2746f870, 0x6e5df8fc, 0x55c7b36e),
           0x00000000, 0x2f5ef8f0, 0x0a877b6a, 0x50ef6d41, 0x783665b1);
    Traced(29, 2, 9, 0xfcefa3f8, st, x, State(0x55c7b36e, 0x783665b1, 0x2746f870, 0x6e5df8fc),
           0x7262206b, 0x691660b0, 0x2e2fd881, 0x5fb1025c, 0xd7e7680d);
    Traced(30, 7, 14, 0x676f02d9, st, x, State(0x6e5df8fc, 0xd7e7680d, 0x783665b1, 0x2746f870),
           0x74207265, 0x5f766d81, 0xa963dbbb, 0xf6eeea58, 0xced65265);
    Traced(31, 12, 20, 0x8d2a4c8a, st, x, State(0x2746f870, 0xced65265, 0xd7e7680d, 0x783665b1),
           0x00000000, 0xcfd7482d, 0x84488d27, 0xd2784488, 0xa14e96ed);
  }

  lemma ThirdRound(x: seq<bv32>, st: State)
    requires |x| == 16 && FoxWords(x) && Operations(32, st, x) == State(0x783665b1, 0xa14e96ed, 0xced65265, 0xd7e7680d)
    ensures Operations(48, st, x) == State(0xddc672c8, 0x60590164, 0x4f59dd0e, 0x07005f10)
  {
    Schedule3();
    hide Operations, Has, Scheduled;
    Traced(32, 5, 4, 0xfffa3942, st, x, State(0x783665b1, 0xa14e96ed, 0xced65265, 0xd7e7680d),
           0x706d756a, 0xb87fac85, 0xa11dc0e2, 0x11dc0e2a, 0xb32aa517);
    Traced(33, 8, 11, 0x8771f681, st, x, State(0xd7e7680d, 0xb32aa517, 0xa14e96ed, 0xced65265),
           0x6c206568, 0xdcb2619f, 0xa82c2595, 0x612cad41, 0x14575258);
    Traced(34, 11, 16, 0x6d9d6122, st, x, State(0xced65265, 0x14575258, 0xb32aa517, 0xa14e96ed),
           0x00000000, 0x063361a2, 0x42a71529, 0x152942a7, 0x298094ff);
    Traced(35, 14, 23, 0xfde5380c, st, x, State(0xa14e96ed, 0x298094ff, 0x14575258, 0xb32aa517),
           0x00000158, 0x8efd63b0, 0x2e313401, 0x0097189a, 0x2a17ad99);
    Traced(36, 1, 4, 0xa4beea44, st, x, State(0xb32aa517, 0x2a17ad99, 0x298094ff, 0x14575258),
           0x63697571, 0x17c06b3e, 0xd313700a, 0x313700ad, 0x5b4eae46);
    Traced(37, 4, 11, 0x4bdecfa9, st, x, State(0x14575258, 0x5b4eae46, 0x2a17ad99, 0x298094ff),
           0x20786f66, 0x58d99720, 0xd9882887, 0x41443ecc, 0x9c92ed12);
    Traced(38, 7, 16, 0xf6bb4b60, st, x, State(0x298094ff, 0x9c92ed12, 0x5b4eae46, 0x2a17ad99),
           0x74207265, 0xedcbeecd, 0x82284191, 0x41918228, 0xde246f3a);
    Traced(39, 10, 23, 0xbebfbc70, st, x, State(0x2a17ad99, 0xde246f3a, 0x9c92ed12, 0x5b4eae46),
           0x80676f64, 0x19f82c6e, 0x833705db, 0xedc19b82, 0xcbe60abc);
    Traced(40, 13, 4, 0x289b7ec6, st, x, State(0x5b4eae46, 0xcbe60abc, 0xde246f3a, 0x9c92ed12),
           0x00000000, 0x89508894, 0x0d3ab5a0, 0xd3ab5a00, 0x9f9164bc);
    Traced(41, 0, 11, 0xeaa127fa, st, x, State(0x9c92ed12, 0x9f9164bc, 0xcbe60abc, 0xde246f3a),
           0x20656854, 0x8a53013a, 0x31ec7e9a, 0x63f4d18f, 0x0386364b);
    Traced(42, 3, 16, 0xd4ef3085, st, x, State(0xde246f3a, 0x0386364b, 0x9f9164bc, 0xcbe60abc),
           0x206e776f, 0x57f1584b, 0x2b736f79, 0x6f792b73, 0x72ff61be);
    Traced(43, 6, 23, 0x04881d05, st, x, State(0xcbe60abc, 0x72ff61be, 0x0386364b, 0x9f9164bc),
           0x766f2073, 0xeee83349, 0x35c57b7d, 0xbe9ae2bd, 0x319a447b);
    Traced(44, 9, 4, 0xd9d4d039, st, x, State(0x9f9164bc, 0x319a447b, 0x72ff61be, 0x0386364b),
           0x20797a61, 0x40e3138e, 0xdac2c2e4, 0xac2c2e4d, 0xddc672c8);
    Traced(45, 12, 11, 0xe6db99e5, st, x, State(0x0386364b, 0xddc672c8, 0x319a447b, 0x72ff61be),
           0x00000000, 0x9ea3570d, 0x8905273d, 0x2939ec48, 0x07005f10);
    Traced(46, 15, 16, 0x1fa27cf8, st, x, State(0x72ff61be, 0x07005f10, 0xddc672c8, 0x319a447b),
           0x00000000, 0xeb5c69a3, 0x7dfe4859, 0x48597dfe, 0x4f59dd0e);
    Traced(47, 2, 23, 0xc4ac5665, st, x, State(0x319a447b, 0x4f59dd0e, 0x07005f10, 0xddc672c8),
           0x7262206b, 0x959ff0d6, 0xfe48ac21, 0x10ff2456, 0x60590164);
  }

  lemma LastRound(x: seq<bv32>, st: State)
    requires |x| == 16 && FoxWords(x) && Operations(48, st, x) == State(0xddc672c8, 0x60590164, 0x4f59dd0e, 0x07005f10)
    ensures Operations(64, st, x) == State(0x3637ed9d, 0x92e87fae, 0x9c62fb6d, 0xc5e74fcc)
  {
    Schedule4();
    hide Operations, Has, Scheduled;
    Traced(48, 0, 6, 0xf4292244, st, x, State(0xddc672c8, 0x60590164, 0x4f59dd0e, 0x07005f10),
           0x20656854, 0xb7a67ce1, 0xa9fb7a41, 0x7ede906a, 0xdf3791ce);
    Traced(49, 7, 10, 0x432aff97, st, x, State(0x07005f10, 0xdf3791ce, 0x60590164, 0x4f59dd0e),
           0x74207265, 0x9feeb29b, 0x5e3a83a7, 0xea0e9d78, 0xc9462f46);
    Traced(50, 14, 15, 0xab9423a7, st, x, State(0x4f59dd0e, 0xc9462f46, 0xdf3791ce, 0x60590164),
           0x00000158, 0x00d16e11, 0xfbbf701e, 0xb80f7ddf, 0x8155ad25);
    Traced(51, 5, 21, 0xfc93a039, st, x, State(0x60590164, 0x8155ad25, 0xc9462f46, 0xdf3791ce),
           0x706d756a, 0x689bc073, 0x35f5d77a, 0xef46beba, 0x709c6bdf);
    Traced(52, 12, 6, 0x655b59c3, st, x, State(0xdf3791ce, 0x709c6bdf, 0x8155ad25, 0xc9462f46),
           0x00000000, 0xf7e856da, 0x3c7b426b, 0x1ed09acf, 0x8f6d06ae);
    Traced(53, 3, 10, 0x8f0ccc92, st, x, State(0xc9462f46, 0x8f6d06ae, 0x709c6bdf, 0x8155ad25),
           0x206e776f, 0x8f733d21, 0x0834b068, 0xd2c1a020, 0x622ea6ce);
    Traced(54, 10, 15, 0xffeff47d, st, x, State(0x8155ad25, 0x622ea6ce, 0x8f6d06ae, 0x709c6bdf),
           0x80676f64, 0x6002b040, 0x61afc146, 0xe0a330d7, 0x42d1d7a5);
    Traced(55, 1, 21, 0x85845dd1, st, x, State(0x709c6bdf, 0x42d1d7a5, 0x622ea6ce, 0x8f6d06ae),
           0x63697571, 0x10fd593b, 0x6a87985c, 0x0b8d50f3, 0x4e5f2898);
    Traced(56, 8, 6, 0x6fa87e4f, st, x, State(0x8f6d06ae, 0x4e5f2898, 0x42d1d7a5, 0x622ea6ce),
           0x6c206568, 0x9d0eae1c, 0x08449881, 0x11262042, 0x5f8548da);
    Traced(57, 15, 10, 0xfe2ce6e0, st, x, State(0x622ea6ce, 0x5f8548da, 0x4e5f2898, 0x42d1d7a5),
           0x00000000, 0xb1f04042, 0x124bcdf0, 0x2f37c049, 0x8ebd0923);
    Traced(58, 6, 15, 0xa3014314, st, x, State(0x42d1d7a5, 0x8ebd0923, 0x5f8548da, 0x4e5f2898),
           0x766f2073, 0xe03897bd, 0x3c7ad2e9, 0x69749e3d, 0xf831a760);
    Traced(59, 13, 21, 0x4e0811a1, st, x, State(0x4e5f2898, 0xf831a760, 0x8ebd0923, 0x5f8548da),
           0x00000000, 0x76c6be46, 0x132df87f, 0x0fe265bf, 0x08140d1f);
    Traced(60, 4, 6, 0xf7537e82, st, x, State(0x5f8548da, 0x08140d1f, 0xf831a760, 0x8ebd0923),
           0x20786f66, 0x816758bf, 0xf8b88f81, 0x2e23e07e, 0x3637ed9d);
    Traced(61, 11, 10, 0xbd3af235, st, x, State(0x8ebd0923, 0x3637ed9d, 0x08140d1f, 0xf831a760),
           0x00000000, 0x3febf080, 0x8be3ebd8, 0x8faf622f, 0xc5e74fcc);
    Traced(62, 2, 15, 0x2ad7d2bb, st, x, State(0xf831a760, 0xc5e74fcc, 0x3637ed9d, 0x08140d1f),
           0x7262206b, 0xc1d81271, 0x5743acf7, 0xd67baba1, 0x9c62fb6d);
    Traced(63, 9, 21, 0xeb86d391, st, x, State(0x08140d1f, 0x9c62fb6d, 0xc5e74fcc, 0x3637ed9d),
           0x20797a61, 0x180db4a3, 0x2c220fb4, 0xf6858441, 0x92e87fae);
  }

  lemma FoxOperations(x: seq<bv32>)
    requires |x| == 16 && FoxWords(x)
    ensures Operations(64, INITIAL, x) == State(0x3637ed9d, 0x92e87fae, 0x9c62fb6d, 0xc5e74fcc)
  {
    assert Operations(0, INITIAL, x) == INITIAL;
    hide Operations, FoxWords;
    FirstRound(x, INITIAL);
    SecondRound(x, INITIAL);
    ThirdRound(x, INITIAL);
    LastRound(x, INITIAL);
  }

  lemma CompressedFox()
    ensures |Pad(FOX)| == 64 && Compress(INITIAL, Pad(FOX)) == State(0x9d7d109e, 0x82b62b37, 0x351dd86b, 0xd619a442)
  {
    WordsOfFox();
    hide Pad, Words, Operations, FoxWords;
    FoxOperations(Words(Pad(FOX)));
  }

  lemma OneBlock(st: State, block: Bytes)
    requires |block| == 64
    ensures Chain(st, block) == Compress(st, block)
  {
    assert block[..64] == block;
    hide Compress;
  }

  /** The digest that the test asks for. */
  lemma DigestOfFox()
    ensures Digest(FOX) ==
            [0x9e, 0x10, 0x7d, 0x9d, 0x37, 0x2b, 0xb6, 0x82, 0x6b, 0xd8, 0x1d, 0x35, 0x42, 0xa4, 0x19, 0xd6]
  {
    CompressedFox();
    hide Pad, Compress, Chain, Output;
    OneBlock(INITIAL, Pad(FOX));
    OutputOfFox();
  }

  lemma OutputOfFox()
    ensures Output(State(0x9d7d109e, 0x82b62b37, 0x351dd86b, 0xd619a442)) ==
            [0x9e, 0x10, 0x7d, 0x9d, 0x37, 0x2b, 0xb6, 0x82, 0x6b, 0xd8, 0x1d, 0x35, 0x42, 0xa4, 0x19, 0xd6]
  {}
}
