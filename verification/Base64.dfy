/** Base64 of kbase/base64.cpp against section 4 of RFC 4648. */
module Base64 {
  import opened ByteOrder
  import opened Sequences
  import opened Base64Bits
  import opened Base64Alphabet

  // ---- The definition: 24-bit groups, most significant bits first ----

  /** Four 6-bit numbers as one 24-bit group. */
  function Quad(c0: nat, c1: nat, c2: nat, c3: nat): (g: nat)
    requires c0 < 64 && c1 < 64 && c2 < 64 && c3 < 64
    ensures g < 0x100_0000
  {
    ((c0 * 64 + c1) * 64 + c2) * 64 + c3
  }

  /** Three bytes as one 24-bit group. */
  function Triple(b0: byte, b1: byte, b2: byte): (g: nat)
    ensures g < 0x100_0000
  {
    (b0 as nat * 256 + b1 as nat) * 256 + b2 as nat
  }

  /** The four letters of a group. */
  function Letters(group: nat): (r: string)
    requires group < 0x100_0000
    ensures |r| == 4
  {
    [Letter(group / 64 / 64 / 64), Letter(group / 64 / 64 % 64), Letter(group / 64 % 64), Letter(group % 64)]
  }

  /** The three bytes of a group. */
  function Octets(group: nat): (r: Bytes)
    requires group < 0x100_0000
    ensures |r| == 3
  {
    [(group / 256 / 256) as byte, (group / 256 % 256) as byte, (group % 256) as byte]
  }

  /** Full groups, then one of 8 or 16 bits filled up with zero bits to whole letters. */
  function Encoded(b: Bytes): string {
    if b == [] then ""
    else if |b| == 1 then Letters(Triple(b[0], 0, 0))[..2] + "=="
    else if |b| == 2 then Letters(Triple(b[0], b[1], 0))[..3] + "="
    else Letters(Triple(b[0], b[1], b[2])) + Encoded(b[3..])
  }

  predicate AllLetters(c: string) {
    forall i :: 0 <= i < |c| ==> Code(c[i]) < BAD
  }

  /** The number of padding characters at the end. */
  function PaddingCount(c: string): nat {
    if c == "" || c[|c| - 1] != PADDING then 0
    else if |c| == 1 || c[|c| - 2] != PADDING then 1 else 2
  }

  /** Whole quartets of letters, the last of which may end in one or two padding characters. */
  predicate WellFormed(c: string) {
    |c| % 4 == 0 && AllLetters(c[..|c| - PaddingCount(c)])
  }

  /** The bytes of letters; bits that do not fill a byte are dropped. */
  function Decoded(c: string): Bytes
    requires AllLetters(c) && |c| % 4 != 1
  {
    if c == "" then []
    else if |c| == 2 then Octets(Quad(Code(c[0]), Code(c[1]), 0, 0))[..1]
    else if |c| == 3 then Octets(Quad(Code(c[0]), Code(c[1]), Code(c[2]), 0))[..2]
    else Octets(Quad(Code(c[0]), Code(c[1]), Code(c[2]), Code(c[3]))) + Decoded(c[4..])
  }

  /** What a decoder answers for any input: nothing unless the input is well formed. */
  function Answer(c: string): Bytes {
    if WellFormed(c) then Decoded(c[..|c| - PaddingCount(c)]) else []
  }

  // ---- Encoding and decoding are inverse ----

  lemma DivMod(x: nat, c: nat, m: nat)
    requires c < m
    ensures (x * m + c) / m == x && (x * m + c) % m == c
  {
    var q := (x * m + c) / m;
    if q < x {
      Monotone(q + 1, x, m);
    } else if q > x {
      Monotone(x + 1, q, m);
    }
  }

  lemma Monotone(a: nat, b: nat, m: nat)
    requires a <= b
    ensures a * m <= b * m
  {}

  lemma LettersOfQuad(c0: nat, c1: nat, c2: nat, c3: nat)
    requires c0 < 64 && c1 < 64 && c2 < 64 && c3 < 64
    ensures Letters(Quad(c0, c1, c2, c3)) == [Letter(c0), Letter(c1), Letter(c2), Letter(c3)]
  {
    DivMod((c0 * 64 + c1) * 64 + c2, c3, 64);
    DivMod(c0 * 64 + c1, c2, 64);
    DivMod(c0, c1, 64);
    hide Letter;
  }

  lemma OctetsOfTriple(b0: byte, b1: byte, b2: byte)
    ensures Octets(Triple(b0, b1, b2)) == [b0, b1, b2]
  {
    DivMod(b0 as nat * 256 + b1 as nat, b2 as nat, 256);
    DivMod(b0 as nat, b1 as nat, 256);
  }

  /** Every group is that of four numbers and that of three bytes. */
  lemma QuadOfGroup(g: nat) returns (c0: nat, c1: nat, c2: nat, c3: nat)
    requires g < 0x100_0000
    ensures c0 < 64 && c1 < 64 && c2 < 64 && c3 < 64 && Quad(c0, c1, c2, c3) == g
    ensures c3 == g % 64 && c2 == g / 64 % 64
  {
    c0, c1, c2, c3 := g / 64 / 64 / 64, g / 64 / 64 % 64, g / 64 % 64, g % 64;
  }

  lemma TripleOfGroup(g: nat) returns (b0: byte, b1: byte, b2: byte)
    requires g < 0x100_0000
    ensures Triple(b0, b1, b2) == g && b2 as nat == g % 256 && b1 as nat == g / 256 % 256
  {
    b0, b1, b2 := (g / 256 / 256) as byte, (g / 256 % 256) as byte, (g % 256) as byte;
  }

  lemma OneByte(b0: byte)
    ensures WellFormed(Encoded([b0])) && Answer(Encoded([b0])) == [b0]
  {
    var c0, c1, c2, c3 := QuadOfGroup(Triple(b0, 0, 0));
    LowZero(b0, 0);
    LettersOfQuad(c0, c1, 0, 0);
    OctetsOfTriple(b0, 0, 0);
    CodeOfLetter(c0);
    CodeOfLetter(c1);
    hide Letters, Octets, Quad, Triple, Letter, Code;
    var c := Encoded([b0]);
    assert c == [Letter(c0), Letter(c1), PADDING, PADDING];
    assert c[..2] == [Letter(c0), Letter(c1)];
  }

  /** Zero bytes at the end of a group leave zero numbers at its end. */
  lemma LowZero(b0: byte, b1: byte)
    ensures Triple(b0, b1, 0) % 64 == 0 && Triple(b0, 0, 0) / 64 % 64 == 0
  {}

  lemma TwoBytes(b0: byte, b1: byte)
    ensures WellFormed(Encoded([b0, b1])) && Answer(Encoded([b0, b1])) == [b0, b1]
  {
    var c0, c1, c2, c3 := QuadOfGroup(Triple(b0, b1, 0));
    LowZero(b0, b1);
    LettersOfQuad(c0, c1, c2, 0);
    OctetsOfTriple(b0, b1, 0);
    CodeOfLetter(c0);
    CodeOfLetter(c1);
    CodeOfLetter(c2);
    hide Letters, Octets, Quad, Triple, Letter, Code;
    var c := Encoded([b0, b1]);
    assert c == [Letter(c0), Letter(c1), Letter(c2), PADDING];
    assert c[..3] == [Letter(c0), Letter(c1), Letter(c2)];
  }

  lemma FullGroup(b0: byte, b1: byte, b2: byte, rest: Bytes)
    requires WellFormed(Encoded(rest)) && Answer(Encoded(rest)) == rest
    ensures WellFormed(Encoded([b0, b1, b2] + rest)) && Answer(Encoded([b0, b1, b2] + rest)) == [b0, b1, b2] + rest
  {
    var c0, c1, c2, c3 := QuadOfGroup(Triple(b0, b1, b2));
    LettersOfQuad(c0, c1, c2, c3);
    OctetsOfTriple(b0, b1, b2);
    CodeOfLetter(c0);
    CodeOfLetter(c1);
    CodeOfLetter(c2);
    CodeOfLetter(c3);
    assert ([b0, b1, b2] + rest)[3..] == rest;
    hide Letters, Octets, Quad, Triple, Letter, Code, WellFormed, Answer;
    QuartetFirst([Letter(c0), Letter(c1), Letter(c2), Letter(c3)], Encoded(rest));
  }

  /** Decoding an encoding gives the bytes back. */
  lemma {:induction false} DecodeEncode(b: Bytes)
    ensures WellFormed(Encoded(b)) && Answer(Encoded(b)) == b
    decreases |b|
  {
    if |b| == 1 {
      assert b == [b[0]];
      OneByte(b[0]);
    } else if |b| == 2 {
      assert b == [b[0], b[1]];
      TwoBytes(b[0], b[1]);
    } else if |b| > 2 {
      DecodeEncode(b[3..]);
      hide *;
      FullGroup(b[0], b[1], b[2], b[3..]);
      assert b == [b[0], b[1], b[2]] + b[3..];
    }
  }

  /** A quartet of letters in front of a well-formed text. */
  lemma QuartetFirst(q: string, rest: string)
    requires |q| == 4 && AllLetters(q) && WellFormed(rest)
    ensures WellFormed(q + rest)
    ensures Answer(q + rest) ==
            Octets(Quad(Code(q[0]), Code(q[1]), Code(q[2]), Code(q[3]))) + Answer(rest)
  {
    hide Octets, Quad;
    var c := q + rest;
    var n := PaddingCount(rest);
    assert rest == "" ==> c == q;
    assert PaddingCount(c) == n;
    var body := rest[..|rest| - n];
    assert c[..|c| - n] == q + body;
    assert (q + body)[4..] == body;
  }

  /** A decoder answers something exactly on well-formed input that is not empty. */
  lemma AnswersWellFormed(c: string)
    ensures Answer(c) != [] <==> WellFormed(c) && c != ""
  {
    if WellFormed(c) && c != "" {
      var body := c[..|c| - PaddingCount(c)];
      assert |body| >= 2;
      assert Decoded(body) != [];
    }
  }

  /** The bits of the last letter that belong to no byte. */
  function TrailingBits(c: string): nat
    requires WellFormed(c)
  {
    var n := PaddingCount(c);
    if n == 0 then 0
    else if n == 1 then Code(c[|c| - 2]) % 4
    else Code(c[|c| - 3]) % 16
  }

  /** The first byte of two letters has the first one's bits and the upper two of the second. */
  lemma FirstOctet(x: nat, y: nat)
    requires x < 64 && y < 64
    ensures var g := Quad(x, y, 0, 0);
            g == (x * 4 + y / 16) * 0x1_0000 + y % 16 * 0x1000 && g / 256 / 256 == x * 4 + y / 16 &&
            (x * 4 + y / 16) * 0x1_0000 == Quad(x, y - y % 16, 0, 0)
  {}

  lemma FirstOctets(x: nat, y: nat, z: nat)
    requires x < 64 && y < 64 && z < 64
    ensures var g := Quad(x, y, z, 0);
            g == (x * 1024 + y * 16 + z / 4) * 256 + z % 4 * 64 && g / 256 == x * 1024 + y * 16 + z / 4 &&
            (x * 1024 + y * 16 + z / 4) * 256 == Quad(x, y, z - z % 4, 0)
  {}

  /** Numbers of the alphabet and their letters. */
  lemma ByCode(c: char, d: nat)
    requires d < 64 && Code(c) < BAD
    ensures Letter(d) == c <==> d == Code(c)
  {
    CodeOfLetter(d);
    LetterOfCode(c);
  }

  /** A number without its remainder. */
  function Cleared(n: nat, m: nat): (r: nat)
    requires m > 0
    ensures r <= n && (r == n <==> n % m == 0)
  {
    n - n % m
  }

  /** The byte of two letters is encoded as the first and the second without its lower four bits. */
  lemma OneByteAgain(x: nat, y: nat) returns (b0: byte)
    requires x < 64 && y < 64
    ensures Octets(Quad(x, y, 0, 0))[..1] == [b0]
    ensures Letters(Triple(b0, 0, 0))[..2] == [Letter(x), Letter(Cleared(y, 16))]
  {
    FirstOctet(x, y);
    b0 := (x * 4 + y / 16) as byte;
    assert Octets(Quad(x, y, 0, 0))[..1] == [b0];
    hide Letters, Letter, Octets, Quad;
    LettersOfQuad(x, Cleared(y, 16), 0, 0);
    HighTriple(b0);
  }

  lemma HighTriple(b0: byte)
    ensures Triple(b0, 0, 0) == b0 as nat * 0x1_0000
  {}

  /** The bytes of three letters are encoded as the first two and the third without its lower two bits. */
  lemma TwoBytesAgain(x: nat, y: nat, z: nat) returns (b0: byte, b1: byte)
    requires x < 64 && y < 64 && z < 64
    ensures Octets(Quad(x, y, z, 0))[..2] == [b0, b1]
    ensures Letters(Triple(b0, b1, 0))[..3] == [Letter(x), Letter(y), Letter(Cleared(z, 4))]
  {
    hide Letters, Letter, Quad;
    FirstOctets(x, y, z);
    LettersOfQuad(x, y, z - z % 4, 0);
    var h := x * 1024 + y * 16 + z / 4;
    b0, b1 := (h / 256) as byte, (h % 256) as byte;
    assert Triple(b0, b1, 0) == h * 256;
  }

  lemma LastText(x: char, y: char, b0: byte, d: nat)
    requires Code(x) < BAD && Code(y) < BAD && d < 64
    requires Octets(Quad(Code(x), Code(y), 0, 0))[..1] == [b0]
    requires Letters(Triple(b0, 0, 0))[..2] == [Letter(Code(x)), Letter(d)]
    ensures Encoded(Decoded([x, y])) == [Letter(Code(x)), Letter(d), PADDING, PADDING]
  {
    hide Letters, Octets, Triple, Quad, Letter, Code;
    assert Decoded([x, y]) == [b0];
  }

  /** Two letters and two paddings: one byte, and four bits that only a zero survives. */
  lemma LastTwo(x: char, y: char)
    requires Code(x) < BAD && Code(y) < BAD
    ensures Encoded(Decoded([x, y])) == [x, y, PADDING, PADDING] <==> Code(y) % 16 == 0
  {
    hide Encoded, Decoded, Letters, Octets, Triple, Quad, Letter, Code, AllLetters;
    BothLetters(x, y, x);
    var b0 := OneByteAgain(Code(x), Code(y));
    var d := Cleared(Code(y), 16);
    LetterOfCode(x);
    ByCode(y, d);
    LastText(x, y, b0, d);
  }

  lemma BothLetters(x: char, y: char, z: char)
    requires Code(x) < BAD && Code(y) < BAD && Code(z) < BAD
    ensures AllLetters([x, y]) && AllLetters([x, y, z])
  {
    hide Code;
  }

  lemma LastTexts(x: char, y: char, z: char, b0: byte, b1: byte, d: nat)
    requires Code(x) < BAD && Code(y) < BAD && Code(z) < BAD && d < 64
    requires Octets(Quad(Code(x), Code(y), Code(z), 0))[..2] == [b0, b1]
    requires Letters(Triple(b0, b1, 0))[..3] == [Letter(Code(x)), Letter(Code(y)), Letter(d)]
    ensures AllLetters([x, y, z])
    ensures Encoded(Decoded([x, y, z])) == [Letter(Code(x)), Letter(Code(y)), Letter(d), PADDING]
  {
    hide Letters, Octets, Triple, Quad, Letter, Code;
    assert Decoded([x, y, z]) == [b0, b1];
  }

  /** Three letters and one padding: two bytes, and two bits that only a zero survives. */
  lemma LastThree(x: char, y: char, z: char)
    requires Code(x) < BAD && Code(y) < BAD && Code(z) < BAD
    ensures Encoded(Decoded([x, y, z])) == [x, y, z, PADDING] <==> Code(z) % 4 == 0
  {
    hide Encoded, Decoded, Letters, Octets, Triple, Quad, Letter, Code, AllLetters;
    BothLetters(x, y, z);
    var b0, b1 := TwoBytesAgain(Code(x), Code(y), Code(z));
    var d := Cleared(Code(z), 4);
    LetterOfCode(x);
    LetterOfCode(y);
    ByCode(z, d);
    LastTexts(x, y, z, b0, b1, d);
  }

  /** Decoding and encoding again gives the text back exactly when the unused bits are zero. */
  lemma {:induction false} EncodeDecode(c: string)
    requires WellFormed(c)
    ensures Encoded(Answer(c)) == c <==> TrailingBits(c) == 0
    decreases |c|
  {
    var n := PaddingCount(c);
    var body := c[..|c| - n];
    if c == "" {
    } else if |body| == 2 {
      assert body == [c[0], c[1]] && c == [c[0], c[1], PADDING, PADDING];
      LastTwo(c[0], c[1]);
    } else if |body| == 3 {
      assert body == [c[0], c[1], c[2]] && c == [c[0], c[1], c[2], PADDING];
      LastThree(c[0], c[1], c[2]);
    } else {
      FirstQuartet(c);
      EncodeDecode(c[4..]);
    }
  }

  /** The test vectors of section 10 of RFC 4648, for each length of the last group. */
  lemma KnownVectors()
    ensures Encoded([]) == "" && Encoded([0x66]) == "Zg==" && Encoded([0x66, 0x6f]) == "Zm8="
    ensures Encoded([0x66, 0x6f, 0x6f]) == "Zm9v" && Encoded([0x66, 0x6f, 0x6f, 0x62]) == "Zm9vYg=="
  {
    KnownLetters();
    hide Letters, Triple;
    assert Encoded([]) == "" && "Zm9v" + "" == "Zm9v";
    WholeGroup(0x66, 0x6f, 0x6f, []);
    WholeGroup(0x66, 0x6f, 0x6f, [0x62]);
    assert [0x66, 0x6f, 0x6f] + [] == [0x66, 0x6f, 0x6f];
  }

  lemma KnownLetters()
    ensures Letters(Triple(0x66, 0, 0)) == "ZgAA" && Letters(Triple(0x66, 0x6f, 0)) == "Zm8A"
    ensures Letters(Triple(0x66, 0x6f, 0x6f)) == "Zm9v" && Letters(Triple(0x62, 0, 0)) == "YgAA"
  {
    assert Triple(0x66, 0, 0) == Quad(25, 32, 0, 0) && Triple(0x66, 0x6f, 0) == Quad(25, 38, 60, 0);
    assert Triple(0x66, 0x6f, 0x6f) == Quad(25, 38, 61, 47) && Triple(0x62, 0, 0) == Quad(24, 32, 0, 0);
    hide Letters, Triple, Quad;
    LettersOfQuad(25, 32, 0, 0);
    LettersOfQuad(25, 38, 60, 0);
    LettersOfQuad(25, 38, 61, 47);
    LettersOfQuad(24, 32, 0, 0);
  }

  lemma WholeGroup(b0: byte, b1: byte, b2: byte, rest: Bytes)
    ensures Encoded([b0, b1, b2] + rest) == Letters(Triple(b0, b1, b2)) + Encoded(rest)
  {
    assert ([b0, b1, b2] + rest)[3..] == rest;
    hide Letters, Triple;
  }

  /** A text with unused bits set is decoded like the one without them, and that is what its bytes are encoded to. */
  lemma UnusedBitsAreLost()
    ensures WellFormed("QR==") && Answer("QR==") == [0x41] && Encoded(Answer("QR==")) == "QQ=="
  {
    assert PaddingCount("QR==") == 2 && "QR=="[..2] == "QR";
    assert Code('Q') == 16 && Code('R') == 17;
    assert Octets(Quad(16, 17, 0, 0))[..1] == [0x41];
    assert Letters(Triple(0x41, 0, 0))[..2] == "QQ";
    hide Code, Octets, Quad, Letters, Triple;
  }

  lemma FirstQuartet(c: string)
    requires WellFormed(c) && |c| - PaddingCount(c) >= 4
    ensures WellFormed(c[4..]) && TrailingBits(c[4..]) == TrailingBits(c)
    ensures Encoded(Answer(c)) == c[..4] + Encoded(Answer(c[4..]))
  {
    var n := PaddingCount(c);
    var body := c[..|c| - n];
    assert forall i :: 0 <= i < 4 ==> Code(body[i]) < BAD && body[i] == c[i];
    LetterOfCode(c[3]);
    hide Code;
    assert PaddingCount(c[4..]) == n;
    assert c[4..][..|c| - 4 - n] == body[4..];
    assert TrailingBits(c[4..]) == TrailingBits(c);
    hide TrailingBits, PaddingCount, Octets, Quad, Decoded;
    assert c[..4] + c[4..] == c && c[..4] == [c[0], c[1], c[2], c[3]];
    QuartetFirst(c[..4], c[4..]);
    hide WellFormed, Answer, Encoded;
    ReencodeQuartet(c[0], c[1], c[2], c[3], Answer(c[4..]));
  }

  lemma ReencodeQuartet(x0: char, x1: char, x2: char, x3: char, rest: Bytes)
    requires Code(x0) < BAD && Code(x1) < BAD && Code(x2) < BAD && Code(x3) < BAD
    ensures Encoded(Octets(Quad(Code(x0), Code(x1), Code(x2), Code(x3))) + rest) == [x0, x1, x2, x3] + Encoded(rest)
  {
    var g := Quad(Code(x0), Code(x1), Code(x2), Code(x3));
    var b0, b1, b2 := TripleOfGroup(g);
    OctetsOfTriple(b0, b1, b2);
    LettersOfQuad(Code(x0), Code(x1), Code(x2), Code(x3));
    LetterOfCode(x0);
    LetterOfCode(x1);
    LetterOfCode(x2);
    LetterOfCode(x3);
    assert ([b0, b1, b2] + rest)[3..] == rest;
    hide Code, Letter, Octets, Letters, Quad, Triple;
  }

  // ---- What the tables and the bit operations of the source give ----

  /** The letters of three bytes, as the encoder cuts them out. */
  lemma EncoderLetters(t0: byte, t1: byte, t2: byte)
    ensures SecondIndex(Bits(t0), Bits(t1)) < 64 && ThirdIndex(Bits(t1), Bits(t2)) < 64
    ensures Letters(Triple(t0, t1, t2)) ==
            [Cipher0(t0), Cipher1(SecondIndex(Bits(t0), Bits(t1))),
             Cipher1(ThirdIndex(Bits(t1), Bits(t2))), Cipher2(t2)]
  {
    hide Letters, Letter, Cipher0, Cipher1, Cipher2, SecondIndex, ThirdIndex, Triple, Bits, Number;
    BitsOfNumber(t0);
    BitsOfNumber(t1);
    BitsOfNumber(t2);
    SecondIndexIs(Bits(t0), Bits(t1));
    ThirdIndexIs(Bits(t1), Bits(t2));
    Cipher0IsLetter(t0);
    Cipher1IsLetter(SecondIndex(Bits(t0), Bits(t1)));
    Cipher1IsLetter(ThirdIndex(Bits(t1), Bits(t2)));
    Cipher2IsLetter(t2);
    LettersOfBytes(t0, t1, t2);
  }

  lemma LettersOfBytes(t0: byte, t1: byte, t2: byte)
    ensures Letters(Triple(t0, t1, t2)) ==
            [Letter(t0 as nat / 4), Letter(t0 as nat % 4 * 16 + t1 as nat / 16),
             Letter(t1 as nat % 16 * 4 + t2 as nat / 64), Letter(t2 as nat % 64)]
  {
    var c0, c1, c2, c3 :=
      t0 as nat / 4, t0 as nat % 4 * 16 + t1 as nat / 16, t1 as nat % 16 * 4 + t2 as nat / 64, t2 as nat % 64;
    assert Quad(c0, c1, c2, c3) == Triple(t0, t1, t2);
    LettersOfQuad(c0, c1, c2, c3);
  }

  /** Without a third byte, or without a second one, nothing is joined. */
  lemma LastLetters(t0: byte)
    ensures (Bits(t0) & 0x03) << 4 == SecondIndex(Bits(t0), 0) && (Bits(t0) & 0x0F) << 2 == ThirdIndex(Bits(t0), 0)
    ensures Bits(0) == 0
  {
    NothingJoined(Bits(t0));
    ZeroNumber();
  }

  /** The bytes of four codes, as the decoder puts them together. */
  lemma DecoderOctets(c0: bv8, c1: bv8, c2: bv8, c3: bv8)
    requires c0 < 64 && c1 < 64 && c2 < 64 && c3 < 64
    ensures Number(c0) < 64 && Number(c1) < 64 && Number(c2) < 64 && Number(c3) < 64
    ensures Octets(Quad(Number(c0), Number(c1), Number(c2), Number(c3))) ==
            [Octet(FirstByte(c0, c1)), Octet(SecondByte(c1, c2)), Octet(ThirdByte(c2, c3))]
  {
    hide FirstByte, SecondByte, ThirdByte, Octets, Quad, Number, Octet;
    FirstByteIs(c0, c1);
    SecondByteIs(c1, c2);
    ThirdByteIs(c2, c3);
    OctetOfBits(FirstByte(c0, c1));
    OctetOfBits(SecondByte(c1, c2));
    OctetOfBits(ThirdByte(c2, c3));
    SixBits(c0);
    SixBits(c1);
    SixBits(c2);
    SixBits(c3);
    SameByte(Octet(FirstByte(c0, c1)), Number(c0) * 4 + Number(c1) / 16);
    SameByte(Octet(SecondByte(c1, c2)), Number(c1) % 16 * 16 + Number(c2) / 4);
    SameByte(Octet(ThirdByte(c2, c3)), Number(c2) % 4 * 64 + Number(c3));
    OctetsOfCodes(Number(c0), Number(c1), Number(c2), Number(c3));
  }

  lemma SameByte(b: byte, n: nat)
    requires b as nat == n
    ensures n < 256 && n as byte == b
  {}

  lemma OctetsOfCodes(c0: nat, c1: nat, c2: nat, c3: nat)
    requires c0 < 64 && c1 < 64 && c2 < 64 && c3 < 64
    ensures Octets(Quad(c0, c1, c2, c3)) ==
            [(c0 * 4 + c1 / 16) as byte, (c1 % 16 * 16 + c2 / 4) as byte, (c2 % 4 * 64 + c3) as byte]
  {
    var b0, b1, b2 := (c0 * 4 + c1 / 16) as byte, (c1 % 16 * 16 + c2 / 4) as byte, (c2 % 4 * 64 + c3) as byte;
    assert Triple(b0, b1, b2) == Quad(c0, c1, c2, c3);
    OctetsOfTriple(b0, b1, b2);
  }

  // ---- Encode ----

  function EncodeLength(plainLength: nat): nat {
    (plainLength + 2) / 3 * 4
  }

  lemma EncodeLengthStep(n: nat)
    ensures n >= 3 ==> EncodeLength(n) == 4 + EncodeLength(n - 3)
    ensures n < 3 ==> EncodeLength(n) == if n == 0 then 0 else 4
  {}

  lemma {:induction false} EncodedLength(b: Bytes)
    ensures |Encoded(b)| == EncodeLength(|b|)
    decreases |b|
  {
    EncodeLengthStep(|b|);
    if |b| > 2 {
      EncodedLength(b[3..]);
    }
    hide EncodeLength, Letters, Triple;
    LettersFour(b);
  }

  lemma LettersFour(b: Bytes)
    ensures |b| == 1 || |b| == 2 ==> |Encoded(b)| == 4
    ensures |b| > 2 ==> |Encoded(b)| == 4 + |Encoded(b[3..])|
  {}

  lemma EncodedCons(x0: byte, x1: byte, x2: byte, rest: Bytes)
    ensures Encoded([x0, x1, x2] + rest) == Letters(Triple(x0, x1, x2)) + Encoded(rest)
  {
    assert ([x0, x1, x2] + rest)[3..] == rest;
    hide Letters, Triple;
  }

  lemma {:induction false} EncodedAppend(x: Bytes, y: Bytes)
    requires |x| % 3 == 0
    ensures Encoded(x + y) == Encoded(x) + Encoded(y)
    decreases |x|
  {
    if x == [] {
      assert x + y == y;
    } else {
      hide *;
      var q, rest := [x[0], x[1], x[2]], x[3..];
      assert x == q + rest && x + y == q + (rest + y);
      EncodedAppend(rest, y);
      EncodedCons(x[0], x[1], x[2], rest);
      EncodedCons(x[0], x[1], x[2], rest + y);
    }
  }

  /** One more group behind the groups before position i. */
  lemma EncodeGroup(data: Bytes, i: nat)
    requires i % 3 == 0 && i + 3 <= |data|
    ensures Encoded(data[..i + 3]) == Encoded(data[..i]) + Letters(Triple(data[i], data[i + 1], data[i + 2]))
  {
    var x, y := data[..i], [data[i], data[i + 1], data[i + 2]];
    assert data[..i + 3] == x + y;
    EncodedAppend(x, y);
    assert Encoded(y) == Letters(Triple(y[0], y[1], y[2])) + Encoded([]);
  }

  lemma EncodeRest(data: Bytes, i: nat)
    requires i % 3 == 0 && i <= |data|
    ensures Encoded(data) == Encoded(data[..i]) + Encoded(data[i..])
  {
    assert data == data[..i] + data[i..];
    EncodedAppend(data[..i], data[i..]);
  }

  /** Four writes through the output pointer. */
  method Store4(result: array<char>, p: nat, a: char, b: char, c: char, d: char)
    requires p + 4 <= result.Length
    modifies result
    ensures result[..p + 4] == old(result[..p]) + [a, b, c, d]
  {
    result[p] := a;
    result[p + 1] := b;
    result[p + 2] := c;
    result[p + 3] := d;
  }

  method Encode(data: Bytes) returns (encoded: string)
    ensures encoded == Encoded(data)
  {
    hide Encoded, Letters, Triple, Cipher0, Cipher1, Cipher2, SecondIndex, ThirdIndex, EncodeLength, Bits;
    var len := |data|;
    var result := new char[EncodeLength(len)](_ => '\0');
    EncodedLength(data);
    var i, p := 0, 0;
    EncodedNothing(data);
    if len >= 3 {
      while i < len - 2
        invariant i <= len && i % 3 == 0 && 3 * p == 4 * i
        invariant p <= result.Length && result[..p] == Encoded(data[..i])
      {
        var t0, t1, t2 := data[i], data[i + 1], data[i + 2];
        EncoderLetters(t0, t1, t2);
        EncodeGroup(data, i);
        RoomForGroup(len, i, p);
        Store4(result, p, Cipher0(t0), Cipher1(SecondIndex(Bits(t0), Bits(t1))),
               Cipher1(ThirdIndex(Bits(t1), Bits(t2))), Cipher2(t2));
        i, p := i + 3, p + 4;
      }
    }
    EncodeRest(data, i);
    EncodedTail(data[i..]);
    RoomForGroup(len, i, p);
    if len - i == 1 {
      var t0 := data[i];
      EncoderLetters(t0, 0, 0);
      LastLetters(t0);
      Store4(result, p, Cipher0(t0), Cipher1((Bits(t0) & 0x03) << 4), PADDING, PADDING);
    } else if len - i == 2 {
      var t0, t1 := data[i], data[i + 1];
      EncoderLetters(t0, t1, 0);
      LastLetters(t1);
      Store4(result, p, Cipher0(t0), Cipher1(SecondIndex(Bits(t0), Bits(t1))),
             Cipher1((Bits(t1) & 0x0F) << 2), PADDING);
    }
    assert result[..] == result[..result.Length];
    encoded := result[..];
  }

  /** The letters written so far leave room for one more group. */
  lemma RoomForGroup(len: nat, i: nat, p: nat)
    requires i <= len && i % 3 == 0 && 3 * p == 4 * i
    ensures i < len ==> p + 4 <= EncodeLength(len)
    ensures i + 3 > len ==> EncodeLength(len) == if i < len then p + 4 else p
  {}

  lemma EncodedNothing(data: Bytes)
    ensures Encoded(data[..0]) == ""
  {}

  lemma EncodedTail(b: Bytes)
    ensures |b| == 0 ==> Encoded(b) == ""
    ensures |b| == 1 ==> var q := Letters(Triple(b[0], 0, 0)); Encoded(b) == [q[0], q[1], PADDING, PADDING]
    ensures |b| == 2 ==> var q := Letters(Triple(b[0], b[1], 0)); Encoded(b) == [q[0], q[1], q[2], PADDING]
  {
    hide Letters, Triple;
  }

  // ---- Decode ----

  function DecodeLength(cipherLength: nat, padding: nat): int {
    var chunk := if padding > 0 then cipherLength / 4 else cipherLength / 4 - 1;
    (chunk + 1) * 3 - padding
  }

  /** The number of bytes in n letters: the padding fills up the last quartet. */
  function DecodedSize(n: nat): int {
    DecodeLength(n, (4 - n % 4) % 4)
  }

  lemma DecodedSizeStep(n: nat)
    requires n != 0 && n % 4 != 1
    ensures n > 4 ==> DecodedSize(n) == 3 + DecodedSize(n - 4) && (n - 4) % 4 != 1
    ensures n <= 4 ==> DecodedSize(n) == n - 1
  {}

  lemma OctetsThree(c: string)
    requires AllLetters(c) && |c| % 4 != 1 && c != ""
    ensures |c| < 4 ==> |Decoded(c)| == |c| - 1
    ensures |c| >= 4 ==> AllLetters(c[4..]) && |Decoded(c)| == 3 + |Decoded(c[4..])|
  {
    hide Code, Quad;
  }

  lemma {:induction false} DecodedLength(c: string)
    requires AllLetters(c) && |c| % 4 != 1 && c != ""
    ensures |Decoded(c)| == DecodedSize(|c|)
    decreases |c|
  {
    DecodedSizeStep(|c|);
    OctetsThree(c);
    if |c| > 4 {
      hide *;
      DecodedLength(c[4..]);
    } else if |c| == 4 {
      assert Decoded(c[4..]) == [];
    }
    hide DecodedSize, Decoded, Code, AllLetters;
  }

  lemma LettersSplit(x: string, y: string)
    ensures AllLetters(x + y) <==> AllLetters(x) && AllLetters(y)
  {
    assert forall i :: 0 <= i < |x| ==> (x + y)[i] == x[i];
    assert forall i :: 0 <= i < |y| ==> (x + y)[|x| + i] == y[i];
  }

  lemma DecodedCons(x0: char, x1: char, x2: char, x3: char, rest: string)
    requires Code(x0) < BAD && Code(x1) < BAD && Code(x2) < BAD && Code(x3) < BAD
    requires AllLetters(rest) && |rest| % 4 != 1
    ensures AllLetters([x0, x1, x2, x3] + rest)
    ensures Decoded([x0, x1, x2, x3] + rest) == Octets(Quad(Code(x0), Code(x1), Code(x2), Code(x3))) + Decoded(rest)
  {
    LettersSplit([x0, x1, x2, x3], rest);
    assert ([x0, x1, x2, x3] + rest)[4..] == rest;
    hide Octets, Quad, Code;
  }

  lemma FirstLetters(x: string)
    requires AllLetters(x) && |x| >= 4
    ensures Code(x[0]) < BAD && Code(x[1]) < BAD && Code(x[2]) < BAD && Code(x[3]) < BAD && AllLetters(x[4..])
    ensures x == [x[0], x[1], x[2], x[3]] + x[4..]
  {
    hide Code;
  }

  lemma FourMore(n: nat, m: nat)
    requires m % 4 == 0
    ensures (n + m) % 4 == n % 4
  {}

  lemma {:induction false} DecodedAppend(x: string, y: string)
    requires AllLetters(x) && AllLetters(y) && |x| % 4 == 0 && |y| % 4 != 1
    ensures AllLetters(x + y) && |x + y| % 4 != 1 && Decoded(x + y) == Decoded(x) + Decoded(y)
    decreases |x|
  {
    LettersSplit(x, y);
    FourMore(|y|, |x|);
    if x == "" {
      assert x + y == y;
    } else {
      var q, rest := [x[0], x[1], x[2], x[3]], x[4..];
      FirstLetters(x);
      hide *;
      DecodedAppend(rest, y);
      DecodedQuartet(x[0], x[1], x[2], x[3], rest, y);
    }
  }

  lemma DecodedQuartet(x0: char, x1: char, x2: char, x3: char, rest: string, y: string)
    requires Code(x0) < BAD && Code(x1) < BAD && Code(x2) < BAD && Code(x3) < BAD
    requires AllLetters(rest) && |rest| % 4 == 0 && AllLetters(y) && |y| % 4 != 1
    requires AllLetters(rest + y) && |rest + y| % 4 != 1 && Decoded(rest + y) == Decoded(rest) + Decoded(y)
    ensures var q := [x0, x1, x2, x3];
            AllLetters(q + rest) && AllLetters(q + rest + y) && |q + rest + y| % 4 != 1 &&
            Decoded(q + rest + y) == Decoded(q + rest) + Decoded(y)
  {
    hide *;
    var q := [x0, x1, x2, x3];
    FourMore(|rest + y|, 4);
    FourMore(|rest|, 4);
    Associate(q, rest, y);
    DecodedCons(x0, x1, x2, x3, rest);
    DecodedCons(x0, x1, x2, x3, rest + y);
  }

  lemma DecodeQuartet(body: string, i: nat)
    requires i % 4 == 0 && i + 4 <= |body| && AllLetters(body[..i])
    requires Code(body[i]) < BAD && Code(body[i + 1]) < BAD && Code(body[i + 2]) < BAD && Code(body[i + 3]) < BAD
    ensures AllLetters(body[..i + 4])
    ensures Decoded(body[..i + 4]) ==
            Decoded(body[..i]) + Octets(Quad(Code(body[i]), Code(body[i + 1]), Code(body[i + 2]), Code(body[i + 3])))
  {
    var y := [body[i], body[i + 1], body[i + 2], body[i + 3]];
    assert body[..i + 4] == body[..i] + y;
    DecodedCons(y[0], y[1], y[2], y[3], "");
    assert y + "" == y;
    DecodedAppend(body[..i], y);
    hide Octets, Quad, Code;
  }

  lemma DecodeRest(body: string, i: nat)
    requires i % 4 == 0 && i <= |body| && |body| % 4 != 1 && AllLetters(body[..i]) && AllLetters(body[i..])
    ensures AllLetters(body) && Decoded(body) == Decoded(body[..i]) + Decoded(body[i..])
  {
    hide *;
    var x, y := body[..i], body[i..];
    assert body == x + y;
    DecodedAppend(x, y);
  }

  lemma DecodedTail(c: string)
    requires AllLetters(c) && |c| % 4 != 1
    ensures |c| == 0 ==> Decoded(c) == []
    ensures |c| == 2 ==> Decoded(c) == [Octets(Quad(Code(c[0]), Code(c[1]), 0, 0))[0]]
    ensures |c| == 3 ==> var o := Octets(Quad(Code(c[0]), Code(c[1]), Code(c[2]), 0)); Decoded(c) == [o[0], o[1]]
  {
    hide Octets, Quad, Code;
  }

  method Store3(result: array<byte>, p: nat, a: byte, b: byte, c: byte)
    requires p + 3 <= result.Length
    modifies result
    ensures result[..p + 3] == old(result[..p]) + [a, b, c]
  {
    result[p] := a;
    result[p + 1] := b;
    result[p + 2] := c;
  }

  method Decode(data: string) returns (decoded: Bytes)
    ensures decoded == Answer(data)
  {
    hide Octets, Quad, Code, Decoded, AllLetters;
    var len := |data|;
    if len == 0 || len % 4 != 0 {
      AnswersWellFormed(data);
      return [];
    }
    var validLength, padding := len, 0;
    if data[len - 1] == PADDING {
      validLength, padding := validLength - 1, 1;
      if data[len - 2] == PADDING {
        validLength, padding := validLength - 1, 2;
      }
    }
    assert padding == PaddingCount(data);
    decoded := DecodeBody(data[..validLength], padding);
  }

  /** The bytes written so far leave room for one more quartet. */
  lemma RoomForQuartet(len: nat, i: nat, p: nat)
    requires i <= len && len % 4 != 1 && len != 0 && i % 4 == 0 && 4 * p == 3 * i
    ensures 0 <= p <= DecodedSize(len)
    ensures i + 4 <= len ==> p + 3 <= DecodedSize(len)
    ensures i + 4 > len ==> DecodedSize(len) == if i == len then p else p + (len - i - 1)
  {}

  /** Whole quartets before place i have been decoded to p bytes. */
  predicate SoFar(body: string, i: nat, p: nat, decoded: Bytes) {
    && |body| % 4 != 1 && body != ""
    && i <= |body| && i % 4 == 0 && 4 * p == 3 * i
    && AllLetters(body[..i]) && decoded == Decoded(body[..i])
  }

  lemma SoFarNothing(body: string)
    requires |body| % 4 != 1 && body != ""
    ensures SoFar(body, 0, 0, [])
  {
    NothingDecoded(body);
  }

  lemma SoFarRoom(body: string, i: nat, p: nat, decoded: Bytes)
    requires SoFar(body, i, p, decoded)
    ensures 0 <= p <= DecodedSize(|body|)
    ensures i + 4 <= |body| ==> p + 3 <= DecodedSize(|body|)
    ensures |body| - i < 4 ==> |body| - i != 1 && DecodedSize(|body|) == if i == |body| then p else p + (|body| - i - 1)
  {
    hide Decoded, AllLetters, DecodedSize;
    RoomForQuartet(|body|, i, p);
  }

  /** One more quartet of letters. */
  lemma SoFarStep(body: string, i: nat, p: nat, decoded: Bytes)
    requires SoFar(body, i, p, decoded) && i + 4 <= |body|
    ensures var c0, c1, c2, c3 :=
              CodeEntry(body[i]), CodeEntry(body[i + 1]), CodeEntry(body[i + 2]), CodeEntry(body[i + 3]);
            if Bad4(c0, c1, c2, c3) then !AllLetters(body)
            else SoFar(body, i + 4, p + 3,
                       decoded + [Octet(FirstByte(c0, c1)), Octet(SecondByte(c1, c2)), Octet(ThirdByte(c2, c3))])
  {
    hide Octets, Quad, Code, Decoded, AllLetters, CodeEntry, FirstByte, SecondByte, ThirdByte, Number, Octet, Bad4;
    QuartetEntries(body, i);
    var c0, c1, c2, c3 := CodeEntry(body[i]), CodeEntry(body[i + 1]), CodeEntry(body[i + 2]), CodeEntry(body[i + 3]);
    if !Bad4(c0, c1, c2, c3) {
      DecodeQuartet(body, i);
      DecoderOctets(c0, c1, c2, c3);
    }
  }

  lemma SoFarEnd(body: string, i: nat, p: nat, decoded: Bytes)
    requires SoFar(body, i, p, decoded) && i <= |body|
    ensures AllLetters(body) <==> AllLetters(body[i..])
    ensures |body[i..]| % 4 != 1 && (AllLetters(body) ==> Decoded(body) == decoded + Decoded(body[i..]))
  {
    hide Decoded, AllLetters;
    LettersSplit(body[..i], body[i..]);
    assert body == body[..i] + body[i..];
    if AllLetters(body) {
      DecodeRest(body, i);
    }
  }

  lemma SizeIs(body: string, padding: nat)
    requires padding == (4 - |body| % 4) % 4
    ensures DecodeLength(|body|, padding) == DecodedSize(|body|)
  {}

  /** The letters before the padding; on the first character that is none the result is cleared. */
  method DecodeBody(body: string, padding: nat) returns (decoded: Bytes)
    requires body != "" && |body| % 4 != 1 && padding == (4 - |body| % 4) % 4
    ensures decoded == if AllLetters(body) then Decoded(body) else []
  {
    hide *;
    SizeIs(body, padding);
    SoFarNothing(body);
    SoFarRoom(body, 0, 0, []);
    var result := new byte[DecodeLength(|body|, padding)](_ => 0);
    var i, p := 0, 0;
    assert result[..0] == [];
    if |body| >= 4 {
      while i < |body| - 3
        invariant i <= |body| && p <= result.Length && SoFar(body, i, p, result[..p])
      {
        var c0, c1 := CodeEntry(body[i]), CodeEntry(body[i + 1]);
        var c2, c3 := CodeEntry(body[i + 2]), CodeEntry(body[i + 3]);
        SoFarStep(body, i, p, result[..p]);
        if Bad4(c0, c1, c2, c3) {
          return [];
        }
        SoFarRoom(body, i, p, result[..p]);
        Store3(result, p, Octet(FirstByte(c0, c1)), Octet(SecondByte(c1, c2)), Octet(ThirdByte(c2, c3)));
        i, p := i + 4, p + 3;
      }
    }
    SoFarRoom(body, i, p, result[..p]);
    SoFarEnd(body, i, p, result[..p]);
    var rest := DecodeTail(body[i..], result, p);
    if !rest {
      return [];
    }
    assert result[..] == result[..result.Length];
    decoded := result[..];
  }

  /** The switch behind the loop: no letter, two or three; false when one of them is none. */
  method DecodeTail(tail: string, result: array<byte>, p: nat) returns (ok: bool)
    requires |tail| < 4 && |tail| != 1 && p + (if tail == "" then 0 else |tail| - 1) == result.Length
    modifies result
    ensures ok <==> AllLetters(tail)
    ensures ok ==> result[..] == old(result[..p]) + Decoded(tail)
  {
    hide Octets, Quad, Code, Decoded, CodeEntry, FirstByte, SecondByte, ThirdByte, Number, Octet, Bad2, Bad3;
    ZeroNumber();
    if |tail| == 2 {
      var c0, c1 := CodeEntry(tail[0]), CodeEntry(tail[1]);
      TailEntries(tail);
      if Bad2(c0, c1) {
        return false;
      }
      DecoderOctets(c0, c1, 0, 0);
      result[p] := Octet(FirstByte(c0, c1));
    } else if |tail| == 3 {
      var c0, c1, c2 := CodeEntry(tail[0]), CodeEntry(tail[1]), CodeEntry(tail[2]);
      TailEntries(tail);
      if Bad3(c0, c1, c2) {
        return false;
      }
      DecoderOctets(c0, c1, c2, 0);
      result[p] := Octet(FirstByte(c0, c1));
      result[p + 1] := Octet(SecondByte(c1, c2));
    }
    DecodedTail(tail);
    ok := true;
  }

  /** The test on the codes of four letters, or of what is left of them. */
  lemma QuartetEntries(body: string, i: nat)
    requires i + 4 <= |body|
    ensures var c0, c1, c2, c3 :=
              CodeEntry(body[i]), CodeEntry(body[i + 1]), CodeEntry(body[i + 2]), CodeEntry(body[i + 3]);
            && Number(c0) == Code(body[i]) && Number(c1) == Code(body[i + 1])
            && Number(c2) == Code(body[i + 2]) && Number(c3) == Code(body[i + 3])
            && (Bad4(c0, c1, c2, c3) ==> !AllLetters(body))
            && (!Bad4(c0, c1, c2, c3) ==>
                  && c0 < 64 && c1 < 64 && c2 < 64 && c3 < 64
                  && Code(body[i]) < BAD && Code(body[i + 1]) < BAD
                  && Code(body[i + 2]) < BAD && Code(body[i + 3]) < BAD)
  {
    hide Code, CodeEntry, Number, Bad2, Bad3, Bad4;
    var c0, c1, c2, c3 := CodeEntry(body[i]), CodeEntry(body[i + 1]), CodeEntry(body[i + 2]), CodeEntry(body[i + 3]);
    NoneBad(c0, c1, c2, c3);
    EntryIsCode(body[i]);
    EntryIsCode(body[i + 1]);
    EntryIsCode(body[i + 2]);
    EntryIsCode(body[i + 3]);
  }

  lemma TailEntries(tail: string)
    requires |tail| == 2 || |tail| == 3
    ensures var c0, c1, c2 := CodeEntry(tail[0]), CodeEntry(tail[1]), if |tail| == 3 then CodeEntry(tail[2]) else 0;
            && Number(c0) == Code(tail[0]) && Number(c1) == Code(tail[1])
            && (|tail| == 3 ==> Number(c2) == Code(tail[2]))
            && (AllLetters(tail) <==> if |tail| == 3 then !Bad3(c0, c1, c2) else !Bad2(c0, c1))
            && (AllLetters(tail) ==> c0 < 64 && c1 < 64 && c2 < 64)
  {
    hide Code, CodeEntry, Number, Bad2, Bad3, Bad4;
    var c0, c1, c2 := CodeEntry(tail[0]), CodeEntry(tail[1]), if |tail| == 3 then CodeEntry(tail[2]) else 0;
    NoneBad(c0, c1, c2, 0);
    EntryIsCode(tail[0]);
    EntryIsCode(tail[1]);
    if |tail| == 3 {
      EntryIsCode(tail[2]);
    }
  }

  lemma NothingDecoded(body: string)
    ensures AllLetters(body[..0]) && Decoded(body[..0]) == []
  {}
}
