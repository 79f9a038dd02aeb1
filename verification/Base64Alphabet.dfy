/** The alphabet of Base64, the tables of kbase/base64.cpp and what its entries are. */
module Base64Alphabet {
  import opened ByteOrder
  import opened Base64Bits

  const PADDING := '='
  const BAD := 0x40

  // ---- The alphabet ----

  /** The letter for a 6-bit number. */
  function Letter(d: nat): char
    requires d < 64
  {
    if d < 26 then (d + 'A' as int) as char
    else if d < 52 then (d - 26 + 'a' as int) as char
    else if d < 62 then (d - 52 + '0' as int) as char
    else if d == 62 then '+' else '/'
  }

  /** The number of a letter; 0xFF for a character outside the alphabet. */
  function Code(c: char): (d: nat)
    ensures d < 64 || d == 0xFF
  {
    if 'A' <= c <= 'Z' then c as int - 'A' as int
    else if 'a' <= c <= 'z' then c as int - 'a' as int + 26
    else if '0' <= c <= '9' then c as int - '0' as int + 52
    else if c == '+' then 62 else if c == '/' then 63 else 0xFF
  }

  /** Section 4 of RFC 4648, in ASCII codes: A to Z, a to z, 0 to 9, plus and solidus; the pad is an equals sign. */
  lemma AlphabetOfBase64(d: nat)
    requires d < 64
    ensures Letter(d) as int == if d < 26 then 0x41 + d else if d < 52 then 0x61 + (d - 26)
                                else if d < 62 then 0x30 + (d - 52) else if d == 62 then 0x2b else 0x2f
    ensures PADDING as int == 0x3d
  {}

  lemma CodeOfLetter(d: nat)
    requires d < 64
    ensures Code(Letter(d)) == d && Letter(d) != PADDING
  {}

  lemma LetterOfCode(c: char)
    requires Code(c) < BAD
    ensures Letter(Code(c)) == c && c != PADDING
  {}

  // ---- The tables, sixteen entries a row ----

  function Cipher0Row(r: nat): (row: string)
    ensures |row| == 16
  {
    if r == 0 then "AAAABBBBCCCCDDDD"
    else if r == 1 then "EEEEFFFFGGGGHHHH"
    else if r == 2 then "IIIIJJJJKKKKLLLL"
    else if r == 3 then "MMMMNNNNOOOOPPPP"
    else if r == 4 then "QQQQRRRRSSSSTTTT"
    else if r == 5 then "UUUUVVVVWWWWXXXX"
    else if r == 6 then "YYYYZZZZaaaabbbb"
    else if r == 7 then "ccccddddeeeeffff"
    else if r == 8 then "gggghhhhiiiijjjj"
    else if r == 9 then "kkkkllllmmmmnnnn"
    else if r == 10 then "ooooppppqqqqrrrr"
    else if r == 11 then "ssssttttuuuuvvvv"
    else if r == 12 then "wwwwxxxxyyyyzzzz"
    else if r == 13 then "0000111122223333"
    else if r == 14 then "4444555566667777"
    else "88889999++++////"
  }

  function Cipher1Row(r: nat): (row: string)
    ensures |row| == 16
  {
    if r == 0 then "ABCDEFGHIJKLMNOP"
    else if r == 1 then "QRSTUVWXYZabcdef"
    else if r == 2 then "ghijklmnopqrstuv"
    else "wxyz0123456789+/"
  }

  function CodeRow(r: nat): (row: seq<byte>)
    ensures |row| == 16
  {
    if r == 2 then [0xFF, 0xFF, 0xFF, 0xFF, 0xFF, 0xFF, 0xFF, 0xFF, 0xFF, 0xFF, 0xFF, 0x3E, 0xFF, 0xFF, 0xFF, 0x3F]
    else if r == 3 then [0x34, 0x35, 0x36, 0x37, 0x38, 0x39, 0x3A, 0x3B, 0x3C, 0x3D, 0xFF, 0xFF, 0xFF, 0xFF, 0xFF, 0xFF]
    else if r == 4 then [0xFF, 0x00, 0x01, 0x02, 0x03, 0x04, 0x05, 0x06, 0x07, 0x08, 0x09, 0x0A, 0x0B, 0x0C, 0x0D, 0x0E]
    else if r == 5 then [0x0F, 0x10, 0x11, 0x12, 0x13, 0x14, 0x15, 0x16, 0x17, 0x18, 0x19, 0xFF, 0xFF, 0xFF, 0xFF, 0xFF]
    else if r == 6 then [0xFF, 0x1A, 0x1B, 0x1C, 0x1D, 0x1E, 0x1F, 0x20, 0x21, 0x22, 0x23, 0x24, 0x25, 0x26, 0x27, 0x28]
    else if r == 7 then [0x29, 0x2A, 0x2B, 0x2C, 0x2D, 0x2E, 0x2F, 0x30, 0x31, 0x32, 0x33, 0xFF, 0xFF, 0xFF, 0xFF, 0xFF]
    else [0xFF, 0xFF, 0xFF, 0xFF, 0xFF, 0xFF, 0xFF, 0xFF, 0xFF, 0xFF, 0xFF, 0xFF, 0xFF, 0xFF, 0xFF, 0xFF]
  }

  lemma Cipher0Quarter1(r: nat, k: nat)
    requires 0 <= r < 4 && k < 16
    ensures Cipher0Row(r)[k] == Letter(4 * r + k / 4)
  {}

  lemma Cipher0Quarter2(r: nat, k: nat)
    requires 4 <= r < 8 && k < 16
    ensures Cipher0Row(r)[k] == Letter(4 * r + k / 4)
  {}

  lemma Cipher0Quarter3(r: nat, k: nat)
    requires 8 <= r < 12 && k < 16
    ensures Cipher0Row(r)[k] == Letter(4 * r + k / 4)
  {}

  lemma Cipher0Quarter4(r: nat, k: nat)
    requires 12 <= r < 16 && k < 16
    ensures Cipher0Row(r)[k] == Letter(4 * r + k / 4)
  {}

  lemma Cipher1Rows(r: nat, k: nat)
    requires r < 4 && k < 16
    ensures Cipher1Row(r)[k] == Letter(16 * r + k)
  {}

  lemma CodeSigns(r: nat, k: nat)
    requires r < 4 && k < 16
    ensures CodeRow(r)[k] as nat == Code((16 * r + k) as char)
  {}

  lemma CodeCapitals(r: nat, k: nat)
    requires 4 <= r < 6 && k < 16
    ensures CodeRow(r)[k] as nat == Code((16 * r + k) as char)
  {}

  lemma CodeSmall(r: nat, k: nat)
    requires 6 <= r < 8 && k < 16
    ensures CodeRow(r)[k] as nat == Code((16 * r + k) as char)
  {}

  lemma CodeOthers(r: nat, k: nat)
    requires 8 <= r < 16 && k < 16
    ensures CodeRow(r)[k] as nat == Code((16 * r + k) as char)
  {}

  function Cipher0(t: byte): char {
    Cipher0Row(t as nat / 16)[t as nat % 16]
  }

  function Cipher1(d: bv8): char
    requires d < 64
  {
    Cipher1Row(Number(d) / 16)[Number(d) % 16]
  }

  /** The third table is the second four times over. */
  function Cipher2(t: byte): char {
    Cipher1Row(t as nat / 16 % 4)[t as nat % 16]
  }

  /** The entry for a byte; a character that is none has no entry. */
  function CodeEntry(c: char): bv8 {
    if c as int < 256 then Bits(CodeRow(c as int / 16)[c as int % 16]) else 0xFF
  }

  lemma Cipher0IsLetter(t: byte)
    ensures Cipher0(t) == Letter(t as nat / 4)
  {
    var r, k := t as nat / 16, t as nat % 16;
    hide Letter, Cipher0Row;
    if r < 4 {
      Cipher0Quarter1(r, k);
    } else if r < 8 {
      Cipher0Quarter2(r, k);
    } else if r < 12 {
      Cipher0Quarter3(r, k);
    } else {
      Cipher0Quarter4(r, k);
    }
    assert 4 * r + k / 4 == t as nat / 4;
  }

  lemma Cipher1IsLetter(d: bv8)
    requires d < 64
    ensures Number(d) < 64 && Cipher1(d) == Letter(Number(d))
  {
    SixBits(d);
    hide Letter, Cipher1Row, Number;
    Cipher1Rows(Number(d) / 16, Number(d) % 16);
  }

  lemma Cipher2IsLetter(t: byte)
    ensures Cipher2(t) == Letter(t as nat % 64)
  {
    hide Letter, Cipher1Row;
    Cipher1Rows(t as nat / 16 % 4, t as nat % 16);
    LowSix(t as nat);
  }

  lemma LowSix(n: nat)
    ensures n / 16 % 4 < 4 && 16 * (n / 16 % 4) + n % 16 == n % 64
  {
    assert n == 64 * (n / 16 / 4) + (16 * (n / 16 % 4) + n % 16);
  }

  lemma CodeEntryIsCode(c: char)
    ensures Number(CodeEntry(c)) == Code(c)
  {
    var r, k := c as int / 16, c as int % 16;
    assert (16 * r + k) as char == c;
    if r < 4 {
      CodeSigns(r, k);
    } else if r < 6 {
      CodeCapitals(r, k);
    } else if r < 8 {
      CodeSmall(r, k);
    } else if r < 16 {
      CodeOthers(r, k);
    }
    if r < 16 {
      BitsOfNumber(CodeRow(r)[k]);
      hide Code, CodeRow, Bits, Number;
    }
  }

  /** The entry of the table, and whether it is one of a letter. */
  lemma EntryIsCode(c: char)
    ensures Number(CodeEntry(c)) == Code(c) && (CodeEntry(c) < 64 <==> Code(c) < BAD)
  {
    CodeEntryIsCode(c);
    SixBits(CodeEntry(c));
    hide Number, CodeEntry, Code;
  }
}
