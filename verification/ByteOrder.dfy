/** Numbers as byte strings, least significant byte first. */
module ByteOrder {

  newtype byte = x: int | 0 <= x < 256

  type Bytes = seq<byte>

  function Zeros(n: nat): (z: Bytes)
    ensures |z| == n && forall i :: 0 <= i < n ==> z[i] == 0
  {
    seq(n, _ => 0)
  }

  function Pow256(k: nat): (p: nat)
    ensures p > 0
  {
    if k == 0 then 1 else 256 * Pow256(k - 1)
  }

  /** The low `count` bytes of n. */
  function LittleEndian(n: nat, count: nat): (r: Bytes)
    ensures |r| == count
  {
    if count == 0 then [] else [(n % 256) as byte] + LittleEndian(n / 256, count - 1)
  }

  function Value(s: Bytes): (n: nat)
    ensures n < Pow256(|s|)
  {
    if s == [] then 0 else s[0] as nat + 256 * Value(s[1..])
  }

  /** Writing and reading back keeps every number that fits. */
  lemma {:induction false} ValueOfLittleEndian(n: nat, count: nat)
    requires n < Pow256(count)
    ensures Value(LittleEndian(n, count)) == n
  {
    if count > 0 {
      DivBound(n, Pow256(count - 1));
      ValueOfLittleEndian(n / 256, count - 1);
      var r := LittleEndian(n, count);
      assert r[1..] == LittleEndian(n / 256, count - 1);
      assert r[0] as nat == n % 256;
    }
  }

  lemma DivBound(n: nat, p: nat)
    requires n < 256 * p
    ensures n / 256 < p
  {}

  /** The bytes of hi * 256^k + lo are the k bytes of lo and then those of hi. */
  lemma {:induction false} LittleEndianSplit(hi: nat, lo: nat, k: nat, j: nat)
    requires lo < Pow256(k)
    ensures LittleEndian(hi * Pow256(k) + lo, k + j) == LittleEndian(lo, k) + LittleEndian(hi, j)
  {
    if k > 0 {
      var p := Pow256(k - 1);
      var n := hi * Pow256(k) + lo;
      DivBound(lo, p);
      Digits(hi, p, lo);
      LittleEndianSplit(hi, lo / 256, k - 1, j);
    }
  }

  lemma Digits(hi: nat, p: nat, lo: nat)
    ensures (hi * (256 * p) + lo) % 256 == lo % 256
    ensures (hi * (256 * p) + lo) / 256 == hi * p + lo / 256
  {
    assert hi * (256 * p) + lo == 256 * (hi * p) + lo;
  }

  /** Byte k is the digit that counts the multiples of 256^k. */
  lemma DigitAt(hi: nat, d: nat, lo: nat, k: nat, count: nat)
    requires d < 256 && lo < Pow256(k) && k < count
    ensures LittleEndian((256 * hi + d) * Pow256(k) + lo, count)[k] as nat == d
  {
    hide LittleEndian, Pow256;
    LittleEndianSplit(256 * hi + d, lo, k, count - k);
    LowestByte(256 * hi + d, count - k);
  }

  lemma LowestByte(n: nat, count: nat)
    requires count > 0
    ensures LittleEndian(n, count)[0] as nat == n % 256
  {}
}
