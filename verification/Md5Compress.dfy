/** The unrolled compression of kbase/md5.cpp is the one of Md5Spec. */
module Md5Compress {
  import opened ByteOrder
  import opened Md5Spec

  // The optimised auxiliary functions (kbase/md5.cpp:62-65).

  function FastF(x: bv32, y: bv32, z: bv32): bv32 { z ^ (x & (y ^ z)) }

  function FastG(x: bv32, y: bv32, z: bv32): bv32 { y ^ (z & (x ^ y)) }

  function FastH(x: bv32, y: bv32, z: bv32): bv32 { x ^ y ^ z }

  function FastI(x: bv32, y: bv32, z: bv32): bv32 { y ^ (x | !z) }

  function FastAux(i: nat, x: bv32, y: bv32, z: bv32): bv32 {
    if i < 16 then FastF(x, y, z)
    else if i < 32 then FastG(x, y, z)
    else if i < 48 then FastH(x, y, z)
    else FastI(x, y, z)
  }

  lemma Choose(x: bv32, y: bv32, z: bv32)
    ensures z ^ (x & (y ^ z)) == (x & y) | (!x & z)
  {}

  lemma FastFIsF(x: bv32, y: bv32, z: bv32)
    ensures FastF(x, y, z) == F(x, y, z)
  {
    Choose(x, y, z);
  }

  lemma FastGIsG(x: bv32, y: bv32, z: bv32)
    ensures FastG(x, y, z) == G(x, y, z)
  {
    Choose(z, x, y);
  }

  lemma FastAuxIsAux(i: nat, x: bv32, y: bv32, z: bv32)
    ensures FastAux(i, x, y, z) == Aux(i, x, y, z)
  {
    FastFIsF(x, y, z);
    FastGIsG(x, y, z);
    hide FastF, FastG, F, G;
  }

  // The STEP macro (kbase/md5.cpp:68-71).

  function ShiftRotate(x: bv32, s: nat): bv32
    requires 0 < s < 32
  {
    (x << s) | ((x & 0xffffffff) >> (32 - s))
  }

  function StepSum(a: bv32, f: bv32, x: bv32, t: bv32): bv32 { a + (f + x + t) }

  function Step(f: bv32, a: bv32, b: bv32, x: bv32, t: bv32, s: nat): bv32
    requires 0 < s < 32
  {
    Add(ShiftRotate(StepSum(a, f, x, t), s), b)
  }

  lemma MaskIsIdentity(x: bv32)
    ensures x & 0xffffffff == x
  {}

  lemma ShiftRotateIsRotate(x: bv32, s: nat)
    requires 0 < s < 32
    ensures ShiftRotate(x, s) == Rotate(x, s)
  {
    MaskIsIdentity(x);
  }

  lemma StepSumIsSum(a: bv32, f: bv32, x: bv32, t: bv32)
    ensures StepSum(a, f, x, t) == Sum(a, f, x, t)
  {}

  lemma AddCommutes(x: bv32, y: bv32)
    ensures Add(x, y) == Add(y, x)
  {}

  /** One STEP of the source, in operation i's registers, is operation i of the RFC. */
  lemma StepIsOperation(i: nat, st: State, x: seq<bv32>)
    requires |x| == 16
    ensures var u := Operations(i, st, x);
            Operations(i + 1, st, x) ==
            State(u.d, Step(FastAux(i, u.b, u.c, u.d), u.a, u.b, x[WordIndex(i)], Sine(i), Amount(i)), u.b, u.c)
  {
    var u := Operations(i, st, x);
    FastAuxIsAux(i, u.b, u.c, u.d);
    hide FastAux, Aux, ShiftRotate, Rotate, Sine, Amount, WordIndex, Add, Sum, StepSum;
    var f, w, t := Aux(i, u.b, u.c, u.d), x[WordIndex(i)], Sine(i);
    StepSumIsSum(u.a, f, w, t);
    ShiftRotateIsRotate(Sum(u.a, f, w, t), Amount(i));
    AddCommutes(u.b, Rotate(Sum(u.a, f, w, t), Amount(i)));
  }

  /** Operation `i` reads word `k`, rotates by `s` and adds the constant `t`. */
  predicate Scheduled(i: nat, k: nat, s: nat, t: bv32) {
    WordIndex(i) == k && Amount(i) == s && Sine(i) == t
  }

  /** The same, round by round. */
  lemma StepF(i: nat, k: nat, s: nat, t: bv32, st: State, x: seq<bv32>)
    requires |x| == 16 && i < 16 && k < 16 && 0 < s < 32 && Scheduled(i, k, s, t)
    ensures var u := Operations(i, st, x);
            Operations(i + 1, st, x) == State(u.d, Step(FastF(u.b, u.c, u.d), u.a, u.b, x[k], t, s), u.b, u.c)
  {
    StepIsOperation(i, st, x);
    hide Operations, Step, Sine, WordIndex, Amount;
  }

  lemma StepG(i: nat, k: nat, s: nat, t: bv32, st: State, x: seq<bv32>)
    requires |x| == 16 && 16 <= i < 32 && k < 16 && 0 < s < 32 && Scheduled(i, k, s, t)
    ensures var u := Operations(i, st, x);
            Operations(i + 1, st, x) == State(u.d, Step(FastG(u.b, u.c, u.d), u.a, u.b, x[k], t, s), u.b, u.c)
  {
    StepIsOperation(i, st, x);
    hide Operations, Step, Sine, WordIndex, Amount;
  }

  lemma StepH(i: nat, k: nat, s: nat, t: bv32, st: State, x: seq<bv32>)
    requires |x| == 16 && 32 <= i < 48 && k < 16 && 0 < s < 32 && Scheduled(i, k, s, t)
    ensures var u := Operations(i, st, x);
            Operations(i + 1, st, x) == State(u.d, Step(FastH(u.b, u.c, u.d), u.a, u.b, x[k], t, s), u.b, u.c)
  {
    StepIsOperation(i, st, x);
    hide Operations, Step, Sine, WordIndex, Amount;
  }

  lemma StepI(i: nat, k: nat, s: nat, t: bv32, st: State, x: seq<bv32>)
    requires |x| == 16 && 48 <= i < 64 && k < 16 && 0 < s < 32 && Scheduled(i, k, s, t)
    ensures var u := Operations(i, st, x);
            Operations(i + 1, st, x) == State(u.d, Step(FastI(u.b, u.c, u.d), u.a, u.b, x[k], t, s), u.b, u.c)
  {
    StepIsOperation(i, st, x);
    hide Operations, Step, Sine, WordIndex, Amount;
  }

  lemma Schedule1()
    ensures Scheduled(0, 0, 7, 0xd76aa478)
    ensures Scheduled(1, 1, 12, 0xe8c7b756)
    ensures Scheduled(2, 2, 17, 0x242070db)
    ensures Scheduled(3, 3, 22, 0xc1bdceee)
    ensures Scheduled(4, 4, 7, 0xf57c0faf)
    ensures Scheduled(5, 5, 12, 0x4787c62a)
    ensures Scheduled(6, 6, 17, 0xa8304613)
    ensures Scheduled(7, 7, 22, 0xfd469501)
    ensures Scheduled(8, 8, 7, 0x698098d8)
    ensures Scheduled(9, 9, 12, 0x8b44f7af)
    ensures Scheduled(10, 10, 17, 0xffff5bb1)
    ensures Scheduled(11, 11, 22, 0x895cd7be)
    ensures Scheduled(12, 12, 7, 0x6b901122)
    ensures Scheduled(13, 13, 12, 0xfd987193)
    ensures Scheduled(14, 14, 17, 0xa679438e)
    ensures Scheduled(15, 15, 22, 0x49b40821)
  {}

  lemma Schedule2()
    ensures Scheduled(16, 1, 5, 0xf61e2562)
    ensures Scheduled(17, 6, 9, 0xc040b340)
    ensures Scheduled(18, 11, 14, 0x265e5a51)
    ensures Scheduled(19, 0, 20, 0xe9b6c7aa)
    ensures Scheduled(20, 5, 5, 0xd62f105d)
    ensures Scheduled(21, 10, 9, 0x02441453)
    ensures Scheduled(22, 15, 14, 0xd8a1e681)
    ensures Scheduled(23, 4, 20, 0xe7d3fbc8)
    ensures Scheduled(24, 9, 5, 0x21e1cde6)
    ensures Scheduled(25, 14, 9, 0xc33707d6)
    ensures Scheduled(26, 3, 14, 0xf4d50d87)
    ensures Scheduled(27, 8, 20, 0x455a14ed)
    ensures Scheduled(28, 13, 5, 0xa9e3e905)
    ensures Scheduled(29, 2, 9, 0xfcefa3f8)
    ensures Scheduled(30, 7, 14, 0x676f02d9)
    ensures Scheduled(31, 12, 20, 0x8d2a4c8a)
  {}

  lemma Schedule3()
    ensures Scheduled(32, 5, 4, 0xfffa3942)
    ensures Scheduled(33, 8, 11, 0x8771f681)
    ensures Scheduled(34, 11, 16, 0x6d9d6122)
    ensures Scheduled(35, 14, 23, 0xfde5380c)
    ensures Scheduled(36, 1, 4, 0xa4beea44)
    ensures Scheduled(37, 4, 11, 0x4bdecfa9)
    ensures Scheduled(38, 7, 16, 0xf6bb4b60)
    ensures Scheduled(39, 10, 23, 0xbebfbc70)
    ensures Scheduled(40, 13, 4, 0x289b7ec6)
    ensures Scheduled(41, 0, 11, 0xeaa127fa)
    ensures Scheduled(42, 3, 16, 0xd4ef3085)
    ensures Scheduled(43, 6, 23, 0x04881d05)
    ensures Scheduled(44, 9, 4, 0xd9d4d039)
    ensures Scheduled(45, 12, 11, 0xe6db99e5)
    ensures Scheduled(46, 15, 16, 0x1fa27cf8)
    ensures Scheduled(47, 2, 23, 0xc4ac5665)
  {}

  lemma Schedule4()
    ensures Scheduled(48, 0, 6, 0xf4292244)
    ensures Scheduled(49, 7, 10, 0x432aff97)
    ensures Scheduled(50, 14, 15, 0xab9423a7)
    ensures Scheduled(51, 5, 21, 0xfc93a039)
    ensures Scheduled(52, 12, 6, 0x655b59c3)
    ensures Scheduled(53, 3, 10, 0x8f0ccc92)
    ensures Scheduled(54, 10, 15, 0xffeff47d)
    ensures Scheduled(55, 1, 21, 0x85845dd1)
    ensures Scheduled(56, 8, 6, 0x6fa87e4f)
    ensures Scheduled(57, 15, 10, 0xfe2ce6e0)
    ensures Scheduled(58, 6, 15, 0xa3014314)
    ensures Scheduled(59, 13, 21, 0x4e0811a1)
    ensures Scheduled(60, 4, 6, 0xf7537e82)
    ensures Scheduled(61, 11, 10, 0xbd3af235)
    ensures Scheduled(62, 2, 15, 0x2ad7d2bb)
    ensures Scheduled(63, 9, 21, 0xeb86d391)
  {}

  method Round1(sa: bv32, sb: bv32, sc: bv32, sd: bv32, x: seq<bv32>, ghost st: State)
    returns (a: bv32, b: bv32, c: bv32, d: bv32)
    requires |x| == 16 && State(sa, sb, sc, sd) == Operations(0, st, x)
    ensures State(a, b, c, d) == Operations(16, st, x)
  {
    hide Operations, Step, FastF, FastG, FastH, FastI, Sine, WordIndex, Amount, Scheduled;
    Schedule1();
    a, b, c, d := sa, sb, sc, sd;
    StepF(0, 0, 7, 0xd76aa478, st, x);
    a := Step(FastF(b, c, d), a, b, x[0], 0xd76aa478, 7);
    StepF(1, 1, 12, 0xe8c7b756, st, x);
    d := Step(FastF(a, b, c), d, a, x[1], 0xe8c7b756, 12);
    StepF(2, 2, 17, 0x242070db, st, x);
    c := Step(FastF(d, a, b), c, d, x[2], 0x242070db, 17);
    StepF(3, 3, 22, 0xc1bdceee, st, x);
    b := Step(FastF(c, d, a), b, c, x[3], 0xc1bdceee, 22);
    StepF(4, 4, 7, 0xf57c0faf, st, x);
    a := Step(FastF(b, c, d), a, b, x[4], 0xf57c0faf, 7);
    StepF(5, 5, 12, 0x4787c62a, st, x);
    d := Step(FastF(a, b, c), d, a, x[5], 0x4787c62a, 12);
    StepF(6, 6, 17, 0xa8304613, st, x);
    c := Step(FastF(d, a, b), c, d, x[6], 0xa8304613, 17);
    StepF(7, 7, 22, 0xfd469501, st, x);
    b := Step(FastF(c, d, a), b, c, x[7], 0xfd469501, 22);
    StepF(8, 8, 7, 0x698098d8, st, x);
    a := Step(FastF(b, c, d), a, b, x[8], 0x698098d8, 7);
    StepF(9, 9, 12, 0x8b44f7af, st, x);
    d := Step(FastF(a, b, c), d, a, x[9], 0x8b44f7af, 12);
    StepF(10, 10, 17, 0xffff5bb1, st, x);
    c := Step(FastF(d, a, b), c, d, x[10], 0xffff5bb1, 17);
    StepF(11, 11, 22, 0x895cd7be, st, x);
    b := Step(FastF(c, d, a), b, c, x[11], 0x895cd7be, 22);
    StepF(12, 12, 7, 0x6b901122, st, x);
    a := Step(FastF(b, c, d), a, b, x[12], 0x6b901122, 7);
    StepF(13, 13, 12, 0xfd987193, st, x);
    d := Step(FastF(a, b, c), d, a, x[13], 0xfd987193, 12);
    StepF(14, 14, 17, 0xa679438e, st, x);
    c := Step(FastF(d, a, b), c, d, x[14], 0xa679438e, 17);
    StepF(15, 15, 22, 0x49b40821, st, x);
    b := Step(FastF(c, d, a), b, c, x[15], 0x49b40821, 22);
  }

  method Round2(sa: bv32, sb: bv32, sc: bv32, sd: bv32, x: seq<bv32>, ghost st: State)
    returns (a: bv32, b: bv32, c: bv32, d: bv32)
    requires |x| == 16 && State(sa, sb, sc, sd) == Operations(16, st, x)
    ensures State(a, b, c, d) == Operations(32, st, x)
  {
    hide Operations, Step, FastF, FastG, FastH, FastI, Sine, WordIndex, Amount, Scheduled;
    Schedule2();
    a, b, c, d := sa, sb, sc, sd;
    StepG(16, 1, 5, 0xf61e2562, st, x);
    a := Step(FastG(b, c, d), a, b, x[1], 0xf61e2562, 5);
    StepG(17, 6, 9, 0xc040b340, st, x);
    d := Step(FastG(a, b, c), d, a, x[6], 0xc040b340, 9);
    StepG(18, 11, 14, 0x265e5a51, st, x);
    c := Step(FastG(d, a, b), c, d, x[11], 0x265e5a51, 14);
    StepG(19, 0, 20, 0xe9b6c7aa, st, x);
    b := Step(FastG(c, d, a), b, c, x[0], 0xe9b6c7aa, 20);
    StepG(20, 5, 5, 0xd62f105d, st, x);
    a := Step(FastG(b, c, d), a, b, x[5], 0xd62f105d, 5);
    StepG(21, 10, 9, 0x02441453, st, x);
    d := Step(FastG(a, b, c), d, a, x[10], 0x02441453, 9);
    StepG(22, 15, 14, 0xd8a1e681, st, x);
    c := Step(FastG(d, a, b), c, d, x[15], 0xd8a1e681, 14);
    StepG(23, 4, 20, 0xe7d3fbc8, st, x);
    b := Step(FastG(c, d, a), b, c, x[4], 0xe7d3fbc8, 20);
    StepG(24, 9, 5, 0x21e1cde6, st, x);
    a := Step(FastG(b, c, d), a, b, x[9], 0x21e1cde6, 5);
    StepG(25, 14, 9, 0xc33707d6, st, x);
    d := Step(FastG(a, b, c), d, a, x[14], 0xc33707d6, 9);
    StepG(26, 3, 14, 0xf4d50d87, st, x);
    c := Step(FastG(d, a, b), c, d, x[3], 0xf4d50d87, 14);
    StepG(27, 8, 20, 0x455a14ed, st, x);
    b := Step(FastG(c, d, a), b, c, x[8], 0x455a14ed, 20);
    StepG(28, 13, 5, 0xa9e3e905, st, x);
    a := Step(FastG(b, c, d), a, b, x[13], 0xa9e3e905, 5);
    StepG(29, 2, 9, 0xfcefa3f8, st, x);
    d := Step(FastG(a, b, c), d, a, x[2], 0xfcefa3f8, 9);
    StepG(30, 7, 14, 0x676f02d9, st, x);
    c := Step(FastG(d, a, b), c, d, x[7], 0x676f02d9, 14);
    StepG(31, 12, 20, 0x8d2a4c8a, st, x);
    b := Step(FastG(c, d, a), b, c, x[12], 0x8d2a4c8a, 20);
  }

  method Round3(sa: bv32, sb: bv32, sc: bv32, sd: bv32, x: seq<bv32>, ghost st: State)
    returns (a: bv32, b: bv32, c: bv32, d: bv32)
    requires |x| == 16 && State(sa, sb, sc, sd) == Operations(32, st, x)
    ensures State(a, b, c, d) == Operations(48, st, x)
  {
    hide Operations, Step, FastF, FastG, FastH, FastI, Sine, WordIndex, Amount, Scheduled;
    Schedule3();
    a, b, c, d := sa, sb, sc, sd;
    StepH(32, 5, 4, 0xfffa3942, st, x);
    a := Step(FastH(b, c, d), a, b, x[5], 0xfffa3942, 4);
    StepH(33, 8, 11, 0x8771f681, st, x);
    d := Step(FastH(a, b, c), d, a, x[8], 0x8771f681, 11);
    StepH(34, 11, 16, 0x6d9d6122, st, x);
    c := Step(FastH(d, a, b), c, d, x[11], 0x6d9d6122, 16);
    StepH(35, 14, 23, 0xfde5380c, st, x);
    b := Step(FastH(c, d, a), b, c, x[14], 0xfde5380c, 23);
    StepH(36, 1, 4, 0xa4beea44, st, x);
    a := Step(FastH(b, c, d), a, b, x[1], 0xa4beea44, 4);
    StepH(37, 4, 11, 0x4bdecfa9, st, x);
    d := Step(FastH(a, b, c), d, a, x[4], 0x4bdecfa9, 11);
    StepH(38, 7, 16, 0xf6bb4b60, st, x);
    c := Step(FastH(d, a, b), c, d, x[7], 0xf6bb4b60, 16);
    StepH(39, 10, 23, 0xbebfbc70, st, x);
    b := Step(FastH(c, d, a), b, c, x[10], 0xbebfbc70, 23);
    StepH(40, 13, 4, 0x289b7ec6, st, x);
    a := Step(FastH(b, c, d), a, b, x[13], 0x289b7ec6, 4);
    StepH(41, 0, 11, 0xeaa127fa, st, x);
    d := Step(FastH(a, b, c), d, a, x[0], 0xeaa127fa, 11);
    StepH(42, 3, 16, 0xd4ef3085, st, x);
    c := Step(FastH(d, a, b), c, d, x[3], 0xd4ef3085, 16);
    StepH(43, 6, 23, 0x04881d05, st, x);
    b := Step(FastH(c, d, a), b, c, x[6], 0x04881d05, 23);
    StepH(44, 9, 4, 0xd9d4d039, st, x);
    a := Step(FastH(b, c, d), a, b, x[9], 0xd9d4d039, 4);
    StepH(45, 12, 11, 0xe6db99e5, st, x);
    d := Step(FastH(a, b, c), d, a, x[12], 0xe6db99e5, 11);
    StepH(46, 15, 16, 0x1fa27cf8, st, x);
    c := Step(FastH(d, a, b), c, d, x[15], 0x1fa27cf8, 16);
    StepH(47, 2, 23, 0xc4ac5665, st, x);
    b := Step(FastH(c, d, a), b, c, x[2], 0xc4ac5665, 23);
  }

  method Round4(sa: bv32, sb: bv32, sc: bv32, sd: bv32, x: seq<bv32>, ghost st: State)
    returns (a: bv32, b: bv32, c: bv32, d: bv32)
    requires |x| == 16 && State(sa, sb, sc, sd) == Operations(48, st, x)
    ensures State(a, b, c, d) == Operations(64, st, x)
  {
    hide Operations, Step, FastF, FastG, FastH, FastI, Sine, WordIndex, Amount, Scheduled;
    Schedule4();
    a, b, c, d := sa, sb, sc, sd;
    StepI(48, 0, 6, 0xf4292244, st, x);
    a := Step(FastI(b, c, d), a, b, x[0], 0xf4292244, 6);
    StepI(49, 7, 10, 0x432aff97, st, x);
    d := Step(FastI(a, b, c), d, a, x[7], 0x432aff97, 10);
    StepI(50, 14, 15, 0xab9423a7, st, x);
    c := Step(FastI(d, a, b), c, d, x[14], 0xab9423a7, 15);
    StepI(51, 5, 21, 0xfc93a039, st, x);
    b := Step(FastI(c, d, a), b, c, x[5], 0xfc93a039, 21);
    StepI(52, 12, 6, 0x655b59c3, st, x);
    a := Step(FastI(b, c, d), a, b, x[12], 0x655b59c3, 6);
    StepI(53, 3, 10, 0x8f0ccc92, st, x);
    d := Step(FastI(a, b, c), d, a, x[3], 0x8f0ccc92, 10);
    StepI(54, 10, 15, 0xffeff47d, st, x);
    c := Step(FastI(d, a, b), c, d, x[10], 0xffeff47d, 15);
    StepI(55, 1, 21, 0x85845dd1, st, x);
    b := Step(FastI(c, d, a), b, c, x[1], 0x85845dd1, 21);
    StepI(56, 8, 6, 0x6fa87e4f, st, x);
    a := Step(FastI(b, c, d), a, b, x[8], 0x6fa87e4f, 6);
    StepI(57, 15, 10, 0xfe2ce6e0, st, x);
    d := Step(FastI(a, b, c), d, a, x[15], 0xfe2ce6e0, 10);
    StepI(58, 6, 15, 0xa3014314, st, x);
    c := Step(FastI(d, a, b), c, d, x[6], 0xa3014314, 15);
    StepI(59, 13, 21, 0x4e0811a1, st, x);
    b := Step(FastI(c, d, a), b, c, x[13], 0x4e0811a1, 21);
    StepI(60, 4, 6, 0xf7537e82, st, x);
    a := Step(FastI(b, c, d), a, b, x[4], 0xf7537e82, 6);
    StepI(61, 11, 10, 0xbd3af235, st, x);
    d := Step(FastI(a, b, c), d, a, x[11], 0xbd3af235, 10);
    StepI(62, 2, 15, 0x2ad7d2bb, st, x);
    c := Step(FastI(d, a, b), c, d, x[2], 0x2ad7d2bb, 15);
    StepI(63, 9, 21, 0xeb86d391, st, x);
    b := Step(FastI(c, d, a), b, c, x[9], 0xeb86d391, 21);
  }

  /** The additions that close a block, in the order the source writes them. */
  lemma AddBack(st: State, block: Bytes)
    requires |block| == 64
    ensures var r := Operations(64, st, Words(block));
            Compress(st, block) == State(Add(r.a, st.a), Add(r.b, st.b), Add(r.c, st.c), Add(r.d, st.d))
  {
    hide Operations, Add;
    var r := Operations(64, st, Words(block));
    AddCommutes(r.a, st.a);
    AddCommutes(r.b, st.b);
    AddCommutes(r.c, st.c);
    AddCommutes(r.d, st.d);
  }

  /** The body of the block loop of Transform: 64 steps in place, then the saved words are added. */
  method CompressBlock(sa: bv32, sb: bv32, sc: bv32, sd: bv32, block: Bytes)
    returns (a: bv32, b: bv32, c: bv32, d: bv32)
    requires |block| == 64
    ensures State(a, b, c, d) == Compress(State(sa, sb, sc, sd), block)
  {
    ghost var st := State(sa, sb, sc, sd);
    AddBack(st, block);
    assert Operations(0, st, Words(block)) == st;
    hide Operations, Add, Words, Compress;
    var x := Words(block);
    a, b, c, d := Round1(sa, sb, sc, sd, x, st);
    a, b, c, d := Round2(a, b, c, d, x, st);
    a, b, c, d := Round3(a, b, c, d, x, st);
    a, b, c, d := Round4(a, b, c, d, x, st);
    a, b, c, d := Add(a, sa), Add(b, sb), Add(c, sc), Add(d, sd);
  }
}
