/** The byte format of kbase/pickle.h: what a value is written as, and what a reader makes of it. */
module PickleFormat {
  import opened ByteOrder
  import opened Sequences

  const WRAP64 := 0x1_0000_0000_0000_0000

  type size_t = x: int | 0 <= x < WRAP64

  // ---- RoundToMultiple, with the wrap-around of size_t ----

  function RoundToMultiple(num: size_t, factor: size_t): size_t {
    if factor == 0 then 0 else
    var last := (num - 1) % WRAP64;
    (last - last % factor + factor) % WRAP64
  }

  lemma MultipleNear(x: nat, f: nat)
    requires f > 0
    ensures (x - x % f) % f == 0 && (x - x % f + f) % f == 0
    ensures x - x % f <= x < x - x % f + f
  {
    assert x - x % f == x / f * f;
    assert x - x % f + f == (x / f + 1) * f;
    MultipleMod(x / f, f);
    MultipleMod(x / f + 1, f);
  }

  lemma MulMonotone(a: int, b: int, f: nat)
    requires a <= b
    ensures a * f <= b * f
  {}

  lemma MultipleMod(k: nat, f: nat)
    requires f > 0
    ensures k * f % f == 0
  {
    var q := k * f / f;
    assert q * f <= k * f < q * f + f;
    if q < k {
      MulMonotone(q + 1, k, f);
    } else if q > k {
      MulMonotone(k + 1, q, f);
    }
  }

  /** For a positive number it is the least multiple that is not smaller. */
  lemma RoundsUp(num: size_t, factor: size_t)
    requires factor > 0 && num > 0 && num + factor <= WRAP64
    ensures var r := RoundToMultiple(num, factor);
            r % factor == 0 && num <= r < num + factor
  {
    var last := num - 1;
    MultipleNear(last, factor);
    NoWrap(last);
    NoWrap(last - last % factor + factor);
  }

  lemma NoWrap(n: nat)
    requires n < WRAP64
    ensures n % WRAP64 == n
  {}

  /** Zero is rounded to zero only because, and only when, the factor divides 2^64. */
  lemma RoundsZero(factor: size_t)
    requires factor > 0
    ensures RoundToMultiple(0, factor) == 0 <==> WRAP64 % factor == 0
  {
    var last := WRAP64 - 1;
    var r := last - last % factor + factor;
    MultipleNear(last, factor);
    assert RoundToMultiple(0, factor) == r % WRAP64;
    assert WRAP64 <= r < 2 * WRAP64;
    if WRAP64 % factor == 0 {
      NextMultiple(r - factor, WRAP64, factor);
    }
  }

  lemma NextMultiple(low: nat, m: nat, f: nat)
    requires f > 0 && low % f == 0 && m % f == 0 && low < m <= low + f
    ensures m == low + f
  {
    var a, b := low / f, m / f;
    assert low == a * f && m == b * f;
    if b <= a {
      MulMonotone(b, a, f);
    } else if b >= a + 2 {
      MulMonotone(a + 2, b, f);
    }
  }

  // ---- Segments ----

  /** The next multiple of four. */
  function Aligned(n: nat): (r: nat)
    ensures r % 4 == 0 && n <= r < n + 4
  {
    (n + 3) / 4 * 4
  }

  lemma AlignedIsRounding(n: nat)
    requires n + 4 <= WRAP64
    ensures RoundToMultiple(n, 4) == Aligned(n)
  {}

  /** A segment goes to the next aligned offset; the gap in front of it is zero. */
  function Append(payload: Bytes, segment: Bytes): (r: Bytes)
    ensures |r| == Aligned(|payload|) + |segment|
    ensures payload <= r && r[Aligned(|payload|)..] == segment
  {
    payload + Zeros(Aligned(|payload|) - |payload|) + segment
  }

  /** The payload made of segments written one after the other: no padding after the last. */
  function Layout(segments: seq<Bytes>): Bytes {
    if segments == [] then []
    else Append(Layout(segments[..|segments| - 1]), segments[|segments| - 1])
  }

  lemma LayoutLast(front: seq<Bytes>, segment: Bytes)
    ensures Layout(front + [segment]) == Append(Layout(front), segment)
  {
    assert (front + [segment])[..|front|] == front;
  }

  lemma {:induction false} LayoutPrefix(front: seq<Bytes>, back: seq<Bytes>)
    ensures Layout(front) <= Layout(front + back)
    decreases |back|
  {
    if back == [] {
      assert front + back == front;
    } else {
      var n := |back| - 1;
      assert front + back == (front + back[..n]) + [back[n]];
      LayoutLast(front + back[..n], back[n]);
      LayoutPrefix(front, back[..n]);
    }
  }

  /** Every segment starts aligned, stands there unchanged, and is preceded by zeros only. */
  lemma SegmentsInPlace(front: seq<Bytes>, segment: Bytes, back: seq<Bytes>)
    ensures var p, at := Layout(front + [segment] + back), Aligned(|Layout(front)|);
            && at % 4 == 0 && at + |segment| <= |p|
            && p[at..at + |segment|] == segment
            && forall i :: |Layout(front)| <= i < at ==> p[i] == 0
  {
    AppendPlaces(Layout(front), segment);
    hide *;
    LayoutLast(front, segment);
    LayoutPrefix(front + [segment], back);
    var p, q := Layout(front + [segment] + back), Layout(front + [segment]);
    var at := Aligned(|Layout(front)|);
    assert p[..|q|] == q;
    assert p[at..at + |segment|] == q[at..];
    assert forall i :: |Layout(front)| <= i < at ==> p[i] == q[i];
  }

  lemma AppendPlaces(payload: Bytes, segment: Bytes)
    ensures var at, r := Aligned(|payload|), Append(payload, segment);
            && at % 4 == 0 && |payload| <= at && |r| == at + |segment| && r[at..] == segment
            && forall i :: |payload| <= i < at ==> r[i] == 0
  {}

  // ---- Reading segments ----

  /** What a read yields; Beyond is a read past the end of the data, which the source leaves undefined. */
  datatype Read<T> = Got(value: T, pos: nat) | Beyond

  /** SeekReadPosition: on to the next segment, or to the end if this was the last. */
  function Seek(end: nat, pos: nat, n: nat): nat {
    if pos + Aligned(n) > end then pos + n else pos + Aligned(n)
  }

  function Take(p: Bytes, pos: nat, n: nat): Read<Bytes> {
    if pos + n <= |p| then Got(p[pos..pos + n], Seek(|p|, pos, n)) else Beyond
  }

  /** Where the reader stands when it has read the segments of `front`. */
  function Reached(p: Bytes, front: seq<Bytes>): nat {
    var at := Aligned(|Layout(front)|);
    if at <= |p| then at else |p|
  }

  lemma TakeSegment(p: Bytes, front: seq<Bytes>, segment: Bytes, back: seq<Bytes>)
    requires p == Layout(front + [segment] + back) && segment != []
    requires forall s :: s in back ==> s != []
    ensures Take(p, Reached(p, front), |segment|) == Got(segment, Reached(p, front + [segment]))
  {
    hide Aligned, Layout, Append;
    SegmentsInPlace(front, segment, back);
    LayoutLast(front, segment);
    var at, n := Aligned(|Layout(front)|), |segment|;
    assert |Layout(front + [segment])| == at + n by {
      AppendLength(Layout(front), segment);
    }
    if back == [] {
      assert front + [segment] + back == front + [segment];
    } else {
      assert back[0] in back;
      NextSegment(front + [segment], back);
    }
    SeekOn(|p|, at, n);
  }

  lemma AppendLength(payload: Bytes, segment: Bytes)
    ensures |Append(payload, segment)| == Aligned(|payload|) + |segment|
  {}

  /** A further segment lies behind the padding of those before it. */
  lemma NextSegment(front: seq<Bytes>, back: seq<Bytes>)
    requires back != [] && back[0] != []
    ensures |Layout(front + back)| > Aligned(|Layout(front)|)
  {
    hide Aligned, Layout, Append;
    SegmentsInPlace(front, back[0], back[1..]);
    assert front + back == front + [back[0]] + back[1..];
  }

  /** Behind a segment that ends the data there is nothing to skip, behind any other its padding. */
  lemma SeekOn(end: nat, at: nat, n: nat)
    requires at % 4 == 0 && (end == at + n || end > Aligned(at + n))
    ensures Seek(end, at, n) == if Aligned(at + n) <= end then Aligned(at + n) else end
  {
    AlignedSum(at, n);
    hide Aligned;
  }

  lemma AlignedSum(at: nat, n: nat)
    requires at % 4 == 0
    ensures Aligned(at + n) == at + Aligned(n)
  {}

  // ---- Types and values ----

  /** How a container takes an element: a vector or list keeps it, a set drops one it has,
      a map drops one whose key it has. */
  datatype Mode = Sequence | Distinct | Keyed

  /** Primitives of `width` bytes, strings of `unit`-byte characters, pairs and containers. */
  datatype Type = Prim(width: nat) | Str(unit: nat) | Pair(first: Type, second: Type) | Many(mode: Mode, elem: Type)

  /** A primitive is the number its bytes spell; a container lists its elements in iteration order. */
  datatype Value = Num(n: nat) | Text(chars: seq<nat>) | Both(a: Value, b: Value) | List(items: seq<Value>)

  /** Types whose primitives and characters have a size. */
  predicate Sized(t: Type) {
    match t
    case Prim(w) => w > 0
    case Str(u) => u > 0
    case Pair(t1, t2) => Sized(t1) && Sized(t2)
    case Many(_, e) => Sized(e)
  }

  predicate HasType(v: Value, t: Type)
    decreases t
  {
    match t
    case Prim(w) => w > 0 && v.Num? && v.n < Pow256(w)
    case Str(u) => u > 0 && v.Text? && |v.chars| < WRAP64 && forall c :: c in v.chars ==> c < Pow256(u)
    case Pair(t1, t2) => v.Both? && HasType(v.a, t1) && HasType(v.b, t2)
    case Many(mode, e) =>
      && v.List? && |v.items| < WRAP64 && Sized(e)
      && (mode.Keyed? ==> e.Pair?)
      && (forall x :: x in v.items ==> HasType(x, e))
      && (forall i, j :: 0 <= i < j < |v.items| ==> !Clash(mode, v.items[i], v.items[j]))
  }

  /** Whether a container would not hold both. */
  predicate Clash(mode: Mode, x: Value, y: Value) {
    match mode
    case Sequence => false
    case Distinct => x == y
    case Keyed => x.Both? && y.Both? && x.a == y.a
  }

  function Insert(mode: Mode, items: seq<Value>, x: Value): seq<Value> {
    if exists y :: y in items && Clash(mode, y, x) then items else items + [x]
  }

  // ---- Writing ----

  function Chars(chars: seq<nat>, unit: nat): (r: Bytes)
    ensures |r| == unit * |chars|
  {
    if chars == [] then [] else LittleEndian(chars[0], unit) + Chars(chars[1..], unit)
  }

  function Size(n: nat): Bytes {
    LittleEndian(n, 8)
  }

  /** The segments that operator<< writes. */
  function Encode(v: Value, t: Type): seq<Bytes>
    requires HasType(v, t)
    decreases t, 0
  {
    match t
    case Prim(w) => [LittleEndian(v.n, w)]
    case Str(u) => if v.chars == [] then [Size(0)] else [Size(|v.chars|), Chars(v.chars, u)]
    case Pair(t1, t2) => Encode(v.a, t1) + Encode(v.b, t2)
    case Many(mode, e) => [Size(|v.items|)] + EncodeItems(v.items, e)
  }

  function EncodeItems(items: seq<Value>, e: Type): seq<Bytes>
    requires forall x :: x in items ==> HasType(x, e)
    decreases e, 1 + |items|
  {
    if items == [] then [] else Encode(items[0], e) + EncodeItems(items[1..], e)
  }

  // ---- Reading ----

  function Split(b: Bytes, unit: nat, count: nat): seq<nat>
    requires |b| == unit * count
  {
    if count == 0 then [] else
    assert unit * count == unit + unit * (count - 1);
    [ByteOrder.Value(b[..unit])] + Split(b[unit..], unit, count - 1)
  }

  /** What operator>> makes of the bytes from `pos` on. */
  function Decode(t: Type, p: Bytes, pos: nat): Read<Value>
    decreases t, 0
  {
    match t
    case Prim(w) =>
      (match Take(p, pos, w)
       case Got(b, q) => Got(Num(ByteOrder.Value(b)), q)
       case Beyond => Beyond)
    case Str(u) =>
      (match Take(p, pos, 8)
       case Got(b, q) =>
         var n := ByteOrder.Value(b);
         if n == 0 then Got(Text([]), q) else
         (match Take(p, q, u * n)
          case Got(c, r) => Got(Text(Split(c, u, n)), r)
          case Beyond => Beyond)
       case Beyond => Beyond)
    case Pair(t1, t2) =>
      (match Decode(t1, p, pos)
       case Got(a, q) =>
         (match Decode(t2, p, q)
          case Got(b, r) => Got(Both(a, b), r)
          case Beyond => Beyond)
       case Beyond => Beyond)
    case Many(mode, e) =>
      (match Take(p, pos, 8)
       case Got(b, q) =>
         (match DecodeItems(mode, e, p, q, ByteOrder.Value(b), [])
          case Got(items, r) => Got(List(items), r)
          case Beyond => Beyond)
       case Beyond => Beyond)
  }

  /** `count` elements are read and inserted into a container that already has `items`. */
  function DecodeItems(mode: Mode, e: Type, p: Bytes, pos: nat, count: nat, items: seq<Value>): Read<seq<Value>>
    decreases e, 1 + count
  {
    if count == 0 then Got(items, pos) else
    match Decode(e, p, pos)
    case Got(x, q) => DecodeItems(mode, e, p, q, count - 1, Insert(mode, items, x))
    case Beyond => Beyond
  }

  // ---- The round trip ----

  lemma {:induction false} EncodeNonEmpty(v: Value, t: Type)
    requires HasType(v, t)
    ensures forall s :: s in Encode(v, t) ==> s != []
    decreases t, 0
  {
    match t
    case Prim(w) =>
    case Str(u) => CharsNonEmpty(v.chars, u);
    case Pair(t1, t2) => EncodeNonEmpty(v.a, t1); EncodeNonEmpty(v.b, t2);
    case Many(mode, e) => ItemsNonEmpty(v.items, e);
  }

  lemma CharsNonEmpty(chars: seq<nat>, unit: nat)
    requires unit > 0
    ensures chars != [] ==> Chars(chars, unit) != []
  {
    if chars != [] {
      assert Chars(chars, unit) == LittleEndian(chars[0], unit) + Chars(chars[1..], unit);
    }
  }

  lemma {:induction false} ItemsNonEmpty(items: seq<Value>, e: Type)
    requires forall x :: x in items ==> HasType(x, e)
    ensures forall s :: s in EncodeItems(items, e) ==> s != []
    decreases e, 1 + |items|
  {
    if items != [] {
      EncodeNonEmpty(items[0], e);
      ItemsNonEmpty(items[1..], e);
    }
  }

  lemma {:induction false} SplitChars(chars: seq<nat>, unit: nat)
    requires forall c :: c in chars ==> c < Pow256(unit)
    ensures Split(Chars(chars, unit), unit, |chars|) == chars
  {
    if chars != [] {
      var b := Chars(chars, unit);
      assert b[..unit] == LittleEndian(chars[0], unit) && b[unit..] == Chars(chars[1..], unit);
      assert chars[0] in chars && forall c :: c in chars[1..] ==> c in chars;
      ValueOfLittleEndian(chars[0], unit);
      SplitChars(chars[1..], unit);
    }
  }

  lemma TakeSize(p: Bytes, front: seq<Bytes>, n: nat, back: seq<Bytes>)
    requires n < WRAP64 && p == Layout(front + [Size(n)] + back)
    requires forall s :: s in back ==> s != []
    ensures var r := Take(p, Reached(p, front), 8);
            r.Got? && ByteOrder.Value(r.value) == n && r.pos == Reached(p, front + [Size(n)])
  {
    TakeSegment(p, front, Size(n), back);
    assert Pow256(8) == WRAP64;
    ValueOfLittleEndian(n, 8);
  }

  lemma Regroup<T>(a: seq<T>, b: seq<T>, c: seq<T>, d: seq<T>)
    ensures a + (b + c) + d == a + b + (c + d)
    ensures a + (b + c) + d == (a + b) + c + d
    ensures a + (b + c) == (a + b) + c
  {}

  /** Reading the type that was written, at the place where it was written, gives the value back and
      leaves the reader in front of what was written next. */
  lemma {:induction false} DecodeEncode(v: Value, t: Type, p: Bytes, front: seq<Bytes>, back: seq<Bytes>)
    requires HasType(v, t) && p == Layout(front + Encode(v, t) + back)
    requires forall s :: s in back ==> s != []
    ensures Decode(t, p, Reached(p, front)) == Got(v, Reached(p, front + Encode(v, t)))
    decreases t, 1
  {
    match t
    case Prim(w) =>
      TakeSegment(p, front, LittleEndian(v.n, w), back);
      ValueOfLittleEndian(v.n, w);
    case Str(u) => DecodeText(v, u, p, front, back);
    case Pair(t1, t2) => DecodePair(v, t1, t2, p, front, back);
    case Many(mode, e) => DecodeContainer(v, mode, e, p, front, back);
  }

  lemma {:induction false} DecodePair(v: Value, t1: Type, t2: Type, p: Bytes, front: seq<Bytes>, back: seq<Bytes>)
    requires HasType(v, Pair(t1, t2)) && p == Layout(front + Encode(v, Pair(t1, t2)) + back)
    requires forall s :: s in back ==> s != []
    ensures Decode(Pair(t1, t2), p, Reached(p, front)) == Got(v, Reached(p, front + Encode(v, Pair(t1, t2))))
    decreases Pair(t1, t2), 0
  {
    hide Layout, Reached, HasType, Take;
    TypedPair(v, t1, t2);
    var x, y := Encode(v.a, t1), Encode(v.b, t2);
    EncodeNonEmpty(v.b, t2);
    Regroup(front, x, y, back);
    DecodeEncode(v.a, t1, p, front, y + back);
    DecodeEncode(v.b, t2, p, front + x, back);
  }

  lemma TypedPair(v: Value, t1: Type, t2: Type)
    requires HasType(v, Pair(t1, t2))
    ensures v.Both? && HasType(v.a, t1) && HasType(v.b, t2)
  {}

  lemma {:induction false} DecodeContainer(v: Value, mode: Mode, e: Type, p: Bytes, front: seq<Bytes>, back: seq<Bytes>)
    requires HasType(v, Many(mode, e)) && p == Layout(front + Encode(v, Many(mode, e)) + back)
    requires forall s :: s in back ==> s != []
    ensures Decode(Many(mode, e), p, Reached(p, front)) == Got(v, Reached(p, front + Encode(v, Many(mode, e))))
    decreases Many(mode, e), 0
  {
    hide Layout, Reached, Take, Kept, EncodeItems, DecodeItems, Size;
    var n, x := Size(|v.items|), EncodeItems(v.items, e);
    ItemsNonEmpty(v.items, e);
    NothingDropped(mode, v.items);
    hide Clash;
    Regroup(front, [n], x, back);
    TakeSize(p, front, |v.items|, x + back);
    AllItems(v.items);
    DecodeElements(v.items, 0, mode, e, p, front + [n], back);
    DecodeMany(mode, e, p, Reached(p, front));
  }

  lemma DecodeText(v: Value, u: nat, p: Bytes, front: seq<Bytes>, back: seq<Bytes>)
    requires HasType(v, Str(u)) && p == Layout(front + Encode(v, Str(u)) + back)
    requires forall s :: s in back ==> s != []
    ensures Decode(Str(u), p, Reached(p, front)) == Got(v, Reached(p, front + Encode(v, Str(u))))
  {
    hide Layout, Append, Aligned, Reached, Take, Chars, Size, Split, Pow256, ByteOrder.Value;
    var n := |v.chars|;
    if n == 0 {
      TakeSize(p, front, 0, back);
    } else {
      var c := Chars(v.chars, u);
      CharsNonEmpty(v.chars, u);
      Regroup(front, [Size(n)], [c], back);
      assert [Size(n), c] == [Size(n)] + [c];
      Associate(front + [Size(n)], [c], back);
      TakeSize(p, front, n, [c] + back);
      TakeSegment(p, front + [Size(n)], c, back);
      SplitChars(v.chars, u);
    }
  }

  /** What a container keeps of elements that are put into it one after the other: those that do not clash with one
      before them. */
  function Kept(mode: Mode, items: seq<Value>): seq<Value> {
    if items == [] then [] else
    var n := |items| - 1;
    Kept(mode, items[..n]) + if exists i :: 0 <= i < n && Clash(mode, items[i], items[n]) then [] else [items[n]]
  }

  /** An element that was dropped clashes with no more than the one that was there. */
  lemma {:induction false} KeptClashes(mode: Mode, items: seq<Value>, x: Value)
    ensures (exists y :: y in Kept(mode, items) && Clash(mode, y, x)) <==>
            exists i :: 0 <= i < |items| && Clash(mode, items[i], x)
    decreases |items|
  {
    if items != [] {
      var n := |items| - 1;
      var front := items[..n];
      KeptClashes(mode, front, x);
      if y :| y in Kept(mode, items) && Clash(mode, y, x) {
        if y in Kept(mode, front) {
          var i :| 0 <= i < n && Clash(mode, front[i], x);
          assert Clash(mode, items[i], x);
        }
      }
      if i :| 0 <= i < |items| && Clash(mode, items[i], x) {
        if i < n {
          assert Clash(mode, front[i], x);
        } else if j :| 0 <= j < n && Clash(mode, items[j], items[n]) {
          assert Clash(mode, front[j], x);
        } else {
          assert items[n] in Kept(mode, items);
        }
      }
    }
  }

  lemma {:induction false} NothingDropped(mode: Mode, items: seq<Value>)
    requires forall i, j :: 0 <= i < j < |items| ==> !Clash(mode, items[i], items[j])
    ensures Kept(mode, items) == items && Kept(mode, items[..0]) == []
    decreases |items|
  {
    if items != [] {
      NothingDropped(mode, items[..|items| - 1]);
    }
  }

  /** The elements from place k on, when the container already has what it keeps of those before it. */
  lemma {:induction false} DecodeElements(items: seq<Value>, k: nat, mode: Mode, e: Type, p: Bytes,
                                          front: seq<Bytes>, back: seq<Bytes>)
    requires k <= |items| && forall x :: x in items ==> HasType(x, e)
    requires p == Layout(front + EncodeItems(items[k..], e) + back)
    requires forall s :: s in back ==> s != []
    ensures DecodeItems(mode, e, p, Reached(p, front), |items| - k, Kept(mode, items[..k])) ==
            Got(Kept(mode, items), Reached(p, front + EncodeItems(items[k..], e)))
    decreases e, 2 + |items| - k
  {
    hide Layout, Reached, HasType, Take, Kept, Insert;
    if k == |items| {
      assert front + [] == front && items[..k] == items;
    } else {
      var x, y := Encode(items[k], e), EncodeItems(items[k + 1..], e);
      assert EncodeItems(items[k..], e) == x + y by {
        assert items[k..][0] == items[k] && items[k..][1..] == items[k + 1..];
      }
      ItemsNonEmpty(items[k + 1..], e);
      Regroup(front, x, y, back);
      DecodeEncode(items[k], e, p, front, y + back);
      InsertNext(mode, items, k);
      DecodeElements(items, k + 1, mode, e, p, front + x, back);
    }
  }

  lemma InsertNext(mode: Mode, items: seq<Value>, k: nat)
    requires k < |items|
    ensures Insert(mode, Kept(mode, items[..k]), items[k]) == Kept(mode, items[..k + 1])
  {
    var front, more := items[..k], items[..k + 1];
    KeptClashes(mode, front, items[k]);
    assert more[..k] == front && more[k] == items[k];
    assert (exists i :: 0 <= i < k && Clash(mode, more[i], items[k])) <==>
           exists i :: 0 <= i < |front| && Clash(mode, front[i], items[k]) by {
      assert forall i :: 0 <= i < k ==> more[i] == front[i];
    }
    hide Clash;
  }

  /** A vector or list that was written is read as a set or a map with what that keeps of its elements. */
  lemma ReadAsContainer(items: seq<Value>, mode: Mode, e: Type, back: seq<Bytes>)
    requires HasType(List(items), Many(Sequence, e)) && forall s :: s in back ==> s != []
    ensures var segments := Encode(List(items), Many(Sequence, e));
            var p := Layout(segments + back);
            Decode(Many(mode, e), p, 0) == Got(List(Kept(mode, items)), Reached(p, segments))
  {
    ItemTypes(items, e);
    hide *;
    var n, x := Size(|items|), EncodeItems(items, e);
    var p := Layout([n] + x + back);
    ManyItems(items, e);
    AtFront(p);
    ItemsNonEmpty(items, e);
    SizeFirst(n, x, back);
    TakeSize(p, [], |items|, x + back);
    AllItems(items);
    NothingKept(mode);
    DecodeElements(items, 0, mode, e, p, [n], back);
    DecodeMany(mode, e, p, 0);
  }

  lemma ItemTypes(items: seq<Value>, e: Type)
    requires HasType(List(items), Many(Sequence, e))
    ensures |items| < WRAP64 && Sized(e) && forall x :: x in items ==> HasType(x, e)
  {}

  lemma SizeFirst(n: Bytes, x: seq<Bytes>, back: seq<Bytes>)
    ensures [] + [n] + (x + back) == [n] + x + back && [] + [n] == [n]
  {}

  lemma AllItems(items: seq<Value>)
    ensures items[..0] == [] && items[0..] == items
  {}

  lemma NothingKept(mode: Mode)
    ensures Kept(mode, []) == []
  {}

  lemma DecodeMany(mode: Mode, e: Type, p: Bytes, pos: nat)
    requires Take(p, pos, 8).Got?
    requires var r := Take(p, pos, 8); DecodeItems(mode, e, p, r.pos, ByteOrder.Value(r.value), []).Got?
    ensures var r := Take(p, pos, 8);
            var items := DecodeItems(mode, e, p, r.pos, ByteOrder.Value(r.value), []);
            Decode(Many(mode, e), p, pos) == Got(List(items.value), items.pos)
  {
    hide Take, DecodeItems;
  }

  lemma AtFront(p: Bytes)
    ensures Reached(p, []) == 0
  {}

  /** Which values a container can hold: pairwise different elements, pairwise different keys. */
  lemma ContainerTypes(items: seq<Value>, e: Type)
    requires |items| < WRAP64 && Sized(e) && forall x :: x in items ==> HasType(x, e)
    ensures HasType(List(items), Many(Sequence, e))
    ensures HasType(List(items), Many(Distinct, e)) <==> forall i, j :: 0 <= i < j < |items| ==> items[i] != items[j]
    ensures e.Pair? ==>
              (HasType(List(items), Many(Keyed, e)) <==>
               forall i, j :: 0 <= i < j < |items| && items[i].Both? && items[j].Both? ==> items[i].a != items[j].a)
  {}

  lemma Zeroes(count: nat)
    ensures LittleEndian(0, count) == Zeros(count)
  {
    if count > 0 {
      Zeroes(count - 1);
    }
  }

  lemma SmallSize(n: nat)
    requires n < 256
    ensures Size(n) == [n as byte, 0, 0, 0, 0, 0, 0, 0]
  {
    Zeroes(7);
    assert Zeros(7) == [0, 0, 0, 0, 0, 0, 0];
  }

  lemma OneItem(x: Value, items: seq<Value>, e: Type)
    requires HasType(x, e) && forall y :: y in items ==> HasType(y, e)
    ensures EncodeItems([x] + items, e) == Encode(x, e) + EncodeItems(items, e)
  {
    assert ([x] + items)[1..] == items;
    hide Encode, HasType;
  }

  /** What is written: numbers least significant byte first in their width; sizes in eight bytes; the characters of a
      text behind its length, unless it is empty; the first of a pair before the second; elements in their order. */
  lemma KnownSegments(n: nat, m: nat, c: nat, d: nat)
    requires n < 256 && m < 256 && c < 256 && d < 256
    ensures var t := Many(Sequence, Pair(Prim(1), Str(1)));
            var v := List([Both(Num(n), Text([c, d])), Both(Num(m), Text([]))]);
            && HasType(v, t)
            && Encode(v, t) == [[2, 0, 0, 0, 0, 0, 0, 0], [n as byte], [2, 0, 0, 0, 0, 0, 0, 0], [c as byte, d as byte],
                                [m as byte], [0, 0, 0, 0, 0, 0, 0, 0]]
  {
    var e := Pair(Prim(1), Str(1));
    var x, y := Both(Num(n), Text([c, d])), Both(Num(m), Text([]));
    assert Pow256(1) == 256;
    OneByte(n);
    OneByte(m);
    TwoChars(c, d);
    SmallSize(0);
    SmallSize(2);
    hide Size, Chars, LittleEndian, Pow256;
    NumberAndText(n, [c, d]);
    NumberAndText(m, []);
    hide HasType, Encode;
    OneItem(x, [y], e);
    OneItem(y, [], e);
    assert [x] + [y] == [x, y] && [y] + [] == [y] && EncodeItems([], e) == [];
    hide EncodeItems;
    ManyItems([x, y], e);
  }

  lemma NumberAndText(n: nat, chars: seq<nat>)
    requires n < Pow256(1) && |chars| < WRAP64 && forall c :: c in chars ==> c < Pow256(1)
    ensures var v, t := Both(Num(n), Text(chars)), Pair(Prim(1), Str(1));
            && HasType(v, t)
            && Encode(v, t) ==
               [LittleEndian(n, 1)] + if chars == [] then [Size(0)] else [Size(|chars|), Chars(chars, 1)]
  {
    hide LittleEndian, Size, Chars, Pow256;
  }

  lemma ManyItems(items: seq<Value>, e: Type)
    requires |items| < WRAP64 && Sized(e) && forall x :: x in items ==> HasType(x, e)
    ensures HasType(List(items), Many(Sequence, e))
    ensures Encode(List(items), Many(Sequence, e)) == [Size(|items|)] + EncodeItems(items, e)
  {
    hide EncodeItems, Size;
  }

  lemma OneByte(n: nat)
    requires n < 256
    ensures LittleEndian(n, 1) == [n as byte]
  {
    assert LittleEndian(n / 256, 0) == [];
  }

  lemma TwoChars(c: nat, d: nat)
    requires c < 256 && d < 256
    ensures Chars([c, d], 1) == [c as byte, d as byte]
  {
    OneByte(c);
    OneByte(d);
    assert [c, d][1..] == [d] && [d][1..] == [];
    assert Chars([d], 1) == LittleEndian(d, 1) + Chars([], 1);
    hide LittleEndian;
  }

  // ---- Sequences of values ----

  datatype Typed = Typed(v: Value, t: Type)

  predicate AllTyped(xs: seq<Typed>) {
    forall i :: 0 <= i < |xs| ==> HasType(xs[i].v, xs[i].t)
  }

  function EncodeAll(xs: seq<Typed>): seq<Bytes>
    requires AllTyped(xs)
  {
    if xs == [] then [] else EncodeAll(xs[..|xs| - 1]) + Encode(xs[|xs| - 1].v, xs[|xs| - 1].t)
  }

  /** Reading the given types one after the other. */
  function DecodeAll(ts: seq<Type>, p: Bytes): Read<seq<Value>> {
    if ts == [] then Got([], 0) else
    match DecodeAll(ts[..|ts| - 1], p)
    case Got(vs, q) =>
      (match Decode(ts[|ts| - 1], p, q)
       case Got(v, r) => Got(vs + [v], r)
       case Beyond => Beyond)
    case Beyond => Beyond
  }

  function TypesOf(xs: seq<Typed>): (ts: seq<Type>)
    ensures |ts| == |xs|
  {
    seq(|xs|, i requires 0 <= i < |xs| => xs[i].t)
  }

  function ValuesOf(xs: seq<Typed>): (vs: seq<Value>)
    ensures |vs| == |xs|
  {
    seq(|xs|, i requires 0 <= i < |xs| => xs[i].v)
  }

  lemma {:induction false} DecodeAllFrom(xs: seq<Typed>, p: Bytes, back: seq<Bytes>)
    requires AllTyped(xs) && p == Layout(EncodeAll(xs) + back)
    requires forall s :: s in back ==> s != []
    ensures DecodeAll(TypesOf(xs), p) == Got(ValuesOf(xs), Reached(p, EncodeAll(xs)))
    decreases |xs|
  {
    if xs != [] {
      var n := |xs| - 1;
      var front, x := xs[..n], xs[n];
      var s := Encode(x.v, x.t);
      EncodeNonEmpty(x.v, x.t);
      hide *;
      Associate(EncodeAll(front), s, back);
      EncodeAllLast(xs);
      DecodeAllFrom(front, p, s + back);
      DecodeEncode(x.v, x.t, p, EncodeAll(front), back);
      DecodeAllLast(xs, p);
    }
  }

  lemma EncodeAllLast(xs: seq<Typed>)
    requires AllTyped(xs) && xs != []
    ensures var n := |xs| - 1;
            AllTyped(xs[..n]) && EncodeAll(xs) == EncodeAll(xs[..n]) + Encode(xs[n].v, xs[n].t)
  {}

  lemma DecodeAllLast(xs: seq<Typed>, p: Bytes)
    requires xs != []
    requires var n := |xs| - 1;
             var r := DecodeAll(TypesOf(xs[..n]), p);
             r.Got? && r.value == ValuesOf(xs[..n]) && Decode(xs[n].t, p, r.pos).Got? &&
             Decode(xs[n].t, p, r.pos).value == xs[n].v
    ensures var n := |xs| - 1;
            DecodeAll(TypesOf(xs), p) ==
            Got(ValuesOf(xs), Decode(xs[n].t, p, DecodeAll(TypesOf(xs[..n]), p).pos).pos)
  {
    hide Decode;
    var n := |xs| - 1;
    assert TypesOf(xs)[..n] == TypesOf(xs[..n]);
    assert ValuesOf(xs) == ValuesOf(xs[..n]) + [xs[n].v];
  }

  /** Whatever is written is read back, and the reader ends exactly at the end of the data. */
  lemma RoundTrip(xs: seq<Typed>)
    requires AllTyped(xs)
    ensures var p := Layout(EncodeAll(xs));
            DecodeAll(TypesOf(xs), p) == Got(ValuesOf(xs), |p|)
  {
    var p := Layout(EncodeAll(xs));
    assert EncodeAll(xs) + [] == EncodeAll(xs);
    DecodeAllFrom(xs, p, []);
  }
}
