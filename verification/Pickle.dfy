/** The growing buffer and the reader of kbase/pickle.cpp, proved against PickleFormat. */
module Pickle {
  import opened ByteOrder
  import opened PickleFormat

  const HEADER := 4
  const UNIT := 64
  const MAX_PAYLOAD := 0xffff_ffff

  // ---- Segments appended to a payload that is already there ----

  function AppendAll(payload: Bytes, segments: seq<Bytes>): Bytes
    decreases |segments|
  {
    if segments == [] then payload else AppendAll(Append(payload, segments[0]), segments[1..])
  }

  lemma {:induction false} AppendAllConcat(payload: Bytes, x: seq<Bytes>, y: seq<Bytes>)
    ensures AppendAll(payload, x + y) == AppendAll(AppendAll(payload, x), y)
    decreases |x|
  {
    if x == [] {
      assert x + y == y;
    } else {
      assert (x + y)[1..] == x[1..] + y;
      AppendAllConcat(Append(payload, x[0]), x[1..], y);
    }
  }

  lemma {:induction false} AppendAllGrows(payload: Bytes, segments: seq<Bytes>)
    ensures payload <= AppendAll(payload, segments)
    decreases |segments|
  {
    if segments != [] {
      AppendAllGrows(Append(payload, segments[0]), segments[1..]);
    }
  }

  lemma AppendOne(payload: Bytes, segment: Bytes)
    ensures AppendAll(payload, [segment]) == Append(payload, segment)
  {
    assert [segment][1..] == [];
    assert AppendAll(Append(payload, segment), []) == Append(payload, segment);
  }

  /** From an empty payload the result is the layout of the segments. */
  lemma {:induction false} AppendAllIsLayout(segments: seq<Bytes>)
    ensures AppendAll([], segments) == Layout(segments)
    decreases |segments|
  {
    if segments != [] {
      var n := |segments| - 1;
      AppendAllIsLayout(segments[..n]);
      assert segments == segments[..n] + [segments[n]];
      AppendAllConcat([], segments[..n], [segments[n]]);
      AppendOne(Layout(segments[..n]), segments[n]);
    }
  }

  /** A segment written at its aligned offset and zeros written in front of it append it to the payload. */
  lemma WrittenInPlace(s: Bytes, before: Bytes, data: Bytes)
    requires HEADER + Aligned(|before|) + |data| <= |s| && s[HEADER..HEADER + |before|] == before
    ensures var dest, last := Aligned(|before|), |before|;
            var t := Overwritten(Overwritten(s, HEADER + dest, data), HEADER + last, Zeros(dest - last));
            t[HEADER..HEADER + dest + |data|] == Append(before, data)
  {
    var dest, last := Aligned(|before|), |before|;
    var u := Overwritten(s, HEADER + dest, data);
    var t := Overwritten(u, HEADER + last, Zeros(dest - last));
    AlignedMeans(last);
    OverwrittenBeside(s, HEADER + dest, data, HEADER, HEADER + last);
    OverwrittenBeside(u, HEADER + last, Zeros(dest - last), HEADER, HEADER + last);
    OverwrittenBeside(u, HEADER + last, Zeros(dest - last), HEADER + dest, HEADER + dest + |data|);
    hide Aligned, Overwritten;
    Rejoin(t, HEADER, HEADER + last, HEADER + dest, HEADER + dest + |data|);
  }

  /** What was written stands where it was written, and nothing beside it has changed. */
  lemma OverwrittenBeside(a: Bytes, at: nat, source: Bytes, i: nat, j: nat)
    requires at + |source| <= |a| && i <= j <= |a| && (j <= at || at + |source| <= i)
    ensures Overwritten(a, at, source)[i..j] == a[i..j]
    ensures Overwritten(a, at, source)[at..at + |source|] == source
  {}

  lemma AlignedMeans(n: nat)
    ensures n <= Aligned(n) < n + 4
  {}

  lemma Rejoin(t: Bytes, a: nat, b: nat, c: nat, d: nat)
    requires a <= b <= c <= d <= |t|
    ensures t[a..d] == t[a..b] + t[b..c] + t[c..d]
  {}

  function Overwritten(a: Bytes, at: nat, source: Bytes): (r: Bytes)
    requires at + |source| <= |a|
    ensures |r| == |a|
  {
    a[..at] + source + a[at + |source|..]
  }

  /** memcpy. */
  method CopyInto(a: array<byte>, at: nat, source: Bytes)
    requires at + |source| <= a.Length
    modifies a
    ensures a[..] == Overwritten(old(a[..]), at, source)
  {
    forall k | at <= k < at + |source| {
      a[k] := source[k - at];
    }
  }

  /** memset with zero. */
  method SanitizePadding(a: array<byte>, at: nat, size: nat)
    requires at + size <= a.Length
    modifies a
    ensures a[..] == Overwritten(old(a[..]), at, Zeros(size))
  {
    forall k | at <= k < at + size {
      a[k] := 0;
    }
  }

  class Pickle {
    /** The allocated block: four bytes of header, then the payload, then free space. */
    var block: array<byte>
    var capacity: nat
    /** The header's payload_size. */
    var payloadSize: nat

    ghost predicate Valid()
      reads this, block
    {
      && block.Length == capacity && capacity % UNIT == 0
      && HEADER + payloadSize <= capacity
      && payloadSize <= MAX_PAYLOAD
    }

    ghost function Payload(): Bytes
      reads this, block
      requires Valid()
    {
      block[HEADER..HEADER + payloadSize]
    }

    /** The size() bytes at data(). */
    ghost function Data(): Bytes
      reads this, block
      requires Valid()
    {
      LittleEndian(payloadSize, HEADER) + Payload()
    }

    constructor ()
      ensures Valid() && fresh(block) && Payload() == [] && capacity == 64
    {
      block := new byte[0];
      capacity := 0;
      payloadSize := 0;
      new;
      ResizeCapacity(UNIT);
      payloadSize := 0;
    }

    constructor Copy(other: Pickle)
      requires other.Valid()
      ensures Valid() && fresh(block) && Data() == other.Data()
    {
      block := new byte[0];
      capacity := 0;
      payloadSize := 0;
      new;
      ResizeCapacity(HEADER + other.payloadSize);
      CopyFrom(other);
    }

    /** operator=. */
    method Assign(rhs: Pickle)
      requires Valid() && rhs.Valid() && (this != rhs ==> block != rhs.block)
      modifies this, block
      ensures Valid() && Data() == old(rhs.Data())
      ensures this == rhs || old(capacity) >= HEADER + old(rhs.payloadSize) ==> block == old(block)
      ensures this != rhs && old(capacity) < HEADER + old(rhs.payloadSize) ==> fresh(block)
    {
      if this != rhs {
        if capacity < HEADER + rhs.payloadSize {
          ResizeCapacity(HEADER + rhs.payloadSize);
        }
        CopyFrom(rhs);
      }
    }

    /** memcpy of the other pickle's size() bytes; the payload size travels in the header. */
    method CopyFrom(other: Pickle)
      requires other.Valid() && other != this && other.block != block
      requires block.Length == capacity && capacity % UNIT == 0 && HEADER + other.payloadSize <= capacity
      modifies this`payloadSize, block
      ensures Valid() && Data() == other.Data()
    {
      forall i | 0 <= i < HEADER + other.payloadSize {
        block[i] := other.block[i];
      }
      payloadSize := other.payloadSize;
      assert Payload() == other.Payload();
    }

    /** realloc to the next multiple of the unit: nothing in the old block is lost. */
    method ResizeCapacity(newCapacity: nat)
      requires block.Length == capacity && capacity < newCapacity && newCapacity + UNIT <= WRAP64
      modifies `block, `capacity
      ensures fresh(block) && block.Length == capacity && capacity % UNIT == 0
      ensures newCapacity <= capacity < newCapacity + UNIT
      ensures forall i :: 0 <= i < old(capacity) ==> block[i] == old(block[i])
    {
      RoundsUp(newCapacity, UNIT);
      var rounded := RoundToMultiple(newCapacity, UNIT);
      var moved := new byte[rounded];
      forall i | 0 <= i < capacity {
        moved[i] := block[i];
      }
      block, capacity := moved, rounded;
    }

    /** Makes room for a segment and returns its aligned offset in the payload. */
    method SeekWritePosition(length: nat) returns (offset: nat)
      requires Valid() && Aligned(payloadSize) + length <= MAX_PAYLOAD
      modifies this
      ensures block == old(block) || fresh(block)
      ensures offset == Aligned(old(payloadSize)) && payloadSize == offset + length
      ensures Valid() && block[HEADER..HEADER + old(payloadSize)] == old(Payload())
    {
      AlignedIsRounding(payloadSize);
      offset := RoundToMultiple(payloadSize, 4);
      var required := offset + length;
      var total := required + HEADER;
      if total > capacity {
        ResizeCapacity(if 2 * capacity > total then 2 * capacity else total);
        assert block[HEADER..HEADER + payloadSize] == old(Payload());
      }
      payloadSize := required;
    }

    method Write(data: Bytes)
      requires Valid() && data != [] && |Append(Payload(), data)| <= MAX_PAYLOAD
      modifies this, block
      ensures Valid() && (block == old(block) || fresh(block))
      ensures Payload() == Append(old(Payload()), data)
    {
      hide Aligned, Append, Overwritten;
      ghost var before := Payload();
      AppendLength(before, data);
      AlignedMeans(payloadSize);
      var last := payloadSize;
      var dest := SeekWritePosition(|data|);
      WrittenInPlace(block[..], before, data);
      CopyInto(block, HEADER + dest, data);
      var padding := payloadSize - last - |data|;
      SanitizePadding(block, HEADER + dest - padding, padding);
      assert Payload() == block[..][HEADER..HEADER + payloadSize];
    }

    /** WriteBuiltIn: a primitive of `width` bytes. */
    method WriteBuiltIn(n: nat, width: nat)
      requires Valid() && width > 0 && |Append(Payload(), LittleEndian(n, width))| <= MAX_PAYLOAD
      modifies this, block
      ensures Valid() && (block == old(block) || fresh(block))
      ensures Payload() == Append(old(Payload()), LittleEndian(n, width))
    {
      Write(LittleEndian(n, width));
    }

    /** operator<< for a value of any supported type. */
    method Put(v: Value, t: Type)
      requires Valid() && HasType(v, t)
      requires |AppendAll(Payload(), Encode(v, t))| <= MAX_PAYLOAD
      modifies this, block
      ensures Valid() && (block == old(block) || fresh(block))
      ensures Payload() == AppendAll(old(Payload()), Encode(v, t))
      decreases t, 0
    {
      hide AppendAll, Append;
      match t
      case Prim(w) =>
        AppendOne(Payload(), LittleEndian(v.n, w));
        WriteBuiltIn(v.n, w);
      case Str(u) =>
        PutText(v.chars, u);
      case Pair(t1, t2) =>
        AppendAllConcat(Payload(), Encode(v.a, t1), Encode(v.b, t2));
        AppendAllGrows(AppendAll(Payload(), Encode(v.a, t1)), Encode(v.b, t2));
        Put(v.a, t1);
        Put(v.b, t2);
      case Many(mode, e) =>
        PutElements(v.items, e);
    }

    /** The length, then the characters if there are any. */
    method PutText(chars: seq<nat>, unit: nat)
      requires Valid() && HasType(Text(chars), Str(unit))
      requires |AppendAll(Payload(), Encode(Text(chars), Str(unit)))| <= MAX_PAYLOAD
      modifies this, block
      ensures Valid() && (block == old(block) || fresh(block))
      ensures Payload() == AppendAll(old(Payload()), Encode(Text(chars), Str(unit)))
    {
      hide AppendAll, Append;
      ghost var size, text := Size(|chars|), Chars(chars, unit);
      AppendOne(Payload(), size);
      if chars != [] {
        CharsNonEmpty(chars, unit);
        assert [size, text] == [size] + [text];
        AppendAllConcat(Payload(), [size], [text]);
        AppendOne(Append(Payload(), size), text);
        AppendAllGrows(Append(Payload(), size), [text]);
      }
      WriteBuiltIn(|chars|, 8);
      if chars != [] {
        Write(Chars(chars, unit));
      }
    }

    /** The number of elements, then one element after the other. */
    method PutElements(items: seq<Value>, e: Type)
      requires Valid() && |items| < WRAP64 && forall x :: x in items ==> HasType(x, e)
      requires |AppendAll(Payload(), [Size(|items|)] + EncodeItems(items, e))| <= MAX_PAYLOAD
      modifies this, block
      ensures Valid() && (block == old(block) || fresh(block))
      ensures Payload() == AppendAll(old(Payload()), [Size(|items|)] + EncodeItems(items, e))
      decreases e, 1
    {
      hide AppendAll, Append, HasType;
      ghost var goal := AppendAll(Payload(), [Size(|items|)] + EncodeItems(items, e));
      AppendAllConcat(Payload(), [Size(|items|)], EncodeItems(items, e));
      AppendOne(Payload(), Size(|items|));
      AppendAllGrows(Append(Payload(), Size(|items|)), EncodeItems(items, e));
      WriteBuiltIn(|items|, 8);
      assert items[0..] == items;
      for i := 0 to |items|
        invariant Valid() && (block == old(block) || fresh(block))
        invariant AppendAll(Payload(), EncodeItems(items[i..], e)) == goal
      {
        assert items[i..][0] == items[i] && items[i..][1..] == items[i + 1..];
        ghost var x, rest := Encode(items[i], e), EncodeItems(items[i + 1..], e);
        AppendAllConcat(Payload(), x, rest);
        AppendAllGrows(AppendAll(Payload(), x), rest);
        Put(items[i], e);
      }
      AppendNone(Payload());
    }

    /** Several values, one operator<< after the other. */
    method PutAll(xs: seq<Typed>)
      requires Valid() && AllTyped(xs)
      requires |AppendAll(Payload(), EncodeAll(xs))| <= MAX_PAYLOAD
      modifies this, block
      ensures Valid() && (block == old(block) || fresh(block))
      ensures Payload() == AppendAll(old(Payload()), EncodeAll(xs))
    {
      hide AppendAll, Append, HasType;
      AppendNone(Payload());
      for i := 0 to |xs|
        invariant Valid() && (block == old(block) || fresh(block))
        invariant Payload() == AppendAll(old(Payload()), EncodeAll(xs[..i]))
      {
        ghost var before := EncodeAll(xs[..i]);
        EncodeAllFirst(xs, i);
        AppendAllConcat(old(Payload()), before, Encode(xs[i].v, xs[i].t));
        PrefixFits(old(Payload()), xs, i + 1);
        Put(xs[i].v, xs[i].t);
      }
      assert xs[..|xs|] == xs;
    }
  }

  lemma AppendNone(payload: Bytes)
    ensures AppendAll(payload, []) == payload
  {}

  lemma EncodeAllFirst(xs: seq<Typed>, i: nat)
    requires i < |xs| && AllTyped(xs)
    ensures EncodeAll(xs[..i + 1]) == EncodeAll(xs[..i]) + Encode(xs[i].v, xs[i].t)
  {
    assert xs[..i + 1][..i] == xs[..i];
  }

  lemma {:induction false} PrefixFits(payload: Bytes, xs: seq<Typed>, i: nat)
    requires i <= |xs| && AllTyped(xs)
    ensures |AppendAll(payload, EncodeAll(xs[..i]))| <= |AppendAll(payload, EncodeAll(xs))|
    decreases |xs| - i
  {
    if i == |xs| {
      assert xs[..i] == xs;
    } else {
      EncodeAllFirst(xs, i);
      AppendAllConcat(payload, EncodeAll(xs[..i]), Encode(xs[i].v, xs[i].t));
      AppendAllGrows(AppendAll(payload, EncodeAll(xs[..i])), Encode(xs[i].v, xs[i].t));
      PrefixFits(payload, xs, i + 1);
    }
  }

  class PickleReader {
    /** The bytes between the header and data_end_. */
    const data: Bytes
    /** read_ptr_, as an offset. */
    var pos: nat

    ghost predicate Valid()
      reads this
    {
      pos <= |data| && |data| <= MAX_PAYLOAD
    }

    constructor (pickle: Pickle)
      requires pickle.Valid()
      ensures Valid() && data == pickle.Payload() && pos == 0
    {
      data := pickle.block[HEADER..HEADER + pickle.payloadSize];
      pos := 0;
    }

    method SeekReadPosition(size: nat)
      requires Valid() && pos + size <= |data|
      modifies this
      ensures Valid() && pos == Seek(|data|, old(pos), size)
    {
      AlignedIsRounding(size);
      var rounded := RoundToMultiple(size, 4);
      if pos + rounded > |data| {
        pos := pos + size;
      } else {
        pos := pos + rounded;
      }
    }

    method ReadRawData(size: nat) returns (dest: Bytes)
      requires Valid() && size != 0 && Take(data, pos, size).Got?
      modifies this
      ensures Valid() && Take(data, old(pos), size) == Got(dest, pos) && |dest| == size
    {
      dest := data[pos..pos + size];
      SeekReadPosition(size);
    }

    method ReadBuiltIn(width: nat) returns (n: nat)
      requires Valid() && width > 0 && Take(data, pos, width).Got?
      modifies this
      ensures Valid() && Take(data, old(pos), width).pos == pos
      ensures n == ByteOrder.Value(Take(data, old(pos), width).value)
    {
      n := ByteOrder.Value(data[pos..pos + width]);
      SeekReadPosition(width);
    }

    /** operator>> into a fresh target. */
    method Get(t: Type) returns (v: Value)
      requires Valid() && Sized(t) && Decode(t, data, pos).Got?
      modifies this
      ensures Valid() && Decode(t, data, old(pos)) == Got(v, pos)
      decreases t, 0
    {
      hide Take, Insert;
      match t
      case Prim(w) =>
        var n := ReadBuiltIn(w);
        v := Num(n);
      case Str(u) =>
        var length := ReadBuiltIn(8);
        if length != 0 {
          var raw := ReadRawData(u * length);
          v := Text(Split(raw, u, length));
        } else {
          v := Text([]);
        }
      case Pair(t1, t2) =>
        var a := Get(t1);
        var b := Get(t2);
        v := Both(a, b);
      case Many(mode, e) =>
        var size := ReadBuiltIn(8);
        var items := GetElements(mode, e, size);
        v := List(items);
    }

    /** The loop of the container operators: push_back, insert or emplace. */
    method GetElements(mode: Mode, e: Type, size: nat) returns (items: seq<Value>)
      requires Valid() && Sized(e) && DecodeItems(mode, e, data, pos, size, []).Got?
      modifies this
      ensures Valid() && DecodeItems(mode, e, data, old(pos), size, []) == Got(items, pos)
      decreases e, 1
    {
      hide Take, Insert;
      items := [];
      for i := 0 to size
        invariant Valid()
        invariant DecodeItems(mode, e, data, pos, size - i, items) == DecodeItems(mode, e, data, old(pos), size, [])
      {
        var x := Get(e);
        items := Insert(mode, items, x);
      }
    }

    /** Several values, one operator>> after the other. */
    method GetAll(ts: seq<Type>) returns (vs: seq<Value>)
      requires Valid() && pos == 0 && (forall i :: 0 <= i < |ts| ==> Sized(ts[i])) && DecodeAll(ts, data).Got?
      modifies this
      ensures Valid() && DecodeAll(ts, data) == Got(vs, pos)
    {
      vs := [];
      for i := 0 to |ts|
        invariant Valid() && DecodeAll(ts[..i], data) == Got(vs, pos)
      {
        PrefixDecodes(ts, i + 1, data);
        assert ts[..i + 1][..i] == ts[..i];
        var v := Get(ts[i]);
        vs := vs + [v];
      }
      assert ts[..|ts|] == ts;
    }
  }

  lemma {:induction false} PrefixDecodes(ts: seq<Type>, i: nat, p: Bytes)
    requires i <= |ts| && DecodeAll(ts, p).Got?
    ensures DecodeAll(ts[..i], p).Got?
    decreases |ts| - i
  {
    if i == |ts| {
      assert ts[..i] == ts;
    } else {
      PrefixDecodes(ts, i + 1, p);
      assert ts[..i + 1][..i] == ts[..i];
    }
  }

  lemma {:induction false} TypedIsSized(v: Value, t: Type)
    requires HasType(v, t)
    ensures Sized(t)
  {
    if t.Pair? {
      TypedIsSized(v.a, t.first);
      TypedIsSized(v.b, t.second);
    }
  }

  /** Writing any sequence of values and reading the same types gives equal values, and then the reader,
      as its operator bool says, has nothing left. */
  method WriteThenRead(xs: seq<Typed>) returns (vs: seq<Value>, more: bool)
    requires AllTyped(xs) && |Layout(EncodeAll(xs))| <= 0xffff_ffff
    ensures vs == ValuesOf(xs) && !more
  {
    var pickle := new Pickle();
    AppendAllIsLayout(EncodeAll(xs));
    pickle.PutAll(xs);
    RoundTrip(xs);
    forall i | 0 <= i < |xs| ensures Sized(xs[i].t) {
      TypedIsSized(xs[i].v, xs[i].t);
    }
    var reader := new PickleReader(pickle);
    vs := reader.GetAll(seq(|xs|, i requires 0 <= i < |xs| => xs[i].t));
    more := reader.pos < |reader.data|;
  }

  /** A copy and its original stay byte-identical while the same values are written to both. */
  method CopyKeepsUp(original: Pickle, xs: seq<Typed>) returns (copy: Pickle)
    requires original.Valid() && AllTyped(xs)
    requires |AppendAll(original.Payload(), EncodeAll(xs))| <= 0xffff_ffff
    modifies original, original.block
    ensures fresh(copy) && fresh(copy.block) && copy.block != original.block
    ensures original.Valid() && original.Payload() == AppendAll(old(original.Payload()), EncodeAll(xs))
    ensures copy.Valid() && copy.Data() == original.Data()
  {
    hide AppendAll, EncodeAll;
    copy := new Pickle.Copy(original);
    SamePayload(original, copy);
    original.PutAll(xs);
    copy.PutAll(xs);
  }

  /** The bytes of a pickle: four of header, which hold the size of the payload, least significant byte first, and the
      payload; the block is a multiple of 64 bytes. */
  lemma BytesOfPickle(p: Pickle)
    requires p.Valid()
    ensures |p.Data()| == 4 + |p.Payload()| && p.Data()[4..] == p.Payload()
    ensures ByteOrder.Value(p.Data()[..4]) == |p.Payload()| < 0x1_0000_0000
    ensures p.capacity % 64 == 0 && |p.Data()| <= p.capacity
  {
    assert Pow256(4) == 0x1_0000_0000;
    ValueOfLittleEndian(p.payloadSize, 4);
    assert p.Data()[..4] == LittleEndian(p.payloadSize, 4);
  }

  lemma SamePayload(p: Pickle, q: Pickle)
    requires p.Valid() && q.Valid() && p.Data() == q.Data()
    ensures p.Payload() == q.Payload()
  {
    assert p.Payload() == p.Data()[HEADER..] && q.Payload() == q.Data()[HEADER..];
  }
}
