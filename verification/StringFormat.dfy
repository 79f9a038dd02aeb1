/** AnalyzeFormat and StringFormat of kbase/string_format.cpp and kbase/string_format.h. Rendering one
    argument by one specifier to a stream is a parameter. */
module StringFormat {
  import opened Wrappers
  import opened Sequences
  import opened FormatGrammar

  datatype Result<T> = Ok(value: T) | FormatError

  datatype Analysis = Analysis(text: string, placeholders: seq<Placeholder>)

  // ---- Placeholder tables ----

  predicate SortedBy(ps: seq<Placeholder>, key: Placeholder -> int) {
    forall i, j :: 0 <= i < j < |ps| ==> key(ps[i]) <= key(ps[j])
  }

  predicate DistinctPos(ps: seq<Placeholder>) {
    forall i, j :: 0 <= i < j < |ps| ==> ps[i].pos != ps[j].pos
  }

  /** One entry for each placeholder of the format, with its position, index and specifier. */
  ghost predicate TableOf(ps: seq<Placeholder>, pieces: seq<Piece>)
    requires Valid(pieces)
  {
    && DistinctPos(ps)
    && (forall i :: 0 <= i < |ps| ==> Describes(ps[i], pieces))
    && (forall q :: 0 <= q < |pieces| && pieces[q].Hole? ==> exists i :: 0 <= i < |ps| && ps[i].pos == q)
  }

  predicate Describes(p: Placeholder, pieces: seq<Piece>)
    requires Valid(pieces)
  {
    && p.pos < |pieces| && pieces[p.pos].Hole?
    && p.index == Index(pieces[p.pos].digits) && p.spec == pieces[p.pos].spec
  }

  lemma {:induction false} HolesComplete(pieces: seq<Piece>, q: nat)
    requires Valid(pieces) && q < |pieces| && pieces[q].Hole?
    ensures exists i :: 0 <= i < |Holes(pieces)| && Holes(pieces)[i].pos == q
    decreases |pieces|
  {
    var n := |pieces| - 1;
    if q < n {
      HolesComplete(pieces[..n], q);
      var i :| 0 <= i < |Holes(pieces[..n])| && Holes(pieces[..n])[i].pos == q;
      assert Holes(pieces)[i].pos == q;
    } else {
      assert Holes(pieces)[|Holes(pieces)| - 1].pos == q;
    }
  }

  lemma HolesAreTable(pieces: seq<Piece>)
    requires Valid(pieces)
    ensures TableOf(Holes(pieces), pieces)
  {
    HolesInOrder(pieces);
    forall q | 0 <= q < |pieces| && pieces[q].Hole?
      ensures exists i :: 0 <= i < |Holes(pieces)| && Holes(pieces)[i].pos == q
    {
      HolesComplete(pieces, q);
    }
    hide Holes;
  }

  lemma {:induction false} CountOfDistinct(ps: seq<Placeholder>, x: Placeholder)
    requires DistinctPos(ps)
    ensures multiset(ps)[x] <= 1
  {
    if ps != [] {
      assert ps == [ps[0]] + ps[1..];
      CountOfDistinct(ps[1..], x);
      if ps[0] == x {
        assert x !in ps[1..];
      }
    }
  }

  lemma CountOfTwice(ps: seq<Placeholder>, i: nat, j: nat)
    requires i < j < |ps| && ps[i] == ps[j]
    ensures multiset(ps)[ps[i]] >= 2
  {
    assert ps == ps[..i] + [ps[i]] + ps[i + 1..j] + [ps[j]] + ps[j + 1..];
  }

  /** Sorting does not change what a table says. */
  lemma RearrangedTable(ps: seq<Placeholder>, qs: seq<Placeholder>, pieces: seq<Piece>)
    requires Valid(pieces) && TableOf(ps, pieces) && multiset(ps) == multiset(qs)
    ensures TableOf(qs, pieces)
  {
    forall x ensures x in qs <==> x in ps {
      assert x in multiset(qs) <==> x in multiset(ps);
    }
    forall i, j | 0 <= i < j < |qs| ensures qs[i].pos != qs[j].pos {
      if qs[i].pos == qs[j].pos {
        assert qs[i] in ps && qs[j] in ps;
        CountOfTwice(qs, i, j);
        CountOfDistinct(ps, qs[i]);
        assert false;
      }
    }
    forall i | 0 <= i < |qs| ensures Describes(qs[i], pieces) {
      assert qs[i] in ps;
    }
    forall q | 0 <= q < |pieces| && pieces[q].Hole? ensures exists i :: 0 <= i < |qs| && qs[i].pos == q {
      var i :| 0 <= i < |ps| && ps[i].pos == q;
      assert ps[i] in qs;
    }
  }

  // ---- std::sort: some rearrangement in key order; nothing below depends on the order of equal keys ----

  function Insert(p: Placeholder, ps: seq<Placeholder>, key: Placeholder -> int): seq<Placeholder> {
    if ps == [] || key(p) <= key(ps[0]) then [p] + ps else [ps[0]] + Insert(p, ps[1..], key)
  }

  lemma {:induction false} InsertKeeps(p: Placeholder, ps: seq<Placeholder>, key: Placeholder -> int)
    ensures multiset(Insert(p, ps, key)) == multiset(ps) + multiset{p}
  {
    if !(ps == [] || key(p) <= key(ps[0])) {
      InsertKeeps(p, ps[1..], key);
      assert ps == [ps[0]] + ps[1..];
    }
  }

  lemma {:induction false} InsertSorts(p: Placeholder, ps: seq<Placeholder>, key: Placeholder -> int)
    requires SortedBy(ps, key)
    ensures SortedBy(Insert(p, ps, key), key) && multiset(Insert(p, ps, key)) == multiset(ps) + multiset{p}
  {
    InsertKeeps(p, ps, key);
    if !(ps == [] || key(p) <= key(ps[0])) {
      InsertSorts(p, ps[1..], key);
      var rest := Insert(p, ps[1..], key);
      forall i | 0 <= i < |rest| ensures key(ps[0]) <= key(rest[i]) {
        assert rest[i] in multiset(rest);
      }
    }
  }

  method Sort(ps: seq<Placeholder>, key: Placeholder -> int) returns (r: seq<Placeholder>)
    ensures SortedBy(r, key) && multiset(r) == multiset(ps)
  {
    r := [];
    for i := 0 to |ps|
      invariant SortedBy(r, key) && multiset(r) == multiset(ps[..i])
    {
      InsertSorts(ps[i], r, key);
      r := Insert(ps[i], r, key);
      assert ps[..i + 1] == ps[..i] + [ps[i]];
    }
    assert ps[..|ps|] == ps;
  }

  function ByIndex(p: Placeholder): int { p.index }

  function FromTheRight(p: Placeholder): int { -(p.pos as int) }

  // ---- AnalyzeFormat ----

  /** strtoul from a first digit: the index and the position of the last digit. */
  method ExtractPlaceholderIndex(fmt: string, first: nat) returns (index: nat, last: nat)
    requires first < |fmt| && IsDigit(fmt[first])
    ensures first <= last && last + 1 - first == DigitCount(fmt[first..])
    ensures last < |fmt| && AllDigits(fmt[first..last + 1]) && index == Index(fmt[first..last + 1])
  {
    index := 0;
    var end := first;
    while end < |fmt| && IsDigit(fmt[end])
      invariant first <= end <= |fmt| && AllDigits(fmt[first..end])
      invariant index == Index(fmt[first..end])
    {
      ghost var digits := fmt[first..end + 1];
      assert digits[..|digits| - 1] == fmt[first..end];
      var n := 10 * index + (fmt[end] as nat - '0' as nat);
      index := if n > ULONG_MAX then ULONG_MAX else n;
      end := end + 1;
    }
    assert fmt[first..] == fmt[first..end] + fmt[end..];
    DigitsFirst(fmt[first..end], fmt[end..]);
    last := end - 1;
  }

  /** The two-state loop: in text, or inside a placeholder. */
  method AnalyzeFormat(fmt: string) returns (r: Result<Analysis>)
    ensures r.FormatError? <==> Parse(fmt).None?
    ensures r.Ok? ==> Valid(Parse(fmt).value) && r.value.text == Marked(Parse(fmt).value)
    ensures r.Ok? ==> SortedBy(r.value.placeholders, ByIndex)
    ensures r.Ok? ==> multiset(r.value.placeholders) == multiset(Holes(Parse(fmt).value))
  {
    var text, placeholders: seq<Placeholder> := "", [];
    var index, spec, inFormat := ULONG_MAX, "", false;
    ghost var done: seq<Piece>, digits, colon := [], "0", true;
    StartOfFormat(fmt);
    hide Parse, ParseSpec, Holes, Index, DigitCount, Marked, Valid, AllDigits, BraceFree, SortedBy;
    var ptr := 0;
    while ptr < |fmt|
      invariant ptr <= |fmt| && Valid(done) && text == Marked(done) && placeholders == Holes(done)
      invariant digits != "" && AllDigits(digits) && BraceFree(spec)
      invariant !inFormat ==> spec == "" && Parse(fmt) == Prepend(done, Parse(fmt[ptr..]))
      invariant inFormat ==> index == Index(digits) && (colon || spec == "") &&
                             (colon || (ptr < |fmt| && fmt[ptr] == '}')) &&
                             Parse(fmt) == Prepend(done, ParseSpec(digits, colon, spec, fmt[ptr..]))
    {
      ghost var rest := fmt[ptr..];
      if fmt[ptr] == '{' {
        if inFormat {
          SpecFails(digits, colon, spec, rest);
          return FormatError;
        }
        if ptr + 1 < |fmt| && fmt[ptr + 1] == '{' {
          text := text + ['{'];
          ptr := ptr + 1;
          done := AddLiteral(done, '{', rest, fmt);
        } else if ptr + 1 < |fmt| && IsDigit(fmt[ptr + 1]) {
          var last;
          index, last := ExtractPlaceholderIndex(fmt, ptr + 1);
          digits := fmt[ptr + 1..last + 1];
          OpenPlaceholder(fmt, ptr, last);
          ptr := last;
          if ptr + 1 == |fmt| || (fmt[ptr + 1] != '}' && fmt[ptr + 1] != ':') {
            return FormatError;
          }
          colon := fmt[ptr + 1] == ':';
          if fmt[ptr + 1] == ':' {
            ptr := ptr + 1;
          }
          inFormat := true;
        } else {
          ParseFails(rest);
          return FormatError;
        }
      } else if fmt[ptr] == '}' {
        if !inFormat {
          if ptr + 1 == |fmt| || fmt[ptr + 1] != '}' {
            ParseFails(rest);
            return FormatError;
          }
          text := text + ['}'];
          ptr := ptr + 1;
          done := AddLiteral(done, '}', rest, fmt);
        } else {
          placeholders := placeholders + [Placeholder(index, |text|, spec, "")];
          text := text + [MARK];
          done := AddHole(done, digits, colon, spec, rest, fmt);
          spec := "";
          inFormat := false;
          StartOfFormat(fmt);
        }
      } else if !inFormat {
        text := text + [fmt[ptr]];
        done := AddLiteral(done, fmt[ptr], rest, fmt);
      } else {
        SpecGoesOn(digits, colon, spec, rest);
        BraceFreeMore(spec, fmt[ptr]);
        spec := spec + [fmt[ptr]];
      }
      ptr := ptr + 1;
    }
    assert fmt[ptr..] == "";
    EndOfFormat(done, digits, colon, spec);
    if inFormat {
      return FormatError;
    }
    placeholders := Sort(placeholders, ByIndex);
    r := Ok(Analysis(text, placeholders));
  }

  lemma StartOfFormat(fmt: string)
    ensures fmt[0..] == fmt && Prepend([], Parse(fmt)) == Parse(fmt)
    ensures Valid([]) && Marked([]) == "" && Holes([]) == [] && AllDigits("0") && BraceFree("")
  {
    PrependNothing(Parse(fmt));
    hide Parse, Prepend;
  }

  lemma BraceFreeMore(spec: string, c: char)
    requires BraceFree(spec) && c != '{' && c != '}'
    ensures BraceFree(spec + [c])
  {}

  lemma PrependNothing(r: Option<seq<Piece>>)
    ensures Prepend([], r) == r
  {
    if r.Some? {
      assert [] + r.value == r.value;
    }
  }

  lemma ParseFails(s: string)
    requires s != "" && (s[0] == '{' || s[0] == '}')
    requires |s| == 1 || (s[1] != s[0] && (s[0] == '{' ==> !IsDigit(s[1])))
    ensures Parse(s).None?
  {}

  lemma SpecFails(digits: string, colon: bool, spec: string, s: string)
    requires s != "" && s[0] == '{'
    ensures ParseSpec(digits, colon, spec, s).None?
  {}

  lemma SpecGoesOn(digits: string, colon: bool, spec: string, s: string)
    requires s != "" && s[0] != '{' && s[0] != '}'
    ensures ParseSpec(digits, colon, spec, s) == ParseSpec(digits, colon, spec + [s[0]], s[1..])
  {}

  lemma EndOfFormat(done: seq<Piece>, digits: string, colon: bool, spec: string)
    ensures Prepend(done, Parse("")) == Some(done)
    ensures Prepend(done, ParseSpec(digits, colon, spec, "")) == None
  {
    assert done + [] == done;
  }

  lemma AddLiteral(done: seq<Piece>, c: char, rest: string, fmt: string) returns (more: seq<Piece>)
    requires Valid(done) && rest != "" && rest[0] == c
    requires (c == '{' || c == '}') ==> |rest| > 1 && rest[1] == c
    requires Parse(fmt) == Prepend(done, Parse(rest))
    ensures Valid(more) && Marked(more) == Marked(done) + [c] && Holes(more) == Holes(done)
    ensures Parse(fmt) == Prepend(more, Parse(rest[if c == '{' || c == '}' then 2 else 1..]))
  {
    more := done + [Lit(c)];
    assert more[..|done|] == done;
    PrependTwice(done, [Lit(c)], Parse(rest[if c == '{' || c == '}' then 2 else 1..]));
  }

  lemma AddHole(done: seq<Piece>, digits: string, colon: bool, spec: string, rest: string, fmt: string)
    returns (more: seq<Piece>)
    requires Valid(done) && ValidPiece(Hole(digits, colon, spec)) && rest != "" && rest[0] == '}'
    requires Parse(fmt) == Prepend(done, ParseSpec(digits, colon, spec, rest))
    ensures Valid(more) && Marked(more) == Marked(done) + [MARK]
    ensures Holes(more) == Holes(done) + [Placeholder(Index(digits), |Marked(done)|, spec, "")]
    ensures Parse(fmt) == Prepend(more, Parse(rest[1..]))
  {
    more := done + [Hole(digits, colon, spec)];
    assert more[..|done|] == done;
    PrependTwice(done, [Hole(digits, colon, spec)], Parse(rest[1..]));
  }

  lemma OpenPlaceholder(fmt: string, ptr: nat, last: nat)
    requires ptr + 1 <= last < |fmt| && fmt[ptr] == '{' && IsDigit(fmt[ptr + 1])
    requires last - ptr == DigitCount(fmt[ptr + 1..])
    ensures var digits := fmt[ptr + 1..last + 1];
            Parse(fmt[ptr..]) ==
            if last + 1 == |fmt| then None
            else if fmt[last + 1] == '}' then ParseSpec(digits, false, "", fmt[last + 1..])
            else if fmt[last + 1] == ':' then ParseSpec(digits, true, "", fmt[last + 2..])
            else None
  {
    var s := fmt[ptr..];
    var n := last - ptr;
    assert s[1..] == fmt[ptr + 1..];
    assert s[1..][..n] == fmt[ptr + 1..last + 1];
    assert s[1..][n..] == fmt[last + 1..];
    hide ParseSpec, DigitCount;
    if last + 1 < |fmt| {
      assert fmt[last + 1..][1..] == fmt[last + 2..];
    }
  }

  // ---- The meaning of a format with arguments ----

  /** How an argument is written by a specifier to a stream in some state, and the state it leaves behind;
      None for a specifier that throws. The fill and the precision of a stream outlive a placeholder. */
  type Renderer<!A, !S> = (A, string, S) -> Option<(string, S)>

  /** What entry j of the table gets: its argument goes to the stream that the entries before it with the same
      index have used; the first of them gets a new one. */
  function Drawn<A, S>(order: seq<Placeholder>, j: nat, args: seq<A>, render: Renderer<A, S>, start: S)
    : Option<(string, S)>
    requires j < |order|
  {
    if order[j].index >= |args| then None
    else if j == 0 || order[j - 1].index != order[j].index then render(args[order[j].index], order[j].spec, start)
    else
      var before := Drawn(order, j - 1, args, render, start);
      if before.None? then None else render(args[order[j].index], order[j].spec, before.value.1)
  }

  predicate AllDrawn<A, S>(order: seq<Placeholder>, args: seq<A>, render: Renderer<A, S>, start: S) {
    forall j :: 0 <= j < |order| ==> Drawn(order, j, args, render, start).Some?
  }

  /** The texts of the first n entries, by position. */
  function Texts<A, S>(order: seq<Placeholder>, n: nat, args: seq<A>, render: Renderer<A, S>, start: S)
    : map<nat, string>
    requires n <= |order| && AllDrawn(order, args, render, start)
  {
    if n == 0 then map[]
    else Texts(order, n - 1, args, render, start)[order[n - 1].pos := Drawn(order, n - 1, args, render, start).value.0]
  }

  predicate Covers(texts: map<nat, string>, pieces: seq<Piece>) {
    forall q :: 0 <= q < |pieces| && pieces[q].Hole? ==> q in texts
  }

  function Shown(pieces: seq<Piece>, q: nat, texts: map<nat, string>): string
    requires q < |pieces| && Covers(texts, pieces)
  {
    match pieces[q]
    case Lit(c) => [c]
    case Hole(_, _, _) => texts[q]
  }

  /** From left to right, from place q on: literal text as it is, each placeholder as its text. */
  function Substitute(pieces: seq<Piece>, q: nat, texts: map<nat, string>): string
    requires q <= |pieces| && Covers(texts, pieces)
    decreases |pieces| - q
  {
    if q == |pieces| then "" else Shown(pieces, q, texts) + Substitute(pieces, q + 1, texts)
  }

  lemma TextsStep<A, S>(order: seq<Placeholder>, n: nat, args: seq<A>, render: Renderer<A, S>, start: S)
    requires 0 < n <= |order| && AllDrawn(order, args, render, start)
    ensures Drawn(order, n - 1, args, render, start).Some?
    ensures Texts(order, n, args, render, start) ==
            Texts(order, n - 1, args, render, start)[
              order[n - 1].pos := Drawn(order, n - 1, args, render, start).value.0]
  {
    hide Drawn;
  }

  lemma {:induction false} TextAt<A, S>(order: seq<Placeholder>, n: nat, j: nat, args: seq<A>,
                                        render: Renderer<A, S>, start: S)
    requires j < n <= |order| && DistinctPos(order) && AllDrawn(order, args, render, start)
    ensures var texts, drawn := Texts(order, n, args, render, start), Drawn(order, j, args, render, start);
            drawn.Some? && order[j].pos in texts && texts[order[j].pos] == drawn.value.0
  {
    hide Drawn, AllDrawn, Texts;
    TextsStep(order, n, args, render, start);
    if j < n - 1 {
      TextAt(order, n - 1, j, args, render, start);
      assert order[j].pos != order[n - 1].pos;
    }
  }

  lemma TextsAre<A, S>(order: seq<Placeholder>, args: seq<A>, render: Renderer<A, S>, start: S)
    requires DistinctPos(order) && AllDrawn(order, args, render, start)
    ensures var texts := Texts(order, |order|, args, render, start);
            forall j :: 0 <= j < |order| ==>
              order[j].pos in texts && texts[order[j].pos] == Drawn(order, j, args, render, start).value.0
  {
    hide Drawn, Texts;
    var texts := Texts(order, |order|, args, render, start);
    forall j | 0 <= j < |order|
      ensures order[j].pos in texts && texts[order[j].pos] == Drawn(order, j, args, render, start).value.0
    {
      TextAt(order, |order|, j, args, render, start);
    }
  }

  lemma TextsCover<A, S>(order: seq<Placeholder>, pieces: seq<Piece>, args: seq<A>, render: Renderer<A, S>, start: S)
    requires Valid(pieces) && TableOf(order, pieces) && AllDrawn(order, args, render, start)
    ensures Covers(Texts(order, |order|, args, render, start), pieces)
  {
    TextsAre(order, args, render, start);
    hide Texts, Drawn;
    forall q | 0 <= q < |pieces| && pieces[q].Hole? ensures q in Texts(order, |order|, args, render, start) {
      var j :| 0 <= j < |order| && order[j].pos == q;
    }
  }

  /** What a format means when its table is in a given order. */
  ghost function Meaning<A, S>(pieces: seq<Piece>, order: seq<Placeholder>, args: seq<A>,
                               render: Renderer<A, S>, start: S)
    : Result<string>
    requires Valid(pieces) && TableOf(order, pieces)
  {
    if AllDrawn(order, args, render, start) then
      TextsCover(order, pieces, args, render, start);
      Ok(Substitute(pieces, 0, Texts(order, |order|, args, render, start)))
    else FormatError
  }

  // ---- Filling the table, one argument after the other ----

  /** std::equal_range with RangeCompare. */
  method EqualRange(ps: seq<Placeholder>, index: nat) returns (lo: nat, hi: nat)
    requires SortedBy(ps, ByIndex)
    ensures lo <= hi <= |ps|
    ensures forall i :: 0 <= i < |ps| ==> (lo <= i < hi <==> ps[i].index == index)
  {
    lo := Boundary(ps, index, 0);
    hi := Boundary(ps, index + 1, lo);
  }

  /** Binary search from `first` on for the first entry whose index is not below `index`. */
  method Boundary(ps: seq<Placeholder>, index: nat, first: nat) returns (lo: nat)
    requires SortedBy(ps, ByIndex) && first <= |ps| && forall i :: 0 <= i < first ==> ps[i].index < index
    ensures first <= lo <= |ps|
    ensures forall i :: 0 <= i < lo ==> ps[i].index < index
    ensures forall i :: lo <= i < |ps| ==> ps[i].index >= index
  {
    lo := first;
    var hi := |ps|;
    while lo < hi
      invariant first <= lo <= hi <= |ps|
      invariant forall i :: 0 <= i < lo ==> ps[i].index < index
      invariant forall i :: hi <= i < |ps| ==> ps[i].index >= index
    {
      var mid := (lo + hi) / 2;
      assert forall i :: 0 <= i < mid ==> ByIndex(ps[i]) <= ByIndex(ps[mid]);
      assert forall i :: mid < i < |ps| ==> ByIndex(ps[mid]) <= ByIndex(ps[i]);
      if ps[mid].index < index {
        lo := mid + 1;
      } else {
        hi := mid;
      }
    }
  }

  /** Only the `formatted` members differ. */
  predicate SameSlots(ps: seq<Placeholder>, qs: seq<Placeholder>) {
    && |ps| == |qs|
    && forall i :: 0 <= i < |ps| ==> ps[i].index == qs[i].index && ps[i].pos == qs[i].pos && ps[i].spec == qs[i].spec
  }

  lemma SameSlotsTable(ps: seq<Placeholder>, qs: seq<Placeholder>, pieces: seq<Piece>)
    requires Valid(pieces) && TableOf(ps, pieces) && SameSlots(ps, qs)
    ensures TableOf(qs, pieces)
    ensures SortedBy(ps, ByIndex) ==> SortedBy(qs, ByIndex)
  {
    forall i | 0 <= i < |qs| ensures Describes(qs[i], pieces) {
      assert Describes(ps[i], pieces);
    }
    forall q | 0 <= q < |pieces| && pieces[q].Hole? ensures exists i :: 0 <= i < |qs| && qs[i].pos == q {
      var i :| 0 <= i < |ps| && ps[i].pos == q;
      assert qs[i].pos == q;
    }
    if SortedBy(ps, ByIndex) {
      forall i, j | 0 <= i < j < |qs| ensures ByIndex(qs[i]) <= ByIndex(qs[j]) {
        assert ByIndex(ps[i]) <= ByIndex(ps[j]);
      }
    }
  }

  /** The entries of the first n arguments have their texts. */
  predicate Filled<A, S>(ps: seq<Placeholder>, n: nat, order: seq<Placeholder>, args: seq<A>,
                         render: Renderer<A, S>, start: S)
    requires |ps| == |order|
  {
    forall j :: 0 <= j < |ps| && order[j].index < n && order[j].index < |args| ==>
      var drawn := Drawn(order, j, args, render, start);
      drawn.Some? && ps[j].formatted == drawn.value.0
  }

  lemma DrawnIs<A, S>(order: seq<Placeholder>, k: nat, args: seq<A>, render: Renderer<A, S>, start: S)
    requires k < |order| && order[k].index < |args|
    ensures var follows := k > 0 && order[k - 1].index == order[k].index;
            && (!follows ==> Drawn(order, k, args, render, start) == render(args[order[k].index], order[k].spec, start))
            && (follows && Drawn(order, k - 1, args, render, start).Some? ==>
                  Drawn(order, k, args, render, start) ==
                  render(args[order[k].index], order[k].spec, Drawn(order, k - 1, args, render, start).value.1))
  {}

  /** The placeholders of argument n are written to one stream, one after the other. */
  method FillArgument<A, S>(ps: seq<Placeholder>, n: nat, args: seq<A>, render: Renderer<A, S>, start: S,
                            ghost order: seq<Placeholder>)
    returns (r: Result<seq<Placeholder>>)
    requires n < |args| && SortedBy(ps, ByIndex) && SameSlots(order, ps) && Filled(ps, n, order, args, render, start)
    ensures r.Ok? ==> SameSlots(order, r.value) && Filled(r.value, n + 1, order, args, render, start)
    ensures r.FormatError? ==> exists j :: 0 <= j < |order| && Drawn(order, j, args, render, start).None?
  {
    hide Drawn;
    var lo, hi := EqualRange(ps, n);
    var qs, stream := ps, start;
    for k := lo to hi
      invariant SameSlots(order, qs)
      invariant forall i :: 0 <= i < |qs| && !(lo <= i < hi) ==> qs[i] == ps[i]
      invariant k == lo ==> stream == start
      invariant forall i :: lo <= i < k ==> Drawn(order, i, args, render, start).Some? &&
                                            qs[i].formatted == Drawn(order, i, args, render, start).value.0
      invariant k > lo ==> Drawn(order, k - 1, args, render, start).value.1 == stream
    {
      assert order[k].index == n && (k > 0 ==> (order[k - 1].index == n <==> k > lo));
      DrawnIs(order, k, args, render, start);
      var text := render(args[n], qs[k].spec, stream);
      if text.None? {
        return FormatError;
      }
      qs := qs[k := qs[k].(formatted := text.value.0)];
      stream := text.value.1;
    }
    r := Ok(qs);
  }

  // ---- Splicing from right to left ----

  /** Literals between two places are the same before and after substitution. */
  lemma {:induction false} LiteralRun(pieces: seq<Piece>, a: nat, b: nat, texts: map<nat, string>)
    requires Covers(texts, pieces) && a <= b <= |pieces|
    requires forall i :: a <= i < b ==> pieces[i].Lit?
    ensures Substitute(pieces, a, texts) == Marked(pieces)[a..b] + Substitute(pieces, b, texts)
    decreases b - a
  {
    MarkedLength(pieces);
    if a < b {
      LiteralStep(pieces, a, texts);
      hide *;
      LiteralRun(pieces, a + 1, b, texts);
      SliceStep(Marked(pieces), a, b);
      Associate([pieces[a].c], Marked(pieces)[a + 1..b], Substitute(pieces, b, texts));
    } else {
      assert Marked(pieces)[a..b] == [];
    }
  }

  lemma MarkedLength(pieces: seq<Piece>)
    ensures |Marked(pieces)| == |pieces|
  {}

  lemma LiteralStep(pieces: seq<Piece>, a: nat, texts: map<nat, string>)
    requires Covers(texts, pieces) && a < |pieces| && pieces[a].Lit?
    ensures |Marked(pieces)| == |pieces| && Marked(pieces)[a] == pieces[a].c
    ensures Substitute(pieces, a, texts) == [pieces[a].c] + Substitute(pieces, a + 1, texts)
  {}

  lemma SliceStep(s: string, a: nat, b: nat)
    requires a < b <= |s|
    ensures s[a..b] == [s[a]] + s[a + 1..b]
  {}

  /** Replacing the mark at q, when everything from `end` on is already replaced. */
  lemma ReplaceOne(pieces: seq<Piece>, q: nat, end: nat, str: string, texts: map<nat, string>)
    requires Covers(texts, pieces) && q < end <= |pieces|
    requires pieces[q].Hole? && forall i :: q < i < end ==> pieces[i].Lit?
    requires str == Marked(pieces)[..end] + Substitute(pieces, end, texts)
    ensures q < |str| && q <= |Marked(pieces)|
    ensures str[..q] + texts[q] + str[q + 1..] == Marked(pieces)[..q] + Substitute(pieces, q, texts)
  {
    LiteralRun(pieces, q + 1, end, texts);
    assert |Marked(pieces)| == |pieces|;
    assert Substitute(pieces, q, texts) == texts[q] + Substitute(pieces, q + 1, texts);
    hide Marked, Substitute, Covers;
    ReplaceMark(Marked(pieces), q, end, Substitute(pieces, end, texts), texts[q]);
  }

  lemma ReplaceMark(marked: string, q: nat, end: nat, tail: string, x: string)
    requires q < end <= |marked|
    ensures var str := marked[..end] + tail;
            q < |str| && str[..q] + x + str[q + 1..] == marked[..q] + (x + (marked[q + 1..end] + tail))
  {
    var str := marked[..end] + tail;
    assert str[..q] == marked[..q] && str[q + 1..] == marked[q + 1..end] + tail;
  }

  /** Between two entries that are neighbours from the right there is no further placeholder. */
  lemma NoHoleBetween(ps: seq<Placeholder>, pieces: seq<Piece>, j: nat, i: nat)
    requires Valid(pieces) && TableOf(ps, pieces) && SortedBy(ps, FromTheRight) && j <= |ps| && i < |pieces|
    requires j < |ps| ==> ps[j].pos < i
    requires j > 0 ==> i < ps[j - 1].pos
    ensures pieces[i].Lit?
  {
    assert j > 0 ==> forall k :: 0 <= k < j - 1 ==> FromTheRight(ps[k]) <= FromTheRight(ps[j - 1]);
    assert j < |ps| ==> forall k :: j < k < |ps| ==> FromTheRight(ps[j]) <= FromTheRight(ps[k]);
  }

  /** Every entry holds its text. */
  predicate Holds(ps: seq<Placeholder>, texts: map<nat, string>) {
    forall i :: 0 <= i < |ps| ==> ps[i].pos in texts && ps[i].formatted == texts[ps[i].pos]
  }

  lemma SortedHolds(ps: seq<Placeholder>, qs: seq<Placeholder>, texts: map<nat, string>)
    requires multiset(ps) == multiset(qs) && Holds(ps, texts)
    ensures Holds(qs, texts)
  {
    forall i | 0 <= i < |qs| ensures qs[i].pos in texts && qs[i].formatted == texts[qs[i].pos] {
      assert qs[i] in multiset(qs);
      assert qs[i] in ps;
    }
  }

  /** A table with all arguments filled in. */
  lemma FilledHolds<A, S>(ps: seq<Placeholder>, order: seq<Placeholder>, args: seq<A>, render: Renderer<A, S>, start: S)
    requires DistinctPos(order) && SameSlots(order, ps) && Filled(ps, |args|, order, args, render, start)
    requires forall j :: 0 <= j < |order| ==> order[j].index < |args|
    ensures AllDrawn(order, args, render, start) && Holds(ps, Texts(order, |order|, args, render, start))
  {
    TextsAre(order, args, render, start);
    hide Drawn, Texts;
  }

  /** The terminal overload: every index must be below the argument count; then the marks are replaced. */
  method FinishFormat<A, S>(text: string, ps: seq<Placeholder>, argCount: nat, ghost pieces: seq<Piece>,
                            ghost order: seq<Placeholder>, ghost args: seq<A>,
                            ghost render: Renderer<A, S>, ghost start: S)
    returns (r: Result<string>)
    requires Valid(pieces) && TableOf(order, pieces) && SameSlots(order, ps) && text == Marked(pieces)
    requires argCount == |args| && Filled(ps, argCount, order, args, render, start)
    ensures r == Meaning(pieces, order, args, render, start)
  {
    if exists i :: 0 <= i < |ps| && ps[i].index >= argCount {
      ghost var i :| 0 <= i < |ps| && ps[i].index >= argCount;
      assert Drawn(order, i, args, render, start).None?;
      return FormatError;
    }
    FilledHolds(ps, order, args, render, start);
    TextsCover(order, pieces, args, render, start);
    SameSlotsTable(order, ps, pieces);
    hide Drawn, Texts, Substitute, Marked, Filled;
    var sorted := Sort(ps, FromTheRight);
    RearrangedTable(ps, sorted, pieces);
    ghost var texts := Texts(order, |order|, args, render, start);
    SortedHolds(ps, sorted, texts);
    var str := Splice(text, sorted, pieces, texts);
    r := Ok(str);
  }

  /** The next entry to the left: a placeholder with its text, and literals between it and `end`. */
  lemma EntryFromTheRight(sorted: seq<Placeholder>, pieces: seq<Piece>, texts: map<nat, string>, j: nat, end: nat)
    requires Valid(pieces) && TableOf(sorted, pieces) && SortedBy(sorted, FromTheRight) && Holds(sorted, texts)
    requires j < |sorted| && end == if j > 0 then sorted[j - 1].pos else |pieces|
    ensures var p := sorted[j];
            && p.pos < end <= |pieces| && pieces[p.pos].Hole? && p.pos in texts && p.formatted == texts[p.pos]
            && forall i :: p.pos < i < end ==> pieces[i].Lit?
  {
    var p := sorted[j];
    assert Describes(p, pieces);
    if j > 0 {
      assert Describes(sorted[j - 1], pieces);
      assert FromTheRight(sorted[j - 1]) <= FromTheRight(p) && sorted[j - 1].pos != p.pos;
    }
    hide TableOf, SortedBy, Holds, Describes;
    forall i | p.pos < i < end ensures pieces[i].Lit? {
      NoHoleBetween(sorted, pieces, j, i);
    }
  }

  /** The loop over the placeholders from right to left. */
  method Splice(text: string, sorted: seq<Placeholder>, ghost pieces: seq<Piece>, ghost texts: map<nat, string>)
    returns (str: string)
    requires Valid(pieces) && TableOf(sorted, pieces) && SortedBy(sorted, FromTheRight) && text == Marked(pieces)
    requires Covers(texts, pieces) && Holds(sorted, texts)
    ensures str == Substitute(pieces, 0, texts)
  {
    AllMarked(pieces, texts);
    hide Substitute, Marked, Covers, TableOf, SortedBy, Holds, DistinctPos;
    str := text;
    ghost var end := |pieces|;
    for j := 0 to |sorted|
      invariant end <= |pieces| && end == if j > 0 then sorted[j - 1].pos else |pieces|
      invariant str == Marked(pieces)[..end] + Substitute(pieces, end, texts)
    {
      var p := sorted[j];
      EntryFromTheRight(sorted, pieces, texts, j, end);
      ReplaceOne(pieces, p.pos, end, str, texts);
      str := str[..p.pos] + p.formatted + str[p.pos + 1..];
      end := p.pos;
    }
    forall i | 0 <= i < end ensures pieces[i].Lit? {
      NoHoleBetween(sorted, pieces, |sorted|, i);
    }
    LiteralRun(pieces, 0, end, texts);
    assert Marked(pieces)[0..end] == Marked(pieces)[..end];
  }

  lemma AllMarked(pieces: seq<Piece>, texts: map<nat, string>)
    requires Covers(texts, pieces)
    ensures |Marked(pieces)| == |pieces|
    ensures Marked(pieces) == Marked(pieces)[..|pieces|] + Substitute(pieces, |pieces|, texts)
  {}

  /** The variadic overload: argument n, then the rest. */
  method FormatRest<A, S>(text: string, ps: seq<Placeholder>, n: nat, args: seq<A>, render: Renderer<A, S>, start: S,
                          ghost pieces: seq<Piece>, ghost order: seq<Placeholder>)
    returns (r: Result<string>)
    requires Valid(pieces) && TableOf(order, pieces) && text == Marked(pieces)
    requires n <= |args| && SortedBy(order, ByIndex) && SameSlots(order, ps)
    requires Filled(ps, n, order, args, render, start)
    ensures r == Meaning(pieces, order, args, render, start)
    decreases |args| - n
  {
    hide Drawn, Texts, Substitute, Marked, TableOf;
    SameOrder(order, ps);
    if n == |args| {
      r := FinishFormat(text, ps, n, pieces, order, args, render, start);
      return;
    }
    var filled := FillArgument(ps, n, args, render, start, order);
    if filled.FormatError? {
      return FormatError;
    }
    r := FormatRest(text, filled.value, n + 1, args, render, start, pieces, order);
  }

  lemma SameOrder(ps: seq<Placeholder>, qs: seq<Placeholder>)
    requires SameSlots(ps, qs) && SortedBy(ps, ByIndex)
    ensures SortedBy(qs, ByIndex)
  {
    forall i, j | 0 <= i < j < |qs| ensures ByIndex(qs[i]) <= ByIndex(qs[j]) {
      assert ByIndex(ps[i]) <= ByIndex(ps[j]);
    }
  }

  /** StringFormat: analysing, filling and splicing amount to the left-to-right meaning, errors included, with the
      placeholders of one argument rendered in the order in which std::sort left them. */
  method StringFormat<A, S>(fmt: string, args: seq<A>, render: Renderer<A, S>, start: S)
    returns (r: Result<string>, ghost order: seq<Placeholder>)
    ensures Parse(fmt).None? ==> r == FormatError
    ensures Parse(fmt).Some? ==>
              var pieces := Parse(fmt).value;
              && Valid(pieces) && multiset(order) == multiset(Holes(pieces)) && SortedBy(order, ByIndex)
              && TableOf(order, pieces) && r == Meaning(pieces, order, args, render, start)
  {
    order := [];
    var analysed := AnalyzeFormat(fmt);
    if analysed.FormatError? {
      return FormatError, order;
    }
    ghost var pieces := Parse(fmt).value;
    order := analysed.value.placeholders;
    HolesAreTable(pieces);
    RearrangedTable(Holes(pieces), order, pieces);
    hide Holes, Marked, Drawn, Texts, Substitute, TableOf;
    r := FormatRest(analysed.value.text, analysed.value.placeholders, 0, args, render, start, pieces, order);
  }

  // ---- Placeholders that stand alone ----

  /** Every placeholder by itself. */
  predicate AllPlain<A>(pieces: seq<Piece>, args: seq<A>, plain: (A, string) -> Option<string>)
    requires Valid(pieces)
  {
    forall q :: 0 <= q < |pieces| && pieces[q].Hole? ==>
      Index(pieces[q].digits) < |args| && plain(args[Index(pieces[q].digits)], pieces[q].spec).Some?
  }

  function PlainText<A>(pieces: seq<Piece>, q: nat, args: seq<A>, plain: (A, string) -> Option<string>): string
    requires Valid(pieces) && AllPlain(pieces, args, plain) && q <= |pieces|
    decreases |pieces| - q
  {
    if q == |pieces| then "" else
    (if pieces[q].Lit? then [pieces[q].c] else plain(args[Index(pieces[q].digits)], pieces[q].spec).value) +
    PlainText(pieces, q + 1, args, plain)
  }

  /** From left to right literal text and, for every placeholder, the rendering of its own argument alone. */
  function PlainMeaning<A>(pieces: seq<Piece>, args: seq<A>, plain: (A, string) -> Option<string>): Result<string>
    requires Valid(pieces)
  {
    if AllPlain(pieces, args, plain) then Ok(PlainText(pieces, 0, args, plain)) else FormatError
  }

  lemma {:induction false} PlainIsSubstitute<A>(pieces: seq<Piece>, q: nat, args: seq<A>,
                                                plain: (A, string) -> Option<string>, texts: map<nat, string>)
    requires Valid(pieces) && AllPlain(pieces, args, plain) && q <= |pieces| && Covers(texts, pieces)
    requires forall i :: 0 <= i < |pieces| && pieces[i].Hole? ==>
               texts[i] == plain(args[Index(pieces[i].digits)], pieces[i].spec).value
    ensures Substitute(pieces, q, texts) == PlainText(pieces, q, args, plain)
    decreases |pieces| - q
  {
    hide Substitute, PlainText, Index, Covers, AllPlain, Valid;
    if q < |pieces| {
      PlainIsSubstitute(pieces, q + 1, args, plain, texts);
      PlainStep(pieces, q, args, plain, texts);
    } else {
      NoText(pieces, args, plain, texts);
    }
  }

  lemma PlainStep<A>(pieces: seq<Piece>, q: nat, args: seq<A>, plain: (A, string) -> Option<string>,
                     texts: map<nat, string>)
    requires Valid(pieces) && AllPlain(pieces, args, plain) && q < |pieces| && Covers(texts, pieces)
    ensures Substitute(pieces, q, texts) ==
            (if pieces[q].Lit? then [pieces[q].c] else texts[q]) + Substitute(pieces, q + 1, texts)
    ensures PlainText(pieces, q, args, plain) ==
            (if pieces[q].Lit? then [pieces[q].c] else plain(args[Index(pieces[q].digits)], pieces[q].spec).value) +
            PlainText(pieces, q + 1, args, plain)
  {
    hide Index;
  }

  lemma NoText<A>(pieces: seq<Piece>, args: seq<A>, plain: (A, string) -> Option<string>, texts: map<nat, string>)
    requires Valid(pieces) && AllPlain(pieces, args, plain) && Covers(texts, pieces)
    ensures Substitute(pieces, |pieces|, texts) == "" && PlainText(pieces, |pieces|, args, plain) == ""
  {}

  lemma PlainEntry<A>(order: seq<Placeholder>, i: nat, pieces: seq<Piece>, args: seq<A>,
                      plain: (A, string) -> Option<string>)
    requires Valid(pieces) && TableOf(order, pieces) && AllPlain(pieces, args, plain) && i < |order|
    ensures order[i].index < |args| && plain(args[order[i].index], order[i].spec).Some?
  {
    assert Describes(order[i], pieces);
  }

  /** Entry j of the table gets what it would get alone. */
  predicate DrawnAlone<A, S>(order: seq<Placeholder>, j: nat, args: seq<A>, render: Renderer<A, S>, start: S,
                             plain: (A, string) -> Option<string>)
    requires j < |order|
  {
    var drawn := Drawn(order, j, args, render, start);
    drawn.Some? && order[j].index < |args| && plain(args[order[j].index], order[j].spec) == Some(drawn.value.0)
  }

  lemma MeansPlain<A, S>(pieces: seq<Piece>, order: seq<Placeholder>, args: seq<A>, render: Renderer<A, S>, start: S,
                         plain: (A, string) -> Option<string>)
    requires Valid(pieces) && TableOf(order, pieces) && AllPlain(pieces, args, plain)
    requires forall j :: 0 <= j < |order| ==> DrawnAlone(order, j, args, render, start, plain)
    ensures Meaning(pieces, order, args, render, start) == PlainMeaning(pieces, args, plain)
  {
    assert AllDrawn(order, args, render, start) by {
      forall j | 0 <= j < |order| ensures Drawn(order, j, args, render, start).Some? {
        assert DrawnAlone(order, j, args, render, start, plain);
      }
    }
    TextsAre(order, args, render, start);
    TextsCover(order, pieces, args, render, start);
    var texts := Texts(order, |order|, args, render, start);
    hide Texts, Drawn, Substitute, PlainText;
    forall q | 0 <= q < |pieces| && pieces[q].Hole?
      ensures texts[q] == plain(args[Index(pieces[q].digits)], pieces[q].spec).value
    {
      var i :| 0 <= i < |order| && order[i].pos == q;
      assert Describes(order[i], pieces) && DrawnAlone(order, i, args, render, start, plain);
    }
    PlainIsSubstitute(pieces, 0, args, plain, texts);
  }

  /** An entry that fails alone makes the format fail. */
  lemma FailsPlain<A, S>(pieces: seq<Piece>, order: seq<Placeholder>, args: seq<A>, render: Renderer<A, S>, start: S,
                         plain: (A, string) -> Option<string>)
    requires Valid(pieces) && TableOf(order, pieces) && !AllPlain(pieces, args, plain)
    requires forall j :: 0 <= j < |order| && order[j].index < |args| && Drawn(order, j, args, render, start).Some? ==>
               plain(args[order[j].index], order[j].spec).Some?
    ensures Meaning(pieces, order, args, render, start) == PlainMeaning(pieces, args, plain)
  {
    var q :| 0 <= q < |pieces| && pieces[q].Hole? &&
             !(Index(pieces[q].digits) < |args| && plain(args[Index(pieces[q].digits)], pieces[q].spec).Some?);
    var j :| 0 <= j < |order| && order[j].pos == q;
    assert Describes(order[j], pieces);
    assert Drawn(order, j, args, render, start).None?;
  }

  /** No argument has two placeholders. */
  predicate OncePerArgument(pieces: seq<Piece>)
    requires Valid(pieces)
  {
    forall i, j :: 0 <= i < j < |pieces| && pieces[i].Hole? && pieces[j].Hole? ==>
      Index(pieces[i].digits) != Index(pieces[j].digits)
  }

  /** The rendering on a new stream. */
  function PlainOf<A, S>(render: Renderer<A, S>, start: S): (A, string) -> Option<string> {
    (a, spec) => match render(a, spec, start) case None => None case Some(drawn) => Some(drawn.0)
  }

  /** In this order every placeholder comes out as if it were rendered alone. */
  ghost predicate MeansAlone<A, S>(pieces: seq<Piece>, order: seq<Placeholder>, args: seq<A>,
                                   render: Renderer<A, S>, start: S)
    requires Valid(pieces) && TableOf(order, pieces)
  {
    Meaning(pieces, order, args, render, start) == PlainMeaning(pieces, args, PlainOf(render, start))
  }

  /** Whatever the arguments, the renderer and the order that sorting leaves, every placeholder is rendered alone. */
  ghost predicate StandAlone<A(!new), S(!new)>(pieces: seq<Piece>)
    requires Valid(pieces)
  {
    forall order, args: seq<A>, render: Renderer<A, S>, start ::
      TableOf(order, pieces) && SortedBy(order, ByIndex) ==> MeansAlone(pieces, order, args, render, start)
  }

  lemma OnceInTable(pieces: seq<Piece>, order: seq<Placeholder>, j: nat)
    requires Valid(pieces) && TableOf(order, pieces) && OncePerArgument(pieces) && 0 < j < |order|
    ensures order[j - 1].index != order[j].index
  {
    var a, b := order[j - 1].pos, order[j].pos;
    assert Describes(order[j - 1], pieces) && Describes(order[j], pieces) && a != b;
    hide Index;
    assert if a < b then pieces[a].Hole? && pieces[b].Hole? else pieces[b].Hole? && pieces[a].Hole?;
  }

  lemma OnceIsAlone<A(!new), S(!new)>(pieces: seq<Piece>, order: seq<Placeholder>, args: seq<A>,
                                      render: Renderer<A, S>, start: S)
    requires Valid(pieces) && TableOf(order, pieces) && OncePerArgument(pieces)
    ensures MeansAlone(pieces, order, args, render, start)
  {
    var plain := PlainOf(render, start);
    forall j | 0 < j < |order| ensures order[j - 1].index != order[j].index {
      OnceInTable(pieces, order, j);
    }
    hide TableOf, OncePerArgument, Meaning, PlainMeaning;
    if AllPlain(pieces, args, plain) {
      forall j | 0 <= j < |order| ensures DrawnAlone(order, j, args, render, start, plain) {
        PlainEntry(order, j, pieces, args, plain);
      }
      MeansPlain(pieces, order, args, render, start, plain);
    } else {
      FailsPlain(pieces, order, args, render, start, plain);
    }
  }

  /** A format of one placeholder: "{" n ":" spec "}" is what argument n writes, if there is one. */
  lemma OneArgument<A(!new), S(!new)>(n: nat, spec: string, order: seq<Placeholder>, args: seq<A>,
                                      render: Renderer<A, S>, start: S)
    requires |args| <= 0xffff_ffff_ffff_ffff && forall c :: c in spec ==> c != '{' && c != '}'
    ensures var parsed := Parse("{" + Decimal(n) + ":" + spec + "}");
            parsed.Some? && Valid(parsed.value) &&
            (TableOf(order, parsed.value) ==>
               Meaning(parsed.value, order, args, render, start) ==
               if n < |args| && render(args[n], spec, start).Some? then Ok(render(args[n], spec, start).value.0)
               else FormatError)
  {
    var pieces := [Hole(Decimal(n), true, spec)];
    FormatGrammar.OnePlaceholder(n, spec);
    ValidHole(n, spec);
    if TableOf(order, pieces) {
      hide *;
      IndexOfDecimal(n);
      OnceInOne(pieces);
      OnceIsAlone(pieces, order, args, render, start);
      OneIsPlain(pieces, args, PlainOf(render, start));
      AloneIs(pieces, order, args, render, start);
      PlainOfIs(render, start, args, n, spec);
    }
    hide *;
  }

  lemma OnceInOne(pieces: seq<Piece>)
    requires Valid(pieces) && |pieces| == 1
    ensures OncePerArgument(pieces)
  {}

  lemma PlainOfIs<A, S>(render: Renderer<A, S>, start: S, args: seq<A>, n: nat, spec: string)
    ensures n < |args| ==>
              var drawn := render(args[n], spec, start);
              PlainOf(render, start)(args[n], spec) == if drawn.None? then None else Some(drawn.value.0)
  {}

  lemma ValidHole(n: nat, spec: string)
    requires forall c :: c in spec ==> c != '{' && c != '}'
    ensures Valid([Hole(Decimal(n), true, spec)])
  {
    ValueOfDecimal(n);
    assert forall i :: 0 <= i < |spec| ==> spec[i] in spec;
    hide Decimal, DecimalValue, AllDigits;
  }

  lemma OneIsPlain<A>(pieces: seq<Piece>, args: seq<A>, plain: (A, string) -> Option<string>)
    requires Valid(pieces) && |pieces| == 1 && pieces[0].Hole?
    ensures var i := Index(pieces[0].digits);
            PlainMeaning(pieces, args, plain) ==
            if i < |args| && plain(args[i], pieces[0].spec).Some? then Ok(plain(args[i], pieces[0].spec).value)
            else FormatError
  {
    hide Index;
    if AllPlain(pieces, args, plain) {
      var text := plain(args[Index(pieces[0].digits)], pieces[0].spec).value;
      assert text + "" == text;
      assert PlainText(pieces, 1, args, plain) == "";
      assert PlainText(pieces, 0, args, plain) ==
             plain(args[Index(pieces[0].digits)], pieces[0].spec).value + PlainText(pieces, 1, args, plain);
    }
  }

  // ---- Placeholders that share an argument ----

  /** The stream after some renderings of one argument, one behind the other; None as soon as one fails. */
  function StreamAfter<A, S>(a: A, specs: seq<string>, render: Renderer<A, S>, start: S): Option<S>
    decreases |specs|
  {
    if specs == [] then Some(start) else
    var first := render(a, specs[0], start);
    if first.None? then None else StreamAfter(a, specs[1..], render, first.value.1)
  }

  function Specs(ps: seq<Placeholder>): (r: seq<string>)
    ensures |r| == |ps| && forall i :: 0 <= i < |ps| ==> r[i] == ps[i].spec
  {
    seq(|ps|, i requires 0 <= i < |ps| => ps[i].spec)
  }

  /** The placeholders of one argument, from the first to the last, write to one stream; that of another argument
      is not touched. */
  lemma {:induction false} DrawnInTurn<A, S>(order: seq<Placeholder>, lo: nat, j: nat, args: seq<A>,
                                             render: Renderer<A, S>, start: S)
    requires lo <= j < |order| && (lo > 0 ==> order[lo - 1].index != order[lo].index)
    requires forall i :: lo <= i <= j ==> order[i].index == order[lo].index
    requires order[lo].index < |args|
    ensures var a := args[order[lo].index];
            var stream := StreamAfter(a, Specs(order[lo..j]), render, start);
            Drawn(order, j, args, render, start) ==
            if stream.None? then None else render(a, order[j].spec, stream.value)
    decreases j
  {
    var a := args[order[lo].index];
    if j == lo {
      assert Specs(order[lo..j]) == [];
    } else {
      DrawnInTurn(order, lo, j - 1, args, render, start);
      assert Specs(order[lo..j]) == Specs(order[lo..j - 1]) + [order[j - 1].spec];
      hide Drawn;
      StreamLast(a, Specs(order[lo..j - 1]), order[j - 1].spec, render, start);
      DrawnNext(order, j, args, render, start);
    }
  }

  lemma DrawnNext<A, S>(order: seq<Placeholder>, j: nat, args: seq<A>, render: Renderer<A, S>, start: S)
    requires 0 < j < |order| && order[j - 1].index == order[j].index < |args|
    ensures var before := Drawn(order, j - 1, args, render, start);
            Drawn(order, j, args, render, start) ==
            if before.None? then None else render(args[order[j].index], order[j].spec, before.value.1)
  {}

  lemma {:induction false} StreamLast<A, S>(a: A, specs: seq<string>, spec: string, render: Renderer<A, S>, start: S)
    ensures var before := StreamAfter(a, specs, render, start);
            var drawn := if before.None? then None else render(a, spec, before.value);
            StreamAfter(a, specs + [spec], render, start) == if drawn.None? then None else Some(drawn.value.1)
    decreases |specs|
  {
    var more := specs + [spec];
    if specs == [] {
      assert more[1..] == [];
    } else {
      assert more[1..] == specs[1..] + [spec];
      var first := render(a, specs[0], start);
      if first.Some? {
        StreamLast(a, specs[1..], spec, render, first.value.1);
      }
    }
  }

  // ---- A renderer that shows what is left ----

  function Tell<A>(a: A, spec: string, used: bool): Option<(string, bool)> {
    Some((if used then "x" else "", true))
  }

  /** More than any index of the format. */
  function Bound(pieces: seq<Piece>): (n: nat)
    requires Valid(pieces)
    ensures forall q :: 0 <= q < |pieces| && pieces[q].Hole? ==> Index(pieces[q].digits) < n
  {
    if pieces == [] then 0 else
    var last := |pieces| - 1;
    var n := Bound(pieces[..last]);
    assert forall q :: 0 <= q < last ==> pieces[..last][q] == pieces[q];
    if pieces[last].Lit? || Index(pieces[last].digits) < n then n else Index(pieces[last].digits) + 1
  }

  function Sorted(ps: seq<Placeholder>, key: Placeholder -> int): seq<Placeholder> {
    if ps == [] then [] else Insert(ps[0], Sorted(ps[1..], key), key)
  }

  lemma {:induction false} SortedIsSorted(ps: seq<Placeholder>, key: Placeholder -> int)
    ensures SortedBy(Sorted(ps, key), key) && multiset(Sorted(ps, key)) == multiset(ps)
  {
    if ps != [] {
      SortedIsSorted(ps[1..], key);
      InsertSorts(ps[0], Sorted(ps[1..], key), key);
      assert ps == [ps[0]] + ps[1..];
    }
  }

  /** In a sorted table two placeholders of one argument have two neighbours of one argument between them. */
  lemma Neighbours(order: seq<Placeholder>, u: nat, v: nat)
    requires u < v < |order| && SortedBy(order, ByIndex) && order[u].index == order[v].index
    ensures order[v - 1].index == order[v].index
  {
    assert ByIndex(order[u]) <= ByIndex(order[v - 1]) <= ByIndex(order[v]);
  }

  lemma {:induction false} DrawnTells<A>(order: seq<Placeholder>, j: nat, args: seq<A>)
    requires j < |order| && forall i :: 0 <= i < |order| ==> order[i].index < |args|
    ensures var again := j > 0 && order[j - 1].index == order[j].index;
            Drawn(order, j, args, Tell, false) == Some((if again then "x" else "", true))
  {
    if j > 0 {
      DrawnTells(order, j - 1, args);
    }
  }

  ghost predicate Silent<A(!new)>(plain: (A, string) -> Option<string>) {
    forall a, spec :: plain(a, spec) == Some("")
  }

  lemma OneShown<A(!new)>(pieces: seq<Piece>, q: nat, args: seq<A>, plain: (A, string) -> Option<string>,
                          texts: map<nat, string>)
    requires Valid(pieces) && AllPlain(pieces, args, plain) && q < |pieces| && Covers(texts, pieces) && Silent(plain)
    ensures var n := if pieces[q].Lit? then 1 else |texts[q]|;
            |Substitute(pieces, q, texts)| == n + |Substitute(pieces, q + 1, texts)|
    ensures var n := if pieces[q].Lit? then 1 else 0;
            |PlainText(pieces, q, args, plain)| == n + |PlainText(pieces, q + 1, args, plain)|
  {
    PlainStep(pieces, q, args, plain, texts);
    hide Index, Substitute, PlainText;
  }

  /** The text is longer than the literals alone as soon as one placeholder shows something. */
  lemma {:induction false} Longer<A(!new)>(pieces: seq<Piece>, q: nat, args: seq<A>,
                                           plain: (A, string) -> Option<string>, texts: map<nat, string>, k: nat)
    requires Valid(pieces) && AllPlain(pieces, args, plain) && q <= |pieces| && Covers(texts, pieces) && Silent(plain)
    requires k < |pieces| && pieces[k].Hole? && texts[k] != ""
    ensures |Substitute(pieces, q, texts)| >= |PlainText(pieces, q, args, plain)| + if q <= k then 1 else 0
    decreases |pieces| - q
  {
    hide *;
    if q < |pieces| {
      OneShown(pieces, q, args, plain, texts);
      Longer(pieces, q + 1, args, plain, texts, k);
    } else {
      NoText(pieces, args, plain, texts);
    }
  }

  /** With this renderer two placeholders of one argument show, in every order that sorting can leave. */
  lemma TwiceShows<A(!new)>(pieces: seq<Piece>, order: seq<Placeholder>, args: seq<A>)
    requires Valid(pieces) && TableOf(order, pieces) && SortedBy(order, ByIndex) && !OncePerArgument(pieces)
    requires |args| == Bound(pieces)
    ensures !MeansAlone(pieces, order, args, Tell, false)
  {
    hide *;
    var k := TellsTwice(pieces, order, args);
    AllSilent(pieces, args);
    TextsCover(order, pieces, args, Tell, false);
    MeaningIs(pieces, order, args, Tell, false);
    Longer(pieces, 0, args, PlainOf(Tell, false), Texts(order, |order|, args, Tell, false), k);
    PlainMeaningIs(pieces, args, PlainOf(Tell, false));
    AloneIs(pieces, order, args, Tell, false);
  }

  lemma AloneIs<A, S>(pieces: seq<Piece>, order: seq<Placeholder>, args: seq<A>, render: Renderer<A, S>, start: S)
    requires Valid(pieces) && TableOf(order, pieces)
    ensures MeansAlone(pieces, order, args, render, start) <==>
            Meaning(pieces, order, args, render, start) == PlainMeaning(pieces, args, PlainOf(render, start))
  {}

  lemma MeaningIs<A, S>(pieces: seq<Piece>, order: seq<Placeholder>, args: seq<A>, render: Renderer<A, S>, start: S)
    requires Valid(pieces) && TableOf(order, pieces) && AllDrawn(order, args, render, start)
    ensures var texts := Texts(order, |order|, args, render, start);
            Covers(texts, pieces) && Meaning(pieces, order, args, render, start) == Ok(Substitute(pieces, 0, texts))
  {
    TextsCover(order, pieces, args, render, start);
    hide Texts, Substitute, Covers, AllDrawn, TableOf;
  }

  lemma PlainMeaningIs<A>(pieces: seq<Piece>, args: seq<A>, plain: (A, string) -> Option<string>)
    requires Valid(pieces) && AllPlain(pieces, args, plain)
    ensures PlainMeaning(pieces, args, plain) == Ok(PlainText(pieces, 0, args, plain))
  {}

  lemma AllSilent<A(!new)>(pieces: seq<Piece>, args: seq<A>)
    requires Valid(pieces) && |args| == Bound(pieces)
    ensures Silent(PlainOf(Tell<A>, false)) && AllPlain(pieces, args, PlainOf(Tell<A>, false))
  {
    var plain := PlainOf(Tell<A>, false);
    forall a, spec ensures plain(a, spec) == Some("") {
      assert Tell(a, spec, false) == Some(("", true));
    }
    assert Silent(plain);
    hide Index, PlainOf;
  }

  lemma TellsTwice<A>(pieces: seq<Piece>, order: seq<Placeholder>, args: seq<A>) returns (k: nat)
    requires Valid(pieces) && TableOf(order, pieces) && SortedBy(order, ByIndex) && !OncePerArgument(pieces)
    requires |args| == Bound(pieces)
    ensures AllDrawn(order, args, Tell, false) && k < |pieces| && pieces[k].Hole?
    ensures var texts := Texts(order, |order|, args, Tell, false); k in texts && texts[k] != ""
  {
    var v := SecondOfTwo(pieces, order);
    hide SortedBy, OncePerArgument, Texts, Index;
    forall i | 0 <= i < |order| ensures order[i].index < |args| {
      assert Describes(order[i], pieces);
    }
    hide Valid, Bound;
    forall j | 0 <= j < |order| ensures Drawn(order, j, args, Tell, false).Some? {
      DrawnTells(order, j, args);
    }
    TextsAre(order, args, Tell, false);
    DrawnTells(order, v, args);
    assert Describes(order[v], pieces);
    k := order[v].pos;
  }

  lemma SecondOfTwo(pieces: seq<Piece>, order: seq<Placeholder>) returns (v: nat)
    requires Valid(pieces) && TableOf(order, pieces) && SortedBy(order, ByIndex) && !OncePerArgument(pieces)
    ensures 0 < v < |order| && order[v - 1].index == order[v].index
  {
    hide Index, SortedBy;
    var i, j :| 0 <= i < j < |pieces| && pieces[i].Hole? && pieces[j].Hole? &&
                Index(pieces[i].digits) == Index(pieces[j].digits);
    var u := EntryAt(pieces, order, i);
    var w := EntryAt(pieces, order, j);
    hide Valid, TableOf, OncePerArgument;
    v := if u < w then w else u;
    Neighbours(order, if u < w then u else w, v);
  }

  lemma EntryAt(pieces: seq<Piece>, order: seq<Placeholder>, q: nat) returns (u: nat)
    requires Valid(pieces) && TableOf(order, pieces) && q < |pieces| && pieces[q].Hole?
    ensures u < |order| && order[u].pos == q && order[u].index == Index(pieces[q].digits)
  {
    u :| 0 <= u < |order| && order[u].pos == q;
    assert Describes(order[u], pieces);
  }

  /** An order that sorting can leave. */
  lemma SomeOrder(pieces: seq<Piece>) returns (order: seq<Placeholder>)
    requires Valid(pieces)
    ensures TableOf(order, pieces) && SortedBy(order, ByIndex)
  {
    hide *;
    order := Sorted(Holes(pieces), ByIndex);
    SortedIsSorted(Holes(pieces), ByIndex);
    HolesAreTable(pieces);
    RearrangedTable(Holes(pieces), order, pieces);
  }

  lemma NotAlone<A(!new), S(!new)>(pieces: seq<Piece>, order: seq<Placeholder>, args: seq<A>,
                                   render: Renderer<A, S>, start: S)
    requires Valid(pieces) && TableOf(order, pieces) && SortedBy(order, ByIndex)
    requires !MeansAlone(pieces, order, args, render, start)
    ensures !StandAlone<A, S>(pieces)
  {
    hide MeansAlone, TableOf, SortedBy, Valid;
  }

  lemma TwiceIsNotAlone<A(!new)>(pieces: seq<Piece>, a: A)
    requires Valid(pieces) && !OncePerArgument(pieces)
    ensures !StandAlone<A, bool>(pieces)
  {
    hide *;
    var order := SomeOrder(pieces);
    var args := seq(Bound(pieces), _ => a);
    TwiceShows(pieces, order, args);
    NotAlone(pieces, order, args, Tell, false);
  }

  /** A format means the left-to-right substitution of every placeholder by the rendering of its argument alone, for
      all arguments, renderers and orders of a sorted table, if and only if no argument has two placeholders.
      One bit of stream state is enough to tell. */
  lemma WhenPlaceholdersStandAlone<A(!new), S(!new)>(pieces: seq<Piece>, a: A)
    requires Valid(pieces)
    ensures OncePerArgument(pieces) ==> StandAlone<A, S>(pieces)
    ensures OncePerArgument(pieces) <==> StandAlone<A, bool>(pieces)
  {
    if OncePerArgument(pieces) {
      OnceStandsAlone<A, S>(pieces);
      OnceStandsAlone<A, bool>(pieces);
    } else {
      TwiceIsNotAlone(pieces, a);
    }
    hide *;
  }

  lemma OnceStandsAlone<A(!new), S(!new)>(pieces: seq<Piece>)
    requires Valid(pieces) && OncePerArgument(pieces)
    ensures StandAlone<A, S>(pieces)
  {
    hide MeansAlone, TableOf, OncePerArgument, SortedBy;
    forall order, args: seq<A>, render: Renderer<A, S>, start | TableOf(order, pieces) && SortedBy(order, ByIndex)
      ensures MeansAlone(pieces, order, args, render, start)
    {
      OnceIsAlone(pieces, order, args, render, start);
    }
  }

  // ---- Renderers that leave nothing behind ----

  /** What is left in the stream does not show. */
  ghost predicate Forgetful<A(!new), S(!new)>(render: Renderer<A, S>, plain: (A, string) -> Option<string>) {
    forall a, spec, stream ::
      var drawn := render(a, spec, stream);
      (drawn.None? <==> plain(a, spec).None?) && (drawn.Some? ==> plain(a, spec) == Some(drawn.value.0))
  }

  lemma {:induction false} DrawnPlain<A(!new), S(!new)>(order: seq<Placeholder>, j: nat, args: seq<A>,
                                                        render: Renderer<A, S>, start: S,
                                                        plain: (A, string) -> Option<string>)
    requires j < |order| && Forgetful(render, plain)
    requires forall i :: 0 <= i < |order| ==>
               order[i].index < |args| && plain(args[order[i].index], order[i].spec).Some?
    ensures DrawnAlone(order, j, args, render, start, plain)
  {
    if j > 0 && order[j - 1].index == order[j].index {
      DrawnPlain(order, j - 1, args, render, start, plain);
    }
  }

  /** With such a renderer a format means this in every order of its table, also when arguments have more than one
      placeholder. */
  lemma OrderDoesNotMatter<A(!new), S(!new)>(pieces: seq<Piece>, order: seq<Placeholder>, args: seq<A>,
                                             render: Renderer<A, S>, start: S,
                                             plain: (A, string) -> Option<string>)
    requires Valid(pieces) && TableOf(order, pieces) && Forgetful(render, plain)
    ensures Meaning(pieces, order, args, render, start) == PlainMeaning(pieces, args, plain)
  {
    hide TableOf, Meaning, PlainMeaning;
    if AllPlain(pieces, args, plain) {
      forall j | 0 <= j < |order|
        ensures order[j].index < |args| && plain(args[order[j].index], order[j].spec).Some?
      {
        PlainEntry(order, j, pieces, args, plain);
      }
      forall j | 0 <= j < |order| ensures DrawnAlone(order, j, args, render, start, plain) {
        DrawnPlain(order, j, args, render, start, plain);
      }
      MeansPlain(pieces, order, args, render, start, plain);
    } else {
      FailsPlain(pieces, order, args, render, start, plain);
    }
  }
}
