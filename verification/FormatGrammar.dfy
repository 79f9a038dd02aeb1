/** The format strings of kbase/string_format.cpp: their grammar, its parser and what a format means.
    A format ends where the source's terminating NUL stands. */
module FormatGrammar {
  import opened Wrappers

  /** A literal character, or a placeholder: index digits and, after a colon, a specifier. */
  datatype Piece = Lit(c: char) | Hole(digits: string, colon: bool, spec: string)

  predicate IsDigit(c: char) {
    '0' <= c <= '9'
  }

  predicate AllDigits(s: string) {
    forall i :: 0 <= i < |s| ==> IsDigit(s[i])
  }

  predicate BraceFree(s: string) {
    forall i :: 0 <= i < |s| ==> s[i] != '{' && s[i] != '}'
  }

  predicate ValidPiece(p: Piece) {
    p.Hole? ==> p.digits != "" && AllDigits(p.digits) && BraceFree(p.spec) && (p.colon || p.spec == "")
  }

  predicate Valid(pieces: seq<Piece>) {
    forall i :: 0 <= i < |pieces| ==> ValidPiece(pieces[i])
  }

  // ---- The grammar: how pieces are written ----

  function Print(p: Piece): string {
    match p
    case Lit(c) => if c == '{' || c == '}' then [c, c] else [c]
    case Hole(digits, colon, spec) => "{" + digits + (if colon then ":" else "") + spec + "}"
  }

  function PrintAll(pieces: seq<Piece>): string {
    if pieces == [] then "" else Print(pieces[0]) + PrintAll(pieces[1..])
  }

  // ---- Its parser ----

  /** The number of digits at the front. */
  function DigitCount(s: string): (n: nat)
    ensures n <= |s| && AllDigits(s[..n]) && (n < |s| ==> !IsDigit(s[n]))
  {
    if s == "" || !IsDigit(s[0]) then 0 else
    var n := DigitCount(s[1..]);
    assert s[..n + 1] == [s[0]] + s[1..][..n];
    n + 1
  }

  function Prepend(front: seq<Piece>, rest: Option<seq<Piece>>): Option<seq<Piece>> {
    if rest.None? then None else Some(front + rest.value)
  }

  /** None where the source throws FormatError. */
  function Parse(s: string): Option<seq<Piece>>
    decreases |s|
  {
    if s == "" then Some([])
    else if s[0] == '{' then
      if |s| == 1 then None
      else if s[1] == '{' then Prepend([Lit('{')], Parse(s[2..]))
      else if !IsDigit(s[1]) then None
      else
        var n := DigitCount(s[1..]);
        var digits, rest := s[1..][..n], s[1..][n..];
        if rest == "" then None
        else if rest[0] == '}' then ParseSpec(digits, false, "", rest)
        else if rest[0] == ':' then ParseSpec(digits, true, "", rest[1..])
        else None
    else if s[0] == '}' then
      if |s| > 1 && s[1] == '}' then Prepend([Lit('}')], Parse(s[2..])) else None
    else Prepend([Lit(s[0])], Parse(s[1..]))
  }

  /** Inside a placeholder, with `spec` read so far. */
  function ParseSpec(digits: string, colon: bool, spec: string, s: string): Option<seq<Piece>>
    decreases |s|
  {
    if s == "" || s[0] == '{' then None
    else if s[0] == '}' then Prepend([Hole(digits, colon, spec)], Parse(s[1..]))
    else ParseSpec(digits, colon, spec + [s[0]], s[1..])
  }

  lemma PrependTwice(x: seq<Piece>, y: seq<Piece>, r: Option<seq<Piece>>)
    ensures Prepend(x, Prepend(y, r)) == Prepend(x + y, r)
  {
    if r.Some? {
      assert x + (y + r.value) == x + y + r.value;
    }
  }

  /** One piece in front of a parsed rest. */
  lemma PieceFirst(p: Piece, rest: string, r: Option<seq<Piece>>)
    requires ValidPiece(p)
    requires r.Some? ==> Valid(r.value) && PrintAll(r.value) == rest
    ensures var q := Prepend([p], r);
            q.Some? ==> Valid(q.value) && PrintAll(q.value) == Print(p) + rest
  {
    if r.Some? {
      assert ([p] + r.value)[1..] == r.value;
    }
    hide Print;
  }

  /** What is parsed is written like the input. */
  lemma {:induction false} ParseIsSound(s: string)
    ensures Parse(s).Some? ==> Valid(Parse(s).value) && PrintAll(Parse(s).value) == s
    decreases |s|, 1
  {
    hide Valid, PrintAll, Prepend, ParseSpec, DigitCount, AllDigits, BraceFree;
    if s == "" {
      NothingIsSound();
    } else if s[0] == '{' && |s| > 1 && s[1] != '{' {
      HoleIsSound(s);
    } else if !(s[0] == '{' || s[0] == '}') || (|s| > 1 && s[1] == s[0]) {
      var k := if s[0] == '{' || s[0] == '}' then 2 else 1;
      ParseIsSound(s[k..]);
      PieceFirst(Lit(s[0]), s[k..], Parse(s[k..]));
      assert s == Print(Lit(s[0])) + s[k..];
    }
  }

  lemma NothingIsSound()
    ensures Valid([]) && PrintAll([]) == ""
  {}

  lemma {:induction false} HoleIsSound(s: string)
    requires |s| > 1 && s[0] == '{' && s[1] != '{'
    ensures Parse(s).Some? ==> Valid(Parse(s).value) && PrintAll(Parse(s).value) == s
    decreases |s|, 0
  {
    hide Valid, PrintAll, Prepend, ParseSpec, BraceFree;
    NothingInside();
    var n := DigitCount(s[1..]);
    var digits, rest := s[1..][..n], s[1..][n..];
    assert IsDigit(s[1]) ==> n > 0;
    if n > 0 && rest != "" {
      assert s == "{" + digits + rest;
      hide DigitCount;
      if rest[0] == '}' {
        SpecIsSound(digits, false, "", rest);
        assert "{" + digits + "" + "" + rest == s;
      } else if rest[0] == ':' {
        SpecIsSound(digits, true, "", rest[1..]);
        assert "{" + digits + ":" + "" + rest[1..] == s;
      }
    }
  }

  lemma NothingInside()
    ensures BraceFree("")
  {}

  lemma {:induction false} SpecIsSound(digits: string, colon: bool, spec: string, s: string)
    requires digits != "" && AllDigits(digits) && BraceFree(spec) && (colon || (spec == "" && s != "" && s[0] == '}'))
    ensures var r := ParseSpec(digits, colon, spec, s);
            r.Some? ==> Valid(r.value) && PrintAll(r.value) == "{" + digits + (if colon then ":" else "") + spec + s
    decreases |s|, 0
  {
    hide Valid, PrintAll, Prepend, Parse, AllDigits;
    if s != "" && s[0] == '}' {
      ParseIsSound(s[1..]);
      var hole := Hole(digits, colon, spec);
      PieceFirst(hole, s[1..], Parse(s[1..]));
      assert Print(hole) + s[1..] == "{" + digits + (if colon then ":" else "") + spec + s;
    } else if s != "" && s[0] != '{' {
      SpecIsSound(digits, colon, spec + [s[0]], s[1..]);
      assert spec + [s[0]] + s[1..] == spec + s;
    }
  }

  lemma DigitsFirst(digits: string, rest: string)
    requires AllDigits(digits) && (rest == "" || !IsDigit(rest[0]))
    ensures DigitCount(digits + rest) == |digits|
  {
    var s := digits + rest;
    var n := DigitCount(s);
    assert forall i :: 0 <= i < |digits| ==> s[i] == digits[i];
    assert rest != "" ==> s[|digits|] == rest[0];
    assert forall i :: 0 <= i < n ==> s[..n][i] == s[i];
  }

  lemma {:induction false} SpecIsComplete(digits: string, colon: bool, before: string, spec: string, rest: string)
    requires BraceFree(spec)
    ensures ParseSpec(digits, colon, before, spec + "}" + rest) ==
            Prepend([Hole(digits, colon, before + spec)], Parse(rest))
    decreases |spec|
  {
    var s := spec + "}" + rest;
    if spec == "" {
      assert s[1..] == rest && before + spec == before;
    } else {
      assert s[1..] == spec[1..] + "}" + rest;
      SpecIsComplete(digits, colon, before + [spec[0]], spec[1..], rest);
      assert before + [spec[0]] + spec[1..] == before + spec;
    }
  }

  lemma LiteralIsComplete(c: char, rest: string)
    ensures Parse(Print(Lit(c)) + rest) == Prepend([Lit(c)], Parse(rest))
  {
    var s := Print(Lit(c)) + rest;
    assert s[if c == '{' || c == '}' then 2 else 1..] == rest;
    hide ParseSpec, DigitCount;
  }

  lemma HoleIsComplete(digits: string, colon: bool, spec: string, rest: string)
    requires ValidPiece(Hole(digits, colon, spec))
    ensures Parse(Print(Hole(digits, colon, spec)) + rest) == Prepend([Hole(digits, colon, spec)], Parse(rest))
  {
    var body := spec + "}" + rest;
    var tail := if colon then ":" + body else body;
    assert (":" + body)[1..] == body && "" + spec == spec;
    assert tail[0] == if colon then ':' else '}';
    PrintHole(digits, colon, spec, rest);
    hide Parse, ParseSpec, Print, Prepend, AllDigits, BraceFree;
    SpecIsComplete(digits, colon, "", spec, rest);
    IndexIsComplete(digits, tail);
  }

  lemma PrintHole(digits: string, colon: bool, spec: string, rest: string)
    ensures var body := spec + "}" + rest;
            Print(Hole(digits, colon, spec)) + rest == "{" + digits + if colon then ":" + body else body
  {
    var body := spec + "}" + rest;
    if colon {
      assert "{" + digits + ":" + spec + "}" + rest == "{" + digits + (":" + body);
    } else {
      assert "{" + digits + "" + spec + "}" + rest == "{" + digits + body;
    }
  }

  lemma PieceIsComplete(p: Piece, rest: string)
    requires ValidPiece(p)
    ensures Parse(Print(p) + rest) == Prepend([p], Parse(rest))
  {
    hide Parse;
    match p
    case Lit(c) => LiteralIsComplete(c, rest);
    case Hole(digits, colon, spec) => HoleIsComplete(digits, colon, spec, rest);
  }

  lemma IndexIsComplete(digits: string, tail: string)
    requires digits != "" && AllDigits(digits) && tail != "" && (tail[0] == ':' || tail[0] == '}')
    ensures Parse("{" + digits + tail) ==
            if tail[0] == '}' then ParseSpec(digits, false, "", tail) else ParseSpec(digits, true, "", tail[1..])
  {
    var s := "{" + digits + tail;
    assert s[1..] == digits + tail && s[1] == digits[0];
    DigitsFirst(digits, tail);
    assert s[1..][..|digits|] == digits && s[1..][|digits|..] == tail;
    hide ParseSpec, DigitCount;
  }

  /** What is written is parsed, and in no other way. */
  lemma {:induction false} ParseIsComplete(pieces: seq<Piece>)
    requires Valid(pieces)
    ensures Parse(PrintAll(pieces)) == Some(pieces)
  {
    if pieces != [] {
      ParseIsComplete(pieces[1..]);
      PieceIsComplete(pieces[0], PrintAll(pieces[1..]));
      assert [pieces[0]] + pieces[1..] == pieces;
    }
  }

  /** Exactly the strings of the grammar are accepted. */
  lemma AcceptsTheGrammar(s: string)
    ensures Parse(s).Some? <==> exists pieces :: Valid(pieces) && PrintAll(pieces) == s
  {
    ParseIsSound(s);
    if pieces :| Valid(pieces) && PrintAll(pieces) == s {
      ParseIsComplete(pieces);
    }
  }

  function Literals(s: string): seq<Piece> {
    seq(|s|, i requires 0 <= i < |s| => Lit(s[i]))
  }

  /** A text with its braces doubled. */
  function Escape(s: string): string {
    if s == "" then "" else (if s[0] == '{' || s[0] == '}' then [s[0], s[0]] else [s[0]]) + Escape(s[1..])
  }

  lemma {:induction false} EscapeIsPrint(s: string)
    ensures Escape(s) == PrintAll(Literals(s))
  {
    if s != "" {
      EscapeIsPrint(s[1..]);
      assert Literals(s)[1..] == Literals(s[1..]);
    }
  }

  // ---- What the pieces become ----

  const MARK := '@'
  const ULONG_MAX := 0xffff_ffff_ffff_ffff

  function DecimalValue(digits: string): nat
    requires AllDigits(digits)
  {
    if digits == "" then 0 else
    10 * DecimalValue(digits[..|digits| - 1]) + (digits[|digits| - 1] as nat - '0' as nat)
  }

  /** strtoul: the decimal value, at most the largest unsigned long. */
  function Index(digits: string): nat
    requires AllDigits(digits)
  {
    var n := DecimalValue(digits);
    if n > ULONG_MAX then ULONG_MAX else n
  }

  lemma DigitsAre(c: char)
    ensures IsDigit(c) <==> c in "0123456789"
  {}

  /** The number in decimal notation. */
  function Decimal(n: nat): string {
    (if n < 10 then "" else Decimal(n / 10)) + ["0123456789"[n % 10]]
  }

  lemma DigitValue(d: nat)
    requires d < 10
    ensures IsDigit("0123456789"[d]) && "0123456789"[d] as nat - '0' as nat == d
  {}

  lemma OneMoreDigit(front: string, c: char)
    requires AllDigits(front) && IsDigit(c)
    ensures AllDigits(front + [c]) && DecimalValue(front + [c]) == 10 * DecimalValue(front) + (c as nat - '0' as nat)
  {
    assert (front + [c])[..|front|] == front;
  }

  /** Digits stand for the number that is written with them. */
  lemma {:induction false} ValueOfDecimal(n: nat)
    ensures Decimal(n) != "" && AllDigits(Decimal(n)) && DecimalValue(Decimal(n)) == n
  {
    DigitValue(n % 10);
    assert DecimalValue("") == 0;
    hide DecimalValue, IsDigit;
    if n >= 10 {
      ValueOfDecimal(n / 10);
    }
    OneMoreDigit(if n < 10 then "" else Decimal(n / 10), "0123456789"[n % 10]);
  }

  /** Zeros in front change nothing. */
  lemma {:induction false} LeadingZero(digits: string)
    requires AllDigits(digits)
    ensures AllDigits("0" + digits) && DecimalValue("0" + digits) == DecimalValue(digits)
    decreases |digits|
  {
    var more := "0" + digits;
    if digits == "" {
      assert more[..0] == "";
    } else {
      LeadingZero(digits[..|digits| - 1]);
      assert more[..|more| - 1] == "0" + digits[..|digits| - 1];
    }
  }

  /** A number is its own index up to 2^64 - 1, which stands for all larger ones. */
  lemma IndexOfDecimal(n: nat)
    ensures AllDigits(Decimal(n))
    ensures Index(Decimal(n)) == if n < 0x1_0000_0000_0000_0000 then n else 0xffff_ffff_ffff_ffff
  {
    ValueOfDecimal(n);
  }

  datatype Placeholder = Placeholder(index: nat, pos: nat, spec: string, formatted: string)

  /** The analysed format: literals as they are, a mark for each placeholder. */
  function Marked(pieces: seq<Piece>): string {
    seq(|pieces|, i requires 0 <= i < |pieces| => if pieces[i].Lit? then pieces[i].c else MARK)
  }

  /** The placeholders in the order in which they stand. */
  function Holes(pieces: seq<Piece>): (r: seq<Placeholder>)
    requires Valid(pieces)
  {
    if pieces == [] then [] else
    var n := |pieces| - 1;
    var front := Holes(pieces[..n]);
    match pieces[n]
    case Lit(_) => front
    case Hole(digits, _, spec) => front + [Placeholder(Index(digits), n, spec, "")]
  }

  /** A brace stands for itself when it is doubled, and for nothing else outside a placeholder. */
  lemma Braces(c: char)
    ensures Parse("{{") == Some([Lit('{')]) && Parse("}}") == Some([Lit('}')])
    ensures Parse("{") == None && Parse("}") == None && Parse("{}") == None
    ensures c != '{' && c != '}' ==> Parse([c]) == Some([Lit(c)])
  {
    assert Parse("") == Some([]);
    assert "{{"[2..] == "" && "}}"[2..] == "" && [c][1..] == "";
    assert [Lit('{')] + [] == [Lit('{')] && [Lit('}')] + [] == [Lit('}')] && [Lit(c)] + [] == [Lit(c)];
  }

  /** How a placeholder is written. */
  lemma OnePlaceholder(n: nat, spec: string)
    requires forall c :: c in spec ==> c != '{' && c != '}'
    ensures Parse("{" + Decimal(n) + "}") == Some([Hole(Decimal(n), false, "")])
    ensures Parse("{" + Decimal(n) + ":" + spec + "}") == Some([Hole(Decimal(n), true, spec)])
  {
    ValueOfDecimal(n);
    var bare, full := [Hole(Decimal(n), false, "")], [Hole(Decimal(n), true, spec)];
    assert BraceFree(spec) by {
      assert forall i :: 0 <= i < |spec| ==> spec[i] in spec;
    }
    hide Decimal, DecimalValue, Parse, AllDigits, BraceFree;
    ParseIsComplete(bare);
    ParseIsComplete(full);
    assert bare[1..] == [] && full[1..] == [];
    assert PrintAll(bare) == "{" + Decimal(n) + "}";
    assert PrintAll(full) == "{" + Decimal(n) + ":" + spec + "}";
  }

  /** The placeholders stand at strictly increasing positions, each at a mark of the analysed format. */
  lemma {:induction false} HolesInOrder(pieces: seq<Piece>)
    requires Valid(pieces)
    ensures forall i, j :: 0 <= i < j < |Holes(pieces)| ==> Holes(pieces)[i].pos < Holes(pieces)[j].pos
    ensures forall i :: 0 <= i < |Holes(pieces)| ==>
              var p := Holes(pieces)[i];
              p.pos < |pieces| && pieces[p.pos].Hole? && Marked(pieces)[p.pos] == MARK &&
              p == Placeholder(Index(pieces[p.pos].digits), p.pos, pieces[p.pos].spec, "")
    decreases |pieces|
  {
    if pieces != [] {
      HolesInOrder(pieces[..|pieces| - 1]);
    }
  }

  /** Text with doubled braces is text: it parses to its own characters and has no placeholder. */
  lemma EscapedTextIsLiteral(s: string)
    ensures Parse(Escape(s)) == Some(Literals(s)) && Marked(Literals(s)) == s && Holes(Literals(s)) == []
  {
    EscapeIsPrint(s);
    ParseIsComplete(Literals(s));
    NoHoles(Literals(s));
  }

  lemma {:induction false} NoHoles(pieces: seq<Piece>)
    requires forall i :: 0 <= i < |pieces| ==> pieces[i].Lit?
    ensures Holes(pieces) == []
  {
    if pieces != [] {
      NoHoles(pieces[..|pieces| - 1]);
    }
  }
}
