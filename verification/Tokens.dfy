/** SplitString and JoinString of kbase/string_util.cpp and the iterating Tokenizer of kbase/tokenizer.h. */
module Tokens {

  datatype Position = At(index: nat) | Npos

  predicate OnlyFrom(s: string, delims: string) {
    forall i :: 0 <= i < |s| ==> s[i] in delims
  }

  predicate FreeOf(s: string, delims: string) {
    forall i :: 0 <= i < |s| ==> s[i] !in delims
  }

  // ---- The meaning: a text is cut into gaps of delimiters and the tokens between them ----

  function Weave(gaps: seq<string>, tokens: seq<string>): string
    requires |gaps| == |tokens| + 1
  {
    if tokens == [] then gaps[0] else gaps[0] + tokens[0] + Weave(gaps[1..], tokens[1..])
  }

  /** Tokens are non-empty and free of delimiters, and at least one delimiter keeps two of them apart:
      so every token is a maximal delimiter-free run, and no run is left out. */
  predicate Cut(gaps: seq<string>, tokens: seq<string>, delims: string) {
    && |gaps| == |tokens| + 1
    && (forall i :: 0 <= i < |gaps| ==> OnlyFrom(gaps[i], delims))
    && (forall i :: 0 < i < |tokens| ==> gaps[i] != "")
    && (forall i :: 0 <= i < |tokens| ==> tokens[i] != "" && FreeOf(tokens[i], delims))
  }

  /** The number of characters at the start of s that are delimiters (or, for `wanted` false, that are not). */
  function Span(s: string, delims: string, wanted: bool): (n: nat)
    ensures n <= |s|
    ensures forall i :: 0 <= i < n ==> (s[i] in delims) == wanted
    ensures n < |s| ==> (s[n] in delims) != wanted
  {
    if s == "" || (s[0] in delims) != wanted then 0 else 1 + Span(s[1..], delims, wanted)
  }

  /** The maximal delimiter-free runs, from left to right. */
  function Runs(s: string, delims: string): seq<string>
    decreases |s|
  {
    var t := s[Span(s, delims, true)..];
    if t == "" then [] else
    var n := Span(t, delims, false);
    [t[..n]] + Runs(t[n..], delims)
  }

  function Gaps(s: string, delims: string): (g: seq<string>)
    ensures |g| == |Runs(s, delims)| + 1
    decreases |s|
  {
    var n := Span(s, delims, true);
    var t := s[n..];
    if t == "" then [s] else [s[..n]] + Gaps(t[Span(t, delims, false)..], delims)
  }

  /** One more gap and token in front. */
  lemma CutCons(gap: string, token: string, gaps: seq<string>, tokens: seq<string>, delims: string)
    requires Cut(gaps, tokens, delims) && (tokens != [] ==> gaps[0] != "")
    requires OnlyFrom(gap, delims) && token != "" && FreeOf(token, delims)
    ensures Cut([gap] + gaps, [token] + tokens, delims)
    ensures Weave([gap] + gaps, [token] + tokens) == gap + token + Weave(gaps, tokens)
  {
    var g, t := [gap] + gaps, [token] + tokens;
    assert g[1..] == gaps && t[1..] == tokens;
    assert forall i :: 0 < i < |g| ==> g[i] == gaps[i - 1];
    assert forall i :: 0 < i < |t| ==> t[i] == tokens[i - 1];
  }

  /** The first gap and the first run of a text that is more than a gap. */
  lemma FirstRun(s: string, delims: string) returns (gap: string, run: string, rest: string)
    requires !OnlyFrom(s, delims)
    ensures s == gap + run + rest && OnlyFrom(gap, delims) && FreeOf(run, delims) && run != ""
    ensures (rest != "" ==> rest[0] in delims) && (s[0] in delims ==> gap != "")
    ensures Runs(s, delims) == [run] + Runs(rest, delims) && Gaps(s, delims) == [gap] + Gaps(rest, delims)
  {
    var k := Span(s, delims, true);
    var t := s[k..];
    var n := Span(t, delims, false);
    gap, run, rest := s[..k], t[..n], t[n..];
    assert t[0] == s[k];
  }

  lemma NoRun(s: string, delims: string)
    requires OnlyFrom(s, delims)
    ensures Runs(s, delims) == [] && Gaps(s, delims) == [s]
  {}

  lemma {:induction false} RunsCut(s: string, delims: string)
    ensures Cut(Gaps(s, delims), Runs(s, delims), delims)
    ensures Weave(Gaps(s, delims), Runs(s, delims)) == s
    ensures Runs(s, delims) != [] && s[0] in delims ==> Gaps(s, delims)[0] != ""
    decreases |s|
  {
    if OnlyFrom(s, delims) {
      NoRun(s, delims);
    } else {
      var gap, run, rest := FirstRun(s, delims);
      RunsCut(rest, delims);
      assert Runs(rest, delims) != [] ==> rest != "" by {
        NoRun("", delims);
      }
      CutCons(gap, run, Gaps(rest, delims), Runs(rest, delims), delims);
      hide *;
    }
  }

  lemma SpanOf(x: string, y: string, delims: string, wanted: bool)
    requires if wanted then OnlyFrom(x, delims) else FreeOf(x, delims)
    requires y == "" || (y[0] in delims) != wanted
    ensures Span(x + y, delims, wanted) == |x|
  {
    assert forall i :: 0 <= i < |x| ==> (x + y)[i] == x[i];
    assert y != "" ==> (x + y)[|x|] == y[0];
  }

  /** There is only one way to cut a text. */
  lemma {:induction false} CutIsUnique(gaps: seq<string>, tokens: seq<string>, delims: string)
    requires Cut(gaps, tokens, delims)
    ensures Runs(Weave(gaps, tokens), delims) == tokens
    decreases |tokens|
  {
    var s := Weave(gaps, tokens);
    if tokens == [] {
      NoRun(s, delims);
    } else {
      var rest := Weave(gaps[1..], tokens[1..]);
      assert rest == "" || rest[0] in delims by {
        if |tokens| > 1 {
          assert gaps[1..][0] == gaps[1] != "";
        }
      }
      assert s == gaps[0] + tokens[0] + rest;
      assert Cut(gaps[1..], tokens[1..], delims);
      assert OnlyFrom(gaps[0], delims) && FreeOf(tokens[0], delims) && tokens[0] != "";
      hide *;
      RunInFront(gaps[0], tokens[0], rest, delims);
      CutIsUnique(gaps[1..], tokens[1..], delims);
    }
  }

  /** A gap and a token before a text that is empty or starts with a delimiter. */
  lemma RunInFront(gap: string, token: string, rest: string, delims: string)
    requires OnlyFrom(gap, delims) && FreeOf(token, delims) && token != "" && (rest == "" || rest[0] in delims)
    ensures Runs(gap + token + rest, delims) == [token] + Runs(rest, delims)
  {
    var t := token + rest;
    var s := gap + token + rest;
    assert s == gap + t;
    assert t[0] == token[0] && token[0] !in delims;
    SpanOf(gap, t, delims, true);
    SpanOf(token, rest, delims, false);
    assert s[|gap|..] == t && t[..|token|] == token && t[|token|..] == rest;
    hide Span, OnlyFrom, FreeOf;
  }

  /** What the source computes: with no delimiters at all, nothing. */
  function Split(s: string, delims: string): seq<string> {
    if delims == "" then [] else Runs(s, delims)
  }

  /** Split yields exactly the maximal runs, and a result of another form is never one. */
  lemma SplitIsTheCut(s: string, delims: string, tokens: seq<string>)
    ensures delims != "" ==>
              (Split(s, delims) == tokens <==> exists gaps :: Cut(gaps, tokens, delims) && Weave(gaps, tokens) == s)
    ensures delims == "" ==> (Split(s, delims) == tokens <==> tokens == [])
  {
    RunsCut(s, delims);
    if gaps :| Cut(gaps, tokens, delims) && Weave(gaps, tokens) == s {
      CutIsUnique(gaps, tokens, delims);
    }
  }

  // ---- Searching, as BasicStringView does it ----

  /** find_first_not_of; an empty set of characters finds nothing. */
  function FindFirstNotOf(s: string, delims: string, pos: nat): (r: Position)
    ensures r.At? ==> pos <= r.index < |s| && delims != "" && s[r.index] !in delims && OnlyFrom(s[pos..r.index], delims)
    ensures r.Npos? ==> pos >= |s| || delims == "" || OnlyFrom(s[pos..], delims)
    decreases |s| - pos
  {
    if delims == "" || pos >= |s| then Npos
    else if s[pos] !in delims then At(pos)
    else
      var r := FindFirstNotOf(s, delims, pos + 1);
      assert r.At? ==> s[pos..r.index] == [s[pos]] + s[pos + 1..r.index];
      assert s[pos..] == [s[pos]] + s[pos + 1..];
      r
  }

  function FindFirstOf(s: string, delims: string, pos: nat): (r: Position)
    ensures r.At? ==> pos <= r.index < |s| && s[r.index] in delims && FreeOf(s[pos..r.index], delims)
    ensures r.Npos? ==> pos >= |s| || FreeOf(s[pos..], delims)
    decreases |s| - pos
  {
    if delims == "" || pos >= |s| then Npos
    else if s[pos] in delims then At(pos)
    else
      var r := FindFirstOf(s, delims, pos + 1);
      assert r.At? ==> s[pos..r.index] == [s[pos]] + s[pos + 1..r.index];
      assert s[pos..] == [s[pos]] + s[pos + 1..];
      r
  }

  /** One step of either tokeniser: skip s[from..begin], take s[begin..end]. */
  lemma NextRun(s: string, delims: string, from: nat, begin: nat, end: nat)
    requires from <= begin < end <= |s|
    requires OnlyFrom(s[from..begin], delims) && FreeOf(s[begin..end], delims)
    requires end == |s| || s[end] in delims
    ensures Runs(s[from..], delims) == [s[begin..end]] + Runs(s[end..], delims)
  {
    hide *;
    assert s[from..] == s[from..begin] + s[begin..end] + s[end..];
    RunInFront(s[from..begin], s[begin..end], s[end..], delims);
  }

  lemma NoMoreRuns(s: string, delims: string, from: nat)
    requires from <= |s| && OnlyFrom(s[from..], delims)
    ensures Runs(s[from..], delims) == []
  {
    assert s[from..] + "" == s[from..];
    SpanOf(s[from..], "", delims, true);
  }

  /** A delimiter at the front makes no difference. */
  lemma SkipDelimiter(s: string, delims: string)
    requires s != "" && s[0] in delims
    ensures Runs(s, delims) == Runs(s[1..], delims)
  {
    var n := Span(s[1..], delims, true);
    assert s[1 + n..] == s[1..][n..];
  }

  // ---- SplitString ----

  /** What is left to find from `begin` on, which may have moved past the end. */
  function RunsFrom(s: string, delims: string, begin: nat): seq<string> {
    if begin <= |s| then Runs(s[begin..], delims) else []
  }

  /** One round of the loop: the token found, and a search position behind the delimiter after it. */
  lemma SplitStep(s: string, delims: string, from: nat, begin: nat, end: nat)
    requires from <= begin < end <= |s|
    requires OnlyFrom(s[from..begin], delims) && FreeOf(s[begin..end], delims)
    requires end == |s| || s[end] in delims
    ensures RunsFrom(s, delims, from) == [s[begin..end]] + RunsFrom(s, delims, end + 1)
  {
    NextRun(s, delims, from, begin, end);
    if end < |s| {
      SkipDelimiter(s[end..], delims);
      assert s[end..][1..] == s[end + 1..];
    }
  }

  lemma OnlyNothing(s: string, delims: string)
    ensures OnlyFrom(s[|s|..], delims)
  {}

  lemma RunsFromEnds(s: string, delims: string)
    ensures RunsFrom(s, delims, 0) == Runs(s, delims) && RunsFrom(s, delims, |s| + 1) == []
    ensures forall begin :: 0 <= begin <= |s| && OnlyFrom(s[begin..], delims) ==> RunsFrom(s, delims, begin) == []
  {
    assert s[0..] == s;
    forall begin | 0 <= begin <= |s| && OnlyFrom(s[begin..], delims) ensures RunsFrom(s, delims, begin) == [] {
      NoMoreRuns(s, delims, begin);
    }
  }

  method SplitString(s: string, delims: string) returns (tokens: seq<string>, count: nat)
    ensures tokens == Split(s, delims) && count == |tokens|
  {
    hide Runs, FindFirstNotOf, FindFirstOf, Span, OnlyFrom, FreeOf, RunsFrom;
    RunsFromEnds(s, delims);
    tokens := [];
    var begin := 0;
    var found := FindFirstNotOf(s, delims, begin);
    assert s[0..] == s;
    while found.At?
      invariant begin <= |s| + 1 && found == FindFirstNotOf(s, delims, begin)
      invariant delims != "" ==> tokens + RunsFrom(s, delims, begin) == Runs(s, delims)
      invariant delims == "" ==> tokens == []
      decreases |s| + 1 - begin
    {
      var from := begin;
      begin := found.index;
      var stop := FindFirstOf(s, delims, begin);
      var end := if stop.Npos? then |s| else stop.index;
      assert end > begin;
      if stop.Npos? {
        assert s[begin..end] == s[begin..];
      }
      SplitStep(s, delims, from, begin, end);
      tokens := tokens + [s[begin..end]];
      begin := end + 1;
      found := FindFirstNotOf(s, delims, begin);
    }
    assert begin <= |s| && delims != "" ==> OnlyFrom(s[begin..], delims) by {
      assert begin == |s| ==> OnlyFrom(s[begin..], delims) by {
        hide *;
        OnlyNothing(s, delims);
      }
    }
    count := |tokens|;
  }

  // ---- JoinString ----

  function Join(tokens: seq<string>, sep: string): string {
    if tokens == [] then "" else if |tokens| == 1 then tokens[0] else tokens[0] + sep + Join(tokens[1..], sep)
  }

  lemma {:induction false} JoinLast(tokens: seq<string>, sep: string, t: string)
    requires tokens != []
    ensures Join(tokens + [t], sep) == Join(tokens, sep) + sep + t
  {
    assert (tokens + [t])[1..] == tokens[1..] + [t];
    if |tokens| > 1 {
      JoinLast(tokens[1..], sep, t);
      assert tokens[0] + sep + (Join(tokens[1..], sep) + sep + t) == tokens[0] + sep + Join(tokens[1..], sep) + sep + t;
    }
  }

  function TotalLength(tokens: seq<string>): nat {
    if tokens == [] then 0 else |tokens[0]| + TotalLength(tokens[1..])
  }

  /** Nothing for no tokens; else all of them, with one separator fewer than tokens. */
  lemma {:induction false} JoinLength(tokens: seq<string>, sep: string)
    ensures tokens == [] ==> Join(tokens, sep) == ""
    ensures tokens != [] ==> |Join(tokens, sep)| == TotalLength(tokens) + (|tokens| - 1) * |sep|
  {
    if |tokens| == 1 {
      assert tokens[1..] == [];
    } else if tokens != [] {
      JoinLength(tokens[1..], sep);
      assert (|tokens| - 1) * |sep| == |sep| + (|tokens[1..]| - 1) * |sep|;
    }
  }

  method JoinString(tokens: seq<string>, sep: string) returns (s: string)
    ensures s == Join(tokens, sep)
  {
    if tokens == [] {
      return "";
    }
    s := tokens[0];
    for i := 1 to |tokens|
      invariant s == Join(tokens[..i], sep)
    {
      s := s + sep + tokens[i];
      JoinLast(tokens[..i], sep, tokens[i]);
      assert tokens[..i + 1] == tokens[..i] + [tokens[i]];
    }
    assert tokens[..|tokens|] == tokens;
  }

  function Separators(n: nat, sep: string): (g: seq<string>)
    ensures |g| == n
  {
    seq(n, _ => sep)
  }

  lemma {:induction false} JoinIsWeave(tokens: seq<string>, sep: string, first: string)
    requires tokens != []
    ensures first + Join(tokens, sep) == Weave([first] + Separators(|tokens| - 1, sep) + [""], tokens)
  {
    var gaps := [first] + Separators(|tokens| - 1, sep) + [""];
    if |tokens| == 1 {
      assert gaps == [first, ""];
      assert Weave([""], []) == "";
      assert Weave(gaps, tokens) == first + tokens[0] + Weave(gaps[1..], tokens[1..]);
    } else {
      JoinIsWeave(tokens[1..], sep, sep);
      assert gaps[1..] == [sep] + Separators(|tokens| - 2, sep) + [""];
    }
  }

  /** Splitting what was joined gives the tokens back. */
  lemma SplitOfJoin(tokens: seq<string>, sep: string, delims: string)
    requires sep != "" && OnlyFrom(sep, delims)
    requires forall i :: 0 <= i < |tokens| ==> tokens[i] != "" && FreeOf(tokens[i], delims)
    ensures Split(Join(tokens, sep), delims) == tokens
  {
    assert sep[0] in delims;
    if tokens != [] {
      JoinIsWeave(tokens, sep, "");
      assert "" + Join(tokens, sep) == Join(tokens, sep);
      CutIsUnique([""] + Separators(|tokens| - 1, sep) + [""], tokens, delims);
    }
  }

  /** Splitting, joining with a delimiter string and splitting again changes nothing. */
  lemma SplitIsStable(s: string, sep: string, delims: string)
    requires sep != "" && OnlyFrom(sep, delims)
    ensures Split(Join(Split(s, delims), sep), delims) == Split(s, delims)
  {
    RunsCut(s, delims);
    SplitOfJoin(Split(s, delims), sep, delims);
  }

  // ---- Tokenizer ----

  class TokenIterator {
    const data: string
    const delim: string
    var currentToken: string
    var offset: nat
    var offsetEnd: nat

    /** What a walk from here on will yield. */
    ghost function Pending(): seq<string>
      reads this
      requires offsetEnd <= |data|
    {
      if delim == "" then [] else Runs(data[offsetEnd..], delim)
    }

    /** Either at the end, or on a token that stops at a delimiter or at the end. */
    ghost predicate Valid()
      reads this
    {
      && offset <= offsetEnd <= |data|
      && if offset == |data| then currentToken == "" && offsetEnd == |data| else
           delim != "" && offset < offsetEnd && currentToken == data[offset..offsetEnd]
    }

    /** The token it is on and those that follow. */
    ghost function Remaining(): seq<string>
      reads this
      requires Valid()
    {
      if offset == |data| then [] else [currentToken] + Pending()
    }

    lemma Peek()
      requires Valid()
      ensures offset <= |data|
      ensures Remaining() == if offset == |data| then [] else [currentToken] + Pending()
    {}

    constructor (data: string, offset: nat, delim: string)
      requires offset <= |data|
      ensures Valid() && this.data == data && this.delim == delim
      ensures Remaining() == Split(data[offset..], delim) && this.offset >= offset
    {
      this.data := data;
      this.delim := delim;
      this.offset := offset;
      this.offsetEnd := offset;
      this.currentToken := "";
      new;
      SeekNextToken();
    }

    method SeekNextToken()
      requires offsetEnd <= |data|
      modifies this
      ensures Valid() && Remaining() == old(Pending())
      ensures offset >= old(offsetEnd)
    {
      var from := offsetEnd;
      if from >= |data| {
        currentToken := "";
        offset := |data|;
        offsetEnd := |data|;
        assert data[from..] == "";
        return;
      }
      var begin := FindFirstNotOf(data, delim, from);
      if begin.Npos? {
        currentToken := "";
        offset := |data|;
        offsetEnd := |data|;
        if delim != "" {
          NoMoreRuns(data, delim, from);
        }
        return;
      }
      offset := begin.index;
      var stop := FindFirstOf(data, delim, offset);
      var end := if stop.Npos? then |data| else stop.index;
      if stop.Npos? {
        assert data[offset..end] == data[offset..];
      }
      currentToken := data[offset..end];
      offsetEnd := end;
      NextRun(data, delim, from, offset, end);
    }

    /** operator++. */
    method Advance()
      requires Valid() && offset < |data|
      modifies this
      ensures Valid() && Remaining() == old(Remaining())[1..]
      ensures offset > old(offset)
    {
      SeekNextToken();
    }
  }

  /** A walk from begin() to end() terminates and meets exactly the tokens of SplitString. */
  method Walk(data: string, delim: string) returns (tokens: seq<string>)
    ensures tokens == Split(data, delim)
  {
    hide Runs, Span, Split, TokenIterator.Valid, TokenIterator.Pending, TokenIterator.Remaining;
    tokens := [];
    var it := new TokenIterator(data, 0, delim);
    var end := new TokenIterator(data, |data|, delim);
    assert data[0..] == data;
    while it.offset != end.offset
      invariant fresh(it) && it.Valid() && it.data == data && it.delim == delim && it != end
      invariant end.offset == |data|
      invariant tokens + it.Remaining() == Split(data, delim)
      decreases |data| - it.offset
    {
      it.Peek();
      tokens := tokens + [it.currentToken];
      it.Advance();
      it.Peek();
    }
    it.Peek();
  }
}
