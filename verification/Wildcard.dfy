/** The wildcard matcher of kbase/string_util.cpp. Texts and patterns end where the source's
    terminating NUL stands, so neither contains one. */
module Wildcard {

  /** One pattern character that is not a star against one character of text. */
  predicate Fits(c: char, q: char) {
    if q == '?' then c != '.' else c == q
  }

  /** The matching relation: a star stands for any run, every other character for exactly one. */
  predicate Matches(s: string, p: string)
    decreases |p|, |s|
  {
    if p == "" then s == ""
    else if p[0] == '*' then Matches(s, p[1..]) || (s != "" && Matches(s[1..], p))
    else s != "" && Fits(s[0], p[0]) && Matches(s[1..], p[1..])
  }

  /** `seg` has no star and fits the start of `s`, character by character. */
  predicate FitsPrefix(s: string, seg: string) {
    && |seg| <= |s|
    && forall i :: 0 <= i < |seg| ==> seg[i] != '*' && Fits(s[i], seg[i])
  }

  predicate StarFree(p: string) {
    forall i :: 0 <= i < |p| ==> p[i] != '*'
  }

  /** A star matches exactly the runs that leave a match for the rest of the pattern. */
  lemma {:induction false} StarIsAnyRun(s: string, p: string)
    ensures Matches(s, "*" + p) <==> exists k :: 0 <= k <= |s| && Matches(s[k..], p)
    decreases |s|
  {
    assert ("*" + p)[1..] == p;
    assert s[0..] == s;
    if s != "" {
      StarIsAnyRun(s[1..], p);
      forall k | 0 <= k <= |s[1..]| ensures s[1..][k..] == s[k + 1..] {}
      if k :| 1 <= k <= |s| && Matches(s[k..], p) {
        assert s[1..][k - 1..] == s[k..];
      }
    }
  }

  lemma StarSkips(s: string, p: string, k: nat)
    requires k <= |s| && Matches(s[k..], "*" + p)
    ensures Matches(s, "*" + p)
  {
    StarIsAnyRun(s[k..], p);
    var j :| 0 <= j <= |s[k..]| && Matches(s[k..][j..], p);
    assert s[k..][j..] == s[k + j..];
    StarIsAnyRun(s, p);
  }

  /** Two stars in a row are one. */
  lemma StarStar(s: string, p: string)
    ensures Matches(s, "*" + ("*" + p)) == Matches(s, "*" + p)
  {
    assert ("*" + ("*" + p))[1..] == "*" + p;
    if Matches(s, "*" + ("*" + p)) {
      StarIsAnyRun(s, "*" + p);
      var k :| 0 <= k <= |s| && Matches(s[k..], "*" + p);
      StarSkips(s, p, k);
    }
  }

  /** A star-free segment can only be matched where it stands. */
  lemma {:induction false} Peel(s: string, seg: string, rest: string)
    requires StarFree(seg)
    ensures Matches(s, seg + rest) <==> FitsPrefix(s, seg) && Matches(s[|seg|..], rest)
    decreases |seg|
  {
    if seg == "" {
      assert seg + rest == rest && s[0..] == s;
    } else {
      assert (seg + rest)[1..] == seg[1..] + rest;
      if s != "" {
        Peel(s[1..], seg[1..], rest);
        assert |seg| <= |s| ==> s[1..][|seg| - 1..] == s[|seg|..];
        assert FitsPrefix(s, seg) <==> Fits(s[0], seg[0]) && FitsPrefix(s[1..], seg[1..]) by {
          forall i | 0 <= i < |seg| ensures i == 0 || seg[i] == seg[1..][i - 1] {}
        }
      }
    }
  }

  /** Without stars the text has the pattern's length and, place by place, its characters; '?' is any but '.'. */
  lemma WithoutStars(s: string, p: string)
    requires forall i :: 0 <= i < |p| ==> p[i] != '*'
    ensures Matches(s, p) <==>
            |s| == |p| && forall i :: 0 <= i < |p| ==> if p[i] == '?' then s[i] != '.' else s[i] == p[i]
  {
    Peel(s, p, "");
    assert p + "" == p;
    assert |p| <= |s| ==> Matches(s[|p|..], "") == (|s| == |p|);
  }

  /** A star-free front matches the front of the text, and the rest the rest. */
  lemma FrontFirst(s: string, seg: string, rest: string)
    requires forall i :: 0 <= i < |seg| ==> seg[i] != '*'
    ensures Matches(s, seg + rest) <==> |seg| <= |s| && Matches(s[..|seg|], seg) && Matches(s[|seg|..], rest)
  {
    Peel(s, seg, rest);
    if |seg| <= |s| {
      WithoutStars(s[..|seg|], seg);
    }
  }

  /** The exchange argument: where a segment between two stars fits once, no later place does better,
      because the second star can absorb the difference. */
  lemma LeftmostSegment(s: string, seg: string, rest: string)
    requires FitsPrefix(s, seg)
    ensures Matches(s, "*" + (seg + ("*" + rest))) <==> Matches(s[|seg|..], "*" + rest)
  {
    var p := seg + ("*" + rest);
    StarIsAnyRun(s, p);
    if Matches(s, "*" + p) {
      var k :| 0 <= k <= |s| && Matches(s[k..], p);
      Peel(s[k..], seg, "*" + rest);
      assert s[k..][|seg|..] == s[|seg|..][k..];
      StarSkips(s[|seg|..], rest, k);
    }
    if Matches(s[|seg|..], "*" + rest) {
      Peel(s, seg, "*" + rest);
      assert s[0..] == s;
    }
  }

  function NonStars(p: string): nat {
    if p == "" then 0 else (if p[0] == '*' then 0 else 1) + NonStars(p[1..])
  }

  lemma {:induction false} TextIsLongEnough(s: string, p: string)
    requires Matches(s, p)
    ensures |s| >= NonStars(p)
    decreases |p|, |s|
  {
    if p != "" {
      if p[0] != '*' {
        TextIsLongEnough(s[1..], p[1..]);
      } else if Matches(s, p[1..]) {
        TextIsLongEnough(s, p[1..]);
      } else {
        TextIsLongEnough(s[1..], p);
      }
    }
  }

  lemma {:induction false} NonStarsOfSegment(seg: string, rest: string)
    requires StarFree(seg)
    ensures NonStars(seg + rest) == |seg| + NonStars(rest)
  {
    if seg == "" {
      assert seg + rest == rest;
    } else {
      assert (seg + rest)[1..] == seg[1..] + rest;
      NonStarsOfSegment(seg[1..], rest);
    }
  }

  lemma StarOnce(s: string, p: string)
    ensures Matches(s, "*" + p) <==> Matches(s, p) || (s != "" && Matches(s[1..], "*" + p))
  {
    assert ("*" + p)[1..] == p;
  }

  /** Stars at the end of a pattern also match the empty text. */
  lemma {:induction false} EmptyText(p: string, k: nat)
    requires k <= |p| && forall i :: 0 <= i < k ==> p[i] == '*'
    ensures Matches("", p) == Matches("", p[k..])
    decreases k
  {
    if k > 0 {
      assert p[1..][k - 1..] == p[k..];
      EmptyText(p[1..], k - 1);
    } else {
      assert p[0..] == p;
    }
  }

  lemma {:induction false} Stars(s: string, p: string, k: nat)
    requires k < |p| && forall i :: 0 <= i <= k ==> p[i] == '*'
    ensures Matches(s, p) == Matches(s, "*" + p[k + 1..])
    decreases k
  {
    assert p == "*" + p[1..];
    if k > 0 {
      assert p[1..][k..] == p[k + 1..];
      assert p[1..] == "*" + p[2..];
      StarStar(s, p[2..]);
      Stars(s, p[1..], k - 1);
    }
  }

  lemma TrailingStar(s: string)
    ensures Matches(s, "*" + "")
  {
    StarIsAnyRun(s, "");
    assert Matches(s[|s|..], "");
  }

  /** What the scan knows: the answer for the whole question is that for the part after `str` and `pat`,
      where a star seen before lets the text start anywhere. */
  predicate Remains(text: string, pattern: string, onStar: bool, str: nat, pat: nat) {
    && str <= |text| && pat <= |pattern|
    && if onStar then
         && pat < |pattern| && pattern[pat] != '*'
         && Matches(text, pattern) == Matches(text[str..], "*" + pattern[pat..])
       else str == 0 && pat == 0
  }

  /** From `str` and `pat` the scan has matched one character each up to `s` and `p`. */
  predicate Scanned(text: string, pattern: string, str: nat, pat: nat, s: nat, p: nat) {
    && str <= s <= |text| && pat <= p <= |pattern| && s - str == p - pat
    && FitsPrefix(text[str..], pattern[pat..p])
  }

  lemma ScanOn(text: string, pattern: string, str: nat, pat: nat, s: nat, p: nat)
    requires Scanned(text, pattern, str, pat, s, p)
    requires s < |text| && p < |pattern| && pattern[p] != '*' && Fits(text[s], pattern[p])
    ensures Scanned(text, pattern, str, pat, s + 1, p + 1)
  {
    assert pattern[pat..p + 1] == pattern[pat..p] + [pattern[p]];
  }

  /** The scanned segment can be dropped from both sides. */
  lemma Drop(text: string, pattern: string, str: nat, pat: nat, s: nat, p: nat)
    requires Scanned(text, pattern, str, pat, s, p)
    ensures Matches(text[str..], pattern[pat..]) == Matches(text[s..], pattern[p..])
  {
    Peel(text[str..], pattern[pat..p], pattern[p..]);
    assert pattern[pat..] == pattern[pat..p] + pattern[p..];
    assert text[str..][s - str..] == text[s..];
  }

  /** A character that does not fit: only the last star can still help, one place further right. */
  lemma Mismatch(text: string, pattern: string, onStar: bool, str: nat, pat: nat, s: nat, p: nat)
    requires Remains(text, pattern, onStar, str, pat) && Scanned(text, pattern, str, pat, s, p)
    requires s < |text|
    requires p == |pattern| || (pattern[p] != '*' && !Fits(text[s], pattern[p]))
    ensures if onStar then Remains(text, pattern, true, str + 1, pat) else !Matches(text, pattern)
  {
    Drop(text, pattern, str, pat, s, p);
    assert !Matches(text[str..], pattern[pat..]);
    StarOnce(text[str..], pattern[pat..]);
    assert text[str..][1..] == text[str + 1..];
    assert !onStar ==> text[0..] == text && pattern[0..] == pattern;
  }

  /** A star: whatever came before it need not be looked at again. */
  lemma NewStar(text: string, pattern: string, onStar: bool, str: nat, pat: nat, s: nat, p: nat, next: nat)
    requires Remains(text, pattern, onStar, str, pat) && Scanned(text, pattern, str, pat, s, p)
    requires p < next <= |pattern| && forall i :: p <= i < next ==> pattern[i] == '*'
    ensures Matches(text, pattern) == Matches(text[s..], "*" + pattern[next..])
  {
    var rest := pattern[p + 1..];
    StarsFrom(text[s..], pattern, p, next);
    hide Matches, FitsPrefix;
    if onStar {
      var seg := pattern[pat..p];
      FitsSegment(text, pattern, str, pat, s, p);
      assert pattern[pat..] == seg + ("*" + rest);
      LeftmostSegment(text[str..], seg, rest);
      assert text[str..][|seg|..] == text[s..];
    } else {
      Drop(text, pattern, str, pat, s, p);
      assert text[0..] == text && pattern[0..] == pattern;
    }
  }

  lemma FitsSegment(text: string, pattern: string, str: nat, pat: nat, s: nat, p: nat)
    requires Scanned(text, pattern, str, pat, s, p)
    ensures FitsPrefix(text[str..], pattern[pat..p])
  {}

  /** Several stars in a row are one. */
  lemma StarsFrom(s: string, pattern: string, p: nat, next: nat)
    requires p < next <= |pattern| && forall i :: p <= i < next ==> pattern[i] == '*'
    ensures pattern[p..] == "*" + pattern[p + 1..]
    ensures Matches(s, "*" + pattern[p + 1..]) == Matches(s, "*" + pattern[next..])
    ensures Matches(s, pattern[p..]) == Matches(s, "*" + pattern[next..])
  {
    hide Matches;
    assert pattern[p..] == "*" + pattern[p + 1..];
    assert forall i :: 0 <= i < next - p ==> pattern[p..][i] == pattern[p + i];
    Stars(s, pattern[p..], next - p - 1);
    assert pattern[p..][next - p..] == pattern[next..];
  }

  /** The text is used up: what is left of the pattern must be stars. */
  lemma EndOfText(text: string, pattern: string, onStar: bool, str: nat, pat: nat, p: nat, next: nat)
    requires Remains(text, pattern, onStar, str, pat) && Scanned(text, pattern, str, pat, |text|, p)
    requires p <= next <= |pattern| && forall i :: p <= i < next ==> pattern[i] == '*'
    requires next == |pattern| || pattern[next] != '*'
    ensures Matches(text, pattern) <==> next == |pattern|
  {
    NoTextLeft(text, pattern, str, pat, p, next);
    if !onStar {
      assert text[0..] == text && pattern[0..] == pattern;
    } else if next < |pattern| {
      assert pattern[pat..][..p - pat] == pattern[pat..p];
      ShortText(text[str..], pattern[pat..], p - pat, next - pat);
    } else {
      StarOnce(text[str..], pattern[pat..]);
    }
  }

  lemma NoTextLeft(text: string, pattern: string, str: nat, pat: nat, p: nat, next: nat)
    requires Scanned(text, pattern, str, pat, |text|, p)
    requires p <= next <= |pattern| && forall i :: p <= i < next ==> pattern[i] == '*'
    requires next == |pattern| || pattern[next] != '*'
    ensures Matches(text[str..], pattern[pat..]) <==> next == |pattern|
  {
    Drop(text, pattern, str, pat, |text|, p);
    EmptyText(pattern[p..], next - p);
    assert pattern[p..][next - p..] == pattern[next..];
    assert text[|text|..] == "";
  }

  lemma ShortText(s: string, p: string, n: nat, next: nat)
    requires n == |s| && n <= next < |p| && StarFree(p[..n]) && p[next] != '*'
    ensures !Matches(s, "*" + p)
  {
    hide Matches, NonStars;
    assert p == p[..n] + p[n..];
    NonStarsOfSegment(p[..n], p[n..]);
    assert p[n..][next - n] == p[next];
    SomeNonStar(p[n..], next - n);
    StarIsAnyRun(s, p);
    forall k | 0 <= k <= |s| ensures !Matches(s[k..], p) {
      if Matches(s[k..], p) {
        TextIsLongEnough(s[k..], p);
      }
    }
  }

  lemma {:induction false} SomeNonStar(p: string, i: nat)
    requires i < |p| && p[i] != '*'
    ensures NonStars(p) > 0
  {
    if i > 0 {
      SomeNonStar(p[1..], i - 1);
    }
  }

  lemma NothingScanned(text: string, pattern: string, str: nat, pat: nat)
    requires str <= |text| && pat <= |pattern|
    ensures Scanned(text, pattern, str, pat, str, pat)
  {}

  /** The goto-based matcher: LoopStart is the outer loop, StarCheck its end. */
  method MatchPattern(text: string, pattern: string) returns (matched: bool)
    ensures matched <==> Matches(text, pattern)
  {
    hide Matches, FitsPrefix;
    assert text[0..] == text;
    var onStar, str, pat := false, 0, 0;
    while true
      invariant Remains(text, pattern, onStar, str, pat)
      decreases |pattern| - pat, |text| - str
    {
      var s, p := str, pat;
      NothingScanned(text, pattern, str, pat);
      var restart, mismatch := false, false;
      ghost var before, from, first := onStar, str, pat;
      while s < |text| && !restart && !mismatch
        invariant !restart ==> onStar == before && str == from && pat == first
        invariant !restart ==> Remains(text, pattern, onStar, str, pat) && Scanned(text, pattern, str, pat, s, p)
        invariant restart ==> !mismatch && onStar && Remains(text, pattern, onStar, str, pat) && pat > first
        invariant mismatch ==> s < |text| && p <= |pattern|
        invariant mismatch ==> p == |pattern| || (pattern[p] != '*' && !Fits(text[s], pattern[p]))
        decreases |text| - s, !restart, !mismatch
      {
        if p < |pattern| && pattern[p] == '?' {
          mismatch := text[s] == '.';
        } else if p < |pattern| && pattern[p] == '*' {
          var next := p + 1;
          while next < |pattern| && pattern[next] == '*'
            invariant p < next <= |pattern| && forall i :: p <= i < next ==> pattern[i] == '*'
          {
            next := next + 1;
          }
          NewStar(text, pattern, onStar, str, pat, s, p, next);
          onStar, str, pat := true, s, next;
          if pat == |pattern| {
            TrailingStar(text[s..]);
            assert pattern[next..] == "";
            return true;
          }
          restart := true;
        } else {
          mismatch := p == |pattern| || text[s] != pattern[p];
        }
        if !restart && !mismatch {
          ScanOn(text, pattern, str, pat, s, p);
          s, p := s + 1, p + 1;
        }
      }

      if !restart && !mismatch {
        var q := p;
        while q < |pattern| && pattern[q] == '*'
          invariant p <= q <= |pattern| && forall i :: p <= i < q ==> pattern[i] == '*'
        {
          q := q + 1;
        }
        EndOfText(text, pattern, onStar, str, pat, p, q);
        return q == |pattern|;
      }

      if mismatch {
        Mismatch(text, pattern, onStar, str, pat, s, p);
        if !onStar {
          return false;
        }
        str := str + 1;
      }
    }
  }
}
