/** Quoting arguments, kbase/command_line.cpp, against the rules by which CommandLineToArgvW cuts
    a command line behind the program into arguments. */
module CommandLine {
  import opened Sequences
  import Tokens

  // ---- The rules of the parser ----

  predicate Separator(c: char) {
    c == ' ' || c == '\t'
  }

  function Backslashes(n: nat): (s: string)
    ensures |s| == n
    ensures forall i :: 0 <= i < n ==> s[i] == '\\'
  {
    if n == 0 then "" else "\\" + Backslashes(n - 1)
  }

  /** The number of backslashes at the front. */
  function Leading(s: string): (n: nat)
    ensures n <= |s| && s[..n] == Backslashes(n)
    ensures n < |s| ==> s[n] != '\\'
  {
    if s == "" || s[0] != '\\' then 0 else
    var n := Leading(s[1..]);
    assert s[..n + 1] == "\\" + s[1..][..n];
    n + 1
  }

  datatype Scanned = Scanned(arg: string, rest: string)

  function Before(front: string, scanned: Scanned): Scanned {
    Scanned(front + scanned.arg, scanned.rest)
  }

  /** One argument, inside or outside quotes: 2n backslashes and a quote are n backslashes and a change of
      mode, one backslash more makes the quote part of the argument, other backslashes are themselves. */
  function Scan(s: string, quoted: bool): (r: Scanned)
    ensures |r.rest| <= |s|
    ensures s != "" && (quoted || !Separator(s[0])) ==> |r.rest| < |s|
    decreases |s|
  {
    var n := Leading(s);
    var t := s[n..];
    if t == "" then Scanned(s, "")
    else if t[0] == '"' then
      if n % 2 == 0 then Before(Backslashes(n / 2), Scan(t[1..], !quoted))
      else Before(Backslashes(n / 2) + "\"", Scan(t[1..], quoted))
    else if n > 0 then Before(Backslashes(n), Scan(t, quoted))
    else if !quoted && Separator(s[0]) then Scanned("", s)
    else Before([s[0]], Scan(s[1..], quoted))
  }

  function Skip(s: string): (r: string)
    ensures |r| <= |s| && (r == "" || !Separator(r[0]))
  {
    if s == "" || !Separator(s[0]) then s else Skip(s[1..])
  }

  function Parse(s: string): seq<string>
    decreases |s|
  {
    var t := Skip(s);
    if t == "" then [] else
    var scanned := Scan(t, false);
    [scanned.arg] + Parse(scanned.rest)
  }

  // ---- Quoting ----

  predicate Plain(arg: string) {
    forall i :: 0 <= i < |arg| ==> !Separator(arg[i]) && arg[i] != '"'
  }

  function Escaped(arg: string): string
    decreases |arg|
  {
    var n := Leading(arg);
    var t := arg[n..];
    if t == "" then Backslashes(2 * n)
    else if t[0] == '"' then Backslashes(2 * n + 1) + "\"" + Escaped(t[1..])
    else Backslashes(n) + [t[0]] + Escaped(t[1..])
  }

  function Quote(arg: string): string {
    if Plain(arg) then arg else "\"" + Escaped(arg) + "\""
  }

  function QuoteAll(args: seq<string>): (r: seq<string>)
    ensures |r| == |args|
    ensures forall i :: 0 <= i < |args| ==> r[i] == Quote(args[i])
  {
    if args == [] then [] else [Quote(args[0])] + QuoteAll(args[1..])
  }

  function NonEmpty(args: seq<string>): (r: seq<string>)
    ensures |r| <= |args|
    ensures r == args <==> forall i :: 0 <= i < |args| ==> args[i] != ""
  {
    if args == [] then []
    else if args[0] == "" then NonEmpty(args[1..])
    else
      var r := NonEmpty(args[1..]);
      assert ([args[0]] + r)[1..] == r;
      [args[0]] + r
  }

  // ---- A printed line is parsed into the arguments again ----

  predicate Ends(tail: string) {
    tail == "" || Separator(tail[0])
  }

  lemma {:induction false} LeadingOf(n: nat, tail: string)
    requires tail == "" || tail[0] != '\\'
    ensures Leading(Backslashes(n) + tail) == n && (Backslashes(n) + tail)[n..] == tail
  {
    var s := Backslashes(n) + tail;
    if n == 0 {
      assert s == tail;
    } else {
      LeadingOf(n - 1, tail);
      assert s[1..] == Backslashes(n - 1) + tail;
    }
  }

  lemma ScanEnd(tail: string)
    requires Ends(tail)
    ensures Scan(tail, false) == Scanned("", tail)
  {}

  /** What the scanner makes of backslashes before a quote. */
  lemma ScanQuote(n: nat, tail: string, quoted: bool)
    ensures Scan(Backslashes(n) + "\"" + tail, quoted) ==
            if n % 2 == 0 then Before(Backslashes(n / 2), Scan(tail, !quoted))
            else Before(Backslashes(n / 2) + "\"", Scan(tail, quoted))
  {
    var t := "\"" + tail;
    LeadingOf(n, t);
    assert Backslashes(n) + "\"" + tail == Backslashes(n) + t;
    assert t[1..] == tail;
    hide Leading, Backslashes, Before;
  }

  lemma ScanOne(c: char, tail: string, quoted: bool)
    requires c != '"' && c != '\\' && (quoted || !Separator(c))
    ensures Scan([c] + tail, quoted) == Before([c], Scan(tail, quoted))
  {
    assert ([c] + tail)[1..] == tail;
    assert Leading([c] + tail) == 0;
    assert ([c] + tail)[0..] == [c] + tail;
    hide Leading, Backslashes, Before;
  }

  lemma ScanRun(n: nat, t: string, quoted: bool)
    requires n > 0 && t != "" && t[0] != '"' && t[0] != '\\'
    ensures Scan(Backslashes(n) + t, quoted) == Before(Backslashes(n), Scan(t, quoted))
  {
    LeadingOf(n, t);
    hide Leading, Backslashes, Before;
  }

  /** What the scanner makes of backslashes before any other character of an argument. */
  lemma ScanOther(n: nat, c: char, tail: string, quoted: bool)
    requires c != '"' && c != '\\' && (quoted || !Separator(c))
    ensures Scan(Backslashes(n) + [c] + tail, quoted) == Before(Backslashes(n) + [c], Scan(tail, quoted))
  {
    hide Scan, Backslashes;
    ScanOne(c, tail, quoted);
    Associate(Backslashes(n), [c], tail);
    Associate(Backslashes(n), [c], Scan(tail, quoted).arg);
    if n > 0 {
      ScanRun(n, [c] + tail, quoted);
    } else {
      NoBackslashes();
      assert "" + [c] == [c] && "" + ([c] + tail) == [c] + tail;
    }
  }

  lemma AllBackslashes(n: nat, tail: string)
    requires Ends(tail)
    ensures Scan(Backslashes(n) + tail, false) == Scanned(Backslashes(n), tail)
  {
    ScanEnd(tail);
    LeadingOf(n, tail);
    assert Backslashes(n) + "" == Backslashes(n);
    assert tail == "" ==> Backslashes(n) + tail == Backslashes(n);
    hide Leading, Backslashes;
    if n == 0 {
      assert Backslashes(n) + tail == tail;
    }
  }

  lemma Halves(n: nat)
    ensures 2 * n % 2 == 0 && 2 * n / 2 == n && (2 * n + 1) % 2 == 1 && (2 * n + 1) / 2 == n
  {}

  /** An argument is its leading backslashes and what follows them. */
  lemma Opening(arg: string) returns (n: nat, t: string)
    ensures n == Leading(arg) && t == arg[n..] && arg == Backslashes(n) + t
    ensures t != "" ==> t[0] != '\\' && arg == Backslashes(n) + [t[0]] + t[1..]
    ensures t == "" ==> Escaped(arg) == Backslashes(2 * n)
    ensures t != "" ==> Escaped(arg) == (if t[0] == '"' then Backslashes(2 * n + 1) else Backslashes(n)) +
                                        [t[0]] + Escaped(t[1..])
  {
    n := Leading(arg);
    t := arg[n..];
    assert t != "" ==> t[0] == arg[n];
    hide Leading, Backslashes;
    assert arg == arg[..n] + t;
    assert t != "" ==> t == [t[0]] + t[1..];
    if t != "" {
      Associate(Backslashes(n), [t[0]], t[1..]);
    }
  }

  lemma PlainRest(arg: string, n: nat)
    requires Plain(arg) && n < |arg|
    ensures !Separator(arg[n]) && arg[n] != '"' && Plain(arg[n..][1..])
  {
    assert forall i :: 0 <= i < |arg| - n - 1 ==> arg[n..][1..][i] == arg[n + 1 + i];
  }

  /** The scanner undoes the escapes up to the closing quote. */
  lemma {:induction false} ScanEscaped(arg: string, tail: string)
    requires Ends(tail)
    ensures Scan(Escaped(arg) + "\"" + tail, true) == Scanned(arg, tail)
    decreases |arg|
  {
    hide Scan, Escaped, Backslashes, Leading, Ends;
    var n, t := Opening(arg);
    Halves(n);
    if t == "" {
      ScanQuote(2 * n, tail, true);
      ScanEnd(tail);
      assert Backslashes(n) + "" == arg;
    } else {
      ScanEscaped(t[1..], tail);
      var rest := Escaped(t[1..]) + "\"" + tail;
      if t[0] == '"' {
        ScanQuote(2 * n + 1, rest, true);
        assert Escaped(arg) + "\"" + tail == Backslashes(2 * n + 1) + "\"" + rest;
      } else {
        ScanOther(n, t[0], rest, true);
        assert Escaped(arg) + "\"" + tail == Backslashes(n) + [t[0]] + rest;
      }
    }
  }

  lemma {:induction false} ScanPlain(arg: string, tail: string)
    requires Plain(arg) && Ends(tail)
    ensures Scan(arg + tail, false) == Scanned(arg, tail)
    decreases |arg|
  {
    hide Scan, Escaped, Backslashes, Plain, Leading, Separator, Ends;
    var n, t := Opening(arg);
    if t == "" {
      AllBackslashes(n, tail);
      assert arg == Backslashes(n);
    } else {
      PlainRest(arg, n);
      ScanPlain(t[1..], tail);
      ScanOther(n, t[0], t[1..] + tail, false);
      assert arg + tail == Backslashes(n) + [t[0]] + (t[1..] + tail);
    }
  }

  lemma ScanInQuotes(arg: string, tail: string)
    requires Ends(tail)
    ensures Scan("\"" + Escaped(arg) + "\"" + tail, false) == Scanned(arg, tail)
  {
    hide *;
    var body := Escaped(arg) + "\"" + tail;
    ScanEscaped(arg, tail);
    ScanQuote(0, body, false);
    Halves(0);
    NoBackslashes();
    BeforeNothing(Scan(body, true));
    assert "\"" + Escaped(arg) + "\"" + tail == "" + "\"" + body;
  }

  lemma ScanQuoted(arg: string, tail: string)
    requires Ends(tail)
    ensures Scan(Quote(arg) + tail, false) == Scanned(arg, tail)
  {
    hide Plain, Scan, Escaped, Ends;
    if Plain(arg) {
      ScanPlain(arg, tail);
    } else {
      ScanInQuotes(arg, tail);
    }
  }

  lemma BeforeNothing(r: Scanned)
    ensures Before("", r) == r
  {
    assert "" + r.arg == r.arg;
  }

  lemma QuoteStarts(arg: string)
    ensures Quote(arg) == "" <==> arg == ""
    ensures arg != "" ==> !Separator(Quote(arg)[0])
  {}

  lemma ParseSeparator(s: string)
    ensures Parse(" " + s) == Parse(s)
  {
    assert (" " + s)[1..] == s;
  }

  /** An argument in front of a text that ends it. */
  lemma ParseQuoted(arg: string, tail: string)
    requires Ends(tail)
    ensures Parse(Quote(arg) + tail) == if arg == "" then Parse(tail) else [arg] + Parse(tail)
  {
    QuoteStarts(arg);
    ScanQuoted(arg, tail);
    hide Scan, Quote;
    if arg == "" {
      assert Quote(arg) + tail == tail;
    } else {
      assert Skip(Quote(arg) + tail) == Quote(arg) + tail;
    }
  }

  /** Parsing a printed list gives back its non-empty arguments, and so the list exactly when none is empty. */
  lemma {:induction false} ParsePrinted(args: seq<string>)
    ensures Parse(Tokens.Join(QuoteAll(args), " ")) == NonEmpty(args)
    ensures Parse(Tokens.Join(QuoteAll(args), " ")) == args <==> forall i :: 0 <= i < |args| ==> args[i] != ""
  {
    if args != [] {
      var rest := QuoteAll(args[1..]);
      assert QuoteAll(args)[1..] == rest;
      ParsePrinted(args[1..]);
      var tail := if rest == [] then "" else " " + Tokens.Join(rest, " ");
      if rest != [] {
        ParseSeparator(Tokens.Join(rest, " "));
      }
      assert Tokens.Join(QuoteAll(args), " ") == Quote(args[0]) + tail;
      ParseQuoted(args[0], tail);
      hide Parse, Quote;
    }
  }

  /** The smallest list that does not come back. */
  lemma EmptyArgumentIsLost()
    ensures Tokens.Join(QuoteAll([""]), " ") == "" && Parse("") == [] != [""]
  {
    assert QuoteAll([""]) == [""];
  }

  // ---- The quoting loop ----

  lemma EscapedStep(arg: string, i: nat, n: nat)
    requires i <= |arg| && n == Leading(arg[i..]) && i + n < |arg|
    ensures Escaped(arg[i..]) ==
            (if arg[i + n] == '"' then Backslashes(2 * n + 1) else Backslashes(n)) + [arg[i + n]] +
            Escaped(arg[i + n + 1..])
  {
    var s := arg[i..];
    assert s[n..] == arg[i + n..] && s[n..][1..] == arg[i + n + 1..];
    hide Leading, Backslashes;
  }

  lemma LeadingStep(s: string, i: nat)
    requires i < |s|
    ensures Leading(s[i..]) == if s[i] == '\\' then 1 + Leading(s[i + 1..]) else 0
  {
    assert s[i..][1..] == s[i + 1..];
  }

  lemma WhatQuoteIs(arg: string)
    ensures Tokens.FindFirstOf(arg, " \t\"", 0).Npos? ==> Quote(arg) == arg
    ensures Tokens.FindFirstOf(arg, " \t\"", 0).At? ==> Quote(arg) == "\"" + Escaped(arg) + "\""
  {
    hide Escaped;
    var found := Tokens.FindFirstOf(arg, " \t\"", 0);
    if found.At? {
      assert arg[found.index] in " \t\"";
    } else {
      assert arg[0..] == arg;
      assert forall i :: 0 <= i < |arg| ==> arg[i] !in " \t\"";
    }
  }

  /** Only arguments with a space, a tab or a quote are put into quotes. */
  lemma PlainIsKept(arg: string)
    ensures Quote(arg) == arg <==> ' ' !in arg && '\t' !in arg && '"' !in arg
  {
    hide Escaped;
    if !Plain(arg) {
      QuotedIsLonger(arg);
    }
  }

  lemma QuotedIsLonger(arg: string)
    ensures "\"" + Escaped(arg) + "\"" != arg
  {
    EscapedIsLonger(arg);
    hide Escaped;
    assert |"\"" + Escaped(arg) + "\""| == |Escaped(arg)| + 2;
  }

  lemma {:induction false} EscapedIsLonger(arg: string)
    ensures |Escaped(arg)| >= |arg|
    decreases |arg|
  {
    var n := Leading(arg);
    var t := arg[n..];
    if t != "" {
      EscapedIsLonger(t[1..]);
    }
  }

  method QuoteArg(arg: string) returns (quoted: string)
    ensures quoted == Quote(arg)
  {
    hide *;
    WhatQuoteIs(arg);
    var found := Tokens.FindFirstOf(arg, " \t\"", 0);
    if found.Npos? {
      return arg;
    }
    quoted := "\"";
    var it := 0;
    assert arg[0..] == arg;
    while true
      invariant it <= |arg| && quoted + Escaped(arg[it..]) == "\"" + Escaped(arg)
      decreases |arg| - it
    {
      ghost var from := it;
      var count := 0;
      while it != |arg| && arg[it] == '\\'
        invariant from <= it <= |arg| && count == it - from
        invariant Leading(arg[from..]) == count + Leading(arg[it..])
      {
        LeadingStep(arg, it);
        it := it + 1;
        count := count + 1;
      }
      ghost var before := quoted;
      if it == |arg| {
        NoBackslashes();
        AllEscaped(arg[from..]);
        quoted := quoted + Backslashes(2 * count);
        break;
      }
      LeadingStep(arg, it);
      EscapedStep(arg, from, count);
      ghost var front := if arg[it] == '"' then Backslashes(2 * count + 1) else Backslashes(count);
      if arg[it] == '"' {
        quoted := quoted + Backslashes(2 * count + 1);
        quoted := quoted + [arg[it]];
      } else {
        quoted := quoted + Backslashes(count);
        quoted := quoted + [arg[it]];
      }
      Longer(before, front, [arg[it]], Escaped(arg[it + 1..]));
      it := it + 1;
    }
    quoted := quoted + "\"";
  }

  lemma Longer(x: string, y: string, z: string, rest: string)
    ensures x + (y + z + rest) == x + y + z + rest
  {}

  lemma NoBackslashes()
    ensures Leading("") == 0 && Backslashes(0) == ""
  {}

  lemma AllEscaped(s: string)
    requires Leading(s) == |s|
    ensures Escaped(s) == Backslashes(2 * |s|)
  {
    hide Leading, Backslashes;
  }

  // ---- Trimming the program ----

  function TrimBack(s: string): (t: string)
    ensures t == "" || !Separator(t[|t| - 1])
  {
    if s == "" || !Separator(s[|s| - 1]) then s else TrimBack(s[..|s| - 1])
  }

  /** The text without separators at either end. */
  function Trim(s: string): (t: string)
    ensures t == "" || !Separator(t[|t| - 1])
  {
    TrimBack(Skip(s))
  }

  predicate AllSeparators(s: string) {
    forall i :: 0 <= i < |s| ==> Separator(s[i])
  }

  /** It is the only way to cut separators off both ends. */
  lemma TrimIsTheMiddle(front: string, t: string, back: string)
    requires AllSeparators(front) && AllSeparators(back)
    requires t == "" || (!Separator(t[0]) && !Separator(t[|t| - 1]))
    ensures Trim(front + t + back) == t
  {
    SkipFront(front, t + back);
    Associate(front, t, back);
    if t == "" {
      assert t + back == back;
      SkipFront(back, "");
      assert back + "" == back;
    } else {
      assert (t + back)[0] == t[0];
      CutBack(t, back);
    }
  }

  lemma {:induction false} SkipFront(front: string, rest: string)
    requires AllSeparators(front)
    ensures Skip(front + rest) == Skip(rest)
  {
    if front == "" {
      assert front + rest == rest;
    } else {
      assert (front + rest)[1..] == front[1..] + rest;
      SkipFront(front[1..], rest);
    }
  }

  lemma {:induction false} CutBack(t: string, back: string)
    requires AllSeparators(back) && (t == "" || !Separator(t[|t| - 1]))
    ensures TrimBack(t + back) == t
    decreases |back|
  {
    if back == "" {
      assert t + back == t;
    } else {
      assert (t + back)[..|t + back| - 1] == t + back[..|back| - 1];
      CutBack(t, back[..|back| - 1]);
    }
  }

  function FindLastNotOf(s: string, chars: string): (r: Tokens.Position)
    ensures r.At? ==> r.index < |s| && s[r.index] !in chars && Tokens.OnlyFrom(s[r.index + 1..], chars)
    ensures r.Npos? ==> Tokens.OnlyFrom(s, chars)
  {
    if s == "" then Tokens.Npos
    else if s[|s| - 1] !in chars then Tokens.At(|s| - 1)
    else
      var front := s[..|s| - 1];
      var r := FindLastNotOf(front, chars);
      assert r.At? ==> s[r.index + 1..] == front[r.index + 1..] + [s[|s| - 1]];
      assert s == front + [s[|s| - 1]];
      r
  }

  lemma OnlySeparators(s: string)
    ensures Tokens.OnlyFrom(s, " \t") <==> AllSeparators(s)
  {}

  /** TrimString with both ends. */
  method TrimString(s: string) returns (t: string)
    ensures t == Trim(s)
  {
    var first := Tokens.FindFirstNotOf(s, " \t", 0);
    var last := FindLastNotOf(s, " \t");
    assert s[0..] == s;
    if s == "" || first.Npos? || last.Npos? {
      OnlySeparators(s);
      TrimIsTheMiddle(s, "", "");
      assert s + "" + "" == s;
      return "";
    }
    FirstIsNotBehind(s, " \t", last.index + 1, first.index);
    OnlySeparators(s[0..first.index]);
    OnlySeparators(s[last.index + 1..]);
    hide Tokens.OnlyFrom, AllSeparators, Trim;
    t := s[first.index..last.index + 1];
    TrimAt(s, first.index, last.index);
  }

  lemma FirstIsNotBehind(s: string, chars: string, from: nat, i: nat)
    requires from <= |s| && i < |s| && s[i] !in chars && Tokens.OnlyFrom(s[from..], chars)
    ensures i < from
  {
    assert forall k :: from <= k < |s| ==> s[from..][k - from] == s[k];
  }

  lemma TrimAt(s: string, first: nat, last: nat)
    requires first <= last < |s| && !Separator(s[first]) && !Separator(s[last])
    requires AllSeparators(s[0..first]) && AllSeparators(s[last + 1..])
    ensures Trim(s) == s[first..last + 1]
  {
    hide AllSeparators, Trim;
    var t := s[first..last + 1];
    assert s == s[0..first] + t + s[last + 1..];
    TrimIsTheMiddle(s[0..first], t, s[last + 1..]);
  }

  // ---- The command line ----

  class CommandLine {
    /** The program, the switches without their prefix, the parameters. */
    var args: seq<string>
    var argNotParamCount: nat
    var switchPrefix: string
    var switches: map<string, string>

    ghost predicate Valid()
      reads this
    {
      1 <= argNotParamCount <= |args|
    }

    ghost function SwitchArgs(): seq<string>
      reads this
      requires Valid()
    {
      args[1..argNotParamCount]
    }

    ghost function Parameters(): seq<string>
      reads this
      requires Valid()
    {
      args[argNotParamCount..]
    }

    constructor (program: string)
      ensures Valid() && args[0] == Trim(program) && SwitchArgs() == [] && Parameters() == []
      ensures switchPrefix == "--" && switches == map[]
    {
      args := [""];
      argNotParamCount := 1;
      switchPrefix := "--";
      switches := map[];
      new;
      SetProgram(program);
    }

    method SetProgram(program: string)
      requires Valid()
      modifies `args
      ensures Valid() && args[0] == Trim(program)
      ensures SwitchArgs() == old(SwitchArgs()) && Parameters() == old(Parameters())
    {
      var trimmed := TrimString(program);
      args := args[0 := trimmed];
    }

    method AppendSwitch(name: string, value: string)
      requires Valid()
      modifies this
      ensures Valid() && args[0] == old(args[0]) && Parameters() == old(Parameters())
      ensures SwitchArgs() == old(SwitchArgs()) + [if value == "" then name else name + "=" + value]
      ensures switches == old(switches)[name := value] && switchPrefix == old(switchPrefix)
    {
      switches := switches[name := value];
      var switchArg := name;
      if value != "" {
        switchArg := switchArg + "=" + value;
      }
      args := args[..argNotParamCount] + [switchArg] + args[argNotParamCount..];
      argNotParamCount := argNotParamCount + 1;
    }

    method AppendParameter(param: string)
      requires Valid()
      modifies `args
      ensures Valid() && args[0] == old(args[0]) && SwitchArgs() == old(SwitchArgs())
      ensures Parameters() == old(Parameters()) + [param]
    {
      args := args + [param];
    }

    /** The line behind the program: parsed again, every switch with the prefix and every parameter in order,
        but for empty ones. */
    method GetCommandLineStringWithoutProgram() returns (line: string)
      requires Valid()
      ensures Parse(line) == NonEmpty(Prefixed(switchPrefix, SwitchArgs()) + Parameters())
      ensures switchPrefix != "" && "" !in Parameters() ==>
                Parse(line) == Prefixed(switchPrefix, SwitchArgs()) + Parameters()
      ensures line == Tokens.Join(QuoteAll(Prefixed(switchPrefix, SwitchArgs()) + Parameters()), " ")
      ensures SwitchArgs() == [] && Parameters() == [] ==> line == ""
    {
      hide Quote, Parse, NonEmpty, QuoteAll, Tokens.Join;
      QuoteNothing();
      var stringified: seq<string> := [];
      ghost var done: seq<string> := [];
      ghost var all := Prefixed(switchPrefix, SwitchArgs()) + Parameters();
      for i := 1 to |args|
        invariant done == all[..i - 1] && stringified == QuoteAll(done)
      {
        var arg := (if i + 1 <= argNotParamCount then switchPrefix else "") + args[i];
        var quoted := QuoteArg(arg);
        assert arg == all[i - 1];
        QuoteLast(done, arg);
        stringified := stringified + [quoted];
        done := done + [arg];
      }
      assert done == all;
      line := Tokens.JoinString(stringified, " ");
      NothingJoined();
      ParsePrinted(all);
    }
  }

  lemma NothingJoined()
    ensures Tokens.Join([], " ") == ""
  {}

  lemma QuoteNothing()
    ensures QuoteAll([]) == []
  {}

  lemma QuoteLast(args: seq<string>, arg: string)
    ensures QuoteAll(args + [arg]) == QuoteAll(args) + [Quote(arg)]
  {
    hide Quote;
  }

  function Prefixed(prefix: string, names: seq<string>): (r: seq<string>)
    ensures |r| == |names|
    ensures forall i :: 0 <= i < |names| ==> r[i] == prefix + names[i]
  {
    if names == [] then [] else [prefix + names[0]] + Prefixed(prefix, names[1..])
  }
}
