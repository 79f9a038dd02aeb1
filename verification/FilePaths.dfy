/** What a path string names to POSIX, and when Path::AppendWith of kbase/path.cpp makes the string of an entry.
    To KBase a backslash is a separator as well, to POSIX it is a character of a name. */
module FilePaths {
  import opened Sequences
  import opened FileTree
  import Tokens
  import Strings = Path

  // ---- What a string names ----

  function Undotted(names: seq<string>): seq<string> {
    if names == [] then []
    else (if names[0] == "." then [] else [names[0]]) + Undotted(names[1..])
  }

  /** The node a string names: the names between its slashes, without ".". The root of the tree is the current directory
      as well. The empty string names nothing: no node has an empty name. */
  function Denoted(s: string): FileTree.Path {
    if s == "" then [""] else Undotted(Tokens.Runs(s, "/"))
  }

  lemma {:induction false} UndottedConcat(x: seq<string>, y: seq<string>)
    ensures Undotted(x + y) == Undotted(x) + Undotted(y)
  {
    if x == [] {
      assert x + y == y;
    } else {
      assert (x + y)[1..] == x[1..] + y;
      UndottedConcat(x[1..], y);
    }
  }

  predicate Slashes(s: string) {
    Tokens.OnlyFrom(s, "/")
  }

  /** Strings that meet at a slash. */
  predicate Meet(x: string, y: string) {
    x == "" || y == "" || x[|x| - 1] == '/' || y[0] == '/'
  }

  lemma {:induction false} GapInFront(gap: string, s: string)
    requires Slashes(gap)
    ensures Tokens.Runs(gap + s, "/") == Tokens.Runs(s, "/")
    decreases |gap|
  {
    if gap == "" {
      assert gap + s == s;
    } else {
      assert (gap + s)[1..] == gap[1..] + s && (gap + s)[0] == gap[0];
      Tokens.SkipDelimiter(gap + s, "/");
      GapInFront(gap[1..], s);
    }
  }

  /** What follows the first run of x still meets y at a slash. */
  lemma RestMeets(x: string, y: string, gap: string, run: string, rest: string)
    requires Meet(x, y) && x == gap + run + rest && run != "" && Tokens.FreeOf(run, "/")
    requires rest != "" ==> rest[0] in "/"
    ensures Meet(rest, y) && x + y == gap + run + (rest + y) && (rest + y != "" ==> (rest + y)[0] in "/")
  {
    assert run[|run| - 1] !in "/";
    if rest == "" {
      assert rest + y == y;
      assert x[|x| - 1] == run[|run| - 1];
    } else {
      assert x[|x| - 1] == rest[|rest| - 1];
      assert (rest + y)[0] == rest[0];
    }
  }

  /** Their runs are those of the one and those of the other. */
  lemma {:induction false} RunsMeet(x: string, y: string)
    requires Meet(x, y)
    ensures Tokens.Runs(x + y, "/") == Tokens.Runs(x, "/") + Tokens.Runs(y, "/")
    decreases |x|
  {
    if Slashes(x) {
      Tokens.NoRun(x, "/");
      GapInFront(x, y);
      assert [] + Tokens.Runs(y, "/") == Tokens.Runs(y, "/");
    } else {
      var gap, run, rest := Tokens.FirstRun(x, "/");
      hide *;
      RestMeets(x, y, gap, run, rest);
      RunsMeet(rest, y);
      Tokens.RunInFront(gap, run, rest + y, "/");
      Associate([run], Tokens.Runs(rest, "/"), Tokens.Runs(y, "/"));
    }
  }

  lemma RunOfName(n: string)
    requires n != "" && '/' !in n
    ensures Tokens.Runs(n, "/") == [n]
  {
    Tokens.NoRun("", "/");
    assert "" + n + "" == n;
    Tokens.RunInFront("", n, "", "/");
  }

  lemma DenotedMeet(x: string, y: string)
    requires x != "" && y != "" && Meet(x, y)
    ensures Denoted(x + y) == Denoted(x) + Denoted(y)
  {
    RunsMeet(x, y);
    UndottedConcat(Tokens.Runs(x, "/"), Tokens.Runs(y, "/"));
    hide Tokens.Runs, Undotted;
  }

  lemma DenotedName(n: string)
    requires PosixName(n)
    ensures Denoted(n) == [n]
  {
    RunOfName(n);
    OneName(n);
  }

  lemma OneName(n: string)
    ensures Undotted([n]) == if n == "." then [] else [n]
  {
    assert [n][1..] == [];
  }

  lemma DenotedCurrent()
    ensures Denoted(".") == []
  {
    RunOfName(".");
    OneName(".");
  }

  lemma DenotedSlashes(s: string)
    requires Slashes(s) && s != ""
    ensures Denoted(s) == []
  {
    Tokens.NoRun(s, "/");
  }

  // ---- When AppendWith makes the string of an entry ----

  /** The separators at the end, if any, are slashes to both, and there is no bare drive. */
  predicate JoinsWell(s: string) {
    var q := Strings.Stripped(s);
    && s != "" && !Strings.JustDrive(s)
    && Slashes(s[|q|..])
    && (q != "" ==> q[|q| - 1] != '\\')
  }

  lemma StrippedDenotes(s: string)
    requires JoinsWell(s)
    ensures Strings.Stripped(s) != "" && Denoted(Strings.Stripped(s)) == Denoted(s)
  {
    var q := Strings.Stripped(s);
    var tail := s[|q|..];
    assert s == q + tail;
    if tail != "" {
      assert tail[0] == '/';
      hide Denoted, Strings.Stripped;
      DenotedMeet(q, tail);
      DenotedSlashes(tail);
    } else {
      assert s == q;
    }
  }

  lemma BehindSlash(q: string, n: string)
    requires q != "" && q[|q| - 1] != '\\' && PosixName(n)
    ensures Denoted((if Strings.IsSeparator(q[|q| - 1]) then q else q + "/") + n) == Denoted(q) + [n]
  {
    hide Denoted;
    DenotedName(n);
    if Strings.IsSeparator(q[|q| - 1]) {
      DenotedMeet(q, n);
    } else {
      DenotedMeet(q, "/");
      DenotedSlashes("/");
      DenotedMeet(q + "/", n);
    }
  }

  lemma JoinedWell(s: string, n: string)
    requires JoinsWell(s) && PosixName(n)
    ensures Denoted(Strings.Appended(s, n)) == Denoted(s) + [n]
  {
    hide Denoted, Strings.Stripped, Strings.Appended, PosixName;
    if s == "." {
      DenotedName(n);
      DenotedCurrent();
      AppendedToCurrent(n);
    } else {
      NameEnds(n);
      Strings.AppendedIs(s, n);
      StrippedDenotes(s);
      BehindSlash(Strings.Stripped(s), n);
    }
  }

  lemma AppendedToCurrent(n: string)
    ensures Strings.Appended(".", n) == n && [] + [n] == [n]
  {}

  // ---- Otherwise it names something else ----

  /** The number of backslashes. */
  function Count(s: string): nat {
    if s == "" then 0 else (if s[0] == '\\' then 1 else 0) + Count(s[1..])
  }

  function CountAll(names: seq<string>): nat {
    if names == [] then 0 else Count(names[0]) + CountAll(names[1..])
  }

  lemma {:induction false} CountConcat(x: string, y: string)
    ensures Count(x + y) == Count(x) + Count(y)
  {
    if x == "" {
      assert x + y == y;
    } else {
      assert (x + y)[1..] == x[1..] + y;
      CountConcat(x[1..], y);
    }
  }

  lemma {:induction false} NoneInSlashes(s: string)
    requires Slashes(s)
    ensures Count(s) == 0
  {
    if s != "" {
      NoneInSlashes(s[1..]);
    }
  }

  /** None is lost when a string is taken apart. */
  lemma {:induction false} CountRuns(s: string)
    ensures CountAll(Undotted(Tokens.Runs(s, "/"))) == Count(s)
    decreases |s|
  {
    if Slashes(s) {
      Tokens.NoRun(s, "/");
      NoneInSlashes(s);
    } else {
      var gap, run, rest := Tokens.FirstRun(s, "/");
      NoneInSlashes(gap);
      CountConcat(gap, run);
      CountConcat(gap + run, rest);
      CountRuns(rest);
      hide Tokens.Runs, Tokens.Gaps, Slashes;
      UndottedFirst(run, Tokens.Runs(rest, "/"));
    }
  }

  lemma UndottedFirst(n: string, names: seq<string>)
    ensures CountAll(Undotted([n] + names)) == Count(n) + CountAll(Undotted(names))
  {
    var more := [n] + names;
    assert more[1..] == names;
    if n == "." {
      assert "."[1..] == "" && "."[0] != '\\';
      assert [] + Undotted(names) == Undotted(names);
    } else {
      assert ([n] + Undotted(names))[1..] == Undotted(names);
    }
  }

  lemma {:induction false} SomeAmongOthers(s: string)
    requires Strings.AllSeparators(s) && !Slashes(s)
    ensures Count(s) > 0
  {
    if s[0] == '/' {
      SomeAmongOthers(s[1..]);
    }
  }

  /** A backslash among the separators cut off is part of what the string names. */
  lemma TailIsLost(s: string)
    requires s != "" && !Slashes(s[|Strings.Stripped(s)|..])
    ensures Strings.Stripped(s) != "" && Denoted(Strings.Stripped(s)) != Denoted(s)
  {
    var q := Strings.Stripped(s);
    var tail := s[|q|..];
    assert s == q + tail;
    hide Strings.Stripped, Slashes;
    SomeAmongOthers(tail);
    CountConcat(q, tail);
    CountRuns(q);
    CountRuns(s);
  }

  /** Where what follows the last slash begins. */
  function AfterSlash(s: string): (k: nat)
    ensures k <= |s| && '/' !in s[k..] && (k > 0 ==> s[k - 1] == '/')
  {
    if s == "" || s[|s| - 1] == '/' then |s| else
    var front := s[..|s| - 1];
    var k := AfterSlash(front);
    assert s[k..] == front[k..] + [s[|s| - 1]];
    k
  }

  /** Without a slash between them the name is only the end of a longer one. */
  lemma LongerName(q: string, n: string, d: FileTree.Path)
    requires q != "" && q[|q| - 1] != '/' && PosixName(n)
    ensures Denoted(q + n) != d + [n]
  {
    var k := AfterSlash(q);
    var u, w := q[..k], q[k..] + n;
    assert q + n == u + w;
    assert |w| > 1 && w != n;
    RunsMeet(u, w);
    RunOfName(w);
    UndottedConcat(Tokens.Runs(u, "/"), [w]);
    OneName(w);
    Strings.LastEqual(Undotted(Tokens.Runs(u, "/")), w, d, n);
    hide Tokens.Runs, Undotted, AfterSlash;
  }

  /** On a bare drive the name makes a longer one as well. */
  lemma BehindDrive(s: string, n: string)
    requires Strings.JustDrive(s) && PosixName(n)
    ensures Denoted(Strings.Appended(s, n)) != Denoted(s) + [n]
  {
    assert Strings.Stripped(s) == s && s[1] == ':';
    assert Strings.Appended(s, n) == s + n;
    hide Strings.Stripped, Strings.Appended, Denoted;
    LongerName(s, n, Denoted(s));
  }

  /** The string that AppendWith makes names the entry, if and only if the one of the directory is not empty, ends in
      no backslash, before or after slashes, and is not a bare drive. */
  lemma JoinStep(s: string, n: string)
    requires PosixName(n)
    ensures Denoted(Strings.Appended(s, n)) == Denoted(s) + [n] <==> JoinsWell(s)
  {
    if s == "" {
      NothingJoins(n);
    } else if JoinsWell(s) {
      JoinedWell(s, n);
    } else if Strings.JustDrive(s) {
      BehindDrive(s, n);
    } else {
      CurrentJoins();
      JoinedBadly(s, n);
    }
  }

  lemma NothingJoins(n: string)
    requires PosixName(n)
    ensures Denoted(Strings.Appended("", n)) != Denoted("") + [n] && !JoinsWell("")
  {
    assert Strings.Appended("", n) == n by {
      assert "" + n == n;
    }
    DenotedName(n);
    hide Tokens.Runs, Undotted, Strings.Appended;
  }

  lemma CurrentJoins()
    ensures JoinsWell(".")
  {}

  lemma JoinedBadly(s: string, n: string)
    requires s != "" && s != "." && PosixName(n) && !Strings.JustDrive(s) && !JoinsWell(s)
    ensures Denoted(Strings.Appended(s, n)) != Denoted(s) + [n]
  {
    hide Denoted, Strings.Stripped, Strings.Appended, PosixName;
    NameEnds(n);
    Strings.AppendedIs(s, n);
    var q := Strings.Stripped(s);
    if q[|q| - 1] == '\\' {
      LongerName(q, n, Denoted(s));
    } else {
      BehindSlash(q, n);
      TailIsLost(s);
      Strings.LastEqual(Denoted(q), n, Denoted(s), n);
    }
  }

  // ---- The strings of a walk ----

  /** What POSIX says of some strings: "." and what ends in it can be opened, not removed; a slash behind a name is
      for directories only. */
  lemma KnownStrings(n: string)
    requires PosixName(n)
    ensures Denoted(n) == [n] && Denoted(n + "/") == [n] && Denoted(n + "/.") == [n] && Denoted("/" + n) == [n]
    ensures Denoted("/") == [] && Denoted(".") == [] && Denoted("./" + n) == [n]
    ensures Bare(n) && Removable(n + "/") && !Bare(n + "/")
    ensures !Removable(n + "/.") && !Removable(".") && !Removable("/")
  {
    hide Denoted, Tokens.Runs;
    NameEnds(n);
    DenotedName(n);
    DenotedSlashes("/");
    DenotedCurrent();
    DenotedMeet(n, "/");
    DenotedMeet(n + "/", ".");
    DenotedMeet("/", n);
    DenotedMeet(".", "/");
    DenotedMeet("./", n);
    assert n + "/" + "." == n + "/." && "." + "/" == "./";
    EndsBare(n);
    KnownRuns(n);
  }

  lemma KnownRuns(n: string)
    requires PosixName(n)
    ensures Tokens.Runs(n + "/", "/") == [n] && Tokens.Runs(n + "/.", "/") == [n, "."]
    ensures Tokens.Runs(".", "/") == ["."] && Tokens.Runs("/", "/") == []
  {
    hide Tokens.Runs, Tokens.Gaps;
    RunOfName(n);
    RunOfName(".");
    Tokens.NoRun("/", "/");
    RunsMeet(n, "/");
    RunsMeet(n + "/", ".");
    assert n + "/" + "." == n + "/.";
  }

  /** Without "..". */
  predicate Direct(s: string) {
    ".." !in Denoted(s)
  }

  /** The last name is not ".", so rmdir accepts it. */
  predicate Removable(s: string) {
    var runs := Tokens.Runs(s, "/");
    runs != [] && runs[|runs| - 1] != "."
  }

  /** It may name a file. */
  predicate Bare(s: string) {
    s != "" && s[|s| - 1] != '/' && Removable(s)
  }

  lemma EndsInName(u: string, n: string)
    requires PosixName(n) && Meet(u, n)
    ensures Bare(u + n)
  {
    hide *;
    NameEnds(n);
    RunsMeet(u, n);
    RunOfName(n);
    LastRun(u + n, Tokens.Runs(u, "/"), n);
  }

  lemma NameEnds(n: string)
    requires PosixName(n)
    ensures n != "" && n[|n| - 1] != '/' && n != "." && '/' !in n
  {}

  lemma LastRun(s: string, runs: seq<string>, n: string)
    requires Tokens.Runs(s, "/") == runs + [n] && n != "."
    requires |s| >= |n| > 0 && s[|s| - 1] == n[|n| - 1] != '/'
    ensures Bare(s)
  {
    hide Tokens.Runs;
    assert (runs + [n])[|runs|] == n;
  }

  lemma EndsBare(w: string)
    requires w != "" && '/' !in w && !Dot(w)
    ensures Bare(w)
  {
    assert "" + w == w;
    EndsInName("", w);
  }

  /** The string of an entry: it names the entry, goes on without "..", and ends in the name. */
  lemma EntryIs(s: string, n: string)
    requires JoinsWell(s) && PosixName(n)
    ensures var e := Strings.Appended(s, n);
            && Denoted(e) == Denoted(s) + [n] && Bare(e) && e != "." && n != ""
            && (Direct(s) ==> Direct(e)) && (JoinsWell(e) <==> Clean(s, n))
  {
    JoinedWell(s, n);
    NameAtEnd(s, n);
    NameEnds(n);
    hide Denoted, Bare, JoinsWell, Clean, Strings.Appended;
  }

  /** A name does not end in a backslash, and it is not all there is and a drive. */
  predicate Clean(s: string, n: string) {
    n != "" && n[|n| - 1] != '\\' && !(s == "." && Strings.JustDrive(n))
  }

  lemma EndsWell(e: string)
    requires e != "" && e[|e| - 1] != '/'
    ensures JoinsWell(e) <==> e[|e| - 1] != '\\' && !Strings.JustDrive(e)
  {
    var q := Strings.Stripped(e);
    if |q| < |e| {
      assert e[|q|..][|e| - |q| - 1] == e[|e| - 1];
      assert Strings.IsSeparator(e[|e| - 1]);
    } else {
      assert q == e && e[|q|..] == "";
    }
    hide Strings.Stripped;
  }

  /** An entry can be joined with further names if and only if its own name is clean. */
  lemma NameAtEnd(s: string, n: string)
    requires s != "" && PosixName(n)
    ensures var e := Strings.Appended(s, n);
            && e != "" && e != "." && (JoinsWell(e) <==> Clean(s, n))
            && (JoinsWell(s) ==> Bare(e))
  {
    hide Strings.Stripped, Strings.Appended, JoinsWell, Bare, Strings.HasDrive;
    NameEnds(n);
    var e := Strings.Appended(s, n);
    if s == "." {
      AppendedToCurrent(n);
      EndsBare(n);
      EndsWell(n);
    } else if Strings.JustDrive(s) {
      Strings.BehindDriveIs(s, n);
      DriveAtFront(s, n);
      EndsWell(e);
    } else {
      Strings.AppendedIs(s, n);
      FrontAndName(s, Strings.Stripped(s), n);
    }
  }

  lemma DriveAtFront(s: string, n: string)
    requires Strings.JustDrive(s) && PosixName(n)
    ensures !JoinsWell(s) && (s + n)[|s + n| - 1] == n[|n| - 1] != '/' && |s + n| > 2
  {
    hide Strings.Stripped;
  }

  lemma FrontAndName(s: string, q: string, n: string)
    requires q != "" && q == Strings.Stripped(s) && PosixName(n) && s != "."
    ensures var e := (if Strings.IsSeparator(q[|q| - 1]) then q else q + "/") + n;
            && e != "" && e != "." && (JoinsWell(e) <==> Clean(s, n)) && (JoinsWell(s) ==> Bare(e))
  {
    var front := if Strings.IsSeparator(q[|q| - 1]) then q else q + "/";
    var e := front + n;
    assert e[|e| - 1] == n[|n| - 1] && e[|front| - 1] == front[|front| - 1];
    assert JoinsWell(s) ==> front[|front| - 1] == '/';
    hide Bare, JoinsWell, Strings.Stripped;
    EndsWell(e);
    if Meet(front, n) {
      EndsInName(front, n);
    }
  }

  /** What a walk from s meets: everything inside the directory, or only its own entries. */
  ghost predicate Met(t: Tree, s: string, recursive: bool, p: FileTree.Path) {
    p in t && StrictlyAbove(Denoted(s), p) && (recursive || Parent(p) == Denoted(s))
  }

  /** The string that AppendWith makes for what is met, name by name. */
  function Shown(s: string, p: FileTree.Path): string
    requires Above(Denoted(s), p)
  {
    Strings.AppendedAll(s, p[|Denoted(s)|..])
  }

  /** AppendWith makes the strings of the entries of a directory of the walk. */
  predicate JoinsAt(s: string, d: FileTree.Path) {
    if d == Denoted(s) then JoinsWell(s)
    else d != [] && Last(d) != "" && Clean(if |d| == |Denoted(s)| + 1 then s else "", Last(d))
  }

  lemma {:induction false} AppendedAllLast(s: string, names: seq<string>, n: string)
    ensures Strings.AppendedAll(s, names + [n]) == Strings.Appended(Strings.AppendedAll(s, names), n)
    decreases |names|
  {
    hide Strings.Appended;
    if names == [] {
      assert (names + [n])[1..] == [];
    } else {
      assert (names + [n])[1..] == names[1..] + [n];
      AppendedAllLast(Strings.Appended(s, names[0]), names[1..], n);
    }
  }

  lemma ShownStep(s: string, p: FileTree.Path)
    requires StrictlyAbove(Denoted(s), p)
    ensures Above(Denoted(s), Parent(p))
    ensures Shown(s, p) == Strings.Appended(Shown(s, Parent(p)), Last(p))
  {
    var k := |Denoted(s)|;
    AboveParent(Denoted(s), p);
    assert p[k..] == Parent(p)[k..] + [Last(p)];
    AppendedAllLast(s, Parent(p)[k..], Last(p));
    hide Denoted, Strings.AppendedAll, Strings.Appended;
  }

  lemma ShownItself(s: string)
    ensures Above(Denoted(s), Denoted(s)) && Shown(s, Denoted(s)) == s
  {
    var d := Denoted(s);
    assert d[..|d|] == d && d[|d|..] == [];
    hide Denoted;
  }

  /** What is inside a directory is in one of the walk, and the directory has a string. */
  lemma MetParent(t: Tree, s: string, recursive: bool, p: FileTree.Path)
    requires WellFormed(t) && Met(t, s, recursive, p)
    ensures PosixName(Last(p)) && s != "" && Above(Denoted(s), Parent(p))
    ensures Parent(p) == Denoted(s) || Met(t, s, recursive, Parent(p))
  {
    var d := Denoted(s);
    AboveIsDirectory(t, d, p);
    ParentIsDirectory(t, p);
    AboveParent(d, p);
    assert s != "" by {
      if s == "" {
        ParentIsDirectory(t, d);
        assert false;
      }
    }
    assert |Parent(p)| == |d| ==> Parent(p) == d by {
      assert Parent(p)[..|Parent(p)|] == Parent(p);
    }
    hide WellFormed, Denoted, PosixName;
  }

  /** The string of a directory of the walk can be joined if and only if the names say so. */
  lemma ShownJoins(t: Tree, s: string, recursive: bool, p: FileTree.Path)
    requires WellFormed(t) && s != "" && (p == Denoted(s) || Met(t, s, recursive, p))
    ensures Above(Denoted(s), p) && Shown(s, p) != "" && (Shown(s, p) == "." ==> p == Denoted(s) && s == ".")
    ensures JoinsWell(Shown(s, p)) <==> JoinsAt(s, p)
    decreases |p|
  {
    hide WellFormed, Denoted, Shown, JoinsWell, PosixName, Clean, Strings.Appended;
    ShownItself(s);
    if p != Denoted(s) {
      MetParent(t, s, recursive, p);
      ShownJoins(t, s, recursive, Parent(p));
      ShownStep(s, p);
      NameAtEnd(Shown(s, Parent(p)), Last(p));
      CleanBehind(s, Shown(s, Parent(p)), Last(p));
      CleanBehind("", Shown(s, Parent(p)), Last(p));
      NameEnds(Last(p));
      SameNode(Denoted(s), p);
    }
  }

  lemma SameNode(d: FileTree.Path, p: FileTree.Path)
    requires StrictlyAbove(d, p)
    ensures Parent(p) == d <==> |p| == |d| + 1
  {
    if |p| == |d| + 1 {
      assert Parent(p) == p[..|d|];
    }
  }

  /** Only "." itself makes a difference. */
  lemma CleanBehind(s: string, e: string, n: string)
    ensures (s == "." <==> e == ".") ==> (Clean(s, n) <==> Clean(e, n))
  {}

  lemma ShownNames(t: Tree, s: string, recursive: bool, p: FileTree.Path)
    requires WellFormed(t) && s != "" && (p == Denoted(s) || Met(t, s, recursive, p))
    requires forall q :: Met(t, s, recursive, q) ==> JoinsAt(s, Parent(q))
    ensures Above(Denoted(s), p) && Denoted(Shown(s, p)) == p
    decreases |p|
  {
    hide WellFormed, Denoted, Shown, JoinsWell, PosixName, JoinsAt, Strings.Appended;
    ShownItself(s);
    if p != Denoted(s) {
      MetParent(t, s, recursive, p);
      ShownNames(t, s, recursive, Parent(p));
      ShownJoins(t, s, recursive, Parent(p));
      ShownStep(s, p);
      JoinedWell(Shown(s, Parent(p)), Last(p));
      assert p == Parent(p) + [Last(p)];
    }
  }

  /** Every string of a walk names its entry, if and only if all the directories in which something is met can be
      joined: the one given ends in no backslash and is no bare drive, the names of the others end in none either,
      and no drive is right behind ".". */
  lemma StringsAreRight(t: Tree, s: string, recursive: bool)
    requires WellFormed(t)
    ensures (forall p :: Met(t, s, recursive, p) ==> Denoted(Shown(s, p)) == p) <==>
            forall p :: Met(t, s, recursive, p) ==> JoinsAt(s, Parent(p))
  {
    hide WellFormed, Denoted, Shown, JoinsWell, PosixName, JoinsAt, Strings.Appended;
    if forall p :: Met(t, s, recursive, p) ==> JoinsAt(s, Parent(p)) {
      forall p | Met(t, s, recursive, p) ensures Denoted(Shown(s, p)) == p {
        MetParent(t, s, recursive, p);
        ShownNames(t, s, recursive, p);
      }
    }
    if forall p :: Met(t, s, recursive, p) ==> Denoted(Shown(s, p)) == p {
      forall p | Met(t, s, recursive, p) ensures JoinsAt(s, Parent(p)) {
        MetParent(t, s, recursive, p);
        ShownItself(s);
        ShownJoins(t, s, recursive, Parent(p));
        ShownStep(s, p);
        JoinStep(Shown(s, Parent(p)), Last(p));
        assert p == Parent(p) + [Last(p)];
      }
    }
  }

  // ---- Walks whose strings are right ----

  /** The strings of a walk from s are right, and no name fails the check of Append, where there is one. */
  ghost predicate WellNamed(t: Tree, s: string, checked: bool, recursive: bool) {
    forall p :: Met(t, s, recursive, p) ==> JoinsAt(s, Parent(p)) && !(checked && Strings.Absolute(Last(p)))
  }

  lemma EntriesJoin(t: Tree, s: string, checked: bool, recursive: bool, n: string)
    requires WellFormed(t) && WellNamed(t, s, checked, recursive)
    requires IsDirectory(t, Denoted(s)) && n in t[Denoted(s)].names && !Dot(n)
    ensures JoinsWell(s) && PosixName(n) && !(checked && Strings.Absolute(n))
  {
    var d := Denoted(s);
    var p := Child(d, n);
    assert p in t;
    ParentIsDirectory(t, p);
    AboveChild(d, d, n);
    SelfAbove(d);
    assert Met(t, s, recursive, p);
    hide WellFormed, Denoted, JoinsWell, PosixName, Strings.Absolute;
  }

  lemma WalkGoesOn(t: Tree, s: string, checked: bool, n: string)
    requires WellFormed(t) && WellNamed(t, s, checked, true) && JoinsWell(s) && PosixName(n)
    ensures WellNamed(t, Strings.Appended(s, n), checked, true)
  {
    hide WellFormed, Denoted, JoinsWell, PosixName, Clean, JoinsAt, Above, Strings.Appended, Strings.Absolute;
    var d, e := Denoted(s), Strings.Appended(s, n);
    EntryIs(s, n);
    assert Denoted(e) == Child(d, n);
    AboveChild(d, d, n);
    SelfAbove(d);
    forall p | Met(t, e, true, p)
      ensures JoinsAt(e, Parent(p)) && !(checked && Strings.Absolute(Last(p)))
    {
      AboveTransitive(d, Denoted(e), p);
      assert Met(t, s, true, p);
      AboveParent(Denoted(e), p);
      JoinsBelow(s, e, n, Parent(p));
    }
  }

  lemma JoinsBelow(s: string, e: string, n: string, d: FileTree.Path)
    requires Denoted(e) == Child(Denoted(s), n) && e != "." && n != "" && (JoinsWell(e) <==> Clean(s, n))
    requires Above(Denoted(e), d) && JoinsAt(s, d)
    ensures JoinsAt(e, d)
  {
    hide Denoted, JoinsWell, Clean;
    var c := Denoted(e);
    if d != c {
      assert d[..|d|] == d && |d| > |c|;
      CleanBehind("", e, Last(d));
    }
  }

  /** Still so when there is less to meet. */
  lemma FewerNamed(t: Tree, u: Tree, s: string, checked: bool, recursive: bool)
    requires WellNamed(t, s, checked, recursive) && u.Keys <= t.Keys
    ensures WellNamed(u, s, checked, recursive)
  {
    hide Denoted, JoinsAt;
    forall p | Met(u, s, recursive, p)
      ensures JoinsAt(s, Parent(p)) && !(checked && Strings.Absolute(Last(p)))
    {
      assert Met(t, s, recursive, p);
    }
  }

  // ---- Names for which they are wrong ----

  /** In a directory whose name ends in a backslash AppendWith takes the directory without it instead. */
  lemma BackslashIsCut(s: string, n: string, entry: string)
    requires JoinsWell(s) && PosixName(n) && PosixName(entry) && Clean(s, n)
    ensures Denoted(Strings.Appended(s, n + "\\")) == Denoted(s) + [n + "\\"]
    ensures Strings.Appended(Strings.Appended(s, n + "\\"), entry) == Strings.Appended(Strings.Appended(s, n), entry)
  {
    hide Denoted, Strings.Stripped, Strings.Appended, JoinsWell;
    var e := Strings.Appended(s, n);
    StillName(n);
    JoinedWell(s, n + "\\");
    EntryIs(s, n);
    LongerString(s, n);
    hide PosixName;
    NoBareDrive(e);
    Strings.SeparatorsGo(e, "\\");
    StrippedItself(e);
    Strings.AppendedIs(e, entry);
    Strings.AppendedEnds(e, "\\");
    Strings.AppendedIs(e + "\\", entry);
  }

  lemma StillName(n: string)
    requires PosixName(n)
    ensures PosixName(n + "\\")
  {
    var m := n + "\\";
    assert m[|m| - 1] == '\\' && "."[0] == '.' && ".."[1] == '.';
  }

  lemma LongerString(s: string, n: string)
    requires JoinsWell(s) && PosixName(n)
    ensures var e := Strings.Appended(s, n);
            e != "" && e[|e| - 1] == n[|n| - 1] && Strings.Appended(s, n + "\\") == e + "\\"
  {
    hide Strings.Stripped, Strings.Appended, Strings.HasDrive;
    NameEnds(n);
    if s == "." {
      AppendedToCurrent(n);
      AppendedToCurrent(n + "\\");
    } else {
      Strings.AppendedIs(s, n);
      Strings.AppendedIs(s, n + "\\");
      var q := Strings.Stripped(s);
      Associate(if Strings.IsSeparator(q[|q| - 1]) then q else q + "/", n, "\\");
    }
  }

  lemma NoBareDrive(s: string)
    requires JoinsWell(s)
    ensures !Strings.JustDrive(s) && s != ""
  {}

  lemma StrippedItself(s: string)
    requires s != "" && !Strings.IsSeparator(s[|s| - 1])
    ensures Strings.Stripped(s) == s
  {
    hide Strings.HasDrive;
  }

  /** And a directory that is only a backslash, in one of the same name, has the same string as that one: a walk in a
      release build never ends. */
  lemma BackslashAgain(s: string)
    requires s != "" && !Strings.IsSeparator(s[|s| - 1]) && !Strings.JustDrive(s) && s != "."
    ensures var e := Strings.Appended(s, "\\");
            Denoted(e) == Denoted(s) + ["\\"] && Strings.Appended(e, "\\") == e
  {
    hide Denoted, Strings.Stripped, Strings.Appended;
    StrippedItself(s);
    Strings.AppendedIs(s, "\\");
    BehindSlash(s, "\\");
    assert s + "/" + "\\" == s + "/\\";
    Strings.SeparatorsGo(s, "/\\");
    Strings.AppendedEnds(s, "/\\");
    Strings.AppendedIs(s + "/\\", "\\");
  }
}
