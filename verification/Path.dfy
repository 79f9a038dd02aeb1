/** The path arithmetic of kbase/path.cpp, as built for POSIX. */
module Path {
  import opened Sequences
  import Tokens

  const NPOS: nat := 0xFFFF_FFFF_FFFF_FFFF
  const SEPARATOR := '/'
  const CURRENT := "."

  /** Addition of size_t, which takes npos around to the small numbers. */
  function Plus(pos: nat, k: nat): nat {
    (pos + k) % 0x1_0000_0000_0000_0000
  }

  predicate IsSeparator(c: char) {
    c == '\\' || c == '/'
  }

  predicate AllSeparators(s: string) {
    forall i :: 0 <= i < |s| ==> IsSeparator(s[i])
  }

  predicate NoSeparators(s: string) {
    forall i :: 0 <= i < |s| ==> !IsSeparator(s[i])
  }

  predicate HasDrive(p: string) {
    |p| >= 2 && p[1] == ':' && ('A' <= p[0] <= 'Z' || 'a' <= p[0] <= 'z')
  }

  /** The position of the colon. */
  function FindDriveLetter(p: string): (pos: nat)
    ensures pos == 1 || pos == NPOS
  {
    if HasDrive(p) then 1 else NPOS
  }

  /** Where the path behind a drive begins. */
  function Root(p: string): (r: nat)
    ensures r <= |p| && (r == 0 || r == 2)
    ensures r == Plus(FindDriveLetter(p), 1)
    ensures r + 1 == Plus(FindDriveLetter(p), 2) && r + 2 == Plus(FindDriveLetter(p), 3)
  {
    if HasDrive(p) then 2 else 0
  }

  function LastSeparator(s: string): (pos: Tokens.Position)
    ensures pos.At? ==> pos.index < |s| && IsSeparator(s[pos.index]) && NoSeparators(s[pos.index + 1..])
    ensures pos.Npos? ==> NoSeparators(s)
  {
    if s == "" then Tokens.Npos
    else if IsSeparator(s[|s| - 1]) then Tokens.At(|s| - 1)
    else
      var front := s[..|s| - 1];
      var pos := LastSeparator(front);
      assert pos.At? ==> s[pos.index + 1..] == front[pos.index + 1..] + [s[|s| - 1]];
      assert s == front + [s[|s| - 1]];
      pos
  }

  // ---- Stripping ----

  /** The length without the separators at the end. */
  function Trimmed(p: string): (n: nat)
    ensures n <= |p| && AllSeparators(p[n..]) && (n > 0 ==> !IsSeparator(p[n - 1]))
  {
    if p == "" || !IsSeparator(p[|p| - 1]) then |p| else
    var front := p[..|p| - 1];
    var n := Trimmed(front);
    assert p[n..] == front[n..] + [p[|p| - 1]];
    n
  }

  /** Trailing separators go, but for one behind the drive and for two that are all there is. */
  function Stripped(p: string): (s: string)
    ensures s <= p && (p != "" ==> s != "") && Root(s) == Root(p) && HasDrive(s) == HasDrive(p)
    ensures AllSeparators(p[|s|..])
  {
    var r := Root(p);
    if |p| <= r + 1 || !IsSeparator(p[|p| - 1]) || (|p| == r + 2 && IsSeparator(p[r])) then p
    else
      StrippedTo(p, if Trimmed(p) <= r then r + 1 else Trimmed(p));
      if Trimmed(p) <= r then p[..r + 1] else p[..Trimmed(p)]
  }

  lemma StrippedTo(p: string, k: nat)
    requires Root(p) < k <= |p| && Trimmed(p) <= k
    ensures Root(p[..k]) == Root(p) && HasDrive(p[..k]) == HasDrive(p) && AllSeparators(p[k..])
  {
    PrefixDrive(p, k);
    hide HasDrive;
    FewerSeparators(p, Trimmed(p), k);
  }

  lemma PrefixDrive(p: string, k: nat)
    requires Root(p) < k <= |p|
    ensures HasDrive(p[..k]) == HasDrive(p)
  {}

  lemma FewerSeparators(p: string, n: nat, k: nat)
    requires n <= k <= |p| && AllSeparators(p[n..])
    ensures AllSeparators(p[k..])
  {
    hide IsSeparator;
    assert p[k..] == p[n..][k - n..];
  }

  // ---- Parent and file name ----

  function ParentPath(p: string): (parent: string)
    ensures p != "" ==> |parent| < |p|
    ensures p == "" ==> parent == ""
  {
    var s := Stripped(p);
    var letter := FindDriveLetter(s);
    var last := LastSeparator(s);
    assert HasDrive(s) && last.At? ==> last.index >= 2;
    if last.Npos? then
      if letter != NPOS && s[|s| - 1] == ':' then "" else s[..Plus(letter, 1)]
    else if last.index == Plus(letter, 1) then
      if IsSeparator(s[|s| - 1]) then "" else s[..Plus(letter, 2)]
    else if last.index == Plus(letter, 2) && IsSeparator(s[Plus(letter, 1)]) then
      if IsSeparator(s[|s| - 1]) then "" else s[..Plus(letter, 3)]
    else s[..last.index]
  }

  function Filename(p: string): (name: string)
    ensures |name| <= |p| && (p != "" ==> name != "")
  {
    var s := Stripped(p);
    var last := LastSeparator(s);
    var name := if last.At? && last.index < |s| - 1 then s[last.index + 1..] else s;
    var letter := FindDriveLetter(name);
    if letter != NPOS && Plus(letter, 1) < |name| && !IsSeparator(name[Plus(letter, 1)]) then name[Plus(letter, 1)..]
    else name
  }

  // ---- Components ----

  /** What is left when there is no parent: a drive, and a root or a single name. */
  function BaseComponents(p: string): seq<string> {
    var r := Root(p);
    (if HasDrive(p) then [p[..r]] else []) + (if p != CURRENT && r < |p| then [p[r..]] else [])
  }

  function Components(p: string): seq<string>
    decreases |p|
  {
    if ParentPath(p) == "" then BaseComponents(p)
    else Components(ParentPath(p)) + if AllSeparators(Filename(p)) then [] else [Filename(p)]
  }

  /** The shape of every list of components: a drive or none, a root or a first name, separator-free names. */
  predicate Shaped(cs: seq<string>) {
    forall i :: 0 <= i < |cs| ==>
      cs[i] != "" && (NoSeparators(cs[i]) || i == 0 || (i == 1 && |cs[0]| == 2 && HasDrive(cs[0]) && Ragged(cs[1])))
  }

  /** Separators, or a name that ends in a colon with separators behind it. */
  predicate Ragged(w: string) {
    var n := Trimmed(w);
    n < |w| && NoSeparators(w[..n]) && (n == 0 || w[n - 1] == ':')
  }

  lemma TrimmedIs(p: string, n: nat)
    requires n <= |p| && AllSeparators(p[n..]) && (n > 0 ==> !IsSeparator(p[n - 1]))
    ensures Trimmed(p) == n
  {}

  lemma BaseBehindDrive(p: string)
    requires HasDrive(p) && ParentPath(p) == "" && |p| > 2
    ensures NoSeparators(p[2..]) || Ragged(p[2..])
  {
    var n, w := Trimmed(p), p[2..];
    assert n >= 2;
    hide ParentPath, FindDriveLetter, LastSeparator;
    if n > 2 {
      assert Stripped(p) == p[..n] by {
        hide HasDrive, AllSeparators;
      }
      BareBehindDrive(p[..n]);
    }
    hide *;
    TrimmedBehind(p);
    NamePrefix(p, n, w);
  }

  lemma TrimmedBehind(p: string)
    requires Trimmed(p) >= 2
    ensures Trimmed(p[2..]) == Trimmed(p) - 2
  {
    var n := Trimmed(p);
    assert p[n..] == p[2..][n - 2..] && (n > 2 ==> p[2..][n - 3] == p[n - 1]);
    TrimmedIs(p[2..], n - 2);
  }

  lemma NamePrefix(p: string, n: nat, w: string)
    requires |p| > 2 && n == Trimmed(p) && n >= 2 && w == p[2..] && Trimmed(w) == n - 2
    requires n > 2 ==> NoSeparators(p[..n]) && p[n - 1] == ':'
    ensures NoSeparators(w) || Ragged(w)
  {
    hide Trimmed;
    assert forall i :: 0 <= i < n - 2 ==> w[i] == p[..n][i + 2];
    assert n > 2 ==> w[n - 3] == p[n - 1];
    assert n == |p| ==> w[..n - 2] == w;
  }

  lemma BareBehindDrive(s: string)
    requires HasDrive(s) && |s| > 2 && Stripped(s) == s && !IsSeparator(s[|s| - 1]) && ParentPath(s) == ""
    ensures NoSeparators(s) && s[|s| - 1] == ':'
  {
    hide Stripped;
  }

  lemma StrippedEndsWithName(p: string)
    requires ParentPath(p) != ""
    ensures var s := Stripped(p); s != "" && !IsSeparator(s[|s| - 1])
  {
    assert p != "";
  }

  lemma FilenameIsName(p: string)
    requires ParentPath(p) != ""
    ensures NoSeparators(Filename(p)) && Filename(p) != "" && !AllSeparators(Filename(p))
  {
    StrippedEndsWithName(p);
    hide Stripped, Plus, FindDriveLetter, HasDrive, LastSeparator, NoSeparators;
    NamePart(Stripped(p));
    assert !IsSeparator(Filename(p)[0]);
  }

  /** What stands behind the last separator, with or without its first two characters. */
  lemma NamePart(s: string)
    requires s != "" && !IsSeparator(s[|s| - 1])
    ensures var last := LastSeparator(s);
            var name := if last.At? && last.index < |s| - 1 then s[last.index + 1..] else s;
            && name != "" && NoSeparators(name) && !IsSeparator(name[0])
            && (|name| > 2 ==> NoSeparators(name[2..]) && !IsSeparator(name[2]))
  {}

  lemma BaseIsShaped(p: string)
    requires ParentPath(p) == ""
    ensures Shaped(BaseComponents(p))
  {
    if HasDrive(p) && |p| > 2 {
      BaseBehindDrive(p);
    }
    hide Ragged, ParentPath;
  }

  lemma {:induction false} ComponentsAreShaped(p: string)
    ensures Shaped(Components(p))
    ensures p == "" ==> Components(p) == []
    decreases |p|
  {
    if ParentPath(p) == "" {
      BaseIsShaped(p);
    } else {
      ComponentsAreShaped(ParentPath(p));
      FilenameIsName(p);
      hide *;
      ShapedLast(Components(ParentPath(p)), Filename(p));
      ComponentsStep(p);
    }
  }

  lemma ShapedLast(cs: seq<string>, name: string)
    requires Shaped(cs) && name != "" && NoSeparators(name)
    ensures Shaped(cs + [name])
  {
    hide NoSeparators;
  }

  lemma ComponentsStep(p: string)
    requires ParentPath(p) != "" && !AllSeparators(Filename(p))
    ensures Components(p) == Components(ParentPath(p)) + [Filename(p)] && p != ""
  {
    hide ParentPath, Filename;
  }

  // ---- Appending ----

  predicate Absolute(p: string) {
    p != "" && IsSeparator(p[0])
  }

  function Appended(p: string, c: string): string {
    if p == CURRENT then c else
    var s := Stripped(p);
    if c != "" && s != "" && !IsSeparator(s[|s| - 1]) && Plus(FindDriveLetter(s), 1) != |s| then s + [SEPARATOR] + c
    else s + c
  }

  /** Appending one after the other. */
  function AppendedAll(p: string, cs: seq<string>): string
    decreases |cs|
  {
    if cs == [] then p else AppendedAll(Appended(p, cs[0]), cs[1..])
  }

  /** In debug builds the source checks that no part is absolute. */
  predicate OneAbsolute(cs: seq<string>) {
    exists i :: 0 <= i < |cs| && Absolute(cs[i])
  }

  // ---- Appending one name ----

  predicate Name(name: string) {
    name != "" && NoSeparators(name)
  }

  predicate JustDrive(p: string) {
    |p| == 2 && HasDrive(p)
  }

  /** What is left of a name as the last component of a path: a drive in front of it is dropped. */
  function Tail(name: string): string {
    if HasDrive(name) && |name| > 2 then name[2..] else name
  }

  lemma LastIs(p: string, at: nat)
    requires at < |p| && IsSeparator(p[at]) && NoSeparators(p[at + 1..])
    ensures LastSeparator(p) == Tokens.At(at)
  {
    var pos := LastSeparator(p);
    assert pos.At? ==> NoSeparators(p[pos.index + 1..]);
  }

  lemma NoneIs(p: string)
    requires NoSeparators(p)
    ensures LastSeparator(p).Npos?
  {}

  /** Two strings behind one another, the second without separators. */
  lemma LastOf(front: string, name: string)
    requires front != "" && IsSeparator(front[|front| - 1]) && NoSeparators(name)
    ensures LastSeparator(front + name) == Tokens.At(|front| - 1)
  {
    assert (front + name)[|front|..] == name;
    LastIs(front + name, |front| - 1);
  }

  lemma DriveOf(front: string, name: string)
    requires |front| >= 2 || (front != "" && IsSeparator(front[|front| - 1]))
    ensures HasDrive(front + name) == HasDrive(front)
  {}

  /** Stripped paths: short, without a separator at the end, or two separators that are all there is. */
  predicate IsStripped(p: string) {
    var r := Root(p);
    |p| <= r + 1 || !IsSeparator(p[|p| - 1]) || (|p| == r + 2 && IsSeparator(p[r]))
  }

  lemma StrippedIsStripped(p: string)
    ensures IsStripped(Stripped(p)) && (IsStripped(p) ==> Stripped(p) == p)
  {
    hide HasDrive;
  }

  /** Stripping twice is stripping once. */
  lemma StrippedTwice(p: string)
    ensures Stripped(Stripped(p)) == Stripped(p)
    ensures ParentPath(Stripped(p)) == ParentPath(p) && Filename(Stripped(p)) == Filename(p)
  {
    StrippedIsStripped(p);
    StrippedIsStripped(Stripped(p));
    hide Stripped, IsStripped, ParentPath, Filename;
    SameParent(p, Stripped(p));
    SameFilename(p, Stripped(p));
  }

  lemma SameParent(p: string, q: string)
    requires Stripped(p) == Stripped(q)
    ensures ParentPath(p) == ParentPath(q)
  {
    hide Stripped, LastSeparator, Plus, FindDriveLetter, HasDrive, Root, IsSeparator, NoSeparators, AllSeparators;
  }

  lemma SameFilename(p: string, q: string)
    requires Stripped(p) == Stripped(q)
    ensures Filename(p) == Filename(q)
  {
    hide Stripped, LastSeparator, Plus, FindDriveLetter, HasDrive, Root, IsSeparator, NoSeparators, AllSeparators;
  }

  lemma DriveBefore(q: string)
    ensures HasDrive(q + [SEPARATOR]) == HasDrive(q)
  {}

  lemma NameIsStripped(front: string, name: string)
    requires Name(name)
    ensures Stripped(front + name) == front + name
  {
    var p := front + name;
    assert p[|p| - 1] == name[|name| - 1];
    hide Root, HasDrive, Trimmed;
  }

  /** A name behind a root, or behind a path and a separator. */
  lemma NameBehind(front: string, q: string, name: string)
    requires Name(name) && q != "" && Stripped(q) == q && !JustDrive(q)
    requires front == if IsSeparator(q[|q| - 1]) then q else q + [SEPARATOR]
    ensures ParentPath(front + name) == q && Filename(front + name) == Tail(name)
  {
    ParentBehind(front, q, name);
    FilenameBehind(front, q, name);
  }

  lemma FilenameBehind(front: string, q: string, name: string)
    requires Name(name) && q != "" && front == if IsSeparator(q[|q| - 1]) then q else q + [SEPARATOR]
    ensures Filename(front + name) == Tail(name)
  {
    var p := front + name;
    LastOf(front, name);
    NameIsStripped(front, name);
    assert p[|front|..] == name;
    assert |name| > 2 ==> !IsSeparator(name[2]);
    hide LastSeparator, Stripped, NoSeparators;
  }

  /** The parent of a stripped path that ends in a name. */
  lemma ParentOf(p: string, at: nat)
    requires Stripped(p) == p && p != "" && !IsSeparator(p[|p| - 1]) && LastSeparator(p) == Tokens.At(at)
    requires Root(p) <= at < |p| - 1
    ensures var r := Root(p);
            ParentPath(p) ==
            if at == r then p[..r + 1] else if at == r + 1 && IsSeparator(p[r]) then p[..r + 2] else p[..at]
  {
    hide Stripped, Plus, FindDriveLetter, HasDrive, LastSeparator;
  }

  lemma RootOf(q: string)
    requires q != "" && IsStripped(q) && !JustDrive(q)
    ensures |q| > Root(q)
    ensures IsSeparator(q[|q| - 1]) ==>
              |q| == Root(q) + 1 || (|q| == Root(q) + 2 && IsSeparator(q[Root(q)]))
  {}

  lemma ParentBehind(front: string, q: string, name: string)
    requires Name(name) && q != "" && Stripped(q) == q && !JustDrive(q)
    requires front == if IsSeparator(q[|q| - 1]) then q else q + [SEPARATOR]
    ensures ParentPath(front + name) == q
  {
    var p := front + name;
    LastOf(front, name);
    NameIsStripped(front, name);
    DriveOf(front, name);
    DriveBefore(q);
    SameDriveRoot(p, q);
    StrippedIsStripped(q);
    RootOf(q);
    hide LastSeparator, Stripped, HasDrive, Root, ParentPath, IsStripped;
    assert p[..|q|] == q && p[|p| - 1] == name[|name| - 1];
    ParentOf(p, |front| - 1);
    assert p[Root(q)] == q[Root(q)];
  }

  lemma SameDriveRoot(p: string, q: string)
    requires HasDrive(p) == HasDrive(q)
    ensures Root(p) == Root(q)
  {
    hide HasDrive;
  }

  /** A drive is an ASCII letter, of either case, and a colon. */
  lemma DriveLetters(p: string)
    ensures HasDrive(p) <==>
              |p| >= 2 && p[1] as int == 0x3a && (0x41 <= p[0] as int <= 0x5a || 0x61 <= p[0] as int <= 0x7a)
    ensures forall c :: IsSeparator(c) <==> c as int == 0x5c || c as int == 0x2f
  {}

  /** What is cut off: all separators behind a name; behind a drive or at the front all but one when there are more
      than two, else none. */
  lemma WhatIsStripped(p: string, u: string, tail: string)
    requires p == u + tail && AllSeparators(tail) && (u != "" ==> !IsSeparator(u[|u| - 1]))
    ensures var r := Root(p);
            Stripped(p) == if |u| > r then u else if |p| <= r + 2 then p else p[..r + 1]
  {
    assert p[|u|..] == tail && p[..|u|] == u;
    TrimmedIs(p, |u|);
    assert tail != "" ==> p[|p| - 1] == tail[|tail| - 1];
    var r := Root(p);
    assert |u| <= r < |p| ==> p[r] == tail[r - |u|];
    hide HasDrive, Trimmed;
  }

  lemma FilenameOfName(name: string)
    requires Name(name)
    ensures Filename(name) == Tail(name)
  {
    NoneIs(name);
    NameIsStripped("", name);
    assert "" + name == name;
    hide LastSeparator, Stripped;
    assert |name| > 2 ==> !IsSeparator(name[2]);
    hide NoSeparators;
  }

  lemma FilenameOfRoot(p: string)
    requires |p| > Root(p) && AllSeparators(p[Root(p)..])
    ensures Filename(p) == Stripped(p)
  {
    var r, s := Root(p), Stripped(p);
    RootStripped(p);
    assert forall i :: r <= i < |p| ==> p[i] == p[r..][i - r];
    assert s[|s|..] == "";
    LastIs(s, |s| - 1);
    hide Stripped, LastSeparator, AllSeparators;
  }

  lemma TrimmedToRoot(p: string)
    ensures Trimmed(p) <= Root(p) ==> AllSeparators(p[Root(p)..])
  {
    if Trimmed(p) <= Root(p) {
      FewerSeparators(p, Trimmed(p), Root(p));
    }
  }

  lemma BareDrive(p: string)
    requires p != "" && |p| <= Root(p)
    ensures !IsSeparator(p[|p| - 1])
  {}

  /** A path that is more than a drive and separators: what stands before its last name, and that name. */
  lemma FrontAndName(p: string) returns (front: string, name: string)
    requires p != "" && !(|p| > Root(p) && AllSeparators(p[Root(p)..]))
    ensures Stripped(p) == front + name && Name(name) && (front != "" ==> IsSeparator(front[|front| - 1]))
  {
    var s := Stripped(p);
    EndsInName(p);
    hide Stripped;
    var last := LastSeparator(s);
    if last.At? {
      front, name := s[..last.index + 1], s[last.index + 1..];
    } else {
      front, name := "", s;
      assert front + name == s;
    }
  }

  lemma EndsInName(p: string)
    requires p != "" && !(|p| > Root(p) && AllSeparators(p[Root(p)..]))
    ensures var s := Stripped(p); s != "" && !IsSeparator(s[|s| - 1])
  {
    var n, r := Trimmed(p), Root(p);
    TrimmedToRoot(p);
    if |p| <= r {
      BareDrive(p);
    }
    assert n > 0 && !IsSeparator(p[n - 1]);
    hide HasDrive, Trimmed, AllSeparators;
  }

  /** File name and parent of every path: those of a root are the root and nothing; else the file name is the last name
      without a drive in front of it, and the parent what stands before it, without the separator between them
      unless that is a root. */
  lemma NameAndParent(p: string) returns (front: string, name: string)
    ensures p == "" || (|p| > Root(p) && AllSeparators(p[Root(p)..])) ==>
              Filename(p) == Stripped(p) && ParentPath(p) == ""
    ensures p != "" && !(|p| > Root(p) && AllSeparators(p[Root(p)..])) ==>
              var r := Root(p);
              && Stripped(p) == front + name && Name(name) && (front != "" ==> IsSeparator(front[|front| - 1]))
              && Filename(p) == Tail(name)
              && ParentPath(p) ==
                 if front == "" then (if HasDrive(p) && name[|name| - 1] != ':' then p[..2] else "")
                 else if |front| == r + 1 || (|front| == r + 2 && IsSeparator(front[r])) then front
                 else front[..|front| - 1]
  {
    hide *;
    front, name := "", "";
    if p == "" {
      OfNothing();
    } else if |p| > Root(p) && AllSeparators(p[Root(p)..]) {
      FilenameOfRoot(p);
      RootAlone(p);
    } else {
      front, name := FrontAndName(p);
      StrippedTwice(p);
      StrippedDrive(p);
      if front == "" {
        assert front + name == name;
        FilenameOfName(name);
        ParentOfName(name);
        PrefixStripped(p);
      } else {
        FilenameBehind(front, front, name);
        ParentBehindFront(front, name);
      }
    }
  }

  lemma OfNothing()
    ensures Filename("") == Stripped("") && ParentPath("") == ""
  {}

  lemma PrefixStripped(p: string)
    ensures HasDrive(p) ==> |Stripped(p)| >= 2 && Stripped(p)[..2] == p[..2]
  {
    hide Stripped;
  }

  lemma ParentOfName(name: string)
    requires Name(name)
    ensures ParentPath(name) == if HasDrive(name) && name[|name| - 1] != ':' then name[..2] else ""
  {
    NoneIs(name);
    NameIsStripped("", name);
    assert "" + name == name;
    hide LastSeparator, Stripped, NoSeparators;
  }

  lemma ParentBehindFront(front: string, name: string)
    requires Name(name) && front != "" && IsSeparator(front[|front| - 1]) && Stripped(front + name) == front + name
    ensures var r := Root(front + name);
            ParentPath(front + name) ==
            if |front| == r + 1 || (|front| == r + 2 && IsSeparator(front[r])) then front else front[..|front| - 1]
  {
    var p := front + name;
    LastOf(front, name);
    assert p[|p| - 1] == name[|name| - 1] && p[..|front|] == front && p[..|front| - 1] == front[..|front| - 1];
    RootBefore(p, |front| - 1);
    ParentOf(p, |front| - 1);
    assert Root(p) < |front| ==> p[Root(p)] == front[Root(p)];
    hide *;
  }

  lemma RootBefore(p: string, at: nat)
    requires at < |p| && IsSeparator(p[at]) && NoSeparators(p[at + 1..])
    ensures Root(p) <= at
  {}

  lemma TailIsName(name: string)
    requires Name(name)
    ensures Name(Tail(name)) && !AllSeparators(Tail(name))
  {
    assert |name| > 2 ==> !IsSeparator(name[2]);
    assert !IsSeparator(Tail(name)[0]);
  }

  lemma SingleName(name: string)
    requires Name(name)
    ensures Components(name) == [name] <==> name != CURRENT && Tail(name) == name
  {
    NoneIs(name);
    assert "" + name == name;
    NameIsStripped("", name);
    hide Stripped, LastSeparator, NoSeparators;
    if HasDrive(name) && |name| > 2 {
      DriveAndName(name);
    } else if HasDrive(name) {
      DriveAlone(name);
    } else {
      assert name[0..] == name;
    }
  }

  lemma DriveAndName(name: string)
    requires Name(name) && HasDrive(name) && |name| > 2 && Stripped(name) == name && LastSeparator(name).Npos?
    ensures |Components(name)| == 2
  {
    DriveAlone(name[..2]);
    assert ParentPath(name) == if name[|name| - 1] == ':' then "" else name[..2] by {
      hide NoSeparators, HasDrive;
    }
    if ParentPath(name) == "" {
      hide ParentPath, Filename, Stripped, NoSeparators, LastSeparator;
      BaseCount(name);
    } else {
      FilenameIsName(name);
      hide ParentPath, Filename, Stripped, NoSeparators, LastSeparator, HasDrive;
      ComponentsStep(name);
    }
  }

  lemma DriveAlone(p: string)
    requires JustDrive(p)
    ensures Components(p) == [p] && Stripped(p) == p && ParentPath(p) == ""
  {
    assert NoSeparators(p);
    NoneIs(p);
    assert Stripped(p) == p;
    assert ParentPath(p) == "" by {
      hide Stripped, LastSeparator, Plus;
    }
    assert p[..2] == p;
    hide Stripped, ParentPath, Filename, LastSeparator, Plus;
  }

  /** Behind a drive no separator is put. */
  lemma AfterDrive(p: string, name: string)
    requires Name(name) && JustDrive(p)
    ensures Appended(p, name) == p + name && Components(p + name) == Components(p) + [name]
  {
    DriveAlone(p);
    var a := p + name;
    assert NoSeparators(a);
    NoneIs(a);
    NameIsStripped(p, name);
    assert a[..2] == p && a[2..] == name;
    assert a[2] == name[0] && a[|a| - 1] == name[|name| - 1];
    hide Stripped, LastSeparator;
    if a[|a| - 1] != ':' {
      assert ParentPath(a) == p && Filename(a) == name;
    }
  }

  lemma AppendedBehind(p: string, name: string)
    requires Name(name) && p != "" && p != CURRENT && !JustDrive(p)
    ensures Components(Appended(p, name)) == Components(Stripped(p)) + [Tail(name)]
  {
    var q := Stripped(p);
    StrippedTwice(p);
    assert !JustDrive(q) && q != "";
    var front := if IsSeparator(q[|q| - 1]) then q else q + [SEPARATOR];
    assert Appended(p, name) == front + name;
    NameBehind(front, q, name);
    TailIsName(name);
    hide Appended, Stripped, ParentPath, Filename;
  }

  /** Trailing separators make a difference only in a path without a parent. */
  lemma ComponentsOfStripped(p: string)
    requires p != CURRENT
    ensures Components(Stripped(p)) == Components(p) <==> ParentPath(p) != "" || Stripped(p) == p
  {
    hide *;
    StrippedTwice(p);
    if ParentPath(p) != "" {
      SameComponents(Stripped(p), p);
    } else {
      WithoutParent(p);
      WithoutParent(Stripped(p));
      BaseOfStripped(p);
    }
  }

  lemma SameComponents(p: string, q: string)
    requires ParentPath(p) == ParentPath(q) != "" && Filename(p) == Filename(q)
    ensures Components(p) == Components(q)
  {
    hide ParentPath, Filename;
  }

  lemma WithoutParent(p: string)
    requires ParentPath(p) == ""
    ensures Components(p) == BaseComponents(p)
  {}

  lemma BaseOfStripped(p: string)
    requires p != CURRENT
    ensures BaseComponents(Stripped(p)) == BaseComponents(p) <==> Stripped(p) == p
  {
    var q := Stripped(p);
    SameRoot(p);
    assert q != p ==> |q| < |p|;
    hide Stripped, Root, HasDrive;
    if q != p && |q| > Root(p) && q != CURRENT {
      LastEqual(if HasDrive(p) then [p[..Root(p)]] else [], p[Root(p)..],
                if HasDrive(q) then [q[..Root(p)]] else [], q[Root(p)..]);
    }
  }

  lemma LastEqual<T>(x: seq<T>, a: T, y: seq<T>, b: T)
    ensures x + [a] == y + [b] <==> x == y && a == b
  {
    if x + [a] == y + [b] {
      assert x == (x + [a])[..|x|] && y == (y + [b])[..|y|];
      assert (x + [a])[|x|] == a && (y + [b])[|y|] == b;
    }
  }

  /** Appending a name adds it as a component, exactly when the path has a parent or no superfluous separators,
      the name is not the current directory where there is no path, and it does not begin with a drive,
      unless it goes right behind one. */
  lemma AppendAddsName(p: string, name: string)
    requires Name(name)
    ensures Components(Appended(p, name)) == Components(p) + [name] <==>
            && (ParentPath(p) != "" || Stripped(p) == p)
            && !(name == CURRENT && (p == "" || p == CURRENT))
            && (JustDrive(p) || Tail(name) == name)
  {
    hide Stripped, ParentPath, Filename, BaseComponents, NoSeparators, LastSeparator, Components;
    if p == "" || p == CURRENT {
      NoPath(p, name);
      SingleName(name);
    } else if JustDrive(p) {
      DriveAlone(p);
      AfterDrive(p, name);
    } else {
      AppendedBehind(p, name);
      ComponentsOfStripped(p);
      LastEqual(Components(Stripped(p)), Tail(name), Components(p), name);
    }
  }

  lemma NoPath(p: string, name: string)
    requires p == "" || p == CURRENT
    ensures Appended(p, name) == name && Components(p) == [] && Components(p) + [name] == [name]
    ensures Stripped(p) == p && !JustDrive(p)
  {
    assert "" + name == name;
  }

  /** A path for which appending a name is not adding a component, such as "abc/". */
  lemma TrailingSeparatorStays(n: string, name: string)
    requires Name(n) && !HasDrive(n) && n != CURRENT && Name(name) && !HasDrive(name)
    ensures var p := n + [SEPARATOR];
            && Components(p) == [p]
            && Appended(p, name) == p + name && Components(p + name) == [n, name]
  {
    var p := n + [SEPARATOR];
    SlashIsStripped(n);
    SingleName(n);
    NoneIs(n);
    assert ParentPath(p) == "" && p[0..] == p;
    assert |p| >= 2;
    AppendedBehind(p, name);
    hide Stripped, ParentPath, Filename, LastSeparator;
  }

  lemma SlashIsStripped(n: string)
    requires Name(n) && !HasDrive(n)
    ensures Stripped(n + [SEPARATOR]) == n && !HasDrive(n + [SEPARATOR])
  {
    var p := n + [SEPARATOR];
    DriveBefore(n);
    assert p[..|p| - 1] == n;
    assert Trimmed(n) == |n|;
    hide HasDrive;
  }

  // ---- Appending many names ----

  predicate Names(names: seq<string>) {
    forall i :: 0 <= i < |names| ==> Name(names[i])
  }

  /** What is left of names as components of a path. */
  function Tails(names: seq<string>): (r: seq<string>)
    ensures |r| == |names|
  {
    if names == [] then [] else [Tail(names[0])] + Tails(names[1..])
  }

  lemma AppendedIsStripped(p: string, name: string)
    requires Name(name)
    ensures Stripped(Appended(p, name)) == Appended(p, name) && Appended(p, name) != ""
    ensures Appended(p, name) == CURRENT ==> name == CURRENT && (p == "" || p == CURRENT)
  {
    var s := Stripped(p);
    NameIsStripped("", name);
    NameIsStripped(s, name);
    NameIsStripped(s + [SEPARATOR], name);
    assert "" + name == name;
    assert p != "" ==> s != "";
    hide Stripped;
  }

  lemma AppendedIsNoDrive(p: string, name: string)
    requires Name(name) && p != "" && p != CURRENT && !JustDrive(p)
    ensures !JustDrive(Appended(p, name))
  {
    var q := Stripped(p);
    assert q != "" && !JustDrive(q);
    hide Stripped;
  }

  lemma AppendedAllStep(p: string, names: seq<string>)
    requires names != []
    ensures AppendedAll(p, names) == AppendedAll(Appended(p, names[0]), names[1..])
  {}

  lemma OtherNames(names: seq<string>)
    requires Names(names) && names != []
    ensures Name(names[0]) && Names(names[1..]) && Tails(names) == [Tail(names[0])] + Tails(names[1..])
  {}

  /** Behind a stripped path every further name adds its tail. */
  lemma {:induction false} AppendAllAddsTails(p: string, names: seq<string>)
    requires Names(names) && Stripped(p) == p && p != "" && p != CURRENT && !JustDrive(p)
    ensures Components(AppendedAll(p, names)) == Components(p) + Tails(names)
    decreases |names|
  {
    if names == [] {
      assert Components(p) + Tails(names) == Components(p);
      hide Components, Stripped;
    } else {
      hide *;
      var name, rest := names[0], names[1..];
      OtherNames(names);
      AppendedBehind(p, name);
      AppendedIsStripped(p, name);
      AppendedIsNoDrive(p, name);
      AppendedAllStep(p, names);
      AppendAllAddsTails(Appended(p, name), rest);
      Associate(Components(p), [Tail(name)], Tails(rest));
    }
  }

  /** The names are the components added: the first one as AppendAddsName says, the others when they do not begin
      with a drive; but a drive that starts a path takes any name behind it. */
  predicate AllAdded(p: string, names: seq<string>) {
    names == [] ||
    if p == "" || p == CURRENT then
      && names[0] != CURRENT
      && if JustDrive(names[0]) then |names| == 1 || Tails(names[2..]) == names[2..] else Tails(names) == names
    else if JustDrive(p) then Tails(names[1..]) == names[1..]
    else (ParentPath(p) != "" || Stripped(p) == p) && Tails(names) == names
  }

  lemma SameRest<T>(x: seq<T>, a: seq<T>, y: seq<T>, b: seq<T>)
    requires |a| == |b|
    ensures x + a == y + b <==> x == y && a == b
  {
    if x + a == y + b {
      assert |x| == |y|;
      assert x == (x + a)[..|x|] && y == (y + b)[..|y|];
      assert a == (x + a)[|x|..] && b == (y + b)[|y|..];
    }
  }

  /** A path made of the first name, and the others behind it. */
  lemma FirstThenTails(p: string, names: seq<string>)
    requires Names(names) && names != []
    requires var q := Appended(p, names[0]); q != CURRENT && !JustDrive(q)
    ensures Components(AppendedAll(p, names)) == Components(Appended(p, names[0])) + Tails(names[1..])
  {
    hide Components, Stripped, Appended, AppendedAll, JustDrive, Tail, Name, Tails;
    OtherNames(names);
    AppendedIsStripped(p, names[0]);
    AppendedAllStep(p, names);
    AppendAllAddsTails(Appended(p, names[0]), names[1..]);
  }

  /** From the current directory on, "." is never the first component. */
  lemma {:induction false} CurrentIsLost(names: seq<string>)
    requires Names(names)
    ensures var cs := Components(AppendedAll(CURRENT, names)); cs != [] ==> cs[0] != CURRENT
    decreases |names|
  {
    NoPath(CURRENT, "");
    if names != [] {
      OtherNames(names);
      NoPath(CURRENT, names[0]);
      AppendedAllStep(CURRENT, names);
      hide Components, Stripped, Appended, AppendedAll, Tail, Name, Tails, HasDrive;
      if names[0] == CURRENT {
        CurrentIsLost(names[1..]);
      } else {
        NameStarts(names[0], names[1..]);
      }
    }
  }

  /** A path that begins with a name, none or a drive before it, has no "." in front. */
  lemma NameStarts(n: string, rest: seq<string>)
    requires Name(n) && n != CURRENT && Names(rest)
    ensures var cs := Components(AppendedAll(n, rest)); cs != [] && cs[0] != CURRENT
  {
    FirstOfName(n);
    hide Components, Stripped, Appended, AppendedAll, Tail, Name, Tails;
    if JustDrive(n) {
      DriveAlone(n);
      if rest != [] {
        OtherNames(rest);
        AfterDriveIsNone(n, rest[0]);
        AfterDrive(n, rest[0]);
        FirstThenTails(n, rest);
      } else {
        NoneAppended(n);
      }
    } else {
      SingleIsStripped(n);
      AppendAllAddsTails(n, rest);
    }
  }

  lemma NoneAppended(p: string)
    ensures AppendedAll(p, []) == p
  {}

  lemma SingleIsStripped(n: string)
    requires Name(n)
    ensures Stripped(n) == n && n != ""
  {
    assert "" + n == n;
    NameIsStripped("", n);
  }

  lemma AfterDriveIsNone(p: string, name: string)
    requires JustDrive(p) && Name(name)
    ensures Appended(p, name) == p + name && p + name != CURRENT && !JustDrive(p + name)
  {
    AfterDrive(p, name);
  }

  lemma FirstOfName(n: string)
    requires Name(n) && n != CURRENT
    ensures Components(n) != [] && Components(n)[0] != CURRENT
  {
    NoneIs(n);
    SingleIsStripped(n);
    hide Stripped, LastSeparator;
    if HasDrive(n) && |n| > 2 && n[|n| - 1] != ':' {
      DriveAlone(n[..2]);
      assert ParentPath(n) == n[..2];
      hide Filename, ParentPath;
      assert n[..2] != CURRENT;
    }
  }

  /** Names appended one by one come back as the components behind those of the path, if and only if AllAdded. */
  lemma AppendAllAddsNames(p: string, names: seq<string>)
    requires Names(names)
    ensures Components(AppendedAll(p, names)) == Components(p) + names <==> AllAdded(p, names)
  {
    if names == [] {
      NoneAppended(p);
      assert Components(p) + names == Components(p);
      hide Components, AppendedAll;
    } else if p == "" || p == CURRENT {
      AllFromNothing(p, names);
    } else if JustDrive(p) {
      AllBehindDrive(p, names);
    } else {
      AllBehindPath(p, names);
    }
  }

  lemma AllBehindPath(p: string, names: seq<string>)
    requires Names(names) && names != [] && p != "" && p != CURRENT && !JustDrive(p)
    ensures Components(AppendedAll(p, names)) == Components(p) + names <==>
            (ParentPath(p) != "" || Stripped(p) == p) && Tails(names) == names
  {
    hide *;
    var name, rest := names[0], names[1..];
    OtherNames(names);
    AppendedBehind(p, name);
    AppendedIsStripped(p, name);
    AppendedIsNoDrive(p, name);
    FirstThenTails(p, names);
    ComponentsOfStripped(p);
    Associate(Components(Stripped(p)), [Tail(name)], Tails(rest));
    SameRest(Components(Stripped(p)), Tails(names), Components(p), names);
  }

  lemma AllBehindDrive(p: string, names: seq<string>)
    requires Names(names) && names != [] && JustDrive(p)
    ensures Components(AppendedAll(p, names)) == Components(p) + names <==> Tails(names[1..]) == names[1..]
  {
    hide *;
    OtherNames(names);
    AfterDriveIsNone(p, names[0]);
    AfterDrive(p, names[0]);
    FirstThenTails(p, names);
    FirstAndRest(Components(p), names);
    SameRest(Components(p) + [names[0]], Tails(names[1..]), Components(p) + [names[0]], names[1..]);
  }

  lemma FirstAndRest<T>(x: seq<T>, names: seq<T>)
    requires names != []
    ensures x + [names[0]] + names[1..] == x + names && [] + names == names
  {}

  lemma AllFromNothing(p: string, names: seq<string>)
    requires Names(names) && names != [] && (p == "" || p == CURRENT)
    ensures Components(AppendedAll(p, names)) == Components(p) + names <==> AllAdded(p, names)
  {
    var name, rest := names[0], names[1..];
    OtherNames(names);
    NoPath(p, name);
    AppendedAllStep(p, names);
    FirstAndRest(Components(p), names);
    assert rest != [] ==> rest[1..] == names[2..];
    hide Components, Stripped, Appended, AppendedAll, Tail, Name, HasDrive, Tails, Names;
    if name == CURRENT {
      CurrentIsLost(rest);
    } else if JustDrive(name) {
      DriveAlone(name);
      if rest == [] {
        NoneAppended(name);
      } else {
        AllBehindDrive(name, rest);
      }
    } else {
      SingleIsStripped(name);
      SingleName(name);
      FirstThenTails(p, names);
      SameRest(Components(name), Tails(rest), [name], rest);
      SameRest([Tail(name)], Tails(rest), [name], rest);
    }
  }

  /** Names appended to an empty path or to the root and taken apart are the same names, if and only if none begins
      with a drive that is not all of it; on an empty path the first must not be ".", and if it is a drive the
      second may be any name. */
  lemma PrintedNamesComeBack(names: seq<string>)
    requires Names(names)
    ensures Components(AppendedAll("", names)) == names <==> AllAdded("", names)
    ensures Components(AppendedAll([SEPARATOR], names)) == [[SEPARATOR]] + names <==> Tails(names) == names
  {
    NoPath("", "");
    assert Stripped([SEPARATOR]) == [SEPARATOR];
    assert Components([SEPARATOR]) == [[SEPARATOR]];
    assert Components("") + names == names;
    assert !JustDrive([SEPARATOR]);
    hide Components, Stripped, AppendedAll, Tail, Name, Names;
    AppendAllAddsNames("", names);
    AppendAllAddsNames([SEPARATOR], names);
  }

  // ---- The class ----

  /** The answer of AppendRelativePath; CheckFailed is where the check in Append stops the program. */
  datatype Answer = Related | Unrelated | CheckFailed

  function Reversed(s: seq<string>): (r: seq<string>)
    ensures |r| == |s|
  {
    if s == [] then [] else [s[|s| - 1]] + Reversed(s[..|s| - 1])
  }

  class Path {
    var value: string

    constructor (value: string)
      ensures this.value == value
    {
      this.value := value;
    }

    method StripTrailingSeparators()
      modifies this
      ensures value == Stripped(old(value))
    {
      var start := Plus(FindDriveLetter(value), 2);
      ghost var r := Root(value);
      var lastStripped: Tokens.Position := Tokens.Npos;
      var pos := |value|;
      while pos > start && IsSeparator(value[pos - 1])
        invariant 0 <= pos <= |value| && AllSeparators(value[pos..])
        invariant lastStripped.Npos? <==> pos == |value|
        invariant pos < |value| ==> pos >= start && !(|value| == r + 2 && IsSeparator(value[r]))
      {
        assert value[pos - 1..] == [value[pos - 1]] + value[pos..];
        if pos != start + 1 || !IsSeparator(value[start - 1]) || lastStripped != Tokens.Npos {
          lastStripped := Tokens.At(pos);
        } else {
          break;
        }
        pos := pos - 1;
      }
      StrippedAt(value, pos);
      value := value[..pos];
    }

    /** Debug builds check that the components are relative, and stop before anything is changed. */
    method Append(components: string, checked: bool) returns (ok: bool)
      modifies this
      ensures ok <==> !(checked && Absolute(components))
      ensures value == if ok then Appended(old(value), components) else old(value)
    {
      if checked && components != "" && IsSeparator(components[0]) {
        return false;
      }
      ok := true;
      if value == CURRENT {
        value := components;
        return;
      }
      StripTrailingSeparators();
      if components != "" && value != "" {
        if !IsSeparator(value[|value| - 1]) {
          if Plus(FindDriveLetter(value), 1) != |value| {
            value := value + [SEPARATOR];
          }
        }
      }
      value := value + components;
    }

    /** The components from left to right; an empty path leaves what the target held before. */
    method GetComponents(target: seq<string>) returns (components: seq<string>)
      ensures components == if value == "" then target else Components(value)
    {
      hide ParentPath, Filename;
      if value == "" {
        return target;
      }
      components := [];
      var current := value;
      while ParentPath(current) != ""
        invariant Components(value) == Components(current) + Reversed(components)
        invariant current != ""
        decreases |current|
      {
        var filename := Filename(current);
        ReversedAppend(components, filename);
        FilenameIsName(current);
        if !AllSeparators(filename) {
          components := components + [filename];
        }
        current := ParentPath(current);
      }
      var letter := FindDriveLetter(current);
      ghost var before := components;
      if current != "" && current != CURRENT && Plus(letter, 1) < |current| {
        components := components + [current[Plus(letter, 1)..]];
      }
      if letter != NPOS {
        components := components + [current[..Plus(letter, 1)]];
      }
      BaseReversed(before, components, current);
      components := Reversed(components);
    }

    /** Whether this is a parent of `child`; then `path`, if given, gets the components of `child` behind it. */
    method AppendRelativePath(child: Path, path: Path?, checked: bool) returns (answer: Answer)
      modifies path
      ensures answer == Unrelated <==> !ProperPrefix(Components(old(value)), Components(old(child.value)))
      ensures answer == CheckFailed <==>
                && answer != Unrelated && path != null && checked
                && OneAbsolute(Components(old(child.value))[|Components(old(value))|..])
      ensures path != null && answer != Related ==> path.value == old(path.value)
      ensures path != null && answer == Related ==>
                var rest := Components(old(child.value))[|Components(old(value))|..];
                path.value == AppendedAll(old(path.value), rest)
    {
      hide Components, Appended, Shaped;
      NoComponents();
      var currentComponents := GetComponents([]);
      var childComponents := child.GetComponents([]);
      if currentComponents == [] || |currentComponents| >= |childComponents| {
        return Unrelated;
      }
      var i := 0;
      while i != |currentComponents|
        invariant i <= |currentComponents| && currentComponents[..i] == childComponents[..i]
      {
        if currentComponents[i] != childComponents[i] {
          assert childComponents[..|currentComponents|][i] == childComponents[i];
          return Unrelated;
        }
        i := i + 1;
      }
      if path != null {
        ghost var n := |currentComponents|;
        ComponentsAreShaped(child.value);
        OnlyTheFirst(childComponents, n);
        while i != |childComponents|
          invariant n <= i <= |childComponents|
          invariant AppendedAll(path.value, childComponents[i..]) ==
                    AppendedAll(old(path.value), childComponents[n..])
          invariant i == n ==> path.value == old(path.value)
          invariant i > n ==> !(checked && Absolute(childComponents[n]))
          decreases |childComponents| - i
        {
          assert childComponents[i..][1..] == childComponents[i + 1..];
          var ok := path.Append(childComponents[i], checked);
          if !ok {
            return CheckFailed;
          }
          i := i + 1;
        }
      }
      return Related;
    }
  }

  /** Of the components that follow others only the first can be absolute. */
  lemma OnlyTheFirst(cs: seq<string>, n: nat)
    requires Shaped(cs) && 0 < n < |cs|
    ensures OneAbsolute(cs[n..]) <==> Absolute(cs[n])
    ensures forall i :: n < i < |cs| ==> !Absolute(cs[i])
    ensures Absolute(cs[n]) ==> n == 1 && JustDrive(cs[0]) && Ragged(cs[1])
  {
    hide HasDrive, Ragged;
    assert Absolute(cs[n]) ==> Absolute(cs[n..][0]);
    assert forall i :: 0 <= i < |cs| - n ==> cs[n..][i] == cs[n + i];
  }

  predicate ProperPrefix(x: seq<string>, y: seq<string>) {
    x != [] && |x| < |y| && y[..|x|] == x
  }

  lemma NoComponents()
    ensures Components("") == []
  {}

  /** The check fails exactly when the only component is a drive and the child goes on with a root. */
  lemma WhenTheCheckFails(p: string, child: string)
    requires ProperPrefix(Components(p), Components(child))
    ensures OneAbsolute(Components(child)[|Components(p)|..]) <==>
            |Components(p)| == 1 && JustDrive(Components(p)[0]) && Absolute(Components(child)[1])
    ensures OneAbsolute(Components(child)[|Components(p)|..]) ==> AllSeparators(Components(child)[1])
  {
    hide *;
    var cs, n := Components(child), |Components(p)|;
    ComponentsAreShaped(child);
    FirstOfPrefix(Components(p), cs);
    OnlyTheFirst(cs, n);
    if Absolute(cs[n]) {
      RaggedRoot(cs[1]);
    }
  }

  lemma FirstOfPrefix(x: seq<string>, y: seq<string>)
    requires ProperPrefix(x, y)
    ensures x[0] == y[0] && 0 < |x| < |y|
  {
    assert y[..|x|][0] == y[0];
  }

  lemma RaggedRoot(w: string)
    requires Ragged(w)
    ensures Absolute(w) <==> AllSeparators(w)
  {
    var n := Trimmed(w);
    assert n > 0 ==> w[..n][0] == w[0];
    assert n == 0 ==> w[0..] == w;
  }

  /** It does for a drive, written as such or behind the current directory, and an absolute path on it. */
  lemma TheCheckFails(drive: string, name: string)
    requires JustDrive(drive) && Name(name) && !HasDrive(name)
    ensures Components(drive) == [drive] && Components("./" + drive) == [drive]
    ensures Components(drive + "/" + name) == [drive, "/", name]
    ensures OneAbsolute(["/", name])
  {
    hide *;
    DriveAlone(drive);
    NameBehindCurrent(drive);
    NameBehindRoot(drive, name);
    RootIsAbsolute(name);
  }

  lemma RootIsAbsolute(name: string)
    ensures OneAbsolute(["/", name])
  {
    assert Absolute(["/", name][0]);
  }

  /** What the target gets where nothing is checked: the root itself from nothing, behind a drive and behind another
      root; behind a name the root makes no difference to the names that follow it. */
  lemma UncheckedRoot(target: string, root: string, name: string)
    requires root != "" && AllSeparators(root) && Name(name)
    ensures target == "" || target == CURRENT ==> Appended(target, root) == root
    ensures JustDrive(target) ==> Appended(target, root) == target + root
    ensures var q := Stripped(target);
            target != "" && target != CURRENT && !JustDrive(target) ==>
              && q != ""
              && if IsSeparator(q[|q| - 1]) then Appended(target, root) == q + root
                 else Appended(Appended(target, root), name) == Appended(target, name)
  {
    hide Stripped, Appended, HasDrive;
    if target == "" || target == CURRENT {
      NoPath(target, root);
    }
    BehindDriveIs(target, root);
    var q := Stripped(target);
    if target != "" && target != CURRENT && !JustDrive(target) {
      AppendedIs(target, root);
      if !IsSeparator(q[|q| - 1]) {
        RootIsLost(target, q, root, name);
      }
    }
  }

  lemma BehindDriveIs(drive: string, c: string)
    ensures JustDrive(drive) ==> Appended(drive, c) == drive + c
  {}

  lemma AppendedIs(p: string, c: string)
    requires p != "" && p != CURRENT && !JustDrive(p) && c != ""
    ensures var q := Stripped(p);
            && q != "" && !JustDrive(q)
            && Appended(p, c) == (if IsSeparator(q[|q| - 1]) then q else q + [SEPARATOR]) + c
  {
    var q := Stripped(p);
    assert q != "" && !JustDrive(q);
    hide Stripped;
  }

  lemma RootIsLost(target: string, q: string, root: string, name: string)
    requires root != "" && AllSeparators(root) && Name(name)
    requires q == Stripped(target) != "" && target != CURRENT && !JustDrive(target) && !IsSeparator(q[|q| - 1])
    ensures Appended(Appended(target, root), name) == Appended(target, name)
  {
    hide Stripped, Appended, HasDrive;
    AppendedIs(target, root);
    AppendedIs(target, name);
    var a, tail := Appended(target, root), [SEPARATOR] + root;
    Associate(q, [SEPARATOR], root);
    SeparatorsGo(q, tail);
    AppendedEnds(q, tail);
    AppendedIs(a, name);
  }

  lemma SeparatorsGo(q: string, tail: string)
    requires q != "" && !IsSeparator(q[|q| - 1]) && !JustDrive(q) && tail != "" && AllSeparators(tail)
    ensures Stripped(q + tail) == q && HasDrive(q + tail) == HasDrive(q)
  {
    var p := q + tail;
    assert p[|q|..] == tail && p[..|q|] == q;
    TrimmedIs(p, |q|);
    assert HasDrive(q + tail) == HasDrive(q) by {
      assert |q| == 1 ==> p[1] == tail[0];
    }
    assert p[|p| - 1] == tail[|tail| - 1];
    hide HasDrive, Trimmed;
  }

  lemma NameBehindRoot(drive: string, name: string)
    requires JustDrive(drive) && Name(name) && !HasDrive(name)
    ensures Components(drive + "/" + name) == [drive, "/", name]
  {
    var root := drive + "/";
    TailOfName(name);
    RootOfDrive(drive);
    EndsInRoot(drive);
    hide *;
    NameBehind(root, root, name);
    ComponentsBehind(root + name, root, name);
  }

  lemma TailOfName(name: string)
    requires !HasDrive(name)
    ensures Tail(name) == name
  {}

  lemma EndsInRoot(drive: string)
    ensures var root := drive + "/"; root != "" && IsSeparator(root[|root| - 1])
  {}

  lemma ComponentsBehind(p: string, front: string, name: string)
    requires ParentPath(p) == front != "" && Filename(p) == name && Name(name)
    ensures Components(p) == Components(front) + [name]
  {
    assert !AllSeparators(name);
    hide ParentPath, Filename;
  }

  lemma NameBehindCurrent(drive: string)
    requires JustDrive(drive)
    ensures Components("./" + drive) == [drive]
  {
    assert Stripped(CURRENT) == CURRENT && CURRENT + [SEPARATOR] == "./" && Name(drive);
    NoPath(CURRENT, "");
    hide Components, ParentPath, Filename, Stripped;
    NameBehind("./", CURRENT, drive);
    ComponentsBehind("./" + drive, CURRENT, drive);
  }

  lemma RootOfDrive(drive: string)
    requires JustDrive(drive)
    ensures Components(drive + "/") == [drive, "/"] && Stripped(drive + "/") == drive + "/" && !JustDrive(drive + "/")
  {
    var p := drive + "/";
    assert Stripped(p) == p;
    assert p[3..] == "";
    LastIs(p, 2);
    assert p[..2] == drive && p[2..] == "/";
    assert ParentPath(p) == "";
    hide ParentPath, Stripped, Filename;
  }

  /** When the components by which a child goes on come back behind those of the target. */
  predicate AllComeBack(target: string, rest: seq<string>) {
    rest == [] ||
    if NoSeparators(rest[0]) then AllAdded(target, rest)
    else if target == "" || target == CURRENT then !HasDrive(rest[0]) && AllAdded(rest[0], rest[1..])
    else JustDrive(target) && AllAdded(target + rest[0], rest[1..])
  }

  /** The target gets exactly the components by which the child goes on, if and only if AllComeBack. */
  lemma RelativeComponents(p: string, child: string, target: string)
    requires ProperPrefix(Components(p), Components(child))
    ensures var rest := Components(child)[|Components(p)|..];
            Components(AppendedAll(target, rest)) == Components(target) + rest <==> AllComeBack(target, rest)
  {
    var cs, n := Components(child), |Components(p)|;
    ComponentsAreShaped(child);
    hide *;
    FirstOfPrefix(Components(p), cs);
    RestShape(cs, n);
    var w, names := cs[n], cs[n + 1..];
    if NoSeparators(w) {
      AppendAllAddsNames(target, cs[n..]);
      NamesComeBack(target, cs[n..]);
    } else {
      RaggedFirst(target, w, names);
    }
  }

  lemma RestShape(cs: seq<string>, n: nat)
    requires Shaped(cs) && 0 < n < |cs|
    ensures cs[n..] == [cs[n]] + cs[n + 1..] && Names(cs[n + 1..])
    ensures if NoSeparators(cs[n]) then Names(cs[n..]) else Ragged(cs[n])
  {
    hide HasDrive, Ragged, NoSeparators;
    assert forall i :: 0 <= i < |cs| - n ==> cs[n..][i] == cs[n + i];
    assert cs[n + 1..] == cs[n..][1..];
    assert forall i :: n < i < |cs| ==> NoSeparators(cs[i]);
  }

  lemma NamesComeBack(target: string, names: seq<string>)
    requires Names(names) && names != []
    ensures AllComeBack(target, names) == AllAdded(target, names)
  {
    hide AllAdded, NoSeparators;
  }

  /** A first part that holds separators comes back from nothing, if it is not a drive with more, and behind a drive. */
  lemma RaggedFirst(target: string, w: string, names: seq<string>)
    requires Ragged(w) && !NoSeparators(w) && Names(names)
    ensures Components(AppendedAll(target, [w] + names)) == Components(target) + ([w] + names) <==>
            AllComeBack(target, [w] + names)
  {
    hide *;
    RaggedStep(target, w, names);
    Associate(Components(target), [w], names);
    var a := Appended(target, w);
    if target == "" || target == CURRENT {
      NoPath(target, w);
      if HasDrive(w) {
        RaggedOnDrive(w);
        NotAdded(target, w, names);
      } else {
        RaggedAlone(w);
        AppendAllAddsNames(a, names);
      }
    } else if JustDrive(target) {
      DriveAlone(target);
      RaggedBehindDrive(target, w);
      AppendAllAddsNames(a, names);
      Associate([target], [w], names);
    } else {
      RaggedBehindPath(target, w);
      NotAdded(target, w, names);
    }
  }

  lemma RaggedStep(target: string, w: string, names: seq<string>)
    requires !NoSeparators(w)
    ensures AppendedAll(target, [w] + names) == AppendedAll(Appended(target, w), names)
    ensures AllComeBack(target, [w] + names) <==>
            if target == "" || target == CURRENT then !HasDrive(w) && AllAdded(w, names)
            else JustDrive(target) && AllAdded(target + w, names)
  {
    assert ([w] + names)[1..] == names;
    hide Appended, AllAdded, NoSeparators, HasDrive;
  }

  /** A drive or nothing, a last name with a colon at its end, or no name, and separators: no parent. */
  lemma NoParent(p: string, n: nat)
    requires n == Trimmed(p) < |p| && NoSeparators(p[..n]) && Root(p) <= n
    requires n == Root(p) || Root(p) == 0 || p[n - 1] == ':'
    ensures ParentPath(p) == ""
  {
    if n == Root(p) {
      hide *;
      TrimmedTail(p);
      RootAlone(p);
    } else {
      StrippedToName(p, n);
      NoneIs(p[..n]);
      hide Stripped, LastSeparator, Trimmed, NoSeparators, HasDrive;
    }
  }

  lemma TrimmedTail(p: string)
    ensures AllSeparators(p[Trimmed(p)..])
  {}

  lemma StrippedToName(p: string, n: nat)
    requires n == Trimmed(p) < |p| && Root(p) < n
    ensures Stripped(p) == p[..n] && HasDrive(p[..n]) == HasDrive(p)
  {
    EndsInSeparator(p);
    assert !IsSeparator(p[n - 1]);
    hide Trimmed, AllSeparators;
  }

  lemma EndsInSeparator(p: string)
    requires Trimmed(p) < |p|
    ensures IsSeparator(p[|p| - 1])
  {
    var n := Trimmed(p);
    assert p[|p| - 1] == p[n..][|p| - 1 - n];
  }

  lemma RootAlone(p: string)
    requires |p| > Root(p) && AllSeparators(p[Root(p)..])
    ensures ParentPath(p) == "" && |Stripped(p)| > Root(p) && AllSeparators(Stripped(p)[Root(p)..])
  {
    var r, s := Root(p), Stripped(p);
    assert forall i :: r <= i < |p| ==> p[i] == p[r..][i - r];
    RootStripped(p);
    assert s[|s|..] == "";
    LastIs(s, |s| - 1);
    hide Stripped, LastSeparator, AllSeparators;
  }

  lemma RootStripped(p: string)
    requires |p| > Root(p) && forall i :: Root(p) <= i < |p| ==> IsSeparator(p[i])
    ensures var r, s := Root(p), Stripped(p);
            && r < |s| <= r + 2 && Root(s) == r && HasDrive(s) == HasDrive(p)
            && (forall i :: r <= i < |s| ==> IsSeparator(s[i])) && AllSeparators(s[r..])
  {
    var n, r := Trimmed(p), Root(p);
    assert n <= r;
    hide HasDrive, Trimmed;
  }

  lemma RaggedParent(w: string)
    requires Ragged(w)
    ensures ParentPath(w) == "" && |w| > Root(w) && w != CURRENT && !JustDrive(w) && w != ""
  {
    var n := Trimmed(w);
    EndsInSeparator(w);
    assert HasDrive(w) ==> n >= 2;
    hide Trimmed;
    NoParent(w, n);
  }

  lemma RaggedAlone(w: string)
    requires Ragged(w) && !HasDrive(w)
    ensures Components(w) == [w]
  {
    RaggedParent(w);
    assert w[0..] == w;
    hide ParentPath, Filename, Ragged, HasDrive;
  }

  lemma RaggedBehindDrive(drive: string, w: string)
    requires JustDrive(drive) && Ragged(w)
    ensures Appended(drive, w) == drive + w && Components(drive + w) == [drive, w]
  {
    var p, n := drive + w, 2 + Trimmed(w);
    BehindDriveIs(drive, w);
    RaggedBehind(drive, w);
    DriveRoot(p);
    hide *;
    NoParent(p, n);
    DriveAndRest(drive, w);
    WithoutParent(p);
  }

  lemma DriveRoot(p: string)
    requires HasDrive(p)
    ensures Root(p) == 2
  {}

  lemma DriveAndRest(drive: string, w: string)
    requires JustDrive(drive) && w != "" && HasDrive(drive + w)
    ensures BaseComponents(drive + w) == [drive, w]
  {
    assert (drive + w)[..2] == drive && (drive + w)[2..] == w;
    hide HasDrive;
  }

  lemma RaggedBehind(drive: string, w: string)
    requires JustDrive(drive) && Ragged(w)
    ensures var p, n := drive + w, 2 + Trimmed(w);
            n == Trimmed(p) < |p| && NoSeparators(p[..n]) && (n == 2 || p[n - 1] == ':') && HasDrive(p)
  {
    var p, n := drive + w, Trimmed(w);
    Behind(drive, w, n);
    assert p[1] == drive[1] == ':' && (n > 0 ==> p[2 + n - 1] == w[n - 1]);
    NoneInDrive(drive, w[..n]);
    hide Trimmed, NoSeparators, AllSeparators;
    TrimmedIs(p, 2 + n);
  }

  lemma Behind<T>(x: seq<T>, y: seq<T>, k: nat)
    requires k <= |y|
    ensures (x + y)[|x| + k..] == y[k..] && (x + y)[..|x| + k] == x + y[..k]
  {}

  lemma NoneInDrive(drive: string, name: string)
    requires JustDrive(drive) && NoSeparators(name)
    ensures NoSeparators(drive + name)
  {
    assert forall i :: 2 <= i < 2 + |name| ==> (drive + name)[i] == name[i - 2];
  }

  /** Paths that differ in trailing separators have equally many components, unless one of them is ".". */
  lemma SameCount(p: string, q: string)
    requires Stripped(p) == Stripped(q) && p != CURRENT
    ensures |Components(q)| <= |Components(p)| && (q != CURRENT ==> |Components(q)| == |Components(p)|)
  {
    SameParent(p, q);
    SameFilename(p, q);
    SameRoot(p);
    SameRoot(q);
    hide Stripped, ParentPath, Filename, HasDrive, Root;
    if ParentPath(p) == "" {
      BaseCount(p);
      BaseCount(q);
    }
  }

  lemma SameRoot(p: string)
    ensures Root(Stripped(p)) == Root(p) && HasDrive(Stripped(p)) == HasDrive(p)
    ensures |Stripped(p)| > Root(p) <==> |p| > Root(p)
  {
    hide HasDrive;
  }

  lemma BaseCount(p: string)
    ensures |BaseComponents(p)| == (if HasDrive(p) then 1 else 0) + if p != CURRENT && |p| > Root(p) then 1 else 0
  {}

  lemma RaggedOnDrive(w: string)
    requires Ragged(w) && HasDrive(w)
    ensures |Components(w)| == 2 && |Components(Stripped(w))| == 2 && w != CURRENT && !JustDrive(w) && w != ""
  {
    RaggedParent(w);
    StrippedTwice(w);
    BaseCount(w);
    assert HasDrive(Stripped(w));
    SameCount(w, Stripped(w));
    hide ParentPath, Filename, Ragged, Stripped;
  }

  /** What is not added as a component does not come back when names are appended behind it. */
  lemma NotAdded(target: string, w: string, names: seq<string>)
    requires Names(names)
    requires var a := Appended(target, w);
             && a != "" && a != CURRENT && !JustDrive(a)
             && Components(a) != Components(target) + [w] && Components(Stripped(a)) != Components(target) + [w]
    ensures Components(AppendedAll(Appended(target, w), names)) != Components(target) + [w] + names
  {
    hide *;
    var a := Appended(target, w);
    if names == [] {
      NoneAppended(a);
      assert Components(target) + [w] + names == Components(target) + [w];
    } else {
      OtherNames(names);
      AppendedBehind(a, names[0]);
      AppendedIsStripped(a, names[0]);
      AppendedIsNoDrive(a, names[0]);
      FirstThenTails(a, names);
      Associate(Components(Stripped(a)), [Tail(names[0])], Tails(names[1..]));
      SameRest(Components(Stripped(a)), Tails(names), Components(target) + [w], names);
    }
  }

  lemma AppendedEnds(front: string, w: string)
    requires front != "" && w != "" && IsSeparator(w[|w| - 1])
    ensures front + w != "" && front + w != CURRENT && !JustDrive(front + w)
  {
    var a := front + w;
    assert a[|a| - 1] == w[|w| - 1];
  }

  lemma RaggedParts(w: string) returns (u: string, tail: string)
    requires Ragged(w) && Trimmed(w) > 0
    ensures w == u + tail && Name(u) && tail != "" && AllSeparators(tail) && Tail(u) != w
  {
    u, tail := w[..Trimmed(w)], w[Trimmed(w)..];
  }

  lemma NameEnd(front: string, u: string)
    requires Name(u) && front != "" && IsSeparator(front[|front| - 1])
    ensures front + u != "" && !IsSeparator((front + u)[|front + u| - 1]) && !JustDrive(front + u)
  {
    assert (front + u)[|front + u| - 1] == u[|u| - 1];
    assert |front| == 1 ==> (front + u)[0] == front[0];
  }

  lemma NameWithSeparators(front: string, q: string, target: string, w: string)
    requires Ragged(w) && Trimmed(w) > 0 && q != "" && Stripped(q) == q && !JustDrive(q)
    requires front == if IsSeparator(q[|q| - 1]) then q else q + [SEPARATOR]
    ensures Components(front + w) != Components(target) + [w]
    ensures Components(Stripped(front + w)) != Components(target) + [w]
  {
    var u, tail := RaggedParts(w);
    assert IsSeparator(front[|front| - 1]);
    hide *;
    Associate(front, u, tail);
    NameEnd(front, u);
    NameBehind(front, q, u);
    TailIsName(u);
    ComponentsBehind(front + u, q, Tail(u));
    SeparatorsGo(front + u, tail);
    StrippedTwice(front + w);
    ComponentsBehind(front + w, q, Tail(u));
    LastEqual(Components(q), Tail(u), Components(target), w);
  }

  lemma NoName(target: string, q: string, tail: string)
    requires q == Stripped(target) != "" && target != CURRENT && !JustDrive(q) && !IsSeparator(q[|q| - 1])
    requires tail != "" && AllSeparators(tail) && q + tail != CURRENT
    ensures |Components(q + tail)| <= |Components(target)|
    ensures |Components(Stripped(q + tail))| <= |Components(target)|
  {
    hide *;
    SeparatorsGo(q, tail);
    StrippedTwice(target);
    SameCount(target, q + tail);
    SameCount(target, q);
  }

  lemma RootCount(p: string)
    requires |p| > Root(p) && AllSeparators(p[Root(p)..])
    ensures |Components(p)| == if HasDrive(p) then 2 else 1
  {
    assert p != CURRENT by {
      assert Root(p) == 0 ==> p[0..][0] == p[0];
    }
    hide HasDrive, Root, AllSeparators, Stripped, ParentPath, Filename;
    RootAlone(p);
    BaseCount(p);
  }

  lemma MoreSeparators(x: string, y: string)
    requires AllSeparators(x) && AllSeparators(y)
    ensures AllSeparators(x + y)
  {}

  lemma RootLonger(target: string, q: string, w: string)
    requires q == Stripped(target) != "" && !JustDrive(q) && IsSeparator(q[|q| - 1]) && AllSeparators(w)
    ensures |Components(q + w)| <= |Components(target)|
    ensures |Components(Stripped(q + w))| <= |Components(target)|
  {
    hide *;
    RootsOf(target, q, w);
    RootCount(target);
    RootCount(q + w);
    RootAlone(q + w);
    StrippedDrive(q + w);
    RootCount(Stripped(q + w));
  }

  lemma StrippedDrive(p: string)
    ensures HasDrive(Stripped(p)) == HasDrive(p) && Root(Stripped(p)) == Root(p)
  {}

  lemma RootsOf(target: string, q: string, w: string)
    requires q == Stripped(target) != "" && !JustDrive(q) && IsSeparator(q[|q| - 1]) && AllSeparators(w)
    ensures |target| > Root(target) && AllSeparators(target[Root(target)..])
    ensures |q + w| > Root(q + w) && AllSeparators((q + w)[Root(q + w)..]) && HasDrive(q + w) == HasDrive(target)
  {
    var r, tail := Root(target), target[|q|..];
    StrippedIsStripped(target);
    RootOf(q);
    DriveOf(q, w);
    assert AllSeparators(tail);
    assert target == q + tail && target[r..] == q[r..] + tail && (q + w)[r..] == q[r..] + w;
    hide Stripped, HasDrive, IsStripped;
    RootSeparators(q);
    MoreSeparators(q[r..], tail);
    MoreSeparators(q[r..], w);
  }

  lemma RootSeparators(q: string)
    requires q != "" && IsSeparator(q[|q| - 1])
    requires |q| == Root(q) + 1 || (|q| == Root(q) + 2 && IsSeparator(q[Root(q)]))
    ensures AllSeparators(q[Root(q)..])
  {
    hide HasDrive, Root;
  }

  lemma RaggedBehindPath(target: string, w: string)
    requires Ragged(w) && target != "" && target != CURRENT && !JustDrive(target)
    ensures var a := Appended(target, w);
            && a != "" && a != CURRENT && !JustDrive(a)
            && Components(a) != Components(target) + [w] && Components(Stripped(a)) != Components(target) + [w]
  {
    var q := Stripped(target);
    var n := Trimmed(w);
    StrippedTwice(target);
    EndsInSeparator(w);
    assert q != "" && !JustDrive(q);
    var front := if IsSeparator(q[|q| - 1]) then q else q + [SEPARATOR];
    var a := Appended(target, w);
    assert a == front + w;
    hide *;
    AppendedEnds(front, w);
    if n > 0 {
      NameWithSeparators(front, q, target, w);
    } else if IsSeparator(q[|q| - 1]) {
      RootLonger(target, q, w);
    } else {
      assert w[0..] == w && [SEPARATOR] + w != "";
      Associate(q, [SEPARATOR], w);
      NoName(target, q, [SEPARATOR] + w);
    }
  }

  lemma ReversedAppend(s: seq<string>, e: string)
    ensures Reversed(s + [e]) == [e] + Reversed(s)
  {
    assert (s + [e])[..|s|] == s;
  }

  /** The last step of GetComponents in the order of the result. */
  lemma BaseReversed(before: seq<string>, components: seq<string>, p: string)
    requires p != ""
    requires var r := Root(p);
             components == before + (if p != CURRENT && r < |p| then [p[r..]] else []) +
                           (if HasDrive(p) then [p[..r]] else [])
    ensures Reversed(components) == BaseComponents(p) + Reversed(before)
  {
    var r := Root(p);
    var base := if p != CURRENT && r < |p| then [p[r..]] else [];
    var drive := if HasDrive(p) then [p[..r]] else [];
    hide *;
    ReversedOption(before, base);
    ReversedOption(before + base, drive);
    BaseIs(p, drive, base);
    Associate(drive, base, Reversed(before));
  }

  lemma BaseIs(p: string, drive: seq<string>, base: seq<string>)
    requires drive == if HasDrive(p) then [p[..Root(p)]] else []
    requires base == if p != CURRENT && Root(p) < |p| then [p[Root(p)..]] else []
    ensures BaseComponents(p) == drive + base
  {}

  lemma ReversedOption(s: seq<string>, extra: seq<string>)
    requires |extra| <= 1
    ensures Reversed(s + extra) == extra + Reversed(s)
  {
    if extra == [] {
      assert s + extra == s && extra + Reversed(s) == Reversed(s);
    } else {
      ReversedAppend(s, extra[0]);
      assert extra == [extra[0]];
    }
  }

  lemma StrippedAt(p: string, pos: nat)
    requires var r := Root(p);
             && pos <= |p| && AllSeparators(p[pos..])
             && (pos == |p| ==> |p| <= r + 1 || !IsSeparator(p[|p| - 1]) || (|p| == r + 2 && IsSeparator(p[r])))
             && (pos < |p| ==> pos > r && !(|p| == r + 2 && IsSeparator(p[r])))
             && (pos < |p| ==> pos == r + 1 || !IsSeparator(p[pos - 1]))
    ensures Stripped(p) == p[..pos]
  {
    var n := Trimmed(p);
    if pos < |p| {
      assert IsSeparator(p[|p| - 1]) by {
        assert p[pos..][|p| - 1 - pos] == p[|p| - 1];
      }
      assert n < pos ==> p[n..][pos - 1 - n] == p[pos - 1];
    }
  }
}
