/** A file system as a finite tree, the order in which kbase/file_iterator_posix.cpp visits it,
    and what is left of it after removals. */
module FileTree {

  /** The names on the way from the root of the file system. */
  type Path = seq<string>

  predicate Dot(name: string) {
    name == "." || name == ".."
  }

  /** What POSIX takes for a name: anything without a slash, "." and ".." being there in every directory. */
  predicate PosixName(name: string) {
    name != "" && '/' !in name && !Dot(name)
  }

  lemma DotNames(name: string)
    ensures Dot(name) <==> (|name| == 1 || |name| == 2) && forall i :: 0 <= i < |name| ==> name[i] as int == 0x2e
  {
    if |name| == 1 && name[0] == '.' {
      assert name == ".";
    }
    if |name| == 2 && name[0] == '.' && name[1] == '.' {
      assert name == "..";
    }
  }

  /** A directory lists its names in the order in which readdir returns them, "." and ".." among them. */
  datatype Node = File | Directory(names: seq<string>)

  type Tree = map<Path, Node>

  function Child(dir: Path, name: string): (p: Path)
    ensures p != [] && Parent(p) == dir && Last(p) == name
  {
    dir + [name]
  }

  function Parent(p: Path): Path
    requires p != []
  {
    p[..|p| - 1]
  }

  function Last(p: Path): string
    requires p != []
  {
    p[|p| - 1]
  }

  predicate IsDirectory(t: Tree, p: Path) {
    p in t && t[p].Directory?
  }

  predicate Distinct<T(==)>(s: seq<T>) {
    forall i, j :: 0 <= i < j < |s| ==> s[i] != s[j]
  }

  /** Directories list exactly the nodes in them, once each. */
  ghost predicate WellFormed(t: Tree) {
    && (forall d :: IsDirectory(t, d) ==> Distinct(t[d].names))
    && (forall d, n :: IsDirectory(t, d) && n in t[d].names && !Dot(n) ==> Child(d, n) in t)
    && (forall p :: p in t && p != [] ==>
          IsDirectory(t, Parent(p)) && Last(p) in t[Parent(p)].names && !Dot(Last(p)))
    && (forall p :: p in t && p != [] ==> PosixName(Last(p)))
  }

  // ---- Above and below ----

  predicate Above(q: Path, p: Path) {
    |q| <= |p| && p[..|q|] == q
  }

  predicate StrictlyAbove(q: Path, p: Path) {
    Above(q, p) && |q| < |p|
  }

  ghost predicate UnderOne(stack: seq<Path>, p: Path) {
    exists i :: 0 <= i < |stack| && Above(stack[i], p)
  }

  ghost predicate InsideOne(stack: seq<Path>, p: Path) {
    exists i :: 0 <= i < |stack| && StrictlyAbove(stack[i], p)
  }

  ghost function Under(t: Tree, stack: seq<Path>): set<Path> {
    set p | p in t && UnderOne(stack, p)
  }

  /** No element of the list lies under another. */
  ghost predicate Antichain(stack: seq<Path>) {
    forall i, j :: 0 <= i < |stack| && 0 <= j < |stack| && i != j ==> !Above(stack[i], stack[j])
  }

  lemma AboveChild(q: Path, d: Path, n: string)
    ensures Above(q, Child(d, n)) <==> Above(q, d) || q == Child(d, n)
  {
    assert |q| <= |d| ==> Child(d, n)[..|q|] == d[..|q|];
  }

  lemma AboveTransitive(a: Path, b: Path, c: Path)
    requires Above(a, b) && Above(b, c)
    ensures Above(a, c)
  {
    assert c[..|a|] == c[..|b|][..|a|];
  }

  lemma ParentIsDirectory(t: Tree, p: Path)
    requires WellFormed(t) && p in t && p != []
    ensures IsDirectory(t, Parent(p)) && Last(p) in t[Parent(p)].names && !Dot(Last(p)) && PosixName(Last(p))
  {}

  lemma AboveParent(q: Path, p: Path)
    requires StrictlyAbove(q, p)
    ensures Above(q, Parent(p))
  {
    assert Parent(p)[..|q|] == p[..|q|];
  }

  /** What is above a node is in the tree, and a directory unless it is the node itself. */
  lemma {:induction false} AboveIsDirectory(t: Tree, q: Path, p: Path)
    requires WellFormed(t) && p in t && Above(q, p)
    ensures q in t && (q != p ==> IsDirectory(t, q))
    decreases |p|
  {
    hide WellFormed;
    if |q| < |p| {
      ParentIsDirectory(t, p);
      AboveParent(q, p);
      AboveIsDirectory(t, q, Parent(p));
    } else {
      assert p[..|p|] == p;
    }
  }

  // ---- The order of a walk ----

  /** The entries of a directory whose names are still to be read. */
  function Kids(dir: Path, names: seq<string>): seq<Path> {
    if names == [] then []
    else (if Dot(names[0]) then [] else [Child(dir, names[0])]) + Kids(dir, names[1..])
  }

  function Directories(t: Tree, ps: seq<Path>): seq<Path> {
    if ps == [] then []
    else (if IsDirectory(t, ps[0]) then [ps[0]] else []) + Directories(t, ps[1..])
  }

  lemma {:induction false} KidsAre(dir: Path, names: seq<string>)
    requires Distinct(names)
    ensures Distinct(Kids(dir, names))
    ensures forall p :: p in Kids(dir, names) <==> p != [] && Parent(p) == dir && Last(p) in names && !Dot(Last(p))
  {
    if names != [] {
      KidsAre(dir, names[1..]);
      forall p ensures p in Kids(dir, names) <==> p != [] && Parent(p) == dir && Last(p) in names && !Dot(Last(p)) {
        if p != [] && Parent(p) == dir && Last(p) == names[0] {
          assert p == Child(dir, names[0]);
        }
      }
    }
  }

  lemma {:induction false} DirectoriesAre(t: Tree, ps: seq<Path>)
    ensures forall p :: p in Directories(t, ps) <==> p in ps && IsDirectory(t, p)
    ensures Distinct(ps) ==> Distinct(Directories(t, ps))
  {
    if ps != [] {
      DirectoriesAre(t, ps[1..]);
    }
  }

  /** The directories to open after the top of the stack: those below it, then those found in it. */
  function Next(t: Tree, recursive: bool, stack: seq<Path>): seq<Path>
    requires stack != [] && IsDirectory(t, stack[|stack| - 1])
  {
    var d := stack[|stack| - 1];
    stack[..|stack| - 1] + if recursive then Directories(t, Kids(d, t[d].names)) else []
  }

  /** The entries met when the directories of the stack are read from its top. What cannot be opened is skipped. */
  ghost function Visit(t: Tree, recursive: bool, stack: seq<Path>): seq<Path>
    requires WellFormed(t) && Antichain(stack)
    decreases Under(t, stack), |stack|
  {
    if stack == [] then [] else
    var d := stack[|stack| - 1];
    if IsDirectory(t, d) then
      Descend(t, recursive, stack);
      Kids(d, t[d].names) + Visit(t, recursive, Next(t, recursive, stack))
    else
      SkipTop(t, stack);
      Visit(t, recursive, stack[..|stack| - 1])
  }

  lemma SkipTop(t: Tree, stack: seq<Path>)
    requires WellFormed(t) && Antichain(stack) && stack != [] && !IsDirectory(t, stack[|stack| - 1])
    ensures Antichain(stack[..|stack| - 1])
    ensures Under(t, stack[..|stack| - 1]) <= Under(t, stack)
    ensures forall p :: p in t ==> (InsideOne(stack, p) <==> InsideOne(stack[..|stack| - 1], p))
  {
    AntichainFront(stack);
    var rest := stack[..|stack| - 1];
    hide WellFormed, Antichain, Above;
    forall p | p in t && UnderOne(rest, p) ensures UnderOne(stack, p) {
      var i :| 0 <= i < |rest| && Above(rest[i], p);
      assert Above(stack[i], p);
    }
    forall p | p in t ensures InsideOne(stack, p) <==> InsideOne(rest, p) {
      InsideFront(t, stack, p);
    }
  }

  lemma InsideFront(t: Tree, stack: seq<Path>, p: Path)
    requires WellFormed(t) && stack != [] && !IsDirectory(t, stack[|stack| - 1]) && p in t
    ensures InsideOne(stack, p) <==> InsideOne(stack[..|stack| - 1], p)
  {
    hide WellFormed, Above;
    var rest := stack[..|stack| - 1];
    if i :| 0 <= i < |stack| && StrictlyAbove(stack[i], p) {
      AboveIsDirectory(t, stack[i], p);
      assert stack[i] == rest[i];
    }
    if i :| 0 <= i < |rest| && StrictlyAbove(rest[i], p) {
      assert StrictlyAbove(stack[i], p);
    }
  }

  lemma AntichainFront(stack: seq<Path>)
    requires Antichain(stack) && stack != []
    ensures Antichain(stack[..|stack| - 1])
  {
    var rest := stack[..|stack| - 1];
    forall i, j | 0 <= i < |rest| && 0 <= j < |rest| && i != j ensures !Above(rest[i], rest[j]) {
      assert !Above(stack[i], stack[j]);
    }
  }

  /** Members of the next stack are those of the old one without its top, or entries of the top. */
  lemma NextAre(t: Tree, recursive: bool, stack: seq<Path>)
    requires WellFormed(t) && stack != [] && IsDirectory(t, stack[|stack| - 1])
    ensures var d, next := stack[|stack| - 1], Next(t, recursive, stack);
            forall i :: 0 <= i < |next| ==>
              if i < |stack| - 1 then next[i] == stack[i]
              else next[i] != [] && Parent(next[i]) == d && IsDirectory(t, next[i])
    ensures var next := Next(t, recursive, stack);
            |next| >= |stack| - 1 && Distinct(next[|stack| - 1..])
  {
    var d := stack[|stack| - 1];
    var kids := Kids(d, t[d].names);
    KidsAre(d, t[d].names);
    DirectoriesAre(t, kids);
    var next, dirs := Next(t, recursive, stack), Directories(t, kids);
    forall i | |stack| - 1 <= i < |next|
      ensures next[i] != [] && Parent(next[i]) == d && IsDirectory(t, next[i])
    {
      assert next[i] in dirs;
    }
    assert next[|stack| - 1..] == if recursive then dirs else [];
  }

  lemma ChildOf(p: Path)
    requires p != []
    ensures p == Child(Parent(p), Last(p))
  {}

  lemma NextIsAntichain(t: Tree, recursive: bool, stack: seq<Path>)
    requires WellFormed(t) && Antichain(stack) && stack != [] && IsDirectory(t, stack[|stack| - 1])
    ensures Antichain(Next(t, recursive, stack))
  {
    NextAre(t, recursive, stack);
    SelfAbove(stack[|stack| - 1]);
    hide WellFormed, Next, IsDirectory, Above, Child;
    var m, d, next := |stack| - 1, stack[|stack| - 1], Next(t, recursive, stack);
    forall i, j | 0 <= i < |next| && 0 <= j < |next| && i != j ensures !Above(next[i], next[j]) {
      if i < m && j >= m {
        ChildOf(next[j]);
        AboveChild(stack[i], d, Last(next[j]));
        AboveChild(d, d, Last(next[j]));
        assert !Above(stack[i], stack[m]) && !Above(stack[m], stack[i]);
      } else if i >= m && j < m {
        ChildOf(next[i]);
        AboveChild(d, d, Last(next[i]));
        assert !Above(stack[m], stack[j]);
        if Above(next[i], stack[j]) {
          AboveTransitive(d, next[i], stack[j]);
        }
      } else if i >= m && j >= m {
        var dirs := next[m..];
        assert dirs[i - m] == next[i] && dirs[j - m] == next[j];
        SiblingsApart(next[i], next[j]);
      } else {
        assert !Above(stack[i], stack[j]);
      }
    }
  }

  lemma SiblingsApart(a: Path, b: Path)
    requires a != [] && b != [] && a != b && Parent(a) == Parent(b)
    ensures !Above(a, b)
  {
    assert b[..|b|] == b;
  }

  /** What is under the next stack was under this one. */
  lemma NextIsUnder(t: Tree, recursive: bool, stack: seq<Path>, p: Path)
    requires WellFormed(t) && stack != [] && IsDirectory(t, stack[|stack| - 1])
    requires UnderOne(Next(t, recursive, stack), p)
    ensures UnderOne(stack, p)
  {
    NextAre(t, recursive, stack);
    var m, d, next := |stack| - 1, stack[|stack| - 1], Next(t, recursive, stack);
    hide WellFormed, Next, Above, IsDirectory;
    var i :| 0 <= i < |next| && Above(next[i], p);
    if i < m {
      assert Above(stack[i], p);
    } else {
      ChildOf(next[i]);
      SelfAbove(d);
      AboveChild(d, d, Last(next[i]));
      AboveTransitive(d, next[i], p);
      assert Above(stack[m], p);
    }
  }

  lemma SelfAbove(p: Path)
    ensures Above(p, p)
  {}

  /** The top itself is not under the next stack. */
  lemma TopIsLeft(t: Tree, recursive: bool, stack: seq<Path>)
    requires WellFormed(t) && Antichain(stack) && stack != [] && IsDirectory(t, stack[|stack| - 1])
    ensures UnderOne(stack, stack[|stack| - 1]) && !UnderOne(Next(t, recursive, stack), stack[|stack| - 1])
  {
    NextAre(t, recursive, stack);
    var m, d, next := |stack| - 1, stack[|stack| - 1], Next(t, recursive, stack);
    hide WellFormed, Next, IsDirectory;
    assert Above(stack[m], d);
    forall i | 0 <= i < |next| ensures !Above(next[i], d) {
      assert i < m ==> !Above(stack[i], stack[m]);
    }
  }

  /** Opening the top makes the walk smaller. */
  lemma Descend(t: Tree, recursive: bool, stack: seq<Path>)
    requires WellFormed(t) && Antichain(stack) && stack != [] && IsDirectory(t, stack[|stack| - 1])
    ensures Antichain(Next(t, recursive, stack))
    ensures Under(t, Next(t, recursive, stack)) < Under(t, stack)
  {
    hide WellFormed, Antichain, Next, UnderOne;
    NextIsAntichain(t, recursive, stack);
    TopIsLeft(t, recursive, stack);
    var next := Next(t, recursive, stack);
    forall p | UnderOne(next, p) ensures UnderOne(stack, p) {
      NextIsUnder(t, recursive, stack, p);
    }
    assert stack[|stack| - 1] in Under(t, stack);
  }

  // ---- What a walk meets ----

  /** Inside the top of the stack: its entries and what is inside those that are opened next. */
  lemma InsideTop(t: Tree, stack: seq<Path>, p: Path)
    requires WellFormed(t) && Antichain(stack) && stack != [] && IsDirectory(t, stack[|stack| - 1]) && p in t
    ensures var d := stack[|stack| - 1];
            InsideOne(stack, p) <==> p in Kids(d, t[d].names) || InsideOne(Next(t, true, stack), p)
  {
    hide WellFormed, Antichain, Next, Kids, InsideOne;
    var d := stack[|stack| - 1];
    if p in Kids(d, t[d].names) || InsideOne(Next(t, true, stack), p) {
      InsideFromNext(t, stack, p);
    } else if InsideOne(stack, p) {
      InsideToNext(t, stack, p);
    }
  }

  lemma InsideToNext(t: Tree, stack: seq<Path>, p: Path)
    requires WellFormed(t) && stack != [] && IsDirectory(t, stack[|stack| - 1]) && p in t
    requires InsideOne(stack, p)
    ensures var d := stack[|stack| - 1]; p in Kids(d, t[d].names) || InsideOne(Next(t, true, stack), p)
  {
    hide WellFormed, Kids, Directories;
    var m, d, next := |stack| - 1, stack[|stack| - 1], Next(t, true, stack);
    var dirs := Directories(t, Kids(d, t[d].names));
    var i :| 0 <= i < |stack| && StrictlyAbove(stack[i], p);
    if i < m {
      assert StrictlyAbove(next[i], p);
    } else {
      var k := StepDown(t, d, p);
      if k != p {
        var j :| 0 <= j < |dirs| && dirs[j] == k;
        assert next[m + j] == k;
      }
    }
  }

  lemma InsideFromNext(t: Tree, stack: seq<Path>, p: Path)
    requires WellFormed(t) && stack != [] && IsDirectory(t, stack[|stack| - 1]) && p in t
    requires var d := stack[|stack| - 1]; p in Kids(d, t[d].names) || InsideOne(Next(t, true, stack), p)
    ensures InsideOne(stack, p)
  {
    var m, d, next := |stack| - 1, stack[|stack| - 1], Next(t, true, stack);
    NextAre(t, true, stack);
    KidsAre(d, t[d].names);
    hide WellFormed, Kids, Next;
    if p in Kids(d, t[d].names) {
      ChildOf(p);
      AboveChild(d, d, Last(p));
      assert StrictlyAbove(stack[m], p);
    } else {
      var i :| 0 <= i < |next| && StrictlyAbove(next[i], p);
      if i < m {
        assert StrictlyAbove(stack[i], p);
      } else {
        ChildOf(next[i]);
        AboveChild(d, d, Last(next[i]));
        AboveTransitive(d, next[i], p);
        assert StrictlyAbove(stack[m], p);
      }
    }
  }

  /** The entry of a directory on the way to what is inside it. */
  lemma StepDown(t: Tree, d: Path, p: Path) returns (k: Path)
    requires WellFormed(t) && p in t && StrictlyAbove(d, p) && IsDirectory(t, d)
    ensures k in Kids(d, t[d].names) && Above(k, p)
    ensures k != p ==> k in Directories(t, Kids(d, t[d].names)) && StrictlyAbove(k, p)
  {
    k := p[..|d| + 1];
    assert Parent(k) == p[..|d|];
    AboveIsDirectory(t, k, p);
    ParentIsDirectory(t, k);
    KidsAre(d, t[d].names);
    hide Kids, WellFormed;
    DirectoriesAre(t, Kids(d, t[d].names));
  }

  /** A recursive walk meets exactly what is inside the directories of the stack. */
  lemma {:induction false} VisitMeets(t: Tree, stack: seq<Path>, p: Path)
    requires WellFormed(t) && Antichain(stack)
    ensures p in Visit(t, true, stack) <==> p in t && InsideOne(stack, p)
    decreases Under(t, stack), |stack|
  {
    if stack != [] {
      var d := stack[|stack| - 1];
      if IsDirectory(t, d) {
        Descend(t, true, stack);
        VisitMeets(t, Next(t, true, stack), p);
        KidsAre(d, t[d].names);
        if p in t {
          InsideTop(t, stack, p);
        } else if p in Kids(d, t[d].names) {
          ChildOf(p);
        }
      } else {
        SkipTop(t, stack);
        VisitMeets(t, stack[..|stack| - 1], p);
      }
    }
  }

  /** What is met later is not an entry of the directory being read. */
  lemma LaterIsElsewhere(t: Tree, stack: seq<Path>, p: Path)
    requires WellFormed(t) && Antichain(stack) && stack != [] && IsDirectory(t, stack[|stack| - 1])
    requires InsideOne(Next(t, true, stack), p)
    ensures p != [] && Parent(p) != stack[|stack| - 1]
  {
    var m, d, next := |stack| - 1, stack[|stack| - 1], Next(t, true, stack);
    NextAre(t, true, stack);
    var i :| 0 <= i < |next| && StrictlyAbove(next[i], p);
    AboveParent(next[i], p);
    assert i < m ==> !Above(stack[i], stack[m]);
  }

  lemma DistinctAppend<T>(x: seq<T>, y: seq<T>)
    requires Distinct(x) && Distinct(y) && forall e :: e in y ==> e !in x
    ensures Distinct(x + y)
  {
    var z := x + y;
    forall i, j | 0 <= i < j < |z| ensures z[i] != z[j] {
      if i < |x| && j >= |x| {
        assert z[i] in x && z[j] in y;
      } else if i >= |x| {
        assert z[i] == y[i - |x|] && z[j] == y[j - |x|];
      }
    }
  }

  /** No entry is met twice. */
  lemma {:induction false} VisitIsDistinct(t: Tree, stack: seq<Path>)
    requires WellFormed(t) && Antichain(stack)
    ensures Distinct(Visit(t, true, stack))
    decreases Under(t, stack), |stack|
  {
    if stack != [] {
      var d := stack[|stack| - 1];
      if IsDirectory(t, d) {
        Descend(t, true, stack);
        var next := Next(t, true, stack);
        VisitIsDistinct(t, next);
        KidsAre(d, t[d].names);
        forall p | p in Visit(t, true, next) ensures p !in Kids(d, t[d].names) {
          VisitMeets(t, next, p);
          LaterIsElsewhere(t, stack, p);
        }
        DistinctAppend(Kids(d, t[d].names), Visit(t, true, next));
        hide Distinct, Kids;
      } else {
        SkipTop(t, stack);
        VisitIsDistinct(t, stack[..|stack| - 1]);
      }
    }
  }

  /** Every entry comes after the directory it is in, or that directory is where the walk began. */
  ghost predicate ParentsFirst(stack: seq<Path>, met: seq<Path>) {
    forall k :: 0 <= k < |met| ==> met[k] != [] && (Parent(met[k]) in stack || Parent(met[k]) in met[..k])
  }

  /** The entries of one directory come one after another. */
  ghost predicate Together(met: seq<Path>) {
    forall i, j, k :: 0 <= i < j < k < |met| && met[i] != [] && met[j] != [] && met[k] != [] ==>
      Parent(met[i]) == Parent(met[k]) ==> Parent(met[j]) == Parent(met[i])
  }

  lemma {:induction false} VisitIsOrdered(t: Tree, stack: seq<Path>)
    requires WellFormed(t) && Antichain(stack)
    ensures ParentsFirst(stack, Visit(t, true, stack)) && Together(Visit(t, true, stack))
    decreases Under(t, stack), |stack|
  {
    if stack != [] {
      var d := stack[|stack| - 1];
      if IsDirectory(t, d) {
        Descend(t, true, stack);
        var next, kids := Next(t, true, stack), Kids(d, t[d].names);
        var later := Visit(t, true, next);
        VisitIsOrdered(t, next);
        KidsAre(d, t[d].names);
        forall p | p in later ensures p != [] && Parent(p) != d {
          VisitMeets(t, next, p);
          LaterIsElsewhere(t, stack, p);
        }
        DirectoriesAre(t, kids);
        NextIsKnown(t, stack, kids);
        hide Visit, Next, Kids;
        FirstTogether(kids, later, d);
        ParentsBefore(stack, next, kids, later, d);
      } else {
        SkipTop(t, stack);
        VisitIsOrdered(t, stack[..|stack| - 1]);
      }
    }
  }

  lemma NextIsKnown(t: Tree, stack: seq<Path>, kids: seq<Path>)
    requires stack != [] && IsDirectory(t, stack[|stack| - 1])
    requires kids == Kids(stack[|stack| - 1], t[stack[|stack| - 1]].names)
    ensures forall q :: q in Next(t, true, stack) ==> q in stack || q in kids
  {
    DirectoriesAre(t, kids);
  }

  lemma FirstTogether(kids: seq<Path>, later: seq<Path>, d: Path)
    requires forall p :: p in kids ==> p != [] && Parent(p) == d
    requires forall p :: p in later ==> p != [] && Parent(p) != d
    requires Together(later)
    ensures Together(kids + later)
  {
    var met, n := kids + later, |kids|;
    forall i, j, k | 0 <= i < j < k < |met| && met[i] != [] && met[j] != [] && met[k] != [] &&
                     Parent(met[i]) == Parent(met[k])
      ensures Parent(met[j]) == Parent(met[i])
    {
      KidOrLater(kids, later, d, i);
      KidOrLater(kids, later, d, j);
      KidOrLater(kids, later, d, k);
      if i >= n {
        assert met[i] == later[i - n] && met[j] == later[j - n] && met[k] == later[k - n];
      }
    }
  }

  lemma KidOrLater(kids: seq<Path>, later: seq<Path>, d: Path, k: nat)
    requires k < |kids + later|
    requires forall p :: p in kids ==> p != [] && Parent(p) == d
    requires forall p :: p in later ==> p != [] && Parent(p) != d
    ensures (kids + later)[k] != [] && (Parent((kids + later)[k]) == d <==> k < |kids|)
  {
    if k < |kids| {
      assert (kids + later)[k] in kids;
    } else {
      assert (kids + later)[k] in later;
    }
  }

  lemma ParentsBefore(stack: seq<Path>, next: seq<Path>, kids: seq<Path>, later: seq<Path>, d: Path)
    requires d in stack && ParentsFirst(next, later)
    requires forall p :: p in kids ==> p != [] && Parent(p) == d
    requires forall q :: q in next ==> q in stack || q in kids
    ensures ParentsFirst(stack, kids + later)
  {
    var met, n := kids + later, |kids|;
    forall k | 0 <= k < |met|
      ensures met[k] != [] && (Parent(met[k]) in stack || Parent(met[k]) in met[..k])
    {
      if k < n {
        assert met[k] in kids;
      } else {
        assert met[k] == later[k - n];
        assert met[..k] == kids + later[..k - n];
      }
    }
  }

  /** A walk that is not recursive meets the entries of the directory. */
  lemma VisitOne(t: Tree, root: Path)
    requires WellFormed(t)
    ensures Visit(t, false, [root]) == if IsDirectory(t, root) then Kids(root, t[root].names) else []
  {
    if IsDirectory(t, root) {
      Descend(t, false, [root]);
      assert Next(t, false, [root]) == [];
    }
  }

  // ---- Removing nodes ----

  function Keep(dir: Path, names: seq<string>, gone: set<Path>): seq<string> {
    if names == [] then []
    else (if Dot(names[0]) || Child(dir, names[0]) !in gone then [names[0]] else []) + Keep(dir, names[1..], gone)
  }

  function Pruned(p: Path, node: Node, gone: set<Path>): Node {
    if node.File? then node else Directory(Keep(p, node.names, gone))
  }

  /** The tree without some nodes, and without their names in the directories that stay. */
  function Without(t: Tree, gone: set<Path>): Tree {
    map p | p in t && p !in gone :: Pruned(p, t[p], gone)
  }

  /** With a node everything in it is gone. */
  ghost predicate Closed(t: Tree, gone: set<Path>) {
    forall p :: p in t && p != [] && Parent(p) in gone ==> p in gone
  }

  lemma KeepAre(dir: Path, names: seq<string>, gone: set<Path>)
    ensures forall n :: n in Keep(dir, names, gone) <==> n in names && (Dot(n) || Child(dir, n) !in gone)
    ensures Distinct(names) ==> Distinct(Keep(dir, names, gone))
    ensures (forall n :: n in names && !Dot(n) ==> Child(dir, n) !in gone) ==> Keep(dir, names, gone) == names
  {
    hide Keep, Distinct, Child, Dot;
    forall n ensures n in Keep(dir, names, gone) <==> n in names && (Dot(n) || Child(dir, n) !in gone) {
      KeepsName(dir, names, gone, n);
    }
    if Distinct(names) {
      KeepsDistinct(dir, names, gone);
    }
    if forall n :: n in names && !Dot(n) ==> Child(dir, n) !in gone {
      KeepsAll(dir, names, gone);
    }
  }

  lemma {:induction false} KeepsName(dir: Path, names: seq<string>, gone: set<Path>, n: string)
    ensures n in Keep(dir, names, gone) <==> n in names && (Dot(n) || Child(dir, n) !in gone)
  {
    if names != [] {
      hide Child, Dot;
      KeepsName(dir, names[1..], gone, n);
    }
  }

  lemma {:induction false} KeepsDistinct(dir: Path, names: seq<string>, gone: set<Path>)
    requires Distinct(names)
    ensures Distinct(Keep(dir, names, gone))
  {
    if names != [] {
      hide Child, Dot;
      KeepsDistinct(dir, names[1..], gone);
      KeepsName(dir, names[1..], gone, names[0]);
      assert names[0] !in names[1..];
    }
  }

  lemma {:induction false} KeepsAll(dir: Path, names: seq<string>, gone: set<Path>)
    requires forall n :: n in names && !Dot(n) ==> Child(dir, n) !in gone
    ensures Keep(dir, names, gone) == names
  {
    if names != [] {
      hide Child, Dot;
      assert names[0] in names;
      KeepsAll(dir, names[1..], gone);
    }
  }

  lemma {:induction false} KeepTwice(dir: Path, names: seq<string>, a: set<Path>, b: set<Path>)
    ensures Keep(dir, Keep(dir, names, a), b) == Keep(dir, names, a + b)
  {
    if names != [] {
      KeepTwice(dir, names[1..], a, b);
      var first, rest := [names[0]], Keep(dir, names[1..], a);
      assert (first + rest)[1..] == rest;
      assert [] + rest == rest;
    }
  }

  lemma WithoutTwice(t: Tree, a: set<Path>, b: set<Path>)
    ensures Without(Without(t, a), b) == Without(t, a + b)
  {
    hide Keep;
    forall p | p in t && p !in a && p !in b
      ensures Pruned(p, Pruned(p, t[p], a), b) == Pruned(p, t[p], a + b)
    {
      if t[p].Directory? {
        KeepTwice(p, t[p].names, a, b);
      }
    }
  }

  /** A directory that stays lists what stays in it. */
  lemma KeptDirectory(t: Tree, gone: set<Path>, d: Path)
    requires WellFormed(t) && IsDirectory(Without(t, gone), d)
    ensures var names := Without(t, gone)[d].names;
            && Distinct(names)
            && forall n :: n in names && !Dot(n) ==> Child(d, n) in Without(t, gone)
  {
    assert Distinct(t[d].names);
    KeepAre(d, t[d].names, gone);
    hide Keep, Distinct, PosixName;
  }

  /** What stays is in a directory that stays. */
  lemma KeptParent(t: Tree, gone: set<Path>, p: Path)
    requires WellFormed(t) && Closed(t, gone) && p in Without(t, gone) && p != []
    ensures var u := Without(t, gone);
            IsDirectory(u, Parent(p)) && Last(p) in u[Parent(p)].names && !Dot(Last(p)) && PosixName(Last(p))
  {
    ParentIsDirectory(t, p);
    ChildOf(p);
    KeepAre(Parent(p), t[Parent(p)].names, gone);
    hide WellFormed, Keep, Distinct, PosixName, Dot;
  }

  lemma WithoutIsWellFormed(t: Tree, gone: set<Path>)
    requires WellFormed(t) && Closed(t, gone)
    ensures WellFormed(Without(t, gone))
  {
    hide *;
    var u := Without(t, gone);
    forall d | IsDirectory(u, d) ensures ListsItsNodes(u, d) {
      KeptDirectory(t, gone, d);
      ListsIs(u, d);
    }
    forall p | p in u && p != [] ensures IsListed(u, p) {
      KeptParent(t, gone, p);
      ListedIs(u, p);
    }
    AllListed(u);
  }

  predicate ListsItsNodes(u: Tree, d: Path)
    requires IsDirectory(u, d)
  {
    Distinct(u[d].names) && forall n :: n in u[d].names && !Dot(n) ==> Child(d, n) in u
  }

  predicate IsListed(u: Tree, p: Path)
    requires p != []
  {
    IsDirectory(u, Parent(p)) && Last(p) in u[Parent(p)].names && !Dot(Last(p)) && PosixName(Last(p))
  }

  lemma ListsIs(u: Tree, d: Path)
    requires IsDirectory(u, d)
    ensures ListsItsNodes(u, d) <==>
            Distinct(u[d].names) && forall n :: n in u[d].names && !Dot(n) ==> Child(d, n) in u
  {}

  lemma ListedIs(u: Tree, p: Path)
    requires p != []
    ensures IsListed(u, p) <==>
            IsDirectory(u, Parent(p)) && Last(p) in u[Parent(p)].names && !Dot(Last(p)) && PosixName(Last(p))
  {}

  lemma AllListed(u: Tree)
    requires forall d :: IsDirectory(u, d) ==> ListsItsNodes(u, d)
    requires forall p :: p in u && p != [] ==> IsListed(u, p)
    ensures WellFormed(u)
  {
    hide Distinct, PosixName, Dot;
  }

  /** Trees that have the same directories at or below a stack are walked alike. */
  ghost predicate Agree(t: Tree, u: Tree, stack: seq<Path>) {
    forall p :: UnderOne(stack, p) ==> IsDirectory(t, p) == IsDirectory(u, p) && (IsDirectory(t, p) ==> t[p] == u[p])
  }

  lemma AgreeOn(t: Tree, u: Tree, stack: seq<Path>, i: nat)
    requires Agree(t, u, stack) && i < |stack|
    ensures IsDirectory(t, stack[i]) == IsDirectory(u, stack[i])
    ensures IsDirectory(t, stack[i]) ==> t[stack[i]] == u[stack[i]]
  {
    assert Above(stack[i], stack[i]);
  }

  lemma {:induction false} SameDirectories(t: Tree, u: Tree, ps: seq<Path>)
    requires forall p :: p in ps ==> IsDirectory(t, p) == IsDirectory(u, p)
    ensures Directories(t, ps) == Directories(u, ps)
  {
    if ps != [] {
      SameDirectories(t, u, ps[1..]);
    }
  }

  lemma AgreeNext(t: Tree, u: Tree, recursive: bool, stack: seq<Path>)
    requires WellFormed(t) && WellFormed(u) && Agree(t, u, stack)
    requires stack != [] && IsDirectory(t, stack[|stack| - 1]) && IsDirectory(u, stack[|stack| - 1])
    requires t[stack[|stack| - 1]] == u[stack[|stack| - 1]]
    ensures Next(t, recursive, stack) == Next(u, recursive, stack) && Agree(t, u, Next(t, recursive, stack))
  {
    var m, d, next := |stack| - 1, stack[|stack| - 1], Next(t, recursive, stack);
    var kids := Kids(d, t[d].names);
    KidsAre(d, t[d].names);
    forall p | p in kids ensures IsDirectory(t, p) == IsDirectory(u, p) {
      ChildOf(p);
      AboveChild(d, d, Last(p));
      assert Above(stack[m], p);
    }
    SameDirectories(t, u, kids);
    hide WellFormed, Kids, Directories, Next, UnderOne;
    forall p | UnderOne(next, p) ensures UnderOne(stack, p) {
      NextIsUnder(t, recursive, stack, p);
    }
  }

  lemma {:induction false} SameVisit(t: Tree, u: Tree, recursive: bool, stack: seq<Path>)
    requires WellFormed(t) && WellFormed(u) && Antichain(stack) && Agree(t, u, stack)
    ensures Visit(t, recursive, stack) == Visit(u, recursive, stack)
    decreases Under(t, stack), |stack|
  {
    if stack != [] {
      AgreeOn(t, u, stack, |stack| - 1);
      hide WellFormed, Antichain, Kids, Agree;
      if IsDirectory(t, stack[|stack| - 1]) {
        Descend(t, recursive, stack);
        AgreeNext(t, u, recursive, stack);
        SameVisit(t, u, recursive, Next(t, recursive, stack));
      } else {
        SkipTop(t, stack);
        AgreeFront(t, u, stack);
        SameVisit(t, u, recursive, stack[..|stack| - 1]);
      }
    }
  }

  lemma AgreeFront(t: Tree, u: Tree, stack: seq<Path>)
    requires Agree(t, u, stack) && stack != []
    ensures Agree(t, u, stack[..|stack| - 1])
  {
    var rest := stack[..|stack| - 1];
    forall p | UnderOne(rest, p) ensures UnderOne(stack, p) {
      var i :| 0 <= i < |rest| && Above(rest[i], p);
      assert Above(stack[i], p);
    }
  }

  /** The removal of files that are not inside a stack leaves its directories alone. */
  lemma WithoutAgrees(t: Tree, gone: set<Path>, stack: seq<Path>)
    requires forall p :: p in gone ==> !InsideOne(stack, p) && !IsDirectory(t, p)
    ensures Agree(t, Without(t, gone), stack)
  {
    forall p | UnderOne(stack, p) && IsDirectory(t, p) ensures Keep(p, t[p].names, gone) == t[p].names {
      forall n | n in t[p].names ensures Child(p, n) !in gone {
        var i :| 0 <= i < |stack| && Above(stack[i], p);
        AboveChild(stack[i], p, n);
        assert StrictlyAbove(stack[i], Child(p, n));
      }
      KeepAre(p, t[p].names, gone);
    }
  }

  /** A node with everything in it. */
  function Subtree(t: Tree, root: Path): set<Path> {
    set p | p in t && Above(root, p)
  }

  lemma SubtreeIsClosed(t: Tree, root: Path)
    ensures Closed(t, Subtree(t, root))
  {
    forall p | p in t && p != [] && Parent(p) in Subtree(t, root) ensures Above(root, p) {
      ChildOf(p);
      AboveChild(root, Parent(p), Last(p));
    }
  }

  /** The files and the directories of a walk with its root are the whole subtree. */
  lemma WalkCoversSubtree(t: Tree, root: Path)
    requires WellFormed(t) && root in t
    ensures Antichain([root])
    ensures Subtree(t, root) == (set p | p in Visit(t, true, [root])) + {root}
  {
    forall p ensures p in Subtree(t, root) <==> p in Visit(t, true, [root]) || p == root {
      VisitMeets(t, [root], p);
      if p in t && Above(root, p) && p != root {
        assert |p| == |root| ==> p == root by {
          assert p[..|p|] == p;
        }
        assert StrictlyAbove([root][0], p);
      }
      if p in t && InsideOne([root], p) {
        assert StrictlyAbove(root, p);
      }
      assert Above(root, root);
    }
  }

  /** In the list of directories of a walk every parent comes first. */
  lemma {:induction false} DirectoryParentsFirst(t: Tree, root: Path, met: seq<Path>, k: nat)
    requires k <= |met| && ParentsFirst([root], met)
    requires forall p :: p in met ==> p != [] && IsDirectory(t, Parent(p))
    ensures var dirs := [root] + Directories(t, met[..k]);
            forall j :: 0 < j < |dirs| ==> dirs[j] != [] && Parent(dirs[j]) in dirs[..j]
    decreases k
  {
    if k > 0 {
      DirectoryParentsFirst(t, root, met, k - 1);
      StackGrows(t, root, met, k);
      hide *;
      OneMoreDirectory([root] + Directories(t, met[..k - 1]), met[k - 1]);
    }
  }

  lemma StackGrows(t: Tree, root: Path, met: seq<Path>, k: nat)
    requires 0 < k <= |met| && ParentsFirst([root], met)
    requires forall p :: p in met ==> p != [] && IsDirectory(t, Parent(p))
    ensures var p, before, dirs := met[k - 1], [root] + Directories(t, met[..k - 1]), [root] + Directories(t, met[..k]);
            p != [] && Parent(p) in before && (dirs == before || dirs == before + [p])
  {
    var p := met[k - 1];
    assert p in met;
    assert met[..k] == met[..k - 1] + [p];
    DirectoriesAppend(t, met[..k - 1], p);
    DirectoriesAre(t, met[..k - 1]);
    hide Directories;
  }

  lemma OneMoreDirectory(before: seq<Path>, p: Path)
    requires forall j :: 0 < j < |before| ==> before[j] != [] && Parent(before[j]) in before[..j]
    requires p != [] && Parent(p) in before
    ensures var dirs := before + [p];
            forall j :: 0 < j < |dirs| ==> dirs[j] != [] && Parent(dirs[j]) in dirs[..j]
  {
    var dirs := before + [p];
    forall j | 0 < j < |dirs| ensures dirs[j] != [] && Parent(dirs[j]) in dirs[..j] {
      if j < |before| {
        assert dirs[j] == before[j] && dirs[..j] == before[..j];
      } else {
        assert dirs[j] == p && dirs[..j] == before;
      }
    }
  }

  lemma {:induction false} DirectoriesAppend(t: Tree, ps: seq<Path>, p: Path)
    ensures Directories(t, ps + [p]) == Directories(t, ps) + if IsDirectory(t, p) then [p] else []
  {
    if ps == [] {
      assert [] + [p] == [p];
    } else {
      assert (ps + [p])[1..] == ps[1..] + [p];
      DirectoriesAppend(t, ps[1..], p);
    }
  }
}
