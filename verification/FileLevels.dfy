/** When the directory iterator of kbase/file_iterator_posix.cpp goes level by level, as its header says. */
module FileLevels {
  import opened Sequences
  import opened FileTree

  /** Breadth first: no entry comes before one that is higher up. */
  predicate ByLevels(met: seq<Path>) {
    forall i, j :: 0 <= i < j < |met| ==> |met[i]| <= |met[j]|
  }

  predicate Filled(t: Tree, p: Path) {
    IsDirectory(t, p) && Kids(p, t[p].names) != []
  }

  /** With a filled directory in it. */
  predicate Deep(t: Tree, p: Path) {
    IsDirectory(t, p) && exists q :: q in Kids(p, t[p].names) && Filled(t, q)
  }

  /** Of two filled directories in this one the later has a filled directory in it. */
  predicate Crossed(t: Tree, d: Path) {
    && IsDirectory(t, d)
    && var kids := Kids(d, t[d].names);
       exists i, j :: 0 <= i < j < |kids| && Filled(t, kids[i]) && Filled(t, kids[j]) && Deep(t, kids[j])
  }

  // ---- Without such directories the order is by levels ----

  /** What is filled on the stack is on one level, and has nothing filled in it unless it is the lowest. */
  predicate Level(t: Tree, stack: seq<Path>) {
    forall i, j :: 0 <= i < j < |stack| && Filled(t, stack[i]) && Filled(t, stack[j]) ==>
      |stack[i]| == |stack[j]| && !Deep(t, stack[j])
  }

  ghost predicate Uncrossed(t: Tree, stack: seq<Path>) {
    forall d :: d in t && UnderOne(stack, d) ==> !Crossed(t, d)
  }

  lemma KidsDepth(t: Tree, d: Path, p: Path)
    requires WellFormed(t) && IsDirectory(t, d) && p in Kids(d, t[d].names)
    ensures |p| == |d| + 1 && Above(d, p) && Above(p, p)
  {
    KidsAre(d, t[d].names);
    ChildOf(p);
    SelfAbove(d);
    AboveChild(d, d, Last(p));
    SelfAbove(p);
  }

  lemma {:induction false} DirectoriesInOrder(t: Tree, ps: seq<Path>, i: nat, j: nat)
    requires i < j < |Directories(t, ps)|
    ensures exists a, b :: 0 <= a < b < |ps| && ps[a] == Directories(t, ps)[i] && ps[b] == Directories(t, ps)[j]
  {
    var rest := Directories(t, ps[1..]);
    if !IsDirectory(t, ps[0]) {
      DirectoriesInOrder(t, ps[1..], i, j);
      var a, b :| 0 <= a < b < |ps| - 1 && ps[1..][a] == rest[i] && ps[1..][b] == rest[j];
      assert ps[a + 1] == rest[i] && ps[b + 1] == rest[j];
    } else if i > 0 {
      DirectoriesInOrder(t, ps[1..], i - 1, j - 1);
      var a, b :| 0 <= a < b < |ps| - 1 && ps[1..][a] == rest[i - 1] && ps[1..][b] == rest[j - 1];
      assert ps[a + 1] == rest[i - 1] && ps[b + 1] == rest[j - 1];
    } else {
      DirectoriesAre(t, ps[1..]);
      assert rest[j - 1] in ps[1..];
      var b :| 0 <= b < |ps| - 1 && ps[1..][b] == rest[j - 1];
      assert ps[0] == Directories(t, ps)[0] && ps[b + 1] == rest[j - 1];
    }
  }

  /** Two directories found in an uncrossed one. */
  lemma KidsOnLevel(t: Tree, d: Path, i: nat, j: nat)
    requires WellFormed(t) && IsDirectory(t, d) && !Crossed(t, d)
    requires i < j < |Directories(t, Kids(d, t[d].names))|
    ensures var dirs := Directories(t, Kids(d, t[d].names));
            Filled(t, dirs[i]) && Filled(t, dirs[j]) ==> !Deep(t, dirs[j])
  {
    DirectoriesInOrder(t, Kids(d, t[d].names), i, j);
    hide WellFormed, Kids, Directories, Filled, Deep;
  }

  lemma NextDirectory(t: Tree, stack: seq<Path>, i: nat)
    requires WellFormed(t) && stack != [] && IsDirectory(t, stack[|stack| - 1])
    requires |stack| - 1 <= i < |Next(t, true, stack)|
    ensures var d, p := stack[|stack| - 1], Next(t, true, stack)[i];
            && p == Directories(t, Kids(d, t[d].names))[i - (|stack| - 1)]
            && p in Kids(d, t[d].names) && |p| == |d| + 1
            && (Filled(t, p) ==> Filled(t, d) && Deep(t, d))
  {
    hide WellFormed, Kids, Directories, Filled, Deep, Next, Above;
    var d, p := stack[|stack| - 1], Next(t, true, stack)[i];
    NextElement(t, stack, i);
    DirectoryIsIn(t, Kids(d, t[d].names), p);
    KidsDepth(t, d, p);
    if Filled(t, p) {
      FilledKid(t, d, p);
    }
  }

  lemma NextElement(t: Tree, stack: seq<Path>, i: nat)
    requires stack != [] && IsDirectory(t, stack[|stack| - 1])
    requires |stack| - 1 <= i < |Next(t, true, stack)|
    ensures var d := stack[|stack| - 1];
            var dirs := Directories(t, Kids(d, t[d].names));
            var k := i - (|stack| - 1);
            k < |dirs| && Next(t, true, stack)[i] == dirs[k] && dirs[k] in dirs
  {
    hide Kids, Directories;
  }

  lemma DirectoryIsIn(t: Tree, ps: seq<Path>, p: Path)
    requires p in Directories(t, ps)
    ensures p in ps
  {
    DirectoriesAre(t, ps);
    hide Directories;
  }

  lemma FilledKid(t: Tree, d: Path, p: Path)
    requires IsDirectory(t, d) && p in Kids(d, t[d].names) && Filled(t, p)
    ensures Filled(t, d) && Deep(t, d)
  {
    hide Kids;
  }

  lemma NextLower(t: Tree, stack: seq<Path>)
    requires stack != [] && IsDirectory(t, stack[|stack| - 1])
    ensures var d, next := stack[|stack| - 1], Next(t, true, stack);
            && |next| == |stack| - 1 + |Directories(t, Kids(d, t[d].names))|
            && forall i :: 0 <= i < |stack| - 1 ==> next[i] == stack[i]
  {
    hide Kids, Directories;
  }

  lemma NextOnLevel(t: Tree, stack: seq<Path>)
    requires WellFormed(t) && stack != [] && IsDirectory(t, stack[|stack| - 1])
    requires Level(t, stack) && !Crossed(t, stack[|stack| - 1])
    ensures Level(t, Next(t, true, stack))
  {
    hide *;
    var next := Next(t, true, stack);
    forall i, j | 0 <= i < j < |next| && Filled(t, next[i]) && Filled(t, next[j])
      ensures |next[i]| == |next[j]| && !Deep(t, next[j])
    {
      NextPair(t, stack, i, j);
    }
    LevelIs(t, next);
  }

  lemma LevelIs(t: Tree, stack: seq<Path>)
    requires forall i, j :: 0 <= i < j < |stack| && Filled(t, stack[i]) && Filled(t, stack[j]) ==>
               |stack[i]| == |stack[j]| && !Deep(t, stack[j])
    ensures Level(t, stack)
  {}

  lemma LevelMeans(t: Tree, stack: seq<Path>, i: nat, j: nat)
    requires Level(t, stack) && i < j < |stack| && Filled(t, stack[i]) && Filled(t, stack[j])
    ensures |stack[i]| == |stack[j]| && !Deep(t, stack[j])
  {}

  lemma NextPair(t: Tree, stack: seq<Path>, i: nat, j: nat)
    requires WellFormed(t) && stack != [] && IsDirectory(t, stack[|stack| - 1])
    requires Level(t, stack) && !Crossed(t, stack[|stack| - 1])
    requires i < j < |Next(t, true, stack)|
    requires Filled(t, Next(t, true, stack)[i]) && Filled(t, Next(t, true, stack)[j])
    ensures var next := Next(t, true, stack); |next[i]| == |next[j]| && !Deep(t, next[j])
  {
    hide *;
    var m := |stack| - 1;
    NextLower(t, stack);
    if j < m {
      LevelMeans(t, stack, i, j);
    } else {
      NextDirectory(t, stack, j);
      if i < m {
        LevelMeans(t, stack, i, m);
      } else {
        NextDirectory(t, stack, i);
        KidsOnLevel(t, stack[m], i - m, j - m);
      }
    }
  }

  /** What comes after the entries of the top is no higher than they are. */
  lemma LaterIsLower(t: Tree, stack: seq<Path>, p: Path)
    requires WellFormed(t) && stack != [] && Level(t, stack) && Filled(t, stack[|stack| - 1]) && p in t
    requires InsideOne(Next(t, true, stack), p)
    ensures |p| > |stack[|stack| - 1]|
  {
    var m, d, next := |stack| - 1, stack[|stack| - 1], Next(t, true, stack);
    var i :| 0 <= i < |next| && StrictlyAbove(next[i], p);
    if i < m {
      AboveIsDirectory(t, next[i], p);
      var k := StepDown(t, next[i], p);
      assert Filled(t, stack[i]);
    } else {
      NextDirectory(t, stack, i);
    }
  }

  lemma LevelsJoin(kids: seq<Path>, later: seq<Path>, n: nat)
    requires (forall p :: p in kids ==> |p| == n) && (forall p :: p in later ==> kids != [] ==> |p| >= n)
    requires ByLevels(later)
    ensures ByLevels(kids + later)
  {
    var met := kids + later;
    forall i, j | 0 <= i < j < |met| ensures |met[i]| <= |met[j]| {
      if i >= |kids| {
        assert met[i] == later[i - |kids|] && met[j] == later[j - |kids|];
      } else if j >= |kids| {
        assert met[i] in kids && met[j] in later;
      } else {
        assert met[i] in kids && met[j] in kids;
      }
    }
  }

  lemma {:induction false} UncrossedByLevels(t: Tree, stack: seq<Path>)
    requires WellFormed(t) && Antichain(stack) && Level(t, stack) && Uncrossed(t, stack)
    ensures ByLevels(Visit(t, true, stack))
    decreases Under(t, stack), |stack|
  {
    if stack != [] {
      var d := stack[|stack| - 1];
      if IsDirectory(t, d) {
        Descend(t, true, stack);
        TopIsLeft(t, true, stack);
        NextOnLevel(t, stack);
        var next, kids := Next(t, true, stack), Kids(d, t[d].names);
        forall p | p in t && UnderOne(next, p) ensures !Crossed(t, p) {
          NextIsUnder(t, true, stack, p);
        }
        UncrossedByLevels(t, next);
        var later := Visit(t, true, next);
        KidsAre(d, t[d].names);
        forall p | p in later ensures kids != [] ==> |p| >= |d| + 1 {
          VisitMeets(t, next, p);
          if kids != [] {
            LaterIsLower(t, stack, p);
          }
        }
        hide Next, Kids, Level, Uncrossed, WellFormed, Antichain;
        LevelsJoin(kids, later, |d| + 1);
      } else {
        SkipTop(t, stack);
        LevelFront(t, stack);
        UncrossedByLevels(t, stack[..|stack| - 1]);
      }
    }
  }

  lemma LevelFront(t: Tree, stack: seq<Path>)
    requires stack != [] && Level(t, stack) && Uncrossed(t, stack)
    ensures Level(t, stack[..|stack| - 1]) && Uncrossed(t, stack[..|stack| - 1])
  {
    var front := stack[..|stack| - 1];
    forall p | UnderOne(front, p) ensures UnderOne(stack, p) {
      var i :| 0 <= i < |front| && Above(front[i], p);
      assert Above(stack[i], p);
    }
    hide Filled, Deep, Crossed, UnderOne;
  }

  // ---- With one of them it is not ----

  lemma AntichainParts(below: seq<Path>, above: seq<Path>)
    requires Antichain(below + above)
    ensures Antichain(below) && Antichain(above)
  {
    var stack := below + above;
    forall i, j | 0 <= i < |below| && 0 <= j < |below| && i != j ensures !Above(below[i], below[j]) {
      assert !Above(stack[i], stack[j]);
    }
    forall i, j | 0 <= i < |above| && 0 <= j < |above| && i != j ensures !Above(above[i], above[j]) {
      assert !Above(stack[|below| + i], stack[|below| + j]);
    }
  }

  lemma NextOfUpper(t: Tree, below: seq<Path>, above: seq<Path>)
    requires above != [] && IsDirectory(t, above[|above| - 1])
    ensures Next(t, true, below + above) == below + Next(t, true, above)
  {
    var stack := below + above;
    assert stack[..|stack| - 1] == below + above[..|above| - 1] && stack[|stack| - 1] == above[|above| - 1];
    hide Kids, Directories;
  }

  /** The upper part of the stack is walked completely before the lower one. */
  lemma {:induction false} UpperFirst(t: Tree, below: seq<Path>, above: seq<Path>)
    requires WellFormed(t) && Antichain(below + above)
    ensures Antichain(below) && Antichain(above)
    ensures Visit(t, true, below + above) == Visit(t, true, above) + Visit(t, true, below)
    decreases Under(t, above), |above|
  {
    hide WellFormed, Antichain, Next, Kids, Visit, Under, Directories;
    AntichainParts(below, above);
    var stack := below + above;
    if above == [] {
      NothingAbove(t, below);
    } else {
      var d := above[|above| - 1];
      assert stack[|stack| - 1] == d && stack[..|stack| - 1] == below + above[..|above| - 1];
      if IsDirectory(t, d) {
        NextOfUpper(t, below, above);
        VisitOpen(t, stack);
        VisitOpen(t, above);
        UpperFirst(t, below, Next(t, true, above));
        Associate(Kids(d, t[d].names), Visit(t, true, Next(t, true, above)), Visit(t, true, below));
      } else {
        VisitSkip(t, stack);
        VisitSkip(t, above);
        UpperFirst(t, below, above[..|above| - 1]);
      }
    }
  }

  lemma NothingAbove(t: Tree, below: seq<Path>)
    requires WellFormed(t) && Antichain(below)
    ensures below + [] == below && Antichain([]) && Visit(t, true, []) == []
    ensures [] + Visit(t, true, below) == Visit(t, true, below)
  {}

  lemma VisitOpen(t: Tree, stack: seq<Path>)
    requires WellFormed(t) && Antichain(stack) && stack != [] && IsDirectory(t, stack[|stack| - 1])
    ensures Antichain(Next(t, true, stack)) && Under(t, Next(t, true, stack)) < Under(t, stack)
    ensures Visit(t, true, stack) ==
            Kids(stack[|stack| - 1], t[stack[|stack| - 1]].names) + Visit(t, true, Next(t, true, stack))
  {
    Descend(t, true, stack);
    hide WellFormed, Antichain, Next, Kids;
  }

  lemma VisitSkip(t: Tree, stack: seq<Path>)
    requires WellFormed(t) && Antichain(stack) && stack != [] && !IsDirectory(t, stack[|stack| - 1])
    ensures Antichain(stack[..|stack| - 1]) && Under(t, stack[..|stack| - 1]) <= Under(t, stack)
    ensures Visit(t, true, stack) == Visit(t, true, stack[..|stack| - 1])
  {
    SkipTop(t, stack);
    hide WellFormed, Antichain;
  }

  lemma {:induction false} DirectoriesConcat(t: Tree, x: seq<Path>, y: seq<Path>)
    ensures Directories(t, x + y) == Directories(t, x) + Directories(t, y)
  {
    if x == [] {
      assert x + y == y;
    } else {
      assert (x + y)[1..] == x[1..] + y;
      DirectoriesConcat(t, x[1..], y);
    }
  }

  lemma VisitRoot(t: Tree, d: Path)
    requires WellFormed(t) && IsDirectory(t, d)
    ensures Antichain([d]) && Antichain(Directories(t, Kids(d, t[d].names)))
    ensures Visit(t, true, [d]) == Kids(d, t[d].names) + Visit(t, true, Directories(t, Kids(d, t[d].names)))
  {
    assert Next(t, true, [d]) == Directories(t, Kids(d, t[d].names));
    hide Kids, Directories, Next;
    Descend(t, true, [d]);
  }

  /** The walk of a directory is one piece of every walk that comes to it. */
  lemma {:induction false} WalkWithin(t: Tree, root: Path, d: Path) returns (pre: seq<Path>, post: seq<Path>)
    requires WellFormed(t) && IsDirectory(t, d) && Above(root, d)
    ensures Antichain([root]) && Antichain([d])
    ensures Visit(t, true, [root]) == pre + (Visit(t, true, [d]) + post)
    decreases |d| - |root|
  {
    if |root| == |d| {
      assert d[..|d|] == d;
      pre, post := [], [];
    } else {
      AboveIsDirectory(t, root, d);
      var k := StepDown(t, root, d);
      AboveIsDirectory(t, k, d);
      assert |k| > |root| by {
        KidsAre(root, t[root].names);
      }
      DirectoriesAre(t, Kids(root, t[root].names));
      var a, b := WalkOfEntry(t, root, k);
      var before, after := WalkWithin(t, k, d);
      hide *;
      pre, post := Kids(root, t[root].names) + Visit(t, true, b) + before, after + Visit(t, true, a);
      Nested(Kids(root, t[root].names), Visit(t, true, b), before, Visit(t, true, [d]), after, Visit(t, true, a));
    }
  }

  /** The walk of a directory found in another is one piece of its walk. */
  lemma WalkOfEntry(t: Tree, root: Path, k: Path) returns (a: seq<Path>, b: seq<Path>)
    requires WellFormed(t) && IsDirectory(t, root) && k in Directories(t, Kids(root, t[root].names))
    ensures Antichain([root]) && Antichain([k]) && Antichain(a) && Antichain(b)
    ensures Visit(t, true, [root]) ==
            Kids(root, t[root].names) + ((Visit(t, true, b) + Visit(t, true, [k])) + Visit(t, true, a))
  {
    VisitRoot(t, root);
    hide *;
    a, b := SplitAt(Directories(t, Kids(root, t[root].names)), k);
    UpperFirst(t, a, [k] + b);
    UpperFirst(t, [k], b);
  }

  lemma SplitAt<T>(s: seq<T>, e: T) returns (a: seq<T>, b: seq<T>)
    requires e in s
    ensures s == a + ([e] + b)
  {
    var i :| 0 <= i < |s| && s[i] == e;
    a, b := s[..i], s[i + 1..];
  }

  lemma Nested<T>(x: seq<T>, b: seq<T>, before: seq<T>, mid: seq<T>, after: seq<T>, a: seq<T>)
    ensures x + ((b + (before + (mid + after))) + a) == x + b + before + (mid + (after + a))
  {}

  /** Of a list by levels every piece is by levels, and what is earlier is no deeper. */
  lemma EarlierIsHigher(x: seq<Path>, y: seq<Path>, w: Path, u: Path)
    requires ByLevels(x + y) && w in x && u in y
    ensures |w| <= |u|
  {
    var i :| 0 <= i < |x| && x[i] == w;
    var j :| 0 <= j < |y| && y[j] == u;
    assert (x + y)[i] == w && (x + y)[|x| + j] == u;
  }

  lemma PieceByLevels(pre: seq<Path>, mid: seq<Path>, post: seq<Path>)
    requires ByLevels(pre + (mid + post))
    ensures ByLevels(mid)
  {
    var all := pre + (mid + post);
    forall i, j | 0 <= i < j < |mid| ensures |mid[i]| <= |mid[j]| {
      assert all[|pre| + i] == mid[i] && all[|pre| + j] == mid[j];
    }
  }

  /** An entry of a filled directory on the stack is met. */
  lemma FilledIsMet(t: Tree, stack: seq<Path>, a: nat, p: Path) returns (u: Path)
    requires WellFormed(t) && Antichain(stack) && a < |stack| && Filled(t, p) && Above(stack[a], p)
    ensures u in Visit(t, true, stack) && |u| == |p| + 1
  {
    u := Kids(p, t[p].names)[0];
    KidsAre(p, t[p].names);
    assert u in Kids(p, t[p].names);
    ChildOf(u);
    AboveChild(stack[a], p, Last(u));
    assert StrictlyAbove(stack[a], u);
    VisitMeets(t, stack, u);
  }

  lemma CrossedOutOfOrder(t: Tree, d: Path)
    requires WellFormed(t) && Crossed(t, d)
    ensures Antichain([d]) && !ByLevels(Visit(t, true, [d]))
  {
    var x, y, q, lower, upper := CrossedPlaces(t, d);
    hide *;
    VisitRoot(t, d);
    KidsDepth(t, d, x);
    KidsDepth(t, d, y);
    KidsDepth(t, y, q);
    DirectoriesConcat(t, lower, upper);
    UpperFirst(t, Directories(t, lower), Directories(t, upper));
    var u := KidOfOneIsMet(t, lower, x, x);
    var w := KidOfOneIsMet(t, upper, y, q);
    OutOfOrder(lower + upper, Visit(t, true, Directories(t, upper)), Visit(t, true, Directories(t, lower)), w, u);
  }

  lemma CrossedPlaces(t: Tree, d: Path)
    returns (x: Path, y: Path, q: Path, lower: seq<Path>, upper: seq<Path>)
    requires Crossed(t, d)
    ensures IsDirectory(t, d) && Kids(d, t[d].names) == lower + upper
    ensures x in lower && x in Kids(d, t[d].names) && IsDirectory(t, x) && Filled(t, x)
    ensures y in upper && y in Kids(d, t[d].names) && IsDirectory(t, y)
    ensures q in Kids(y, t[y].names) && Filled(t, q)
  {
    hide Kids, Filled;
    var kids := Kids(d, t[d].names);
    var i, j :| 0 <= i < j < |kids| && Filled(t, kids[i]) && Filled(t, kids[j]) && Deep(t, kids[j]);
    x, y := kids[i], kids[j];
    FilledIsDirectory(t, x);
    q :| q in Kids(y, t[y].names) && Filled(t, q);
    lower, upper := SplitBetween(kids, i, j);
  }

  lemma FilledIsDirectory(t: Tree, p: Path)
    requires Filled(t, p)
    ensures IsDirectory(t, p)
  {}

  lemma SplitBetween<T>(s: seq<T>, i: nat, j: nat) returns (lower: seq<T>, upper: seq<T>)
    requires i < j < |s|
    ensures s == lower + upper && s[i] in lower && s[j] in upper
  {
    lower, upper := s[..j], s[j..];
    assert lower[i] == s[i] && upper[0] == s[j];
  }

  lemma KidOfOneIsMet(t: Tree, ps: seq<Path>, x: Path, p: Path) returns (u: Path)
    requires WellFormed(t) && Antichain(Directories(t, ps)) && x in ps && IsDirectory(t, x)
    requires Filled(t, p) && Above(x, p)
    ensures u in Visit(t, true, Directories(t, ps)) && |u| == |p| + 1
  {
    DirectoriesAre(t, ps);
    var dirs := Directories(t, ps);
    var a :| 0 <= a < |dirs| && dirs[a] == x;
    hide *;
    u := FilledIsMet(t, dirs, a, p);
  }

  lemma OutOfOrder(kids: seq<Path>, x: seq<Path>, y: seq<Path>, w: Path, u: Path)
    requires w in x && u in y && |w| > |u|
    ensures !ByLevels(kids + (x + y))
  {
    hide ByLevels;
    if ByLevels(kids + (x + y)) {
      assert kids + (x + y) == kids + ((x + y) + []);
      PieceByLevels(kids, x + y, []);
      EarlierIsHigher(x, y, w, u);
    }
  }

  /** The walk is breadth first exactly when no directory in it has two filled directories
      of which the later has a filled directory in it. */
  lemma WhenByLevels(t: Tree, root: Path)
    requires WellFormed(t)
    ensures Antichain([root])
    ensures ByLevels(Visit(t, true, [root])) <==> forall d :: d in t && Above(root, d) ==> !Crossed(t, d)
  {
    hide WellFormed, Crossed, Visit, ByLevels;
    if d :| d in t && Above(root, d) && Crossed(t, d) {
      CrossedIsDirectory(t, d);
      CrossedOutOfOrder(t, d);
      var pre, post := WalkWithin(t, root, d);
      if ByLevels(Visit(t, true, [root])) {
        PieceByLevels(pre, Visit(t, true, [d]), post);
      }
    } else {
      forall d | d in t && UnderOne([root], d) ensures !Crossed(t, d) {
        assert Above(root, d);
      }
      UncrossedByLevels(t, [root]);
    }
  }

  lemma CrossedIsDirectory(t: Tree, d: Path)
    requires Crossed(t, d)
    ensures IsDirectory(t, d)
  {}

  // ---- A tree that is not walked by levels ----

  const A: Path := ["a"]
  const B: Path := ["b"]
  const AX: Path := ["a", "x"]
  const BY: Path := ["b", "y"]
  const BYZ: Path := ["b", "y", "z"]

  const EXAMPLE: Tree :=
    map[[] := Directory([".", "..", "a", "b"]), A := Directory([".", "..", "x"]), B := Directory(["..", ".", "y"]),
        AX := File, BY := Directory([".", "z", ".."]), BYZ := File]

  lemma ExampleLists(d: Path, n: string)
    requires IsDirectory(EXAMPLE, d) && n in EXAMPLE[d].names && !Dot(n)
    ensures Child(d, n) in EXAMPLE
  {
    if d == [] {
      assert n == "a" || n == "b";
      assert Child([], "a") == A && Child([], "b") == B;
    } else if d == A {
      assert n == "x";
      assert Child(A, "x") == AX;
    } else if d == B {
      assert n == "y";
      assert Child(B, "y") == BY;
    } else {
      assert d == BY && n == "z";
      assert Child(BY, "z") == BYZ;
    }
  }

  lemma ExampleParents(p: Path)
    requires p in EXAMPLE && p != []
    ensures IsDirectory(EXAMPLE, Parent(p)) && Last(p) in EXAMPLE[Parent(p)].names && PosixName(Last(p))
  {
    if p == A || p == B {
      assert Parent(p) == [];
      assert EXAMPLE[[]].names[2] == "a" && EXAMPLE[[]].names[3] == "b";
    } else if p == AX {
      assert Parent(p) == A;
      assert EXAMPLE[A].names[2] == "x";
    } else if p == BY {
      assert Parent(p) == B;
      assert EXAMPLE[B].names[2] == "y";
    } else {
      assert p == BYZ && Parent(p) == BY;
      assert EXAMPLE[BY].names[1] == "z";
    }
  }

  lemma ExampleIsWellFormed()
    ensures WellFormed(EXAMPLE)
  {
    forall d | IsDirectory(EXAMPLE, d) ensures Distinct(EXAMPLE[d].names) {
      assert d == [] || d == A || d == B || d == BY;
    }
    forall d, n | IsDirectory(EXAMPLE, d) && n in EXAMPLE[d].names && !Dot(n) ensures Child(d, n) in EXAMPLE {
      ExampleLists(d, n);
    }
    forall p | p in EXAMPLE && p != []
      ensures IsDirectory(EXAMPLE, Parent(p)) && Last(p) in EXAMPLE[Parent(p)].names && PosixName(Last(p))
    {
      ExampleParents(p);
    }
  }

  lemma DotKids(d: Path, names: seq<string>)
    requires |names| >= 2 && Dot(names[0]) && Dot(names[1])
    ensures Kids(d, names) == Kids(d, names[2..])
  {
    assert names[1..][0] == names[1] && names[1..][1..] == names[2..];
  }

  lemma {:induction false} KidsHave(d: Path, names: seq<string>, n: string)
    requires n in names && !Dot(n)
    ensures Child(d, n) in Kids(d, names)
  {
    if names[0] != n {
      KidsHave(d, names[1..], n);
    }
  }

  lemma FilledBy(t: Tree, d: Path, n: string)
    requires IsDirectory(t, d) && n in t[d].names && !Dot(n)
    ensures Filled(t, d) && Child(d, n) in Kids(d, t[d].names)
  {
    KidsHave(d, t[d].names, n);
    hide Kids, Child;
  }

  lemma KidsOfTwo(d: Path, n: string, m: string)
    requires !Dot(n) && !Dot(m)
    ensures Kids(d, [n, m]) == [Child(d, n), Child(d, m)]
  {
    assert [n, m][1..] == [m];
    assert Kids(d, [m]) == [Child(d, m)];
    hide Dot, Child;
  }

  lemma ExampleKids()
    ensures Kids([], EXAMPLE[[]].names) == [A, B]
  {
    var names := EXAMPLE[[]].names;
    assert names == [".", "..", "a", "b"] && names[2..] == ["a", "b"];
    assert Child([], "a") == A && Child([], "b") == B;
    hide EXAMPLE, Kids;
    DotKids([], names);
    KidsOfTwo([], "a", "b");
  }

  lemma ExampleIsFilled()
    ensures Filled(EXAMPLE, A) && Filled(EXAMPLE, B) && Filled(EXAMPLE, BY) && Deep(EXAMPLE, B)
  {
    assert EXAMPLE[A].names[2] == "x" && EXAMPLE[B].names[2] == "y" && EXAMPLE[BY].names[1] == "z";
    assert Child(B, "y") == BY;
    hide Kids, Filled;
    FilledBy(EXAMPLE, A, "x");
    FilledBy(EXAMPLE, B, "y");
    FilledBy(EXAMPLE, BY, "z");
  }

  lemma ExampleIsCrossed()
    ensures Crossed(EXAMPLE, [])
  {
    ExampleKids();
    ExampleIsFilled();
    hide Kids, Filled, Deep;
    var kids := Kids([], EXAMPLE[[]].names);
    assert kids[0] == A && kids[1] == B;
  }

  /** A tree, with its dot entries, whose walk is not breadth first. */
  lemma NotByLevels()
    ensures WellFormed(EXAMPLE) && Antichain([[]]) && !ByLevels(Visit(EXAMPLE, true, [[]]))
  {
    ExampleIsWellFormed();
    ExampleIsCrossed();
    hide WellFormed, Crossed, ByLevels, EXAMPLE;
    SelfAbove([]);
    WhenByLevels(EXAMPLE, []);
    CrossedIsDirectory(EXAMPLE, []);
  }
}
