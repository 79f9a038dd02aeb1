/** The directory iterator of kbase/file_iterator_posix.cpp and the recursive removal of
    kbase/file_util_posix.cpp over the trees of FileTree. */
module FileWalk {
  import opened Wrappers
  import opened Sequences
  import opened FileTree
  import opened FilePaths
  import Strings = Path

  datatype FileInfo = FileInfo(path: string, isDirectory: bool)

  // ---- The calls into the operating system ----

  /** Paths are strings without ".."; what they name is looked up in the tree. */
  class FileSystem {
    var tree: Tree

    constructor (tree: Tree)
      ensures this.tree == tree
    {
      this.tree := tree;
    }

    /** stat and lstat: whether it is a directory, if there is such a node. */
    method Stat(path: string) returns (isDirectory: Option<bool>)
      requires Direct(path)
      ensures isDirectory == if Exists(tree, path) then Some(IsDirectory(tree, Denoted(path))) else None
    {
      if Exists(tree, path) {
        isDirectory := Some(tree[Denoted(path)].Directory?);
      } else {
        isDirectory := None;
      }
    }

    /** opendir; the handle is what readdir has still to return. */
    method OpenDir(path: string) returns (handle: Option<seq<string>>)
      requires Direct(path)
      ensures handle == if IsDirectory(tree, Denoted(path)) then Some(tree[Denoted(path)].names) else None
    {
      var dir := Denoted(path);
      if dir in tree && tree[dir].Directory? {
        handle := Some(tree[dir].names);
      } else {
        handle := None;
      }
    }

    method Unlink(path: string) returns (ok: bool)
      requires Direct(path)
      modifies this
      ensures ok <==> Exists(old(tree), path) && old(tree)[Denoted(path)].File?
      ensures tree == if ok then Without(old(tree), {Denoted(path)}) else old(tree)
    {
      ok := Exists(tree, path) && tree[Denoted(path)].File?;
      if ok {
        tree := Without(tree, {Denoted(path)});
      }
    }

    /** rmdir; the root of the file system and "." cannot be removed. */
    method Rmdir(path: string) returns (ok: bool)
      requires Direct(path)
      modifies this
      ensures ok <==> Removable(path) && IsEmpty(old(tree), Denoted(path))
      ensures tree == if ok then Without(old(tree), {Denoted(path)}) else old(tree)
    {
      ok := Removable(path) && IsEmpty(tree, Denoted(path));
      if ok {
        tree := Without(tree, {Denoted(path)});
      }
    }
  }

  /** A file has no slash and no "." behind its name. */
  predicate Exists(t: Tree, path: string) {
    Denoted(path) in t && (t[Denoted(path)].File? ==> Bare(path))
  }

  predicate IsEmpty(t: Tree, p: Path) {
    IsDirectory(t, p) && forall n :: n in t[p].names ==> Dot(n)
  }

  // ---- The iterator ----

  /** The directory being read, what is left of its handle, and the directories still to be opened. */
  datatype Walk = Walk(dir: Path, handle: Option<seq<string>>, pending: seq<Path>)

  function Unread(w: Walk): seq<Path> {
    if w.handle.None? then [] else Kids(w.dir, w.handle.value)
  }

  /** The stack of directories once the open one has been read. */
  function Agenda(t: Tree, recursive: bool, w: Walk): seq<Path> {
    w.pending + if recursive then Directories(t, Unread(w)) else []
  }

  /** The entries that are still to come. */
  ghost function Remaining(t: Tree, recursive: bool, w: Walk): seq<Path>
    requires WellFormed(t) && Antichain(Agenda(t, recursive, w))
  {
    Unread(w) + Visit(t, recursive, Agenda(t, recursive, w))
  }

  /** How far a walk is from its end. */
  ghost function Distance(w: Walk): nat {
    |w.pending| + |w.pending| + if w.handle.Some? then 1 + |w.handle.value| else 0
  }

  lemma OpenStep(t: Tree, recursive: bool, w: Walk)
    requires WellFormed(t) && w.handle.None? && w.pending != [] && Antichain(Agenda(t, recursive, w))
    ensures var n := |w.pending| - 1;
            var d := w.pending[n];
            var v := Walk(d, if IsDirectory(t, d) then Some(t[d].names) else None, w.pending[..n]);
            && Antichain(Agenda(t, recursive, v)) && Remaining(t, recursive, v) == Remaining(t, recursive, w)
            && Under(t, Agenda(t, recursive, v)) <= Under(t, Agenda(t, recursive, w))
            && (if v.handle.Some? then Under(t, Agenda(t, recursive, v)) < Under(t, Agenda(t, recursive, w))
                else Distance(v) < Distance(w))
  {
    var stack := w.pending;
    assert Agenda(t, recursive, w) == stack;
    if IsDirectory(t, stack[|stack| - 1]) {
      Descend(t, recursive, stack);
    } else {
      SkipTop(t, stack);
      assert Agenda(t, recursive, Walk(stack[|stack| - 1], None, stack[..|stack| - 1])) == stack[..|stack| - 1];
    }
  }

  lemma CloseStep(t: Tree, recursive: bool, w: Walk)
    requires WellFormed(t) && Antichain(Agenda(t, recursive, w)) && w.handle == Some([])
    ensures var v := w.(handle := None);
            && Agenda(t, recursive, v) == Agenda(t, recursive, w)
            && Remaining(t, recursive, v) == Remaining(t, recursive, w) && Distance(v) < Distance(w)
  {}

  /** The walk after a name has been read. */
  function AfterRead(t: Tree, recursive: bool, w: Walk): Walk
    requires w.handle.Some? && w.handle.value != []
  {
    var name := w.handle.value[0];
    var found := if !Dot(name) && recursive && IsDirectory(t, Child(w.dir, name)) then [Child(w.dir, name)] else [];
    Walk(w.dir, Some(w.handle.value[1..]), w.pending + found)
  }

  /** Reading a name: "." and ".." are passed over, another one is the next entry. */
  lemma ReadStep(t: Tree, recursive: bool, w: Walk)
    requires WellFormed(t) && Antichain(Agenda(t, recursive, w)) && w.handle.Some? && w.handle.value != []
    ensures var v := AfterRead(t, recursive, w);
            && Agenda(t, recursive, v) == Agenda(t, recursive, w)
            && Remaining(t, recursive, w) ==
               (if Dot(w.handle.value[0]) then [] else [Child(w.dir, w.handle.value[0])]) + Remaining(t, recursive, v)
  {
    hide *;
    var v := AfterRead(t, recursive, w);
    UnreadStep(t, recursive, w);
    RemainingIs(t, recursive, w);
    RemainingIs(t, recursive, v);
    Associate(if Dot(w.handle.value[0]) then [] else [Child(w.dir, w.handle.value[0])],
              Unread(v), Visit(t, recursive, Agenda(t, recursive, v)));
  }

  lemma RemainingIs(t: Tree, recursive: bool, w: Walk)
    requires WellFormed(t) && Antichain(Agenda(t, recursive, w))
    ensures Remaining(t, recursive, w) == Unread(w) + Visit(t, recursive, Agenda(t, recursive, w))
  {}

  lemma UnreadStep(t: Tree, recursive: bool, w: Walk)
    requires w.handle.Some? && w.handle.value != []
    ensures var v := AfterRead(t, recursive, w);
            && Agenda(t, recursive, v) == Agenda(t, recursive, w)
            && Unread(w) == (if Dot(w.handle.value[0]) then [] else [Child(w.dir, w.handle.value[0])]) + Unread(v)
  {
    var name, v := w.handle.value[0], AfterRead(t, recursive, w);
    var path := Child(w.dir, name);
    KidsStep(w.dir, w.handle.value);
    hide Kids, Dot, Child;
    if Dot(name) {
      assert v.pending == w.pending && Unread(v) == Unread(w);
    } else {
      DirectoriesStep(t, path, Unread(v));
      hide Directories, IsDirectory;
      if recursive {
        Associate(w.pending, if IsDirectory(t, path) then [path] else [], Directories(t, Unread(v)));
      } else {
        assert v.pending == w.pending;
      }
    }
  }

  lemma KidsStep(dir: Path, names: seq<string>)
    requires names != []
    ensures Kids(dir, names) == (if Dot(names[0]) then [] else [Child(dir, names[0])]) + Kids(dir, names[1..])
    ensures Dot(names[0]) ==> Kids(dir, names) == Kids(dir, names[1..])
  {}

  lemma DirectoriesStep(t: Tree, p: Path, ps: seq<Path>)
    ensures Directories(t, [p] + ps) == (if IsDirectory(t, p) then [p] else []) + Directories(t, ps)
  {
    assert ([p] + ps)[1..] == ps;
  }

  lemma AtStart(t: Tree, recursive: bool, dir: Path, path: Path)
    requires WellFormed(t)
    ensures Antichain([path])
    ensures var w := Walk(dir, None, [path]);
            Agenda(t, recursive, w) == [path] && Remaining(t, recursive, w) == Visit(t, recursive, [path])
  {}

  lemma AtEnd(t: Tree, recursive: bool, w: Walk)
    requires WellFormed(t) && w.handle.None? && w.pending == []
    ensures Antichain(Agenda(t, recursive, w)) && Remaining(t, recursive, w) == []
  {
    assert Agenda(t, recursive, w) == [];
  }

  // ---- Its strings ----

  function Nodes(paths: seq<string>): (r: seq<Path>)
    ensures |r| == |paths|
  {
    seq(|paths|, i requires 0 <= i < |paths| => Denoted(paths[i]))
  }

  lemma NodesAppend(x: seq<string>, y: seq<string>)
    ensures Nodes(x + y) == Nodes(x) + Nodes(y)
  {
    hide Denoted;
  }

  lemma NodesOne(path: string)
    ensures Nodes([path]) == [Denoted(path)]
  {
    hide Denoted;
  }

  lemma NodesFront(paths: seq<string>)
    requires paths != []
    ensures var n := |paths| - 1; Nodes(paths[..n]) == Nodes(paths)[..n] && Nodes(paths)[n] == Denoted(paths[n])
  {
    hide Denoted;
  }

  /** What is still to be opened leads to right strings. */
  ghost predicate PendingNamed(t: Tree, checked: bool, recursive: bool, pending: seq<string>) {
    forall i :: 0 <= i < |pending| ==> Direct(pending[i]) && WellNamed(t, pending[i], checked, recursive)
  }

  /** So does what is still to be read. */
  ghost predicate OpenNamed(t: Tree, checked: bool, recursive: bool, dir: string, names: seq<string>) {
    && Direct(dir) && (recursive ==> WellNamed(t, dir, checked, true))
    && forall n :: n in names && !Dot(n) ==> JoinsWell(dir) && PosixName(n) && !(checked && Strings.Absolute(n))
  }

  ghost predicate Named(t: Tree, checked: bool, recursive: bool, dir: string, handle: Option<seq<string>>,
                        pending: seq<string>)
  {
    && PendingNamed(t, checked, recursive, pending)
    && (handle.Some? ==> OpenNamed(t, checked, recursive, dir, handle.value))
  }

  lemma OpenedNamed(t: Tree, checked: bool, recursive: bool, path: string)
    requires WellFormed(t) && Direct(path) && WellNamed(t, path, checked, recursive)
    requires IsDirectory(t, Denoted(path))
    ensures OpenNamed(t, checked, recursive, path, t[Denoted(path)].names)
  {
    hide WellFormed, Direct, WellNamed, Denoted, JoinsWell, PosixName, Strings.Absolute;
    forall n | n in t[Denoted(path)].names && !Dot(n)
      ensures JoinsWell(path) && PosixName(n) && !(checked && Strings.Absolute(n))
    {
      EntriesJoin(t, path, checked, recursive, n);
    }
  }

  lemma ReadNamed(t: Tree, checked: bool, recursive: bool, dir: string, names: seq<string>)
    requires WellFormed(t) && OpenNamed(t, checked, recursive, dir, names) && names != []
    ensures OpenNamed(t, checked, recursive, dir, names[1..])
    ensures var n, e := names[0], Strings.Appended(dir, names[0]);
            !Dot(n) ==>
              && JoinsWell(dir) && PosixName(n) && !(checked && Strings.Absolute(n))
              && Stands(e, Child(Denoted(dir), n))
              && (recursive ==> WellNamed(t, e, checked, true))
  {
    hide WellFormed, Direct, WellNamed, Denoted, JoinsWell, PosixName, Strings.Absolute, Strings.Appended, Bare;
    assert names[0] in names;
    assert forall n :: n in names[1..] ==> n in names;
    if !Dot(names[0]) {
      EntryIs(dir, names[0]);
      if recursive {
        WalkGoesOn(t, dir, checked, names[0]);
      }
    }
  }

  lemma OpensNamed(t: Tree, checked: bool, recursive: bool, dir: string, pending: seq<string>)
    requires WellFormed(t) && Named(t, checked, recursive, dir, None, pending) && pending != []
    ensures var n := |pending| - 1;
            var d := Denoted(pending[n]);
            var handle := if IsDirectory(t, d) then Some(t[d].names) else None;
            Direct(pending[n]) && Named(t, checked, recursive, pending[n], handle, pending[..n])
  {
    hide WellFormed, Direct, WellNamed, Denoted, OpenNamed;
    var path := pending[|pending| - 1];
    if IsDirectory(t, Denoted(path)) {
      OpenedNamed(t, checked, recursive, path);
    }
  }

  lemma ReadsNamed(t: Tree, checked: bool, recursive: bool, dir: string, names: seq<string>, pending: seq<string>)
    requires WellFormed(t) && Named(t, checked, recursive, dir, Some(names), pending) && names != []
    ensures Named(t, checked, recursive, dir, Some(names[1..]), pending)
    ensures var e := Strings.Appended(dir, names[0]);
            !Dot(names[0]) ==>
              && !(checked && Strings.Absolute(names[0])) && Stands(e, Child(Denoted(dir), names[0])) && Direct(e)
              && (recursive ==> Named(t, checked, recursive, dir, Some(names[1..]), pending + [e]))
  {
    hide WellFormed, Direct, WellNamed, Denoted, OpenNamed, JoinsWell, PosixName, Strings.Absolute, Strings.Appended,
         Bare;
    ReadNamed(t, checked, recursive, dir, names);
  }

  /** The walk after a name has been read, with the strings of the iterator. */
  lemma AfterReadIs(t: Tree, recursive: bool, dir: string, names: seq<string>, pending: seq<string>)
    requires names != []
    ensures var w := Walk(Denoted(dir), Some(names), Nodes(pending));
            var e, c := Strings.Appended(dir, names[0]), Child(Denoted(dir), names[0]);
            && (Dot(names[0]) ==> AfterRead(t, recursive, w) == w.(handle := Some(names[1..])))
            && (!Dot(names[0]) && Stands(e, c) ==>
                  var more := if recursive && IsDirectory(t, c) then pending + [e] else pending;
                  AfterRead(t, recursive, w) == Walk(Denoted(dir), Some(names[1..]), Nodes(more)))
    ensures Distance(AfterRead(t, recursive, Walk(Denoted(dir), Some(names), Nodes(pending)))) <
            Distance(Walk(Denoted(dir), Some(names), Nodes(pending))) || !Dot(names[0])
  {
    hide Denoted, Nodes, Dot, Strings.Appended, Bare, Direct;
    var e := Strings.Appended(dir, names[0]);
    NodesAppend(pending, [e]);
    NodesOne(e);
  }

  lemma ClosesNamed(t: Tree, checked: bool, recursive: bool, dir: string, pending: seq<string>)
    requires Named(t, checked, recursive, dir, Some([]), pending)
    ensures Named(t, checked, recursive, dir, None, pending)
  {}

  lemma StandsFor(t: Tree, path: string, p: Path)
    requires Stands(path, p)
    ensures Denoted(path) == p && Direct(path) && (Exists(t, path) <==> p in t)
  {}

  lemma NamedInFewer(t: Tree, u: Tree, checked: bool, recursive: bool, dir: string, handle: Option<seq<string>>,
                     pending: seq<string>)
    requires Named(t, checked, recursive, dir, handle, pending) && u.Keys <= t.Keys
    ensures Named(u, checked, recursive, dir, handle, pending)
  {
    hide Direct, WellNamed, JoinsWell, PosixName, Strings.Absolute;
    forall i | 0 <= i < |pending| ensures WellNamed(u, pending[i], checked, recursive) {
      FewerNamed(t, u, pending[i], checked, recursive);
    }
    if handle.Some? && recursive {
      FewerNamed(t, u, dir, checked, true);
    }
  }

  /** The string that stands for an entry. */
  predicate Stands(path: string, p: Path) {
    Denoted(path) == p && Bare(path) && Direct(path)
  }

  class FileIterator {
    const fs: FileSystem
    const recursive: bool
    /** Whether Append checks that names do not begin with a separator, as it does in debug builds. */
    const checked: bool
    var dir: string
    var pending: seq<string>
    var handle: Option<seq<string>>
    var curEntry: FileInfo

    ghost function Here(): Walk
      reads this
    {
      Walk(Denoted(dir), handle, Nodes(pending))
    }

    ghost predicate Valid()
      reads this, fs
    {
      && WellFormed(fs.tree) && Antichain(Agenda(fs.tree, recursive, Here()))
      && Named(fs.tree, checked, recursive, dir, handle, pending)
    }

    /** The entries that come after the current one. */
    ghost function Rest(): seq<Path>
      reads this, fs
      requires Valid()
    {
      Remaining(fs.tree, recursive, Here())
    }

    /** The iterator has moved to the first of `entries`, or to the end when there is none. */
    ghost predicate Moved(entries: seq<Path>)
      reads this, fs
      requires Valid()
    {
      if entries == [] then handle.None? && pending == []
      else
        && handle.Some? && Stands(curEntry.path, entries[0])
        && curEntry.isDirectory == IsDirectory(fs.tree, entries[0])
        && Rest() == entries[1..]
    }

    constructor (fs: FileSystem, path: string, recursive: bool, checked: bool)
      requires WellFormed(fs.tree) && Direct(path) && WellNamed(fs.tree, path, checked, recursive)
      ensures this.fs == fs && this.recursive == recursive && this.checked == checked
      ensures Antichain([Denoted(path)]) && Valid() && Moved(Visit(fs.tree, recursive, [Denoted(path)]))
    {
      hide WellFormed, Antichain, Visit, Denoted, WellNamed, Direct, Agenda, Remaining;
      this.fs := fs;
      this.recursive := recursive;
      this.checked := checked;
      dir := "";
      handle := None;
      pending := [path];
      curEntry := FileInfo("", false);
      new;
      AtStart(fs.tree, recursive, Denoted(dir), Denoted(path));
      NodesOne(path);
      GetNext();
    }

    /** The path of an entry of the open directory, made with AppendWith, and what lstat says of it. */
    method Entry(name: string) returns (path: string, isDirectory: bool)
      requires !(checked && Strings.Absolute(name))
      requires Stands(Strings.Appended(dir, name), Child(Denoted(dir), name))
      ensures path == Strings.Appended(dir, name)
      ensures isDirectory == IsDirectory(fs.tree, Child(Denoted(dir), name))
    {
      hide Denoted, Bare, Direct, Strings.Appended, Strings.Absolute;
      var joined := new Strings.Path(dir);
      var ok := joined.Append(name, checked);
      assert ok;
      path := joined.value;
      StandsFor(fs.tree, path, Child(Denoted(dir), name));
      var found := fs.Stat(path);
      isDirectory := found == Some(true);
    }

    /** What the directories still to be opened hold. */
    ghost function Left(): set<Path>
      reads this, fs
    {
      Under(fs.tree, Agenda(fs.tree, recursive, Here()))
    }

    /** The last pending directory is opened, or skipped when that fails. */
    method OpenNext()
      requires Valid() && handle.None? && pending != []
      modifies this
      ensures Valid() && Rest() == old(Rest())
      ensures if handle.Some? then Left() < old(Left())
              else Left() <= old(Left()) && Distance(Here()) < old(Distance(Here()))
    {
      hide WellFormed, Antichain, Visit, Agenda, Unread, Under, Remaining, Denoted, Nodes, Named, Direct;
      OpenStep(fs.tree, recursive, Here());
      OpensNamed(fs.tree, checked, recursive, dir, pending);
      NodesFront(pending);
      dir := pending[|pending| - 1];
      pending := pending[..|pending| - 1];
      handle := fs.OpenDir(dir);
    }

    /** One readdir: an entry, or nothing when the directory is at its end or the name is "." or "..". */
    method ReadNext() returns (found: bool)
      requires Valid() && handle.Some?
      modifies this
      ensures Valid()
      ensures found ==> old(Rest()) != [] && Moved(old(Rest()))
      ensures !found ==> Rest() == old(Rest()) && Left() == old(Left()) && Distance(Here()) < old(Distance(Here()))
    {
      hide WellFormed, Antichain, Visit, Agenda, Unread, Under, Remaining, Child, Denoted, Nodes, Named, Stands, Dot,
           AfterRead, Strings.Appended, Strings.Absolute;
      if handle.value == [] {
        CloseStep(fs.tree, recursive, Here());
        ClosesNamed(fs.tree, checked, recursive, dir, pending);
        handle := None;
        return false;
      }
      var name := handle.value[0];
      ReadStep(fs.tree, recursive, Here());
      ReadsNamed(fs.tree, checked, recursive, dir, handle.value, pending);
      AfterReadIs(fs.tree, recursive, dir, handle.value, pending);
      handle := Some(handle.value[1..]);
      if Dot(name) {
        return false;
      }
      var path, isDirectory := Entry(name);
      if recursive && isDirectory {
        pending := pending + [path];
      }
      curEntry := FileInfo(path, isDirectory);
      found := true;
    }

    method GetNext()
      requires Valid()
      modifies this
      ensures Valid() && Moved(old(Rest()))
    {
      hide WellFormed, Antichain, Visit, Agenda, Under, Remaining, Denoted, Nodes, Named, Stands, Distance;
      while pending != [] || handle.Some?
        invariant Valid() && Rest() == old(Rest())
        decreases Left(), Distance(Here())
      {
        if handle.None? {
          OpenNext();
          if handle.None? {
            continue;
          }
        }
        var found := ReadNext();
        if found {
          return;
        }
      }
      AtEnd(fs.tree, recursive, Here());
    }
  }

  /** Everything an iteration yields, from begin to end. */
  method Entries(fs: FileSystem, path: string, recursive: bool, checked: bool) returns (entries: seq<FileInfo>)
    requires WellFormed(fs.tree) && Direct(path) && WellNamed(fs.tree, path, checked, recursive)
    ensures Antichain([Denoted(path)]) && Nodes(Paths(entries)) == Visit(fs.tree, recursive, [Denoted(path)])
    ensures forall e :: e in entries ==> Bare(e.path) && e.isDirectory == IsDirectory(fs.tree, Denoted(e.path))
  {
    hide WellFormed, Antichain, Visit, Remaining, Agenda, IsDirectory, Denoted, Nodes, Paths, Bare, Direct, WellNamed,
         Named;
    entries := [];
    var it := new FileIterator(fs, path, recursive, checked);
    ghost var t, goal := fs.tree, Visit(fs.tree, recursive, [Denoted(path)]);
    NothingYielded();
    while it.handle.Some?
      invariant fresh(it) && it.fs == fs && it.recursive == recursive && fs.tree == t && it.Valid()
      invariant it.handle.None? ==> it.pending == [] && Nodes(Paths(entries)) == goal
      invariant it.handle.Some? ==>
                  && Nodes(Paths(entries)) + [Denoted(it.curEntry.path)] + it.Rest() == goal
                  && Bare(it.curEntry.path) && it.curEntry.isDirectory == IsDirectory(t, Denoted(it.curEntry.path))
      invariant forall e :: e in entries ==> Bare(e.path) && e.isDirectory == IsDirectory(t, Denoted(e.path))
      decreases it.handle.Some?, if it.handle.Some? then |it.Rest()| else 0
    {
      ghost var rest := it.Rest();
      PathsLast(entries, it.curEntry);
      entries := entries + [it.curEntry];
      it.GetNext();
      assert rest != [] ==> rest == [Denoted(it.curEntry.path)] + it.Rest();
    }
  }

  function Paths(entries: seq<FileInfo>): seq<string> {
    if entries == [] then [] else [entries[0].path] + Paths(entries[1..])
  }

  lemma NothingYielded()
    ensures Nodes(Paths([])) == []
  {}

  lemma PathsLast(entries: seq<FileInfo>, e: FileInfo)
    ensures Nodes(Paths(entries + [e])) == Nodes(Paths(entries)) + [Denoted(e.path)]
  {
    LastPath(entries, e);
    hide *;
    NodesAppend(Paths(entries), [e.path]);
    NodesOne(e.path);
  }

  lemma {:induction false} LastPath(entries: seq<FileInfo>, e: FileInfo)
    ensures Paths(entries + [e]) == Paths(entries) + [e.path]
  {
    if entries != [] {
      assert (entries + [e])[1..] == entries[1..] + [e];
      LastPath(entries[1..], e);
    }
  }

  /** A recursive iteration yields everything inside the directory once, directories before what is in them,
      and what is in one directory together. */
  lemma IterationIsComplete(t: Tree, root: Path)
    requires WellFormed(t)
    ensures Antichain([root])
    ensures var met := Visit(t, true, [root]);
            && Distinct(met) && ParentsFirst([root], met) && Together(met)
            && forall p :: p in met <==> p in t && StrictlyAbove(root, p)
  {
    VisitIsDistinct(t, [root]);
    VisitIsOrdered(t, [root]);
    forall p ensures p in Visit(t, true, [root]) <==> p in t && StrictlyAbove(root, p) {
      VisitMeets(t, [root], p);
      assert InsideOne([root], p) <==> StrictlyAbove([root][0], p);
    }
  }

  // ---- Recursive removal ----

  /** Taking away a file that has been met does not change what is still to come. */
  lemma FileGone(t: Tree, w: Walk, p: Path)
    requires WellFormed(t) && p in t && t[p].File? && Antichain(Agenda(t, true, w)) && p !in Remaining(t, true, w)
    ensures var u := Without(t, {p});
            && WellFormed(u) && Agenda(u, true, w) == Agenda(t, true, w)
            && Remaining(u, true, w) == Remaining(t, true, w)
  {
    var u, agenda := Without(t, {p}), Agenda(t, true, w);
    assert Closed(t, {p}) by {
      forall q | q in t && q != [] ensures Parent(q) != p {
        ParentIsDirectory(t, q);
      }
    }
    WithoutIsWellFormed(t, {p});
    VisitMeets(t, agenda, p);
    WithoutAgrees(t, {p}, agenda);
    SameDirectories(t, u, Unread(w));
    hide WellFormed, Without, Visit;
    SameVisit(t, u, true, agenda);
  }

  function Files(t: Tree, ps: seq<Path>): set<Path> {
    set p | p in ps && !IsDirectory(t, p)
  }

  /** A file or an empty directory is a whole subtree. */
  lemma BareSubtree(t: Tree, p: Path)
    requires WellFormed(t) && p in t
    requires t[p].Directory? ==> forall n :: n in t[p].names ==> Dot(n)
    ensures Subtree(t, p) == {p}
  {
    forall q | q in t && Above(p, q) ensures q == p {
      if |q| == |p| {
        assert q[..|q|] == q;
      } else {
        AboveIsDirectory(t, p, q);
        var k := StepDown(t, p, q);
        KidsAre(p, t[p].names);
      }
    }
    assert p[..|p|] == p;
  }

  /** The stack of RemoveFile: the directory it was given, then entries. */
  predicate Stack(path: string, directories: seq<string>) {
    && directories != [] && directories[0] == path
    && (forall i :: 0 <= i < |directories| ==> Direct(directories[i]))
    && (forall i :: 0 < i < |directories| ==> Removable(directories[i]))
  }

  /** The first loop: the files are unlinked as they are met, the directories are put on a stack. */
  method UnlinkFiles(fs: FileSystem, path: string, checked: bool) returns (directories: seq<string>)
    requires WellFormed(fs.tree) && IsDirectory(fs.tree, Denoted(path))
    requires Direct(path) && WellNamed(fs.tree, path, checked, true)
    modifies fs
    ensures Antichain([Denoted(path)]) && Stack(path, directories)
    ensures var met := Visit(old(fs.tree), true, [Denoted(path)]);
            && Nodes(directories) == [Denoted(path)] + Directories(old(fs.tree), met)
            && fs.tree == Without(old(fs.tree), Files(old(fs.tree), met))
  {
    hide WellFormed, Without, Antichain, Visit, Files, Directories, Remaining, Agenda, IsDirectory, MetOnce, Denoted,
         Nodes, Bare, Direct, Removable, WellNamed, Named;
    ghost var t, root := fs.tree, Denoted(path);
    NothingMet(t);
    WalkMeetsOnce(t, root);
    ghost var met, k := Visit(t, true, [root]), 0;
    directories := [path];
    NodesOne(path);
    var it := new FileIterator(fs, path, true, checked);
    while it.handle.Some?
      invariant fresh(it) && it.fs == fs && it.recursive && it.Valid() && k <= |met|
      invariant Nodes(directories) == [root] + Directories(t, met[..k]) && Stack(path, directories)
      invariant fs.tree == Without(t, Files(t, met[..k]))
      invariant it.handle.None? ==> k == |met|
      invariant it.handle.Some? ==> k < |met| && it.Rest() == met[k + 1..] && Stands(it.curEntry.path, met[k]) &&
                                    it.curEntry.isDirectory == IsDirectory(t, met[k])
      decreases |met| - k
    {
      ghost var p := met[k];
      MeetOne(t, met, k);
      if it.curEntry.isDirectory {
        Pushed(path, directories, it.curEntry.path);
        directories := directories + [it.curEntry.path];
      } else {
        var ok := UnlinkMet(fs, it, p, Files(t, met[..k]), t);
        if !ok {
          return;
        }
      }
      k := k + 1;
      it.GetNext();
      if k < |met| {
        NotYetGone(t, met, k);
      }
    }
    assert met[..k] == met;
  }

  lemma Pushed(path: string, directories: seq<string>, entry: string)
    requires Stack(path, directories) && Bare(entry) && Direct(entry)
    ensures Stack(path, directories + [entry])
    ensures Nodes(directories + [entry]) == Nodes(directories) + [Denoted(entry)]
  {
    NodesAppend(directories, [entry]);
    NodesOne(entry);
    hide Nodes, Denoted, Direct;
  }

  /** A file that has been met is unlinked. */
  method UnlinkMet(fs: FileSystem, it: FileIterator, ghost p: Path, ghost gone: set<Path>, ghost t: Tree)
    returns (ok: bool)
    requires it.fs == fs && it.recursive && it.Valid() && fs.tree == Without(t, gone)
    requires Stands(it.curEntry.path, p) && p in fs.tree && fs.tree[p].File? && p !in it.Rest()
    modifies fs
    ensures ok && fs.tree == Without(t, gone + {p})
    ensures it.Valid() && it.Rest() == old(it.Rest())
  {
    hide WellFormed, Without, Antichain, Visit, Remaining, Agenda, Denoted, Bare, Direct, Named;
    ghost var before := fs.tree;
    FileGone(fs.tree, it.Here(), p);
    ok := fs.Unlink(it.curEntry.path);
    LessIsLeft(before, {p});
    NamedInFewer(before, fs.tree, it.checked, true, it.dir, it.handle, it.pending);
    WithoutTwice(t, gone, {p});
  }

  lemma LessIsLeft(t: Tree, gone: set<Path>)
    ensures Without(t, gone).Keys <= t.Keys
  {}

  lemma NothingMet(t: Tree)
    ensures Directories(t, []) == [] && Files(t, []) == {} && Without(t, {}) == t
  {
    forall p | p in t && t[p].Directory? ensures Keep(p, t[p].names, {}) == t[p].names {
      KeepAre(p, t[p].names, {});
    }
  }

  ghost predicate MetOnce(t: Tree, met: seq<Path>) {
    Distinct(met) && forall p :: p in met ==> p in t
  }

  lemma WalkMeetsOnce(t: Tree, root: Path)
    requires WellFormed(t)
    ensures Antichain([root]) && MetOnce(t, Visit(t, true, [root]))
  {
    IterationIsComplete(t, root);
  }

  /** One more entry of a walk. */
  lemma MeetOne(t: Tree, met: seq<Path>, k: nat)
    requires k < |met| && MetOnce(t, met)
    ensures var p, gone := met[k], Files(t, met[..k]);
            && met[..k + 1] == met[..k] + [p] && p !in met[k + 1..]
            && Directories(t, met[..k + 1]) == Directories(t, met[..k]) + (if IsDirectory(t, p) then [p] else [])
            && Files(t, met[..k + 1]) == (if IsDirectory(t, p) then gone else gone + {p})
            && (!IsDirectory(t, p) ==> p in Without(t, gone) && Without(t, gone)[p].File?)
  {
    DirectoriesAppend(t, met[..k], met[k]);
    assert met[..k + 1] == met[..k] + [met[k]];
  }

  lemma NotYetGone(t: Tree, met: seq<Path>, k: nat)
    requires k < |met| && MetOnce(t, met)
    ensures IsDirectory(Without(t, Files(t, met[..k])), met[k]) == IsDirectory(t, met[k])
  {}

  /** What is gone when the stack of directories is down to m: the files and the directories popped. */
  ghost function GoneAt(t: Tree, met: seq<Path>, dirs: seq<Path>, m: nat): set<Path>
    requires m <= |dirs|
  {
    Files(t, met) + set p | p in dirs[m..]
  }

  /** The stack of directories: parents below what is in them, each once. */
  lemma StackOfDirectories(t: Tree, root: Path)
    requires WellFormed(t) && IsDirectory(t, root)
    ensures Antichain([root])
    ensures var dirs := [root] + Directories(t, Visit(t, true, [root]));
            && Distinct(dirs)
            && (forall p :: p in dirs <==> IsDirectory(t, p) && Above(root, p))
            && (forall j :: 0 < j < |dirs| ==> dirs[j] != [] && Parent(dirs[j]) in dirs[..j])
  {
    IterationIsComplete(t, root);
    var met := Visit(t, true, [root]);
    DirectoriesAre(t, met);
    forall p | p in met ensures p != [] && IsDirectory(t, Parent(p)) {
      ParentIsDirectory(t, p);
    }
    DirectoryParentsFirst(t, root, met, |met|);
    assert met[..|met|] == met;
    hide WellFormed, Visit, Directories, ParentsFirst, Together;
    var dirs := [root] + Directories(t, met);
    SameLength(root);
    assert root !in met;
    DistinctAppend([root], Directories(t, met));
  }

  lemma SameLength(root: Path)
    ensures Above(root, root) && !StrictlyAbove(root, root)
    ensures forall p :: Above(root, p) && p != root ==> StrictlyAbove(root, p)
  {
    forall p | Above(root, p) && p != root ensures StrictlyAbove(root, p) {
      assert p[..|p|] == p;
    }
  }

  /** The directory on top of the stack has been emptied. */
  lemma TopIsEmpty(t: Tree, root: Path, dirs: seq<Path>, m: nat)
    requires WellFormed(t) && IsDirectory(t, root)
    requires Antichain([root]) && dirs == [root] + Directories(t, Visit(t, true, [root])) && 0 < m <= |dirs|
    ensures var u := Without(t, GoneAt(t, Visit(t, true, [root]), dirs, m));
            IsEmpty(u, dirs[m - 1])
  {
    var met, d := Visit(t, true, [root]), dirs[m - 1];
    var gone := GoneAt(t, met, dirs, m);
    StackOfDirectories(t, root);
    assert d in dirs;
    assert d !in gone by {
      hide *;
      TopIsThere(t, met, dirs, m);
    }
    hide WellFormed, Visit, Directories, Distinct, Antichain, GoneAt, Above, IsEmpty;
    forall n | n in t[d].names && !Dot(n) ensures Child(d, n) in gone {
      KidIsGone(t, root, dirs, m, n);
    }
    EmptiedBy(t, d, gone);
  }

  lemma EmptiedBy(t: Tree, d: Path, gone: set<Path>)
    requires IsDirectory(t, d) && d !in gone
    requires forall n :: n in t[d].names && !Dot(n) ==> Child(d, n) in gone
    ensures IsEmpty(Without(t, gone), d)
  {
    KeepAre(d, t[d].names, gone);
    hide Keep, Dot, Child, Distinct;
  }

  lemma TopIsThere(t: Tree, met: seq<Path>, dirs: seq<Path>, m: nat)
    requires 0 < m <= |dirs| && Distinct(dirs) && IsDirectory(t, dirs[m - 1])
    ensures dirs[m - 1] !in GoneAt(t, met, dirs, m)
  {}

  lemma KidIsGone(t: Tree, root: Path, dirs: seq<Path>, m: nat, n: string)
    requires WellFormed(t) && IsDirectory(t, root)
    requires Antichain([root]) && dirs == [root] + Directories(t, Visit(t, true, [root])) && 0 < m <= |dirs|
    requires IsDirectory(t, dirs[m - 1]) && Above(root, dirs[m - 1]) && n in t[dirs[m - 1]].names && !Dot(n)
    ensures Child(dirs[m - 1], n) in GoneAt(t, Visit(t, true, [root]), dirs, m)
  {
    StackOfDirectories(t, root);
    IterationIsComplete(t, root);
    var d := dirs[m - 1];
    var c := Child(d, n);
    AboveChild(root, d, n);
    assert c in t;
    hide Visit, Directories, ParentsFirst, Together, Antichain, WellFormed, Distinct;
    assert StrictlyAbove(root, c);
    if IsDirectory(t, c) {
      LaterInStack(dirs, m, c);
    }
  }

  /** A directory whose parent is on top of the stack has been popped. */
  lemma LaterInStack(dirs: seq<Path>, m: nat, c: Path)
    requires 0 < m <= |dirs| && Distinct(dirs) && c in dirs && c != [] && Parent(c) == dirs[m - 1]
    requires c != dirs[0]
    requires forall j :: 0 < j < |dirs| ==> dirs[j] != [] && Parent(dirs[j]) in dirs[..j]
    ensures c in dirs[m..]
  {
    var j :| 0 <= j < |dirs| && dirs[j] == c;
    assert Parent(dirs[j]) in dirs[..j];
    var i :| 0 <= i < j && dirs[i] == dirs[m - 1];
    assert i == m - 1;
    assert dirs[m..][j - m] == c;
  }

  /** When the stack has been popped to its root, only the root is left; then nothing is. */
  lemma AllGone(t: Tree, root: Path, dirs: seq<Path>)
    requires WellFormed(t) && IsDirectory(t, root)
    requires Antichain([root]) && dirs == [root] + Directories(t, Visit(t, true, [root]))
    ensures GoneAt(t, Visit(t, true, [root]), dirs, 0) == Subtree(t, root)
    ensures GoneAt(t, Visit(t, true, [root]), dirs, 1) == Subtree(t, root) - {root}
  {
    StackOfDirectories(t, root);
    IterationIsComplete(t, root);
    WalkCoversSubtree(t, root);
    SameLength(root);
    hide *;
    FirstAndOthers(dirs);
    GoneAtRoot(t, root, Visit(t, true, [root]), dirs);
  }

  lemma FirstAndOthers(dirs: seq<Path>)
    requires Distinct(dirs) && dirs != []
    ensures dirs[0..] == dirs && forall p :: p in dirs[1..] <==> p in dirs && p != dirs[0]
  {
    forall p ensures p in dirs[1..] <==> p in dirs && p != dirs[0] {
      if p in dirs[1..] {
        var i :| 0 <= i < |dirs| - 1 && dirs[1..][i] == p;
        assert dirs[i + 1] == p;
      }
    }
  }

  lemma GoneAtRoot(t: Tree, root: Path, met: seq<Path>, dirs: seq<Path>)
    requires dirs != [] && dirs[0] == root && dirs[0..] == dirs
    requires forall p :: p in dirs[1..] <==> p in dirs && p != root
    requires forall p :: p in dirs <==> IsDirectory(t, p) && Above(root, p)
    requires forall p :: p in met <==> p in t && StrictlyAbove(root, p)
    requires Subtree(t, root) == (set p | p in met) + {root} && !StrictlyAbove(root, root)
    ensures GoneAt(t, met, dirs, 0) == Subtree(t, root)
    ensures GoneAt(t, met, dirs, 1) == Subtree(t, root) - {root}
  {
    hide Subtree;
    forall p ensures p in GoneAt(t, met, dirs, 0) <==> p in met || p == root {}
    forall p ensures p in GoneAt(t, met, dirs, 1) <==> p in met {}
  }

  /** The second loop: the directories are removed from the top of the stack. */
  method RemoveDirectories(fs: FileSystem, path: string, stack: seq<string>, ghost t: Tree) returns (ok: bool)
    requires WellFormed(t) && IsDirectory(t, Denoted(path)) && Antichain([Denoted(path)]) && Stack(path, stack)
    requires Nodes(stack) == [Denoted(path)] + Directories(t, Visit(t, true, [Denoted(path)]))
    requires fs.tree == Without(t, Files(t, Visit(t, true, [Denoted(path)])))
    modifies fs
    ensures ok <==> Removable(path)
    ensures fs.tree == Without(t, Subtree(t, Denoted(path)) - if ok then {} else {Denoted(path)})
  {
    hide WellFormed, Without, Antichain, Visit, Directories, Distinct, GoneAt, Subtree, Denoted, Direct, Removable,
         Nodes, IsEmpty, IsDirectory, Files;
    var directories := stack;
    ghost var root, nodes := Denoted(path), Nodes(stack);
    ghost var met := Visit(t, true, [root]);
    AllGone(t, root, nodes);
    NothingPopped(t, met, nodes);
    while directories != []
      invariant |directories| <= |stack| && directories == stack[..|directories|]
      invariant fs.tree == Without(t, GoneAt(t, met, nodes, |directories|))
      invariant |directories| == 0 ==> Removable(path)
      decreases |directories|
    {
      ghost var m := |directories|;
      var dirPath := directories[|directories| - 1];
      directories := directories[..|directories| - 1];
      NodesAt(stack, m - 1);
      TopIsEmpty(t, root, nodes, m);
      var removed := fs.Rmdir(dirPath);
      if !removed {
        assert m == 1;
        return false;
      }
      WithoutTwice(t, GoneAt(t, met, nodes, m), {nodes[m - 1]});
      PopOne(t, met, nodes, m);
    }
    ok := true;
    assert Subtree(t, root) - {} == Subtree(t, root);
  }

  lemma NodesAt(paths: seq<string>, i: nat)
    requires i < |paths|
    ensures Nodes(paths)[i] == Denoted(paths[i])
  {
    hide Denoted;
  }

  lemma NothingPopped(t: Tree, met: seq<Path>, dirs: seq<Path>)
    ensures GoneAt(t, met, dirs, |dirs|) == Files(t, met)
    ensures dirs[..|dirs|] == dirs
  {}

  lemma PopOne(t: Tree, met: seq<Path>, dirs: seq<Path>, m: nat)
    requires 0 < m <= |dirs|
    ensures GoneAt(t, met, dirs, m) + {dirs[m - 1]} == GoneAt(t, met, dirs, m - 1)
  {
    assert dirs[m - 1..] == [dirs[m - 1]] + dirs[m..];
  }

  /** Removes a file, an empty directory or, recursively, a directory with everything in it. */
  method RemoveFile(fs: FileSystem, path: string, recursive: bool, checked: bool) returns (ok: bool)
    requires WellFormed(fs.tree) && Direct(path) && (recursive ==> WellNamed(fs.tree, path, checked, true))
    modifies fs
    ensures ok <==>
              && Exists(old(fs.tree), path)
              && (old(fs.tree)[Denoted(path)].File? ||
                  (Removable(path) && (recursive || IsEmpty(old(fs.tree), Denoted(path)))))
    ensures ok ==> fs.tree == Without(old(fs.tree), Subtree(old(fs.tree), Denoted(path)))
    ensures !ok ==> fs.tree == if recursive && IsDirectory(old(fs.tree), Denoted(path))
                               then Without(old(fs.tree), Subtree(old(fs.tree), Denoted(path)) - {Denoted(path)})
                               else old(fs.tree)
  {
    hide WellFormed, Without, Subtree, Denoted, Direct, Removable, Bare, WellNamed, Nodes;
    ghost var t := fs.tree;
    var found := fs.Stat(path);
    if found.None? {
      return false;
    }
    if found == Some(false) {
      BareSubtree(t, Denoted(path));
      ok := fs.Unlink(path);
      return;
    }
    if !recursive {
      ok := fs.Rmdir(path);
      if ok {
        BareSubtree(t, Denoted(path));
      }
      return;
    }
    var directories := UnlinkFiles(fs, path, checked);
    ok := RemoveDirectories(fs, path, directories, t);
    assert Subtree(t, Denoted(path)) - {} == Subtree(t, Denoted(path));
  }

  /** What a removed subtree leaves behind: all other nodes, changed only where the root was listed. */
  lemma RemovalIsExact(t: Tree, root: Path)
    requires WellFormed(t) && root in t
    ensures var u := Without(t, Subtree(t, root));
            && WellFormed(u)
            && (forall p :: p in u <==> p in t && !Above(root, p))
            && (forall p :: p in u && (root == [] || p != Parent(root)) ==> u[p] == t[p])
            && (root != [] ==>
                  forall n :: n in u[Parent(root)].names <==> n in t[Parent(root)].names && n != Last(root))
  {
    SubtreeIsClosed(t, root);
    var gone := Subtree(t, root);
    WithoutIsWellFormed(t, gone);
    var u := Without(t, gone);
    SameLength(root);
    if root != [] {
      ParentIsDirectory(t, root);
      ChildOf(root);
      AboveChild(root, Parent(root), Last(root));
    }
    forall p, n | p in u && IsDirectory(t, p) && n in t[p].names && !Dot(n)
      ensures Child(p, n) in gone <==> Child(p, n) == root
    {
      AboveChild(root, p, n);
    }
    forall p | p in u && IsDirectory(t, p)
      ensures root == [] || p != Parent(root) ==> u[p] == t[p]
      ensures root != [] && p == Parent(root) ==> forall n :: n in u[p].names <==> n in t[p].names && n != Last(root)
    {
      KeepAre(p, t[p].names, gone);
    }
  }
}
