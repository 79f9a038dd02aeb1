/** The LRU cache of kbase/lru_cache.h: a list of entries, least recently used first, and a key table. */
module LruCache {

  datatype Item<K, V> = Item(key: K, entry: V)

  /** The `max_size` of a cache that never evicts on its own. */
  const NO_AUTO_EVICT: nat := 0

  // ---- The meaning, on the list of entries alone ----

  predicate UniqueKeys<K(==), V>(s: seq<Item<K, V>>) {
    forall i, j :: 0 <= i < j < |s| ==> s[i].key != s[j].key
  }

  /** The place of a key, or the length. */
  function Find<K(==), V>(s: seq<Item<K, V>>, k: K): (i: nat)
    ensures i <= |s| && (i < |s| ==> s[i].key == k)
    ensures forall j :: 0 <= j < i ==> s[j].key != k
  {
    if s == [] || s[0].key == k then 0 else 1 + Find(s[1..], k)
  }

  function RemoveAt<T>(s: seq<T>, i: nat): (r: seq<T>)
    requires i < |s|
    ensures |r| == |s| - 1
    ensures forall j :: 0 <= j < |r| ==> r[j] == s[if j < i then j else j + 1]
  {
    s[..i] + s[i + 1..]
  }

  function Without<K(==), V>(s: seq<Item<K, V>>, k: K): seq<Item<K, V>> {
    var i := Find(s, k);
    if i == |s| then s else RemoveAt(s, i)
  }

  function PutItem<K(==), V>(s: seq<Item<K, V>>, max: nat, k: K, v: V): seq<Item<K, V>> {
    if Find(s, k) < |s| then Without(s, k) + [Item(k, v)]
    else if max != NO_AUTO_EVICT && |s| == max then s[1..] + [Item(k, v)]
    else s + [Item(k, v)]
  }

  function GetItem<K(==), V>(s: seq<Item<K, V>>, k: K): seq<Item<K, V>> {
    var i := Find(s, k);
    if i < |s| then Without(s, k) + [s[i]] else s
  }

  // ---- Runs ----

  /** Erase stands for find followed by erase of what was found; Evict is not called on an empty cache. */
  datatype Op<K, V> = Put(key: K, entry: V) | Get(key: K) | Look(key: K) | Erase(key: K) | Evict

  function Step<K(==), V>(s: seq<Item<K, V>>, max: nat, op: Op<K, V>): seq<Item<K, V>> {
    match op
    case Put(k, v) => PutItem(s, max, k, v)
    case Get(k) => GetItem(s, k)
    case Look(_) => s
    case Erase(k) => Without(s, k)
    case Evict => if s == [] then s else s[1..]
  }

  function Run<K(==), V>(ops: seq<Op<K, V>>, max: nat): seq<Item<K, V>> {
    if ops == [] then [] else Step(Run(ops[..|ops| - 1], max), max, ops[|ops| - 1])
  }

  lemma WithoutDrops<K, V>(s: seq<Item<K, V>>, k: K)
    requires UniqueKeys(s)
    ensures forall i :: 0 <= i < |Without(s, k)| ==> Without(s, k)[i].key != k
    ensures UniqueKeys(Without(s, k)) && |Without(s, k)| == if Find(s, k) < |s| then |s| - 1 else |s|
  {}

  lemma AddKeepsUnique<K, V>(s: seq<Item<K, V>>, x: Item<K, V>)
    requires UniqueKeys(s) && forall i :: 0 <= i < |s| ==> s[i].key != x.key
    ensures UniqueKeys(s + [x])
  {}

  lemma StepKeeps<K, V>(s: seq<Item<K, V>>, max: nat, op: Op<K, V>)
    requires UniqueKeys(s) && (max != NO_AUTO_EVICT ==> |s| <= max)
    ensures UniqueKeys(Step(s, max, op)) && (max != NO_AUTO_EVICT ==> |Step(s, max, op)| <= max)
  {
    if op.Put? || op.Get? || op.Erase? {
      WithoutDrops(s, op.key);
    }
    if op.Put? {
      var kept := if Find(s, op.key) < |s| then Without(s, op.key)
                  else if max != NO_AUTO_EVICT && |s| == max then s[1..] else s;
      AddKeepsUnique(kept, Item(op.key, op.entry));
    } else if op.Get? && Find(s, op.key) < |s| {
      AddKeepsUnique(Without(s, op.key), s[Find(s, op.key)]);
    }
  }

  /** In every reachable state a key is listed once and the size respects the limit. */
  lemma {:induction false} RunKeeps<K, V>(ops: seq<Op<K, V>>, max: nat)
    ensures UniqueKeys(Run(ops, max))
    ensures max > 0 ==> |Run(ops, max)| <= max
    decreases |ops|
  {
    if ops != [] {
      var j := |ops| - 1;
      RunKeeps(ops[..j], max);
      StepKeeps(Run(ops[..j], max), max, ops[j]);
    }
  }

  predicate Lists<K(==), V>(s: seq<Item<K, V>>, k: K) {
    exists i :: 0 <= i < |s| && s[i].key == k
  }

  /** Put at some time and not erased since. */
  ghost predicate PutAndNotErased<K, V>(ops: seq<Op<K, V>>, k: K) {
    exists i :: 0 <= i < |ops| && ops[i].Put? && ops[i].key == k && forall j :: i < j < |ops| ==> ops[j] != Erase(k)
  }

  /** Without a bound, and without Evict, nothing is lost that is not erased. */
  lemma {:induction false} UnboundedKeeps<K, V>(ops: seq<Op<K, V>>, k: K)
    requires forall i :: 0 <= i < |ops| ==> !ops[i].Evict?
    ensures Lists(Run(ops, 0), k) <==> PutAndNotErased(ops, k)
    decreases |ops|
  {
    if ops != [] {
      var n := |ops| - 1;
      UnboundedKeeps(ops[..n], k);
      RunKeeps(ops[..n], 0);
      StepLists(Run(ops[..n], 0), ops[n], k);
      PutOrErased(ops, k);
      hide *;
      RunStep(ops, 0);
    }
  }

  lemma RunStep<K, V>(ops: seq<Op<K, V>>, max: nat)
    requires ops != []
    ensures Run(ops, max) == Step(Run(ops[..|ops| - 1], max), max, ops[|ops| - 1])
  {}

  lemma StepLists<K, V>(s: seq<Item<K, V>>, op: Op<K, V>, k: K)
    requires UniqueKeys(s) && !op.Evict?
    ensures Lists(Step(s, 0, op), k) <==> (op.Put? && op.key == k) || (Lists(s, k) && op != Erase(k))
  {
    if !op.Look? {
      WithoutDrops(s, op.key);
      var i := Find(s, op.key);
      WithoutLists(s, op.key, k);
      hide Without;
      if op.Put? {
        ListsLast(if i < |s| then Without(s, op.key) else s, Item(op.key, op.entry), k);
      } else if op.Get? && i < |s| {
        ListsLast(Without(s, op.key), s[i], k);
      }
    }
  }

  lemma ListsLast<K, V>(s: seq<Item<K, V>>, x: Item<K, V>, k: K)
    ensures Lists(s + [x], k) <==> Lists(s, k) || x.key == k
  {
    var t := s + [x];
    assert t[|s|] == x;
    if i :| 0 <= i < |s| && s[i].key == k {
      assert t[i] == s[i];
    }
  }

  lemma WithoutLists<K, V>(s: seq<Item<K, V>>, gone: K, k: K)
    requires UniqueKeys(s)
    ensures Lists(Without(s, gone), k) <==> Lists(s, k) && k != gone
  {
    var i, t := Find(s, gone), Without(s, gone);
    if j :| 0 <= j < |s| && s[j].key == k && k != gone {
      if i < |s| {
        assert t[if j < i then j else j - 1] == s[j];
      }
    }
    if j :| 0 <= j < |t| && t[j].key == k {
      if i < |s| {
        assert s[if j < i then j else j + 1] == t[j];
      }
    }
  }

  lemma PutOrErased<K, V>(ops: seq<Op<K, V>>, k: K)
    requires ops != []
    ensures var n := |ops| - 1;
            PutAndNotErased(ops, k) <==>
            (ops[n].Put? && ops[n].key == k) || (PutAndNotErased(ops[..n], k) && ops[n] != Erase(k))
  {
    var n := |ops| - 1;
    var front := ops[..n];
    if i :| 0 <= i < |ops| && ops[i].Put? && ops[i].key == k && forall j :: i < j < |ops| ==> ops[j] != Erase(k) {
      if i < n {
        assert front[i] == ops[i] && forall j :: i < j < n ==> front[j] == ops[j];
      }
    }
    if PutAndNotErased(front, k) && ops[n] != Erase(k) {
      var i :| 0 <= i < n && front[i].Put? && front[i].key == k && forall j :: i < j < n ==> front[j] != Erase(k);
      assert forall j :: i < j < |ops| ==> ops[j] == if j < n then front[j] else ops[n];
    }
  }

  // ---- The order is the order of use ----

  predicate Uses<K(==), V>(op: Op<K, V>, k: K) {
    (op.Put? || op.Get?) && op.key == k
  }

  /** The number of operations up to and including the last Put or Get of a key. */
  function LastUse<K(==), V>(ops: seq<Op<K, V>>, k: K): nat {
    if ops == [] then 0 else if Uses(ops[|ops| - 1], k) then |ops| else LastUse(ops[..|ops| - 1], k)
  }

  /** The number of operations up to and including the last Put of a key. */
  function LastPut<K(==), V>(ops: seq<Op<K, V>>, k: K): (n: nat)
    ensures n <= |ops| && (n > 0 ==> ops[n - 1].Put? && ops[n - 1].key == k)
  {
    if ops == [] then 0
    else if ops[|ops| - 1].Put? && ops[|ops| - 1].key == k then |ops|
    else LastPut(ops[..|ops| - 1], k)
  }

  predicate InUseOrder<K(==), V>(s: seq<Item<K, V>>, ops: seq<Op<K, V>>) {
    forall i, j :: 0 <= i < j < |s| ==> LastUse(ops, s[i].key) < LastUse(ops, s[j].key)
  }

  ghost predicate LatestEntries<K, V>(s: seq<Item<K, V>>, ops: seq<Op<K, V>>) {
    forall i :: 0 <= i < |s| ==>
      LastPut(ops, s[i].key) > 0 && ops[LastPut(ops, s[i].key) - 1] == Put(s[i].key, s[i].entry)
  }

  ghost predicate Tracks<K, V>(s: seq<Item<K, V>>, ops: seq<Op<K, V>>) {
    InUseOrder(s, ops) && LatestEntries(s, ops)
  }

  lemma DropKeepsTrack<K, V>(s: seq<Item<K, V>>, i: nat, ops: seq<Op<K, V>>)
    requires i < |s| && Tracks(s, ops)
    ensures Tracks(RemoveAt(s, i), ops)
  {}

  lemma DropFirstKeepsTrack<K, V>(s: seq<Item<K, V>>, ops: seq<Op<K, V>>)
    requires s != [] && Tracks(s, ops)
    ensures Tracks(s[1..], ops)
  {
    DropKeepsTrack(s, 0, ops);
    assert RemoveAt(s, 0) == s[1..];
  }

  /** An operation that uses none of the listed keys leaves their record alone. */
  lemma OthersKeepTrack<K, V>(s: seq<Item<K, V>>, ops: seq<Op<K, V>>, op: Op<K, V>)
    requires Tracks(s, ops) && forall i :: 0 <= i < |s| ==> !Uses(op, s[i].key)
    ensures Tracks(s, ops + [op])
  {
    assert (ops + [op])[..|ops|] == ops;
    forall i | 0 <= i < |s|
      ensures LastUse(ops + [op], s[i].key) == LastUse(ops, s[i].key)
      ensures LastPut(ops + [op], s[i].key) == LastPut(ops, s[i].key)
    {
      assert !Uses(op, s[i].key);
    }
  }

  /** The key just used goes to the end. */
  lemma UsedGoesLast<K, V>(s: seq<Item<K, V>>, ops: seq<Op<K, V>>, op: Op<K, V>, x: Item<K, V>)
    requires Tracks(s, ops) && Uses(op, x.key) && forall i :: 0 <= i < |s| ==> s[i].key != x.key
    requires LatestEntries([x], ops + [op])
    ensures Tracks(s + [x], ops + [op])
  {
    OthersKeepTrack(s, ops, op);
    var t := s + [x];
    forall i | 0 <= i < |s| ensures LastUse(ops + [op], s[i].key) <= |ops| {
      assert (ops + [op])[..|ops|] == ops;
      LastUseBound(ops, s[i].key);
    }
    assert LastUse(ops + [op], x.key) == |ops| + 1;
    assert [x][0] == x;
  }

  lemma WithoutKeepsTrack<K, V>(s: seq<Item<K, V>>, k: K, ops: seq<Op<K, V>>)
    requires Tracks(s, ops)
    ensures Tracks(Without(s, k), ops)
  {
    if Find(s, k) < |s| {
      DropKeepsTrack(s, Find(s, k), ops);
    }
  }

  lemma PutKeepsTrack<K, V>(s: seq<Item<K, V>>, max: nat, ops: seq<Op<K, V>>, k: K, v: V)
    requires Tracks(s, ops) && UniqueKeys(s)
    ensures Tracks(PutItem(s, max, k, v), ops + [Put(k, v)])
  {
    var x := Item(k, v);
    assert LatestEntries([x], ops + [Put(k, v)]);
    if Find(s, k) < |s| {
      WithoutDrops(s, k);
      WithoutKeepsTrack(s, k, ops);
      UsedGoesLast(Without(s, k), ops, Put(k, v), x);
    } else if max != NO_AUTO_EVICT && |s| == max {
      DropFirstKeepsTrack(s, ops);
      UsedGoesLast(s[1..], ops, Put(k, v), x);
    } else {
      UsedGoesLast(s, ops, Put(k, v), x);
    }
  }

  lemma GetKeepsTrack<K, V>(s: seq<Item<K, V>>, ops: seq<Op<K, V>>, k: K)
    requires Tracks(s, ops) && UniqueKeys(s)
    ensures Tracks(GetItem(s, k), ops + [Get(k)])
  {
    var i := Find(s, k);
    if i < |s| {
      WithoutDrops(s, k);
      WithoutKeepsTrack(s, k, ops);
      assert (ops + [Get(k)])[..|ops|] == ops;
      assert LatestEntries([s[i]], ops + [Get(k)]);
      UsedGoesLast(Without(s, k), ops, Get(k), s[i]);
    } else {
      OthersKeepTrack(s, ops, Get(k));
    }
  }

  lemma StepKeepsTrack<K, V>(s: seq<Item<K, V>>, max: nat, ops: seq<Op<K, V>>, op: Op<K, V>)
    requires Tracks(s, ops) && UniqueKeys(s)
    ensures Tracks(Step(s, max, op), ops + [op])
  {
    match op
    case Put(k, v) => PutKeepsTrack(s, max, ops, k, v);
    case Get(k) => GetKeepsTrack(s, ops, k);
    case Look(_) => OthersKeepTrack(s, ops, op);
    case Erase(k) =>
      WithoutKeepsTrack(s, k, ops);
      OthersKeepTrack(Without(s, k), ops, op);
    case Evict =>
      if s != [] {
        DropFirstKeepsTrack(s, ops);
      }
      OthersKeepTrack(Step(s, max, op), ops, op);
  }

  /** From the first to the last the entries were used ever more recently, whether by Put or by a Get that
      found them, and each is what was put last under its key. */
  lemma {:induction false} RecencyOrder<K, V>(ops: seq<Op<K, V>>, max: nat)
    ensures InUseOrder(Run(ops, max), ops) && LatestEntries(Run(ops, max), ops)
    decreases |ops|
  {
    if ops != [] {
      var before, op := ops[..|ops| - 1], ops[|ops| - 1];
      RecencyOrder(before, max);
      RunKeeps(before, max);
      assert before + [op] == ops;
      StepKeepsTrack(Run(before, max), max, before, op);
    }
  }

  lemma {:induction false} LastUseBound<K, V>(ops: seq<Op<K, V>>, k: K)
    ensures LastUse(ops, k) <= |ops|
    decreases |ops|
  {
    if ops != [] {
      LastUseBound(ops[..|ops| - 1], k);
    }
  }

  // ---- The bounded cache and the unbounded one ----

  function Last<T>(s: seq<T>, n: nat): seq<T> {
    if |s| <= n then s else s[|s| - n..]
  }

  /** A Get that the unbounded cache answers is answered by its last n entries too. */
  predicate SameAnswer<K(==), V>(s: seq<Item<K, V>>, n: nat, op: Op<K, V>) {
    op.Get? ==> (Find(s, op.key) < |s| ==> Find(Last(s, n), op.key) < |Last(s, n)|)
  }

  predicate PutsAndGets<K, V>(ops: seq<Op<K, V>>) {
    forall i :: 0 <= i < |ops| ==> ops[i].Put? || ops[i].Get?
  }

  lemma {:induction false} FindInSuffix<K, V>(s: seq<Item<K, V>>, d: nat, k: K)
    requires UniqueKeys(s) && d <= |s|
    ensures Find(s, k) < |s| && Find(s, k) >= d ==> Find(s[d..], k) == Find(s, k) - d
    ensures Find(s, k) == |s| || Find(s, k) < d ==> Find(s[d..], k) == |s| - d
  {
    var i, t := Find(s, k), s[d..];
    var j := Find(t, k);
    if j < |t| {
      assert s[d + j].key == k;
    }
    if d <= i < |s| {
      assert t[i - d].key == k;
    }
  }

  lemma LastIs<T>(s: seq<T>, n: nat, d: nat)
    requires d == if |s| <= n then 0 else |s| - n
    ensures Last(s, n) == s[d..]
  {}

  lemma TailOfSuffix<T>(s: seq<T>, d: nat)
    requires d < |s|
    ensures s[d..][1..] == s[d + 1..]
  {}

  lemma RemoveInSuffix<T>(s: seq<T>, d: nat, i: nat)
    requires d <= |s| && i < |s|
    ensures d <= i ==> RemoveAt(s[d..], i - d) == RemoveAt(s, i)[d..]
    ensures i < d ==> s[d..] == RemoveAt(s, i)[d - 1..]
  {}

  lemma AddToSuffix<T>(s: seq<T>, d: nat, x: T)
    requires d <= |s|
    ensures (s + [x])[d..] == s[d..] + [x]
  {}

  /** Moving a key among the last n to the end, in the short list and in the long one. */
  lemma MoveInSuffix<K, V>(s: seq<Item<K, V>>, d: nat, k: K, x: Item<K, V>)
    requires UniqueKeys(s) && d <= |s| && d <= Find(s, k) < |s|
    ensures Without(s[d..], k) + [x] == (Without(s, k) + [x])[d..]
  {
    hide *;
    FindInSuffix(s, d, k);
    WithoutIs(s, k);
    WithoutIs(s[d..], k);
    RemoveInSuffix(s, d, Find(s, k));
    RemovedLength(s, Find(s, k));
    AddToSuffix(Without(s, k), d, x);
  }

  lemma WithoutIs<K, V>(s: seq<Item<K, V>>, k: K)
    requires Find(s, k) < |s|
    ensures Without(s, k) == RemoveAt(s, Find(s, k))
  {}

  lemma RemovedLength<T>(s: seq<T>, i: nat)
    requires i < |s|
    ensures |RemoveAt(s, i)| == |s| - 1
  {}

  /** One step of both caches, in lockstep. */
  lemma StepOfSuffix<K, V>(s: seq<Item<K, V>>, n: nat, op: Op<K, V>)
    requires UniqueKeys(s) && n > 0 && (op.Put? || op.Get?)
    ensures Step(Last(s, n), n, op) == Last(Step(s, NO_AUTO_EVICT, op), n) <==> SameAnswer(s, n, op)
  {
    var d := if |s| <= n then 0 else |s| - n;
    assert Last(s, n) == s[d..];
    FindInSuffix(s, d, op.key);
    var i := Find(s, op.key);
    if d <= i < |s| {
      MovedToEnd(s, n, d, op);
    } else if op.Put? && i == |s| {
      PutUnknown(s, n, d, op.key, op.entry);
    } else if op.Put? {
      PutForgotten(s, n, d, op.key, op.entry);
    } else if i < d {
      GetBeforeSuffix(s, n, d, op.key);
    }
  }

  lemma MovedToEnd<K, V>(s: seq<Item<K, V>>, n: nat, d: nat, op: Op<K, V>)
    requires UniqueKeys(s) && n > 0 && (op.Put? || op.Get?)
    requires d == (if |s| <= n then 0 else |s| - n) && d <= Find(s, op.key) < |s|
    ensures Step(s[d..], n, op) == Last(Step(s, NO_AUTO_EVICT, op), n)
  {
    hide *;
    FindInSuffix(s, d, op.key);
    var i := Find(s, op.key);
    StepMoves(s, NO_AUTO_EVICT, op);
    StepMoves(s[d..], n, op);
    var x := if op.Put? then Item(op.key, op.entry) else s[i];
    assert s[d..][i - d] == s[i];
    MoveInSuffix(s, d, op.key, x);
    WithoutIs(s, op.key);
    RemovedLength(s, i);
    LastIs(Without(s, op.key) + [x], n, d);
  }

  /** A Put or Get of a key that is there moves it to the end. */
  lemma StepMoves<K, V>(s: seq<Item<K, V>>, max: nat, op: Op<K, V>)
    requires (op.Put? || op.Get?) && Find(s, op.key) < |s|
    ensures var x := if op.Put? then Item(op.key, op.entry) else s[Find(s, op.key)];
            Step(s, max, op) == Without(s, op.key) + [x]
  {}

  /** A Put of a key that neither cache has. */
  lemma PutUnknown<K, V>(s: seq<Item<K, V>>, n: nat, d: nat, k: K, v: V)
    requires UniqueKeys(s) && n > 0 && d == (if |s| <= n then 0 else |s| - n) && Find(s, k) == |s|
    ensures PutItem(s[d..], n, k, v) == Last(PutItem(s, NO_AUTO_EVICT, k, v), n)
  {
    hide *;
    FindInSuffix(s, d, k);
    NewestUnbounded(s, k, v);
    var x := Item(k, v);
    if |s| >= n {
      NewestOfFull(s[d..], n, k, v);
      LastIs(s + [x], n, d + 1);
      AddToSuffix(s, d + 1, x);
      TailOfSuffix(s, d);
    } else {
      assert s[0..] == s;
      NewestOfFew(s, n, k, v);
      LastIs(s + [x], n, 0);
      assert (s + [x])[0..] == s + [x];
    }
  }

  lemma NewestOfFull<K, V>(s: seq<Item<K, V>>, n: nat, k: K, v: V)
    requires Find(s, k) == |s| && n > 0 && |s| == n
    ensures PutItem(s, n, k, v) == s[1..] + [Item(k, v)]
  {}

  lemma NewestOfFew<K, V>(s: seq<Item<K, V>>, n: nat, k: K, v: V)
    requires Find(s, k) == |s| && |s| < n
    ensures PutItem(s, n, k, v) == s + [Item(k, v)]
  {}

  lemma NewestUnbounded<K, V>(s: seq<Item<K, V>>, k: K, v: V)
    requires Find(s, k) == |s|
    ensures PutItem(s, NO_AUTO_EVICT, k, v) == s + [Item(k, v)]
  {}

  /** A Put of a key that only the unbounded cache has. */
  lemma PutForgotten<K, V>(s: seq<Item<K, V>>, n: nat, d: nat, k: K, v: V)
    requires UniqueKeys(s) && n > 0 && |s| > n && d == |s| - n && Find(s, k) < d
    ensures PutItem(s[d..], n, k, v) == Last(PutItem(s, NO_AUTO_EVICT, k, v), n)
  {
    FindInSuffix(s, d, k);
    var kept, x := RemoveAt(s, Find(s, k)), Item(k, v);
    RemoveInSuffix(s, d, Find(s, k));
    TailOfSuffix(kept, d - 1);
    LastIs(kept + [x], n, d);
    AddToSuffix(kept, d, x);
    hide Find, RemoveAt, Last;
    assert PutItem(s[d..], n, k, v) == s[d..][1..] + [x];
    assert PutItem(s, NO_AUTO_EVICT, k, v) == kept + [x];
  }

  /** A Get of an entry the bounded cache no longer has makes the two differ: it comes last in one only. */
  lemma GetBeforeSuffix<K, V>(s: seq<Item<K, V>>, n: nat, d: nat, k: K)
    requires UniqueKeys(s) && n > 0 && d == (if |s| <= n then 0 else |s| - n) && Find(s, k) < d
    ensures GetItem(s[d..], k) != Last(GetItem(s, k), n)
  {
    hide *;
    var t, u := GetItem(s, k), s[d..];
    FindInSuffix(s, d, k);
    GetMiss(u, k);
    GetHit(s, k);
    LastIs(t, n, d);
    assert u[|u| - 1] == s[|s| - 1];
    assert t[d..][n - 1] == t[|t| - 1];
  }

  lemma GetMiss<K, V>(s: seq<Item<K, V>>, k: K)
    requires Find(s, k) == |s|
    ensures GetItem(s, k) == s
  {}

  /** A hit comes last, with its key, which no other item has. */
  lemma GetHit<K, V>(s: seq<Item<K, V>>, k: K)
    requires UniqueKeys(s) && Find(s, k) < |s|
    ensures var t := GetItem(s, k);
            |t| == |s| && t[|t| - 1].key == k && (Find(s, k) < |s| - 1 ==> s[|s| - 1].key != k)
  {
    assert s[Find(s, k)].key == k;
    hide Find;
  }

  predicate Agree<K(==), V(==)>(ops: seq<Op<K, V>>, n: nat) {
    Run(ops, n) == Last(Run(ops, NO_AUTO_EVICT), n)
  }

  /** The last operation of a run is one that both caches answer alike. */
  predicate AnswersAlike<K(==), V>(ops: seq<Op<K, V>>, n: nat) {
    ops != [] ==> SameAnswer(Run(ops[..|ops| - 1], NO_AUTO_EVICT), n, ops[|ops| - 1])
  }

  /** At every moment of the run. */
  predicate AlwaysAgree<K(==), V(==)>(ops: seq<Op<K, V>>, n: nat) {
    Agree(ops, n) && (ops != [] ==> AlwaysAgree(ops[..|ops| - 1], n))
  }

  predicate AlwaysAlike<K(==), V>(ops: seq<Op<K, V>>, n: nat) {
    AnswersAlike(ops, n) && (ops != [] ==> AlwaysAlike(ops[..|ops| - 1], n))
  }

  /** At every moment of a run of Puts and Gets the bounded cache is the last n entries of the unbounded one,
      keys, entries and order included, exactly when every Get that hits in the unbounded cache hits there. */
  lemma {:induction false} BoundedIsSuffix<K, V>(ops: seq<Op<K, V>>, n: nat)
    requires n > 0 && PutsAndGets(ops)
    ensures AlwaysAgree(ops, n) <==> AlwaysAlike(ops, n)
    decreases |ops|
  {
    if ops != [] {
      var before := ops[..|ops| - 1];
      BoundedIsSuffix(before, n);
      if AlwaysAgree(before, n) {
        AgreeOn(ops, n);
      }
    }
  }

  lemma AgreeOn<K, V>(ops: seq<Op<K, V>>, n: nat)
    requires n > 0 && ops != [] && PutsAndGets(ops) && Agree(ops[..|ops| - 1], n)
    ensures Agree(ops, n) <==> AnswersAlike(ops, n)
  {
    var before := ops[..|ops| - 1];
    RunKeeps(before, NO_AUTO_EVICT);
    StepOfSuffix(Run(before, NO_AUTO_EVICT), n, ops[|ops| - 1]);
  }

  /** The shortest run after which they differ: the bounded cache no longer has what is read. */
  lemma ReadingMakesThemDiffer<K, V>(a: K, b: K, v: V)
    requires a != b
    ensures var ops := [Put(a, v), Put(b, v), Get(a)];
            Run(ops, 1) == [Item(b, v)] && Run(ops, NO_AUTO_EVICT) == [Item(b, v), Item(a, v)]
  {
    var two: seq<Op<K, V>> := [Put(a, v), Put(b, v)];
    var ops := two + [Get(a)];
    assert ops == [Put(a, v), Put(b, v), Get(a)] && ops[..2] == two;
    var one: seq<Op<K, V>> := [Put(a, v)];
    assert one[..0] == [] && two[..1] == one;
    assert Run(one, 1) == [Item(a, v)] && Run(one, NO_AUTO_EVICT) == [Item(a, v)];
    assert Run(two, 1) == [Item(b, v)] && Run(two, NO_AUTO_EVICT) == [Item(a, v), Item(b, v)];
  }

  /** So without Gets it always is. */
  lemma {:induction false} PutsOnly<K, V>(ops: seq<Op<K, V>>, n: nat)
    requires n > 0 && forall i :: 0 <= i < |ops| ==> ops[i].Put?
    ensures Run(ops, n) == Last(Run(ops, NO_AUTO_EVICT), n)
    decreases |ops|
  {
    if ops != [] {
      PutsOnly(ops[..|ops| - 1], n);
      AgreeOn(ops, n);
    }
  }

  // ---- The list and its index ----

  /** A node of entry_ordering_list_; the key table and iterators point to nodes. */
  class Node<K, V> {
    const key: K
    var entry: V

    constructor (key: K, entry: V)
      ensures this.key == key && this.entry == entry
    {
      this.key := key;
      this.entry := entry;
    }
  }

  ghost function ItemsOf<K, V>(order: seq<Node<K, V>>): (s: seq<Item<K, V>>)
    reads order
    ensures |s| == |order| && forall i :: 0 <= i < |s| ==> s[i] == Item(order[i].key, order[i].entry)
  {
    seq(|order|, i requires 0 <= i < |order| reads order => Item(order[i].key, order[i].entry))
  }

  lemma ItemsOfRemoved<K, V>(order: seq<Node<K, V>>, i: nat)
    requires i < |order|
    ensures ItemsOf(RemoveAt(order, i)) == RemoveAt(ItemsOf(order), i)
  {}

  lemma ItemsOfAdded<K, V>(order: seq<Node<K, V>>, node: Node<K, V>)
    ensures ItemsOf(order + [node]) == ItemsOf(order) + [Item(node.key, node.entry)]
  {}

  /** Where an iterator points. */
  function IndexOf<K, V>(order: seq<Node<K, V>>, node: Node<K, V>): (i: nat)
    requires node in order
    ensures i < |order| && order[i] == node
  {
    if order[0] == node then 0 else 1 + IndexOf(order[1..], node)
  }

  predicate DistinctKeys<K(==), V>(order: seq<Node<K, V>>) {
    forall i, j :: 0 <= i < j < |order| ==> order[i].key != order[j].key
  }

  /** The table has exactly the keys of the list and leads from each to its node. */
  ghost predicate Indexes<K, V>(keyTable: map<K, Node<K, V>>, order: seq<Node<K, V>>) {
    && (forall n :: n in order ==> n.key in keyTable && keyTable[n.key] == n)
    && (forall k :: k in keyTable ==> keyTable[k] in order && keyTable[k].key == k)
  }

  function ToEnd<T>(s: seq<T>, i: nat): seq<T>
    requires i < |s|
  {
    RemoveAt(s, i) + [s[i]]
  }

  /** Unlinking a node and dropping its key keeps list and table in step. */
  lemma UnlinkKeeps<K, V>(keyTable: map<K, Node<K, V>>, order: seq<Node<K, V>>, i: nat)
    requires i < |order| && DistinctKeys(order) && Indexes(keyTable, order)
    ensures DistinctKeys(RemoveAt(order, i)) && Indexes(keyTable - {order[i].key}, RemoveAt(order, i))
  {
    var r := RemoveAt(order, i);
    forall n | n in order && n != order[i] ensures n in r {
      var j :| 0 <= j < |order| && order[j] == n;
      assert r[if j < i then j else j - 1] == n;
    }
  }

  lemma ToEndKeeps<K, V>(order: seq<Node<K, V>>, i: nat)
    requires i < |order| && DistinctKeys(order)
    ensures DistinctKeys(ToEnd(order, i)) && |ToEnd(order, i)| == |order|
    ensures forall n :: n in ToEnd(order, i) <==> n in order
  {
    var r := ToEnd(order, i);
    forall n | n in order ensures n in r {
      var j :| 0 <= j < |order| && order[j] == n;
      assert r[if j < i then j else if j == i then |r| - 1 else j - 1] == n;
    }
  }

  class LRUCache<K(==), V> {
    const maxSize: nat
    /** Least recently used first. */
    var order: seq<Node<K, V>>
    var keyTable: map<K, Node<K, V>>

    ghost function Items(): (s: seq<Item<K, V>>)
      reads this, order
    {
      ItemsOf(order)
    }

    /** Each key is listed once, the table has exactly the listed keys, and each leads to its own node. */
    ghost predicate Valid()
      reads this
    {
      && DistinctKeys(order)
      && Indexes(keyTable, order)
      && (maxSize != NO_AUTO_EVICT ==> |order| <= maxSize)
    }

    /** No node is new to the list. */
    ghost predicate NodesAmong(nodes: seq<Node<K, V>>)
      reads this
    {
      forall n :: n in order ==> n in nodes
    }

    constructor (maxSize: nat)
      ensures Valid() && Items() == [] && this.maxSize == maxSize && order == []
    {
      this.maxSize := maxSize;
      order, keyTable := [], map[];
    }

    ghost predicate Listed(k: K)
      reads this, order
    {
      Find(Items(), k) < |Items()|
    }

    /** The table answers for the list. */
    lemma TableIsIndex(k: K)
      requires Valid()
      ensures k in keyTable <==> Listed(k)
      ensures k in keyTable ==> order[Find(Items(), k)] == keyTable[k]
    {
      var i := Find(Items(), k);
      if k in keyTable {
        var j :| 0 <= j < |order| && order[j] == keyTable[k];
        assert Items()[j].key == k;
      }
      if i < |Items()| {
        assert Items()[i].key == k;
      }
    }

    /** find(): looks an entry up without using it. Null stands for end(). */
    method Lookup(key: K) returns (it: Node?<K, V>)
      requires Valid()
      ensures it == null <==> !Listed(key)
      ensures it != null ==> it in order && Item(it.key, it.entry) == Items()[Find(Items(), key)]
    {
      TableIsIndex(key);
      it := if key in keyTable then keyTable[key] else null;
    }

    /** The items after a node has gone to the end. */
    lemma ItemsToEnd(i: nat)
      requires Valid() && i < |order|
      ensures var node := order[i];
              && ToEnd(order, i) != [] && ToEnd(order, i)[|order| - 1] == node && |ToEnd(order, i)| == |order|
              && ItemsOf(ToEnd(order, i)) == Without(Items(), node.key) + [Item(node.key, node.entry)]
    {
      FindOfNode(i);
      ItemsOfRemoved(order, i);
      ItemsOfAdded(RemoveAt(order, i), order[i]);
      assert ToEnd(order, i) == RemoveAt(order, i) + [order[i]];
      hide ItemsOf, RemoveAt, Find, DistinctKeys, ToEnd;
    }

    /** splice: the node goes to the end. */
    method MoveToEnd(node: Node<K, V>)
      requires Valid() && node in order
      modifies this`order
      ensures Valid() && order != [] && order[|order| - 1] == node
      ensures forall n :: n in order <==> n in old(order)
      ensures Items() == old(Without(Items(), node.key)) + [Item(node.key, node.entry)]
    {
      hide ItemsOf, RemoveAt, Find, Without, DistinctKeys, ToEnd;
      var i := IndexOf(order, node);
      ToEndKeeps(order, i);
      ItemsToEnd(i);
      order := ToEnd(order, i);
    }

    /** Get(): like find(), but a hit counts as use. */
    method Get(key: K) returns (it: Node?<K, V>)
      requires Valid()
      modifies this`order
      ensures Valid() && Items() == old(GetItem(Items(), key)) && NodesAmong(old(order))
      ensures it == null <==> !old(Listed(key))
      ensures it != null ==> it in order && it.key == key && Item(it.key, it.entry) == Items()[|Items()| - 1]
    {
      TableIsIndex(key);
      if key !in keyTable {
        return null;
      }
      it := keyTable[key];
      MoveToEnd(it);
    }

    /** erase(): unlinks a node and drops its key; the next node, or null for end(), is returned. */
    method Erase(pos: Node<K, V>) returns (next: Node?<K, V>)
      requires Valid() && pos in order
      modifies this
      ensures Valid() && Items() == old(Without(Items(), pos.key)) && NodesAmong(old(order))
      ensures var i := old(Find(Items(), pos.key));
              next == if i < |order| then order[i] else null
    {
      var i := IndexOf(order, pos);
      FindOfNode(i);
      ItemsOfRemoved(order, i);
      UnlinkKeeps(keyTable, order, i);
      keyTable := keyTable - {pos.key};
      order := RemoveAt(order, i);
      next := if i < |order| then order[i] else null;
    }

    method Evict()
      requires Valid() && order != []
      modifies this
      ensures Valid() && Items() == old(Items())[1..] && NodesAmong(old(order))
    {
      FindOfNode(0);
      var next := Erase(order[0]);
    }

    method EvictMany(count: nat)
      requires Valid() && count <= |order|
      modifies this
      ensures Valid() && Items() == old(Items())[count..] && NodesAmong(old(order))
    {
      for i := 0 to count
        invariant Valid() && Items() == old(Items())[i..] && NodesAmong(old(order))
      {
        Evict();
      }
    }

    /** Put(): updates the entry in place, or makes room and adds a node. */
    method Put(key: K, entry: V) returns (it: Node<K, V>)
      requires Valid()
      modifies this, order
      ensures Valid() && Items() == old(PutItem(Items(), maxSize, key, entry))
      ensures forall n :: n in order ==> n in old(order) || fresh(n)
      ensures order != [] && it == order[|order| - 1] && it.key == key && it.entry == entry
    {
      TableIsIndex(key);
      if key in keyTable {
        it := Update(keyTable[key], entry);
        return;
      }
      if maxSize != NO_AUTO_EVICT && maxSize == |order| {
        Evict();
      }
      it := Link(key, entry);
    }

    /** A key that is there: new entry, most recently used. */
    method Update(node: Node<K, V>, entry: V) returns (it: Node<K, V>)
      requires Valid() && node in order
      modifies this, order
      ensures Valid() && Items() == old(Without(Items(), node.key)) + [Item(node.key, entry)] && NodesAmong(old(order))
      ensures order != [] && it == order[|order| - 1] && it == node && it.entry == entry
    {
      ghost var s, i := Items(), IndexOf(order, node);
      FindOfNode(i);
      node.entry := entry;
      assert Items() == s[i := Item(node.key, entry)];
      FindOfNode(i);
      assert RemoveAt(Items(), i) == RemoveAt(s, i);
      MoveToEnd(node);
      it := node;
    }

    /** A key that is not there: push_back and insert into the table. */
    method Link(key: K, entry: V) returns (it: Node<K, V>)
      requires Valid() && key !in keyTable && (maxSize != NO_AUTO_EVICT ==> |order| < maxSize)
      modifies this
      ensures Valid() && Items() == old(Items()) + [Item(key, entry)]
      ensures forall n :: n in order ==> n in old(order) || fresh(n)
      ensures order != [] && it == order[|order| - 1] && it.key == key && it.entry == entry
    {
      it := new Node(key, entry);
      ItemsOfAdded(order, it);
      order := order + [it];
      keyTable := keyTable[key := it];
    }

    lemma KeyOf(key: K)
      requires Valid()
      ensures Find(Items(), key) <= |Items()|
      ensures Listed(key) ==> Items()[Find(Items(), key)].key == key
    {}

    lemma SizeOf()
      ensures |Items()| == |order|
    {}

    lemma FindOfNode(i: nat)
      requires Valid() && i < |order|
      ensures Find(Items(), order[i].key) == i
    {
      assert Items()[i].key == order[i].key;
    }
  }

  /** The class does what the runs above say: any operations on a new cache leave their list of items. */
  method Replay<K(==), V>(ops: seq<Op<K, V>>, maxSize: nat) returns (cache: LRUCache<K, V>)
    ensures fresh(cache) && cache.Valid() && cache.maxSize == maxSize
    ensures cache.Items() == Run(ops, maxSize)
  {
    cache := new LRUCache(maxSize);
    for i := 0 to |ops|
      invariant fresh(cache) && cache.Valid() && cache.maxSize == maxSize
      invariant forall n :: n in cache.order ==> fresh(n)
      invariant cache.Items() == Run(ops[..i], maxSize)
    {
      assert ops[..i + 1][..i] == ops[..i];
      Perform(cache, ops[i]);
    }
    assert ops[..|ops|] == ops;
  }

  /** One operation; Erase finds the item first, and Evict is left out on an empty cache. */
  method Perform<K(==), V>(cache: LRUCache<K, V>, op: Op<K, V>)
    requires cache.Valid()
    modifies cache, cache.order
    ensures cache.Valid() && cache.Items() == old(Step(cache.Items(), cache.maxSize, op))
    ensures forall n :: n in cache.order ==> n in old(cache.order) || fresh(n)
  {
    hide ItemsOf, Find, Without, RemoveAt, PutItem, GetItem, DistinctKeys, Indexes;
    match op {
      case Put(key, entry) =>
        var it := cache.Put(key, entry);
      case Get(key) =>
        var it := cache.Get(key);
      case Look(key) =>
        var it := cache.Lookup(key);
      case Erase(key) =>
        WithoutMissing(cache.Items(), key);
        var it := cache.Lookup(key);
        if it != null {
          cache.KeyOf(key);
          var next := cache.Erase(it);
        }
      case Evict =>
        cache.SizeOf();
        if cache.order != [] {
          cache.Evict();
        }
    }
  }

  lemma WithoutMissing<K, V>(s: seq<Item<K, V>>, k: K)
    ensures Find(s, k) == |s| ==> Without(s, k) == s
  {}
}
