/** The copy-on-write slot list of kbase/signals.h under every interleaving of its calls.

    Each call is a process of its own. A call made from inside a callback is one more process that
    overlaps with the Emit it was made from, so re-entrance needs no extra rule. The mutex is a field,
    and everything a call does between two touches of shared state is one event. */
module Signals {
  import opened Wrappers

  /** A connection; `owner` is the object it is weakly bound to, if any. */
  datatype Slot = Slot(id: nat, owner: Option<nat>)

  datatype Op = Add(slot: Slot) | Remove(slot: Slot) | Clear

  // ---- The meaning of the operations: one list, changed by one operation after another ----

  function Without(slots: seq<Slot>, slot: Slot): seq<Slot> {
    if slots == [] then []
    else if slots[0] == slot then slots[1..]
    else [slots[0]] + Without(slots[1..], slot)
  }

  function Perform(slots: seq<Slot>, op: Op): seq<Slot> {
    match op
    case Add(slot) => slots + [slot]
    case Remove(slot) => Without(slots, slot)
    case Clear => []
  }

  /** The slots connected after a history of operations, in connection order. */
  function Connected(history: seq<Op>): seq<Slot> {
    if history == [] then []
    else Perform(Connected(history[..|history| - 1]), history[|history| - 1])
  }

  // ---- The processes ----

  /** A slot the loop of Invoke came to, and whether it was called. */
  datatype Visit = Visit(slot: Slot, called: bool)

  /** Where AddSlot, RemoveSlot or RemoveAllSlots stands. `at` is the place of its operation in the history. */
  datatype Stage = Requested | Entered | Shared | Copied(copy: nat) | Exclusive | Changed(at: nat) | Returned(at: nat)

  /** Where Invoke stands. `at` is the length of the history at its snapshot. The weak pointer of a slot is
      locked for the check alone, so the object may go before the call: between the two Invoke is Checked. */
  datatype Phase = Asked | Inside | Taken(list: nat, at: nat) | Visiting(list: nat, at: nat, log: seq<Visit>)
                 | Checked(list: nat, at: nat, log: seq<Visit>) | Over(at: nat, log: seq<Visit>)

  /** `began` is the length of the history when the call was made. */
  datatype Call = Mutation(op: Op, began: nat, stage: Stage) | Emission(began: nat, phase: Phase)

  /** `lists` are the vectors on the heap, `uses` their shared_ptr counts, `current` is `slots_`. */
  datatype State = State(lists: map<nat, seq<Slot>>, uses: map<nat, nat>, current: nat, unused: nat,
                         lock: Option<nat>, calls: map<nat, Call>, expired: set<nat>, history: seq<Op>)

  datatype Event =
    | Request(c: nat, op: Op) | Ask(c: nat)
    | Enter(c: nat) | Test(c: nat) | Copy(c: nat) | Swap(c: nat) | Change(c: nat) | Leave(c: nat)
    | Take(c: nat) | Check(c: nat) | Call(c: nat) | Release(c: nat)
    | Expire(owner: nat)

  const INITIAL := State(map[0 := []], map[0 := 1], 0, 1, None, map[], {}, [])

  predicate InStage(s: State, c: nat) { c in s.calls && s.calls[c].Mutation? }

  predicate InPhase(s: State, c: nat) { c in s.calls && s.calls[c].Emission? }

  predicate Enabled(s: State, e: Event) {
    match e
    case Request(c, op) => c !in s.calls
    case Ask(c) => c !in s.calls
    case Enter(c) => s.lock == None && c in s.calls && s.calls[c] == Waiting(s.calls[c])
    case Test(c) => InStage(s, c) && s.calls[c].stage == Entered && s.current in s.uses
    case Copy(c) => InStage(s, c) && s.calls[c].stage == Shared && s.current in s.lists
    case Swap(c) => InStage(s, c) && s.calls[c].stage.Copied? && s.current in s.uses
    case Change(c) => InStage(s, c) && s.calls[c].stage == Exclusive && s.current in s.lists
    case Leave(c) => c in s.calls &&
                     if s.calls[c].Mutation? then s.calls[c].stage.Changed? else s.calls[c].phase.Taken?
    case Take(c) => InPhase(s, c) && s.calls[c].phase == Inside && s.current in s.uses
    case Check(c) => InPhase(s, c) && s.calls[c].phase.Visiting? && s.calls[c].phase.list in s.lists &&
                     |s.calls[c].phase.log| < |s.lists[s.calls[c].phase.list]|
    case Call(c) => InPhase(s, c) && s.calls[c].phase.Checked? && s.calls[c].phase.list in s.lists &&
                    |s.calls[c].phase.log| < |s.lists[s.calls[c].phase.list]|
    case Release(c) => InPhase(s, c) && s.calls[c].phase.Visiting? && s.calls[c].phase.list in s.lists &&
                       s.calls[c].phase.list in s.uses &&
                       |s.calls[c].phase.log| >= |s.lists[s.calls[c].phase.list]|
    case Expire(owner) => true
  }

  /** The call as it stands while it waits for the mutex. */
  function Waiting(call: Call): Call {
    match call
    case Mutation(op, began, _) => Mutation(op, began, Requested)
    case Emission(began, _) => Emission(began, Asked)
  }

  function SetStage(s: State, c: nat, stage: Stage): State
    requires InStage(s, c)
  {
    s.(calls := s.calls[c := s.calls[c].(stage := stage)])
  }

  function SetPhase(s: State, c: nat, phase: Phase): State
    requires InPhase(s, c)
  {
    s.(calls := s.calls[c := s.calls[c].(phase := phase)])
  }

  /** One shared_ptr to the list goes away; the last one frees it. */
  function DropUse(s: State, list: nat): (r: State)
    requires list in s.uses
    ensures r == s.(lists := r.lists, uses := r.uses)
  {
    if s.uses[list] <= 1 then s.(uses := s.uses - {list}, lists := s.lists - {list})
    else s.(uses := s.uses[list := s.uses[list] - 1])
  }

  function Apply(s: State, e: Event): State
    requires Enabled(s, e)
  {
    match e
    case Request(c, op) => s.(calls := s.calls[c := Mutation(op, |s.history|, Requested)])
    case Ask(c) => s.(calls := s.calls[c := Emission(|s.history|, Asked)])
    case Enter(c) =>
      var t := s.(lock := Some(c));
      if s.calls[c].Mutation? then SetStage(t, c, Entered) else SetPhase(t, c, Inside)
    case Test(c) => SetStage(s, c, if s.uses[s.current] == 1 then Exclusive else Shared)
    case Copy(c) =>
      SetStage(s.(lists := s.lists[s.unused := s.lists[s.current]],
                  uses := s.uses[s.unused := 1], unused := s.unused + 1),
               c, Copied(s.unused))
    case Swap(c) => SetStage(DropUse(s, s.current).(current := s.calls[c].stage.copy), c, Exclusive)
    case Change(c) =>
      var op := s.calls[c].op;
      SetStage(s.(lists := s.lists[s.current := Perform(s.lists[s.current], op)], history := s.history + [op]),
               c, Changed(|s.history|))
    case Leave(c) =>
      var t := s.(lock := None);
      if s.calls[c].Mutation? then SetStage(t, c, Returned(s.calls[c].stage.at))
      else SetPhase(t, c, Visiting(s.calls[c].phase.list, s.calls[c].phase.at, []))
    case Take(c) =>
      SetPhase(s.(uses := s.uses[s.current := s.uses[s.current] + 1]), c, Taken(s.current, |s.history|))
    case Check(c) =>
      var Visiting(list, at, log) := s.calls[c].phase;
      var slot := s.lists[list][|log|];
      SetPhase(s, c, if Dead(slot, s.expired) then Visiting(list, at, log + [Visit(slot, false)])
                     else Checked(list, at, log))
    case Call(c) =>
      var Checked(list, at, log) := s.calls[c].phase;
      SetPhase(s, c, Visiting(list, at, log + [Visit(s.lists[list][|log|], true)]))
    case Release(c) =>
      var Visiting(list, at, log) := s.calls[c].phase;
      SetPhase(DropUse(s, list), c, Over(at, log))
    case Expire(owner) => s.(expired := s.expired + {owner})
  }

  /** The state after a run of events, if each was possible when its turn came. */
  function After(run: seq<Event>): Option<State> {
    if run == [] then Some(INITIAL) else
    var before := After(run[..|run| - 1]);
    var e := run[|run| - 1];
    if before.Some? && Enabled(before.value, e) then Some(Apply(before.value, e)) else None
  }

  ghost predicate Reachable(s: State) {
    exists run :: After(run) == Some(s)
  }

  // ---- The invariant ----

  /** The list a call keeps alive: its snapshot, or the copy it has not installed yet. */
  function Held(call: Call): Option<nat> {
    match call
    case Mutation(_, _, Copied(copy)) => Some(copy)
    case Mutation(_, _, _) => None
    case Emission(_, Taken(list, _)) => Some(list)
    case Emission(_, Visiting(list, _, _)) => Some(list)
    case Emission(_, Checked(list, _, _)) => Some(list)
    case Emission(_, _) => None
  }

  predicate Critical(call: Call) {
    match call
    case Mutation(_, _, stage) => stage.Entered? || stage.Shared? || stage.Copied? || stage.Exclusive? || stage.Changed?
    case Emission(_, phase) => phase.Inside? || phase.Taken?
  }

  function Holders(s: State, list: nat): set<nat> {
    set c | c in s.calls && Held(s.calls[c]) == Some(list)
  }

  /** The number of shared_ptrs to a list: one per call that holds it, and `slots_`. */
  function Owners(s: State, list: nat): nat {
    |Holders(s, list)| + if list == s.current then 1 else 0
  }

  /** Every list on the heap is in use, and its count is the number of its owners. */
  predicate Counted(s: State) {
    && s.lists.Keys == s.uses.Keys
    && s.current in s.lists
    && (forall l :: l in s.lists ==> l < s.unused && s.uses[l] > 0)
    && (forall l :: l in s.lists ==> s.uses[l] == Owners(s, l))
    && (forall c :: c in s.calls && Held(s.calls[c]).Some? ==> Held(s.calls[c]).value in s.lists)
  }

  /** The visits made so far are those of the first slots of the snapshot, in order. */
  predicate Follows(log: seq<Visit>, slots: seq<Slot>) {
    |log| <= |slots| && forall i :: 0 <= i < |log| ==> log[i].slot == slots[i]
  }

  /** Weakly bound to an object that has gone. */
  predicate Dead(slot: Slot, expired: set<nat>) {
    slot.owner.Some? && slot.owner.value in expired
  }

  /** What an operation knows about its place in the history. */
  predicate Placed(s: State, op: Op, began: nat, at: nat) {
    began <= at < |s.history| && s.history[at] == op
  }

  /** A snapshot is the list that was connected after the first `at` operations. */
  predicate Snapshot(s: State, began: nat, at: nat, slots: seq<Slot>) {
    began <= at <= |s.history| && slots == Connected(s.history[..at])
  }

  predicate CallOk(s: State, call: Call)
    requires s.current in s.lists && s.lists.Keys == s.uses.Keys
    requires Held(call).Some? ==> Held(call).value in s.lists
  {
    && call.began <= |s.history|
    && match call
       case Mutation(op, began, stage) =>
         && (stage.Copied? ==>
               stage.copy != s.current && s.lists[stage.copy] == s.lists[s.current] && s.uses[stage.copy] == 1)
         && (stage.Exclusive? ==> s.uses[s.current] == 1)
         && (stage.Changed? || stage.Returned? ==> Placed(s, op, began, stage.at))
       case Emission(began, phase) =>
         && (phase.Taken? ==> Snapshot(s, began, phase.at, s.lists[phase.list]))
         && (phase.Visiting? ==>
               Snapshot(s, began, phase.at, s.lists[phase.list]) && Follows(phase.log, s.lists[phase.list]))
         && (phase.Checked? ==>
               var slots := s.lists[phase.list];
               Snapshot(s, began, phase.at, slots) && Follows(phase.log, slots) && |phase.log| < |slots|)
         && (phase.Over? ==>
               phase.at <= |s.history| &&
               var slots := Connected(s.history[..phase.at]);
               Snapshot(s, began, phase.at, slots) && Follows(phase.log, slots) && |phase.log| == |slots|)
  }

  predicate Locked(s: State) {
    && (forall c :: c in s.calls ==> (Critical(s.calls[c]) <==> s.lock == Some(c)))
    && (s.lock.Some? ==> s.lock.value in s.calls)
  }

  predicate Inv(s: State) {
    && Counted(s)
    && Locked(s)
    && s.lists[s.current] == Connected(s.history)
    && (forall c :: c in s.calls ==> CallOk(s, s.calls[c]))
  }

  // ---- Every event keeps it ----

  lemma HolderAdded(s: State, t: State, c: nat, l: nat)
    requires c !in Holders(s, l) && c in Holders(t, l)
    requires forall d :: d != c ==> (d in Holders(s, l) <==> d in Holders(t, l))
    ensures |Holders(t, l)| == |Holders(s, l)| + 1
  {
    assert Holders(t, l) == Holders(s, l) + {c};
  }

  /** A step of one call that leaves what it holds alone leaves all owner counts alone. */
  lemma SameHolders(s: State, t: State, c: nat)
    requires c in t.calls && t.calls == s.calls[c := t.calls[c]]
    requires Held(t.calls[c]) == if c in s.calls then Held(s.calls[c]) else None
    ensures forall l :: Holders(t, l) == Holders(s, l)
  {
    forall l ensures Holders(t, l) == Holders(s, l) {
      forall d ensures d in Holders(t, l) <==> d in Holders(s, l) {}
    }
  }

  lemma InitialInv()
    ensures Inv(INITIAL)
  {
    assert Holders(INITIAL, 0) == {};
  }

  /** A step of one call that touches at most the mutex. */
  lemma KeepPrivate(s: State, t: State, c: nat)
    requires Inv(s) && c in t.calls
    requires t == s.(lock := t.lock, calls := s.calls[c := t.calls[c]])
    requires Held(t.calls[c]) == if c in s.calls then Held(s.calls[c]) else None
    requires CallOk(t, t.calls[c])
    requires t.lock == s.lock || (s.lock == None && t.lock == Some(c)) || (s.lock == Some(c) && t.lock == None)
    requires Critical(t.calls[c]) <==> t.lock == Some(c)
    ensures Inv(t)
  {
    hide Connected, Counted, CallOk, Held;
    CountedMeans(s);
    SameCounts(s, t, c);
    CountedMeans(t);
    forall d | d in t.calls ensures CallOk(t, t.calls[d]) {
      if d != c {
        SameOk(s, t, s.calls[d]);
      }
    }
  }

  /** What a call knows does not depend on the mutex or on other calls. */
  lemma SameOk(s: State, t: State, call: Call)
    requires t.lists == s.lists && t.uses == s.uses && t.current == s.current && t.history == s.history
    requires s.current in s.lists && s.lists.Keys == s.uses.Keys
    requires Held(call).Some? ==> Held(call).value in s.lists
    requires CallOk(s, call)
    ensures CallOk(t, call)
  {
    hide Connected, Follows;
  }

  lemma SameCounts(s: State, t: State, c: nat)
    requires Counted(s) && c in t.calls
    requires t == s.(lock := t.lock, calls := s.calls[c := t.calls[c]])
    requires Held(t.calls[c]) == if c in s.calls then Held(s.calls[c]) else None
    ensures Counted(t)
  {
    SameHolders(s, t, c);
    hide Holders;
  }

  lemma KeepRequest(s: State, c: nat, op: Op)
    requires Inv(s) && Enabled(s, Request(c, op))
    ensures Inv(Apply(s, Request(c, op)))
  {
    KeepPrivate(s, Apply(s, Request(c, op)), c);
  }

  lemma KeepAsk(s: State, c: nat)
    requires Inv(s) && Enabled(s, Ask(c))
    ensures Inv(Apply(s, Ask(c)))
  {
    KeepPrivate(s, Apply(s, Ask(c)), c);
  }

  lemma KeepEnter(s: State, c: nat)
    requires Inv(s) && Enabled(s, Enter(c))
    ensures Inv(Apply(s, Enter(c)))
  {
    assert CallOk(s, s.calls[c]);
    KeepPrivate(s, Apply(s, Enter(c)), c);
  }

  lemma KeepTest(s: State, c: nat)
    requires Inv(s) && Enabled(s, Test(c))
    ensures Inv(Apply(s, Test(c)))
  {
    hide Connected, Follows, Counted;
    CountedMeans(s);
    assert CallOk(s, s.calls[c]);
    KeepPrivate(s, Apply(s, Test(c)), c);
  }

  lemma FollowsNothing(lists: map<nat, seq<Slot>>)
    ensures forall l :: l in lists ==> Follows([], lists[l])
  {}

  lemma KeepLeave(s: State, c: nat)
    requires Inv(s) && Enabled(s, Leave(c))
    ensures Inv(Apply(s, Leave(c)))
  {
    hide Connected, Follows, Counted;
    CountedMeans(s);
    assert CallOk(s, s.calls[c]);
    FollowsNothing(s.lists);
    KeepPrivate(s, Apply(s, Leave(c)), c);
  }

  lemma FollowsNext(log: seq<Visit>, slots: seq<Slot>, visit: Visit)
    requires Follows(log, slots) && |log| < |slots| && visit.slot == slots[|log|]
    ensures Follows(log + [visit], slots)
  {}

  lemma KeepCheck(s: State, c: nat)
    requires Inv(s) && Enabled(s, Check(c))
    ensures Inv(Apply(s, Check(c)))
  {
    hide Connected, Follows, Counted;
    CountedMeans(s);
    assert CallOk(s, s.calls[c]);
    var Visiting(list, at, log) := s.calls[c].phase;
    FollowsNext(log, s.lists[list], Visit(s.lists[list][|log|], false));
    KeepPrivate(s, Apply(s, Check(c)), c);
  }

  lemma KeepCall(s: State, c: nat)
    requires Inv(s) && Enabled(s, Call(c))
    ensures Inv(Apply(s, Call(c)))
  {
    hide Connected, Follows, Counted;
    CountedMeans(s);
    assert CallOk(s, s.calls[c]);
    var Checked(list, at, log) := s.calls[c].phase;
    FollowsNext(log, s.lists[list], Visit(s.lists[list][|log|], true));
    KeepPrivate(s, Apply(s, Call(c)), c);
  }

  lemma KeepExpire(s: State, owner: nat)
    requires Inv(s)
    ensures Inv(s.(expired := s.expired + {owner}))
  {
    var t := s.(expired := s.expired + {owner});
    forall l ensures Holders(t, l) == Holders(s, l) {}
    forall c | c in t.calls ensures CallOk(t, t.calls[c]) {
      assert CallOk(s, s.calls[c]);
    }
  }

  /** A call outside the critical section depends on its own snapshot and on the past only. */
  lemma Unaffected(s: State, t: State, call: Call)
    requires s.current in s.lists && s.lists.Keys == s.uses.Keys && t.current in t.lists && t.lists.Keys == t.uses.Keys
    requires !Critical(call) && s.history <= t.history
    requires Held(call).Some? ==>
               var l := Held(call).value; l in s.lists && l in t.lists && t.lists[l] == s.lists[l]
    requires CallOk(s, call)
    ensures CallOk(t, call)
  {
    assert forall k :: 0 <= k <= |s.history| ==> t.history[..k] == s.history[..k];
  }

  /** The calls other than c when c is inside the critical section. */
  lemma OthersUnaffected(s: State, t: State, c: nat)
    requires Inv(s) && c in s.calls && Critical(s.calls[c]) && Counted(t)
    requires t.calls.Keys == s.calls.Keys && forall d :: d in s.calls && d != c ==> t.calls[d] == s.calls[d]
    requires s.history <= t.history
    requires forall d :: d in s.calls && d != c && Held(s.calls[d]).Some? ==>
               t.lists[Held(t.calls[d]).value] == s.lists[Held(s.calls[d]).value]
    ensures forall d :: d in t.calls && d != c ==> CallOk(t, t.calls[d])
  {
    forall d | d in t.calls && d != c ensures CallOk(t, t.calls[d]) {
      assert CallOk(s, s.calls[d]);
      Unaffected(s, t, s.calls[d]);
    }
  }

  lemma CopyCounted(s: State, c: nat)
    requires Inv(s) && Enabled(s, Copy(c))
    ensures Counted(Apply(s, Copy(c)))
  {
    hide Connected, Follows, Perform, CallOk, Locked;
    var t := Apply(s, Copy(c));
    assert Holders(s, s.unused) == {};
    HolderAdded(s, t, c, s.unused);
    forall l | l != s.unused ensures Holders(t, l) == Holders(s, l) {}
  }

  lemma KeepCopy(s: State, c: nat)
    requires Inv(s) && Enabled(s, Copy(c))
    ensures Inv(Apply(s, Copy(c)))
  {
    hide Connected, Follows, Perform, Counted, Owners, Holders;
    CountedMeans(s);
    var t := Apply(s, Copy(c));
    assert CallOk(s, s.calls[c]);
    CopyCounted(s, c);
    CountedMeans(t);
    OthersUnaffected(s, t, c);
  }

  /** Nobody but the signal owns the list that a change is made to. */
  lemma ExclusiveIsUnshared(s: State, c: nat)
    requires Inv(s) && InStage(s, c) && s.calls[c].stage == Exclusive
    ensures Holders(s, s.current) == {}
  {
    assert CallOk(s, s.calls[c]);
  }

  lemma ChangeCounted(s: State, c: nat)
    requires Inv(s) && Enabled(s, Change(c))
    ensures Counted(Apply(s, Change(c)))
    ensures forall d :: d in s.calls && Held(s.calls[d]).Some? ==> Held(s.calls[d]).value != s.current
  {
    hide Connected, Follows, Perform, Locked, CallOk;
    var t := Apply(s, Change(c));
    ExclusiveIsUnshared(s, c);
    SameHolders(s, t, c);
    forall d | d in s.calls && Held(s.calls[d]).Some? ensures Held(s.calls[d]).value != s.current {
      assert d !in Holders(s, s.current);
    }
  }

  lemma ConnectedStep(history: seq<Op>, op: Op)
    ensures Connected(history + [op]) == Perform(Connected(history), op)
  {
    assert (history + [op])[..|history|] == history;
  }

  lemma KeepChange(s: State, c: nat)
    requires Inv(s) && Enabled(s, Change(c))
    ensures Inv(Apply(s, Change(c)))
  {
    hide Connected, Perform, Follows, Counted, Owners, Holders;
    CountedMeans(s);
    var t := Apply(s, Change(c));
    assert CallOk(s, s.calls[c]);
    ChangeCounted(s, c);
    ConnectedStep(s.history, s.calls[c].op);
    CountedMeans(t);
    OthersUnaffected(s, t, c);
  }

  lemma TakeCounted(s: State, c: nat)
    requires Inv(s) && Enabled(s, Take(c))
    ensures Counted(Apply(s, Take(c)))
  {
    hide Connected, Follows, Perform, CallOk, Locked;
    var t := Apply(s, Take(c));
    HolderAdded(s, t, c, s.current);
    forall l | l != s.current ensures Holders(t, l) == Holders(s, l) {}
  }

  lemma KeepTake(s: State, c: nat)
    requires Inv(s) && Enabled(s, Take(c))
    ensures Inv(Apply(s, Take(c)))
  {
    hide Connected, Follows, Perform, Counted, Owners, Holders;
    CountedMeans(s);
    var t := Apply(s, Take(c));
    assert CallOk(s, s.calls[c]);
    TakeCounted(s, c);
    assert s.history[..|s.history|] == s.history;
    CountedMeans(t);
    OthersUnaffected(s, t, c);
  }

  /** Giving up one owner of a list keeps the counts right and every list that still has an owner. */
  lemma DropCounted(s: State, t: State, list: nat)
    requires Counted(s) && list in s.lists
    requires t.lists == DropUse(s, list).lists && t.uses == DropUse(s, list).uses && t.unused == s.unused
    requires forall l :: l in s.lists ==> Owners(t, l) == Owners(s, l) - if l == list then 1 else 0
    requires t.current in s.lists
    requires forall c :: c in t.calls && Held(t.calls[c]).Some? ==> Held(t.calls[c]).value in s.lists
    ensures Counted(t)
    ensures forall l :: l in t.lists ==> t.lists[l] == s.lists[l]
  {
    hide Owners, Held;
    if s.uses[list] <= 1 {
      NoOwner(t, list);
    }
  }

  lemma NoOwner(s: State, l: nat)
    requires Owners(s, l) == 0
    ensures l != s.current && forall c :: c in s.calls ==> Held(s.calls[c]) != Some(l)
  {
    forall c | c in s.calls ensures Held(s.calls[c]) != Some(l) {
      assert c !in Holders(s, l);
    }
  }

  lemma SwapCounted(s: State, c: nat)
    requires Inv(s) && Enabled(s, Swap(c))
    ensures var t := Apply(s, Swap(c));
            Counted(t) && t.uses[t.current] == 1 && t.lists[t.current] == s.lists[s.current] &&
            forall l :: l in t.lists ==> t.lists[l] == s.lists[l]
  {
    hide Connected, Follows, Perform;
    var t := Apply(s, Swap(c));
    assert CallOk(s, s.calls[c]);
    var copy := s.calls[c].stage.copy;
    HolderAdded(t, s, c, copy);
    forall l | l != copy ensures Holders(t, l) == Holders(s, l) {}
    DropCounted(s, t, s.current);
  }

  lemma KeepSwap(s: State, c: nat)
    requires Inv(s) && Enabled(s, Swap(c))
    ensures Inv(Apply(s, Swap(c)))
  {
    hide Connected, Follows, Perform, Counted, Owners, Holders;
    var t := Apply(s, Swap(c));
    CountedMeans(s);
    SwapCounted(s, c);
    CountedMeans(t);
    OthersUnaffected(s, t, c);
  }

  lemma CountedMeans(s: State)
    requires Counted(s)
    ensures s.current in s.lists && s.lists.Keys == s.uses.Keys
    ensures forall l :: l in s.lists ==> l < s.unused
    ensures forall c :: c in s.calls && Held(s.calls[c]).Some? ==> Held(s.calls[c]).value in s.lists
  {}

  lemma ReleaseCounted(s: State, c: nat)
    requires Inv(s) && Enabled(s, Release(c))
    ensures var t := Apply(s, Release(c));
            Counted(t) && forall l :: l in t.lists ==> t.lists[l] == s.lists[l]
  {
    hide Connected, Follows, Perform, CallOk, Locked;
    var t := Apply(s, Release(c));
    var list := s.calls[c].phase.list;
    HolderAdded(t, s, c, list);
    forall l | l != list ensures Holders(t, l) == Holders(s, l) {}
    DropCounted(s, t, list);
  }

  /** A list with one owner is not the snapshot of anybody else. */
  lemma SoleOwner(s: State, c: nat, l: nat)
    requires Counted(s) && l in s.lists && c in s.calls && Held(s.calls[c]) == Some(l)
    ensures l == s.current ==> s.uses[l] > 1
    ensures s.uses[l] == 1 ==> forall d :: d in s.calls && Held(s.calls[d]) == Some(l) ==> d == c
  {
    assert c in Holders(s, l);
    if d :| d in s.calls && Held(s.calls[d]) == Some(l) && d != c {
      assert {c, d} <= Holders(s, l);
      SubsetSize({c, d}, Holders(s, l));
    }
  }

  lemma {:induction false} SubsetSize(x: set<nat>, y: set<nat>)
    requires x <= y
    ensures |x| <= |y|
    decreases x
  {
    if e :| e in x {
      SubsetSize(x - {e}, y - {e});
    }
  }

  /** The end of an Emit frees at most its own snapshot. */
  lemma ReleaseSpares(s: State, c: nat, d: nat)
    requires Inv(s) && Enabled(s, Release(c)) && d in s.calls && d != c && Held(s.calls[d]).Some?
    ensures var l := Held(s.calls[d]).value;
            var t := Apply(s, Release(c));
            l in s.lists && l in t.lists && t.lists[l] == s.lists[l] &&
            (s.uses[l] == 1 ==> t.uses[l] == 1)
  {
    hide Connected, Follows, Perform, CallOk, Locked;
    SoleOwner(s, d, Held(s.calls[d]).value);
    SoleOwner(s, c, s.calls[c].phase.list);
  }

  lemma ReleaseCurrent(s: State, c: nat)
    requires Inv(s) && Enabled(s, Release(c))
    ensures var t := Apply(s, Release(c));
            t.current in t.lists && t.lists[t.current] == s.lists[s.current] && t.current == s.current &&
            (s.uses[s.current] == 1 ==> t.uses[s.current] == 1)
  {
    hide Connected, Follows, Perform, CallOk, Locked;
    SoleOwner(s, c, s.calls[c].phase.list);
  }

  lemma FollowsMeans(log: seq<Visit>, slots: seq<Slot>)
    ensures Follows(log, slots) ==> |log| <= |slots|
  {}

  /** The calls other than the one that ends. */
  lemma ReleaseOther(s: State, c: nat, d: nat)
    requires Inv(s) && Enabled(s, Release(c)) && d in s.calls && d != c
    ensures var t := Apply(s, Release(c));
            t.current in t.lists && t.lists.Keys == t.uses.Keys && d in t.calls && t.calls[d] == s.calls[d] &&
            (Held(s.calls[d]).Some? ==> Held(s.calls[d]).value in t.lists) && CallOk(t, s.calls[d])
  {
    hide Connected, Perform, Counted, Owners, Holders, Follows, Locked;
    CountedMeans(s);
    assert CallOk(s, s.calls[d]);
    ReleaseCounted(s, c);
    CountedMeans(Apply(s, Release(c)));
    ReleaseCurrent(s, c);
    if Held(s.calls[d]).Some? {
      ReleaseSpares(s, c, d);
    }
  }

  /** The call that ends. */
  lemma ReleaseOwn(s: State, c: nat)
    requires Inv(s) && Enabled(s, Release(c))
    ensures var t := Apply(s, Release(c));
            t.current in t.lists && t.lists.Keys == t.uses.Keys && c in t.calls &&
            t.calls[c] == Emission(s.calls[c].began, Over(s.calls[c].phase.at, s.calls[c].phase.log)) &&
            CallOk(t, t.calls[c])
  {
    hide Connected, Perform, Counted, Owners, Holders, Follows, Locked;
    CountedMeans(s);
    assert CallOk(s, s.calls[c]);
    FollowsMeans(s.calls[c].phase.log, s.lists[s.calls[c].phase.list]);
    ReleaseCounted(s, c);
    CountedMeans(Apply(s, Release(c)));
  }

  lemma KeepRelease(s: State, c: nat)
    requires Inv(s) && Enabled(s, Release(c))
    ensures Inv(Apply(s, Release(c)))
  {
    hide Connected, Perform, Counted, Owners, Holders, Follows, CallOk;
    var t := Apply(s, Release(c));
    CountedMeans(s);
    ReleaseCounted(s, c);
    CountedMeans(t);
    ReleaseCurrent(s, c);
    ReleaseOwn(s, c);
    forall d | d in t.calls && d != c ensures CallOk(t, t.calls[d]) {
      ReleaseOther(s, c, d);
    }
  }

  lemma KeepInv(s: State, e: Event)
    requires Inv(s) && Enabled(s, e)
    ensures Inv(Apply(s, e))
  {
    match e
    case Request(c, op) => KeepRequest(s, c, op);
    case Ask(c) => KeepAsk(s, c);
    case Enter(c) => KeepEnter(s, c);
    case Test(c) => KeepTest(s, c);
    case Copy(c) => KeepCopy(s, c);
    case Swap(c) => KeepSwap(s, c);
    case Change(c) => KeepChange(s, c);
    case Leave(c) => KeepLeave(s, c);
    case Take(c) => KeepTake(s, c);
    case Check(c) => KeepCheck(s, c);
    case Call(c) => KeepCall(s, c);
    case Release(c) => KeepRelease(s, c);
    case Expire(owner) => KeepExpire(s, owner);
  }

  lemma {:induction false} RunKeepsInv(run: seq<Event>)
    ensures After(run).Some? ==> Inv(After(run).value)
    decreases |run|
  {
    if run == [] {
      InitialInv();
    } else {
      var before := After(run[..|run| - 1]);
      RunKeepsInv(run[..|run| - 1]);
      if before.Some? && Enabled(before.value, run[|run| - 1]) {
        KeepInv(before.value, run[|run| - 1]);
      }
    }
  }

  lemma ReachableInv(s: State)
    requires Reachable(s)
    ensures Inv(s)
  {
    var run :| After(run) == Some(s);
    RunKeepsInv(run);
  }

  // ---- What a history means for a connection ----

  /** Every connection is made once: Connect always creates a new slot. */
  predicate UniqueAdds(h: seq<Op>) {
    forall a, b :: 0 <= a < b < |h| && h[a].Add? ==> h[a] != h[b]
  }

  /** Neither disconnected nor cleared after place `a`. */
  predicate StaysAfter(h: seq<Op>, slot: Slot, a: nat) {
    forall j :: a < j < |h| ==> h[j] != Remove(slot) && h[j] != Clear
  }

  /** The connections made at place `a` or later that are still there at the end, in the order they were made. */
  function Live(h: seq<Op>, a: nat): seq<Slot>
    decreases |h| - a
  {
    if a >= |h| then []
    else if h[a].Add? && StaysAfter(h, h[a].slot, a) then [h[a].slot] + Live(h, a + 1)
    else Live(h, a + 1)
  }

  lemma StaysStep(h: seq<Op>, op: Op, slot: Slot, a: nat)
    requires a < |h|
    ensures StaysAfter(h + [op], slot, a) <==> StaysAfter(h, slot, a) && op != Remove(slot) && op != Clear
  {
    assert (h + [op])[|h|] == op;
    forall j | a < j < |h| ensures (h + [op])[j] == h[j] {}
  }

  lemma {:induction false} LiveMade(h: seq<Op>, a: nat, slot: Slot)
    requires slot in Live(h, a)
    ensures exists b :: a <= b < |h| && h[b] == Add(slot) && StaysAfter(h, slot, b)
    decreases |h| - a
  {
    if !(h[a] == Add(slot) && StaysAfter(h, slot, a)) {
      LiveMade(h, a + 1, slot);
    }
  }

  lemma {:induction false} StaysLive(h: seq<Op>, a: nat, b: nat)
    requires a <= b < |h| && h[b].Add? && StaysAfter(h, h[b].slot, b)
    ensures h[b].slot in Live(h, a)
    decreases b - a
  {
    if a < b {
      StaysLive(h, a + 1, b);
    }
  }

  /** What comes first was connected first. */
  lemma {:induction false} LiveInOrder(h: seq<Op>, a: nat, i: nat, j: nat)
    requires i < j < |Live(h, a)|
    ensures exists p, q :: a <= p < q < |h| && h[p] == Add(Live(h, a)[i]) && h[q] == Add(Live(h, a)[j])
    decreases |h| - a
  {
    if h[a].Add? && StaysAfter(h, h[a].slot, a) {
      if i == 0 {
        LiveMade(h, a + 1, Live(h, a)[j]);
      } else {
        LiveInOrder(h, a + 1, i - 1, j - 1);
      }
    } else {
      LiveInOrder(h, a + 1, i, j);
    }
  }

  lemma {:induction false} WithoutAbsent(slots: seq<Slot>, slot: Slot)
    requires slot !in slots
    ensures Without(slots, slot) == slots
  {
    if slots != [] {
      WithoutAbsent(slots[1..], slot);
    }
  }

  /** One more operation changes the live connections as Perform changes the list. */
  lemma {:induction false} LiveStep(h: seq<Op>, op: Op, a: nat)
    requires UniqueAdds(h) && a <= |h|
    ensures Live(h + [op], a) == Perform(Live(h, a), op)
    decreases |h| - a
  {
    var g := h + [op];
    if a == |h| {
      assert Live(g, a + 1) == [];
    } else {
      LiveStep(h, op, a + 1);
      if h[a].Add? {
        var slot := h[a].slot;
        StaysStep(h, op, slot, a);
        if op == Remove(slot) {
          if slot in Live(h, a + 1) {
            LiveMade(h, a + 1, slot);
          }
          WithoutAbsent(Live(h, a + 1), slot);
        }
      }
    }
  }

  /** The list the signal keeps is the live connections, each once, in the order in which they were made. */
  lemma {:induction false} ConnectedIsLive(h: seq<Op>)
    requires UniqueAdds(h)
    ensures Connected(h) == Live(h, 0)
    decreases |h|
  {
    if h != [] {
      var n := |h| - 1;
      assert h == h[..n] + [h[n]];
      ConnectedIsLive(h[..n]);
      LiveStep(h[..n], h[n], 0);
    }
  }

  // ---- Every run makes each connection once, if Connect does ----

  /** No two calls of AddSlot are made with the same slot. */
  predicate FreshConnects(run: seq<Event>) {
    forall i, j :: 0 <= i < j < |run| && run[i].Request? && run[j].Request? && run[i].op.Add? ==> run[i].op != run[j].op
  }

  /** Every mutation was asked for by an event of the run, and every operation in the history is that of a call. */
  ghost predicate Recorded(s: State, run: seq<Event>) {
    && (forall c :: InStage(s, c) ==> exists i :: 0 <= i < |run| && run[i] == Request(c, s.calls[c].op))
    && (forall k :: 0 <= k < |s.history| ==> Committed(s, k))
  }

  predicate Commits(s: State, c: nat, k: nat) {
    InStage(s, c) && (s.calls[c].stage == Changed(k) || s.calls[c].stage == Returned(k))
  }

  ghost predicate Committed(s: State, k: nat) {
    exists c :: Commits(s, c, k)
  }

  /** A call keeps its operation and its place in the history; only Request makes a mutation,
      only Change commits one. */
  lemma CallsGoOn(s: State, e: Event, c: nat)
    requires Enabled(s, e)
    ensures var t := Apply(s, e);
            && (InStage(s, c) ==> InStage(t, c) && t.calls[c].op == s.calls[c].op)
            && (InStage(t, c) && !InStage(s, c) ==> e == Request(c, t.calls[c].op))
            && (forall k :: Commits(s, c, k) ==> Commits(t, c, k))
            && (t.history == s.history || (e == Change(c) ==> Commits(t, c, |s.history|)))
            && (t.history != s.history ==> e.Change? && |t.history| == |s.history| + 1)
  {
    hide Connected, Perform, Without, DropUse;
  }

  lemma RecordedStep(s: State, e: Event, run: seq<Event>)
    requires Enabled(s, e) && Recorded(s, run)
    ensures Recorded(Apply(s, e), run + [e])
  {
    var t := Apply(s, e);
    var g := run + [e];
    assert g[|run|] == e;
    forall c ensures InStage(t, c) ==> exists i :: 0 <= i < |g| && g[i] == Request(c, t.calls[c].op) {
      CallsGoOn(s, e, c);
      hide Apply, Enabled;
      if InStage(s, c) {
        var i :| 0 <= i < |run| && run[i] == Request(c, s.calls[c].op);
        assert g[i] == run[i];
      }
    }
    CallsGoOn(s, e, if e.Expire? then 0 else e.c);
    forall k | 0 <= k < |t.history| ensures Committed(t, k) {
      hide Apply, Enabled;
      if k < |s.history| {
        assert Committed(s, k);
        var c :| Commits(s, c, k);
        CallsGoOn(s, e, c);
        assert Commits(t, c, k);
      } else {
        assert Commits(t, e.c, k);
      }
    }
  }

  lemma {:induction false} RunIsRecorded(run: seq<Event>)
    ensures After(run).Some? ==> Recorded(After(run).value, run)
    decreases |run|
  {
    if run != [] {
      var n := |run| - 1;
      RunIsRecorded(run[..n]);
      assert run == run[..n] + [run[n]];
      if After(run).Some? {
        RecordedStep(After(run[..n]).value, run[n], run[..n]);
      }
    }
  }

  lemma HistoryIsUnique(run: seq<Event>, s: State)
    requires After(run) == Some(s) && FreshConnects(run)
    ensures UniqueAdds(s.history)
  {
    RunKeepsInv(run);
    RunIsRecorded(run);
    hide Inv, After;
    forall a, b | 0 <= a < b < |s.history| && s.history[a].Add? ensures s.history[a] != s.history[b] {
      assert Committed(s, a) && Committed(s, b);
      var c :| Commits(s, c, a);
      var d :| Commits(s, d, b);
      OpOf(s, c, a);
      OpOf(s, d, b);
      var i :| 0 <= i < |run| && run[i] == Request(c, s.calls[c].op);
      var j :| 0 <= j < |run| && run[j] == Request(d, s.calls[d].op);
      assert i != j;
    }
  }

  lemma OpOf(s: State, c: nat, k: nat)
    requires Inv(s) && Commits(s, c, k)
    ensures k < |s.history| && s.history[k] == s.calls[c].op
  {
    assert CallOk(s, s.calls[c]);
  }

  // ---- The guarantees ----

  /** Snapshot isolation: in no interleaving does any event change, or free, the list of an Emit under way. */
  lemma SnapshotIsIsolated(s: State, e: Event, c: nat)
    requires Reachable(s) && Enabled(s, e)
    requires c in s.calls && s.calls[c].Emission? && Held(s.calls[c]).Some?
    ensures var l := Held(s.calls[c]).value;
            l in s.lists &&
            (Held(Apply(s, e).calls[c]) == Some(l) ==> l in Apply(s, e).lists && Apply(s, e).lists[l] == s.lists[l])
  {
    ReachableInv(s);
    Isolated(s, e, c);
  }

  lemma Isolated(s: State, e: Event, c: nat)
    requires Inv(s) && Enabled(s, e) && InPhase(s, c) && Held(s.calls[c]).Some?
    ensures var l, t := Held(s.calls[c]).value, Apply(s, e);
            l in s.lists && InPhase(t, c) && (Held(t.calls[c]) == Some(l) ==> l in t.lists && t.lists[l] == s.lists[l])
  {
    hide Apply, Enabled, Inv, Connected;
    KeepInv(s, e);
    SnapshotOf(s, c);
    EmissionGoesOn(s, e, c);
    var t := Apply(s, e);
    var l := Held(s.calls[c]).value;
    if Held(t.calls[c]) == Some(l) {
      SnapshotOf(t, c);
      var at := SnapshotPlace(s.calls[c]);
      assert t.history[..at] == s.history[..at];
    }
  }

  function SnapshotPlace(call: Call): nat
    requires call.Emission? && Held(call).Some?
  {
    call.phase.at
  }

  lemma SnapshotOf(s: State, c: nat)
    requires Inv(s) && InPhase(s, c) && Held(s.calls[c]).Some?
    ensures var l, at := Held(s.calls[c]).value, SnapshotPlace(s.calls[c]);
            l in s.lists && at <= |s.history| && s.lists[l] == Connected(s.history[..at])
  {
    assert CallOk(s, s.calls[c]);
  }

  /** An Emit under way keeps the place of its snapshot, and the history only grows. */
  lemma EmissionGoesOn(s: State, e: Event, c: nat)
    requires Enabled(s, e) && InPhase(s, c) && Held(s.calls[c]).Some?
    ensures var t := Apply(s, e);
            && s.history <= t.history && InPhase(t, c)
            && (Held(t.calls[c]) == Held(s.calls[c]) ==> SnapshotPlace(t.calls[c]) == SnapshotPlace(s.calls[c]))
  {
    hide Connected, Perform, Without, DropUse;
  }

  // ---- The course of an Emit in its run ----

  lemma {:induction false} PrefixRuns(run: seq<Event>, k: nat)
    requires After(run).Some? && k <= |run|
    ensures After(run[..k]).Some? && After(run[..k]).value.history <= After(run).value.history
    decreases |run|
  {
    if k == |run| {
      assert run[..k] == run;
    } else {
      var n := |run| - 1;
      PrefixRuns(run[..n], k);
      assert run[..n][..k] == run[..k];
      HistoryGrows(After(run[..n]).value, run[n]);
    }
  }

  lemma HistoryGrows(s: State, e: Event)
    requires Enabled(s, e)
    ensures s.history <= Apply(s, e).history
  {
    hide Connected, Perform, Without;
  }

  /** The objects gone after a run are those that have an Expire in it. */
  lemma {:induction false} ExpiredInRun(run: seq<Event>, owner: nat)
    requires After(run).Some?
    ensures owner in After(run).value.expired <==> Expire(owner) in run
    decreases |run|
  {
    if run != [] {
      var n := |run| - 1;
      assert run == run[..n] + [run[n]];
      ExpiredInRun(run[..n], owner);
      ExpiredStep(After(run[..n]).value, run[n]);
    }
  }

  lemma ExpiredStep(s: State, e: Event)
    requires Enabled(s, e)
    ensures Apply(s, e).expired == s.expired + if e.Expire? then {e.owner} else {}
  {
    hide Connected, Perform, Without;
  }

  /** The object of a slot has gone in the course of these events. */
  predicate Gone(slot: Slot, events: seq<Event>) {
    slot.owner.Some? && Expire(slot.owner.value) in events
  }

  /** The places in the run where a slot was checked and where its turn was over. */
  datatype Turn = Turn(check: nat, done: nat)

  /** A slot is called, in an event of its own after its check, exactly when its object was there at the check. */
  predicate TurnOk(run: seq<Event>, c: nat, visit: Visit, turn: Turn) {
    && turn.check <= turn.done < |run|
    && run[turn.check] == Check(c)
    && (visit.called <==> !Gone(visit.slot, run[..turn.check]))
    && (if visit.called then turn.check < turn.done && run[turn.done] == Call(c) else turn.done == turn.check)
  }

  /** One turn per visit, one after the other, all behind place `from`. */
  predicate TurnsOk(run: seq<Event>, c: nat, from: nat, log: seq<Visit>, turns: seq<Turn>) {
    && |turns| == |log|
    && (forall i :: 0 <= i < |turns| ==> TurnOk(run, c, log[i], turns[i]) && from < turns[i].check)
    && (forall i, j :: 0 <= i < j < |turns| ==> turns[i].done < turns[j].check)
  }

  /** Where an Emit was made, took its snapshot, had its turns, checked a slot it has not called yet, and ended. */
  datatype Course = Course(asked: nat, took: nat, turns: seq<Turn>, pending: nat, released: nat)

  function HistoryAt(run: seq<Event>, k: nat): nat
    requires k <= |run|
  {
    var s := After(run[..k]);
    if s.Some? then |s.value.history| else 0
  }

  function Log(phase: Phase): seq<Visit> {
    if phase.Visiting? || phase.Checked? || phase.Over? then phase.log else []
  }

  /** All turns are over before place k. */
  predicate TurnsBefore(turns: seq<Turn>, k: nat) {
    forall i :: 0 <= i < |turns| ==> turns[i].done < k
  }

  predicate WasAsked(run: seq<Event>, c: nat, began: nat, asked: nat) {
    asked < |run| && run[asked] == Ask(c) && HistoryAt(run, asked) == began
  }

  predicate Took(run: seq<Event>, c: nat, at: nat, asked: nat, took: nat) {
    asked < took < |run| && run[took] == Take(c) && HistoryAt(run, took) == at
  }

  predicate Pending(run: seq<Event>, c: nat, slot: Slot, took: nat, turns: seq<Turn>, pending: nat) {
    && took < pending < |run| && run[pending] == Check(c) && !Gone(slot, run[..pending])
    && TurnsBefore(turns, pending)
  }

  predicate Released(run: seq<Event>, c: nat, took: nat, turns: seq<Turn>, released: nat) {
    took < released < |run| && run[released] == Release(c) && TurnsBefore(turns, released)
  }

  /** Every check and every call that the run has for c belongs to a turn, but for a check whose slot is still to be
      called. */
  predicate Complete(run: seq<Event>, c: nat, turns: seq<Turn>, pending: Option<nat>) {
    forall k :: 0 <= k < |run| ==>
      && (run[k] == Check(c) ==> pending == Some(k) || exists i :: 0 <= i < |turns| && turns[i].check == k)
      && (run[k] == Call(c) ==> exists i :: 0 <= i < |turns| && turns[i].done == k)
  }

  function TurnsOf(phase: Phase, w: Course): seq<Turn> {
    if phase.Asked? || phase.Inside? then [] else w.turns
  }

  function PendingOf(phase: Phase, w: Course): Option<nat> {
    if phase.Checked? then Some(w.pending) else None
  }

  /** The course accounts for everything the state knows of the Emit, and for everything the run has of it. */
  predicate Accounts(run: seq<Event>, s: State, c: nat, w: Course)
    requires InPhase(s, c)
  {
    var Emission(began, phase) := s.calls[c];
    && WasAsked(run, c, began, w.asked)
    && Complete(run, c, TurnsOf(phase, w), PendingOf(phase, w))
    && (!phase.Asked? && !phase.Inside? ==>
          && Took(run, c, phase.at, w.asked, w.took)
          && TurnsOk(run, c, w.took, Log(phase), w.turns))
    && (phase.Checked? ==>
          && phase.list in s.lists && |phase.log| < |s.lists[phase.list]|
          && Pending(run, c, s.lists[phase.list][|phase.log|], w.took, w.turns, w.pending))
    && (phase.Over? ==> Released(run, c, w.took, w.turns, w.released))
  }

  lemma PrefixOf(run: seq<Event>, e: Event, k: nat)
    requires k <= |run|
    ensures (run + [e])[..k] == run[..k]
  {}

  /** A longer run does not change what happened at earlier places. */
  lemma TurnsStay(run: seq<Event>, e: Event, c: nat, from: nat, log: seq<Visit>, turns: seq<Turn>)
    requires TurnsOk(run, c, from, log, turns)
    ensures TurnsOk(run + [e], c, from, log, turns)
  {
    forall i | 0 <= i < |turns| ensures TurnOk(run + [e], c, log[i], turns[i]) {
      PrefixOf(run, e, turns[i].check);
    }
  }

  lemma PlacesStay(run: seq<Event>, e: Event, c: nat, began: nat, at: nat, w: Course)
    ensures WasAsked(run, c, began, w.asked) ==> WasAsked(run + [e], c, began, w.asked)
    ensures Took(run, c, at, w.asked, w.took) ==> Took(run + [e], c, at, w.asked, w.took)
    ensures Released(run, c, w.took, w.turns, w.released) ==> Released(run + [e], c, w.took, w.turns, w.released)
  {
    if w.asked <= |run| {
      PrefixOf(run, e, w.asked);
    }
    if w.took <= |run| {
      PrefixOf(run, e, w.took);
    }
  }

  lemma PendingStays(run: seq<Event>, e: Event, c: nat, slot: Slot, w: Course)
    requires Pending(run, c, slot, w.took, w.turns, w.pending)
    ensures Pending(run + [e], c, slot, w.took, w.turns, w.pending)
  {
    PrefixOf(run, e, w.pending);
  }

  lemma OneMoreTurn(run: seq<Event>, c: nat, from: nat, log: seq<Visit>, turns: seq<Turn>, visit: Visit, turn: Turn)
    requires TurnsOk(run, c, from, log, turns) && TurnOk(run, c, visit, turn)
    requires from < turn.check && TurnsBefore(turns, turn.check)
    ensures TurnsOk(run, c, from, log + [visit], turns + [turn])
  {
    hide TurnOk;
  }

  /** Other events need no turn. */
  lemma OthersComplete(run: seq<Event>, e: Event, c: nat, turns: seq<Turn>, pending: Option<nat>)
    requires Complete(run, c, turns, pending) && e != Check(c) && e != Call(c)
    ensures Complete(run + [e], c, turns, pending)
  {
    var more := run + [e];
    forall k | 0 <= k < |more|
      ensures more[k] == Check(c) ==> pending == Some(k) || exists i :: 0 <= i < |turns| && turns[i].check == k
      ensures more[k] == Call(c) ==> exists i :: 0 <= i < |turns| && turns[i].done == k
    {
      assert k < |run| ==> more[k] == run[k];
    }
  }

  lemma PendingComplete(run: seq<Event>, c: nat, turns: seq<Turn>)
    requires Complete(run, c, turns, None)
    ensures Complete(run + [Check(c)], c, turns, Some(|run|))
  {
    var more := run + [Check(c)];
    forall k | 0 <= k < |more|
      ensures more[k] == Check(c) ==> k == |run| || exists i :: 0 <= i < |turns| && turns[i].check == k
      ensures more[k] == Call(c) ==> exists i :: 0 <= i < |turns| && turns[i].done == k
    {
      assert k < |run| ==> more[k] == run[k];
    }
  }

  /** A turn that is over takes in the check it began with and the call it ended with. */
  lemma TurnComplete(run: seq<Event>, e: Event, c: nat, turns: seq<Turn>, pending: Option<nat>, turn: Turn)
    requires Complete(run, c, turns, pending) && turn.done == |run|
    requires if pending.Some? then turn.check == pending.value && e == Call(c) else turn.check == |run| && e == Check(c)
    ensures Complete(run + [e], c, turns + [turn], None)
  {
    var more, all := run + [e], turns + [turn];
    assert all[|turns|] == turn;
    forall k | 0 <= k < |more|
      ensures more[k] == Check(c) ==> exists i :: 0 <= i < |all| && all[i].check == k
      ensures more[k] == Call(c) ==> exists i :: 0 <= i < |all| && all[i].done == k
    {
      assert k < |run| ==> more[k] == run[k];
      if k < |run| && run[k] == Check(c) && pending != Some(k) {
        var i :| 0 <= i < |turns| && turns[i].check == k;
        assert all[i] == turns[i];
      }
      if k < |run| && run[k] == Call(c) {
        var i :| 0 <= i < |turns| && turns[i].done == k;
        assert all[i] == turns[i];
      }
    }
  }

  /** Before an Emit is made the run has nothing of it. */
  lemma {:induction false} NothingBefore(run: seq<Event>, c: nat)
    requires After(run).Some? && !InPhase(After(run).value, c)
    ensures Complete(run, c, [], None)
    decreases |run|
  {
    if run != [] {
      var n := |run| - 1;
      var front, e := run[..n], run[n];
      assert run == front + [e];
      var s := After(front).value;
      if InPhase(s, c) {
        EmissionMoves(s, e, c);
        assert false;
      } else {
        NothingBefore(front, c);
        assert e != Check(c) && e != Call(c);
        hide After, InPhase, Complete;
        OthersComplete(front, e, c, [], None);
      }
    }
  }

  lemma DeadIsGone(run: seq<Event>, slot: Slot)
    requires After(run).Some?
    ensures Dead(slot, After(run).value.expired) <==> Gone(slot, run)
  {
    if slot.owner.Some? {
      ExpiredInRun(run, slot.owner.value);
    }
  }

  /** Only these events move an Emit on; the others leave it as it is. */
  lemma EmissionMoves(s: State, e: Event, c: nat)
    requires Enabled(s, e) && InPhase(s, c)
    ensures var t := Apply(s, e);
            && InPhase(t, c)
            && (t.calls[c] == s.calls[c] || e in {Enter(c), Take(c), Leave(c), Check(c), Call(c), Release(c)})
            && (t.calls[c] == s.calls[c] ==> e != Check(c) && e != Call(c))
  {
    hide Connected, Perform, Without, DropUse;
  }

  lemma CourseStays(run: seq<Event>, s: State, e: Event, c: nat, w: Course)
    requires Inv(s) && Enabled(s, e) && InPhase(s, c) && Accounts(run, s, c, w)
    requires InPhase(Apply(s, e), c) && Apply(s, e).calls[c] == s.calls[c]
    ensures Accounts(run + [e], Apply(s, e), c, w)
  {
    EmissionMoves(s, e, c);
    hide Inv, Enabled, Apply, WasAsked, Took, Pending, Released, TurnsOk, After, Complete;
    var Emission(began, phase) := s.calls[c];
    OthersComplete(run, e, c, TurnsOf(phase, w), PendingOf(phase, w));
    if !phase.Asked? && !phase.Inside? {
      TurnsStay(run, e, c, w.took, Log(phase), w.turns);
      PlacesStay(run, e, c, began, phase.at, w);
    } else {
      PlacesStay(run, e, c, began, 0, w);
    }
    if phase.Checked? {
      Isolated(s, e, c);
      PendingStays(run, e, c, s.lists[phase.list][|phase.log|], w);
    }
  }

  /** The places up to the end of the critical section. */
  lemma PlacesBegin(run: seq<Event>, s: State, e: Event, c: nat, w: Course)
    requires After(run) == Some(s) && InPhase(s, c) && WasAsked(run, c, s.calls[c].began, w.asked)
    requires e == Take(c)
    ensures Took(run + [e], c, |s.history|, w.asked, |run|) && TurnsOk(run + [e], c, |run|, [], [])
  {
    PrefixOf(run, e, |run|);
    assert run[..|run|] == run;
    hide After;
  }

  /** The course up to the end of the critical section. */
  lemma CourseBegins(run: seq<Event>, s: State, e: Event, c: nat, w: Course) returns (v: Course)
    requires After(run) == Some(s) && Enabled(s, e) && InPhase(s, c) && Accounts(run, s, c, w)
    requires e in {Enter(c), Take(c), Leave(c)}
    ensures InPhase(Apply(s, e), c) && Accounts(run + [e], Apply(s, e), c, v)
  {
    hide After, WasAsked, Took, Pending, Released, TurnsOk, Complete;
    var Emission(began, phase) := s.calls[c];
    OthersComplete(run, e, c, TurnsOf(phase, w), None);
    if e.Take? {
      PlacesBegin(run, s, e, c, w);
      v := w.(took := |run|, turns := []);
    } else {
      v := w;
    }
    if phase.Taken? {
      PlacesStay(run, e, c, began, phase.at, w);
      TurnsStay(run, e, c, w.took, [], w.turns);
    } else {
      PlacesStay(run, e, c, began, 0, w);
    }
  }

  /** A slot whose object has gone has its turn at its check. */
  lemma SkippedTurn(run: seq<Event>, c: nat, took: nat, at: nat, asked: nat, log: seq<Visit>, turns: seq<Turn>,
                    slot: Slot)
    requires Took(run, c, at, asked, took) && TurnsOk(run, c, took, log, turns) && Gone(slot, run)
    ensures TurnsOk(run + [Check(c)], c, took, log + [Visit(slot, false)], turns + [Turn(|run|, |run|)])
  {
    var e, n := Check(c), |run|;
    TurnsStay(run, e, c, took, log, turns);
    PrefixOf(run, e, n);
    assert run[..n] == run && TurnsBefore(turns, n);
    hide Gone;
    OneMoreTurn(run + [e], c, took, log, turns, Visit(slot, false), Turn(n, n));
  }

  lemma NowPending(run: seq<Event>, c: nat, took: nat, at: nat, asked: nat, log: seq<Visit>, turns: seq<Turn>,
                   slot: Slot)
    requires Took(run, c, at, asked, took) && TurnsOk(run, c, took, log, turns) && !Gone(slot, run)
    ensures Pending(run + [Check(c)], c, slot, took, turns, |run|)
  {
    PrefixOf(run, Check(c), |run|);
    assert run[..|run|] == run && TurnsBefore(turns, |run|);
    hide Gone;
  }

  lemma CourseChecks(run: seq<Event>, s: State, c: nat, w: Course) returns (v: Course)
    requires After(run) == Some(s) && Enabled(s, Check(c)) && Accounts(run, s, c, w)
    ensures InPhase(Apply(s, Check(c)), c) && Accounts(run + [Check(c)], Apply(s, Check(c)), c, v)
  {
    hide After, Gone, Dead, WasAsked, Took, Pending, Released, TurnsOk, Complete;
    var e, n := Check(c), |run|;
    var Emission(began, phase) := s.calls[c];
    var slot := s.lists[phase.list][|phase.log|];
    DeadIsGone(run, slot);
    PlacesStay(run, e, c, began, phase.at, w);
    if Dead(slot, s.expired) {
      v := w.(turns := w.turns + [Turn(n, n)]);
      SkippedTurn(run, c, w.took, phase.at, w.asked, phase.log, w.turns, slot);
      TurnComplete(run, e, c, w.turns, None, Turn(n, n));
    } else {
      v := w.(pending := n);
      TurnsStay(run, e, c, w.took, phase.log, w.turns);
      NowPending(run, c, w.took, phase.at, w.asked, phase.log, w.turns, slot);
      PendingComplete(run, c, w.turns);
    }
  }

  /** A slot that was checked has its turn when it is called. */
  lemma CalledTurn(run: seq<Event>, c: nat, took: nat, log: seq<Visit>, turns: seq<Turn>, slot: Slot, pending: nat)
    requires TurnsOk(run, c, took, log, turns) && Pending(run, c, slot, took, turns, pending)
    ensures TurnsOk(run + [Call(c)], c, took, log + [Visit(slot, true)], turns + [Turn(pending, |run|)])
  {
    var e := Call(c);
    TurnsStay(run, e, c, took, log, turns);
    PrefixOf(run, e, pending);
    assert (run + [e])[|run|] == e;
    hide Gone;
    OneMoreTurn(run + [e], c, took, log, turns, Visit(slot, true), Turn(pending, |run|));
  }

  lemma CourseCalls(run: seq<Event>, s: State, c: nat, w: Course) returns (v: Course)
    requires After(run) == Some(s) && Enabled(s, Call(c)) && Accounts(run, s, c, w)
    ensures InPhase(Apply(s, Call(c)), c) && Accounts(run + [Call(c)], Apply(s, Call(c)), c, v)
  {
    hide After, WasAsked, Took, Pending, Released, TurnsOk, Complete;
    var Emission(began, phase) := s.calls[c];
    TurnComplete(run, Call(c), c, w.turns, Some(w.pending), Turn(w.pending, |run|));
    PlacesStay(run, Call(c), c, began, phase.at, w);
    v := w.(turns := w.turns + [Turn(w.pending, |run|)]);
    CalledTurn(run, c, w.took, phase.log, w.turns, s.lists[phase.list][|phase.log|], w.pending);
  }

  lemma NowReleased(run: seq<Event>, c: nat, took: nat, at: nat, asked: nat, log: seq<Visit>, turns: seq<Turn>)
    requires Took(run, c, at, asked, took) && TurnsOk(run, c, took, log, turns)
    ensures Released(run + [Release(c)], c, took, turns, |run|)
  {
    assert (run + [Release(c)])[|run|] == Release(c);
    assert TurnsBefore(turns, |run|);
  }

  lemma CourseEnds(run: seq<Event>, s: State, c: nat, w: Course) returns (v: Course)
    requires After(run) == Some(s) && Enabled(s, Release(c)) && Accounts(run, s, c, w)
    ensures InPhase(Apply(s, Release(c)), c) && Accounts(run + [Release(c)], Apply(s, Release(c)), c, v)
  {
    hide After, WasAsked, Took, Pending, Released, TurnsOk, Complete;
    var e := Release(c);
    var Emission(began, phase) := s.calls[c];
    OthersComplete(run, e, c, w.turns, None);
    PlacesStay(run, e, c, began, phase.at, w);
    TurnsStay(run, e, c, w.took, phase.log, w.turns);
    v := w.(released := |run|);
    NowReleased(run, c, w.took, phase.at, w.asked, phase.log, w.turns);
  }

  lemma CourseStep(run: seq<Event>, s: State, e: Event, c: nat, w: Course) returns (v: Course)
    requires After(run) == Some(s) && Inv(s) && Enabled(s, e) && InPhase(s, c) && Accounts(run, s, c, w)
    ensures InPhase(Apply(s, e), c) && Accounts(run + [e], Apply(s, e), c, v)
  {
    EmissionMoves(s, e, c);
    hide Inv, Enabled, Apply, Accounts, After;
    if Apply(s, e).calls[c] == s.calls[c] {
      CourseStays(run, s, e, c, w);
      v := w;
    } else if e == Check(c) {
      v := CourseChecks(run, s, c, w);
    } else if e == Call(c) {
      v := CourseCalls(run, s, c, w);
    } else if e == Release(c) {
      v := CourseEnds(run, s, c, w);
    } else {
      v := CourseBegins(run, s, e, c, w);
    }
  }

  lemma OnlyAskMakes(s: State, e: Event, c: nat)
    requires Enabled(s, e) && !InPhase(s, c) && InPhase(Apply(s, e), c)
    ensures e == Ask(c) && Apply(s, e).calls[c] == Emission(|s.history|, Asked)
  {
    hide Connected, Perform, Without, DropUse;
  }

  /** Every Emit has a course in the run that led to where it stands. */
  lemma {:induction false} CourseOf(run: seq<Event>, c: nat) returns (w: Course)
    requires After(run).Some? && InPhase(After(run).value, c)
    ensures Accounts(run, After(run).value, c, w)
    decreases |run|
  {
    var n := |run| - 1;
    var front, e := run[..n], run[n];
    assert run == front + [e];
    var s := After(front).value;
    if InPhase(s, c) {
      var v := CourseOf(front, c);
      RunKeepsInv(front);
      w := CourseStep(front, s, e, c, v);
    } else {
      OnlyAskMakes(s, e, c);
      NothingBefore(front, c);
      OthersComplete(front, e, c, [], None);
      w := Course(n, 0, [], 0, 0);
    }
  }

  /** A finished Emit came to exactly the slots that were connected when it took its snapshot, in connection order,
      each once and one after the other. It left out exactly those whose object had gone before their check, and
      checked and called nothing else. */
  lemma EmitVisitsItsSnapshot(run: seq<Event>, s: State, c: nat) returns (w: Course)
    requires After(run) == Some(s) && FreshConnects(run)
    requires InPhase(s, c) && s.calls[c].phase.Over?
    ensures w.asked < w.took < w.released < |run|
    ensures run[w.asked] == Ask(c) && run[w.took] == Take(c) && run[w.released] == Release(c)
    ensures After(run[..w.took]).Some?
    ensures var slots, log := Live(After(run[..w.took]).value.history, 0), s.calls[c].phase.log;
            && |log| == |slots| && TurnsOk(run, c, w.took, log, w.turns) && TurnsBefore(w.turns, w.released)
            && Complete(run, c, w.turns, None)
            && forall i :: 0 <= i < |log| ==> log[i].slot == slots[i]
    ensures s.calls[c].phase.at == |After(run[..w.took]).value.history|
  {
    w := CourseOf(run, c);
    PrefixRuns(run, w.took);
    FinishedFollows(run, s, c);
    hide Inv, Enabled, Apply, Live, Connected, FreshConnects, TurnsOk, Complete;
    var at := s.calls[c].phase.at;
    assert s.history[..at] == After(run[..w.took]).value.history;
  }

  /** For a slot bound to an object: gone before the snapshot was taken, it is not called; never gone, it is called; and
      a slot called has its object at the call exactly when that did not go between the check and the call. */
  lemma WhenASlotIsCalled(run: seq<Event>, c: nat, from: nat, log: seq<Visit>, turns: seq<Turn>, i: nat)
    requires TurnsOk(run, c, from, log, turns) && i < |log| && log[i].slot.owner.Some?
    ensures var gone, turn := Expire(log[i].slot.owner.value), turns[i];
            && (gone in run[..from] ==> !log[i].called)
            && (gone !in run ==> log[i].called)
            && (log[i].called ==> (gone !in run[..turn.done] <==> gone !in run[turn.check..turn.done]))
  {
    var gone, turn := Expire(log[i].slot.owner.value), turns[i];
    assert TurnOk(run, c, log[i], turn) && from < turn.check;
    assert run[..turn.check][..from] == run[..from];
    assert run[..turn.done] == run[..turn.check] + run[turn.check..turn.done];
  }

  /** One connection, made by call 0, and an Emit, call 1. */
  function Scene(slot: Slot, lock: Option<nat>, uses: nat, phase: Phase, expired: set<nat>): State {
    State(map[0 := [slot]], map[0 := uses], 0, 1, lock,
          map[0 := Mutation(Add(slot), 0, Returned(0)), 1 := Emission(1, phase)], expired, [Add(slot)])
  }

  /** One more event of a run. */
  lemma Goes(run: seq<Event>, s: State, e: Event, t: State)
    requires After(run) == Some(s) && Enabled(s, e) && Apply(s, e) == t
    ensures After(run + [e]) == Some(t)
  {
    assert (run + [e])[..|run|] == run;
  }

  /** The connection alone. */
  function Prelude(slot: Slot, slots: seq<Slot>, lock: Option<nat>, stage: Stage, history: seq<Op>): State {
    State(map[0 := slots], map[0 := 1], 0, 1, lock, map[0 := Mutation(Add(slot), 0, stage)], {}, history)
  }

  lemma Requests(slot: Slot)
    ensures After([] + [Request(0, Add(slot))] + [Enter(0)]) == Some(Prelude(slot, [], Some(0), Entered, []))
  {
    var e := Request(0, Add(slot));
    assert After([]) == Some(INITIAL);
    hide After;
    Goes([], INITIAL, e, Prelude(slot, [], None, Requested, []));
    Goes([] + [e], Prelude(slot, [], None, Requested, []), Enter(0), Prelude(slot, [], Some(0), Entered, []));
  }

  lemma Connects(slot: Slot, run: seq<Event>)
    requires After(run) == Some(Prelude(slot, [], Some(0), Entered, []))
    ensures After(run + [Test(0)] + [Change(0)] + [Leave(0)]) ==
            Some(Prelude(slot, [slot], None, Returned(0), [Add(slot)]))
  {
    hide After;
    assert Perform([], Add(slot)) == [slot] && [] + [Add(slot)] == [Add(slot)];
    Goes(run, Prelude(slot, [], Some(0), Entered, []), Test(0), Prelude(slot, [], Some(0), Exclusive, []));
    Goes(run + [Test(0)], Prelude(slot, [], Some(0), Exclusive, []), Change(0),
         Prelude(slot, [slot], Some(0), Changed(0), [Add(slot)]));
    Goes(run + [Test(0)] + [Change(0)], Prelude(slot, [slot], Some(0), Changed(0), [Add(slot)]), Leave(0),
         Prelude(slot, [slot], None, Returned(0), [Add(slot)]));
  }

  lemma EmitsThere(run: seq<Event>, slot: Slot, owner: nat)
    requires slot.owner == Some(owner)
    requires After(run) == Some(Scene(slot, None, 1, Asked, {}))
    ensures After(run + [Enter(1)] + [Take(1)] + [Leave(1)] + [Check(1)]) ==
            Some(Scene(slot, None, 2, Checked(0, 1, []), {}))
  {
    hide After;
    Goes(run, Scene(slot, None, 1, Asked, {}), Enter(1), Scene(slot, Some(1), 1, Inside, {}));
    Goes(run + [Enter(1)], Scene(slot, Some(1), 1, Inside, {}), Take(1), Scene(slot, Some(1), 2, Taken(0, 1), {}));
    Goes(run + [Enter(1)] + [Take(1)], Scene(slot, Some(1), 2, Taken(0, 1), {}), Leave(1),
         Scene(slot, None, 2, Visiting(0, 1, []), {}));
    Goes(run + [Enter(1)] + [Take(1)] + [Leave(1)], Scene(slot, None, 2, Visiting(0, 1, []), {}), Check(1),
         Scene(slot, None, 2, Checked(0, 1, []), {}));
  }

  lemma CallsLater(run: seq<Event>, slot: Slot, owner: nat)
    requires After(run) == Some(Scene(slot, None, 2, Checked(0, 1, []), {}))
    ensures After(run + [Expire(owner)] + [Call(1)]) ==
            Some(Scene(slot, None, 2, Visiting(0, 1, [Visit(slot, true)]), {owner}))
  {
    hide After;
    assert [] + [Visit(slot, true)] == [Visit(slot, true)];
    Goes(run, Scene(slot, None, 2, Checked(0, 1, []), {}), Expire(owner),
         Scene(slot, None, 2, Checked(0, 1, []), {owner}));
    Goes(run + [Expire(owner)], Scene(slot, None, 2, Checked(0, 1, []), {owner}), Call(1),
         Scene(slot, None, 2, Visiting(0, 1, [Visit(slot, true)]), {owner}));
  }

  /** It can go between: here between the check of its slot and the call. */
  lemma CalledThoughGone(slot: Slot, owner: nat)
    requires slot.owner == Some(owner)
    ensures var run := [Request(0, Add(slot)), Enter(0), Test(0), Change(0), Leave(0),
                        Ask(1), Enter(1), Take(1), Leave(1), Check(1), Expire(owner), Call(1)];
            && FreshConnects(run) && After(run).Some?
            && var s := After(run).value;
               owner in s.expired && InPhase(s, 1) && s.calls[1].phase == Visiting(0, 1, [Visit(slot, true)])
  {
    hide *;
    var front := [] + [Request(0, Add(slot))] + [Enter(0)];
    Requests(slot);
    Connects(slot, front);
    var connected := front + [Test(0)] + [Change(0)] + [Leave(0)];
    Asks(connected, slot);
    var asked := connected + [Ask(1)];
    EmitsThere(asked, slot, owner);
    CallsLater(asked + [Enter(1)] + [Take(1)] + [Leave(1)] + [Check(1)], slot, owner);
    SceneMeans(slot, None, 2, Visiting(0, 1, [Visit(slot, true)]), {owner});
    TheRun(Add(slot), owner);
  }

  lemma SceneMeans(slot: Slot, lock: Option<nat>, uses: nat, phase: Phase, expired: set<nat>)
    ensures var s := Scene(slot, lock, uses, phase, expired);
            s.expired == expired && InPhase(s, 1) && s.calls[1].phase == phase
  {}

  lemma TheRun(op: Op, owner: nat)
    ensures var run := [Request(0, op), Enter(0), Test(0), Change(0), Leave(0),
                        Ask(1), Enter(1), Take(1), Leave(1), Check(1), Expire(owner), Call(1)];
            && FreshConnects(run)
            && run == [] + [Request(0, op)] + [Enter(0)] + [Test(0)] + [Change(0)] + [Leave(0)] + [Ask(1)] +
                      [Enter(1)] + [Take(1)] + [Leave(1)] + [Check(1)] + [Expire(owner)] + [Call(1)]
  {}

  lemma Asks(run: seq<Event>, slot: Slot)
    requires After(run) == Some(Prelude(slot, [slot], None, Returned(0), [Add(slot)]))
    ensures After(run + [Ask(1)]) == Some(Scene(slot, None, 1, Asked, {}))
  {
    hide After;
    Goes(run, Prelude(slot, [slot], None, Returned(0), [Add(slot)]), Ask(1), Scene(slot, None, 1, Asked, {}));
  }

  lemma RemovedIsGone(h: seq<Op>, a: nat, r: nat, slot: Slot)
    requires UniqueAdds(h) && a < r < |h| && h[a] == Add(slot) && h[r] == Remove(slot)
    ensures slot !in Live(h, 0)
  {
    if slot in Live(h, 0) {
      LiveMade(h, 0, slot);
    }
  }

  /** Once Disconnect has returned, no Emit that starts afterwards comes to the slot. */
  lemma DisconnectIsFinal(run: seq<Event>, s: State, d: nat, slot: Slot, c: nat, a: nat)
    requires After(run) == Some(s) && FreshConnects(run)
    requires InStage(s, d) && s.calls[d].op == Remove(slot) && s.calls[d].stage.Returned?
    requires InPhase(s, c) && s.calls[c].phase.Over? && s.calls[c].began > s.calls[d].stage.at
    requires a < s.calls[d].stage.at < |s.history| && s.history[a] == Add(slot)
    ensures forall i :: 0 <= i < |s.calls[c].phase.log| ==> s.calls[c].phase.log[i].slot != slot
  {
    FinishedFollows(run, s, c);
    HistoryIsUnique(run, s);
    RunKeepsInv(run);
    var r, at := s.calls[d].stage.at, s.calls[c].phase.at;
    OpOf(s, d, r);
    hide Inv, After, FreshConnects, Live;
    RemovedIsGone(s.history[..at], a, r, slot);
  }

  /** Once all connections have been taken back, no Emit that starts afterwards comes to one made before. */
  lemma ClearIsFinal(run: seq<Event>, s: State, d: nat, slot: Slot, c: nat, a: nat)
    requires After(run) == Some(s) && FreshConnects(run)
    requires InStage(s, d) && s.calls[d].op == Clear && s.calls[d].stage.Returned?
    requires InPhase(s, c) && s.calls[c].phase.Over? && s.calls[c].began > s.calls[d].stage.at
    requires a < s.calls[d].stage.at < |s.history| && s.history[a] == Add(slot)
    ensures forall i :: 0 <= i < |s.calls[c].phase.log| ==> s.calls[c].phase.log[i].slot != slot
  {
    FinishedFollows(run, s, c);
    HistoryIsUnique(run, s);
    RunKeepsInv(run);
    var r, at := s.calls[d].stage.at, s.calls[c].phase.at;
    OpOf(s, d, r);
    hide Inv, After, FreshConnects, Live;
    ClearedIsGone(s.history[..at], a, r, slot);
  }

  lemma ClearedIsGone(h: seq<Op>, a: nat, r: nat, slot: Slot)
    requires UniqueAdds(h) && a < r < |h| && h[a] == Add(slot) && h[r] == Clear
    ensures slot !in Live(h, 0)
  {
    if slot in Live(h, 0) {
      LiveMade(h, 0, slot);
    }
  }

  /** A connection made before an Emit starts, and not taken back, is come to. */
  lemma ConnectIsSeen(run: seq<Event>, s: State, d: nat, slot: Slot, c: nat)
    requires After(run) == Some(s) && FreshConnects(run)
    requires InStage(s, d) && s.calls[d].op == Add(slot) && s.calls[d].stage.Returned?
    requires InPhase(s, c) && s.calls[c].phase.Over? && s.calls[c].began > s.calls[d].stage.at
    requires StaysAfter(s.history, slot, s.calls[d].stage.at)
    ensures exists i :: 0 <= i < |s.calls[c].phase.log| && s.calls[c].phase.log[i].slot == slot
  {
    FinishedFollows(run, s, c);
    RunKeepsInv(run);
    var r, at := s.calls[d].stage.at, s.calls[c].phase.at;
    OpOf(s, d, r);
    hide Inv, After, FreshConnects;
    var h := s.history[..at];
    assert h[r] == Add(slot) && StaysAfter(h, slot, r);
    StaysLive(h, 0, r);
    var i :| 0 <= i < |Live(h, 0)| && Live(h, 0)[i] == slot;
    assert s.calls[c].phase.log[i].slot == slot;
  }

  /** The visits of a finished Emit are the live connections at its place in the history. */
  lemma FinishedFollows(run: seq<Event>, s: State, c: nat)
    requires After(run) == Some(s) && FreshConnects(run)
    requires InPhase(s, c) && s.calls[c].phase.Over?
    ensures var Emission(began, Over(at, log)) := s.calls[c];
            && began <= at <= |s.history|
            && var slots := Live(s.history[..at], 0);
               |log| == |slots| && forall i :: 0 <= i < |log| ==> log[i].slot == slots[i]
  {
    RunKeepsInv(run);
    assert CallOk(s, s.calls[c]);
    HistoryIsUnique(run, s);
    hide Inv, After, FreshConnects, Live, Connected;
    var at := s.calls[c].phase.at;
    assert UniqueAdds(s.history[..at]);
    ConnectedIsLive(s.history[..at]);
  }

  /** What a call does next, once it is past waiting for the mutex. */
  function NextEvent(s: State, c: nat): Event
    requires c in s.calls
  {
    match s.calls[c]
    case Mutation(_, _, Entered) => Test(c)
    case Mutation(_, _, Shared) => Copy(c)
    case Mutation(_, _, Copied(_)) => Swap(c)
    case Mutation(_, _, Exclusive) => Change(c)
    case Emission(_, Inside) => Take(c)
    case Emission(_, Visiting(list, _, log)) =>
      if list in s.lists && |log| < |s.lists[list]| then Check(c) else Release(c)
    case Emission(_, Checked(_, _, _)) => Call(c)
    case _ => Leave(c)
  }

  predicate Finished(call: Call) {
    if call.Mutation? then call.stage.Returned? else call.phase.Over?
  }

  predicate Waits(call: Call) {
    if call.Mutation? then call.stage.Requested? else call.phase.Asked?
  }

  /** Nothing ever gets stuck: calls can always be made, a call that waits gets the mutex when it is free, its owner can
      go on, and so can every Emit that is past it. */
  lemma CanProceed(s: State, c: nat)
    requires Reachable(s)
    ensures c !in s.calls ==> Enabled(s, Ask(c)) && forall op :: Enabled(s, Request(c, op))
    ensures c in s.calls && Waits(s.calls[c]) ==> (Enabled(s, Enter(c)) <==> s.lock == None)
    ensures c in s.calls && !Waits(s.calls[c]) && !Finished(s.calls[c]) ==> Enabled(s, NextEvent(s, c))
    ensures s.lock.Some? ==>
              s.lock.value in s.calls && !Waits(s.calls[s.lock.value]) && !Finished(s.calls[s.lock.value])
  {
    ReachableInv(s);
    CountedMeans(s);
    if s.lock.Some? {
      LockedMeans(s);
    }
    if c in s.calls && !Waits(s.calls[c]) && !Finished(s.calls[c]) {
      HeldIsThere(s, c);
      hide *;
      NextIsEnabled(s, c);
    }
    hide *;
    CallsAreMade(s, c);
  }

  lemma CallsAreMade(s: State, c: nat)
    ensures c !in s.calls ==> Enabled(s, Ask(c)) && forall op :: Enabled(s, Request(c, op))
    ensures c in s.calls && Waits(s.calls[c]) ==> (Enabled(s, Enter(c)) <==> s.lock == None)
  {}

  lemma HeldIsThere(s: State, c: nat)
    requires Inv(s) && c in s.calls
    ensures Held(s.calls[c]).Some? ==> Held(s.calls[c]).value in s.lists && Held(s.calls[c]).value in s.uses
    ensures s.calls[c].Emission? && s.calls[c].phase.Checked? ==>
              var phase := s.calls[c].phase;
              phase.list in s.lists && |phase.log| < |s.lists[phase.list]|
  {
    assert CallOk(s, s.calls[c]);
  }

  lemma NextIsEnabled(s: State, c: nat)
    requires c in s.calls && !Waits(s.calls[c]) && !Finished(s.calls[c])
    requires s.current in s.lists && s.current in s.uses
    requires Held(s.calls[c]).Some? ==> Held(s.calls[c]).value in s.lists && Held(s.calls[c]).value in s.uses
    requires s.calls[c].Emission? && s.calls[c].phase.Checked? ==>
               var phase := s.calls[c].phase;
               phase.list in s.lists && |phase.log| < |s.lists[phase.list]|
    ensures Enabled(s, NextEvent(s, c))
  {
    match s.calls[c]
    case Mutation(_, _, stage) => match stage { case Changed(_) => case _ => }
    case Emission(_, phase) => match phase { case Inside => case _ => }
  }

  lemma LockedMeans(s: State)
    requires Inv(s) && s.lock.Some?
    ensures s.lock.value in s.calls && !Waits(s.calls[s.lock.value]) && !Finished(s.calls[s.lock.value])
  {
    assert Critical(s.calls[s.lock.value]);
  }
}
