/** The critical sections of SignalImpl in kbase/signals.h, on heap-allocated slot lists with use counts.
    Signals shows what they guarantee in every interleaving; here each one is shown to do its part of it
    in place: the list of no reader changes, and the signal's own list changes as Perform says. */
module SignalLists {
  import opened Signals

  /** A vector of slots and the number of shared_ptrs to it. */
  class SlotList {
    var slots: seq<Slot>
    var uses: nat

    constructor (slots: seq<Slot>)
      ensures this.slots == slots && uses == 1
    {
      this.slots := slots;
      uses := 1;
    }
  }

  class SignalImpl {
    var slots: SlotList
    /** How often each list is held by calls of Invoke that are under way. */
    ghost var readers: map<SlotList, nat>

    ghost predicate Valid()
      reads this, slots, readers.Keys
    {
      && (forall l :: l in readers ==> readers[l] > 0 && l.uses == readers[l] + if l == slots then 1 else 0)
      && (slots !in readers ==> slots.uses == 1)
    }

    constructor ()
      ensures Valid() && slots.slots == [] && readers == map[] && fresh(slots)
    {
      slots := new SlotList([]);
      readers := map[];
    }

    /** Afterwards nobody else uses the list; an Invoke that did keeps the old one as it was. */
    method CopyIfNeeded()
      requires Valid()
      modifies this`slots, slots`uses
      ensures Valid() && slots !in readers && slots.slots == old(slots.slots)
      ensures slots == old(slots) || fresh(slots)
      ensures slots == old(slots) <==> old(slots !in readers)
    {
      if slots.uses != 1 {
        var copy := new SlotList(slots.slots);
        slots.uses := slots.uses - 1;
        slots := copy;
      }
    }

    method AddSlot(slot: Slot)
      requires Valid()
      modifies this`slots, slots
      ensures Valid() && slots.slots == Perform(old(slots.slots), Add(slot))
      ensures slots == old(slots) || fresh(slots)
      ensures forall l :: l in readers ==> l.slots == old(l.slots)
    {
      CopyIfNeeded();
      slots.slots := slots.slots + [slot];
    }

    /** Erases the first equal slot, if there is one. */
    method RemoveSlot(slot: Slot)
      requires Valid()
      modifies this`slots, slots
      ensures Valid() && slots.slots == Perform(old(slots.slots), Remove(slot))
      ensures slots == old(slots) || fresh(slots)
      ensures forall l :: l in readers ==> l.slots == old(l.slots)
    {
      CopyIfNeeded();
      var all, it := slots.slots, 0;
      while it != |all| && all[it] != slot
        invariant 0 <= it <= |all| && slot !in all[..it]
      {
        it := it + 1;
      }
      WithoutAt(all, it, slot);
      if it != |all| {
        slots.slots := all[..it] + all[it + 1..];
      }
    }

    method RemoveAllSlots()
      requires Valid()
      modifies this`slots, slots
      ensures Valid() && slots.slots == Perform(old(slots.slots), Clear)
      ensures slots == old(slots) || fresh(slots)
      ensures forall l :: l in readers ==> l.slots == old(l.slots)
    {
      CopyIfNeeded();
      slots.slots := [];
    }

    /** The critical section of Invoke. */
    method TakeSnapshot() returns (snapshot: SlotList)
      requires Valid()
      modifies slots`uses, this`readers
      ensures Valid() && snapshot == slots
      ensures readers == old(readers)[slots := 1 + if slots in old(readers) then old(readers)[slots] else 0]
    {
      snapshot := slots;
      slots.uses := slots.uses + 1;
      readers := readers[slots := 1 + if slots in readers then readers[slots] else 0];
    }

    /** The end of Invoke: its shared_ptr to the list goes away. */
    method ReleaseSnapshot(snapshot: SlotList)
      requires Valid() && snapshot in readers
      modifies snapshot`uses, this`readers
      ensures Valid()
      ensures readers == if old(readers)[snapshot] == 1 then old(readers) - {snapshot}
                         else old(readers)[snapshot := old(readers)[snapshot] - 1]
    {
      snapshot.uses := snapshot.uses - 1;
      readers := if readers[snapshot] == 1 then readers - {snapshot} else readers[snapshot := readers[snapshot] - 1];
    }
  }

  lemma {:induction false} WithoutAt(slots: seq<Slot>, at: nat, slot: Slot)
    requires at <= |slots| && slot !in slots[..at] && (at == |slots| || slots[at] == slot)
    ensures Without(slots, slot) == if at == |slots| then slots else slots[..at] + slots[at + 1..]
    decreases at
  {
    if at > 0 {
      assert slots[0] == slots[..at][0];
      assert slots[1..][..at - 1] == slots[..at][1..];
      WithoutAt(slots[1..], at - 1, slot);
    }
  }
}
