/** One core's table of `Delay` registrations: 64 slots tagged with generations, filled and refreshed by
    `poll`, emptied by the timer tick and by `free_slot`.

    A Delay is polled and dropped on one core only, so one table with its live Delays is the whole
    story; only the generation counter is shared with the other cores. */
module DelaySlots {
  import opened Common
  import opened DelayRuns

  const SLOTS: nat := 64

  datatype Slot = Slot(target: nat, waker: Waker, gen: nat)

  class Delay {
    const target: nat
    var slot: Option<(nat, nat)> // index and generation of the last registration

    /** Resolves n ticks after `now` (the addition saturates). */
    constructor (now: nat, n: nat)
      requires now <= U64_MAX && n <= U64_MAX
      ensures target == if now + n <= U64_MAX then now + n else U64_MAX
      ensures slot.None?
    {
      target := if now + n <= U64_MAX then now + n else U64_MAX;
      slot := None;
    }
  }

  // ----- the table the slots hold ---------------------------------------------------------------

  /** Which slots are taken, and by whom; nobody has two. */
  ghost predicate Fits<D>(owner: map<nat, D>, slots: seq<Option<Slot>>)
  {
    && (forall i :: i in owner <==> 0 <= i < |slots| && slots[i].Some?)
    && forall i, j | i in owner && j in owner && owner[i] == owner[j] :: i == j
  }

  ghost function TableOf<D>(owner: map<nat, D>, slots: seq<Option<Slot>>): map<D, Entry>
    requires Fits(owner, slots)
  {
    map i | i in owner :: owner[i] := Entry(slots[i].value.target, slots[i].value.waker)
  }

  lemma TableHas<D>(owner: map<nat, D>, slots: seq<Option<Slot>>, d: D)
    requires Fits(owner, slots)
    ensures d in TableOf(owner, slots) <==> exists i :: i in owner && owner[i] == d
    ensures forall i | i in owner && owner[i] == d :: TableOf(owner, slots)[d] == Entry(slots[i].value.target, slots[i].value.waker)
  {
    forall i | i in owner && owner[i] == d
      ensures TableOf(owner, slots)[d] == Entry(slots[i].value.target, slots[i].value.waker)
    {
      assert owner[i] in TableOf(owner, slots);
    }
  }

  /** Everyone but d keeps the slot and what is in it. */
  ghost predicate OthersKept<D>(owner: map<nat, D>, slots: seq<Option<Slot>>, owner': map<nat, D>, slots': seq<Option<Slot>>, d: D)
    requires Fits(owner, slots) && Fits(owner', slots')
  {
    && (forall i | i in owner && owner[i] != d :: i in owner' && owner'[i] == owner[i] && slots'[i] == slots[i])
    && (forall i | i in owner' && owner'[i] != d :: i in owner && owner[i] == owner'[i])
  }

  lemma OtherEntry<D>(owner: map<nat, D>, slots: seq<Option<Slot>>, owner': map<nat, D>, slots': seq<Option<Slot>>, d: D, x: D)
    requires Fits(owner, slots) && Fits(owner', slots') && OthersKept(owner, slots, owner', slots', d) && x != d
    ensures x in TableOf(owner, slots) <==> x in TableOf(owner', slots')
    ensures x in TableOf(owner, slots) ==> TableOf(owner', slots')[x] == TableOf(owner, slots)[x]
  {
    TableHas(owner, slots, x);
    TableHas(owner', slots', x);
  }

  /** What a poll or a drop of d makes of the table. */
  lemma EntryChanged<D>(owner: map<nat, D>, slots: seq<Option<Slot>>, owner': map<nat, D>, slots': seq<Option<Slot>>, d: D)
    requires Fits(owner, slots) && Fits(owner', slots') && OthersKept(owner, slots, owner', slots', d)
    ensures var t, t' := TableOf(owner, slots), TableOf(owner', slots');
            t' == if d in t' then t[d := t'[d]] else t - {d}
  {
    var t, t' := TableOf(owner, slots), TableOf(owner', slots');
    forall x | x != d
      ensures (x in t <==> x in t') && (x in t ==> t'[x] == t[x])
    {
      OtherEntry(owner, slots, owner', slots', d, x);
    }
  }

  /** What a tick makes of it. */
  ghost predicate DueRemoved<D>(owner: map<nat, D>, slots: seq<Option<Slot>>, owner': map<nat, D>, slots': seq<Option<Slot>>, now: nat)
    requires Fits(owner, slots) && Fits(owner', slots')
  {
    && (forall i :: i in owner' <==> i in owner && now < slots[i].value.target)
    && (forall i | i in owner' :: owner'[i] == owner[i] && slots'[i] == slots[i])
  }

  lemma EntryDue<D>(owner: map<nat, D>, slots: seq<Option<Slot>>, owner': map<nat, D>, slots': seq<Option<Slot>>, now: nat, x: D)
    requires Fits(owner, slots) && Fits(owner', slots') && DueRemoved(owner, slots, owner', slots', now)
    ensures var t, t' := TableOf(owner, slots), TableOf(owner', slots');
            (x in t' <==> x in t && now < t[x].target) && (x in t' ==> t'[x] == t[x])
  {
    TableHas(owner, slots, x);
    TableHas(owner', slots', x);
  }

  lemma EntriesDue<D>(owner: map<nat, D>, slots: seq<Option<Slot>>, owner': map<nat, D>, slots': seq<Option<Slot>>, now: nat)
    requires Fits(owner, slots) && Fits(owner', slots') && DueRemoved(owner, slots, owner', slots', now)
    ensures Next(TableOf(owner, slots), Ticked(now, DueWakers(slots, now)), TableOf(owner', slots'))
  {
    var t, t' := TableOf(owner, slots), TableOf(owner', slots');
    forall x
      ensures (x in t' <==> x in t && now < t[x].target) && (x in t' ==> t'[x] == t[x])
    {
      EntryDue(owner, slots, owner', slots', now, x);
    }
    forall w
      ensures w in DueWakers(slots, now) <==> exists d :: d in t && t[d].target <= now && t[d].waker == w
    {
      DueWaker(owner, slots, now, w);
    }
  }

  lemma DueWaker<D>(owner: map<nat, D>, slots: seq<Option<Slot>>, now: nat, w: Waker)
    requires Fits(owner, slots)
    ensures var t := TableOf(owner, slots);
            w in DueWakers(slots, now) <==> exists d :: d in t && t[d].target <= now && t[d].waker == w
  {
    var t := TableOf(owner, slots);
    DueWakersExact(slots, now, w);
    if w in DueWakers(slots, now) {
      var i :| 0 <= i < |slots| && slots[i].Some? && slots[i].value.target <= now && slots[i].value.waker == w;
      TableHas(owner, slots, owner[i]);
      assert owner[i] in t && t[owner[i]].waker == w;
    }
    if d :| d in t && t[d].target <= now && t[d].waker == w {
      TableHas(owner, slots, d);
      var i :| i in owner && owner[i] == d;
    }
  }

  class DelayList {
    const slots: array<Option<Slot>>
    var genCounter: nat
    ghost var live: set<Delay>          // created and not yet dropped
    ghost var owner: map<nat, Delay>    // occupied index -> the Delay registered there

    /** Each occupied slot belongs to one live Delay and carries its target and generation; a Delay
        owns at most the slot it remembers; and a remembered (index, generation) that no longer owns
        its slot never matches the generation found there. */
    ghost predicate Valid()
      reads this, slots, live
    {
      && slots.Length == SLOTS
      && (forall i :: i in owner <==> 0 <= i < SLOTS && slots[i].Some?)
      && (forall i | i in owner ::
            && owner[i] in live
            && owner[i].slot == Some((i, slots[i].value.gen))
            && owner[i].target == slots[i].value.target)
      && (forall d | d in live && d.slot.Some? ::
            && d.slot.value.0 < SLOTS
            && d.slot.value.1 < genCounter
            && (d.slot.value.0 in owner && slots[d.slot.value.0].value.gen == d.slot.value.1 ==>
                  owner[d.slot.value.0] == d))
    }

    ghost function Table(): map<Delay, Entry>
      requires Valid()
      reads this, slots, live
    {
      TableOf(owner, slots[..])
    }

    constructor ()
      ensures Valid() && fresh(slots)
      ensures live == {} && owner == map[] && Table() == map[]
    {
      slots := new Option<Slot>[SLOTS](_ => None);
      genCounter := 0;
      live, owner := {}, map[];
    }

    /** The Delay is registered: a tick at or after its target will wake it. */
    ghost predicate Registered(d: Delay)
      reads this
    {
      exists i :: i in owner && owner[i] == d
    }

    ghost method Admit(d: Delay)
      requires Valid() && d !in live && d.slot.None?
      modifies this`live
      ensures Valid() && live == old(live) + {d} && Table() == old(Table())
    {
      live := live + {d};
    }

    /** Registrations on the other cores also draw generations. */
    method SkipGenerations(k: nat)
      requires Valid()
      modifies this`genCounter
      ensures Valid() && Table() == old(Table())
    {
      genCounter := genCounter + k;
    }

    /** Clears the slot of `d` if d still owns it, and nothing else. */
    method FreeSlot(d: Delay)
      requires Valid() && d in live
      modifies this`owner, slots, d`slot
      ensures Valid() && d.slot.None? && !Registered(d)
      ensures forall i :: i in owner <==> i in old(owner) && old(owner[i]) != d
      ensures forall i | i in owner :: owner[i] == old(owner[i]) && slots[i] == old(slots[i])
    {
      if d.slot.Some? {
        var (idx, gen) := d.slot.value;
        d.slot := None;
        if slots[idx].Some? && slots[idx].value.gen == gen {
          slots[idx] := None;
          owner := owner - {idx};
        }
      }
    }

    /** First free index, or SLOTS. */
    method FindFree() returns (k: nat)
      requires slots.Length == SLOTS
      ensures k <= SLOTS
      ensures k < SLOTS ==> slots[k].None?
      ensures forall i | 0 <= i < k :: slots[i].Some?
    {
      k := 0;
      while k < SLOTS && slots[k].Some?
        invariant k <= SLOTS
        invariant forall i | 0 <= i < k :: slots[i].Some?
      {
        k := k + 1;
      }
    }

    /** Refreshes the waker if d still owns the slot it remembers; forgets the slot otherwise. */
    method Refresh(d: Delay, waker: Waker) returns (refreshed: bool)
      requires Valid() && d in live
      modifies slots, d`slot
      ensures Valid()
      ensures refreshed <==> old(Registered(d))
      ensures !refreshed ==> d.slot.None? && slots[..] == old(slots[..])
      ensures refreshed ==>
                && d.slot == old(d.slot) && d.slot.Some? && d.slot.value.0 in owner && owner[d.slot.value.0] == d
                && slots[d.slot.value.0] == Some(Slot(d.target, waker, d.slot.value.1))
                && forall i | i in owner && i != d.slot.value.0 :: slots[i] == old(slots[i])
    {
      if d.slot.Some? {
        var (idx, gen) := d.slot.value;
        if slots[idx].Some? && slots[idx].value.gen == gen {
          slots[idx] := Some(Slot(d.target, waker, gen));
          return true;
        }
        d.slot := None;
      }
      return false;
    }

    /** Takes the first free slot, under a fresh generation. */
    method Register(d: Delay, waker: Waker) returns (registered: bool)
      requires Valid() && d in live && d.slot.None?
      modifies this`owner, this`genCounter, slots, d`slot
      ensures Valid()
      ensures registered <==> exists i :: 0 <= i < SLOTS && old(slots[i]).None?
      ensures !registered ==> d.slot.None? && owner == old(owner) && slots[..] == old(slots[..])
      ensures registered ==>
                && d.slot.Some? && d.slot.value.0 !in old(owner) && owner == old(owner)[d.slot.value.0 := d]
                && slots[d.slot.value.0] == Some(Slot(d.target, waker, d.slot.value.1))
                && forall i | i in old(owner) :: slots[i] == old(slots[i])
    {
      var i := FindFree();
      if i == SLOTS { return false; }
      var g := genCounter;
      genCounter := genCounter + 1;
      slots[i] := Some(Slot(d.target, waker, g));
      d.slot := Some((i, g));
      owner := owner[i := d];
      return true;
    }

    /** Refreshes the registration of d or makes one; without a free slot d is done. */
    method Enroll(d: Delay, waker: Waker) returns (ready: bool)
      requires Valid() && d in live
      modifies this`owner, this`genCounter, slots, d`slot
      ensures Valid()
      ensures ready <==> !old(Registered(d)) && forall i | 0 <= i < SLOTS :: old(slots[i]).Some?
      ensures ready ==> !Registered(d) && d.slot.None?
      ensures !ready ==>
                && d.slot.Some? && d.slot.value.0 in owner && owner[d.slot.value.0] == d
                && slots[d.slot.value.0] == Some(Slot(d.target, waker, d.slot.value.1))
      ensures forall i | i in old(owner) && old(owner[i]) != d ::
                i in owner && owner[i] == old(owner[i]) && slots[i] == old(slots[i])
      ensures forall i | i in owner && owner[i] != d :: i in old(owner) && old(owner[i]) == owner[i]
    {
      var refreshed := Refresh(d, waker);
      if refreshed { return false; }
      var registered := Register(d, waker);
      return !registered;
    }

    /** Polls `d`.  Pending leaves d registered in exactly one slot, with this poll's waker; Ready
        leaves it registered nowhere.  Ready comes at or after the target, or when d had no slot and
        all of them were taken.  No other Delay's registration is touched. */
    method Poll(d: Delay, now: nat, waker: Waker) returns (ready: bool)
      requires Valid() && d in live
      modifies this`owner, this`genCounter, slots, d`slot
      ensures Valid()
      ensures ready <==> d.target <= now || (!old(Registered(d)) && forall i | 0 <= i < SLOTS :: old(slots[i]).Some?)
      ensures ready ==> !Registered(d) && d.slot.None?
      ensures !ready ==>
                && d.slot.Some? && d.slot.value.0 in owner && owner[d.slot.value.0] == d
                && slots[d.slot.value.0] == Some(Slot(d.target, waker, d.slot.value.1))
                && forall i | i in owner && owner[i] == d :: i == d.slot.value.0
      ensures forall i | i in old(owner) && old(owner[i]) != d ::
                i in owner && owner[i] == old(owner[i]) && slots[i] == old(slots[i])
      ensures forall i | i in owner && owner[i] != d :: i in old(owner) && old(owner[i]) == owner[i]
      ensures Next(old(Table()), Polled(d, d.target, now, waker, ready), Table())
    {
      ghost var was, before := owner, slots[..];
      if now >= d.target {
        FreeSlot(d);
        ready := true;
      } else {
        ready := Enroll(d, waker);
      }
      EntryChanged(was, before, owner, slots[..], d);
      TableHas(owner, slots[..], d);
    }

    /** Dropping a Delay frees its slot: no slot outlives its Delay. */
    method Drop(d: Delay)
      requires Valid() && d in live
      modifies this`owner, this`live, slots, d`slot
      ensures Valid() && live == old(live) - {d} && !Registered(d)
      ensures forall i :: i in owner <==> i in old(owner) && old(owner[i]) != d
      ensures forall i | i in owner :: owner[i] == old(owner[i]) && slots[i] == old(slots[i])
      ensures Next(old(Table()), Dropped(d), Table())
    {
      ghost var was, before := owner, slots[..];
      FreeSlot(d);
      live := live - {d};
      EntryChanged(was, before, owner, slots[..], d);
      TableHas(owner, slots[..], d);
    }

    /** The tick's visit to one slot: empties it if it is due, and returns its waker. */
    method TickSlot(i: nat, now: nat) returns (w: Option<Waker>)
      requires Valid() && i < SLOTS
      modifies this`owner, slots
      ensures Valid()
      ensures slots[i] == AfterTick(old(slots[i]), now)
      ensures forall k | 0 <= k < SLOTS && k != i :: slots[k] == old(slots[k])
      ensures if old(slots[i]).Some? && old(slots[i]).value.target <= now
              then w == Some(old(slots[i]).value.waker) && owner == old(owner) - {i}
              else w == None && owner == old(owner)
    {
      w := None;
      if slots[i].Some? && slots[i].value.target <= now {
        w := Some(slots[i].value.waker);
        slots[i] := None;
        owner := owner - {i};
      }
    }

    /** Timer tick: wakes exactly the registrations whose target has been reached, in slot order, and
        empties their slots; all others stay as they are.  A contended list is left for the next tick. */
    method TimerTick(now: nat, contended: bool) returns (woken: seq<Waker>)
      requires Valid()
      modifies this`owner, slots
      ensures Valid()
      ensures contended ==> owner == old(owner) && slots[..] == old(slots[..]) && woken == []
      ensures !contended ==> forall i | 0 <= i < SLOTS :: slots[i] == AfterTick(old(slots[i]), now)
      ensures !contended ==> woken == DueWakers(old(slots[..]), now)
      ensures forall i | i in owner :: i in old(owner) && owner[i] == old(owner[i])
      ensures !contended ==> forall i :: i in owner <==> i in old(owner) && now < old(owner[i]).target
      ensures Next(old(Table()), if contended then Skipped else Ticked(now, woken), Table())
    {
      woken := [];
      if contended { return; }
      ghost var was, before := owner, slots[..];
      woken := Sweep(now);
      EntriesDue(was, before, owner, slots[..], now);
    }

    method Sweep(now: nat) returns (woken: seq<Waker>)
      requires Valid()
      modifies this`owner, slots
      ensures Valid()
      ensures forall i | 0 <= i < SLOTS :: slots[i] == AfterTick(old(slots[i]), now)
      ensures woken == DueWakers(old(slots[..]), now)
      ensures forall i | i in owner :: i in old(owner) && owner[i] == old(owner[i])
      ensures forall i :: i in owner <==> i in old(owner) && now < old(owner[i]).target
    {
      woken := [];
      ghost var before := slots[..];
      var i := 0;
      while i < SLOTS
        invariant i <= SLOTS == |before|
        invariant Valid()
        invariant forall k | 0 <= k < i :: slots[k] == AfterTick(before[k], now)
        invariant forall k | i <= k < SLOTS :: slots[k] == before[k]
        invariant woken == DueWakers(before[..i], now)
        invariant forall k | k in owner :: k in old(owner) && owner[k] == old(owner[k])
      {
        assert before[..i + 1] == before[..i] + [before[i]];
        assert before[..i + 1][..i] == before[..i];
        var w := TickSlot(i, now);
        woken := woken + if w.Some? then [w.value] else [];
        i := i + 1;
      }
      assert before[..SLOTS] == before;
    }
  }

  function AfterTick(s: Option<Slot>, now: nat): Option<Slot>
  {
    if s.Some? && s.value.target <= now then None else s
  }

  /** The wakers of the due slots, in slot order. */
  function DueWakers(s: seq<Option<Slot>>, now: nat): seq<Waker>
  {
    if s == [] then []
    else
      var last := s[|s| - 1];
      DueWakers(s[..|s| - 1], now) + if last.Some? && last.value.target <= now then [last.value.waker] else []
  }

  /** Every due registration is woken, and only those. */
  lemma {:induction false} DueWakersExact(s: seq<Option<Slot>>, now: nat, w: Waker)
    ensures w in DueWakers(s, now) <==>
              exists i :: 0 <= i < |s| && s[i].Some? && s[i].value.target <= now && s[i].value.waker == w
  {
    if s != [] {
      var init := s[..|s| - 1];
      DueWakersExact(init, now, w);
      if i :| 0 <= i < |s| && s[i].Some? && s[i].value.target <= now && s[i].value.waker == w {
        assert i < |init| ==> init[i] == s[i];
      }
      if i :| 0 <= i < |init| && init[i].Some? && init[i].value.target <= now && init[i].value.waker == w {
        assert s[i] == init[i];
      }
    }
  }
}
