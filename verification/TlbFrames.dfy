/** Freed frames: when callers map only frames they own, no core can reach a frame in the
    allocator's free set through any cached 4 KiB translation. */
module TlbFrames {
  import opened Common
  import opened TlbModel
  import opened TlbSafety

  /** Frames a core has unmapped and not yet returned to the allocator. */
  function Pending(o: Op): seq<(Page, Frame)>
  {
    if o.Idle? then [] else o.freed
  }

  predicate Mapped(s: State, f: Frame)
  {
    exists p :: p in s.pt && s.pt[p].frame == f
  }

  predicate InFlight(s: State, f: Frame)
  {
    exists c, k :: 0 <= c < |s.op| && 0 <= k < |Pending(s.op[c])| && Pending(s.op[c])[k].1 == f
  }

  /** The caller of map_page owns the frame: it is neither free, nor mapped, nor on its way back to
      the allocator (mapper.rs asks this of callers: no aliasing of frames). */
  predicate Owned(s: State, f: Frame)
  {
    f !in s.free && !Mapped(s, f) && !InFlight(s, f)
  }

  predicate Disciplined(s: State, a: Action)
  {
    a.Acquire? && a.req.kind.Map? ==> Owned(s, a.req.kind.frame)
  }

  ghost predicate TableInjective(s: State)
  {
    forall p, q | p in s.pt && q in s.pt && s.pt[p].frame == s.pt[q].frame :: p == q
  }

  /** Each in-flight frame is in flight once. */
  ghost predicate InFlightOnce(s: State)
  {
    forall c, k, d, l |
      0 <= c < |s.op| && 0 <= k < |Pending(s.op[c])| && 0 <= d < |s.op| && 0 <= l < |Pending(s.op[d])|
      && Pending(s.op[c])[k].1 == Pending(s.op[d])[l].1 ::
      c == d && k == l
  }

  ghost predicate AboutToMapOwned(s: State)
  {
    forall c | 0 <= c < |s.op| && s.op[c].Walking? && s.op[c].req.kind.Map? :: Owned(s, s.op[c].req.kind.frame)
  }

  /** Free, mapped and in-flight frames are three disjoint classes. */
  ghost predicate FrameInv(s: State)
  {
    && (forall p | p in s.pt :: s.pt[p].frame !in s.free)
    && (forall c, k | 0 <= c < |s.op| && 0 <= k < |Pending(s.op[c])| ::
          Pending(s.op[c])[k].1 !in s.free && !Mapped(s, Pending(s.op[c])[k].1))
    && TableInjective(s)
    && InFlightOnce(s)
    && AboutToMapOwned(s)
  }

  ghost predicate DisciplinedRun(states: seq<State>, actions: seq<Action>)
  {
    && IsRun(states, actions)
    && TableInjective(states[0])
    && (forall p | p in states[0].pt :: states[0].pt[p].frame !in states[0].free)
    && (forall k | 0 <= k < |actions| :: Disciplined(states[k], actions[k]))
  }

  /** Steps that touch neither the page table, nor an in-flight list, nor add free frames. */
  lemma FramesKept(s: State, s': State)
    requires FrameInv(s) && s'.pt == s.pt && s'.free <= s.free && |s'.op| == |s.op|
    requires forall c | 0 <= c < |s.op| :: Pending(s'.op[c]) == Pending(s.op[c])
    requires forall c | 0 <= c < |s.op| && s'.op[c].Walking? && s'.op[c].req.kind.Map? ::
               Owned(s, s'.op[c].req.kind.frame)
    ensures FrameInv(s')
  {
    assert forall f :: Mapped(s', f) == Mapped(s, f);
    assert forall f :: InFlight(s', f) ==> InFlight(s, f);
  }

  /** MAPPER admits one walker: nobody else is about to map. */
  ghost predicate NoWalkers(s: State)
  {
    forall d | 0 <= d < |s.op| :: !s.op[d].Walking?
  }

  /** An owned frame mapped at a page that had none. */
  lemma MappedOwned(s: State, s': State, p: Page, e: Entry)
    requires FrameInv(s) && Owned(s, e.frame) && p !in s.pt
    requires s'.pt == s.pt[p := e] && s'.free == s.free && |s'.op| == |s.op| && NoWalkers(s')
    requires forall d | 0 <= d < |s.op| :: Pending(s'.op[d]) == Pending(s.op[d])
    ensures FrameInv(s')
  {
    forall d, k | 0 <= d < |s'.op| && 0 <= k < |Pending(s'.op[d])|
      ensures Pending(s'.op[d])[k].1 !in s'.free && !Mapped(s', Pending(s'.op[d])[k].1)
    {
      var g := Pending(s.op[d])[k].1;
      assert InFlight(s, g) && !Mapped(s, g);
    }
    forall q, r | q in s'.pt && r in s'.pt && s'.pt[q].frame == s'.pt[r].frame
      ensures q == r
    {
      assert q != p ==> q in s.pt && s'.pt[q] == s.pt[q];
      assert r != p ==> r in s.pt && s'.pt[r] == s.pt[r];
    }
  }

  lemma InstallKeepsFrames(s: State, c: nat, ok: bool)
    requires s.WellFormed() && LockInv(s) && FrameInv(s) && Enabled(s, Advance(c, ok)) && s.op[c].Walking? && s.op[c].req.kind.Map?
    ensures FrameInv(Step(s, Advance(c, ok)))
  {
    var s' := Step(s, Advance(c, ok));
    assert s.lock == Some(c);
    assert Owned(s, s.op[c].req.kind.frame);
    if s'.pt == s.pt {
      OpKeepsFrames(s, s', c, s'.op[c]);
    } else {
      var p := s.op[c].req.Start() + s.op[c].i;
      MappedOwned(s, s', p, Entry(s.op[c].req.kind.frame, s.op[c].req.kind.flags));
    }
  }

  /** A mapped frame that goes in flight. */
  lemma UnmappedInFlight(s: State, s': State, c: nat, p: Page)
    requires FrameInv(s) && p in s.pt && c < |s.op| == |s'.op|
    requires s'.pt == s.pt - {p} && s'.free == s.free && NoWalkers(s')
    requires Pending(s'.op[c]) == Pending(s.op[c]) + [(p, s.pt[p].frame)]
    requires forall d | 0 <= d < |s.op| && d != c :: Pending(s'.op[d]) == Pending(s.op[d])
    ensures FrameInv(s')
  {
    var f := s.pt[p].frame;
    assert Mapped(s, f) && forall g :: Mapped(s', g) ==> Mapped(s, g);
    assert !Mapped(s', f);
    forall d: nat, k: nat | d < |s'.op| && k < |Pending(s'.op[d])|
      ensures Pending(s'.op[d])[k].1 !in s'.free && !Mapped(s', Pending(s'.op[d])[k].1)
    {
      EarlierOrLast(s, s', c, p, d, k);
    }
    forall d: nat, k: nat, e: nat, l: nat | d < |s'.op| && k < |Pending(s'.op[d])| && e < |s'.op| && l < |Pending(s'.op[e])|
      && Pending(s'.op[d])[k].1 == Pending(s'.op[e])[l].1
      ensures d == e && k == l
    {
      EarlierOrLast(s, s', c, p, d, k);
      EarlierOrLast(s, s', c, p, e, l);
    }
  }

  /** An in-flight frame was so before, or is the one just unmapped. */
  lemma EarlierOrLast(s: State, s': State, c: nat, p: Page, d: nat, k: nat)
    requires FrameInv(s) && p in s.pt && c < |s.op| == |s'.op|
    requires Pending(s'.op[c]) == Pending(s.op[c]) + [(p, s.pt[p].frame)]
    requires forall d | 0 <= d < |s.op| && d != c :: Pending(s'.op[d]) == Pending(s.op[d])
    requires d < |s'.op| && k < |Pending(s'.op[d])|
    ensures if k < |Pending(s.op[d])| then
              Pending(s'.op[d])[k] == Pending(s.op[d])[k] && Pending(s.op[d])[k].1 != s.pt[p].frame
            else d == c && k == |Pending(s.op[c])| && Pending(s'.op[d])[k].1 == s.pt[p].frame
  {
    assert Mapped(s, s.pt[p].frame);
  }

  lemma UnmapKeepsFrames(s: State, c: nat, ok: bool)
    requires s.WellFormed() && LockInv(s) && FrameInv(s) && Enabled(s, Advance(c, ok)) && s.op[c].Walking? && s.op[c].req.kind.Unmap?
    ensures FrameInv(Step(s, Advance(c, ok)))
  {
    var s' := Step(s, Advance(c, ok));
    assert s.lock == Some(c);
    if s'.pt == s.pt {
      OpKeepsFrames(s, s', c, s'.op[c]);
    } else {
      UnmappedInFlight(s, s', c, s.op[c].req.Start() + s.op[c].i);
    }
  }

  lemma SetFlagsKeepsFrames(s: State, c: nat, ok: bool)
    requires s.WellFormed() && LockInv(s) && FrameInv(s) && Enabled(s, Advance(c, ok)) && s.op[c].Walking? && s.op[c].req.kind.SetFlags?
    ensures FrameInv(Step(s, Advance(c, ok)))
  {
    var s' := Step(s, Advance(c, ok));
    assert s.lock == Some(c);
    assert forall d | 0 <= d < |s.op| && d != c :: !s'.op[d].Walking?;
    assert s'.pt.Keys == s.pt.Keys && forall p | p in s.pt :: s'.pt[p].frame == s.pt[p].frame;
    assert forall g :: Mapped(s', g) ==> Mapped(s, g) by {
      forall g | Mapped(s', g)
        ensures Mapped(s, g)
      {
        var p :| p in s'.pt && s'.pt[p].frame == g;
        assert p in s.pt && s.pt[p].frame == g;
      }
    }
    assert forall d | 0 <= d < |s.op| :: Pending(s'.op[d]) == Pending(s.op[d]);
  }

  /** What is in flight after the first frame of core c's list has been returned. */
  lemma RestInFlight(s: State, s': State, c: nat, d: nat, k: nat)
    requires c < |s.op| && s.op[c].Freeing? && s.op[c].freed != []
    requires s'.op == s.op[c := Freeing(s.op[c].freed[1..])]
    requires d < |s'.op| && k < |Pending(s'.op[d])|
    ensures var l := if d == c then k + 1 else k;
            l < |Pending(s.op[d])| && Pending(s'.op[d])[k] == Pending(s.op[d])[l]
  {
  }

  lemma ReturnedFrame(s: State, s': State, c: nat)
    requires FrameInv(s) && c < |s.op| && s.op[c].Freeing? && s.op[c].freed != []
    requires s' == s.(free := s.free + {s.op[c].freed[0].1}, op := s.op[c := Freeing(s.op[c].freed[1..])])
    ensures FrameInv(s')
  {
    var f := s.op[c].freed[0].1;
    assert f == Pending(s.op[c])[0].1;
    assert forall g :: Mapped(s', g) == Mapped(s, g);
    assert InFlight(s, f);
    forall d: nat, k: nat | d < |s'.op| && k < |Pending(s'.op[d])|
      ensures Pending(s'.op[d])[k].1 !in s'.free && !Mapped(s', Pending(s'.op[d])[k].1)
    {
      RestInFlight(s, s', c, d, k);
    }
    forall d: nat, k: nat, e: nat, l: nat | d < |s'.op| && k < |Pending(s'.op[d])| && e < |s'.op| && l < |Pending(s'.op[e])|
      && Pending(s'.op[d])[k].1 == Pending(s'.op[e])[l].1
      ensures d == e && k == l
    {
      RestInFlight(s, s', c, d, k);
      RestInFlight(s, s', c, e, l);
    }
  }

  lemma FreeKeepsFrames(s: State, c: nat, ok: bool)
    requires s.WellFormed() && LockInv(s) && FrameInv(s) && Enabled(s, Advance(c, ok)) && s.op[c].Freeing?
    ensures FrameInv(Step(s, Advance(c, ok)))
  {
    var s' := Step(s, Advance(c, ok));
    if s.op[c].freed == [] {
      FramesKept(s, s');
    } else {
      ReturnedFrame(s, s', c);
    }
  }

  /** A step of one core's operation that leaves its list as it is and starts no mapping. */
  lemma OpKeepsFrames(s: State, s': State, c: nat, o: Op)
    requires FrameInv(s) && s'.pt == s.pt && s'.free == s.free && c < |s.op| && s'.op == s.op[c := o]
    requires Pending(o) == Pending(s.op[c])
    requires o.Walking? && o.req.kind.Map? ==> Owned(s, o.req.kind.frame)
    ensures FrameInv(s')
  {
    FramesKept(s, s');
  }

  lemma AdvanceKeepsFrames(s: State, c: nat, ok: bool)
    requires s.WellFormed() && LockInv(s) && FrameInv(s) && Enabled(s, Advance(c, ok))
    requires !s.op[c].Walking? && !s.op[c].Freeing?
    ensures FrameInv(Step(s, Advance(c, ok)))
  {
    var s' := Step(s, Advance(c, ok));
    OpKeepsFrames(s, s', c, s'.op[c]);
  }

  lemma OtherStepsKeepFrames(s: State, a: Action)
    requires s.WellFormed() && LockInv(s) && FrameInv(s) && Enabled(s, a) && Disciplined(s, a)
    requires a.Advance? ==> !s.op[a.core].Walking? && !s.op[a.core].Freeing?
    ensures FrameInv(Step(s, a))
  {
    if a.Advance? {
      AdvanceKeepsFrames(s, a.core, a.tableOk);
    } else if a.Acquire? {
      var s' := Step(s, a);
      OpKeepsFrames(s, s', a.core, s'.op[a.core]);
    } else {
      FramesKept(s, Step(s, a));
    }
  }

  lemma StepKeepsFrames(s: State, a: Action)
    requires s.WellFormed() && LockInv(s) && FrameInv(s) && Enabled(s, a) && Disciplined(s, a)
    ensures FrameInv(Step(s, a))
  {
    if a.Advance? && s.op[a.core].Walking? {
      match s.op[a.core].req.kind
      case Map(_, _) => InstallKeepsFrames(s, a.core, a.tableOk);
      case Unmap => UnmapKeepsFrames(s, a.core, a.tableOk);
      case SetFlags(_) => SetFlagsKeepsFrames(s, a.core, a.tableOk);
    } else if a.Advance? && s.op[a.core].Freeing? {
      FreeKeepsFrames(s, a.core, a.tableOk);
    } else {
      OtherStepsKeepFrames(s, a);
    }
  }

  lemma {:induction false} RunFrames(states: seq<State>, actions: seq<Action>, k: nat)
    requires DisciplinedRun(states, actions) && k < |states|
    ensures Inv(states[k]) && FrameInv(states[k])
  {
    RunInv(states, actions, k);
    if k > 0 {
      RunFrames(states, actions, k - 1);
      StepKeepsFrames(states[k - 1], actions[k - 1]);
    }
  }

  /** No core can hit a free frame through a cached translation, stale or not: a frame the allocator
      may hand out again is out of reach of every TLB.  (Huge-page translations, such as the direct
      map, never change and are not concerned.) */
  lemma FreeFramesUnreachable(states: seq<State>, actions: seq<Action>, k: nat, c: nat, p: Page)
    requires DisciplinedRun(states, actions) && k < |states|
    requires c < |states[k].tlb| && p in states[k].tlb[c] && p !in states[k].huge
    ensures states[k].tlb[c][p].frame !in states[k].free
  {
    RunFrames(states, actions, k);
    var s := states[k];
    assert s.Walk(p) == Some(s.tlb[c][p]) || MayLag(s, c, p);
    if p !in s.pt {
      var o := s.op[s.lock.value];
      assert (p, s.tlb[c][p].frame) in Pending(o);
      var l :| 0 <= l < |Pending(o)| && Pending(o)[l] == (p, s.tlb[c][p].frame);
    }
  }
}
