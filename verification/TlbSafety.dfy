/** No core keeps a stale translation once MAPPER is released, over every run of TlbModel. */
module TlbSafety {
  import opened Common
  import opened TlbModel

  // ----- the inductive invariant ------------------------------------------------------------

  /** MAPPER is held exactly by the core whose operation is in a locked stage. */
  ghost predicate LockInv(s: State)
    requires s.WellFormed()
  {
    && (s.lock.Some? ==> s.lock.value < |s.tlb|)
    && (forall c | 0 <= c < |s.tlb| :: s.op[c].Locked() <==> s.lock == Some(c))
  }

  /** Pages of the request whose entry has already been visited. */
  function Visited(o: Op): nat
    requires o.Locked()
  {
    match o
    case Walking(_, i, _, _) => i
    case Flushing(_, i, _, _) => i + 1
    case _ => o.req.pages
  }

  predicate Unmapped(freed: seq<(Page, Frame)>, s: State)
  {
    forall k | 0 <= k < |freed| :: freed[k].0 !in s.pt && freed[k].0 !in s.huge
  }

  /** The shape of a locked operation. */
  ghost predicate OpInv(s: State, o: Op)
    requires o.Locked()
  {
    && o.req.WellFormed()
    && Visited(o) <= o.req.pages
    && (!o.req.kind.Unmap? ==> o.freed == [])
    && Unmapped(o.freed, s)
    && ((o.Walking? || o.Flushing?) && o.req.kind.Unmap? ==> o.changed == |o.freed|)
    && (o.Flushing? && !o.req.kind.Map? ==> o.changed > 0)
    && (o.Walking? && o.req.kind.Map? ==> o.i == 0)
    && (o.req.kind.Map? ==> o.Walking? || o.Flushing? || o.Unlocking?)
    && (o.StoreAddr? || o.StoreLen? || o.StoreAck? || o.StoreNeed? || o.SendIpi? || o.Waiting? ==> |s.tlb| >= 2)
    && (o.StoreLen? || o.StoreAck? || o.StoreNeed? || o.SendIpi? || o.Waiting? ==> s.shootAddr == o.req.Published())
    && (o.StoreAck? || o.StoreNeed? || o.SendIpi? || o.Waiting? ==> s.shootLen == o.req.pages)
    && (o.StoreNeed? || o.SendIpi? ==> s.shootAck == 0)
  }

  ghost predicate HolderInv(s: State)
    requires s.WellFormed() && LockInv(s)
  {
    s.lock.Some? ==> OpInv(s, s.op[s.lock.value])
  }

  /** Cores that have finished answering the shootdown of core `h`. */
  ghost function Answered(s: State, h: nat): set<nat>
    requires s.WellFormed()
  {
    set d | d in s.Others(h) && d !in s.ipi && s.handler[d].Quiet?
  }

  /** Handlers run only while a mutator waits; what they loaded is the published range, and the ack
      counter counts the cores that have finished. */
  ghost predicate ShootInv(s: State)
    requires s.WellFormed() && LockInv(s)
  {
    if s.lock.Some? && s.op[s.lock.value].Waiting? then
      var h := s.lock.value;
      var req := s.op[h].req;
      && s.ipi <= s.Others(h)
      && s.handler[h].Quiet?
      && s.shootAck == |Answered(s, h)|
      && (forall d | 0 <= d < |s.tlb| ::
            match s.handler[d]
            case LoadLen(addr) => d !in s.ipi && addr == req.Published()
            case Invalidate(addr, len, i) =>
              d !in s.ipi && addr == req.Published() && len == req.pages && i <= len
            case Quiet => true
            case _ => d !in s.ipi)
    else
      s.ipi == {} && forall d | 0 <= d < |s.tlb| :: s.handler[d].Quiet?
  }

  /** The core has still to invalidate page p of the published range. */
  predicate Owes(h: Handler, pending: bool, start: Page, p: Page)
  {
    match h
    case Quiet => pending
    case Invalidate(_, _, i) => start + i <= p
    case Acknowledge => false
    case _ => true
  }

  /** The translation cached on core c for p may lag behind the page table: only for a page the
      current mutator has already rewritten, on a core that has not yet invalidated it, and only
      with the frame the page had when the operation reached it. */
  ghost predicate MayLag(s: State, c: nat, p: Page)
    requires s.WellFormed() && LockInv(s) && c < |s.tlb| && p in s.tlb[c]
  {
    && s.lock.Some?
    && var h := s.lock.value;
    var o := s.op[h];
    && !o.req.kind.Map?
    && o.req.Start() <= p < o.req.Start() + Visited(o)
    && p !in s.huge
    && (if p in s.pt then s.pt[p].frame == s.tlb[c][p].frame else (p, s.tlb[c][p].frame) in o.freed)
    && (match o
        case Walking(_, _, changed, _) => c != h && changed > 0
        case Flushing(_, i, _, _) => c != h || p == o.req.Start() + i
        case Waiting(_, _) =>
          c != h && Owes(s.handler[c], c in s.ipi, o.req.Start(), p)
        case Unlocking(_, _) => false
        case _ => c != h)
  }

  ghost predicate CoherenceInv(s: State)
    requires s.WellFormed() && LockInv(s)
  {
    forall c, p | 0 <= c < |s.tlb| && p in s.tlb[c] ::
      s.Walk(p) == Some(s.tlb[c][p]) || MayLag(s, c, p)
  }

  /** A retired pair is not mapped, and is not among the pages being unmapped. */
  ghost predicate RetiredInv(s: State)
    requires s.WellFormed() && LockInv(s)
  {
    && (forall x | x in s.retired :: x.0 !in s.huge && (x.0 in s.pt ==> s.pt[x.0].frame != x.1))
    && (s.lock.Some? ==> forall k | 0 <= k < |s.op[s.lock.value].freed| :: s.op[s.lock.value].freed[k] !in s.retired)
  }

  ghost predicate Inv(s: State)
  {
    && s.WellFormed()
    && LockInv(s)
    && HolderInv(s)
    && ShootInv(s)
    && CoherenceInv(s)
    && RetiredInv(s)
  }

  // ----- steps ------------------------------------------------------------------------------

  lemma InitInv(s: State)
    requires Init(s)
    ensures Inv(s)
  {
  }

  /** A step outside the protocol: no lock, page-table or handler change; cached translations are
      dropped or freshly walked; only cores that do not hold MAPPER move. */
  ghost predicate Background(s: State, s': State)
    requires s.WellFormed()
  {
    && |s'.tlb| == |s.tlb| && |s'.op| == |s.op|
    && s'.(tlb := s.tlb, free := s.free, op := s.op) == s
    && (forall d | 0 <= d < |s.op| :: s'.op[d] == s.op[d] || (!s.op[d].Locked() && !s'.op[d].Locked()))
    && (forall d, q | 0 <= d < |s.tlb| && q in s'.tlb[d] ::
          s.Walk(q) == Some(s'.tlb[d][q]) || (q in s.tlb[d] && s'.tlb[d][q] == s.tlb[d][q]))
  }

  lemma BackgroundKeepsControl(s: State, s': State)
    requires Inv(s) && Background(s, s')
    ensures s'.WellFormed() && LockInv(s') && HolderInv(s') && ShootInv(s') && RetiredInv(s')
  {
    if s.lock.Some? {
      assert s'.op[s.lock.value] == s.op[s.lock.value];
      assert Answered(s', s.lock.value) == Answered(s, s.lock.value);
    }
  }

  lemma BackgroundKeeps(s: State, s': State)
    requires Inv(s) && Background(s, s')
    ensures Inv(s')
  {
    BackgroundKeepsControl(s, s');
    forall d, q | 0 <= d < |s'.tlb| && q in s'.tlb[d]
      ensures s'.Walk(q) == Some(s'.tlb[d][q]) || MayLag(s', d, q)
    {
      assert s'.Walk(q) == s.Walk(q);
      if s.Walk(q) != Some(s'.tlb[d][q]) {
        assert MayLag(s, d, q);
        assert s'.op[s.lock.value] == s.op[s.lock.value];
      }
    }
  }

  lemma AcquireKeeps(s: State, c: nat, req: Request)
    requires Inv(s) && Enabled(s, Acquire(c, req))
    ensures Inv(Step(s, Acquire(c, req)))
  {
    var s' := Step(s, Acquire(c, req));
    forall d, q | 0 <= d < |s'.tlb| && q in s'.tlb[d]
      ensures s'.Walk(q) == Some(s'.tlb[d][q]) || MayLag(s', d, q)
    {
      assert s.Walk(q) == Some(s.tlb[d][q]) || MayLag(s, d, q);
    }
  }

  lemma WalkKeepsCoherence(s: State, c: nat, tableOk: bool)
    requires Inv(s) && Enabled(s, Advance(c, tableOk)) && s.op[c].Walking?
    requires var s' := Step(s, Advance(c, tableOk)); s'.WellFormed() && LockInv(s')
    ensures CoherenceInv(Step(s, Advance(c, tableOk)))
  {
    var s' := Step(s, Advance(c, tableOk));
    assert s.lock == Some(c);
    forall d, q | 0 <= d < |s'.tlb| && q in s'.tlb[d]
      ensures s'.Walk(q) == Some(s'.tlb[d][q]) || MayLag(s', d, q)
    {
      assert s.Walk(q) == Some(s.tlb[d][q]) || MayLag(s, d, q);
      if q == s.op[c].req.Start() + s.op[c].i {
        assert !MayLag(s, d, q);
      }
    }
  }

  lemma WalkKeepsLock(s: State, c: nat, tableOk: bool)
    requires s.WellFormed() && LockInv(s) && c < |s.tlb| && s.op[c].Walking?
    ensures var s' := WalkStep(s, c, tableOk);
            s'.WellFormed() && LockInv(s') && s'.op[c].Locked() && s'.lock == s.lock == Some(c)
            && !s'.op[c].Waiting?
  {
    var s' := WalkStep(s, c, tableOk);
    assert s.lock == Some(c);
    assert s'.pt.Keys !! s'.huge.Keys;
  }

  lemma FinishKeepsHolder(s: State, c: nat, tableOk: bool)
    requires s.WellFormed() && c < |s.tlb| && s.op[c].Walking? && OpInv(s, s.op[c])
    requires WalkStep(s, c, tableOk).op[c].Locked()
    requires s.op[c].i >= s.op[c].req.pages
    ensures var s' := WalkStep(s, c, tableOk); OpInv(s', s'.op[c])
  {
  }

  lemma MapKeepsHolder(s: State, c: nat, tableOk: bool)
    requires s.WellFormed() && c < |s.tlb| && s.op[c].Walking? && OpInv(s, s.op[c])
    requires WalkStep(s, c, tableOk).op[c].Locked()
    requires s.op[c].i < s.op[c].req.pages && s.op[c].req.kind.Map?
    ensures var s' := WalkStep(s, c, tableOk); OpInv(s', s'.op[c])
  {
  }

  lemma UnmapKeepsHolder(s: State, c: nat, tableOk: bool)
    requires s.WellFormed() && c < |s.tlb| && s.op[c].Walking? && OpInv(s, s.op[c])
    requires WalkStep(s, c, tableOk).op[c].Locked()
    requires s.op[c].i < s.op[c].req.pages && s.op[c].req.kind.Unmap?
    ensures var s' := WalkStep(s, c, tableOk); OpInv(s', s'.op[c])
  {
  }

  lemma SetFlagsKeepsHolder(s: State, c: nat, tableOk: bool)
    requires s.WellFormed() && c < |s.tlb| && s.op[c].Walking? && OpInv(s, s.op[c])
    requires WalkStep(s, c, tableOk).op[c].Locked()
    requires s.op[c].i < s.op[c].req.pages && s.op[c].req.kind.SetFlags?
    ensures var s' := WalkStep(s, c, tableOk); OpInv(s', s'.op[c])
  {
  }

  lemma WalkKeepsHolder(s: State, c: nat, tableOk: bool)
    requires s.WellFormed() && c < |s.tlb| && s.op[c].Walking? && OpInv(s, s.op[c])
    requires WalkStep(s, c, tableOk).op[c].Locked()
    ensures var s' := WalkStep(s, c, tableOk); OpInv(s', s'.op[c])
  {
    if s.op[c].i >= s.op[c].req.pages {
      FinishKeepsHolder(s, c, tableOk);
    } else {
      match s.op[c].req.kind
      case Map(_, _) => MapKeepsHolder(s, c, tableOk);
      case Unmap => UnmapKeepsHolder(s, c, tableOk);
      case SetFlags(_) => SetFlagsKeepsHolder(s, c, tableOk);
    }
  }

  lemma WalkKeepsRetired(s: State, c: nat, tableOk: bool)
    requires s.WellFormed() && LockInv(s) && RetiredInv(s) && c < |s.tlb| && s.op[c].Walking?
    requires var s' := WalkStep(s, c, tableOk); s'.WellFormed() && LockInv(s')
    ensures RetiredInv(WalkStep(s, c, tableOk))
  {
  }

  lemma WalkKeeps(s: State, c: nat, tableOk: bool)
    requires Inv(s) && Enabled(s, Advance(c, tableOk)) && s.op[c].Walking?
    ensures Inv(Step(s, Advance(c, tableOk)))
  {
    WalkKeepsLock(s, c, tableOk);
    WalkKeepsHolder(s, c, tableOk);
    WalkKeepsRetired(s, c, tableOk);
    WalkKeepsCoherence(s, c, tableOk);
    var s' := Step(s, Advance(c, tableOk));
    assert s'.handler == s.handler && s'.ipi == s.ipi;
  }

  lemma FlushKeeps(s: State, c: nat, tableOk: bool)
    requires Inv(s) && Enabled(s, Advance(c, tableOk)) && s.op[c].Flushing?
    ensures Inv(Step(s, Advance(c, tableOk)))
  {
    var s' := Step(s, Advance(c, tableOk));
    assert s.lock == Some(c);
    forall d, q | 0 <= d < |s'.tlb| && q in s'.tlb[d]
      ensures s'.Walk(q) == Some(s'.tlb[d][q]) || MayLag(s', d, q)
    {
      assert s.Walk(q) == Some(s.tlb[d][q]) || MayLag(s, d, q);
    }
  }

  lemma PublishKeeps(s: State, c: nat, tableOk: bool)
    requires Inv(s) && Enabled(s, Advance(c, tableOk))
    requires s.op[c].StoreAddr? || s.op[c].StoreLen? || s.op[c].StoreAck? || s.op[c].StoreNeed?
    ensures Inv(Step(s, Advance(c, tableOk)))
  {
    var s' := Step(s, Advance(c, tableOk));
    assert s.lock == Some(c);
    forall d, q | 0 <= d < |s'.tlb| && q in s'.tlb[d]
      ensures s'.Walk(q) == Some(s'.tlb[d][q]) || MayLag(s', d, q)
    {
      assert s.Walk(q) == Some(s.tlb[d][q]) || MayLag(s, d, q);
    }
  }

  lemma SendKeeps(s: State, c: nat, tableOk: bool)
    requires Inv(s) && Enabled(s, Advance(c, tableOk)) && s.op[c].SendIpi?
    ensures Inv(Step(s, Advance(c, tableOk)))
  {
    var s' := Step(s, Advance(c, tableOk));
    assert s.lock == Some(c);
    assert Answered(s', c) == {};
    forall d, q | 0 <= d < |s'.tlb| && q in s'.tlb[d]
      ensures s'.Walk(q) == Some(s'.tlb[d][q]) || MayLag(s', d, q)
    {
      assert s.Walk(q) == Some(s.tlb[d][q]) || MayLag(s, d, q);
    }
  }

  /** When the ack counter reaches the number of other cores, every one of them has finished. */
  lemma AllAnswered(s: State, h: nat)
    requires Inv(s) && s.lock == Some(h) && s.op[h].Waiting?
    requires |s.tlb| - 1 <= s.shootAck
    ensures s.ipi == {}
    ensures forall d | 0 <= d < |s.tlb| :: s.handler[d].Quiet?
  {
    assert Answered(s, h) <= s.Others(h);
    SubsetOfSameSize(Answered(s, h), s.Others(h));
    forall d | 0 <= d < |s.tlb|
      ensures d !in s.ipi && s.handler[d].Quiet?
    {
      assert d in s.Others(h) || d == h;
    }
    assert s.ipi == s.ipi * Below(|s.tlb|);
  }

  lemma SubsetOfSameSize(a: set<nat>, b: set<nat>)
    requires a <= b && |b| <= |a|
    ensures a == b
  {
    assert |b - a| == |b| - |a|;
  }

  lemma WaitKeeps(s: State, c: nat, tableOk: bool)
    requires Inv(s) && Enabled(s, Advance(c, tableOk)) && s.op[c].Waiting?
    ensures Inv(Step(s, Advance(c, tableOk)))
  {
    var s' := Step(s, Advance(c, tableOk));
    assert s.lock == Some(c);
    AllAnswered(s, c);
    forall d, q | 0 <= d < |s'.tlb| && q in s'.tlb[d]
      ensures s'.Walk(q) == Some(s'.tlb[d][q]) || MayLag(s', d, q)
    {
      assert s.Walk(q) == Some(s.tlb[d][q]) || MayLag(s, d, q);
    }
  }

  lemma UnlockKeeps(s: State, c: nat, tableOk: bool)
    requires Inv(s) && Enabled(s, Advance(c, tableOk)) && s.op[c].Unlocking?
    ensures Inv(Step(s, Advance(c, tableOk)))
  {
    var s' := Step(s, Advance(c, tableOk));
    assert s.lock == Some(c);
    forall d, q | 0 <= d < |s'.tlb| && q in s'.tlb[d]
      ensures s'.Walk(q) == Some(s'.tlb[d][q])
    {
      assert s.Walk(q) == Some(s.tlb[d][q]) || MayLag(s, d, q);
    }
    assert Unmapped(s.op[c].freed, s);
  }

  lemma InterruptKeeps(s: State, c: nat)
    requires Inv(s) && Enabled(s, Interrupt(c))
    ensures Inv(Step(s, Interrupt(c)))
  {
    var s' := Step(s, Interrupt(c));
    var h := s.lock.value;
    assert Answered(s', h) == Answered(s, h);
    forall d, q | 0 <= d < |s'.tlb| && q in s'.tlb[d]
      ensures s'.Walk(q) == Some(s'.tlb[d][q]) || MayLag(s', d, q)
    {
      assert s.Walk(q) == Some(s.tlb[d][q]) || MayLag(s, d, q);
    }
  }

  /** The i-th invlpg of a handler hits the i-th page of the request: no wrap-around occurs. */
  lemma InvalidatedPage(req: Request, i: nat)
    requires req.WellFormed() && i < req.pages
    ensures (req.Published() + i * PAGE_SIZE) % ADDRESS_SPACE / PAGE_SIZE == req.Start() + i
  {
    assert req.Published() / PAGE_SIZE == req.Start();
    assert req.Published() + i * PAGE_SIZE < ADDRESS_SPACE;
  }

  /** A handler moves on, having dropped every translation it no longer owes. */
  lemma HandlerMoves(s: State, s': State, c: nat, t: map<Page, Entry>, n: Handler)
    requires Inv(s) && s.lock.Some? && s.op[s.lock.value].Waiting?
    requires c < |s.tlb| && !s.handler[c].Quiet? && !n.Quiet? && !n.LoadAddr?
    requires s' == s.(tlb := s.tlb[c := t], handler := s.handler[c := n])
    requires n.LoadLen? || n.Invalidate? ==> n.addr == s.op[s.lock.value].req.Published()
    requires n.Invalidate? ==> n.len == s.op[s.lock.value].req.pages && n.i <= n.len
    requires forall q | q in t :: q in s.tlb[c] && t[q] == s.tlb[c][q]
    requires var req := s.op[s.lock.value].req;
             forall q | q in t && req.Start() <= q < req.Start() + req.pages ::
               Owes(s.handler[c], c in s.ipi, req.Start(), q) ==> Owes(n, c in s.ipi, req.Start(), q)
    ensures Inv(s')
  {
    var h := s.lock.value;
    assert Answered(s', h) == Answered(s, h);
    assert ShootInv(s');
    forall d, q | 0 <= d < |s'.tlb| && q in s'.tlb[d]
      ensures s'.Walk(q) == Some(s'.tlb[d][q]) || MayLag(s', d, q)
    {
      assert q in s.tlb[d] && s'.tlb[d][q] == s.tlb[d][q];
      assert s.Walk(q) == Some(s.tlb[d][q]) || MayLag(s, d, q);
    }
  }

  lemma InvalidateKeeps(s: State, c: nat)
    requires Inv(s) && c < |s.tlb| && s.handler[c].Invalidate? && s.handler[c].i < s.handler[c].len
    ensures Inv(HandlerNext(s, c))
  {
    var req := s.op[s.lock.value].req;
    var Invalidate(addr, len, i) := s.handler[c];
    InvalidatedPage(req, i);
    var t := s.tlb[c] - {req.Start() + i};
    HandlerMoves(s, HandlerNext(s, c), c, t, Invalidate(addr, len, i + 1));
  }

  lemma HandlerKeeps(s: State, c: nat)
    requires Inv(s) && c < |s.tlb| && !s.handler[c].Acknowledge? && !s.handler[c].Quiet?
    ensures Inv(HandlerNext(s, c))
  {
    var s' := HandlerNext(s, c);
    assert s.tlb[c := s.tlb[c]] == s.tlb;
    match s.handler[c]
    case LoadAddr => HandlerMoves(s, s', c, s.tlb[c], LoadLen(s.shootAddr));
    case LoadLen(addr) => HandlerMoves(s, s', c, s.tlb[c], s'.handler[c]);
    case Invalidate(_, len, i) =>
      if i < len { InvalidateKeeps(s, c); } else { HandlerMoves(s, s', c, s.tlb[c], Acknowledge); }
    case ReloadCr3 => HandlerMoves(s, s', c, map[], Acknowledge);
  }

  lemma AcknowledgeCounts(s: State, c: nat)
    requires Inv(s) && Enabled(s, HandlerStep(c)) && s.handler[c].Acknowledge?
    ensures var s' := Step(s, HandlerStep(c));
            s'.WellFormed() && LockInv(s') && HolderInv(s') && ShootInv(s') && RetiredInv(s')
  {
    var s' := Step(s, HandlerStep(c));
    var h := s.lock.value;
    assert c != h;
    assert Answered(s', h) == Answered(s, h) + {c};
  }

  lemma AcknowledgeKeeps(s: State, c: nat)
    requires Inv(s) && Enabled(s, HandlerStep(c)) && s.handler[c].Acknowledge?
    ensures Inv(Step(s, HandlerStep(c)))
  {
    AcknowledgeCounts(s, c);
    var s' := Step(s, HandlerStep(c));
    forall d, q | 0 <= d < |s'.tlb| && q in s'.tlb[d]
      ensures s'.Walk(q) == Some(s'.tlb[d][q]) || MayLag(s', d, q)
    {
      assert s.Walk(q) == Some(s.tlb[d][q]) || MayLag(s, d, q);
    }
  }

  lemma AdvanceKeeps(s: State, c: nat, ok: bool)
    requires Inv(s) && Enabled(s, Advance(c, ok))
    ensures Inv(Step(s, Advance(c, ok)))
  {
    match s.op[c]
    case Walking(_, _, _, _) => WalkKeeps(s, c, ok);
    case Flushing(_, _, _, _) => FlushKeeps(s, c, ok);
    case SendIpi(_, _) => SendKeeps(s, c, ok);
    case Waiting(_, _) => WaitKeeps(s, c, ok);
    case Unlocking(_, _) => UnlockKeeps(s, c, ok);
    case Freeing(_) => BackgroundKeeps(s, Step(s, Advance(c, ok)));
    case _ => PublishKeeps(s, c, ok);
  }

  lemma StepKeeps(s: State, a: Action)
    requires Inv(s) && Enabled(s, a)
    ensures Inv(Step(s, a))
  {
    match a
    case Acquire(c, req) => AcquireKeeps(s, c, req);
    case Interrupt(c) => InterruptKeeps(s, c);
    case HandlerStep(c) =>
      if s.handler[c].Acknowledge? { AcknowledgeKeeps(s, c); } else { HandlerKeeps(s, c); }
    case Advance(c, ok) => AdvanceKeeps(s, c, ok);
    case _ => BackgroundKeeps(s, Step(s, a));
  }

  lemma {:induction false} RunInv(states: seq<State>, actions: seq<Action>, k: nat)
    requires IsRun(states, actions) && k < |states|
    ensures Inv(states[k])
  {
    if k == 0 {
      InitInv(states[0]);
    } else {
      RunInv(states, actions, k - 1);
      StepKeeps(states[k - 1], actions[k - 1]);
    }
  }

  // ----- what the protocol guarantees -------------------------------------------------------

  /** Whenever MAPPER is free, every translation cached on every core is the one in the page table:
      frame and flags. */
  lemma NoStaleTranslationWhenUnlocked(states: seq<State>, actions: seq<Action>, k: nat, c: nat, p: Page)
    requires IsRun(states, actions) && k < |states|
    requires c < |states[k].tlb| && p in states[k].tlb[c]
    ensures states[k].lock.None? ==> states[k].Walk(p) == Some(states[k].tlb[c][p])
  {
    RunInv(states, actions, k);
  }

  /** While MAPPER is held, a stale translation exists only for a page of the running operation, and
      it still names the page's own frame or a frame that operation has unmapped and not yet freed. */
  lemma StaleTranslationIsBounded(states: seq<State>, actions: seq<Action>, k: nat, c: nat, p: Page)
    requires IsRun(states, actions) && k < |states|
    requires c < |states[k].tlb| && p in states[k].tlb[c]
    requires states[k].Walk(p) != Some(states[k].tlb[c][p])
    ensures var s := states[k];
            && s.lock.Some? && s.lock.value < |s.op| && s.op[s.lock.value].Locked()
            && var o := s.op[s.lock.value];
               && o.req.Start() <= p < o.req.Start() + o.req.pages
               && (if p in s.pt then s.pt[p].frame == s.tlb[c][p].frame else (p, s.tlb[c][p].frame) in o.freed)
  {
    RunInv(states, actions, k);
  }

  /** A page unmapped by a finished operation and not mapped back to the same frame since is not
      translated to that frame by any core: neither before nor after the frame is freed, and
      whatever else is mapped, unmapped or reallocated meanwhile. */
  lemma RetiredTranslationUnreachable(states: seq<State>, actions: seq<Action>, k: nat, c: nat, p: Page, f: Frame)
    requires IsRun(states, actions) && k < |states|
    requires (p, f) in states[k].retired && c < |states[k].tlb| && p in states[k].tlb[c]
    ensures states[k].tlb[c][p].frame != f
  {
    RunInv(states, actions, k);
    var s := states[k];
    assert s.Walk(p) == Some(s.tlb[c][p]) || MayLag(s, c, p);
  }

  /** A waiting mutator is never stuck: while an ack is missing, some other core has the IPI pending
      or is inside its handler, and can take its next step. */
  lemma ShootdownNotStuck(states: seq<State>, actions: seq<Action>, k: nat, h: nat) returns (d: nat)
    requires IsRun(states, actions) && k < |states| && states[k].WellFormed()
    requires h < |states[k].tlb| && states[k].op[h].Waiting? && states[k].shootAck < |states[k].tlb| - 1
    ensures states[k].WellFormed() && d < |states[k].tlb| && d != h
    ensures Enabled(states[k], Interrupt(d)) || Enabled(states[k], HandlerStep(d))
  {
    RunInv(states, actions, k);
    var s := states[k];
    assert s.lock == Some(h);
    assert |Answered(s, h)| < |s.Others(h)|;
    assert Answered(s, h) != s.Others(h);
    assert exists e :: e in s.Others(h) && e !in Answered(s, h);
    d :| d in s.Others(h) && d !in Answered(s, h);
  }
}
