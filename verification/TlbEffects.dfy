/** What a mapper operation does to the page table, from taking MAPPER to releasing it, whatever the
    other cores do meanwhile, and what becomes of the frames it unmaps. */
module TlbEffects {
  import opened Common
  import opened TlbModel
  import opened TlbSafety

  /** The translations: 4 KiB entries, and pages under a huge-page parent. */
  datatype Table = Table(pt: map<Page, Entry>, huge: map<Page, Entry>)

  function TableOf(s: State): Table
  {
    Table(s.pt, s.huge)
  }

  // ----- what is asked of an operation ----------------------------------------------------------

  predicate InRange(req: Request, p: Page)
  {
    req.Start() <= p < req.Start() + req.pages
  }

  predicate SameEntry(was: Table, t: Table, p: Page)
  {
    (p in t.pt <==> p in was.pt) && (p in t.pt && p in was.pt ==> t.pt[p] == was.pt[p])
  }

  /** No page from `from` up to and with p lies under a huge-page parent. */
  ghost predicate Clear(was: Table, from: Page, p: Page)
  {
    forall h | from <= h <= p :: h !in was.huge
  }

  /** The pairs set aside for the pages of the range below `end`: each page that was mapped, once and in
      order, with its frame. */
  ghost predicate SetAside(was: Table, req: Request, freed: seq<(Page, Frame)>, end: Page)
  {
    && (forall p | req.Start() <= p < end && p in was.pt :: (p, was.pt[p].frame) in freed)
    && (forall i | 0 <= i < |freed| ::
          req.Start() <= freed[i].0 < end && freed[i].0 in was.pt && freed[i].1 == was.pt[freed[i].0].frame)
    && (forall i, j | 0 <= i < j < |freed| :: freed[i].0 < freed[j].0)
  }

  /** A page below the first huge one has the requested flags, if it was mapped; its frame is the same. */
  ghost predicate FlagsSet(was: Table, req: Request, t: Table, p: Page)
    requires req.kind.SetFlags?
  {
    if Clear(was, req.Start(), p) && p in was.pt
    then p in t.pt && t.pt[p] == Entry(was.pt[p].frame, req.kind.newFlags)
    else SameEntry(was, t, p)
  }

  /** The page is mapped as asked exactly if it was free, under no huge-page parent, and its table frames
      were found. */
  ghost predicate Mapped(was: Table, req: Request, t: Table, tableOk: Option<bool>)
    requires req.kind.Map?
  {
    var p := req.Start();
    if p !in was.pt && p !in was.huge && tableOk == Some(true)
    then p in t.pt && t.pt[p] == Entry(req.kind.frame, req.kind.flags)
    else SameEntry(was, t, p)
  }

  /** The operation has done what was asked, and nothing else. */
  ghost predicate Carried(was: Table, req: Request, t: Table, freed: seq<(Page, Frame)>, tableOk: Option<bool>)
  {
    && t.huge == was.huge
    && (forall p | !InRange(req, p) :: SameEntry(was, t, p))
    && match req.kind
       case Map(_, _) => Mapped(was, req, t, tableOk)
       case Unmap => (forall p | InRange(req, p) :: p !in t.pt) && SetAside(was, req, freed, req.Start() + req.pages)
       case SetFlags(_) => forall p | InRange(req, p) :: FlagsSet(was, req, t, p)
  }

  // ----- the way there --------------------------------------------------------------------------

  /** Of the range, the pages before `end` are done and the others untouched. */
  ghost predicate Underway(was: Table, req: Request, t: Table, freed: seq<(Page, Frame)>, end: Page)
  {
    && t.huge == was.huge
    && (forall p | !(req.Start() <= p < end) :: SameEntry(was, t, p))
    && match req.kind
       case Map(f, flags) =>
         req.Start() < end ==>
           && req.Start() !in was.pt && req.Start() !in was.huge
           && req.Start() in t.pt && t.pt[req.Start()] == Entry(f, flags)
       case Unmap => (forall p | req.Start() <= p < end :: p !in t.pt) && SetAside(was, req, freed, end)
       case SetFlags(_) =>
         && Clear(was, req.Start(), end - 1)
         && forall p | req.Start() <= p < end :: FlagsSet(was, req, t, p)
  }

  ghost predicate Progress(was: Table, req: Request, t: Table, o: Op, tableOk: Option<bool>)
    requires o.Locked()
  {
    && o.req == req && req.WellFormed()
    && (if o.Walking? then Underway(was, req, t, o.freed, req.Start() + o.i) && (req.kind.Map? ==> o.i == 0 && tableOk == None)
        else if o.Flushing? then Underway(was, req, t, o.freed, req.Start() + o.i + 1) && (req.kind.Map? ==> o.i == 0 && tableOk == Some(true))
        else Carried(was, req, t, o.freed, tableOk))
  }

  /** Whether map_to found its table frames: the answer at the first step core c takes from action j on. */
  function TableOk(actions: seq<Action>, j: nat, k: nat, c: nat): Option<bool>
    requires j <= k <= |actions|
    decreases k
  {
    if k == j then None
    else
      var r := TableOk(actions, j, k - 1, c);
      if r.None? && actions[k - 1].Advance? && actions[k - 1].core == c then Some(actions[k - 1].tableOk) else r
  }

  function First(was: Option<bool>, ok: bool): Option<bool>
  {
    if was.None? then Some(ok) else was
  }

  /** A finished walk, or one that met a huge page. */
  lemma WalkDone(was: Table, req: Request, t: Table, freed: seq<(Page, Frame)>, end: Page, ok: Option<bool>)
    requires Underway(was, req, t, freed, end) && !req.kind.Map? && req.Start() <= end <= req.Start() + req.pages
    requires end == req.Start() + req.pages || (req.kind.SetFlags? && end in was.huge)
    ensures Carried(was, req, t, freed, ok)
  {
    if req.kind.SetFlags? {
      forall p | InRange(req, p)
        ensures FlagsSet(was, req, t, p)
      {
        if p >= end { assert !Clear(was, req.Start(), p); }
      }
    }
  }

  lemma UnmapStep(was: Table, req: Request, t: Table, freed: seq<(Page, Frame)>, end: Page, t': Table, freed': seq<(Page, Frame)>)
    requires was.pt.Keys !! was.huge.Keys && Underway(was, req, t, freed, end) && req.kind.Unmap? && req.Start() <= end
    requires t'.huge == t.huge
    requires if end in t.huge || end !in t.pt then t'.pt == t.pt && freed' == freed
             else t'.pt == t.pt - {end} && freed' == freed + [(end, t.pt[end].frame)]
    ensures Underway(was, req, t', freed', end + 1)
  {
    assert SameEntry(was, t, end);
    if !(end in t.huge || end !in t.pt) { assert freed'[|freed|] == (end, was.pt[end].frame); }
    forall p | !(req.Start() <= p < end + 1)
      ensures SameEntry(was, t', p)
    {
      assert SameEntry(was, t, p);
    }
  }

  lemma SetFlagsStep(was: Table, req: Request, t: Table, freed: seq<(Page, Frame)>, end: Page, t': Table)
    requires Underway(was, req, t, freed, end) && req.kind.SetFlags? && req.Start() <= end && end !in t.huge
    requires t'.huge == t.huge
    requires t'.pt == if end in t.pt then t.pt[end := Entry(t.pt[end].frame, req.kind.newFlags)] else t.pt
    ensures Underway(was, req, t', freed, end + 1)
  {
    assert SameEntry(was, t, end);
    forall p | !(req.Start() <= p < end + 1)
      ensures SameEntry(was, t', p)
    {
      assert SameEntry(was, t, p);
    }
    assert Clear(was, req.Start(), end);
    forall p | req.Start() <= p < end + 1
      ensures FlagsSet(was, req, t', p)
    {
      if p < end { assert FlagsSet(was, req, t, p); }
    }
  }

  lemma MapStep(was: Table, req: Request, t: Table, ok: bool, t': Table, o': Op)
    requires was.pt.Keys !! was.huge.Keys && Underway(was, req, t, [], req.Start()) && req.kind.Map? && req.WellFormed() && t'.huge == t.huge
    requires var p := req.Start();
             if p in t.huge || p in t.pt || !ok then t'.pt == t.pt && o' == Unlocking(req, [])
             else t'.pt == t.pt[p := Entry(req.kind.frame, req.kind.flags)] && o'.Flushing? && o'.req == req && o'.i == 0 && o'.freed == []
    ensures Progress(was, req, t', o', Some(ok))
  {
    var p := req.Start();
    assert SameEntry(was, t, p);
    forall q | q != p
      ensures SameEntry(was, t', q)
    {
      assert SameEntry(was, t, q);
    }
  }

  // ----- steps of the operation -------------------------------------------------------------------

  lemma MapProgress(was: Table, req: Request, s: State, c: nat, ok: bool)
    requires was.pt.Keys !! was.huge.Keys && s.WellFormed() && c < |s.tlb| && s.op[c].Walking? && OpInv(s, s.op[c])
    requires req.kind.Map? && Progress(was, req, TableOf(s), s.op[c], None)
    ensures var s' := WalkStep(s, c, ok); s'.op[c].Locked() && Progress(was, req, TableOf(s'), s'.op[c], Some(ok))
  {
    var s' := WalkStep(s, c, ok);
    MapStep(was, req, TableOf(s), ok, TableOf(s'), s'.op[c]);
  }

  /** What one page of an unmap does. */
  lemma UnmapWalk(s: State, c: nat, ok: bool)
    requires s.WellFormed() && c < |s.tlb| && s.op[c].Walking? && s.op[c].req.kind.Unmap? && s.op[c].i < s.op[c].req.pages
    ensures var s' := WalkStep(s, c, ok);
            var Walking(req, i, _, freed) := s.op[c];
            var p := req.Start() + i;
            && |s'.op| == |s.op| && s'.huge == s.huge
            && if p in s.huge || p !in s.pt
               then s'.pt == s.pt && s'.op[c].Walking? && s'.op[c].req == req && s'.op[c].i == i + 1 && s'.op[c].freed == freed
               else s'.pt == s.pt - {p} && s'.op[c].Flushing? && s'.op[c].req == req && s'.op[c].i == i && s'.op[c].freed == freed + [(p, s.pt[p].frame)]
  {
  }

  lemma UnmapProgress(was: Table, req: Request, s: State, c: nat, ok: bool, seen: Option<bool>)
    requires was.pt.Keys !! was.huge.Keys && s.WellFormed() && c < |s.tlb| && s.op[c].Walking? && OpInv(s, s.op[c])
    requires req.kind.Unmap? && Progress(was, req, TableOf(s), s.op[c], seen)
    ensures var s' := WalkStep(s, c, ok); s'.op[c].Locked() && Progress(was, req, TableOf(s'), s'.op[c], First(seen, ok))
  {
    var s' := WalkStep(s, c, ok);
    var Walking(_, i, _, freed) := s.op[c];
    if i >= req.pages {
      WalkDone(was, req, TableOf(s), freed, req.Start() + i, First(seen, ok));
    } else {
      UnmapWalk(s, c, ok);
      UnmapStep(was, req, TableOf(s), freed, req.Start() + i, TableOf(s'), s'.op[c].freed);
    }
  }

  lemma SetFlagsProgress(was: Table, req: Request, s: State, c: nat, ok: bool, seen: Option<bool>)
    requires s.WellFormed() && c < |s.tlb| && s.op[c].Walking? && OpInv(s, s.op[c])
    requires req.kind.SetFlags? && Progress(was, req, TableOf(s), s.op[c], seen)
    ensures var s' := WalkStep(s, c, ok); s'.op[c].Locked() && Progress(was, req, TableOf(s'), s'.op[c], First(seen, ok))
  {
    var s' := WalkStep(s, c, ok);
    var Walking(_, i, _, freed) := s.op[c];
    var end := req.Start() + i;
    if i >= req.pages || end in s.huge {
      WalkDone(was, req, TableOf(s), freed, end, First(seen, ok));
    } else {
      SetFlagsStep(was, req, TableOf(s), freed, end, TableOf(s'));
    }
  }

  lemma MapFlushed(was: Table, req: Request, t: Table)
    requires Underway(was, req, t, [], req.Start() + 1) && req.kind.Map? && req.WellFormed()
    ensures Carried(was, req, t, [], Some(true))
  {
  }

  lemma FlushProgress(was: Table, req: Request, s: State, c: nat, ok: bool, seen: Option<bool>)
    requires s.WellFormed() && Enabled(s, Advance(c, ok)) && s.op[c].Flushing? && OpInv(s, s.op[c])
    requires Progress(was, req, TableOf(s), s.op[c], seen)
    ensures var s' := AdvanceStep(s, c, ok); s'.op[c].Locked() && Progress(was, req, TableOf(s'), s'.op[c], First(seen, ok))
  {
    assert TableOf(AdvanceStep(s, c, ok)) == TableOf(s);
    if req.kind.Map? { MapFlushed(was, req, TableOf(s)); }
  }

  /** Publishing and waiting: no map operation comes here. */
  lemma LaterProgress(was: Table, req: Request, s: State, c: nat, ok: bool, seen: Option<bool>)
    requires s.WellFormed() && Enabled(s, Advance(c, ok)) && s.op[c].Locked() && OpInv(s, s.op[c])
    requires !s.op[c].Walking? && !s.op[c].Flushing? && !s.op[c].Unlocking? && Progress(was, req, TableOf(s), s.op[c], seen)
    ensures var s' := AdvanceStep(s, c, ok); s'.op[c].Locked() && Progress(was, req, TableOf(s'), s'.op[c], First(seen, ok))
  {
    assert TableOf(AdvanceStep(s, c, ok)) == TableOf(s);
  }

  lemma OwnProgress(was: Table, req: Request, s: State, c: nat, ok: bool, seen: Option<bool>)
    requires was.pt.Keys !! was.huge.Keys && Inv(s) && Enabled(s, Advance(c, ok)) && s.op[c].Locked() && !s.op[c].Unlocking?
    requires Progress(was, req, TableOf(s), s.op[c], seen)
    ensures var s' := AdvanceStep(s, c, ok); s'.op[c].Locked() && Progress(was, req, TableOf(s'), s'.op[c], First(seen, ok))
  {
    assert s.lock == Some(c) && OpInv(s, s.op[c]);
    if s.op[c].Flushing? {
      FlushProgress(was, req, s, c, ok, seen);
    } else if !s.op[c].Walking? {
      LaterProgress(was, req, s, c, ok, seen);
    } else {
      match req.kind
      case Map(_, _) => MapProgress(was, req, s, c, ok);
      case Unmap => UnmapProgress(was, req, s, c, ok, seen);
      case SetFlags(_) => SetFlagsProgress(was, req, s, c, ok, seen);
    }
  }

  /** While core c holds MAPPER, nobody else touches the page table or its operation. */
  lemma OthersLeaveTable(s: State, a: Action, c: nat)
    requires Inv(s) && Enabled(s, a) && c < |s.tlb| && s.op[c].Locked() && !(a.Advance? && a.core == c)
    ensures var s' := Step(s, a); |s'.op| == |s.op| && TableOf(s') == TableOf(s) && s'.op[c] == s.op[c]
  {
    assert s.lock == Some(c);
    if a.Advance? { assert !s.op[a.core].Locked(); }
  }

  // ----- whole operations -------------------------------------------------------------------------

  /** Core c takes MAPPER for `req` with action j and still holds it in state k. */
  ghost predicate Operation(states: seq<State>, actions: seq<Action>, j: nat, k: nat, c: nat, req: Request)
  {
    && IsRun(states, actions) && j < k < |states| && actions[j] == Acquire(c, req)
    && forall i | j < i <= k :: c < |states[i].op| && states[i].op[c].Locked()
  }

  lemma StepProgress(was: Table, req: Request, s: State, a: Action, c: nat, seen: Option<bool>)
    requires was.pt.Keys !! was.huge.Keys && Inv(s) && Enabled(s, a) && c < |s.tlb| && s.op[c].Locked()
    requires Progress(was, req, TableOf(s), s.op[c], seen) && (a.Advance? && a.core == c ==> !s.op[c].Unlocking?)
    ensures var s' := Step(s, a);
            && |s'.op| == |s.op| && s'.op[c].Locked()
            && Progress(was, req, TableOf(s'), s'.op[c], if a.Advance? && a.core == c then First(seen, a.tableOk) else seen)
  {
    if a.Advance? && a.core == c {
      OwnProgress(was, req, s, c, a.tableOk, seen);
    } else {
      OthersLeaveTable(s, a, c);
    }
  }

  lemma ProgressOnward(was: Table, req: Request, s: State, a: Action, c: nat, seen: Option<bool>)
    requires was.pt.Keys !! was.huge.Keys && Inv(s) && Enabled(s, a) && c < |s.tlb| && s.op[c].Locked()
    requires Progress(was, req, TableOf(s), s.op[c], seen) && c < |Step(s, a).op| && Step(s, a).op[c].Locked()
    ensures var s' := Step(s, a);
            Progress(was, req, TableOf(s'), s'.op[c], if a.Advance? && a.core == c then First(seen, a.tableOk) else seen)
  {
    if a.Advance? && a.core == c && s.op[c].Unlocking? { UnlockedAfter(s, c, a.tableOk); }
    StepProgress(was, req, s, a, c, seen);
  }

  lemma UnlockedAfter(s: State, c: nat, ok: bool)
    requires s.WellFormed() && Enabled(s, Advance(c, ok)) && s.op[c].Unlocking?
    ensures c < |Step(s, Advance(c, ok)).op| && !Step(s, Advance(c, ok)).op[c].Locked()
  {
  }

  lemma Started(s: State, c: nat, req: Request)
    requires s.WellFormed() && Enabled(s, Acquire(c, req))
    ensures var s' := Step(s, Acquire(c, req)); s'.op[c].Locked() && Progress(TableOf(s), req, TableOf(s'), s'.op[c], None)
  {
  }

  lemma {:induction false} OperationProgress(states: seq<State>, actions: seq<Action>, j: nat, k: nat, c: nat, req: Request, was: Table)
    requires Operation(states, actions, j, k, c, req) && was == TableOf(states[j])
    ensures Progress(was, req, TableOf(states[k]), states[k].op[c], TableOk(actions, j + 1, k, c))
    decreases k
  {
    assert states[j].WellFormed();
    var n := k - 1;
    if n == j {
      Started(states[j], c, req);
    } else {
      OperationProgress(states, actions, j, n, c, req, was);
      RunInv(states, actions, n);
      assert states[n].op[c].Locked() && states[n + 1].op[c].Locked();
      ProgressOnward(was, req, states[n], actions[n], c, TableOk(actions, j + 1, n, c));
    }
  }

  /** When core c is about to release MAPPER, the operation has done what was asked, whatever happened
      meanwhile: the pages of an unmap are gone and their frames set aside; the pages of a set_flags below
      the first huge one have the new flags on their old frames; a map that could be made is made; every
      other page is as it was when MAPPER was taken. */
  lemma OperationDone(states: seq<State>, actions: seq<Action>, j: nat, k: nat, c: nat, req: Request)
    requires Operation(states, actions, j, k, c, req) && states[k].op[c].Unlocking?
    ensures Carried(TableOf(states[j]), req, TableOf(states[k]), states[k].op[c].freed, TableOk(actions, j + 1, k, c))
  {
    OperationProgress(states, actions, j, k, c, req, TableOf(states[j]));
  }

  /** Between operations the page table stays as it is. */
  lemma UnlockedTableStays(states: seq<State>, actions: seq<Action>, k: nat)
    requires IsRun(states, actions) && k < |actions| && states[k].lock.None?
    ensures TableOf(states[k + 1]) == TableOf(states[k])
  {
    RunInv(states, actions, k);
    if actions[k].Advance? { assert !states[k].op[actions[k].core].Locked(); }
  }

  // ----- the frames of an unmap -------------------------------------------------------------------

  /** From releasing MAPPER in state k on, core c has been returning frames; it still is before state m. */
  ghost predicate Returning(states: seq<State>, actions: seq<Action>, k: nat, m: nat, c: nat, freed: seq<(Page, Frame)>)
  {
    && IsRun(states, actions) && k < m < |states| && c < |states[k].op|
    && states[k].op[c].Unlocking? && states[k].op[c].freed == freed && actions[k].Advance? && actions[k].core == c
    && forall i | k < i < m :: c < |states[i].op| && states[i].op[c].Freeing?
  }

  /** Step n returns the frame of pair i to the allocator. */
  ghost predicate Returns(states: seq<State>, actions: seq<Action>, n: nat, c: nat, freed: seq<(Page, Frame)>, i: nat)
  {
    && n + 1 < |states| && n < |actions| && i < |freed| && actions[n].Advance? && actions[n].core == c
    && c < |states[n].op| && states[n].op[c] == Freeing(freed[i..]) && states[n + 1].free == states[n].free + {freed[i].1}
  }

  ghost predicate ReturnedBy(states: seq<State>, actions: seq<Action>, k: nat, m: nat, c: nat, freed: seq<(Page, Frame)>, i: nat)
  {
    exists n :: k < n < m && Returns(states, actions, n, c, freed, i)
  }

  lemma WalkLeavesOthers(s: State, d: nat, ok: bool, c: nat)
    requires s.WellFormed() && d < |s.tlb| && s.op[d].Walking? && c < |s.op| && c != d
    ensures |WalkStep(s, d, ok).op| == |s.op| && WalkStep(s, d, ok).op[c] == s.op[c]
  {
  }

  lemma AdvanceLeavesOthers(s: State, d: nat, ok: bool, c: nat)
    requires s.WellFormed() && Enabled(s, Advance(d, ok)) && c < |s.op| && c != d
    ensures |AdvanceStep(s, d, ok).op| == |s.op| && AdvanceStep(s, d, ok).op[c] == s.op[c]
  {
    if s.op[d].Walking? { WalkLeavesOthers(s, d, ok, c); }
  }

  lemma FreeingKept(s: State, a: Action, c: nat)
    requires s.WellFormed() && Enabled(s, a) && c < |s.op| && s.op[c].Freeing? && !(a.Advance? && a.core == c)
    ensures |Step(s, a).op| == |s.op| && Step(s, a).op[c] == s.op[c]
  {
    if a.Advance? { AdvanceLeavesOthers(s, a.core, a.tableOk, c); }
  }

  lemma FreeingStep(s: State, ok: bool, c: nat, rest: seq<(Page, Frame)>)
    requires s.WellFormed() && c < |s.op| && s.op[c] == Freeing(rest)
    ensures var s' := AdvanceStep(s, c, ok);
            |s'.op| == |s.op| && if rest == [] then s'.op[c] == Idle else s'.op[c] == Freeing(rest[1..]) && s'.free == s.free + {rest[0].1}
  {
  }

  lemma UnlockStep(s: State, ok: bool, c: nat)
    requires s.WellFormed() && c < |s.op| && s.op[c].Unlocking?
    ensures var s' := AdvanceStep(s, c, ok);
            |s'.op| == |s.op| && s'.op[c] == if s.op[c].freed == [] then Idle else Freeing(s.op[c].freed)
  {
  }

  /** One action while core c returns frames: it goes on, or another one of them is returned. */
  lemma ReturnStep(s: State, a: Action, c: nat, rest: seq<(Page, Frame)>)
    requires s.WellFormed() && Enabled(s, a) && c < |s.op| && s.op[c] == Freeing(rest)
    ensures var s' := Step(s, a);
            && |s'.op| == |s.op|
            && if !(a.Advance? && a.core == c) then s'.op[c] == Freeing(rest)
               else if rest == [] then s'.op[c] == Idle
               else s'.op[c] == Freeing(rest[1..]) && s'.free == s.free + {rest[0].1}
  {
    if a.Advance? && a.core == c { FreeingStep(s, a.tableOk, c, rest); } else { FreeingKept(s, a, c); }
  }

  lemma {:induction false} ReturnedSoFar(states: seq<State>, actions: seq<Action>, k: nat, m: nat, c: nat, freed: seq<(Page, Frame)>) returns (r: nat)
    requires Returning(states, actions, k, m, c, freed)
    ensures r <= |freed| && c < |states[m].op|
    ensures states[m].op[c] == Freeing(freed[r..]) || (states[m].op[c].Idle? && r == |freed|)
    ensures forall i: nat | i < r :: ReturnedBy(states, actions, k, m, c, freed, i)
    decreases m
  {
    var n := m - 1;
    if n == k {
      r := 0;
      UnlockStep(states[k], actions[k].tableOk, c);
      assert freed[0..] == freed;
    } else {
      r := ReturnedSoFar(states, actions, k, n, c, freed);
      LaterToo(states, actions, k, n, m, c, freed, r);
      ReturnStep(states[n], actions[n], c, freed[r..]);
      if r < |freed| && actions[n].Advance? && actions[n].core == c {
        assert Returns(states, actions, n, c, freed, r);
        assert ReturnedBy(states, actions, k, m, c, freed, r);
        assert freed[r..][1..] == freed[r + 1..];
        r := r + 1;
      }
    }
  }

  lemma LaterToo(states: seq<State>, actions: seq<Action>, k: nat, n: nat, m: nat, c: nat, freed: seq<(Page, Frame)>, r: nat)
    requires n <= m && forall i: nat | i < r :: ReturnedBy(states, actions, k, n, c, freed, i)
    ensures forall i: nat | i < r :: ReturnedBy(states, actions, k, m, c, freed, i)
  {
    forall i: nat | i < r
      ensures ReturnedBy(states, actions, k, m, c, freed, i)
    {
      assert ReturnedBy(states, actions, k, n, c, freed, i);
    }
  }

  /** Once core c is idle again, each frame it set aside has been returned, at a step of its own after
      MAPPER was released. */
  lemma FramesReturned(states: seq<State>, actions: seq<Action>, k: nat, m: nat, c: nat, freed: seq<(Page, Frame)>, i: nat) returns (n: nat)
    requires Returning(states, actions, k, m, c, freed) && c < |states[m].op| && states[m].op[c].Idle? && i < |freed|
    ensures k < n < m && Returns(states, actions, n, c, freed, i)
  {
    var r := ReturnedSoFar(states, actions, k, m, c, freed);
    assert ReturnedBy(states, actions, k, m, c, freed, i);
    n :| k < n < m && Returns(states, actions, n, c, freed, i);
  }
}
