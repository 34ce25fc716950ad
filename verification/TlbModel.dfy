/** Page-table mutation and cross-core TLB shootdown, as one state machine over all cores.

    Every atomic action of the code is one step: taking MAPPER, one page-table entry, one local
    invlpg, each store to a SHOOT_* static, the broadcast, each load, invlpg and ack of an IPI
    handler, the release of MAPPER and the return of one frame to the allocator.  Between any two
    of them any core may fill or evict a TLB entry, which is what the hardware is free to do.

    A core runs one mapper operation at a time (tasks are cooperative); the IPI handler interrupts
    it.  The ack timeout does not fire and the set of online cores does not change. */
module TlbModel {
  import opened Common

  const ADDRESS_SPACE: nat := 0x1_0000_0000_0000_0000
  const VIRTUAL_PAGES: nat := 0x10_0000_0000_0000 // ADDRESS_SPACE / PAGE_SIZE
  const FLUSH_THRESHOLD: nat := 32

  type Page = int
  type Frame = int

  /** A translation: the frame and the permission flags of a present 4 KiB page. */
  datatype Entry = Entry(frame: Frame, flags: nat)

  /** What the caller asks for.  `ranged` tells set_flags_range / unmap_range, which publish the
      page-aligned start, from set_flags / unmap_page, which publish the address as given. */
  datatype Kind = Map(frame: Frame, flags: nat) | Unmap | SetFlags(newFlags: nat)
  datatype Request = Request(kind: Kind, virt: nat, pages: nat, ranged: bool)
  {
    function Start(): Page { virt / PAGE_SIZE }

    function Published(): nat { if ranged then Start() * PAGE_SIZE else virt }

    /** `Page + u64` panics past the end of the address space, the single-page entry points handle one
        page, and a range of no pages returns before taking MAPPER. */
    predicate WellFormed()
    {
      && 1 <= pages
      && virt < ADDRESS_SPACE
      && Start() + pages <= VIRTUAL_PAGES
      && (!ranged || kind.Map? ==> pages == 1)
      && (kind.Map? ==> !ranged)
    }
  }

  /** Where a core stands inside a mapper operation.  All but Idle and Freeing hold MAPPER.
      `freed` are the pages unmapped so far with the frames they held. */
  datatype Op =
    | Idle
    | Walking(req: Request, i: nat, changed: nat, freed: seq<(Page, Frame)>)
    | Flushing(req: Request, i: nat, changed: nat, freed: seq<(Page, Frame)>)
    | StoreAddr(req: Request, freed: seq<(Page, Frame)>)
    | StoreLen(req: Request, freed: seq<(Page, Frame)>)
    | StoreAck(req: Request, freed: seq<(Page, Frame)>)
    | StoreNeed(req: Request, freed: seq<(Page, Frame)>)
    | SendIpi(req: Request, freed: seq<(Page, Frame)>)
    | Waiting(req: Request, freed: seq<(Page, Frame)>)
    | Unlocking(req: Request, freed: seq<(Page, Frame)>)
    | Freeing(freed: seq<(Page, Frame)>)
  {
    predicate Locked() { !Idle? && !Freeing? }
  }

  /** Where a core stands inside `on_ipi`. */
  datatype Handler =
    | Quiet
    | LoadAddr
    | LoadLen(addr: nat)
    | Invalidate(addr: nat, len: nat, i: nat)
    | ReloadCr3
    | Acknowledge

  datatype State = State(
    lock: Option<nat>,               // MAPPER
    pt: map<Page, Entry>,            // present 4 KiB entries
    huge: map<Page, Entry>,          // pages translated by a huge-page parent; never changed
    tlb: seq<map<Page, Entry>>,      // per core
    op: seq<Op>,                     // per core
    handler: seq<Handler>,           // per core
    ipi: set<nat>,                   // cores with VEC_TLB_SHOOTDOWN pending
    shootAddr: nat,
    shootLen: nat,
    shootAck: nat,
    shootNeed: nat,
    free: set<Frame>,                // the frame allocator's free frames
    retired: set<(Page, Frame)>)     // unmapped and not mapped back since (bookkeeping only)
  {
    predicate WellFormed()
    {
      |tlb| == |op| == |handler| && |tlb| >= 1 && pt.Keys !! huge.Keys
    }

    /** The page walk: what the hardware would load into a TLB right now. */
    function Walk(p: Page): Option<Entry>
    {
      if p in huge then Some(huge[p]) else if p in pt then Some(pt[p]) else None
    }

    function Others(c: nat): set<nat>
    {
      Below(|tlb|) - {c}
    }
  }

  /** One atomic action. */
  datatype Action =
    | Fill(core: nat, page: Page)
    | Evict(core: nat, page: Page)
    | Acquire(core: nat, req: Request)
    | Advance(core: nat, tableOk: bool)  // next action of the core's operation; `tableOk`: map_to found its table frames
    | Interrupt(core: nat)
    | HandlerStep(core: nat)
    | AllocateFrame(frame: Frame)

  predicate Enabled(s: State, a: Action)
    requires s.WellFormed()
  {
    match a
    case Fill(c, p) => c < |s.tlb| && s.Walk(p).Some?
    case Evict(c, p) => c < |s.tlb|
    case Acquire(c, req) => c < |s.tlb| && s.op[c].Idle? && s.lock.None? && req.WellFormed()
    case Advance(c, _) =>
      && c < |s.tlb| && !s.op[c].Idle?
      && (s.op[c].Waiting? ==> |s.tlb| - 1 <= s.shootAck)
    case Interrupt(c) => c < |s.tlb| && c in s.ipi && s.handler[c].Quiet?
    case HandlerStep(c) => c < |s.tlb| && !s.handler[c].Quiet?
    case AllocateFrame(f) => f in s.free
  }

  /** invlpg: drops the translation of the page containing `addr`. */
  function Invlpg(t: map<Page, Entry>, addr: nat): map<Page, Entry>
  {
    t - {addr / PAGE_SIZE}
  }

  /** shootdown_range: nothing to broadcast on a single core. */
  function BeginShootdown(s: State, req: Request, freed: seq<(Page, Frame)>): Op
  {
    if |s.tlb| < 2 then Unlocking(req, freed) else StoreAddr(req, freed)
  }

  function FinishWalk(s: State, req: Request, changed: nat, freed: seq<(Page, Frame)>): Op
  {
    if changed > 0 then BeginShootdown(s, req, freed) else Unlocking(req, freed)
  }

  /** One iteration of the page loop up to (and including) the page-table write. */
  function WalkStep(s: State, c: nat, tableOk: bool): State
    requires s.WellFormed() && c < |s.tlb| && s.op[c].Walking?
  {
    var Walking(req, i, changed, freed) := s.op[c];
    var p := req.Start() + i;
    if i >= req.pages then
      s.(op := s.op[c := FinishWalk(s, req, changed, freed)])
    else match req.kind
      case Map(f, flags) =>
        if p in s.huge || p in s.pt || !tableOk then
          s.(op := s.op[c := Unlocking(req, freed)])
        else
          s.(pt := s.pt[p := Entry(f, flags)],
             retired := s.retired - {(p, f)},
             op := s.op[c := Flushing(req, i, changed, freed)])
      case Unmap =>
        if p in s.huge || p !in s.pt then
          s.(op := s.op[c := Walking(req, i + 1, changed, freed)])
        else
          s.(pt := s.pt - {p},
             op := s.op[c := Flushing(req, i, changed + 1, freed + [(p, s.pt[p].frame)])])
      case SetFlags(flags) =>
        if p in s.huge then
          s.(op := s.op[c := FinishWalk(s, req, changed, freed)])
        else if p !in s.pt then
          s.(op := s.op[c := Walking(req, i + 1, changed, freed)])
        else
          s.(pt := s.pt[p := Entry(s.pt[p].frame, flags)],
             op := s.op[c := Flushing(req, i, changed + 1, freed)])
  }

  function AdvanceStep(s: State, c: nat, tableOk: bool): State
    requires s.WellFormed() && Enabled(s, Advance(c, tableOk))
  {
    match s.op[c]
    case Walking(_, _, _, _) => WalkStep(s, c, tableOk)
    case Flushing(req, i, changed, freed) =>
      s.(tlb := s.tlb[c := Invlpg(s.tlb[c], (req.Start() + i) * PAGE_SIZE)],
         op := s.op[c := if req.kind.Map? then Unlocking(req, freed) else Walking(req, i + 1, changed, freed)])
    case StoreAddr(req, freed) => s.(shootAddr := req.Published(), op := s.op[c := StoreLen(req, freed)])
    case StoreLen(req, freed) => s.(shootLen := req.pages, op := s.op[c := StoreAck(req, freed)])
    case StoreAck(req, freed) => s.(shootAck := 0, op := s.op[c := StoreNeed(req, freed)])
    case StoreNeed(req, freed) => s.(shootNeed := |s.tlb| - 1, op := s.op[c := SendIpi(req, freed)])
    case SendIpi(req, freed) => s.(ipi := s.ipi + s.Others(c), op := s.op[c := Waiting(req, freed)])
    case Waiting(req, freed) => s.(op := s.op[c := Unlocking(req, freed)])
    case Unlocking(req, freed) =>
      s.(lock := None,
         retired := s.retired + (set x | x in freed),
         op := s.op[c := if freed == [] then Idle else Freeing(freed)])
    case Freeing(freed) =>
      if freed == [] then s.(op := s.op[c := Idle])
      else s.(free := s.free + {freed[0].1}, op := s.op[c := Freeing(freed[1..])])
  }

  function HandlerNext(s: State, c: nat): State
    requires s.WellFormed() && c < |s.tlb| && !s.handler[c].Quiet?
  {
    match s.handler[c]
    case LoadAddr => s.(handler := s.handler[c := LoadLen(s.shootAddr)])
    case LoadLen(addr) =>
      s.(handler := s.handler[c := if s.shootLen <= FLUSH_THRESHOLD then Invalidate(addr, s.shootLen, 0) else ReloadCr3])
    case Invalidate(addr, len, i) =>
      if i < len then
        s.(tlb := s.tlb[c := Invlpg(s.tlb[c], (addr + i * PAGE_SIZE) % ADDRESS_SPACE)],
           handler := s.handler[c := Invalidate(addr, len, i + 1)])
      else
        s.(handler := s.handler[c := Acknowledge])
    case ReloadCr3 => s.(tlb := s.tlb[c := map[]], handler := s.handler[c := Acknowledge])
    case Acknowledge => s.(shootAck := s.shootAck + 1, handler := s.handler[c := Quiet])
  }

  function Step(s: State, a: Action): (s': State)
    requires s.WellFormed() && Enabled(s, a)
  {
    match a
    case Fill(c, p) => s.(tlb := s.tlb[c := s.tlb[c][p := s.Walk(p).value]])
    case Evict(c, p) => s.(tlb := s.tlb[c := s.tlb[c] - {p}])
    case Acquire(c, req) => s.(lock := Some(c), op := s.op[c := Walking(req, 0, 0, [])])
    case Advance(c, tableOk) => AdvanceStep(s, c, tableOk)
    case Interrupt(c) => s.(ipi := s.ipi - {c}, handler := s.handler[c := LoadAddr])
    case HandlerStep(c) => HandlerNext(s, c)
    case AllocateFrame(f) => s.(free := s.free - {f})
  }

  /** Boot state: no operation in progress, nothing cached, no IPI. */
  ghost predicate Init(s: State)
  {
    && s.WellFormed()
    && s.lock.None?
    && (forall c | 0 <= c < |s.tlb| :: s.tlb[c] == map[] && s.op[c].Idle? && s.handler[c].Quiet?)
    && s.ipi == {}
    && s.retired == {}
  }

  /** A run: each state follows from the one before by an enabled action. */
  ghost predicate IsRun(states: seq<State>, actions: seq<Action>)
  {
    && |states| == |actions| + 1
    && Init(states[0])
    && (forall k | 0 <= k < |actions| ::
          states[k].WellFormed() && Enabled(states[k], actions[k]) && states[k + 1] == Step(states[k], actions[k]))
  }
}
