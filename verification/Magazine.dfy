/** The per-core magazine cache in front of the shared talc heap: intrusive free lists of canonical
    size-class blocks.

    talc is any allocator that hands out aligned blocks disjoint from the live ones, or nothing; its
    choice is a parameter.  A push or pop runs with interrupts disabled on a magazine only its own
    core touches, so a call is one atomic step on the magazine, or one on talc.  Between calls the
    owners of blocks write into them as they please. */
module Magazine {
  import opened Common

  const NUM_CLASSES: nat := 8
  const MAX_SMALL: nat := 2048
  const CACHE_DEPTH: nat := 64
  const CLASS_ALIGN: nat := 16
  const MAX_CPUS: nat := 16
  const WORD: nat := 8
  const NULL: Addr := 0

  type Addr = int

  datatype Layout = Layout(size: nat, align: nat)
  {
    /** Alignments are powers of two. */
    predicate WellFormed() { align in {1, 2, 4, 8, 16} || (align > 16 && align % 16 == 0) }
  }

  function ClassSize(k: nat): (r: nat)
    ensures r >= 16 && r % 16 == 0
  {
    if k == 0 then 16 else 2 * ClassSize(k - 1)
  }

  function ClassLayout(k: nat): Layout
  {
    Layout(ClassSize(k), CLASS_ALIGN)
  }

  function Need(l: Layout): nat
  {
    if l.size > l.align then l.size else l.align
  }

  predicate Small(l: Layout)
  {
    l.align <= CLASS_ALIGN && 0 < Need(l) <= MAX_SMALL
  }

  lemma LargestClass()
    ensures ClassSize(NUM_CLASSES - 1) == MAX_SMALL
  {
    assert ClassSize(3) == 128;
    assert ClassSize(5) == 512;
  }

  lemma {:induction false} ClassSizeGrows(j: nat, k: nat)
    requires j <= k
    ensures ClassSize(j) <= ClassSize(k)
  {
    if j < k { ClassSizeGrows(j, k - 1); }
  }

  /** The class of a small layout: the least one whose blocks are large enough. */
  function ClassOf(l: Layout): (k: nat)
    requires Small(l)
    ensures k < NUM_CLASSES && Need(l) <= ClassSize(k)
    ensures forall j: nat | j < k :: ClassSize(j) < Need(l)
  {
    LargestClass();
    FirstFit(Need(l), 0)
  }

  function FirstFit(need: nat, k: nat): (r: nat)
    requires k < NUM_CLASSES && need <= ClassSize(NUM_CLASSES - 1)
    requires forall j: nat | j < k :: ClassSize(j) < need
    ensures k <= r < NUM_CLASSES && need <= ClassSize(r)
    ensures forall j: nat | j < r :: ClassSize(j) < need
    decreases NUM_CLASSES - k
  {
    if need <= ClassSize(k) then k else FirstFit(need, k + 1)
  }

  /** The layout talc is asked for on behalf of a request. */
  function Backing(l: Layout): Layout
  {
    if Small(l) then ClassLayout(ClassOf(l)) else l
  }

  method SizeClass(l: Layout) returns (r: Option<(nat, Layout)>)
    ensures r == if Small(l) then Some((ClassOf(l), Backing(l))) else None
  {
    if l.align > CLASS_ALIGN { return None; }
    var need := if l.size > l.align then l.size else l.align;
    if need == 0 || need > MAX_SMALL { return None; }
    var sz, idx := 16, 0;
    while sz < need
      invariant sz == ClassSize(idx) && idx <= ClassOf(l)
      decreases NUM_CLASSES - idx
    {
      assert idx < ClassOf(l);
      sz, idx := 2 * sz, idx + 1;
    }
    assert idx == ClassOf(l);
    return Some((idx, Layout(sz, CLASS_ALIGN)));
  }

  lemma SixteenAligned(p: Addr, align: nat)
    requires p % 16 == 0 && align in {1, 2, 4, 8, 16}
    ensures p % align == 0
  {
    if align == 1 {} else if align == 2 {} else if align == 4 {} else if align == 8 {} else {}
  }

  /** A block of the backing layout serves the request: large enough and aligned. */
  lemma BackingServes(l: Layout, p: Addr)
    requires l.WellFormed() && p % Backing(l).align == 0
    ensures l.size <= Backing(l).size && p % l.align == 0
  {
    if Small(l) {
      SixteenAligned(p, l.align);
    }
  }

  datatype Magazine = Magazine(heads: seq<Addr>, depth: seq<nat>)

  /** Which core and class a cached block belongs to, and its height in that free list. */
  datatype Place = Place(core: nat, cls: nat, height: nat)

  predicate Disjoint(p: Addr, l: Layout, q: Addr, m: Layout)
  {
    p + l.size <= q || q + m.size <= p
  }

  // ----- invariants, on values --------------------------------------------------------------

  type Lists = map<(nat, nat), seq<Addr>>

  ghost predicate Shape(mags: seq<Magazine>, lists: Lists)
  {
    && |mags| == MAX_CPUS
    && (forall c | 0 <= c < MAX_CPUS :: |mags[c].heads| == |mags[c].depth| == NUM_CLASSES)
    && (forall c: nat, k: nat | c < MAX_CPUS && k < NUM_CLASSES :: (c, k) in lists)
  }

  /** What the node at height h points to. */
  function NextOf(l: seq<Addr>, h: nat): Addr
    requires h < |l|
  {
    if h == 0 then NULL else l[h - 1]
  }

  /** Head, depth and the next pointers in memory spell out the list (bottom first). */
  ghost predicate Chain(l: seq<Addr>, head: Addr, depth: nat, mem: Addr -> Addr)
  {
    && depth == |l| <= CACHE_DEPTH
    && head == (if l == [] then NULL else l[|l| - 1])
    && (forall h | 0 <= h < |l| :: l[h] != NULL && mem(l[h]) == NextOf(l, h))
  }

  ghost predicate Linked(mags: seq<Magazine>, lists: Lists, mem: Addr -> Addr)
    requires Shape(mags, lists)
  {
    forall c: nat, k: nat | c < MAX_CPUS && k < NUM_CLASSES :: ChainOf(mags, lists, mem, c, k)
  }

  ghost predicate ChainOf(mags: seq<Magazine>, lists: Lists, mem: Addr -> Addr, c: nat, k: nat)
    requires Shape(mags, lists) && c < MAX_CPUS && k < NUM_CLASSES
  {
    Chain(lists[(c, k)], mags[c].heads[k], mags[c].depth[k], mem)
  }

  /** `place` is the inverse of `lists`: every cached block sits at one height of one list. */
  ghost predicate Placed(lists: Lists, place: map<Addr, Place>)
  {
    && (forall a | a in place ::
          && place[a].core < MAX_CPUS && place[a].cls < NUM_CLASSES
          && (place[a].core, place[a].cls) in lists
          && place[a].height < |lists[(place[a].core, place[a].cls)]|
          && lists[(place[a].core, place[a].cls)][place[a].height] == a)
    && (forall c: nat, k: nat, h: nat |
          c < MAX_CPUS && k < NUM_CLASSES && (c, k) in lists && h < |lists[(c, k)]| ::
          lists[(c, k)][h] in place && place[lists[(c, k)][h]] == Place(c, k, h))
  }

  /** talc's live blocks are the owned and the cached ones, each still with the layout it was
      allocated with, and pairwise disjoint. */
  ghost predicate Accounted(talc: map<Addr, Layout>, owned: map<Addr, Layout>, place: map<Addr, Place>)
  {
    && talc.Keys == owned.Keys + place.Keys
    && owned.Keys !! place.Keys
    && (forall p | p in owned :: owned[p].WellFormed() && talc[p] == Backing(owned[p]))
    && (forall a | a in place :: talc[a] == ClassLayout(place[a].cls))
    && (forall p | p in talc :: p != NULL && talc[p].align > 0 && p % talc[p].align == 0)
    && (forall p, q | p in talc && q in talc && p != q :: Disjoint(p, talc[p], q, talc[q]))
  }

  function EmptyLists(): (r: Lists)
    ensures forall c: nat, k: nat | c < MAX_CPUS && k < NUM_CLASSES :: (c, k) in r && r[(c, k)] == []
  {
    map c: nat, k: nat | c < MAX_CPUS && k < NUM_CLASSES :: (c, k) := []
  }

  lemma EmptyLinked(mags: seq<Magazine>, mem: Addr -> Addr)
    requires |mags| == MAX_CPUS
    requires forall c | 0 <= c < MAX_CPUS ::
               mags[c] == Magazine(seq(NUM_CLASSES, _ => NULL), seq(NUM_CLASSES, _ => 0))
    ensures Shape(mags, EmptyLists()) && Linked(mags, EmptyLists(), mem) && Placed(EmptyLists(), map[])
  {
    forall c: nat, k: nat | c < MAX_CPUS && k < NUM_CLASSES
      ensures ChainOf(mags, EmptyLists(), mem, c, k)
    {
      assert mags[c].heads[k] == NULL && mags[c].depth[k] == 0;
    }
  }

  function Popped(m: Magazine, k: nat, next: Addr): Magazine
    requires k < |m.heads| == |m.depth| && m.depth[k] > 0
  {
    Magazine(m.heads[k := next], m.depth[k := m.depth[k] - 1])
  }

  function Pushed(m: Magazine, k: nat, p: Addr): Magazine
    requires k < |m.heads| == |m.depth|
  {
    Magazine(m.heads[k := p], m.depth[k := m.depth[k] + 1])
  }

  lemma ChainPop(l: seq<Addr>, head: Addr, depth: nat, mem: Addr -> Addr)
    requires Chain(l, head, depth, mem) && head != NULL
    ensures l != [] && head == l[|l| - 1] && depth > 0
    ensures Chain(l[..|l| - 1], mem(head), depth - 1, mem)
  {
    assert mem(l[|l| - 1]) == NextOf(l, |l| - 1);
    var r := l[..|l| - 1];
    forall h | 0 <= h < |r|
      ensures r[h] != NULL && mem(r[h]) == NextOf(r, h)
    {
      assert r[h] == l[h];
    }
  }

  lemma ChainPush(l: seq<Addr>, head: Addr, depth: nat, mem: Addr -> Addr, p: Addr, mem': Addr -> Addr)
    requires Chain(l, head, depth, mem) && depth < CACHE_DEPTH && p != NULL && p !in l
    requires mem'(p) == head && forall a | a != p :: mem'(a) == mem(a)
    ensures Chain(l + [p], p, depth + 1, mem')
  {
    var r := l + [p];
    forall h | 0 <= h < |r|
      ensures r[h] != NULL && mem'(r[h]) == NextOf(r, h)
    {
      if h < |l| { assert r[h] == l[h] && l[h] in l; }
    }
  }

  lemma ChainElsewhere(l: seq<Addr>, head: Addr, depth: nat, mem: Addr -> Addr, p: Addr, mem': Addr -> Addr)
    requires Chain(l, head, depth, mem) && p !in l && forall a | a != p :: mem'(a) == mem(a)
    ensures Chain(l, head, depth, mem')
  {
    assert forall h | 0 <= h < |l| :: l[h] in l;
  }

  /** Unlinking the top node leaves every list linked. */
  lemma PopLinked(mags: seq<Magazine>, lists: Lists, mem: Addr -> Addr, c: nat, k: nat)
    requires Shape(mags, lists) && Linked(mags, lists, mem) && c < MAX_CPUS && k < NUM_CLASSES
    requires mags[c].heads[k] != NULL
    ensures lists[(c, k)] != [] && mags[c].depth[k] > 0
    ensures var mags' := mags[c := Popped(mags[c], k, mem(mags[c].heads[k]))];
            var l := lists[(c, k)];
            var lists' := lists[(c, k) := l[..|l| - 1]];
            Shape(mags', lists') && Linked(mags', lists', mem)
  {
    var l := lists[(c, k)];
    assert ChainOf(mags, lists, mem, c, k);
    ChainPop(l, mags[c].heads[k], mags[c].depth[k], mem);
    var mags' := mags[c := Popped(mags[c], k, mem(mags[c].heads[k]))];
    var lists' := lists[(c, k) := l[..|l| - 1]];
    forall d: nat, j: nat | d < MAX_CPUS && j < NUM_CLASSES
      ensures ChainOf(mags', lists', mem, d, j)
    {
      assert ChainOf(mags, lists, mem, d, j);
    }
  }

  lemma PopPlaced(lists: Lists, place: map<Addr, Place>, c: nat, k: nat, p: Addr)
    requires Placed(lists, place) && c < MAX_CPUS && k < NUM_CLASSES && (c, k) in lists
    requires lists[(c, k)] != [] && lists[(c, k)][|lists[(c, k)]| - 1] == p
    ensures p in place && place[p].cls == k
    ensures var l := lists[(c, k)]; Placed(lists[(c, k) := l[..|l| - 1]], place - {p})
  {
  }

  /** Linking a block that is in no list leaves every list linked. */
  lemma PushLinked(mags: seq<Magazine>, lists: Lists, mem: Addr -> Addr, c: nat, k: nat, p: Addr, mem': Addr -> Addr)
    requires Shape(mags, lists) && Linked(mags, lists, mem) && c < MAX_CPUS && k < NUM_CLASSES
    requires mags[c].depth[k] < CACHE_DEPTH && p != NULL
    requires forall d: nat, j: nat | d < MAX_CPUS && j < NUM_CLASSES :: p !in lists[(d, j)]
    requires mem'(p) == mags[c].heads[k] && forall a | a != p :: mem'(a) == mem(a)
    ensures var mags' := mags[c := Pushed(mags[c], k, p)];
            var lists' := lists[(c, k) := lists[(c, k)] + [p]];
            Shape(mags', lists') && Linked(mags', lists', mem')
  {
    var mags' := mags[c := Pushed(mags[c], k, p)];
    var lists' := lists[(c, k) := lists[(c, k)] + [p]];
    forall d: nat, j: nat | d < MAX_CPUS && j < NUM_CLASSES
      ensures ChainOf(mags', lists', mem', d, j)
    {
      assert ChainOf(mags, lists, mem, d, j);
      if d == c && j == k {
        ChainPush(lists[(d, j)], mags[d].heads[j], mags[d].depth[j], mem, p, mem');
      } else {
        ChainElsewhere(lists[(d, j)], mags[d].heads[j], mags[d].depth[j], mem, p, mem');
      }
    }
  }

  lemma NotListed(lists: Lists, place: map<Addr, Place>, p: Addr)
    requires Placed(lists, place) && p !in place
    ensures forall c: nat, k: nat | c < MAX_CPUS && k < NUM_CLASSES && (c, k) in lists :: p !in lists[(c, k)]
  {
  }

  lemma PushPlaced(lists: Lists, place: map<Addr, Place>, c: nat, k: nat, p: Addr)
    requires Placed(lists, place) && c < MAX_CPUS && k < NUM_CLASSES && (c, k) in lists && p !in place
    ensures Placed(lists[(c, k) := lists[(c, k)] + [p]], place[p := Place(c, k, |lists[(c, k)]|)])
  {
  }

  /** Writes that stay clear of the cached blocks' first words leave every list linked. */
  lemma WriteLinked(mags: seq<Magazine>, lists: Lists, mem: Addr -> Addr, mem': Addr -> Addr)
    requires Shape(mags, lists) && Linked(mags, lists, mem)
    requires forall c: nat, k: nat, h: nat | c < MAX_CPUS && k < NUM_CLASSES && h < |lists[(c, k)]| ::
               mem'(lists[(c, k)][h]) == mem(lists[(c, k)][h])
    ensures Linked(mags, lists, mem')
  {
    forall c: nat, k: nat | c < MAX_CPUS && k < NUM_CLASSES
      ensures ChainOf(mags, lists, mem', c, k)
    {
      assert ChainOf(mags, lists, mem, c, k);
    }
  }

  /** A cached block handed to a new owner. */
  lemma HandOut(talc: map<Addr, Layout>, owned: map<Addr, Layout>, place: map<Addr, Place>, p: Addr, l: Layout)
    requires Accounted(talc, owned, place) && p in place && l.WellFormed() && Small(l) && place[p].cls == ClassOf(l)
    ensures Accounted(talc, owned[p := l], place - {p})
  {
  }

  /** An owned block put into a free list of its class. */
  lemma TakeIn(talc: map<Addr, Layout>, owned: map<Addr, Layout>, place: map<Addr, Place>, p: Addr, x: Place)
    requires Accounted(talc, owned, place) && p in owned && Small(owned[p]) && x.cls == ClassOf(owned[p])
    ensures Accounted(talc, owned - {p}, place[p := x])
  {
  }

  lemma FromTalc(talc: map<Addr, Layout>, owned: map<Addr, Layout>, place: map<Addr, Place>, p: Addr, l: Layout)
    requires Accounted(talc, owned, place) && l.WellFormed()
    requires p != NULL && Backing(l).align > 0 && p % Backing(l).align == 0 && p !in talc
    requires forall q | q in talc :: Disjoint(p, Backing(l), q, talc[q])
    ensures Accounted(talc[p := Backing(l)], owned[p := l], place)
  {
  }

  lemma ToTalc(talc: map<Addr, Layout>, owned: map<Addr, Layout>, place: map<Addr, Place>, p: Addr)
    requires Accounted(talc, owned, place) && p in owned
    ensures Accounted(talc - {p}, owned - {p}, place)
  {
  }

  /** What an owner may rely on: its block is large enough, aligned, and clear of all other owners'. */
  lemma OwnersApart(talc: map<Addr, Layout>, owned: map<Addr, Layout>, place: map<Addr, Place>, p: Addr, q: Addr)
    requires Accounted(talc, owned, place) && p in owned && q in owned && p != q
    ensures owned[p].size <= talc[p].size && p % owned[p].align == 0
    ensures Disjoint(p, owned[p], q, owned[q])
  {
    BackingServes(owned[p], p);
    BackingServes(owned[q], q);
  }

  /** The address reached from a head after n next pointers. */
  function Follow(mem: Addr -> Addr, head: Addr, n: nat): Addr
  {
    if n == 0 then head else mem(Follow(mem, head, n - 1))
  }

  lemma {:induction false} FollowChain(l: seq<Addr>, head: Addr, depth: nat, mem: Addr -> Addr, n: nat)
    requires Chain(l, head, depth, mem) && n <= depth
    ensures Follow(mem, head, n) == if n == depth then NULL else l[depth - 1 - n]
  {
    if n > 0 { FollowChain(l, head, depth, mem, n - 1); }
  }

  /** Every free list ends: its `depth` (at most 64) pointers visit that many different blocks, none
      of them null, and the next one is null. */
  lemma FreeListsEnd(mags: seq<Magazine>, lists: Lists, mem: Addr -> Addr, place: map<Addr, Place>, c: nat, k: nat)
    requires Shape(mags, lists) && Linked(mags, lists, mem) && Placed(lists, place) && c < MAX_CPUS && k < NUM_CLASSES
    ensures var head, depth := mags[c].heads[k], mags[c].depth[k];
            && depth <= CACHE_DEPTH
            && Follow(mem, head, depth) == NULL
            && (forall i: nat | i < depth :: Follow(mem, head, i) != NULL && Follow(mem, head, i) in place)
            && (forall i: nat, j: nat | i < j < depth :: Follow(mem, head, i) != Follow(mem, head, j))
  {
    var head, depth, l := mags[c].heads[k], mags[c].depth[k], lists[(c, k)];
    assert ChainOf(mags, lists, mem, c, k);
    FollowChain(l, head, depth, mem, depth);
    forall i: nat | i < depth
      ensures Follow(mem, head, i) == l[depth - 1 - i] && l[depth - 1 - i] != NULL
      ensures l[depth - 1 - i] in place && place[l[depth - 1 - i]] == Place(c, k, depth - 1 - i)
    {
      FollowChain(l, head, depth, mem, i);
    }
  }

  /** Everything Valid() says, after the head of a free list has been handed out. */
  lemma PopKeeps(mags: seq<Magazine>, lists: Lists, mem: Addr -> Addr, place: map<Addr, Place>, talc: map<Addr, Layout>,
                 owned: map<Addr, Layout>, c: nat, layout: Layout)
    requires Shape(mags, lists) && Linked(mags, lists, mem) && Placed(lists, place) && Accounted(talc, owned, place)
    requires c < MAX_CPUS && layout.WellFormed() && Small(layout) && mags[c].heads[ClassOf(layout)] != NULL
    ensures var k := ClassOf(layout);
            var p, l := mags[c].heads[k], lists[(c, k)];
            && l != [] && p in place && mags[c].depth[k] > 0
            && Shape(mags[c := Popped(mags[c], k, mem(p))], lists[(c, k) := l[..|l| - 1]])
            && Linked(mags[c := Popped(mags[c], k, mem(p))], lists[(c, k) := l[..|l| - 1]], mem)
            && Placed(lists[(c, k) := l[..|l| - 1]], place - {p})
            && Accounted(talc, owned[p := layout], place - {p})
  {
    var k := ClassOf(layout);
    PopLinked(mags, lists, mem, c, k);
    HeadIsLast(mags, lists, mem, c, k);
    PopPlaced(lists, place, c, k, mags[c].heads[k]);
    HandOut(talc, owned, place, mags[c].heads[k], layout);
  }

  lemma HeadIsLast(mags: seq<Magazine>, lists: Lists, mem: Addr -> Addr, c: nat, k: nat)
    requires Shape(mags, lists) && Linked(mags, lists, mem) && c < MAX_CPUS && k < NUM_CLASSES && mags[c].heads[k] != NULL
    ensures lists[(c, k)] != [] && lists[(c, k)][|lists[(c, k)]| - 1] == mags[c].heads[k]
  {
    assert ChainOf(mags, lists, mem, c, k);
  }

  /** A block new to its owner meets the request and overlaps no other owner's. */
  lemma HandedOver(talc: map<Addr, Layout>, before: map<Addr, Layout>, place: map<Addr, Place>, p: Addr, layout: Layout)
    requires p !in before && Accounted(talc, before[p := layout], place)
    ensures p in talc && layout.size <= talc[p].size && layout.align > 0 && p % layout.align == 0
    ensures forall q | q in before :: Disjoint(p, layout, q, before[q])
  {
    var owned := before[p := layout];
    BackingServes(layout, p);
    forall q | q in before
      ensures Disjoint(p, layout, q, before[q])
    {
      OwnersApart(talc, owned, place, p, q);
    }
  }

  /** Core c's list of class k is all that may have changed: no other core's magazine, no other class. */
  ghost predicate OthersKept(was: seq<Magazine>, mags: seq<Magazine>, c: nat, k: nat)
  {
    && |mags| == |was|
    && (forall d | 0 <= d < |was| && d != c :: mags[d] == was[d])
    && (c < |was| ==>
          && |mags[c].heads| == |was[c].heads| && |mags[c].depth| == |was[c].depth|
          && (forall j | 0 <= j < |was[c].heads| && j != k :: mags[c].heads[j] == was[c].heads[j])
          && (forall j | 0 <= j < |was[c].depth| && j != k :: mags[c].depth[j] == was[c].depth[j]))
  }

  /** One block more, or one less, on core c's list of class k, which now starts at `head`. */
  ghost predicate Longer(was: seq<Magazine>, mags: seq<Magazine>, c: nat, k: nat, head: Addr)
    requires c < |was| && k < |was[c].heads| && k < |was[c].depth|
  {
    OthersKept(was, mags, c, k) && mags[c].heads[k] == head && mags[c].depth[k] == was[c].depth[k] + 1
  }

  ghost predicate Shorter(was: seq<Magazine>, mags: seq<Magazine>, c: nat, k: nat, head: Addr)
    requires c < |was| && k < |was[c].heads| && k < |was[c].depth|
  {
    OthersKept(was, mags, c, k) && mags[c].heads[k] == head && mags[c].depth[k] + 1 == was[c].depth[k]
  }

  /** talc may answer a request for `l` with `choice`. */
  ghost predicate TalcMay(talc: map<Addr, Layout>, l: Layout, choice: Option<Addr>)
  {
    choice.Some? ==>
      && choice.value != NULL && l.align > 0 && choice.value % l.align == 0
      && choice.value !in talc
      && forall q | q in talc :: Disjoint(choice.value, l, q, talc[q])
  }

  class MagazineAlloc {
    var mags: seq<Magazine>
    var mem: Addr -> Addr                // the word stored at each address
    ghost var talc: map<Addr, Layout>    // talc's live blocks, with the layout they were allocated with
    ghost var owned: map<Addr, Layout>   // blocks held by callers, with the layout they asked for
    ghost var lists: Lists               // free list of each (core, class)
    ghost var place: map<Addr, Place>    // cached blocks

    ghost predicate Valid()
      reads this
    {
      && Shape(mags, lists)
      && Linked(mags, lists, mem)
      && Placed(lists, place)
      && Accounted(talc, owned, place)
    }

    constructor ()
      ensures Valid() && owned == map[] && talc == map[]
    {
      mags := seq(MAX_CPUS, _ => Magazine(seq(NUM_CLASSES, _ => NULL), seq(NUM_CLASSES, _ => 0)));
      mem := _ => NULL;
      talc, owned, place, lists := map[], map[], map[], EmptyLists();
      new;
      EmptyLinked(mags, mem);
    }

    method TalcAlloc(l: Layout, choice: Option<Addr>) returns (p: Addr)
      requires TalcMay(talc, l, choice)
      modifies `talc
      ensures choice.None? ==> p == NULL && talc == old(talc)
      ensures choice.Some? ==> p == choice.value && talc == old(talc)[p := l]
    {
      if choice.None? { return NULL; }
      talc := talc[choice.value := l];
      return choice.value;
    }

    /** talc must get a live block back, with exactly the layout it allocated it with. */
    method TalcDealloc(p: Addr, l: Layout)
      requires p in talc && talc[p] == l
      modifies `talc
      ensures talc == old(talc) - {p}
    {
      talc := talc - {p};
    }

    /** A cache hit: unlinks the head of the free list and hands it out. */
    method AllocCached(c: nat, layout: Layout) returns (p: Addr)
      requires Valid() && c < MAX_CPUS && layout.WellFormed() && Small(layout)
      requires mags[c].heads[ClassOf(layout)] != NULL
      modifies `mags, `lists, `place, `owned
      ensures Valid() && p != NULL && p in old(place)
      ensures owned == old(owned)[p := layout] && place == old(place) - {p}
      ensures var k := ClassOf(layout);
              p == old(mags)[c].heads[k] && Shorter(old(mags), mags, c, k, mem(p))
    {
      var k := ClassOf(layout);
      PopKeeps(mags, lists, mem, place, talc, owned, c, layout);
      p := mags[c].heads[k];
      var next := mem(p);
      mags := mags[c := Popped(mags[c], k, next)];
      lists := lists[(c, k) := lists[(c, k)][..|lists[(c, k)]| - 1]];
      place := place - {p};
      owned := owned[p := layout];
    }

    /** A cache miss or a large request: asks talc for the backing layout. */
    method AllocFromTalc(layout: Layout, choice: Option<Addr>) returns (p: Addr)
      requires Valid() && layout.WellFormed() && TalcMay(talc, Backing(layout), choice)
      modifies `talc, `owned
      ensures Valid()
      ensures choice.None? ==> p == NULL && talc == old(talc) && owned == old(owned)
      ensures choice.Some? ==>
                && p == choice.value && p != NULL && p !in old(owned)
                && talc == old(talc)[p := Backing(layout)] && owned == old(owned)[p := layout]
    {
      p := TalcAlloc(Backing(layout), choice);
      if p != NULL {
        FromTalc(old(talc), owned, place, p, layout);
        owned := owned[p := layout];
      }
    }

    /** The magazine of core c holds a block for this request. */
    predicate Hit(c: nat, layout: Layout)
      requires c < |mags| && |mags[c].heads| == NUM_CLASSES
      reads this
    {
      Small(layout) && mags[c].heads[ClassOf(layout)] != NULL
    }

    /** GlobalAlloc::alloc on core c.  With a block cached for the class on this core, it is the head of
        that list, which is unlinked; otherwise the answer is talc's, null or not, and no magazine
        changes.  The block is new to its owner, large enough, aligned, and overlaps no other owner's;
        every other owner, every other class and every other core's magazine is as before. */
    method Alloc(c: nat, layout: Layout, choice: Option<Addr>) returns (p: Addr)
      requires Valid() && c < MAX_CPUS && layout.WellFormed() && TalcMay(talc, Backing(layout), choice)
      modifies this
      ensures Valid() && mem == old(mem)
      ensures p == NULL ==> choice.None? && talc == old(talc) && owned == old(owned) && place == old(place)
      ensures p != NULL ==>
                && p !in old(owned) && owned == old(owned)[p := layout]
                && p % layout.align == 0 && p in talc && layout.size <= talc[p].size
                && forall q | q in old(owned) :: Disjoint(p, layout, q, old(owned)[q])
      ensures old(Hit(c, layout)) ==>
                var k := ClassOf(layout);
                && p == old(mags)[c].heads[k] && p != NULL && talc == old(talc) && place == old(place) - {p}
                && Shorter(old(mags), mags, c, k, mem(p))
      ensures !old(Hit(c, layout)) ==>
                && mags == old(mags) && place == old(place)
                && p == (if choice.Some? then choice.value else NULL)
                && talc == if choice.Some? then old(talc)[p := Backing(layout)] else old(talc)
    {
      var cls := SizeClass(layout);
      if cls.Some? && mags[c].heads[cls.value.0] != NULL {
        p := AllocCached(c, layout);
      } else {
        p := AllocFromTalc(layout, choice);
      }
      if p != NULL { HandedOver(talc, old(owned), place, p, layout); }
    }

    /** Pushes a block on the free list of its class, which has room. */
    method Cache(c: nat, p: Addr, k: nat)
      requires Valid() && c < MAX_CPUS && p in owned && Small(owned[p]) && k == ClassOf(owned[p])
      requires mags[c].depth[k] < CACHE_DEPTH
      modifies `mags, `mem, `lists, `place, `owned
      ensures Valid() && owned == old(owned) - {p}
      ensures p in place && place[p].core == c && place[p].cls == k
      ensures Longer(old(mags), mags, c, k, p)
      ensures mem(p) == old(mags)[c].heads[k] && forall a | a != p :: mem(a) == old(mem)(a)
    {
      ghost var x := Place(c, k, |lists[(c, k)]|);
      TakeIn(talc, owned, place, p, x);
      PushPlaced(lists, place, c, k, p);
      var head, was := mags[c].heads[k], mem;
      mem := a => if a == p then head else was(a);
      NotListed(lists, place, p);
      PushLinked(mags, lists, was, c, k, p, mem);
      mags := mags[c := Pushed(mags[c], k, p)];
      lists := lists[(c, k) := lists[(c, k)] + [p]];
      place := place[p := x];
      owned := owned - {p};
    }

    /** This core's list for the layout has room. */
    predicate Room(c: nat, layout: Layout)
      requires c < |mags| && |mags[c].depth| == NUM_CLASSES
      reads this
    {
      Small(layout) && mags[c].depth[ClassOf(layout)] < CACHE_DEPTH
    }

    /** GlobalAlloc::dealloc on core c, for a block freed with the layout it was requested with: it
        becomes the head of this core's free list, or goes back to talc when that list is full or the
        block is large.  No other class and no other core's magazine changes. */
    method Dealloc(c: nat, p: Addr, layout: Layout)
      requires Valid() && c < MAX_CPUS && p in owned && owned[p] == layout
      modifies this
      ensures Valid() && owned == old(owned) - {p}
      ensures old(Room(c, layout)) ==>
                var k := ClassOf(layout);
                && talc == old(talc) && p in place && place[p].core == c && place[p].cls == k
                && Longer(old(mags), mags, c, k, p)
                && mem(p) == old(mags)[c].heads[k] && forall a | a != p :: mem(a) == old(mem)(a)
      ensures !old(Room(c, layout)) ==>
                talc == old(talc) - {p} && place == old(place) && mags == old(mags) && mem == old(mem)
    {
      var cls := SizeClass(layout);
      if cls.Some? && mags[c].depth[cls.value.0] < CACHE_DEPTH {
        Cache(c, p, cls.value.0);
        return;
      }
      ToTalc(talc, owned, place, p);
      TalcDealloc(p, if cls.Some? then cls.value.1 else layout);
      owned := owned - {p};
    }

    /** The owner of a block writes into it: any word may change except those clear of the block. */
    method OwnerWrites(p: Addr, memory: Addr -> Addr)
      requires Valid() && p in owned
      requires forall a | a + WORD <= p || p + talc[p].size <= a :: memory(a) == mem(a)
      modifies `mem
      ensures Valid()
    {
      forall c: nat, k: nat, h: nat | c < MAX_CPUS && k < NUM_CLASSES && h < |lists[(c, k)]|
        ensures memory(lists[(c, k)][h]) == mem(lists[(c, k)][h])
      {
        var a := lists[(c, k)][h];
        assert a in place && a != p;
        assert Disjoint(p, talc[p], a, talc[a]) && talc[a].size >= 16;
      }
      WriteLinked(mags, lists, mem, memory);
      mem := memory;
    }
  }

  /** A core that frees a block and then asks for one of the same class gets that block again, and its
      magazine is as it was. */
  method FreeAndReuse(a: MagazineAlloc, c: nat, p: Addr, layout: Layout, again: Layout, choice: Option<Addr>) returns (q: Addr)
    requires a.Valid() && c < MAX_CPUS && p in a.owned && a.owned[p] == layout && a.Room(c, layout)
    requires again.WellFormed() && Small(again) && ClassOf(again) == ClassOf(layout) && TalcMay(a.talc, Backing(again), choice)
    modifies a
    ensures a.Valid() && q == p && a.mags == old(a.mags) && a.talc == old(a.talc) && a.owned == (old(a.owned) - {p})[p := again]
  {
    ghost var before, k := a.mags, ClassOf(layout);
    OwnedNotNull(a.talc, a.owned, a.place, p);
    a.Dealloc(c, p, layout);
    ghost var mid := a.mags;
    assert a.Hit(c, again);
    q := a.Alloc(c, again, choice);
    PushThenPop(before, mid, a.mags, c, k, p);
  }

  lemma OwnedNotNull(talc: map<Addr, Layout>, owned: map<Addr, Layout>, place: map<Addr, Place>, p: Addr)
    requires Accounted(talc, owned, place) && p in owned
    ensures p != NULL
  {
    assert p in talc;
  }

  lemma PushThenPop(was: seq<Magazine>, mid: seq<Magazine>, mags: seq<Magazine>, c: nat, k: nat, p: Addr)
    requires c < |was| && k < |was[c].heads| && k < |was[c].depth|
    requires Longer(was, mid, c, k, p) && Shorter(mid, mags, c, k, was[c].heads[k])
    ensures mags == was
  {
    assert mags[c].heads == was[c].heads && mags[c].depth == was[c].depth;
  }
}
