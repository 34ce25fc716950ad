/** The bitmap physical frame allocator: 64 frames per word, 1 = used, phantom used bits past `total`. */
module Frames {
  import opened Common

  /** A u64 as its bits, least significant first: (w >> b) & 1 is w[b], w |= 1 << b is w[b := true],
      w &= !(1 << b) is w[b := false]. */
  type Word = w: seq<bool> | |w| == 64 witness seq(64, _ => false)

  const ALL_USED: Word := seq(64, _ => true) // u64::MAX

  /** u64::trailing_ones. */
  method TrailingOnes(w: Word) returns (k: nat)
    ensures k <= 64
    ensures forall j | 0 <= j < k :: w[j]
    ensures k < 64 ==> !w[k]
    ensures w != ALL_USED ==> k < 64
  {
    k := 0;
    while k < 64 && w[k]
      invariant k <= 64
      invariant forall j | 0 <= j < k :: w[j]
    {
      k := k + 1;
    }
  }

  predicate IsUsed(bitmap: seq<Word>, f: nat)
    requires f < 64 * |bitmap|
  {
    bitmap[f / 64][f % 64]
  }

  function With(bitmap: seq<Word>, f: nat, used: bool): seq<Word>
    requires f < 64 * |bitmap|
  {
    bitmap[f / 64 := bitmap[f / 64][f % 64 := used]]
  }

  /** Setting or clearing the bit of one frame changes that frame only. */
  lemma OneFrameChanges(bitmap: seq<Word>, f: nat, g: nat, used: bool)
    requires f < 64 * |bitmap| && g < 64 * |bitmap|
    ensures IsUsed(With(bitmap, f, used), g) == if f == g then used else IsUsed(bitmap, g)
  {
    assert f == g <==> f / 64 == g / 64 && f % 64 == g % 64;
  }

  /** The n frames from s on all belong to `free`. */
  ghost predicate RunOf(free: set<nat>, s: nat, n: nat)
  {
    forall g: nat | s <= g < s + n :: g in free
  }

  /** The scan stands at frame f: the `run` < n frames before it are free, the one before those is not
      (or there is none), and no run of n frames ends before f. */
  ghost predicate Scanned(free: set<nat>, f: nat, run: nat, n: nat)
  {
    && run <= f && run < n
    && RunOf(free, f - run, run)
    && (f == run || f - run - 1 !in free)
    && forall s: nat | s + n <= f :: !RunOf(free, s, n)
  }

  lemma ScanPasses(free: set<nat>, f: nat, run: nat, n: nat)
    requires Scanned(free, f, run, n)
    ensures f in free && run + 1 < n ==> Scanned(free, f + 1, run + 1, n)
    ensures f !in free ==> Scanned(free, f + 1, 0, n)
  {
    var next := if f in free then run + 1 else 0;
    if next < n {
      forall s: nat | s + n == f + 1
        ensures !RunOf(free, s, n)
      {
        assert s <= f - next < s + n;
      }
    }
  }

  /** The run that completes at f is the lowest: an earlier one would end before f, or contain the used
      frame before this run. */
  lemma ScanFinds(free: set<nat>, f: nat, run: nat, n: nat)
    requires Scanned(free, f, run, n) && f in free && run + 1 == n
    ensures RunOf(free, f - run, n) && forall s: nat | s < f - run :: !RunOf(free, s, n)
  {
    forall s: nat | s < f - run < s + n
      ensures !RunOf(free, s, n)
    {
      assert s <= f - run - 1 < s + n;
    }
  }

  lemma NoRunPastEnd(free: set<nat>, total: nat, n: nat)
    requires n > 0 && forall g | g in free :: g < total
    requires forall s: nat | s + n <= total :: !RunOf(free, s, n)
    ensures forall s: nat :: !RunOf(free, s, n)
  {
    forall s: nat | s + n > total
      ensures !RunOf(free, s, n)
    {
      var last := s + n - 1;
      assert last !in free;
    }
  }

  class Frames {
    const bitmap: array<Word>
    const total: nat
    var used: nat

    ghost function Used(): set<nat>
      requires total <= 64 * bitmap.Length
      reads this, bitmap
    {
      set f: nat | f < total && IsUsed(bitmap[..], f)
    }

    /** The frames that may be handed out. */
    ghost function Free(): set<nat>
      requires total <= 64 * bitmap.Length
      reads this, bitmap
    {
      set f: nat | f < total && !IsUsed(bitmap[..], f)
    }

    /** One bit per frame, tail bits used, and `used` counts the used frames below `total`. */
    ghost predicate Valid()
      reads this, bitmap
    {
      && bitmap.Length == (total + 63) / 64
      && (forall f: nat | total <= f < 64 * bitmap.Length :: IsUsed(bitmap[..], f))
      && used == |Used()|
    }

    constructor (total: nat)
      ensures Valid() && this.total == total && fresh(bitmap)
      ensures Free() == {} && used == total
    {
      var chunks := (total + 63) / 64;
      this.total := total;
      bitmap := new Word[chunks](_ => ALL_USED);
      used := total;
      new;
      assert forall f: nat | f < 64 * bitmap.Length :: IsUsed(bitmap[..], f);
      assert Used() == Below(total);
    }

    method MarkUsed(frame: nat)
      requires Valid()
      modifies `used, bitmap
      ensures Valid() && Free() == old(Free()) - {frame}
    {
      if frame >= total { return; }
      var i, b := frame / 64, frame % 64;
      if !bitmap[i][b] {
        ghost var was := bitmap[..];
        bitmap[i] := bitmap[i][b := true];
        used := used + 1;
        assert bitmap[..] == With(was, frame, true);
        forall g: nat | g < 64 * |was|
          ensures IsUsed(bitmap[..], g) == (frame == g || IsUsed(was, g))
        {
          OneFrameChanges(was, frame, g, true);
        }
        assert Used() == old(Used()) + {frame};
      }
    }

    method MarkFree(frame: nat)
      requires Valid()
      modifies `used, bitmap
      ensures Valid() && Free() == if frame < total then old(Free()) + {frame} else old(Free())
    {
      if frame >= total { return; }
      var i, b := frame / 64, frame % 64;
      if bitmap[i][b] {
        ghost var was := bitmap[..];
        assert frame in Used();
        bitmap[i] := bitmap[i][b := false];
        used := used - 1;
        assert bitmap[..] == With(was, frame, false);
        forall g: nat | g < 64 * |was|
          ensures IsUsed(bitmap[..], g) == (frame != g && IsUsed(was, g))
        {
          OneFrameChanges(was, frame, g, false);
        }
        assert Used() == old(Used()) - {frame};
      }
    }

    /** Hands out the lowest free frame; None exactly when no frame is free. */
    method AllocateFrame() returns (r: Option<nat>)
      requires Valid()
      modifies `used, bitmap
      ensures Valid()
      ensures r.None? ==> old(Free()) == {} && Free() == {}
      ensures r.Some? ==>
                && r.value in old(Free())
                && (forall f | f in old(Free()) :: r.value <= f)
                && Free() == old(Free()) - {r.value}
    {
      var i := 0;
      while i < bitmap.Length
        invariant i <= bitmap.Length
        invariant forall f: nat | f < 64 * i :: IsUsed(bitmap[..], f)
      {
        if bitmap[i] != ALL_USED {
          var bit := TrailingOnes(bitmap[i]);
          var frame := i * 64 + bit;
          assert forall f: nat | 64 * i <= f < frame :: f / 64 == i && f % 64 == f - 64 * i;
          assert !IsUsed(bitmap[..], frame);
          if frame >= total { return None; }
          ghost var was := bitmap[..];
          bitmap[i] := bitmap[i][bit := true];
          used := used + 1;
          assert bitmap[..] == With(was, frame, true);
          forall g: nat | g < 64 * |was|
            ensures IsUsed(bitmap[..], g) == (frame == g || IsUsed(was, g))
          {
            OneFrameChanges(was, frame, g, true);
          }
          assert Used() == old(Used()) + {frame};
          return Some(frame);
        }
        i := i + 1;
      }
      return None;
    }

    /** Sets the bits of n free frames from `start` on. */
    method MarkRun(start: nat, n: nat)
      requires Valid() && start + n <= total && RunOf(Free(), start, n)
      modifies `used, bitmap
      ensures Valid()
      ensures forall f: nat :: f in Free() <==> f in old(Free()) && !(start <= f < start + n)
    {
      var g := start;
      while g < start + n
        invariant start <= g <= start + n
        invariant forall f: nat | total <= f < 64 * bitmap.Length :: IsUsed(bitmap[..], f)
        invariant forall f: nat :: f in Free() <==> f in old(Free()) && !(start <= f < g)
        invariant |Used()| == used + (g - start)
      {
        ghost var here, usedHere := bitmap[..], Used();
        assert g in Free();
        bitmap[g / 64] := bitmap[g / 64][g % 64 := true];
        assert bitmap[..] == With(here, g, true);
        forall f: nat | f < 64 * bitmap.Length
          ensures IsUsed(bitmap[..], f) == (f == g || IsUsed(here, f))
        {
          OneFrameChanges(here, g, f, true);
        }
        assert Used() == usedHere + {g};
        g := g + 1;
      }
      used := used + n;
    }

    /** Hands out the lowest run of n free frames; None exactly when n is 0 or no such run exists. */
    method AllocateContiguous(n: nat) returns (r: Option<nat>)
      requires Valid()
      modifies `used, bitmap
      ensures Valid()
      ensures r.None? ==> Free() == old(Free()) && (n == 0 || forall s: nat :: !RunOf(Free(), s, n))
      ensures r.Some? ==>
                && n > 0 && RunOf(old(Free()), r.value, n)
                && (forall s: nat | s < r.value :: !RunOf(old(Free()), s, n))
                && forall f: nat :: f in Free() <==> f in old(Free()) && !(r.value <= f < r.value + n)
    {
      if n == 0 { return None; }
      ghost var free0 := Free();
      var start, run, f := 0, 0, 0;
      while f < total
        invariant Valid() && Free() == free0 && f <= total
        invariant Scanned(free0, f, run, n) && (run > 0 ==> start == f - run)
      {
        var free := !bitmap[f / 64][f % 64];
        assert free <==> f in free0;
        ScanPasses(free0, f, run, n);
        if free {
          if run == 0 { start := f; }
          run := run + 1;
          if run == n {
            ScanFinds(free0, f, run - 1, n);
            MarkRun(start, n);
            return Some(start);
          }
        } else {
          run := 0;
        }
        f := f + 1;
      }
      NoRunPastEnd(free0, total, n);
      return None;
    }

    /** Returns n frames from `first` on; frames past `total` are ignored. */
    method FreeContiguous(first: nat, n: nat)
      requires Valid()
      modifies `used, bitmap
      ensures Valid()
      ensures forall f: nat :: f in Free() <==> f in old(Free()) || (first <= f < first + n && f < total)
    {
      var g := first;
      while g < first + n
        invariant first <= g <= first + n
        invariant Valid()
        invariant forall f: nat :: f in Free() <==> f in old(Free()) || (first <= f < g && f < total)
      {
        MarkFree(g);
        g := g + 1;
      }
    }

    method Counts() returns (all: nat, inUse: nat, free: nat)
      requires Valid()
      ensures all == total && inUse == |Used()| && free == |Free()|
    {
      assert Used() + Free() == Below(total) && Used() !! Free();
      assert |Used() + Free()| == |Used()| + |Free()|;
      return total, used, total - used;
    }
  }

  // ----- boot: from the memory map to the bitmap --------------------------------------------

  datatype Region = Region(base: nat, length: nat, usable: bool)
  datatype Heap = Heap(base: nat, size: nat)
  datatype InitError = NoMemoryMap | NoUsableRegion
  datatype InitResult = Ready(frames: Frames) | Failed(error: InitError)

  predicate WhollyInside(f: nat, r: Region)
  {
    r.base <= f * PAGE_SIZE && (f + 1) * PAGE_SIZE <= r.base + r.length
  }

  /** The frame lies wholly inside one USABLE entry. */
  predicate Usable(f: nat, regions: seq<Region>)
  {
    exists i :: 0 <= i < |regions| && regions[i].usable && WhollyInside(f, regions[i])
  }

  predicate TouchedByHeap(f: nat, heap: Option<Heap>)
  {
    heap.Some? && f * PAGE_SIZE < heap.value.base + heap.value.size && heap.value.base < (f + 1) * PAGE_SIZE
  }

  function End(r: Region): nat
  {
    r.base + r.length
  }

  method HighestUsable(regions: seq<Region>) returns (maxPhys: nat, hasUsable: bool)
    ensures hasUsable <==> exists i :: 0 <= i < |regions| && regions[i].usable
    ensures forall i | 0 <= i < |regions| && regions[i].usable :: End(regions[i]) <= maxPhys
    ensures maxPhys == 0 || exists i :: 0 <= i < |regions| && regions[i].usable && End(regions[i]) == maxPhys
  {
    maxPhys, hasUsable := 0, false;
    var i := 0;
    while i < |regions|
      invariant i <= |regions|
      invariant hasUsable <==> exists j :: 0 <= j < i && regions[j].usable
      invariant forall j | 0 <= j < i && regions[j].usable :: End(regions[j]) <= maxPhys
      invariant maxPhys == 0 || exists j :: 0 <= j < i && regions[j].usable && End(regions[j]) == maxPhys
    {
      if regions[i].usable {
        hasUsable := true;
        var end := regions[i].base + regions[i].length;
        if end > maxPhys { maxPhys := end; }
      }
      i := i + 1;
    }
  }

  /** Frees the frames wholly inside one region: the bounds are rounded inward. */
  method FreeRegion(frames: Frames, r: Region)
    requires frames.Valid()
    modifies frames`used, frames.bitmap
    ensures frames.Valid()
    ensures forall f: nat :: f in frames.Free() <==> f in old(frames.Free()) || (f < frames.total && WhollyInside(f, r))
  {
    var first := (r.base + PAGE_SIZE - 1) / PAGE_SIZE;
    var last := (r.base + r.length) / PAGE_SIZE;
    var f := first;
    while f < last
      invariant first <= f && (f <= last || f == first)
      invariant frames.Valid()
      invariant forall g: nat :: g in frames.Free() <==> g in old(frames.Free()) || (g < frames.total && first <= g < f)
    {
      frames.MarkFree(f);
      f := f + 1;
    }
    assert forall g: nat :: WhollyInside(g, r) <==> first <= g < last;
  }

  /** Takes back the frames the heap touches, even partially: the bounds are rounded outward. */
  method ReserveHeap(frames: Frames, h: Heap)
    requires frames.Valid()
    modifies frames`used, frames.bitmap
    ensures frames.Valid()
    ensures forall f: nat :: f in frames.Free() <==> f in old(frames.Free()) && !TouchedByHeap(f, Some(h))
  {
    var first := h.base / PAGE_SIZE;
    var last := (h.base + h.size + PAGE_SIZE - 1) / PAGE_SIZE;
    var f := first;
    while f < last
      invariant first <= f && (f <= last || f == first)
      invariant frames.Valid()
      invariant forall g: nat :: g in frames.Free() <==> g in old(frames.Free()) && !(first <= g < f)
    {
      frames.MarkUsed(f);
      f := f + 1;
    }
    assert forall g: nat :: TouchedByHeap(g, Some(h)) <==> first <= g < last;
  }

  /** After boot the free frames are exactly those wholly inside a USABLE entry and untouched by the
      heap; without a memory map or a USABLE entry there is no allocator. */
  method Init(memmap: Option<seq<Region>>, heap: Option<Heap>) returns (r: InitResult)
    ensures memmap.None? ==> r == Failed(NoMemoryMap)
    ensures memmap.Some? && (forall i | 0 <= i < |memmap.value| :: !memmap.value[i].usable) ==> r == Failed(NoUsableRegion)
    ensures memmap.Some? && (exists i :: 0 <= i < |memmap.value| && memmap.value[i].usable) ==>
              && r.Ready? && fresh(r.frames) && r.frames.Valid()
              && forall f: nat :: f in r.frames.Free() <==> Usable(f, memmap.value) && !TouchedByHeap(f, heap)
  {
    if memmap.None? { return Failed(NoMemoryMap); }
    var regions := memmap.value;
    var maxPhys, hasUsable := HighestUsable(regions);
    if !hasUsable { return Failed(NoUsableRegion); }
    var frames := new Frames((maxPhys + PAGE_SIZE - 1) / PAGE_SIZE);
    var i := 0;
    while i < |regions|
      invariant i <= |regions|
      invariant frames.Valid() && fresh(frames) && fresh(frames.bitmap)
      invariant forall f: nat :: f in frames.Free() <==> Usable(f, regions[..i])
    {
      assert regions[..i + 1] == regions[..i] + [regions[i]];
      if regions[i].usable {
        FreeRegion(frames, regions[i]);
        assert forall f: nat | WhollyInside(f, regions[i]) :: f < frames.total;
      }
      UsableGrows(regions, i);
      i := i + 1;
    }
    assert regions[..i] == regions;
    if heap.Some? {
      ReserveHeap(frames, heap.value);
    }
    return Ready(frames);
  }

  lemma UsableGrows(regions: seq<Region>, i: nat)
    requires i < |regions|
    ensures forall f: nat :: Usable(f, regions[..i + 1]) <==>
              Usable(f, regions[..i]) || (regions[i].usable && WhollyInside(f, regions[i]))
  {
    forall f: nat
      ensures Usable(f, regions[..i + 1]) <==>
                Usable(f, regions[..i]) || (regions[i].usable && WhollyInside(f, regions[i]))
    {
      if Usable(f, regions[..i]) {
        var j :| 0 <= j < i && regions[..i][j].usable && WhollyInside(f, regions[..i][j]);
        assert regions[..i + 1][j] == regions[..i][j];
      }
      if Usable(f, regions[..i + 1]) {
        var j :| 0 <= j < i + 1 && regions[..i + 1][j].usable && WhollyInside(f, regions[..i + 1][j]);
        assert j < i ==> regions[..i][j] == regions[..i + 1][j];
      }
      if regions[i].usable && WhollyInside(f, regions[i]) {
        assert regions[..i + 1][i] == regions[i];
      }
    }
  }
}
