/** Kahn ordering of unit dependencies, with detection of the nodes that cannot be ordered.

    Names are distinct (the unit registry refuses duplicates).  A dependency list may repeat a name:
    the code counts every occurrence but releases each name once, so such a node is never emitted. */
module Topo {
  import opened Common

  datatype Node = Node(name: string, deps: seq<string>)

  predicate DistinctNames(nodes: seq<Node>)
  {
    forall i, j | 0 <= i < |nodes| && 0 <= j < |nodes| && nodes[i].name == nodes[j].name :: i == j
  }

  /** Node j depends on node i of the set. */
  predicate Dep(nodes: seq<Node>, j: nat, i: nat)
  {
    j < |nodes| && i < |nodes| && nodes[i].name in nodes[j].deps
  }

  predicate InSet(nodes: seq<Node>, name: string)
  {
    exists i :: 0 <= i < |nodes| && nodes[i].name == name
  }

  /** A dependency list names some node of the set twice. */
  predicate Repeats(nodes: seq<Node>, deps: seq<string>)
  {
    exists a, b :: 0 <= a < b < |deps| && deps[a] == deps[b] && InSet(nodes, deps[a])
  }

  // ----- specification: which orders the algorithm may emit ----------------------------------

  /** All in-set dependencies of j are done, and none is listed twice. */
  ghost predicate Released(nodes: seq<Node>, done: seq<nat>, j: nat)
    requires j < |nodes|
  {
    !Repeats(nodes, nodes[j].deps) && forall i: nat | Dep(nodes, j, i) :: i in done
  }

  /** Each emitted node is the first one, by index, that is released by those before it. */
  ghost predicate KahnPrefix(nodes: seq<Node>, emitted: seq<nat>)
  {
    && (forall k | 0 <= k < |emitted| :: emitted[k] < |nodes|)
    && (forall k | 0 <= k < |emitted| ::
          emitted[k] !in emitted[..k]
          && Released(nodes, emitted[..k], emitted[k])
          && forall i: nat | i < emitted[k] :: i in emitted[..k] || !Released(nodes, emitted[..k], i))
  }

  /** ... and nothing more can be emitted. */
  ghost predicate KahnOrder(nodes: seq<Node>, emitted: seq<nat>)
  {
    && KahnPrefix(nodes, emitted)
    && forall i: nat | i < |nodes| && i !in emitted :: !Released(nodes, emitted, i)
  }

  function NamesOf(nodes: seq<Node>, emitted: seq<nat>): (r: seq<string>)
    requires forall k | 0 <= k < |emitted| :: emitted[k] < |nodes|
    ensures |r| == |emitted|
  {
    seq(|emitted|, k requires 0 <= k < |emitted| => nodes[emitted[k]].name)
  }

  // ----- in-degrees ---------------------------------------------------------------------------

  /** Number of occurrences of in-set names. */
  function CountIn(nodes: seq<Node>, deps: seq<string>): nat
  {
    if deps == [] then 0
    else CountIn(nodes, deps[..|deps| - 1]) + if InSet(nodes, deps[|deps| - 1]) then 1 else 0
  }

  ghost function Targets(nodes: seq<Node>, deps: seq<string>): set<nat>
  {
    set i: nat | i < |nodes| && nodes[i].name in deps
  }

  /** An in-degree counts the in-set dependencies, plus one for each repetition. */
  lemma {:induction false} CountVersusTargets(nodes: seq<Node>, deps: seq<string>)
    requires DistinctNames(nodes)
    ensures CountIn(nodes, deps) >= |Targets(nodes, deps)|
    ensures CountIn(nodes, deps) == |Targets(nodes, deps)| <==> !Repeats(nodes, deps)
  {
    if deps == [] {
      assert Targets(nodes, deps) == {};
    } else {
      var init, last := deps[..|deps| - 1], deps[|deps| - 1];
      CountVersusTargets(nodes, init);
      assert deps == init + [last];
      RepeatsGrows(nodes, init, last);
      TargetsGrow(nodes, init, last);
    }
  }

  lemma TargetsGrow(nodes: seq<Node>, init: seq<string>, last: string)
    requires DistinctNames(nodes)
    ensures |Targets(nodes, init + [last])| ==
              |Targets(nodes, init)| + if InSet(nodes, last) && last !in init then 1 else 0
  {
    if InSet(nodes, last) && last !in init {
      var i: nat :| i < |nodes| && nodes[i].name == last;
      NewTarget(nodes, init, last, i);
    } else {
      SameTargets(nodes, init, last);
    }
  }

  lemma InExtended(s: seq<string>, last: string, x: string)
    ensures x in s + [last] <==> x in s || x == last
  {
  }

  lemma NewTarget(nodes: seq<Node>, init: seq<string>, last: string, i: nat)
    requires i < |nodes| && nodes[i].name == last && last !in init
    requires forall k | 0 <= k < |nodes| && nodes[k].name == last :: k == i
    ensures Targets(nodes, init + [last]) == Targets(nodes, init) + {i} && i !in Targets(nodes, init)
  {
    forall k: nat | k < |nodes|
      ensures nodes[k].name in init + [last] <==> nodes[k].name in init || k == i
    {
      InExtended(init, last, nodes[k].name);
    }
  }

  lemma SameTargets(nodes: seq<Node>, init: seq<string>, last: string)
    requires !InSet(nodes, last) || last in init
    ensures Targets(nodes, init + [last]) == Targets(nodes, init)
  {
    forall k: nat | k < |nodes|
      ensures nodes[k].name in init + [last] <==> nodes[k].name in init
    {
      InExtended(init, last, nodes[k].name);
    }
  }

  lemma RepeatsGrows(nodes: seq<Node>, init: seq<string>, last: string)
    ensures Repeats(nodes, init + [last]) <==> Repeats(nodes, init) || (InSet(nodes, last) && last in init)
  {
    var deps := init + [last];
    if Repeats(nodes, init) {
      var a, b :| 0 <= a < b < |init| && init[a] == init[b] && InSet(nodes, init[a]);
      assert deps[a] == deps[b];
    }
    if InSet(nodes, last) && last in init {
      var a :| 0 <= a < |init| && init[a] == last;
      assert deps[a] == deps[|init|];
    }
    if Repeats(nodes, deps) {
      var a, b :| 0 <= a < b < |deps| && deps[a] == deps[b] && InSet(nodes, deps[a]);
      assert b < |init| ==> init[a] == init[b];
    }
  }

  ghost function DoneSet(done: seq<bool>): set<nat>
  {
    set i: nat | i < |done| && done[i]
  }

  /** What the code keeps in indeg[j] for a node not yet emitted. */
  ghost function Remaining(nodes: seq<Node>, j: nat, done: set<nat>): int
    requires j < |nodes|
  {
    CountIn(nodes, nodes[j].deps) - |Targets(nodes, nodes[j].deps) * done|
  }

  lemma RemainingZero(nodes: seq<Node>, j: nat, done: set<nat>, emitted: seq<nat>)
    requires DistinctNames(nodes) && j < |nodes| && forall i: nat :: i in done <==> i in emitted
    ensures Remaining(nodes, j, done) >= 0
    ensures Remaining(nodes, j, done) == 0 <==> Released(nodes, emitted, j)
  {
    var deps := nodes[j].deps;
    var t := Targets(nodes, deps);
    CountVersusTargets(nodes, deps);
    SubsetCardinality(t * done, t);
    assert forall i: nat :: Dep(nodes, j, i) <==> i in t;
  }

  lemma SubsetCardinality(a: set<nat>, b: set<nat>)
    requires a <= b
    ensures |a| <= |b|
    ensures |a| == |b| <==> a == b
  {
    assert |b - a| == |b| - |a|;
  }

  lemma RemainingStep(nodes: seq<Node>, j: nat, done: set<nat>, i: nat)
    requires j < |nodes| && i < |nodes| && i !in done
    ensures Remaining(nodes, j, done + {i}) == Remaining(nodes, j, done) - if Dep(nodes, j, i) then 1 else 0
  {
    var t := Targets(nodes, nodes[j].deps);
    if Dep(nodes, j, i) {
      assert t * (done + {i}) == t * done + {i};
    } else {
      assert t * (done + {i}) == t * done;
    }
  }

  // ----- the algorithm ------------------------------------------------------------------------

  method InDegrees(nodes: seq<Node>) returns (indeg: seq<nat>)
    ensures |indeg| == |nodes|
    ensures forall j | 0 <= j < |nodes| :: indeg[j] == CountIn(nodes, nodes[j].deps)
  {
    indeg := [];
    while |indeg| < |nodes|
      invariant |indeg| <= |nodes|
      invariant forall j | 0 <= j < |indeg| :: indeg[j] == CountIn(nodes, nodes[j].deps)
    {
      var deps := nodes[|indeg|].deps;
      var k, count := 0, 0;
      while k < |deps|
        invariant k <= |deps| && count == CountIn(nodes, deps[..k])
      {
        assert deps[..k + 1][..k] == deps[..k];
        if InSet(nodes, deps[k]) { count := count + 1; }
        k := k + 1;
      }
      assert deps[..k] == deps;
      indeg := indeg + [count];
    }
  }

  /** The smallest index not yet emitted whose in-degree is 0, or |done|. */
  method FindReady(done: seq<bool>, indeg: seq<nat>) returns (i: nat)
    requires |done| == |indeg|
    ensures i <= |done|
    ensures i < |done| ==> !done[i] && indeg[i] == 0
    ensures forall k | 0 <= k < i :: done[k] || indeg[k] != 0
  {
    i := 0;
    while i < |done| && (done[i] || indeg[i] != 0)
      invariant i <= |done|
      invariant forall k | 0 <= k < i :: done[k] || indeg[k] != 0
    {
      i := i + 1;
    }
  }

  /** Releases node i: one in-degree step for every waiting node that depends on it. */
  method Release(nodes: seq<Node>, i: nat, done: seq<bool>, indeg: seq<nat>) returns (r: seq<nat>)
    requires i < |nodes| == |done| == |indeg|
    ensures |r| == |indeg|
    ensures forall j | 0 <= j < |r| ::
              r[j] == if !done[j] && Dep(nodes, j, i) && indeg[j] > 0 then indeg[j] - 1 else indeg[j]
  {
    r := indeg;
    var j := 0;
    while j < |nodes|
      invariant j <= |nodes| && |r| == |indeg|
      invariant forall k | 0 <= k < j ::
                  r[k] == if !done[k] && Dep(nodes, k, i) && indeg[k] > 0 then indeg[k] - 1 else indeg[k]
      invariant forall k | j <= k < |r| :: r[k] == indeg[k]
    {
      if !done[j] && nodes[i].name in nodes[j].deps {
        r := r[j := if r[j] > 0 then r[j] - 1 else 0];
      }
      j := j + 1;
    }
  }

  /** Names of the nodes not emitted, in index order. */
  method Leftover(nodes: seq<Node>, done: seq<bool>) returns (cyclic: seq<string>, ghost left: seq<nat>)
    requires |done| == |nodes|
    ensures forall k | 0 <= k < |left| :: left[k] < |nodes|
    ensures cyclic == NamesOf(nodes, left)
    ensures forall i: nat :: i in left <==> i < |nodes| && !done[i]
    ensures forall a, b | 0 <= a < b < |left| :: left[a] < left[b]
  {
    cyclic, left := [], [];
    var i := 0;
    while i < |nodes|
      invariant i <= |nodes|
      invariant forall k | 0 <= k < |left| :: left[k] < i
      invariant cyclic == NamesOf(nodes, left)
      invariant forall k: nat :: k in left <==> k < i && !done[k]
      invariant forall a, b | 0 <= a < b < |left| :: left[a] < left[b]
    {
      if !done[i] {
        cyclic, left := cyclic + [nodes[i].name], left + [i];
      }
      i := i + 1;
    }
  }

  /** The loop invariant: what is done is what was emitted, in Kahn order, and the in-degrees of the
      waiting nodes are up to date. */
  ghost predicate Loop(nodes: seq<Node>, done: seq<bool>, indeg: seq<nat>, order: seq<string>, emitted: seq<nat>)
  {
    && |done| == |indeg| == |nodes|
    && (forall i: nat :: i in emitted <==> i < |nodes| && done[i])
    && KahnPrefix(nodes, emitted) && order == NamesOf(nodes, emitted)
    && (forall j: nat | j < |nodes| && !done[j] :: indeg[j] == Remaining(nodes, j, DoneSet(done)))
  }

  lemma ReadyIsReleased(nodes: seq<Node>, done: seq<bool>, indeg: seq<nat>, order: seq<string>, emitted: seq<nat>)
    requires DistinctNames(nodes) && Loop(nodes, done, indeg, order, emitted)
    ensures forall j: nat | j < |nodes| && !done[j] :: indeg[j] == 0 <==> Released(nodes, emitted, j)
  {
    forall j: nat | j < |nodes| && !done[j]
      ensures indeg[j] == 0 <==> Released(nodes, emitted, j)
    {
      RemainingZero(nodes, j, DoneSet(done), emitted);
    }
  }

  lemma EmitKeepsDegrees(nodes: seq<Node>, done: seq<bool>, indeg: seq<nat>, emitted: seq<nat>, i: nat, r: seq<nat>, j: nat)
    requires DistinctNames(nodes) && i < |nodes| == |done| == |indeg| == |r| && !done[i]
    requires j < |nodes| && !done[i := true][j] && indeg[j] == Remaining(nodes, j, DoneSet(done))
    requires forall k: nat :: k in emitted <==> k < |nodes| && done[k]
    requires r[j] == if Dep(nodes, j, i) && indeg[j] > 0 then indeg[j] - 1 else indeg[j]
    ensures r[j] == Remaining(nodes, j, DoneSet(done[i := true]))
  {
    assert DoneSet(done[i := true]) == DoneSet(done) + {i};
    RemainingStep(nodes, j, DoneSet(done), i);
    RemainingZero(nodes, j, DoneSet(done) + {i}, emitted + [i]);
  }

  lemma EmitMarksDone(nodes: seq<Node>, done: seq<bool>, emitted: seq<nat>, i: nat)
    requires |done| == |nodes| && i < |nodes| && !done[i]
    requires forall k: nat :: k in emitted <==> k < |nodes| && done[k]
    ensures forall k: nat :: k in emitted + [i] <==> k < |nodes| && done[i := true][k]
    ensures |DoneSet(done[i := true])| == |DoneSet(done)| + 1 <= |nodes|
  {
    assert DoneSet(done[i := true]) == DoneSet(done) + {i};
    DoneBounded(done[i := true]);
  }

  lemma ExtendNames(nodes: seq<Node>, emitted: seq<nat>, i: nat)
    requires i < |nodes| && forall k | 0 <= k < |emitted| :: emitted[k] < |nodes|
    ensures NamesOf(nodes, emitted + [i]) == NamesOf(nodes, emitted) + [nodes[i].name]
  {
  }

  lemma EmitKeeps(nodes: seq<Node>, done: seq<bool>, indeg: seq<nat>, order: seq<string>, emitted: seq<nat>, i: nat, r: seq<nat>)
    requires DistinctNames(nodes) && Loop(nodes, done, indeg, order, emitted)
    requires i < |nodes| && !done[i] && Released(nodes, emitted, i)
    requires forall k: nat | k < i :: done[k] || !Released(nodes, emitted, k)
    requires |r| == |indeg|
    requires forall j | 0 <= j < |r| ::
               r[j] == if !done[i := true][j] && Dep(nodes, j, i) && indeg[j] > 0 then indeg[j] - 1 else indeg[j]
    ensures Loop(nodes, done[i := true], r, order + [nodes[i].name], emitted + [i])
    ensures |DoneSet(done[i := true])| == |DoneSet(done)| + 1 <= |nodes|
  {
    var done', emitted' := done[i := true], emitted + [i];
    EmitMarksDone(nodes, done, emitted, i);
    ExtendPrefix(nodes, emitted, i);
    ExtendNames(nodes, emitted, i);
    forall j: nat | j < |nodes| && !done'[j]
      ensures r[j] == Remaining(nodes, j, DoneSet(done'))
    {
      EmitKeepsDegrees(nodes, done, indeg, emitted, i, r, j);
    }
  }

  /** The loop of topo_sort: emits a Kahn order and reports the rest. */
  method EmitAll(nodes: seq<Node>) returns (order: seq<string>, cyclic: seq<string>, ghost emitted: seq<nat>, ghost left: seq<nat>)
    requires DistinctNames(nodes)
    ensures KahnOrder(nodes, emitted) && order == NamesOf(nodes, emitted)
    ensures forall k | 0 <= k < |left| :: left[k] < |nodes|
    ensures cyclic == NamesOf(nodes, left)
    ensures forall i: nat :: i in left <==> i < |nodes| && i !in emitted
    ensures forall a, b | 0 <= a < b < |left| :: left[a] < left[b]
  {
    var indeg := InDegrees(nodes);
    var done := seq(|nodes|, _ => false);
    order, emitted := [], [];
    forall j: nat | j < |nodes|
      ensures indeg[j] == Remaining(nodes, j, DoneSet(done))
    {
      assert Targets(nodes, nodes[j].deps) * DoneSet(done) == {};
    }
    while true
      invariant Loop(nodes, done, indeg, order, emitted)
      decreases |nodes| - |DoneSet(done)|
    {
      var i := FindReady(done, indeg);
      ReadyIsReleased(nodes, done, indeg, order, emitted);
      if i == |nodes| { break; }
      ghost var was, degrees := done, indeg;
      done := done[i := true];
      indeg := Release(nodes, i, done, indeg);
      EmitKeeps(nodes, was, degrees, order, emitted, i, indeg);
      order, emitted := order + [nodes[i].name], emitted + [i];
    }
    ReadyIsReleased(nodes, done, indeg, order, emitted);
    cyclic, left := Leftover(nodes, done);
  }

  lemma DoneBounded(done: seq<bool>)
    ensures |DoneSet(done)| <= |done|
  {
    SubsetCardinality(DoneSet(done), Below(|done|));
  }

  lemma ExtendPrefix(nodes: seq<Node>, emitted: seq<nat>, i: nat)
    requires KahnPrefix(nodes, emitted) && i < |nodes| && i !in emitted && Released(nodes, emitted, i)
    requires forall k: nat | k < i :: k in emitted || !Released(nodes, emitted, k)
    ensures KahnPrefix(nodes, emitted + [i])
  {
    var longer := emitted + [i];
    forall k | 0 <= k < |longer|
      ensures longer[..k] == emitted[..k]
    {
    }
    assert longer[..|emitted|] == emitted;
  }

  // ----- what the order and the report mean ---------------------------------------------------

  /** A walk along dependencies. */
  predicate IsPath(nodes: seq<Node>, p: seq<nat>)
  {
    && p != []
    && (forall k | 0 <= k < |p| :: p[k] < |nodes|)
    && (forall k | 0 <= k < |p| - 1 :: Dep(nodes, p[k], p[k + 1]))
  }

  predicate IsCycle(nodes: seq<Node>, p: seq<nat>)
  {
    IsPath(nodes, p) && |p| >= 2 && p[0] == p[|p| - 1]
  }

  /** From j, following dependencies, one can reach a dependency cycle. */
  ghost predicate ReachesCycle(nodes: seq<Node>, j: nat)
  {
    exists p, c :: IsPath(nodes, p) && p[0] == j && IsCycle(nodes, c) && c[0] == p[|p| - 1]
  }

  /** From j one can reach a node that lists a dependency twice. */
  ghost predicate ReachesRepeat(nodes: seq<Node>, j: nat)
  {
    exists p :: IsPath(nodes, p) && p[0] == j && Repeats(nodes, nodes[p[|p| - 1]].deps)
  }

  lemma {:induction false} PositionOf(emitted: seq<nat>, i: nat) returns (k: nat)
    requires i in emitted
    ensures k < |emitted| && emitted[k] == i
  {
    k :| k < |emitted| && emitted[k] == i;
  }

  lemma TailIsPath(nodes: seq<Node>, p: seq<nat>)
    requires IsPath(nodes, p) && |p| >= 2
    ensures IsPath(nodes, p[1..])
  {
    forall k | 0 <= k < |p[1..]| - 1
      ensures Dep(nodes, p[1..][k], p[1..][k + 1])
    {
      assert Dep(nodes, p[k + 1], p[k + 1 + 1]);
    }
  }

  /** Along a path, emission positions strictly decrease. */
  lemma {:induction false} PathDescends(nodes: seq<Node>, emitted: seq<nat>, p: seq<nat>, k: nat) returns (m: nat)
    requires KahnPrefix(nodes, emitted) && IsPath(nodes, p) && k < |emitted| && emitted[k] == p[0]
    ensures m <= k && emitted[m] == p[|p| - 1] && (|p| >= 2 ==> m < k)
    decreases |p|
  {
    if |p| == 1 {
      m := k;
    } else {
      assert Dep(nodes, p[0], p[1]);
      assert Released(nodes, emitted[..k], emitted[k]);
      var l := PositionOf(emitted[..k], p[1]);
      TailIsPath(nodes, p);
      m := PathDescends(nodes, emitted, p[1..], l);
    }
  }

  /** An emitted node reaches neither a cycle nor a repeated dependency. */
  lemma EmittedIsSound(nodes: seq<Node>, emitted: seq<nat>, j: nat)
    requires KahnPrefix(nodes, emitted) && j in emitted
    ensures !ReachesCycle(nodes, j) && !ReachesRepeat(nodes, j)
  {
    var k := PositionOf(emitted, j);
    if ReachesCycle(nodes, j) {
      var p, c :| IsPath(nodes, p) && p[0] == j && IsCycle(nodes, c) && c[0] == p[|p| - 1];
      var m := PathDescends(nodes, emitted, p, k);
      var n := PathDescends(nodes, emitted, c, m);
    }
    if ReachesRepeat(nodes, j) {
      var p :| IsPath(nodes, p) && p[0] == j && Repeats(nodes, nodes[p[|p| - 1]].deps);
      var m := PathDescends(nodes, emitted, p, k);
    }
  }

  /** A node left over has a repeated dependency, or depends on another node left over. */
  lemma LeftoverStep(nodes: seq<Node>, emitted: seq<nat>, j: nat) returns (i: nat)
    requires KahnOrder(nodes, emitted) && j < |nodes| && j !in emitted && !Repeats(nodes, nodes[j].deps)
    ensures Dep(nodes, j, i) && i !in emitted
  {
    i :| Dep(nodes, j, i) && i !in emitted;
  }

  /** Following such dependencies gives an arbitrarily long path, unless a repetition stops it. */
  lemma {:induction false} LeftoverPath(nodes: seq<Node>, emitted: seq<nat>, j: nat, len: nat) returns (p: seq<nat>)
    requires KahnOrder(nodes, emitted) && j < |nodes| && j !in emitted
    ensures IsPath(nodes, p) && p[0] == j
    ensures |p| == len + 1 || Repeats(nodes, nodes[p[|p| - 1]].deps)
    decreases len
  {
    if len == 0 || Repeats(nodes, nodes[j].deps) {
      p := [j];
    } else {
      var i := LeftoverStep(nodes, emitted, j);
      var q := LeftoverPath(nodes, emitted, i, len - 1);
      p := [j] + q;
      assert forall k | 0 <= k < |p| - 1 :: Dep(nodes, p[k], p[k + 1]) by {
        forall k | 0 <= k < |p| - 1
          ensures Dep(nodes, p[k], p[k + 1])
        {
          if k > 0 { assert Dep(nodes, q[k - 1], q[k - 1 + 1]); }
        }
      }
    }
  }

  /** More positions than values: some value occurs twice. */
  lemma {:induction false} Pigeonhole(p: seq<nat>, n: nat) returns (a: nat, b: nat)
    requires |p| > n && forall k | 0 <= k < |p| :: p[k] < n
    ensures a < b < |p| && p[a] == p[b]
  {
    var seen := set k: nat | k < |p| :: p[k];
    if forall x, y | 0 <= x < y < |p| :: p[x] != p[y] {
      DistinctCount(p);
      SubsetCardinality(seen, Below(n));
      assert false;
    }
    a, b :| a < b < |p| && p[a] == p[b];
  }

  lemma {:induction false} DistinctCount(p: seq<nat>)
    requires forall x, y | 0 <= x < y < |p| :: p[x] != p[y]
    ensures |set k: nat | k < |p| :: p[k]| == |p|
  {
    if p != [] {
      var q := p[..|p| - 1];
      DistinctCount(q);
      var before, after := set k: nat | k < |q| :: q[k], set k: nat | k < |p| :: p[k];
      forall v: nat
        ensures v in after <==> v in before || v == p[|p| - 1]
      {
        if v in before {
          var k: nat :| k < |q| && q[k] == v;
          assert p[k] == v;
        }
        if v in after {
          var k: nat :| k < |p| && p[k] == v;
          assert k < |q| ==> q[k] == v;
        }
      }
      assert after == before + {p[|p| - 1]};
      assert p[|p| - 1] !in before;
    }
  }

  lemma PathPrefix(nodes: seq<Node>, p: seq<nat>, a: nat)
    requires IsPath(nodes, p) && a < |p|
    ensures IsPath(nodes, p[..a + 1])
  {
    var path := p[..a + 1];
    forall k | 0 <= k < |path| - 1
      ensures Dep(nodes, path[k], path[k + 1])
    {
      assert Dep(nodes, p[k], p[k + 1]);
    }
  }

  lemma PathLoop(nodes: seq<Node>, p: seq<nat>, a: nat, b: nat)
    requires IsPath(nodes, p) && a < b < |p| && p[a] == p[b]
    ensures IsCycle(nodes, p[a..b + 1])
  {
    var cycle := p[a..b + 1];
    forall k | 0 <= k < |cycle| - 1
      ensures Dep(nodes, cycle[k], cycle[k + 1])
    {
      assert Dep(nodes, p[a + k], p[a + k + 1]);
    }
  }

  /** A node left over reaches a cycle or a repeated dependency. */
  lemma LeftoverIsBlocked(nodes: seq<Node>, emitted: seq<nat>, j: nat)
    requires KahnOrder(nodes, emitted) && j < |nodes| && j !in emitted
    ensures ReachesCycle(nodes, j) || ReachesRepeat(nodes, j)
  {
    var p := LeftoverPath(nodes, emitted, j, |nodes|);
    if !Repeats(nodes, nodes[p[|p| - 1]].deps) {
      var a, b := Pigeonhole(p, |nodes|);
      PathPrefix(nodes, p, a);
      PathLoop(nodes, p, a, b);
      assert p[a..b + 1][0] == p[..a + 1][a];
    }
  }

  /** The reported nodes are exactly those from which a cycle or a repeated dependency is reachable. */
  lemma ReportedExactly(nodes: seq<Node>, emitted: seq<nat>, j: nat)
    requires KahnOrder(nodes, emitted) && j < |nodes|
    ensures j !in emitted <==> ReachesCycle(nodes, j) || ReachesRepeat(nodes, j)
  {
    if j in emitted { EmittedIsSound(nodes, emitted, j); } else { LeftoverIsBlocked(nodes, emitted, j); }
  }

  /** The report means "reaches a cycle", for every node, exactly when every node with a repeated
      dependency reaches a cycle anyway; in particular when no list repeats a name. */
  lemma ReportMeansCycleIff(nodes: seq<Node>, emitted: seq<nat>)
    requires KahnOrder(nodes, emitted)
    ensures (forall j: nat | j < |nodes| :: j !in emitted <==> ReachesCycle(nodes, j)) <==>
            (forall j: nat | j < |nodes| && Repeats(nodes, nodes[j].deps) :: ReachesCycle(nodes, j))
  {
    if forall j: nat | j < |nodes| :: j !in emitted <==> ReachesCycle(nodes, j) {
      forall j: nat | j < |nodes| && Repeats(nodes, nodes[j].deps)
        ensures ReachesCycle(nodes, j)
      {
        RepeatIsReported(nodes, emitted, j);
      }
    }
    if forall j: nat | j < |nodes| && Repeats(nodes, nodes[j].deps) :: ReachesCycle(nodes, j) {
      forall j: nat | j < |nodes|
        ensures j !in emitted <==> ReachesCycle(nodes, j)
      {
        ReportedExactly(nodes, emitted, j);
        if ReachesRepeat(nodes, j) { RepeatThenCycle(nodes, j); }
      }
    }
  }

  lemma RepeatIsReported(nodes: seq<Node>, emitted: seq<nat>, j: nat)
    requires KahnOrder(nodes, emitted) && j < |nodes| && Repeats(nodes, nodes[j].deps)
    ensures j !in emitted
  {
    assert IsPath(nodes, [j]);
    ReportedExactly(nodes, emitted, j);
  }

  lemma RepeatThenCycle(nodes: seq<Node>, j: nat)
    requires j < |nodes| && ReachesRepeat(nodes, j)
    requires forall i: nat | i < |nodes| && Repeats(nodes, nodes[i].deps) :: ReachesCycle(nodes, i)
    ensures ReachesCycle(nodes, j)
  {
    var p :| IsPath(nodes, p) && p[0] == j && Repeats(nodes, nodes[p[|p| - 1]].deps);
    JoinToCycle(nodes, p);
  }

  lemma JoinToCycle(nodes: seq<Node>, p: seq<nat>)
    requires IsPath(nodes, p) && ReachesCycle(nodes, p[|p| - 1])
    ensures ReachesCycle(nodes, p[0])
  {
    var q, c :| IsPath(nodes, q) && q[0] == p[|p| - 1] && IsCycle(nodes, c) && c[0] == q[|q| - 1];
    var r := p + q[1..];
    forall k | 0 <= k < |r| - 1
      ensures Dep(nodes, r[k], r[k + 1])
    {
      if k < |p| - 1 { assert Dep(nodes, p[k], p[k + 1]); }
      else { var l := k - (|p| - 1); assert Dep(nodes, q[l], q[l + 1]) && r[k] == q[l]; }
    }
    assert IsPath(nodes, r) && r[0] == p[0] && r[|r| - 1] == q[|q| - 1];
  }

  lemma CycleIsReported(nodes: seq<Node>, emitted: seq<nat>, c: seq<nat>)
    requires KahnPrefix(nodes, emitted) && IsCycle(nodes, c)
    ensures c[0] < |nodes| && c[0] !in emitted
  {
    var p := [c[0]];
    assert IsPath(nodes, p) && p[0] == c[0] && c[0] == p[|p| - 1];
    assert ReachesCycle(nodes, c[0]);
    if c[0] in emitted { EmittedIsSound(nodes, emitted, c[0]); }
  }

  lemma ReportedHasCycle(nodes: seq<Node>, emitted: seq<nat>, j: nat) returns (c: seq<nat>)
    requires KahnOrder(nodes, emitted) && j < |nodes| && j !in emitted
    requires forall i: nat | i < |nodes| :: !Repeats(nodes, nodes[i].deps)
    ensures IsCycle(nodes, c)
  {
    LeftoverIsBlocked(nodes, emitted, j);
    assert !ReachesRepeat(nodes, j);
    var p, d :| IsPath(nodes, p) && p[0] == j && IsCycle(nodes, d) && d[0] == p[|p| - 1];
    c := d;
  }

  /** With no repeated dependency, nothing is reported exactly when the graph has no cycle. */
  lemma NothingReportedIffAcyclic(nodes: seq<Node>, emitted: seq<nat>)
    requires KahnOrder(nodes, emitted) && forall j: nat | j < |nodes| :: !Repeats(nodes, nodes[j].deps)
    ensures (forall j: nat | j < |nodes| :: j in emitted) <==> !exists c :: IsCycle(nodes, c)
  {
    if c :| IsCycle(nodes, c) {
      CycleIsReported(nodes, emitted, c);
    } else {
      forall j: nat | j < |nodes|
        ensures j in emitted
      {
        if j !in emitted { var c := ReportedHasCycle(nodes, emitted, j); }
      }
    }
  }

  /** A repeated dependency is reported although nothing is cyclic: "b" lists "a" twice. */
  lemma RepeatedDependencyIsReported(emitted: seq<nat>)
    requires KahnOrder([Node("a", []), Node("b", ["a", "a"])], emitted)
    ensures 0 in emitted && 1 !in emitted
    ensures !ReachesCycle([Node("a", []), Node("b", ["a", "a"])], 1)
  {
    var nodes := [Node("a", []), Node("b", ["a", "a"])];
    var deps := nodes[1].deps;
    assert nodes[0].name == deps[0] && InSet(nodes, deps[0]) && deps[0] == deps[1];
    assert Repeats(nodes, deps);
    assert forall i: nat :: !Dep(nodes, 0, i);
    assert !Repeats(nodes, nodes[0].deps) && Released(nodes, emitted, 0);
    assert 0 in emitted;
    forall k: nat | k < |emitted|
      ensures emitted[k] == 0
    {
      assert Released(nodes, emitted[..k], emitted[k]);
    }
    assert nodes[1].name != "a";
    assert forall j: nat, i: nat :: Dep(nodes, j, i) <==> j == 1 && i == 0;
    forall c
      ensures !IsCycle(nodes, c)
    {
      assert IsPath(nodes, c) && |c| >= 2 ==> Dep(nodes, c[0], c[0 + 1]) && Dep(nodes, c[|c| - 2], c[|c| - 2 + 1]);
    }
  }

  /** Order and report together are a permutation of the nodes, and each emitted node comes after all
      its in-set dependencies. */
  lemma OrderRespectsDependencies(nodes: seq<Node>, emitted: seq<nat>, left: seq<nat>)
    requires KahnOrder(nodes, emitted)
    requires forall i: nat :: i in left <==> i < |nodes| && i !in emitted
    requires forall a, b | 0 <= a < b < |left| :: left[a] < left[b]
    ensures forall i: nat | i < |nodes| :: multiset(emitted + left)[i] == 1
    ensures |emitted + left| == |nodes|
    ensures forall k: nat, i: nat | k < |emitted| && Dep(nodes, emitted[k], i) :: i in emitted[..k]
  {
    var all := emitted + left;
    forall x, y | 0 <= x < y < |all|
      ensures all[x] != all[y]
    {
      if y < |emitted| {
        assert emitted[y] !in emitted[..y] && emitted[x] == emitted[..y][x];
      } else {
        assert left[y - |emitted|] in left;
      }
    }
    forall i: nat | i < |nodes|
      ensures multiset(all)[i] == 1
    {
      assert i in all by { assert i in emitted || i in left; }
      OnceInDistinct(all, i);
    }
    DistinctCount(all);
    var values := set k: nat | k < |all| :: all[k];
    assert values == Below(|nodes|) by {
      forall v: nat
        ensures v in values <==> v < |nodes|
      {
        assert v < |nodes| ==> v in all;
        if v in all {
          var k: nat :| k < |all| && all[k] == v;
        }
        if v in values {
          var k: nat :| k < |all| && all[k] == v;
          assert all[k] in emitted || all[k] in left;
        }
      }
    }
    forall k: nat, i: nat | k < |emitted| && Dep(nodes, emitted[k], i)
      ensures i in emitted[..k]
    {
      assert Released(nodes, emitted[..k], emitted[k]);
    }
  }

  lemma {:induction false} OnceInDistinct(s: seq<nat>, v: nat)
    requires v in s && forall x, y | 0 <= x < y < |s| :: s[x] != s[y]
    ensures multiset(s)[v] == 1
  {
    var init, last := s[..|s| - 1], s[|s| - 1];
    assert s == init + [last];
    if v == last {
      assert v !in init;
    } else {
      OnceInDistinct(init, v);
    }
  }

  // ----- the promise, in names ----------------------------------------------------------------

  lemma NameListed(nodes: seq<Node>, picked: seq<nat>, j: nat)
    requires DistinctNames(nodes) && j < |nodes| && forall k | 0 <= k < |picked| :: picked[k] < |nodes|
    ensures nodes[j].name in NamesOf(nodes, picked) <==> j in picked
  {
    var names := NamesOf(nodes, picked);
    if j in picked {
      var k :| 0 <= k < |picked| && picked[k] == j;
      assert names[k] == nodes[j].name;
    }
    if nodes[j].name in names {
      var k :| 0 <= k < |names| && names[k] == nodes[j].name;
      assert picked[k] == j;
    }
  }

  /** Every in-set dependency of order[k] stands before it. */
  ghost predicate DependenciesFirst(nodes: seq<Node>, order: seq<string>)
  {
    forall k: nat, j: nat, d: string |
      k < |order| && j < |nodes| && order[k] == nodes[j].name && d in nodes[j].deps && InSet(nodes, d) :: d in order[..k]
  }

  lemma NamesFollow(nodes: seq<Node>, emitted: seq<nat>)
    requires DistinctNames(nodes) && KahnPrefix(nodes, emitted)
    ensures DependenciesFirst(nodes, NamesOf(nodes, emitted))
  {
    var order := NamesOf(nodes, emitted);
    forall k: nat, j: nat, d: string |
      k < |order| && j < |nodes| && order[k] == nodes[j].name && d in nodes[j].deps && InSet(nodes, d)
      ensures d in order[..k]
    {
      assert emitted[k] == j && Released(nodes, emitted[..k], j);
      var i: nat :| i < |nodes| && nodes[i].name == d;
      assert Dep(nodes, j, i);
      NameListed(nodes, emitted[..k], i);
      assert NamesOf(nodes, emitted[..k]) == order[..k];
    }
  }

  /** topo_sort: every node name stands once in the order or in the report; the order respects the
      dependencies inside the set; and a node is reported exactly if it reaches a cycle or a node that
      lists a dependency twice. */
  method TopoSort(nodes: seq<Node>) returns (order: seq<string>, cyclic: seq<string>)
    requires DistinctNames(nodes)
    ensures forall j: nat | j < |nodes| :: nodes[j].name in cyclic <==> ReachesCycle(nodes, j) || ReachesRepeat(nodes, j)
    ensures forall j: nat | j < |nodes| :: nodes[j].name in order <==> nodes[j].name !in cyclic
    ensures |order| + |cyclic| == |nodes|
    ensures DependenciesFirst(nodes, order)
  {
    ghost var emitted, left;
    order, cyclic, emitted, left := EmitAll(nodes);
    NamesFollow(nodes, emitted);
    OrderRespectsDependencies(nodes, emitted, left);
    forall j: nat | j < |nodes|
      ensures nodes[j].name in order <==> j in emitted
      ensures nodes[j].name in cyclic <==> j in left
      ensures j in left <==> ReachesCycle(nodes, j) || ReachesRepeat(nodes, j)
    {
      NameListed(nodes, emitted, j);
      NameListed(nodes, left, j);
      ReportedExactly(nodes, emitted, j);
    }
  }
}
