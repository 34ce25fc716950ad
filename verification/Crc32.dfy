/** The reflected CRC-32 (IEEE 802.3): the bit-serial loop, and which changes it always detects. */
module Crc32 {
  import opened Common
  import opened Octets

  /** One shift of the register by the reflected polynomial. */
  function Shift(c: bv32): bv32
  {
    if c & 1 != 0 then (c >> 1) ^ 0xEDB8_8320 else c >> 1
  }

  function Shifts(c: bv32, n: nat): bv32
    decreases n
  {
    if n == 0 then c else Shifts(Shift(c), n - 1)
  }

  /** A byte enters at the low end of the register and is shifted through. */
  function Feed(c: bv32, b: bv8): bv32
  {
    Shifts(c ^ (b as bv32), 8)
  }

  function Step(c: bv32, b: Byte): bv32
  {
    Feed(c, Bits(b))
  }

  /** Running a register of any kind over the data. */
  function Fold<T>(step: (T, Byte) -> T, c: T, data: seq<Byte>): T
    decreases |data|
  {
    if data == [] then c else Fold(step, step(c, data[0]), data[1..])
  }

  function Run<T>(step: (T, Byte) -> T, out: T -> T, c: T, data: seq<Byte>): T
  {
    out(Fold(step, c, data))
  }

  function Invert(c: bv32): bv32
  {
    !c
  }

  function Checksum(data: seq<Byte>): bv32
  {
    Run(Step, Invert, 0xFFFF_FFFF, data)
  }

  method Crc(data: seq<Byte>) returns (r: bv32)
    ensures r == Checksum(data)
  {
    var crc: bv32 := 0xFFFF_FFFF;
    var i := 0;
    while i < |data|
      invariant i <= |data|
      invariant Fold(Step, crc, data[i..]) == Fold(Step, 0xFFFF_FFFF, data)
    {
      FoldNext(Step, crc, data, i);
      crc := Absorb(crc, Bits(data[i]));
      i := i + 1;
    }
    return !crc;
  }

  lemma FoldNext<T>(step: (T, Byte) -> T, c: T, data: seq<Byte>, i: nat)
    requires i < |data|
    ensures Fold(step, c, data[i..]) == Fold(step, step(c, data[i]), data[i + 1..])
  {
    assert data[i..][1..] == data[i + 1..];
  }

  /** The body of the outer loop. */
  method Absorb(c: bv32, b: bv8) returns (crc: bv32)
    ensures crc == Feed(c, b)
  {
    crc := c ^ (b as bv32);
    ghost var target := Shifts(crc, 8);
    var k := 0;
    while k < 8
      invariant k <= 8
      invariant Shifts(crc, 8 - k) == target
    {
      crc := if crc & 1 != 0 then (crc >> 1) ^ 0xEDB8_8320 else crc >> 1;
      k := k + 1;
    }
  }

  // ----- the register never forgets a difference ----------------------------------------------
  //
  // The lemmas name every register they speak of: the solver then relates them without looking
  // into the bits, except in the few lemmas that are about bits.

  lemma ShiftInjective(c: bv32, d: bv32)
    requires Shift(c) == Shift(d)
    ensures c == d
  {
  }

  lemma {:induction false} ShiftsInjective(c: bv32, d: bv32, n: nat)
    requires Shifts(c, n) == Shifts(d, n)
    ensures c == d
    decreases n
  {
    if n > 0 {
      ShiftsInjective(Shift(c), Shift(d), n - 1);
      ShiftInjective(c, d);
    }
  }

  lemma XorCancels(c: bv32, d: bv32, e: bv32)
    requires c ^ e == d ^ e
    ensures c == d
  {
  }

  lemma EnterInjective(c: bv32, d: bv32, x: bv32, c0: bv32, d0: bv32, n: nat)
    requires c0 == c ^ x && d0 == d ^ x && Shifts(c0, n) == Shifts(d0, n)
    ensures c == d
  {
    ShiftsInjective(c0, d0, n);
    XorCancels(c, d, x);
  }

  lemma EnterOctetInjective(c: bv32, d: bv32, x: bv32, c0: bv32, d0: bv32)
    requires c0 == c ^ x && d0 == d ^ x && Shifts(c0, 8) == Shifts(d0, 8)
    ensures c == d
  {
    EnterInjective(c, d, x, c0, d0, 8);
  }

  lemma FeedInjective(c: bv32, d: bv32, b: bv8)
    requires Feed(c, b) == Feed(d, b)
    ensures c == d
  {
    EnterOctetInjective(c, d, b as bv32, c ^ (b as bv32), d ^ (b as bv32));
  }

  // ----- running the register backwards -------------------------------------------------------

  /** x moved n places to the left. */
  function Left(x: bv32, n: nat): bv32
  {
    if n == 0 then x else Left(x, n - 1) << 1
  }

  /** x can be moved n places to the left without losing a bit. */
  predicate Fits(x: bv32, n: nat)
  {
    n == 0 || (Left(x, n - 1) & 0x8000_0000 == 0 && Fits(x, n - 1))
  }

  /** The polynomial's top bit is set, so the top bit after a shift tells the low bit before it. */
  lemma ShiftBack(u: bv32, v: bv32, x: bv32)
    requires Shift(u) ^ Shift(v) == x && x & 0x8000_0000 == 0
    ensures u ^ v == x << 1
  {
  }

  lemma {:induction false} ShiftsBack(u: bv32, v: bv32, p: bv32, q: bv32, n: nat)
    requires p == Shifts(u, n) && q == Shifts(v, n) && Fits(p ^ q, n)
    ensures u ^ v == Left(p ^ q, n)
    decreases n
  {
    if n > 0 {
      ShiftsBack(Shift(u), Shift(v), p, q, n - 1);
      ShiftBack(u, v, Left(p ^ q, n - 1));
    }
  }

  lemma OctetBack(u: bv32, v: bv32, p: bv32, q: bv32, x: bv32, y: bv32)
    requires p == Shifts(u, 8) && q == Shifts(v, 8) && x == p ^ q && Fits(x, 8) && y == Left(x, 8)
    ensures u ^ v == y
  {
    ShiftsBack(u, v, p, q, 8);
  }

  lemma XorRegroups(r: bv32, s: bv32, a: bv32, b: bv32, u: bv32, v: bv32, y: bv32)
    requires u == r ^ a && v == s ^ b && u ^ v == y
    ensures r ^ s == y ^ (a ^ b)
  {
  }

  lemma EnterBack(r: bv32, s: bv32, a: bv32, b: bv32, u: bv32, v: bv32, p: bv32, q: bv32, x: bv32, y: bv32)
    requires u == r ^ a && v == s ^ b
    requires p == Shifts(u, 8) && q == Shifts(v, 8) && x == p ^ q && Fits(x, 8) && y == Left(x, 8)
    ensures r ^ s == y ^ (a ^ b)
  {
    OctetBack(u, v, p, q, x, y);
    XorRegroups(r, s, a, b, u, v, y);
  }

  /** The difference before a byte, from the difference after it. */
  lemma FeedBack(r: bv32, s: bv32, a: bv8, b: bv8, wa: bv32, wb: bv32, u: bv32, v: bv32, p: bv32, q: bv32, x: bv32, y: bv32)
    requires wa == a as bv32 && wb == b as bv32 && u == r ^ wa && v == s ^ wb
    requires p == Feed(r, a) && q == Feed(s, b) && x == p ^ q && Fits(x, 8) && y == Left(x, 8)
    ensures r ^ s == y ^ (wa ^ wb)
  {
    FeedIs(r, a, wa, u, p);
    FeedIs(s, b, wb, v, q);
    EnterBack(r, s, wa, wb, u, v, p, q, x, y);
  }

  lemma FeedIs(r: bv32, a: bv8, wa: bv32, u: bv32, p: bv32)
    requires wa == a as bv32 && u == r ^ wa && p == Feed(r, a)
    ensures p == Shifts(u, 8)
  {
  }

  lemma LeftFits(x: bv32, n: nat, y: bv32)
    requires Left(x, n) == y && Fits(x, n) && y & 0x8000_0000 == 0
    ensures Left(x, n + 1) == y << 1 && Fits(x, n + 1)
  {
  }

  lemma OctetFits(x: bv32, x1: bv32, x2: bv32, x3: bv32, x4: bv32, x5: bv32, x6: bv32, x7: bv32, y: bv32)
    requires x1 == x << 1 && x2 == x1 << 1 && x3 == x2 << 1 && x4 == x3 << 1
    requires x5 == x4 << 1 && x6 == x5 << 1 && x7 == x6 << 1 && y == x7 << 1
    requires x & 0x8000_0000 == 0 && x1 & 0x8000_0000 == 0 && x2 & 0x8000_0000 == 0 && x3 & 0x8000_0000 == 0
    requires x4 & 0x8000_0000 == 0 && x5 & 0x8000_0000 == 0 && x6 & 0x8000_0000 == 0 && x7 & 0x8000_0000 == 0
    ensures Fits(x, 8) && Left(x, 8) == y
  {
    LeftFits(x, 0, x);
    LeftFits(x, 1, x1);
    LeftFits(x, 2, x2);
    LeftFits(x, 3, x3);
    LeftFits(x, 4, x4);
    LeftFits(x, 5, x5);
    LeftFits(x, 6, x6);
    LeftFits(x, 7, x7);
  }

  /** Eight single moves make one move by eight, and lose nothing of three bytes. */
  lemma EightMoves(x: bv32, x1: bv32, x2: bv32, x3: bv32, x4: bv32, x5: bv32, x6: bv32, x7: bv32)
    requires x1 == x << 1 && x2 == x1 << 1 && x3 == x2 << 1 && x4 == x3 << 1
    requires x5 == x4 << 1 && x6 == x5 << 1 && x7 == x6 << 1 && x & 0xFF00_0000 == 0
    ensures x & 0x8000_0000 == 0 && x1 & 0x8000_0000 == 0 && x2 & 0x8000_0000 == 0 && x3 & 0x8000_0000 == 0
    ensures x4 & 0x8000_0000 == 0 && x5 & 0x8000_0000 == 0 && x6 & 0x8000_0000 == 0 && x7 & 0x8000_0000 == 0
    ensures x7 << 1 == x << 8
  {
  }

  lemma SmallFits(x: bv32, y: bv32)
    requires x & 0xFF00_0000 == 0 && y == x << 8
    ensures Fits(x, 8) && Left(x, 8) == y
  {
    var x1 := x << 1;
    var x2 := x1 << 1;
    var x3 := x2 << 1;
    var x4 := x3 << 1;
    var x5 := x4 << 1;
    var x6 := x5 << 1;
    var x7 := x6 << 1;
    EightMoves(x, x1, x2, x3, x4, x5, x6, x7);
    OctetFits(x, x1, x2, x3, x4, x5, x6, x7, y);
  }

  lemma DifferenceBack(r: bv32, s: bv32, a: bv8, b: bv8, p: bv32, q: bv32, x: bv32, z: bv32)
    requires p == Feed(r, a) && q == Feed(s, b) && x == p ^ q && x & 0xFF00_0000 == 0
    requires z == (x << 8) ^ ((a as bv32) ^ (b as bv32))
    ensures r ^ s == z
  {
    var wa, wb := a as bv32, b as bv32;
    var u, v := r ^ wa, s ^ wb;
    var y := x << 8;
    SmallFits(x, y);
    FeedBack(r, s, a, b, wa, wb, u, v, p, q, x, y);
  }

  /** The differences before each of four bytes vanish together only if the bytes agree. */
  lemma DifferencesVanish(a0: bv8, a1: bv8, a2: bv8, a3: bv8, b0: bv8, b1: bv8, b2: bv8, b3: bv8,
                          x1: bv32, x2: bv32, x3: bv32)
    requires x3 == (a3 as bv32) ^ (b3 as bv32)
    requires x2 == (x3 << 8) ^ ((a2 as bv32) ^ (b2 as bv32))
    requires x1 == (x2 << 8) ^ ((a1 as bv32) ^ (b1 as bv32))
    ensures x3 & 0xFF00_0000 == 0 && x2 & 0xFF00_0000 == 0 && x1 & 0xFF00_0000 == 0
    ensures (x1 << 8) ^ ((a0 as bv32) ^ (b0 as bv32)) == 0 ==> a0 == b0 && a1 == b1 && a2 == b2 && a3 == b3
  {
  }

  lemma XorSelf(c: bv32, x: bv32)
    ensures c ^ c == 0 && (0 as bv32 << 8) ^ x == x
  {
  }

  lemma WindowBack(c: bv32, r1: bv32, r2: bv32, r3: bv32, s1: bv32, s2: bv32, s3: bv32, e: bv32,
                   a0: bv8, a1: bv8, a2: bv8, a3: bv8, b0: bv8, b1: bv8, b2: bv8, b3: bv8)
    requires r1 == Feed(c, a0) && r2 == Feed(r1, a1) && r3 == Feed(r2, a2) && e == Feed(r3, a3)
    requires s1 == Feed(c, b0) && s2 == Feed(s1, b1) && s3 == Feed(s2, b2) && e == Feed(s3, b3)
    ensures a0 == b0 && a1 == b1 && a2 == b2 && a3 == b3
  {
    var x3 := (a3 as bv32) ^ (b3 as bv32);
    var x2 := (x3 << 8) ^ ((a2 as bv32) ^ (b2 as bv32));
    var x1 := (x2 << 8) ^ ((a1 as bv32) ^ (b1 as bv32));
    DifferencesVanish(a0, a1, a2, a3, b0, b1, b2, b3, x1, x2, x3);
    XorSelf(e, x3);
    DifferenceBack(r3, s3, a3, b3, e, e, 0, x3);
    DifferenceBack(r2, s2, a2, b2, r3, s3, x3, x2);
    DifferenceBack(r1, s1, a1, b1, r2, s2, x2, x1);
    XorSelf(c, x3);
    DifferenceBack(c, c, a0, b0, r1, s1, x1, (x1 << 8) ^ ((a0 as bv32) ^ (b0 as bv32)));
  }

  // ----- from bytes to whole inputs, for a register of any kind ---------------------------------

  ghost predicate Injective<T(!new)>(step: (T, Byte) -> T)
  {
    forall c, d, b :: step(c, b) == step(d, b) ==> c == d
  }

  /** Four bytes are told apart by what they make of the same register. */
  ghost predicate TellsFour<T(!new)>(step: (T, Byte) -> T)
  {
    forall c, v, w :: |v| == |w| == 4 && Fold(step, c, v) == Fold(step, c, w) ==> v == w
  }

  lemma {:induction false} FoldAppend<T>(step: (T, Byte) -> T, c: T, a: seq<Byte>, b: seq<Byte>)
    ensures Fold(step, c, a + b) == Fold(step, Fold(step, c, a), b)
    decreases |a|
  {
    if a == [] {
      assert a + b == b;
    } else {
      assert (a + b)[1..] == a[1..] + b;
      FoldAppend(step, step(c, a[0]), a[1..], b);
    }
  }

  lemma {:induction false} FoldInjective<T(!new)>(step: (T, Byte) -> T, c: T, d: T, data: seq<Byte>)
    requires Injective(step) && Fold(step, c, data) == Fold(step, d, data)
    ensures c == d
    decreases |data|
  {
    if data != [] {
      FoldInjective(step, step(c, data[0]), step(d, data[0]), data[1..]);
    }
  }

  function Zeros(n: nat): (r: seq<Byte>)
    ensures |r| == n && forall i | 0 <= i < n :: r[i] == 0
  {
    if n == 0 then [] else [0] + Zeros(n - 1)
  }

  /** Four zero bytes at the end make room for a window that starts near it. */
  lemma FoldDetects<T(!new)>(step: (T, Byte) -> T, c: T, a: seq<Byte>, b: seq<Byte>, at: nat)
    requires Injective(step) && TellsFour(step)
    requires |a| == |b| && at <= |a|
    requires forall i | 0 <= i < |a| && !(at <= i < at + 4) :: a[i] == b[i]
    requires Fold(step, c, a) == Fold(step, c, b)
    ensures a == b
  {
    var z := Zeros(4);
    FoldAppend(step, c, a, z);
    FoldAppend(step, c, b, z);
    var pre, v, w, post := Cut(a, b, at, z);
    FoldAppend(step, c, pre, v + post);
    FoldAppend(step, c, pre, w + post);
    var m := Fold(step, c, pre);
    FoldAppend(step, m, v, post);
    FoldAppend(step, m, w, post);
    FoldInjective(step, Fold(step, m, v), Fold(step, m, w), post);
  }

  ghost predicate OneToOne<T(!new)>(out: T -> T)
  {
    forall c, d :: out(c) == out(d) ==> c == d
  }

  lemma RunDetects<T(!new)>(step: (T, Byte) -> T, out: T -> T, c: T, a: seq<Byte>, b: seq<Byte>, at: nat)
    requires Injective(step) && TellsFour(step) && OneToOne(out)
    requires |a| == |b| && at <= |a| && a != b
    requires forall i | 0 <= i < |a| && !(at <= i < at + 4) :: a[i] == b[i]
    ensures Run(step, out, c, a) != Run(step, out, c, b)
  {
    if Fold(step, c, a) == Fold(step, c, b) {
      FoldDetects(step, c, a, b, at);
    }
  }

  /** What surrounds a window of four elements. */
  lemma Cut<T>(a: seq<T>, b: seq<T>, at: nat, z: seq<T>) returns (pre: seq<T>, v: seq<T>, w: seq<T>, post: seq<T>)
    requires |a| == |b| && at <= |a| && |z| == 4
    requires forall i | 0 <= i < |a| && !(at <= i < at + 4) :: a[i] == b[i]
    ensures a + z == pre + (v + post) && b + z == pre + (w + post) && |v| == |w| == 4
    ensures v == w ==> a == b
  {
    var a', b' := a + z, b + z;
    pre, post := a'[..at], a'[at + 4..];
    v, w := a'[at..at + 4], b'[at..at + 4];
    assert b'[..at] == pre && b'[at + 4..] == post;
    assert a' == pre + (v + post) && b' == pre + (w + post);
    if v == w {
      assert a == a'[..|a|] && b == b'[..|b|];
    }
  }

  // ----- the register of CRC-32 ---------------------------------------------------------------

  lemma StepInjective()
    ensures Injective(Step)
  {
    forall c, d, b | Step(c, b) == Step(d, b)
      ensures c == d
    {
      FeedInjective(c, d, Bits(b));
    }
  }

  lemma {:induction false} FoldFour<T>(step: (T, Byte) -> T, c: T, v: seq<Byte>)
    requires |v| == 4
    ensures Fold(step, c, v) == step(step(step(step(c, v[0]), v[1]), v[2]), v[3])
  {
    assert v[1..][1..] == v[2..] && v[2..][1..] == v[3..] && v[3..][1..] == [];
    assert Fold(step, step(step(step(c, v[0]), v[1]), v[2]), v[3..]) == step(step(step(step(c, v[0]), v[1]), v[2]), v[3]);
    assert Fold(step, step(step(c, v[0]), v[1]), v[2..]) == Fold(step, step(step(step(c, v[0]), v[1]), v[2]), v[3..]);
    assert Fold(step, step(c, v[0]), v[1..]) == Fold(step, step(step(c, v[0]), v[1]), v[2..]);
  }

  lemma StepTellsFour()
    ensures TellsFour(Step)
  {
    forall c, v, w | |v| == |w| == 4 && Fold(Step, c, v) == Fold(Step, c, w)
      ensures v == w
    {
      FourTold(c, v, w);
    }
  }

  lemma FourTold(c: bv32, v: seq<Byte>, w: seq<Byte>)
    requires |v| == |w| == 4 && Fold(Step, c, v) == Fold(Step, c, w)
    ensures v == w
  {
    FoldFour(Step, c, v);
    FoldFour(Step, c, w);
    BytesTold(c, v[0], v[1], v[2], v[3], w[0], w[1], w[2], w[3]);
  }

  lemma BytesTold(c: bv32, a0: Byte, a1: Byte, a2: Byte, a3: Byte, b0: Byte, b1: Byte, b2: Byte, b3: Byte)
    requires Step(Step(Step(Step(c, a0), a1), a2), a3) == Step(Step(Step(Step(c, b0), b1), b2), b3)
    ensures a0 == b0 && a1 == b1 && a2 == b2 && a3 == b3
  {
    var r1, s1 := Step(c, a0), Step(c, b0);
    var r2, s2 := Step(r1, a1), Step(s1, b1);
    var r3, s3 := Step(r2, a2), Step(s2, b2);
    WindowBack(c, r1, r2, r3, s1, s2, s3, Step(r3, a3), Bits(a0), Bits(a1), Bits(a2), Bits(a3), Bits(b0), Bits(b1), Bits(b2), Bits(b3));
    BitsInjective(a0, b0);
    BitsInjective(a1, b1);
    BitsInjective(a2, b2);
    BitsInjective(a3, b3);
  }

  lemma InvertInjective(c: bv32, d: bv32)
    requires Invert(c) == Invert(d)
    ensures c == d
  {
  }

  lemma InvertTells()
    ensures OneToOne(Invert)
  {
    forall c, d | Invert(c) == Invert(d)
      ensures c == d
    {
      InvertInjective(c, d);
    }
  }

  /** The checksum tells apart any two inputs of equal length that differ only within four
      consecutive bytes. */
  lemma ChecksumDetects(a: seq<Byte>, b: seq<Byte>, at: nat)
    requires |a| == |b| && at <= |a| && a != b
    requires forall i | 0 <= i < |a| && !(at <= i < at + 4) :: a[i] == b[i]
    ensures Checksum(a) != Checksum(b)
  {
    StepInjective();
    StepTellsFour();
    InvertTells();
    RunDetects(Step, Invert, 0xFFFF_FFFF, a, b, at);
  }

  const DIGITS: seq<Byte> := [0x31, 0x32, 0x33, 0x34, 0x35, 0x36, 0x37, 0x38, 0x39]

  lemma ThreeSteps<T>(step: (T, Byte) -> T, data: seq<Byte>, a: T, b: T, c: T, d: T)
    requires |data| >= 3 && step(a, data[0]) == b && step(b, data[1]) == c && step(c, data[2]) == d
    ensures Fold(step, a, data) == Fold(step, d, data[3..])
  {
    assert data[1..][1..] == data[2..] && data[2..][1..] == data[3..];
    assert Fold(step, b, data[1..]) == Fold(step, c, data[2..]);
  }

  lemma NineSteps<T>(step: (T, Byte) -> T, a: T, b: T, c: T, d: T)
    requires Fold(step, a, DIGITS) == Fold(step, b, DIGITS[3..])
    requires Fold(step, b, DIGITS[3..]) == Fold(step, c, DIGITS[3..][3..])
    requires Fold(step, c, DIGITS[3..][3..]) == Fold(step, d, DIGITS[3..][3..][3..])
    ensures Fold(step, a, DIGITS) == d
  {
    assert DIGITS[3..][3..][3..] == [];
  }

  lemma DigitBits()
    ensures Bits(0x31) == 0x31
    ensures Bits(0x32) == 0x32
    ensures Bits(0x33) == 0x33
    ensures Bits(0x34) == 0x34
    ensures Bits(0x35) == 0x35
    ensures Bits(0x36) == 0x36
    ensures Bits(0x37) == 0x37
    ensures Bits(0x38) == 0x38
    ensures Bits(0x39) == 0x39
  {
  }

  /** One byte in, with its eight shifts written out. */
  lemma StepUnrolled(c: bv32, b: Byte, x: bv8)
    requires Bits(b) == x
    ensures Step(c, b) == Shift(Shift(Shift(Shift(Shift(Shift(Shift(Shift(c ^ (x as bv32)))))))))
  {
    var c0 := c ^ (x as bv32);
    var c1 := Shift(c0);
    var c2 := Shift(c1);
    var c3 := Shift(c2);
    var c4 := Shift(c3);
    var c5 := Shift(c4);
    var c6 := Shift(c5);
    var c7 := Shift(c6);
    assert Shifts(c0, 8) == Shifts(c1, 7) == Shifts(c2, 6) == Shifts(c3, 5) == Shifts(c4, 4);
    assert Shifts(c4, 4) == Shifts(c5, 3) == Shifts(c6, 2) == Shifts(c7, 1) == Shift(c7);
  }

  lemma FirstSteps()
    ensures Step(0xFFFF_FFFF, 0x31) == 0x7C23_1048
    ensures Step(0x7C23_1048, 0x32) == 0xB0AC_BB32
    ensures Step(0xB0AC_BB32, 0x33) == 0x77B7_9C2D
  {
    DigitBits();
    StepUnrolled(0xFFFF_FFFF, 0x31, 0x31);
    StepUnrolled(0x7C23_1048, 0x32, 0x32);
    StepUnrolled(0xB0AC_BB32, 0x33, 0x33);
  }

  lemma FirstDigits()
    ensures Fold(Step, 0xFFFF_FFFF, DIGITS) == Fold(Step, 0x77B7_9C2D, DIGITS[3..])
  {
    FirstSteps();
    var d := DIGITS;
    assert d[0] == 0x31 && d[1] == 0x32 && d[2] == 0x33;
    ThreeSteps(Step, d, 0xFFFF_FFFF, 0x7C23_1048, 0xB0AC_BB32, 0x77B7_9C2D);
  }

  lemma MiddleSteps()
    ensures Step(0x77B7_9C2D, 0x34) == 0x641C_1F5C
    ensures Step(0x641C_1F5C, 0x35) == 0x340A_C5E3
    ensures Step(0x340A_C5E3, 0x36) == 0xF68D_2C9E
  {
    DigitBits();
    StepUnrolled(0x77B7_9C2D, 0x34, 0x34);
    StepUnrolled(0x641C_1F5C, 0x35, 0x35);
    StepUnrolled(0x340A_C5E3, 0x36, 0x36);
  }

  lemma MiddleDigits()
    ensures Fold(Step, 0x77B7_9C2D, DIGITS[3..]) == Fold(Step, 0xF68D_2C9E, DIGITS[3..][3..])
  {
    MiddleSteps();
    var d := DIGITS[3..];
    assert d[0] == 0x34 && d[1] == 0x35 && d[2] == 0x36;
    ThreeSteps(Step, d, 0x77B7_9C2D, 0x641C_1F5C, 0x340A_C5E3, 0xF68D_2C9E);
  }

  lemma LastSteps()
    ensures Step(0xF68D_2C9E, 0x37) == 0xAFFC_9660
    ensures Step(0xAFFC_9660, 0x38) == 0x651F_2550
    ensures Step(0x651F_2550, 0x39) == 0x340B_C6D9
  {
    DigitBits();
    StepUnrolled(0xF68D_2C9E, 0x37, 0x37);
    StepUnrolled(0xAFFC_9660, 0x38, 0x38);
    StepUnrolled(0x651F_2550, 0x39, 0x39);
  }

  lemma LastDigits()
    ensures Fold(Step, 0xF68D_2C9E, DIGITS[3..][3..]) == Fold(Step, 0x340B_C6D9, DIGITS[3..][3..][3..])
  {
    LastSteps();
    var d := DIGITS[3..][3..];
    assert d[0] == 0x37 && d[1] == 0x38 && d[2] == 0x39;
    ThreeSteps(Step, d, 0xF68D_2C9E, 0xAFFC_9660, 0x651F_2550, 0x340B_C6D9);
  }

  lemma ShortVectors()
    ensures Checksum([]) == 0 && Checksum([0]) == 0xD202_EF8D
  {
    assert Bits(0) == 0;
    StepUnrolled(0xFFFF_FFFF, 0, 0);
  }

  /** The check value of CRC-32, for the digits 1 to 9, and those of the shortest inputs. */
  lemma KnownVectors()
    ensures Checksum(DIGITS) == 0xCBF4_3926
    ensures Checksum([]) == 0 && Checksum([0]) == 0xD202_EF8D
  {
    ShortVectors();
    FirstDigits();
    MiddleDigits();
    LastDigits();
    NineSteps(Step, 0xFFFF_FFFF, 0x77B7_9C2D, 0xF68D_2C9E, 0x340B_C6D9);
  }

  // ----- the checksum as a number -------------------------------------------------------------

  function Value(data: seq<Byte>): nat
  {
    Checksum(data) as int
  }

  method CrcNumber(data: seq<Byte>) returns (n: nat)
    ensures n == Value(data)
  {
    var r := Crc(data);
    return r as int;
  }

  /** What a client relies on: a 32-bit number that betrays any change within four consecutive bytes. */
  ghost predicate Detecting(crc: seq<Byte> -> nat)
  {
    && (forall a :: crc(a) < 0x1_0000_0000)
    && (forall a, b, at: nat :: crc(a) == crc(b) && WithinFour(a, b, at) ==> a == b)
  }

  /** a and b differ at most within the four bytes from `at` on. */
  ghost predicate WithinFour(a: seq<Byte>, b: seq<Byte>, at: nat)
  {
    |a| == |b| && at <= |a| && forall i | 0 <= i < |a| && !(at <= i < at + 4) :: a[i] == b[i]
  }

  lemma ValueDetects(a: seq<Byte>, b: seq<Byte>, at: nat)
    requires WithinFour(a, b, at) && a != b
    ensures Value(a) != Value(b)
  {
    ChecksumDetects(a, b, at);
    if Value(a) == Value(b) {
      AsNumberInjective(Checksum(a), Checksum(b));
    }
  }

  lemma ChecksumDetecting()
    ensures Detecting(Value)
  {
    forall a: seq<Byte>
      ensures Value(a) < 0x1_0000_0000
    {
    }
    forall a, b, at: nat | Value(a) == Value(b) && WithinFour(a, b, at)
      ensures a == b
    {
      if a != b { ValueDetects(a, b, at); }
    }
  }
}
