/** Authoring a disk: protective MBR, two copies of the GPT, an ESP and a data partition. */
module GptWriter {
  import opened Common
  import opened Crc32
  import opened Bytes
  import opened BlockDevice
  import opened Gpt

  // ----- placement ----------------------------------------------------------------------------

  ghost predicate IsMultiple(n: nat, a: nat)
  {
    exists q: nat :: n == q * a
  }

  /** x rounded up to a multiple of a, unless that leaves the u64 range. */
  function AlignUp(x: nat, a: nat): (r: Option<nat>)
    requires a >= 1
    ensures r.Some? <==> x + a - 1 <= U64_MAX
    ensures r.Some? ==> IsMultiple(r.value, a) && x <= r.value < x + a
  {
    if x + a - 1 > U64_MAX then None
    else
      assert IsMultiple((x + a - 1) / a * a, a);
      Some((x + a - 1) / a * a)
  }

  datatype Placement = Placement(total: nat, espLast: nat, dataFirst: nat)
  {
    function BackupHeader(): int { total - 1 }
    function BackupArray(): int { total - 33 }
    function LastUsable(): int { total - 34 }
    function Esp(espSectors: nat): Extent { Extent(ALIGNMENT, espSectors) }
    function Data(): Extent
      requires dataFirst <= LastUsable() + 1
    {
      Extent(dataFirst, LastUsable() - dataFirst + 1)
    }
  }

  /** The layout arithmetic of write_layout, with its checks. */
  function Place(total: nat, espSectors: U64): (r: Option<Placement>)
    ensures r.Some? ==>
              var p := r.value;
              && p.total == total >= 68
              && p.espLast == ALIGNMENT + espSectors - 1
              && p.espLast < p.dataFirst <= p.LastUsable()
              && IsMultiple(p.dataFirst, ALIGNMENT) && p.dataFirst < p.espLast + 1 + ALIGNMENT
  {
    if total < 68 || ALIGNMENT + espSectors > U64_MAX then None
    else
      var espLast := ALIGNMENT + espSectors - 1;
      var first := AlignUp(espLast + 1, ALIGNMENT);
      if first.None? then None
      else if !(espLast < first.value <= total - 34) then None
      else Some(Placement(total, espLast, first.value))
  }

  // ----- the sectors --------------------------------------------------------------------------

  /** The header before its checksum field: signature, revision 1.0, header size. */
  const FRONT: seq<Byte> := SIGNATURE + [0, 0, 1, 0] + [92, 0, 0, 0]

  datatype HeaderInfo = HeaderInfo(myLba: nat, alternate: nat, lastUsable: nat, entryLba: nat, arrayCrc: nat)

  /** The header after its checksum field. */
  function Back(i: HeaderInfo, diskGuid: seq<Byte>): (r: seq<Byte>)
    requires |diskGuid| == 16
    ensures |r| == 72
  {
    Zeros(4) + LittleEndian(i.myLba, 8) + LittleEndian(i.alternate, 8) + LittleEndian(34, 8)
    + LittleEndian(i.lastUsable, 8) + diskGuid + LittleEndian(i.entryLba, 8)
    + LittleEndian(128, 4) + LittleEndian(128, 4) + LittleEndian(i.arrayCrc, 4)
  }

  function HeaderSector(crc: seq<Byte> -> nat, i: HeaderInfo, diskGuid: seq<Byte>): (r: seq<Byte>)
    requires |diskGuid| == 16
    ensures |r| == 512
  {
    var sum := crc(FRONT + Zeros(4) + Back(i, diskGuid));
    FRONT + LittleEndian(sum, 4) + Back(i, diskGuid) + Zeros(420)
  }

  /** UTF-16 code units of a name of the Basic Multilingual Plane, 36 at most, padded with zeros. */
  function NameUnits(name: string, i: nat): (r: seq<Byte>)
    ensures |r| == if i >= 36 then 0 else 72 - 2 * i
    decreases 36 - i
  {
    if i >= 36 then []
    else if i >= |name| then Zeros(72 - 2 * i)
    else
      var u := name[i] as int;
      LittleEndian(if u <= 0xFFFF then u else 0xFFFD, 2) + NameUnits(name, i + 1)
  }

  function EntryBytes(typeGuid: seq<Byte>, unique: seq<Byte>, first: nat, last: nat, name: string): (r: seq<Byte>)
    requires |typeGuid| == |unique| == 16
    ensures |r| == 128
  {
    typeGuid + unique + LittleEndian(first, 8) + LittleEndian(last, 8) + Zeros(8) + NameUnits(name, 0)
  }

  datatype Guids = Guids(disk: seq<Byte>, esp: seq<Byte>, data: seq<Byte>)
  {
    predicate Sized() { |disk| == |esp| == |data| == 16 }
  }

  function ArrayBytes(p: Placement, g: Guids): (r: seq<Byte>)
    requires g.Sized() && p.LastUsable() >= 0
    ensures |r| == ARRAY_SIZE
  {
    EntryBytes(ESP_TYPE, g.esp, ALIGNMENT, p.espLast, "EFI System")
    + EntryBytes(DATA_TYPE, g.data, p.dataFirst, p.LastUsable(), "ruos-data")
    + Zeros(16128)
  }

  /** One record of type 0xEE over the whole disk. */
  function MbrSector(total: nat): (r: seq<Byte>)
    requires total >= 1
    ensures |r| == 512
  {
    var size := if total - 1 < 0xFFFF_FFFF then total - 1 else 0xFFFF_FFFF;
    Zeros(446) + [0x00, 0x00, 0x02, 0x00, 0xEE, 0xFF, 0xFF, 0xFF]
    + LittleEndian(1, 4) + LittleEndian(size, 4) + Zeros(48) + [0x55, 0xAA]
  }

  // ----- filling the buffers ------------------------------------------------------------------

  /** Fills the next bytes of a buffer that holds a, then b, then n zeros. */
  method FillNext(h: array<Byte>, off: nat, s: seq<Byte>, ghost a: seq<Byte>, ghost b: seq<Byte>, ghost n: nat)
    requires off == |a| + |b| && |s| <= n && h[..] == a + b + Zeros(n)
    modifies h
    ensures h[..] == a + (b + s) + Zeros(n - |s|)
  {
    Fill(h, off, s);
    PatchedFront(a + b, s, n);
    assert (a + b) + s == a + (b + s);
  }

  lemma ZerosSplit(a: seq<Byte>, m: nat, n: nat)
    requires m <= n
    ensures a + Zeros(n) == (a + Zeros(m)) + Zeros(n - m)
  {
  }

  /** The fields before the checksum. */
  method FillFront(h: array<Byte>, a: seq<Byte>, b: seq<Byte>, c: seq<Byte>)
    requires |a| == 8 && |b| == |c| == 4 && h[..] == Zeros(512)
    modifies h
    ensures h[..] == a + b + c + Zeros(496)
  {
    PatchedFront([], a, 512);
    assert [] + Zeros(512) == Zeros(512) && [] + a == a;
    Fill(h, 0, a);
    PatchedFront(a, b, 504);
    Fill(h, 8, b);
    PatchedFront(a + b, c, 500);
    Fill(h, 12, c);
  }

  method BuildHeader(i: HeaderInfo, diskGuid: seq<Byte>) returns (r: seq<Byte>)
    requires |diskGuid| == 16
    ensures r == HeaderSector(Value, i, diskGuid)
  {
    var h := new Byte[512](_ => 0);
    assert h[..] == Zeros(512);
    FillFront(h, SIGNATURE, [0, 0, 1, 0], [92, 0, 0, 0]);
    ghost var a, back := FRONT + Zeros(4), Back(i, diskGuid);
    ZerosSplit(FRONT, 4, 496);
    ZerosSplit(a, 4, 492);
    FillBack(h, i, diskGuid, a);
    assert h[0..92] == (a + back + Zeros(420))[..92] == a + back;
    var sum := CrcNumber(h[0..92]);
    PatchedMiddle(FRONT, Zeros(4), LittleEndian(sum, 4), back, Zeros(420));
    Fill(h, 16, LittleEndian(sum, 4));
    return h[..];
  }

  lemma PatchedMiddle(a: seq<Byte>, x: seq<Byte>, y: seq<Byte>, b: seq<Byte>, c: seq<Byte>)
    requires |x| == |y|
    ensures Patched(a + x + b + c, |a|, y) == a + y + b + c
  {
  }

  /** The fields after the checksum. */
  method FillBack(h: array<Byte>, i: HeaderInfo, diskGuid: seq<Byte>, ghost a: seq<Byte>)
    requires |diskGuid| == 16 && |a| == 20 && h[..] == a + Zeros(4) + Zeros(488)
    modifies h
    ensures h[..] == a + Back(i, diskGuid) + Zeros(420)
  {
    ghost var b := Zeros(4);
    FillNext(h, 24, LittleEndian(i.myLba, 8), a, b, 488);
    b := b + LittleEndian(i.myLba, 8);
    FillNext(h, 32, LittleEndian(i.alternate, 8), a, b, 480);
    b := b + LittleEndian(i.alternate, 8);
    FillNext(h, 40, LittleEndian(34, 8), a, b, 472);
    b := b + LittleEndian(34, 8);
    FillNext(h, 48, LittleEndian(i.lastUsable, 8), a, b, 464);
    b := b + LittleEndian(i.lastUsable, 8);
    FillNext(h, 56, diskGuid, a, b, 456);
    b := b + diskGuid;
    FillNext(h, 72, LittleEndian(i.entryLba, 8), a, b, 440);
    b := b + LittleEndian(i.entryLba, 8);
    FillNext(h, 80, LittleEndian(128, 4), a, b, 432);
    b := b + LittleEndian(128, 4);
    FillNext(h, 84, LittleEndian(128, 4), a, b, 428);
    b := b + LittleEndian(128, 4);
    FillNext(h, 88, LittleEndian(i.arrayCrc, 4), a, b, 424);
  }

  // ----- the disk -----------------------------------------------------------------------------

  /** What write_layout puts on the disk. */
  datatype Tables = Tables(arr: seq<Byte>, primary: seq<Byte>, mbr: seq<Byte>, backup: seq<Byte>)
  {
    predicate Sized() { |arr| == ARRAY_SIZE && |primary| == |mbr| == |backup| == 512 }
  }

  function PrimaryInfo(p: Placement, sum: nat): HeaderInfo
    requires p.total >= 68
  {
    HeaderInfo(1, p.BackupHeader(), p.LastUsable(), 2, sum)
  }

  function BackupInfo(p: Placement, sum: nat): HeaderInfo
    requires p.total >= 68
  {
    HeaderInfo(p.BackupHeader(), 1, p.LastUsable(), p.BackupArray(), sum)
  }

  function TablesFor(crc: seq<Byte> -> nat, p: Placement, g: Guids): (t: Tables)
    requires g.Sized() && p.total >= 68
    ensures t.Sized()
  {
    var arr := ArrayBytes(p, g);
    Tables(arr,
           HeaderSector(crc, PrimaryInfo(p, crc(arr)), g.disk),
           MbrSector(p.total),
           HeaderSector(crc, BackupInfo(p, crc(arr)), g.disk))
  }

  /** Both copies of the table are in place. */
  ghost predicate HoldsTables(disk: seq<Byte>, total: nat, t: Tables)
  {
    && t.Sized() && total >= 68
    && |disk| == total * 512
    && disk[512..1024] == t.primary
    && disk[1024..17408] == t.arr
    && disk[(total - 33) * 512..(total - 1) * 512] == t.arr
    && disk[(total - 1) * 512..] == t.backup
  }

  /** The disk after a successful write_layout: MBR and tables written, everything between them kept. */
  ghost predicate LaidOut(before: seq<Byte>, after: seq<Byte>, total: nat, t: Tables)
  {
    && HoldsTables(after, total, t)
    && |before| == |after|
    && after[..512] == t.mbr
    && after[17408..(total - 33) * 512] == before[17408..(total - 33) * 512]
  }

  /** The five writes, in order. */
  function FiveWrites(disk: seq<Byte>, total: nat, t: Tables): (r: seq<Byte>)
    requires total >= 68 && |disk| == total * 512 && t.Sized()
    ensures |r| == |disk|
  {
    var d1 := Patched(disk, 1024, t.arr);
    var d2 := Patched(d1, 512, t.primary);
    var d3 := Patched(d2, 0, t.mbr);
    var d4 := Patched(d3, (total - 33) * 512, t.arr);
    Patched(d4, (total - 1) * 512, t.backup)
  }

  lemma FiveWritesLayOut(disk: seq<Byte>, total: nat, t: Tables)
    requires total >= 68 && |disk| == total * 512 && t.Sized()
    ensures LaidOut(disk, FiveWrites(disk, total, t), total, t)
  {
    var backupArr, backupHdr := (total - 33) * 512, (total - 1) * 512;
    var d1 := Patched(disk, 1024, t.arr);
    var d2 := Patched(d1, 512, t.primary);
    var d3 := Patched(d2, 0, t.mbr);
    TwoWrites(d3, backupArr, t.arr, backupHdr, t.backup, 0, 512);
    TwoWrites(d3, backupArr, t.arr, backupHdr, t.backup, 512, 1024);
    TwoWrites(d3, backupArr, t.arr, backupHdr, t.backup, 1024, 17408);
    TwoWrites(d3, backupArr, t.arr, backupHdr, t.backup, 17408, backupArr);
    TwoWrites(d1, 512, t.primary, 0, t.mbr, 1024, 17408);
    TwoWrites(d1, 512, t.primary, 0, t.mbr, 17408, backupArr);
    PatchedSlices(disk, 1024, t.arr, 17408, backupArr);
  }

  /** Two writes apart from each other, seen from a region apart from both. */
  lemma TwoWrites(d: seq<Byte>, off: nat, s: seq<Byte>, off': nat, s': seq<Byte>, lo: nat, hi: nat)
    requires off + |s| <= |d| && off' + |s'| <= |d| && lo <= hi <= |d|
    requires off + |s| <= off' || off' + |s'| <= off
    requires (hi <= off || off + |s| <= lo) && (hi <= off' || off' + |s'| <= lo)
    ensures var d' := Patched(Patched(d, off, s), off', s');
            && d'[lo..hi] == d[lo..hi] && d'[off..off + |s|] == s && d'[off'..off' + |s'|] == s'
  {
    var e := Patched(d, off, s);
    PatchedSlices(d, off, s, lo, hi);
    PatchedSlices(e, off', s', lo, hi);
    PatchedSlices(e, off', s', off, off + |s|);
  }

  /** The n commands from the k-th on succeed. */
  ghost predicate Reliable(fails: nat -> bool, k: nat, n: nat)
  {
    forall i: nat | k <= i < k + n :: !fails(i)
  }

  /** The sectors between the two tables are as they were. */
  ghost predicate BetweenKept(before: seq<Byte>, after: seq<Byte>, total: nat)
  {
    |before| == |after| && forall i | 17408 <= i < (total - 33) * 512 && i < |before| :: after[i] == before[i]
  }

  lemma WriteKeepsBetween(before: seq<Byte>, mid: seq<Byte>, after: seq<Byte>, total: nat, lo: nat, hi: nat)
    requires BetweenKept(before, mid, total) && OnlyWithin(mid, after, lo, hi) && (hi <= 17408 || (total - 33) * 512 <= lo)
    ensures BetweenKept(before, after, total)
  {
  }

  /** One of these writes, whatever its outcome. */
  method WriteTable(dev: Device, lba: nat, buf: seq<Byte>, total: nat, ghost before: seq<Byte>) returns (w: Status)
    requires dev.Valid() && dev.BlockCount() == total && |buf| % 512 == 0 && lba + |buf| / 512 <= total
    requires lba * 512 + |buf| <= 17408 || total - 33 <= lba
    requires BetweenKept(before, dev.bytes, total)
    modifies dev
    ensures dev.Valid() && |dev.bytes| == |old(dev.bytes)| && dev.commands == old(dev.commands) + 1
    ensures w.Failed? <==> dev.fails(old(dev.commands))
    ensures w.Done? ==> dev.bytes == Patched(old(dev.bytes), lba * 512, buf)
    ensures BetweenKept(before, dev.bytes, total)
  {
    ghost var mid := dev.bytes;
    w := dev.WriteBlocks(lba, buf);
    WriteKeepsBetween(before, mid, dev.bytes, total, lba * 512, lba * 512 + |buf|);
  }

  /** The writes of write_layout; the first one that fails ends it. */
  method WriteAll(dev: Device, total: nat, t: Tables) returns (ok: bool)
    requires dev.Valid() && dev.BlockCount() == total >= 68 && t.Sized()
    modifies dev
    ensures dev.Valid() && |dev.bytes| == |old(dev.bytes)|
    ensures ok ==> LaidOut(old(dev.bytes), dev.bytes, total, t)
    ensures BetweenKept(old(dev.bytes), dev.bytes, total)
    ensures Reliable(dev.fails, old(dev.commands), 5) <==> ok
  {
    FiveWritesLayOut(dev.bytes, total, t);
    ghost var before := dev.bytes;
    var w := WriteTable(dev, 2, t.arr, total, before);
    if w.Failed? { return false; }
    w := WriteTable(dev, 1, t.primary, total, before);
    if w.Failed? { return false; }
    w := WriteTable(dev, 0, t.mbr, total, before);
    if w.Failed? { return false; }
    w := WriteTable(dev, total - 33, t.arr, total, before);
    if w.Failed? { return false; }
    w := WriteTable(dev, total - 1, t.backup, total, before);
    return w.Done?;
  }

  method BuildTables(p: Placement, g: Guids) returns (t: Tables)
    requires g.Sized() && p.total >= 68
    ensures t.Sized() && t == TablesFor(Value, p, g)
  {
    var arr := ArrayBytes(p, g);
    var sum := CrcNumber(arr);
    var primary := BuildHeader(PrimaryInfo(p, sum), g.disk);
    var backup := BuildHeader(BackupInfo(p, sum), g.disk);
    return Tables(arr, primary, MbrSector(p.total), backup);
  }

  method Author(dev: Device, p: Placement, g: Guids) returns (ok: bool)
    requires dev.Valid() && g.Sized() && dev.BlockCount() == p.total >= 68
    modifies dev
    ensures dev.Valid() && |dev.bytes| == |old(dev.bytes)|
    ensures ok ==> LaidOut(old(dev.bytes), dev.bytes, p.total, TablesFor(Value, p, g))
    ensures BetweenKept(old(dev.bytes), dev.bytes, p.total)
    ensures Reliable(dev.fails, old(dev.commands), 5) <==> ok
  {
    var t := BuildTables(p, g);
    ok := WriteAll(dev, p.total, t);
  }

  method WriteLayout(dev: Device, espSectors: U64, g: Guids) returns (r: Outcome)
    requires dev.Valid() && g.Sized()
    modifies dev
    ensures dev.Valid() && |dev.bytes| == |old(dev.bytes)|
    ensures dev.blockSize != SECTOR ==> r == Refused(IoError) && dev.bytes == old(dev.bytes)
    ensures dev.blockSize == SECTOR && Place(old(dev.BlockCount()), espSectors).None? ==>
              r == Refused(TooSmall) && dev.bytes == old(dev.bytes)
    ensures dev.blockSize == SECTOR && Place(old(dev.BlockCount()), espSectors).Some? ==>
              var p := Place(old(dev.BlockCount()), espSectors).value;
              && (r == if Reliable(dev.fails, old(dev.commands), 5) then Authored(p.Esp(espSectors), p.Data()) else Refused(IoError))
              && (r.Authored? ==> LaidOut(old(dev.bytes), dev.bytes, p.total, TablesFor(Value, p, g)))
              && BetweenKept(old(dev.bytes), dev.bytes, p.total)
  {
    if dev.blockSize != SECTOR { return Refused(IoError); }
    var place := Place(dev.BlockCount(), espSectors);
    if place.None? { return Refused(TooSmall); }
    var p := place.value;
    var ok := Author(dev, p, g);
    if !ok { return Refused(IoError); }
    return Authored(p.Esp(espSectors), p.Data());
  }
}
