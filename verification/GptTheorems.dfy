/** What write_layout and parse promise each other. */
module GptTheorems {
  import opened Common
  import opened Crc32
  import opened Bytes
  import opened BlockDevice
  import opened Gpt
  import opened GptWriter

  // ----- placement ----------------------------------------------------------------------------

  /** First byte and end of an extent. */
  function Lo(e: Extent): nat { e.firstLba * 512 }
  function Hi(e: Extent): nat { (e.firstLba + e.sectors) * 512 }

  /** The partitions are disjoint, the data partition is not empty, and both lie between the two
      copies of the table: sectors 34 up to the 33 last. */
  lemma PartitionsClearOfTables(total: nat, espSectors: U64)
    requires Place(total, espSectors).Some?
    ensures var p := Place(total, espSectors).value;
            var esp, data := p.Esp(espSectors), p.Data();
            && 34 <= esp.firstLba && esp.firstLba + esp.sectors <= data.firstLba
            && 1 <= data.sectors && data.firstLba + data.sectors == total - 33
            && esp.firstLba % 2048 == 0 && data.firstLba % 2048 == 0
  {
    var p := Place(total, espSectors).value;
    var q: nat :| p.dataFirst == q * 2048;
  }

  /** The layout is refused exactly when no aligned sector leaves the ESP whole before it and one
      usable sector after it. */
  lemma PlaceIff(total: nat, espSectors: U64)
    requires total <= U64_MAX
    ensures Place(total, espSectors).Some? <==>
            exists q: nat :: 2048 + espSectors <= q * 2048 <= total - 34
  {
    var x := 2048 + espSectors;
    if Place(total, espSectors).Some? {
      var p := Place(total, espSectors).value;
      var q: nat :| p.dataFirst == q * 2048;
      assert 2048 + espSectors <= q * 2048 <= total - 34;
    }
    if q: nat :| x <= q * 2048 <= total - 34 {
      assert x + 2047 <= U64_MAX;
      assert (x + 2047) / 2048 * 2048 <= q * 2048;
    }
  }

  // ----- a written header reads back ----------------------------------------------------------

  /** The places of the fields that parse reads. */
  lemma FieldSlices(c: seq<Byte>, i: HeaderInfo, guid: seq<Byte>, z: seq<Byte>)
    requires |c| == 4 && |guid| == 16 && |z| == 420
    ensures var h := FRONT + c + Back(i, guid) + z;
            && |h| == 512 && h[0..8] == SIGNATURE && h[12..16] == [92, 0, 0, 0] && h[16..20] == c
            && h[72..80] == LittleEndian(i.entryLba, 8) && h[80..84] == LittleEndian(128, 4)
            && h[84..88] == LittleEndian(128, 4) && h[88..92] == LittleEndian(i.arrayCrc, 4)
  {
    FrontSlices();
    BackSlices(i, guid);
    SlicesOfFour(FRONT, c, Back(i, guid), z);
  }

  lemma FrontSlices()
    ensures |FRONT| == 16 && FRONT[0..8] == SIGNATURE && FRONT[12..16] == [92, 0, 0, 0]
  {
  }

  lemma SlicesOfFour(f: seq<Byte>, c: seq<Byte>, b: seq<Byte>, z: seq<Byte>)
    requires |f| == 16 && |c| == 4 && |b| == 72 && |z| == 420
    ensures var h := f + c + b + z;
            && |h| == 512 && h[0..8] == f[0..8] && h[12..16] == f[12..16] && h[16..20] == c
            && h[72..80] == b[52..60] && h[80..84] == b[60..64] && h[84..88] == b[64..68] && h[88..92] == b[68..72]
  {
    assert f + c + b + z == f + c + (b + z) == [] + f + (c + b + z);
    SliceOfMiddle([], f, c + b + z, 0, 8);
    SliceOfMiddle([], f, c + b + z, 12, 16);
    SliceOfMiddle(f, c, b + z, 0, 4);
    SliceOfMiddle(f + c, b, z, 52, 60);
    SliceOfMiddle(f + c, b, z, 60, 64);
    SliceOfMiddle(f + c, b, z, 64, 68);
    SliceOfMiddle(f + c, b, z, 68, 72);
  }

  lemma BackSlices(i: HeaderInfo, guid: seq<Byte>)
    requires |guid| == 16
    ensures var b := Back(i, guid);
            && b[52..60] == LittleEndian(i.entryLba, 8) && b[60..64] == LittleEndian(128, 4)
            && b[64..68] == LittleEndian(128, 4) && b[68..72] == LittleEndian(i.arrayCrc, 4)
  {
    var a := Zeros(4) + LittleEndian(i.myLba, 8) + LittleEndian(i.alternate, 8) + LittleEndian(34, 8)
             + LittleEndian(i.lastUsable, 8) + guid;
    Tail(a, LittleEndian(i.entryLba, 8), LittleEndian(128, 4), LittleEndian(128, 4), LittleEndian(i.arrayCrc, 4));
  }

  lemma Tail(a: seq<Byte>, e: seq<Byte>, n: seq<Byte>, s: seq<Byte>, c: seq<Byte>)
    requires |a| == 52 && |e| == 8 && |n| == |s| == |c| == 4
    ensures var b := a + e + n + s + c;
            b[52..60] == e && b[60..64] == n && b[64..68] == s && b[68..72] == c
  {
  }

  lemma SmallNumbers()
    ensures Number([92, 0, 0, 0]) == 92 && Number(LittleEndian(128, 4)) == 128
  {
    var b: seq<Byte> := [92, 0, 0, 0];
    assert b[1..] == [0, 0, 0] && b[1..][1..] == [0, 0] && b[1..][1..][1..] == [0];
    assert Number([0, 0, 0]) == 0;
    Powers();
    NumberOfLittleEndian(128, 4);
  }

  /** The checksum field does not cover itself. */
  lemma CoveredIs(f: seq<Byte>, c: seq<Byte>, b: seq<Byte>, z: seq<Byte>)
    requires |f| == 16 && |c| == 4 && |b| == 72 && |z| == 420
    ensures Patched(f + c + b + z, 16, Zeros(4))[..92] == f + Zeros(4) + b
  {
    PatchedMiddle(f, c, Zeros(4), b, z);
  }

  lemma HeaderReadsBack(crc: seq<Byte> -> nat, i: HeaderInfo, guid: seq<Byte>)
    requires |guid| == 16 && forall a :: crc(a) < 0x1_0000_0000
    requires i.entryLba <= U64_MAX && i.arrayCrc < 0x1_0000_0000
    ensures ParseHeader(crc, HeaderSector(crc, i, guid)) == Some(Header(i.entryLba, 128, i.arrayCrc))
  {
    var b := Back(i, guid);
    var sum := crc(FRONT + Zeros(4) + b);
    var c := LittleEndian(sum, 4);
    var h := FRONT + c + b + Zeros(420);
    FieldSlices(c, i, guid, Zeros(420));
    CoveredIs(FRONT, c, b, Zeros(420));
    SmallNumbers();
    Powers();
    NumberOfLittleEndian(sum, 4);
    NumberOfLittleEndian(i.entryLba, 8);
    NumberOfLittleEndian(i.arrayCrc, 4);
  }

  // ----- a written array reads back -----------------------------------------------------------

  lemma EntrySlices(t: seq<Byte>, u: seq<Byte>, first: nat, last: nat, name: string)
    requires |t| == |u| == 16 && first <= U64_MAX && last <= U64_MAX
    ensures PartitionOf(EntryBytes(t, u, first, last, name)) == GptPartition(t, first, last)
  {
    var f, l := LittleEndian(first, 8), LittleEndian(last, 8);
    EntryParts(t, u, f, l, Zeros(8), NameUnits(name, 0));
    Powers();
    NumberOfLittleEndian(first, 8);
    NumberOfLittleEndian(last, 8);
  }

  lemma EntryParts(t: seq<Byte>, u: seq<Byte>, f: seq<Byte>, l: seq<Byte>, a: seq<Byte>, n: seq<Byte>)
    requires |t| == |u| == 16 && |f| == |l| == |a| == 8 && |n| == 72
    ensures var e := t + u + f + l + a + n;
            |e| == 128 && e[0..16] == t && e[32..40] == f && e[40..48] == l
  {
  }

  /** Zeroed entries add nothing. */
  lemma {:induction false} ZeroEntries(a: seq<Byte>, n: nat)
    requires 2 <= n && |a| >= n * 128
    requires forall k | 256 <= k < n * 128 :: a[k] == 0
    ensures Collect(Found, a, n) == Collect(Found, a, 2)
  {
    if n > 2 {
      ZeroEntries(a, n - 1);
      ZeroEntry(Entry(a, n - 1));
    }
  }

  lemma ZeroEntry(e: seq<Byte>)
    requires |e| == 128 && forall k | 0 <= k < 128 :: e[k] == 0
    ensures Found(e) == []
  {
    assert e[0..16] == Zeros(16);
  }

  lemma TwoEntries(e: seq<Byte>, f: seq<Byte>, z: seq<Byte>)
    requires |e| == |f| == 128
    ensures Collect(Found, e + f + z, 2) == Found(e) + Found(f)
  {
    var a := e + f + z;
    assert Entry(a, 0) == e && Entry(a, 1) == f;
    assert Collect(Found, a, 0) == [];
    assert Collect(Found, a, 1) == Found(e);
  }

  function EspPartition(p: Placement): GptPartition
  {
    GptPartition(ESP_TYPE, ALIGNMENT, p.espLast)
  }

  function DataPartition(p: Placement): GptPartition
    requires p.total >= 68
  {
    GptPartition(DATA_TYPE, p.dataFirst, p.LastUsable())
  }

  lemma TwoThenZeros(e: seq<Byte>, f: seq<Byte>, z: seq<Byte>)
    requires |e| == |f| == 128 && |z| == 16128 && forall k | 0 <= k < |z| :: z[k] == 0
    ensures Collect(Found, e + f + z, 128) == Found(e) + Found(f)
  {
    TwoEntries(e, f, z);
    ZeroEntries(e + f + z, 128);
  }

  lemma TwoFound(e: seq<Byte>, f: seq<Byte>, z: seq<Byte>, p: GptPartition, q: GptPartition)
    requires |e| == |f| == 128 && |z| == 16128 && forall k | 0 <= k < |z| :: z[k] == 0
    requires Found(e) == [p] && Found(f) == [q]
    ensures Collect(Found, e + f + z, 128) == [p, q]
  {
    TwoThenZeros(e, f, z);
  }

  lemma EntryFound(t: seq<Byte>, u: seq<Byte>, first: nat, last: nat, name: string)
    requires |t| == |u| == 16 && first <= U64_MAX && last <= U64_MAX && t[0] != 0
    ensures Found(EntryBytes(t, u, first, last, name)) == [GptPartition(t, first, last)]
  {
    EntrySlices(t, u, first, last, name);
    TypeNotZero(EntryBytes(t, u, first, last, name), t, GptPartition(t, first, last));
  }

  lemma TypeNotZero(e: seq<Byte>, t: seq<Byte>, part: GptPartition)
    requires |e| == 128 && |t| == 16 && t[0] != 0 && PartitionOf(e) == part && part.typeGuid == t
    ensures Found(e) == [part]
  {
    assert e[0..16][0] == t[0] != 0;
  }

  lemma ArrayReadsBack(p: Placement, g: Guids)
    requires g.Sized() && 68 <= p.total <= U64_MAX && p.espLast <= U64_MAX && p.dataFirst <= U64_MAX
    ensures Collect(Found, ArrayBytes(p, g), 128) == [EspPartition(p), DataPartition(p)]
  {
    EntryFound(ESP_TYPE, g.esp, ALIGNMENT, p.espLast, "EFI System");
    EntryFound(DATA_TYPE, g.data, p.dataFirst, p.LastUsable(), "ruos-data");
    TwoFound(EntryBytes(ESP_TYPE, g.esp, ALIGNMENT, p.espLast, "EFI System"),
             EntryBytes(DATA_TYPE, g.data, p.dataFirst, p.LastUsable(), "ruos-data"), Zeros(16128),
             EspPartition(p), DataPartition(p));
  }

  // ----- both copies lead to the same partitions ----------------------------------------------

  /** Tables that read back as the given partitions, from either copy. */
  ghost predicate Readable(crc: seq<Byte> -> nat, total: nat, t: Tables, parts: seq<GptPartition>)
  {
    && t.Sized() && total >= 68 && parts != []
    && ParseHeader(crc, t.primary) == Some(Header(2, 128, crc(t.arr)))
    && ParseHeader(crc, t.backup) == Some(Header(total - 33, 128, crc(t.arr)))
    && Collect(Found, t.arr, 128) == parts
  }

  ghost predicate Fits64(p: Placement)
  {
    68 <= p.total <= U64_MAX && p.espLast <= U64_MAX && p.dataFirst <= U64_MAX
  }

  lemma PrimaryReadable(crc: seq<Byte> -> nat, p: Placement, g: Guids, t: Tables)
    requires g.Sized() && Fits64(p) && (forall a :: crc(a) < 0x1_0000_0000) && t == TablesFor(crc, p, g)
    ensures ParseHeader(crc, t.primary) == Some(Header(2, 128, crc(t.arr)))
  {
    HeaderReadsBack(crc, PrimaryInfo(p, crc(ArrayBytes(p, g))), g.disk);
  }

  lemma BackupReadable(crc: seq<Byte> -> nat, p: Placement, g: Guids, t: Tables)
    requires g.Sized() && Fits64(p) && (forall a :: crc(a) < 0x1_0000_0000) && t == TablesFor(crc, p, g)
    ensures ParseHeader(crc, t.backup) == Some(Header(p.total - 33, 128, crc(t.arr)))
  {
    var i := BackupInfo(p, crc(ArrayBytes(p, g)));
    assert Header(i.entryLba, 128, i.arrayCrc) == Header(p.total - 33, 128, crc(ArrayBytes(p, g)));
    HeaderReadsBack(crc, i, g.disk);
  }

  lemma ArrayReadable(crc: seq<Byte> -> nat, p: Placement, g: Guids, t: Tables)
    requires g.Sized() && Fits64(p) && t == TablesFor(crc, p, g)
    ensures t.Sized() && Collect(Found, t.arr, 128) == [EspPartition(p), DataPartition(p)]
  {
    ArrayReadsBack(p, g);
  }

  lemma TablesReadable(crc: seq<Byte> -> nat, p: Placement, g: Guids, t: Tables)
    requires g.Sized() && Fits64(p) && (forall a :: crc(a) < 0x1_0000_0000) && t == TablesFor(crc, p, g)
    ensures Readable(crc, p.total, t, [EspPartition(p), DataPartition(p)])
  {
    PrimaryReadable(crc, p, g, t);
    BackupReadable(crc, p, g, t);
    ArrayReadable(crc, p, g, t);
  }

  lemma ReadsFrom(crc: seq<Byte> -> nat, disk: seq<Byte>, lba: nat, h: seq<Byte>, hd: Header, arr: seq<Byte>)
    requires |h| == 512 && |arr| == ARRAY_SIZE
    requires (lba + 1) * 512 <= |disk| && disk[lba * 512..(lba + 1) * 512] == h
    requires ParseHeader(crc, h) == Some(hd) && hd.num == 128
    requires (hd.entriesLba + 32) * 512 <= |disk| && disk[hd.entriesLba * 512..(hd.entriesLba + 32) * 512] == arr
    ensures ParseAt(crc, disk, lba)
            == if crc(arr) != hd.arrayCrc || Collect(Found, arr, 128) == [] then None else Some(Collect(Found, arr, 128))
  {
    assert disk[hd.entriesLba * 512..hd.entriesLba * 512 + 128 * 128] == arr;
  }

  /** A disk that holds readable tables parses as their partitions, from LBA 1 and from the last. */
  lemma TablesReadBack(crc: seq<Byte> -> nat, disk: seq<Byte>, total: nat, t: Tables, parts: seq<GptPartition>)
    requires Readable(crc, total, t, parts) && HoldsTables(disk, total, t)
    ensures ParseAt(crc, disk, 1) == Some(parts)
    ensures ParseAt(crc, disk, total - 1) == Some(parts)
  {
    var last := total - 1;
    assert disk[last * 512..(last + 1) * 512] == disk[last * 512..];
    ReadsFrom(crc, disk, 1, t.primary, Header(2, 128, crc(t.arr)), t.arr);
    ReadsFrom(crc, disk, last, t.backup, Header(total - 33, 128, crc(t.arr)), t.arr);
  }

  // ----- any writes through the partition views -----------------------------------------------

  /** Each disk comes from the one before by a write, whole or torn, inside one of the two extents:
      this is what Partition.WriteBlocks ensures of every call. */
  ghost predicate PartitionWrites(disks: seq<seq<Byte>>, esp: Extent, data: Extent)
  {
    && |disks| >= 1
    && forall k | 0 <= k < |disks| - 1 ::
         || OnlyWithin(disks[k], disks[k + 1], Lo(esp), Hi(esp))
         || OnlyWithin(disks[k], disks[k + 1], Lo(data), Hi(data))
  }

  lemma WriteKeepsTables(before: seq<Byte>, after: seq<Byte>, total: nat, t: Tables, e: Extent)
    requires HoldsTables(before, total, t) && OnlyWithin(before, after, Lo(e), Hi(e))
    requires 34 <= e.firstLba && e.firstLba + e.sectors <= total - 33
    ensures HoldsTables(after, total, t)
  {
    SameSlice(before, after, Lo(e), Hi(e), 512, 1024);
    SameSlice(before, after, Lo(e), Hi(e), 1024, 17408);
    SameSlice(before, after, Lo(e), Hi(e), (total - 33) * 512, (total - 1) * 512);
    SameSlice(before, after, Lo(e), Hi(e), (total - 1) * 512, total * 512);
    assert before[(total - 1) * 512..] == before[(total - 1) * 512..total * 512];
    assert after[(total - 1) * 512..] == after[(total - 1) * 512..total * 512];
  }

  lemma SameSlice(before: seq<Byte>, after: seq<Byte>, lo: nat, hi: nat, from: nat, to: nat)
    requires OnlyWithin(before, after, lo, hi) && from <= to <= |before| && (to <= lo || hi <= from)
    ensures before[from..to] == after[from..to]
  {
  }

  lemma {:induction false} WritesKeepTables(disks: seq<seq<Byte>>, k: nat, total: nat, t: Tables, esp: Extent, data: Extent)
    requires PartitionWrites(disks, esp, data) && k < |disks| && HoldsTables(disks[0], total, t)
    requires 34 <= esp.firstLba && esp.firstLba + esp.sectors <= total - 33
    requires 34 <= data.firstLba && data.firstLba + data.sectors <= total - 33
    ensures HoldsTables(disks[k], total, t)
  {
    if k > 0 {
      WritesKeepTables(disks, k - 1, total, t, esp, data);
      var j := k - 1;
      assert disks[j + 1] == disks[k];
      if OnlyWithin(disks[j], disks[j + 1], Lo(esp), Hi(esp)) {
        WriteKeepsTables(disks[j], disks[k], total, t, esp);
      } else {
        WriteKeepsTables(disks[j], disks[k], total, t, data);
      }
    }
  }

  lemma PlacedFits(total: nat, espSectors: U64)
    requires total <= U64_MAX && Place(total, espSectors).Some?
    ensures Fits64(Place(total, espSectors).value)
  {
  }

  /** After write_layout, and after any sequence of writes through the two partition views, the disk
      parses as exactly the ESP and the data partition, and so does its backup copy. */
  lemma LayoutSurvivesPartitionWrites(before: seq<Byte>, disks: seq<seq<Byte>>, k: nat, total: nat, espSectors: U64, g: Guids)
    requires total <= U64_MAX && g.Sized() && Place(total, espSectors).Some?
    requires |disks| >= 1 && LaidOut(before, disks[0], total, TablesFor(Value, Place(total, espSectors).value, g))
    requires var p := Place(total, espSectors).value; PartitionWrites(disks, p.Esp(espSectors), p.Data())
    requires k < |disks|
    ensures var p := Place(total, espSectors).value;
            && ParseAt(Value, disks[k], 1) == Some([EspPartition(p), DataPartition(p)])
            && ParseAt(Value, disks[k], total - 1) == Some([EspPartition(p), DataPartition(p)])
  {
    var p := Place(total, espSectors).value;
    var t := TablesFor(Value, p, g);
    ChecksumDetecting();
    PlacedFits(total, espSectors);
    TablesReadable(Value, p, g, t);
    PartitionsClearOfTables(total, espSectors);
    WritesKeepTables(disks, k, total, t, p.Esp(espSectors), p.Data());
    TablesReadBack(Value, disks[k], total, t, [EspPartition(p), DataPartition(p)]);
  }

  /** The extents write_layout reports are the ones parse reports: always for the data partition, and
      for the ESP exactly when it has a sector (an empty one parses as one sector). */
  lemma ReportedExtents(total: nat, espSectors: U64)
    requires total <= U64_MAX && Place(total, espSectors).Some?
    ensures var p := Place(total, espSectors).value;
            && DataPartition(p).firstLba == p.Data().firstLba && DataPartition(p).Sectors() == p.Data().sectors
            && EspPartition(p).firstLba == p.Esp(espSectors).firstLba
            && (EspPartition(p).Sectors() == p.Esp(espSectors).sectors <==> espSectors >= 1)
            && EspPartition(p).typeGuid != DataPartition(p).typeGuid
  {
    var p := Place(total, espSectors).value;
    assert ESP_TYPE[0] != DATA_TYPE[0];
  }

  /** The exception is real: an ESP of no sectors is placed and reported empty, and read back as one. */
  lemma EmptyEspReadsAsOne(total: nat)
    requires total == 4096
    ensures Place(total, 0).Some?
    ensures var p := Place(total, 0).value; p.Esp(0).sectors == 0 && EspPartition(p).Sectors() == 1
  {
  }

  // ----- corruption ---------------------------------------------------------------------------

  /** Two buffers differ, and only from byte lo up to byte hi, at most four bytes on. */
  ghost predicate SmallChange(a: seq<Byte>, b: seq<Byte>, lo: nat, hi: nat)
  {
    a != b && lo <= hi <= lo + 4 && hi <= |a| && OnlyWithin(a, b, lo, hi)
  }

  lemma ChangeDetected(crc: seq<Byte> -> nat, a: seq<Byte>, b: seq<Byte>, lo: nat, hi: nat)
    requires Detecting(crc) && SmallChange(a, b, lo, hi)
    ensures crc(a) != crc(b)
  {
    assert WithinFour(a, b, lo);
  }

  /** A change to a slice of a buffer is a change of that slice. */
  lemma ChangeOfSlice(a: seq<Byte>, b: seq<Byte>, from: nat, to: nat, lo: nat, hi: nat)
    requires from <= to <= |a| && lo <= hi && from + hi <= to && SmallChange(a, b, from + lo, from + hi)
    ensures SmallChange(a[from..to], b[from..to], lo, hi)
  {
    var j :| 0 <= j < |a| && a[j] != b[j];
    assert from + lo <= j < from + hi;
    assert a[from..to][j - from] != b[from..to][j - from];
  }

  /** Header bytes other than the checksum: the checksum no longer matches. */
  lemma HeaderChange(crc: seq<Byte> -> nat, h: seq<Byte>, h': seq<Byte>, lo: nat, hi: nat)
    requires Detecting(crc) && |h| == 512 && SmallChange(h, h', lo, hi)
    requires ParseHeader(crc, h).Some? && HeaderSize(h) == HeaderSize(h')
    requires hi <= HeaderSize(h) && (hi <= 16 || 20 <= lo)
    ensures ParseHeader(crc, h') == None
  {
    CoveredChange(h, h', lo, hi);
    ChangeDetected(crc, Covered(h), Covered(h'), lo, hi);
    SameSlice(h, h', lo, hi, 16, 20);
  }

  lemma CoveredChange(h: seq<Byte>, h': seq<Byte>, lo: nat, hi: nat)
    requires |h| == 512 && SmallChange(h, h', lo, hi) && HeaderSize(h) == HeaderSize(h')
    requires hi <= HeaderSize(h) && (hi <= 16 || 20 <= lo)
    ensures SmallChange(Covered(h), Covered(h'), lo, hi)
  {
    var n := HeaderSize(h);
    assert forall i | 0 <= i < n && !(16 <= i < 20) :: Covered(h)[i] == h[i] && Covered(h')[i] == h'[i];
    assert forall i | 16 <= i < 20 :: Covered(h)[i] == 0 && Covered(h')[i] == 0;
    var j :| 0 <= j < 512 && h[j] != h'[j];
    assert lo <= j < hi;
    assert Covered(h)[j] != Covered(h')[j];
  }

  /** The checksum field itself: what it covers is as before, what it says is not. */
  lemma ChecksumFieldChange(crc: seq<Byte> -> nat, h: seq<Byte>, h': seq<Byte>)
    requires |h| == 512 && h != h' && OnlyWithin(h, h', 16, 20) && ParseHeader(crc, h).Some?
    ensures ParseHeader(crc, h') == None
  {
    SameSlice(h, h', 16, 20, 12, 16);
    assert Patched(h, 16, Zeros(4)) == Patched(h', 16, Zeros(4));
    var j :| 0 <= j < 512 && h[j] != h'[j];
    assert h[16..20][j - 16] != h'[16..20][j - 16];
    if Number(h[16..20]) == Number(h'[16..20]) {
      NumberInjective(h[16..20], h'[16..20]);
    }
  }

  lemma FrontSize(c: seq<Byte>, i: HeaderInfo, guid: seq<Byte>)
    requires |c| == 4 && |guid| == 16
    ensures HeaderSize(FRONT + c + Back(i, guid) + Zeros(420)) == 92
  {
    FieldSlices(c, i, guid, Zeros(420));
    SmallNumbers();
  }

  lemma PrimarySize(crc: seq<Byte> -> nat, p: Placement, g: Guids, t: Tables)
    requires g.Sized() && p.total >= 68 && t == TablesFor(crc, p, g)
    ensures HeaderSize(t.primary) == 92
  {
    var i := PrimaryInfo(p, crc(ArrayBytes(p, g)));
    FrontSize(LittleEndian(crc(FRONT + Zeros(4) + Back(i, g.disk)), 4), i, g.disk);
  }

  lemma RefusedHeader(crc: seq<Byte> -> nat, disk: seq<Byte>, h: seq<Byte>)
    requires |disk| >= 1024 && disk[512..1024] == h && ParseHeader(crc, h) == None
    ensures ParseAt(crc, disk, 1) == None
  {
    assert disk[1 * 512..(1 + 1) * 512] == h;
  }

  /** On a disk with readable tables, any change within four consecutive bytes of the entry array
      makes parse give up. */
  lemma ArrayChangeRefused(crc: seq<Byte> -> nat, disk: seq<Byte>, disk': seq<Byte>, total: nat, t: Tables,
                           parts: seq<GptPartition>, lo: nat, hi: nat)
    requires Detecting(crc) && Readable(crc, total, t, parts) && HoldsTables(disk, total, t)
    requires lo <= hi <= ARRAY_SIZE && SmallChange(disk, disk', 1024 + lo, 1024 + hi)
    ensures ParseAt(crc, disk', 1) == None
  {
    var arr' := disk'[1024..17408];
    ChangeOfSlice(disk, disk', 1024, 17408, lo, hi);
    ChangeDetected(crc, t.arr, arr', lo, hi);
    SameSlice(disk, disk', 1024 + lo, 1024 + hi, 512, 1024);
    ReadsFrom(crc, disk', 1, t.primary, Header(2, 128, crc(t.arr)), arr');
  }

  /** ... and so does any change within four consecutive header bytes clear of the checksum field
      that leaves the clamped header size at 92, and any change of the checksum field alone. */
  lemma HeaderChangeRefused(crc: seq<Byte> -> nat, disk: seq<Byte>, disk': seq<Byte>, total: nat, t: Tables,
                            parts: seq<GptPartition>, lo: nat, hi: nat)
    requires Detecting(crc) && Readable(crc, total, t, parts) && HoldsTables(disk, total, t)
    requires lo <= hi <= 92 && SmallChange(disk, disk', 512 + lo, 512 + hi)
    requires HeaderSize(t.primary) == 92
    requires (16 <= lo && hi <= 20) || ((hi <= 16 || 20 <= lo) && HeaderSize(disk'[512..1024]) == 92)
    ensures ParseAt(crc, disk', 1) == None
  {
    var h' := disk'[512..1024];
    ChangeOfSlice(disk, disk', 512, 1024, lo, hi);
    if 16 <= lo && hi <= 20 {
      ChecksumFieldChange(crc, t.primary, h');
    } else {
      HeaderChange(crc, t.primary, h', lo, hi);
    }
    RefusedHeader(crc, disk', h');
  }

  lemma SizeUntouched(disk: seq<Byte>, disk': seq<Byte>, k: nat)
    requires |disk| >= 1024 && OnlyWithin(disk, disk', 512 + k, 512 + k + 1) && !(12 <= k < 16)
    ensures HeaderSize(disk'[512..1024]) == HeaderSize(disk[512..1024])
  {
    SliceOfSlice(disk, 512, 1024, 12, 16);
    SliceOfSlice(disk', 512, 1024, 12, 16);
    SameSlice(disk, disk', 512 + k, 512 + k + 1, 524, 528);
  }

  /** One changed byte of the 92-byte header, outside its size field, makes parse give up. */
  lemma HeaderByteRefused(crc: seq<Byte> -> nat, disk: seq<Byte>, disk': seq<Byte>, total: nat, t: Tables,
                          parts: seq<GptPartition>, k: nat)
    requires Detecting(crc) && Readable(crc, total, t, parts) && HoldsTables(disk, total, t)
    requires HeaderSize(t.primary) == 92
    requires k < 92 && !(12 <= k < 16) && disk != disk' && OnlyWithin(disk, disk', 512 + k, 512 + k + 1)
    ensures ParseAt(crc, disk', 1) == None
  {
    SizeUntouched(disk, disk', k);
    HeaderChangeRefused(crc, disk, disk', total, t, parts, k, k + 1);
  }

  /** The rest of the header sector is not covered: no change there matters. */
  lemma PaddingIgnored(crc: seq<Byte> -> nat, disk: seq<Byte>, disk': seq<Byte>, total: nat, t: Tables,
                       parts: seq<GptPartition>)
    requires Readable(crc, total, t, parts) && HoldsTables(disk, total, t) && HeaderSize(t.primary) == 92
    requires OnlyWithin(disk, disk', 512 + 92, 1024)
    ensures ParseAt(crc, disk', 1) == Some(parts)
  {
    var h, h' := t.primary, disk'[512..1024];
    assert forall i | 0 <= i < 92 :: h'[i] == disk'[512 + i] == disk[512 + i] == disk[512..1024][i];
    SameHead(crc, h, h');
    SameSlice(disk, disk', 604, 1024, 1024, 17408);
    ReadsFrom(crc, disk', 1, h', Header(2, 128, crc(t.arr)), t.arr);
  }

  lemma SameHead(crc: seq<Byte> -> nat, h: seq<Byte>, h': seq<Byte>)
    requires |h| == |h'| == 512 && HeaderSize(h) == 92 && forall i | 0 <= i < 92 :: h'[i] == h[i]
    ensures ParseHeader(crc, h') == ParseHeader(crc, h)
  {
    assert h'[0..8] == h[0..8] && h'[12..16] == h[12..16] && h'[16..20] == h[16..20] && h'[72..80] == h[72..80];
    assert h'[80..84] == h[80..84] && h'[84..88] == h[84..88] && h'[88..92] == h[88..92];
    assert Covered(h') == Covered(h);
  }

  /** For the disks that write_layout makes. */
  lemma CorruptionRefused(before: seq<Byte>, disk: seq<Byte>, disk': seq<Byte>, total: nat, espSectors: U64, g: Guids, lo: nat, hi: nat)
    requires total <= U64_MAX && g.Sized() && Place(total, espSectors).Some?
    requires LaidOut(before, disk, total, TablesFor(Value, Place(total, espSectors).value, g))
    requires lo < hi && SmallChange(disk, disk', lo, hi)
    requires (1024 <= lo && hi <= 17408) || (512 <= lo && hi == lo + 1 <= 512 + 92 && !(524 <= lo < 528))
    ensures ParseAt(Value, disk', 1) == None
  {
    var p := Place(total, espSectors).value;
    var t := TablesFor(Value, p, g);
    var parts := [EspPartition(p), DataPartition(p)];
    ChecksumDetecting();
    PlacedFits(total, espSectors);
    TablesReadable(Value, p, g, t);
    PrimarySize(Value, p, g, t);
    if 1024 <= lo {
      ArrayChangeRefused(Value, disk, disk', total, t, parts, lo - 1024, hi - 1024);
    } else {
      HeaderByteRefused(Value, disk, disk', total, t, parts, lo - 512);
    }
  }
}
