/** What write_layout leaves on the disk, byte by byte, as the UEFI Specification lays it out (sections
    5.2.3, 5.3.2 and 5.3.3), whatever functions put it there. */
module GptOnDisk {
  import opened Common
  import opened Crc32
  import opened Bytes
  import opened Gpt
  import opened GptWriter

  function Sector(disk: seq<Byte>, lba: nat): (r: seq<Byte>)
    requires (lba + 1) * 512 <= |disk|
    ensures |r| == 512
  {
    disk[lba * 512..(lba + 1) * 512]
  }

  // ----- headers ------------------------------------------------------------------------------

  /** A GPT header that names its own sector, the other copy's and its array's. */
  ghost predicate IsHeader(h: seq<Byte>, total: nat, myLba: nat, alternate: nat, entries: nat, guid: seq<Byte>)
  {
    && |h| == 512
    && h[0..8] == [0x45, 0x46, 0x49, 0x20, 0x50, 0x41, 0x52, 0x54]
    && h[8..12] == [0, 0, 1, 0]
    && h[12..16] == [92, 0, 0, 0]
    && h[20..24] == [0, 0, 0, 0]
    && Number(h[24..32]) == myLba
    && Number(h[32..40]) == alternate
    && h[40..48] == [34, 0, 0, 0, 0, 0, 0, 0]
    && Number(h[48..56]) == total - 34
    && h[56..72] == guid
    && Number(h[72..80]) == entries
    && h[80..84] == [128, 0, 0, 0]
    && h[84..88] == [128, 0, 0, 0]
    && forall i | 92 <= i < 512 :: h[i] == 0
  }

  lemma Parts(f: seq<Byte>, c: seq<Byte>, z: seq<Byte>, a: seq<Byte>, b: seq<Byte>, d: seq<Byte>, e: seq<Byte>, g: seq<Byte>, rest: seq<Byte>)
    requires |f| == 16 && |c| == |z| == 4 && |a| == |b| == |d| == |e| == 8 && |g| == 16
    ensures var h := f + c + (z + a + b + d + e + g + rest);
            && h[0..16] == f && h[20..24] == z && h[24..32] == a && h[32..40] == b
            && h[40..48] == d && h[48..56] == e && h[56..72] == g && h[72..] == rest
  {
  }

  lemma RestParts(e: seq<Byte>, n: seq<Byte>, s: seq<Byte>, x: seq<Byte>, pad: seq<Byte>)
    requires |e| == 8 && |n| == |s| == |x| == 4 && |pad| == 420
    ensures var r := e + n + s + x + pad;
            && |r| == 440 && r[0..8] == e && r[8..12] == n && r[12..16] == s && r[20..] == pad
  {
  }

  lemma BackGrouped(i: HeaderInfo, guid: seq<Byte>, pad: seq<Byte>)
    requires |guid| == 16
    ensures Back(i, guid) + pad
            == Zeros(4) + LittleEndian(i.myLba, 8) + LittleEndian(i.alternate, 8) + LittleEndian(34, 8) + LittleEndian(i.lastUsable, 8) + guid
               + (LittleEndian(i.entryLba, 8) + LittleEndian(128, 4) + LittleEndian(128, 4) + LittleEndian(i.arrayCrc, 4) + pad)
  {
  }

  /** One byte and zeros. */
  lemma SmallNumber(n: nat)
    requires n < 256
    ensures LittleEndian(n, 4) == [n, 0, 0, 0] && LittleEndian(n, 8) == [n, 0, 0, 0, 0, 0, 0, 0]
  {
    assert LittleEndian(0, 3) == [0, 0, 0];
    assert LittleEndian(0, 7) == [0, 0, 0, 0] + LittleEndian(0, 3);
  }

  lemma HeaderPlaces(h: seq<Byte>, f: seq<Byte>, c: seq<Byte>, z: seq<Byte>, my: seq<Byte>, alt: seq<Byte>, first: seq<Byte>, last: seq<Byte>,
                     guid: seq<Byte>, entries: seq<Byte>, num: seq<Byte>, size: seq<Byte>, sum: seq<Byte>, pad: seq<Byte>)
    requires |f| == |guid| == 16 && |c| == |z| == |num| == |size| == |sum| == 4 && |pad| == 420
    requires |my| == |alt| == |first| == |last| == |entries| == 8
    requires h == f + c + (z + my + alt + first + last + guid + (entries + num + size + sum + pad))
    ensures |h| == 512 && h[0..16] == f && h[20..24] == z && h[24..32] == my && h[32..40] == alt
    ensures h[40..48] == first && h[48..56] == last && h[56..72] == guid && h[72..80] == entries
    ensures h[80..84] == num && h[84..88] == size && h[92..] == pad
  {
    var rest := entries + num + size + sum + pad;
    Parts(f, c, z, my, alt, first, last, guid, rest);
    RestParts(entries, num, size, sum, pad);
    RestInside(h, rest);
  }

  lemma RestInside(h: seq<Byte>, rest: seq<Byte>)
    requires |h| == 512 && |rest| == 440 && h[72..] == rest
    ensures h[72..80] == rest[0..8] && h[80..84] == rest[8..12] && h[84..88] == rest[12..16] && h[92..] == rest[20..]
  {
  }

  lemma NumbersRead(a: nat, b: nat, c: nat, d: nat)
    requires a <= U64_MAX && b <= U64_MAX && c <= U64_MAX && d <= U64_MAX
    ensures Number(LittleEndian(a, 8)) == a && Number(LittleEndian(b, 8)) == b
    ensures Number(LittleEndian(c, 8)) == c && Number(LittleEndian(d, 8)) == d
  {
    Powers();
    NumberOfLittleEndian(a, 8);
    NumberOfLittleEndian(b, 8);
    NumberOfLittleEndian(c, 8);
    NumberOfLittleEndian(d, 8);
  }

  lemma FrontPlaces(h: seq<Byte>)
    requires |h| == 512 && h[0..16] == FRONT
    ensures h[0..8] == [0x45, 0x46, 0x49, 0x20, 0x50, 0x41, 0x52, 0x54] && h[8..12] == [0, 0, 1, 0] && h[12..16] == [92, 0, 0, 0]
  {
    assert h[0..8] == h[0..16][0..8] && h[8..12] == h[0..16][8..12] && h[12..16] == h[0..16][12..16];
  }

  lemma HeaderGrouped(c: seq<Byte>, i: HeaderInfo, guid: seq<Byte>, rest: seq<Byte>, pad: seq<Byte>)
    requires |guid| == 16
    requires rest == LittleEndian(i.entryLba, 8) + LittleEndian(128, 4) + LittleEndian(128, 4) + LittleEndian(i.arrayCrc, 4) + pad
    ensures FRONT + c + Back(i, guid) + pad
            == FRONT + c + (Zeros(4) + LittleEndian(i.myLba, 8) + LittleEndian(i.alternate, 8) + LittleEndian(34, 8)
                            + LittleEndian(i.lastUsable, 8) + guid + rest)
  {
    BackGrouped(i, guid, pad);
    Regrouped(FRONT + c, Back(i, guid), pad);
  }

  lemma Regrouped(a: seq<Byte>, b: seq<Byte>, c: seq<Byte>)
    ensures a + b + c == a + (b + c)
  {
  }

  lemma HeaderOf(h: seq<Byte>, f: seq<Byte>, c: seq<Byte>, z: seq<Byte>, my: seq<Byte>, alt: seq<Byte>, first: seq<Byte>, last: seq<Byte>,
                 guid: seq<Byte>, entries: seq<Byte>, num: seq<Byte>, size: seq<Byte>, sum: seq<Byte>, pad: seq<Byte>, total: nat)
    requires f == FRONT && |guid| == 16 && |c| == |sum| == 4 && |pad| == 420 && (forall k | 0 <= k < |pad| :: pad[k] == 0)
    requires z == [0, 0, 0, 0] && first == [34, 0, 0, 0, 0, 0, 0, 0] && num == size == [128, 0, 0, 0]
    requires |my| == |alt| == |last| == |entries| == 8 && Number(last) == total - 34
    requires h == f + c + (z + my + alt + first + last + guid + (entries + num + size + sum + pad))
    ensures IsHeader(h, total, Number(my), Number(alt), Number(entries), guid)
  {
    HeaderPlaces(h, f, c, z, my, alt, first, last, guid, entries, num, size, sum, pad);
    FrontPlaces(h);
    assert forall k | 92 <= k < 512 :: h[k] == pad[k - 92];
  }

  lemma HeaderIs(crc: seq<Byte> -> nat, i: HeaderInfo, guid: seq<Byte>, total: nat, h: seq<Byte>)
    requires |guid| == 16 && 68 <= total <= U64_MAX && i.lastUsable == total - 34
    requires i.myLba <= U64_MAX && i.alternate <= U64_MAX && i.entryLba <= U64_MAX
    requires h == HeaderSector(crc, i, guid)
    ensures IsHeader(h, total, i.myLba, i.alternate, i.entryLba, guid)
  {
    var c, pad := LittleEndian(crc(FRONT + Zeros(4) + Back(i, guid)), 4), Zeros(420);
    var rest := LittleEndian(i.entryLba, 8) + LittleEndian(128, 4) + LittleEndian(128, 4) + LittleEndian(i.arrayCrc, 4) + pad;
    HeaderGrouped(c, i, guid, rest, pad);
    SmallNumber(34);
    SmallNumber(128);
    NumbersRead(i.myLba, i.alternate, i.lastUsable, i.entryLba);
    assert Zeros(4) == [0, 0, 0, 0];
    HeaderOf(h, FRONT, c, Zeros(4), LittleEndian(i.myLba, 8), LittleEndian(i.alternate, 8), LittleEndian(34, 8), LittleEndian(i.lastUsable, 8),
             guid, LittleEndian(i.entryLba, 8), LittleEndian(128, 4), LittleEndian(128, 4), LittleEndian(i.arrayCrc, 4), pad, total);
  }

  // ----- the protective MBR -------------------------------------------------------------------

  /** No boot code, one record of type 0xEE from sector 1 on over the whole disk, the boot signature. */
  ghost predicate IsProtectiveMbr(m: seq<Byte>, total: nat)
  {
    && |m| == 512
    && (forall i | 0 <= i < 446 :: m[i] == 0)
    && m[446..454] == [0x00, 0x00, 0x02, 0x00, 0xEE, 0xFF, 0xFF, 0xFF]
    && m[454..458] == [1, 0, 0, 0]
    && Number(m[458..462]) == (if total - 1 < 0xFFFF_FFFF then total - 1 else 0xFFFF_FFFF)
    && (forall i | 462 <= i < 510 :: m[i] == 0)
    && m[510..512] == [0x55, 0xAA]
  }

  lemma MbrParts(z: seq<Byte>, r: seq<Byte>, a: seq<Byte>, b: seq<Byte>, y: seq<Byte>, s: seq<Byte>)
    requires |z| == 446 && |r| == 8 && |a| == |b| == 4 && |y| == 48 && |s| == 2
    ensures var m := z + r + a + b + y + s;
            && m[..446] == z && m[446..454] == r && m[454..458] == a && m[458..462] == b && m[462..510] == y && m[510..512] == s
  {
  }

  lemma MbrIs(total: nat)
    requires total >= 1
    ensures IsProtectiveMbr(MbrSector(total), total)
  {
    var size := if total - 1 < 0xFFFF_FFFF then total - 1 else 0xFFFF_FFFF;
    MbrParts(Zeros(446), [0x00, 0x00, 0x02, 0x00, 0xEE, 0xFF, 0xFF, 0xFF], LittleEndian(1, 4), LittleEndian(size, 4), Zeros(48), [0x55, 0xAA]);
    SmallNumber(1);
    Powers();
    NumberOfLittleEndian(size, 4);
    var m := MbrSector(total);
    assert forall i | 0 <= i < 446 :: m[i] == m[..446][i];
    assert forall i | 462 <= i < 510 :: m[i] == m[462..510][i - 462];
  }

  // ----- partition entries --------------------------------------------------------------------

  /** A partition entry: type, own GUID, extent, no attributes, and its name in UTF-16 padded with zeros. */
  ghost predicate IsEntry(e: seq<Byte>, typeGuid: seq<Byte>, unique: seq<Byte>, first: nat, last: nat, name: string)
  {
    && |e| == 128 && |name| <= 36
    && e[0..16] == typeGuid && e[16..32] == unique
    && Number(e[32..40]) == first && Number(e[40..48]) == last
    && (forall i | 48 <= i < 56 :: e[i] == 0)
    && (forall i | 0 <= i < |name| :: NamedAt(e, i, name[i]))
    && (forall i | 56 + 2 * |name| <= i < 128 :: e[i] == 0)
  }

  /** Unit i of the name, for a character below 256. */
  predicate NamedAt(e: seq<Byte>, i: nat, c: char)
    requires |e| == 128 && i < 36
  {
    e[56 + 2 * i] == c as int && e[57 + 2 * i] == 0
  }

  lemma TwoBytes(u: nat)
    requires u < 256
    ensures LittleEndian(u, 2) == [u, 0]
  {
    assert LittleEndian(0, 1) == [0];
  }

  lemma NameStep(name: string, i: nat)
    requires i < |name| && i < 36 && name[i] as int < 256
    ensures NameUnits(name, i) == [name[i] as int, 0] + NameUnits(name, i + 1)
  {
    TwoBytes(name[i] as int);
  }

  lemma {:induction false} NameSpelled(name: string, i: nat, d: nat)
    requires i + d < 36 && forall k | 0 <= k < |name| :: name[k] as int < 256
    ensures var n := NameUnits(name, i);
            |n| == 72 - 2 * i && n[2 * d] == (if i + d < |name| then name[i + d] as int else 0) && n[2 * d + 1] == 0
    decreases d
  {
    if i < |name| {
      NameStep(name, i);
      if d > 0 {
        NameSpelled(name, i + 1, d - 1);
        TwoOn(name[i] as int, NameUnits(name, i + 1), d - 1);
      }
    }
  }

  lemma TwoOn(u: Byte, m: seq<Byte>, d: nat)
    requires 2 * d + 1 < |m|
    ensures ([u, 0] + m)[2 * (d + 1)] == m[2 * d] && ([u, 0] + m)[2 * (d + 1) + 1] == m[2 * d + 1]
  {
  }

  lemma EntryFields(t: seq<Byte>, u: seq<Byte>, f: seq<Byte>, l: seq<Byte>, z: seq<Byte>, n: seq<Byte>)
    requires |t| == |u| == 16 && |f| == |l| == |z| == 8 && |n| == 72
    ensures var e := t + u + f + l + z + n;
            && |e| == 128 && e[0..16] == t && e[16..32] == u && e[32..40] == f && e[40..48] == l && e[48..56] == z && e[56..] == n
  {
  }

  /** Unit j of an encoded name. */
  predicate UnitAt(n: seq<Byte>, name: string, j: nat)
    requires |n| == 72 && j < 36
  {
    n[2 * j] == (if j < |name| then name[j] as int else 0) && n[2 * j + 1] == 0
  }

  lemma UnitsSpelled(name: string, start: nat, n: seq<Byte>)
    requires start == 0 && n == NameUnits(name, start) && forall k | 0 <= k < |name| :: name[k] as int < 256
    ensures |n| == 72 && forall j | 0 <= j < 36 :: UnitAt(n, name, j)
  {
    forall j | 0 <= j < 36
      ensures UnitAt(n, name, j)
    {
      NameSpelled(name, start, j);
    }
  }

  lemma NamePlaced(e: seq<Byte>, n: seq<Byte>, name: string)
    requires |e| == 128 && |n| == 72 && e[56..] == n && |name| <= 36 && forall j | 0 <= j < 36 :: UnitAt(n, name, j)
    ensures forall i | 0 <= i < |name| :: NamedAt(e, i, name[i])
    ensures forall i | 56 + 2 * |name| <= i < 128 :: e[i] == 0
  {
    forall i | 0 <= i < |name|
      ensures NamedAt(e, i, name[i])
    {
      assert UnitAt(n, name, i);
      assert e[56 + 2 * i] == n[2 * i] && e[57 + 2 * i] == n[2 * i + 1];
    }
    forall i | 56 + 2 * |name| <= i < 128
      ensures e[i] == 0
    {
      assert UnitAt(n, name, (i - 56) / 2);
      assert e[i] == n[i - 56];
    }
  }

  lemma FieldsAre(t: seq<Byte>, u: seq<Byte>, f: seq<Byte>, l: seq<Byte>, z: seq<Byte>, name: string, n: seq<Byte>, e: seq<Byte>)
    requires |t| == |u| == 16 && |f| == |l| == |z| == 8 && |name| <= 36 && |n| == 72 && e == t + u + f + l + z + n
    requires (forall j | 0 <= j < 36 :: UnitAt(n, name, j)) && forall i | 0 <= i < 8 :: z[i] == 0
    ensures IsEntry(e, t, u, Number(f), Number(l), name)
  {
    EntryFields(t, u, f, l, z, n);
    NamePlaced(e, n, name);
    assert forall i | 48 <= i < 56 :: e[i] == e[48..56][i - 48];
  }

  lemma EntryIs(t: seq<Byte>, u: seq<Byte>, first: nat, last: nat, name: string, start: nat, e: seq<Byte>)
    requires |t| == |u| == 16 && first <= U64_MAX && last <= U64_MAX && |name| <= 36 && start == 0
    requires forall k | 0 <= k < |name| :: name[k] as int < 256
    requires e == t + u + LittleEndian(first, 8) + LittleEndian(last, 8) + Zeros(8) + NameUnits(name, start)
    ensures IsEntry(e, t, u, first, last, name)
  {
    var n := NameUnits(name, start);
    UnitsSpelled(name, start, n);
    NumbersRead(first, last, 0, 0);
    FieldsAre(t, u, LittleEndian(first, 8), LittleEndian(last, 8), Zeros(8), name, n, e);
  }

  /** The array: the ESP, the data partition, and 126 empty entries. */
  ghost predicate IsArray(arr: seq<Byte>, espLast: nat, dataFirst: nat, dataLast: nat, g: Guids)
  {
    && |arr| == 16384
    && IsEntry(arr[0..128], ESP_TYPE, g.esp, 2048, espLast, "EFI System")
    && IsEntry(arr[128..256], DATA_TYPE, g.data, dataFirst, dataLast, "ruos-data")
    && forall i | 256 <= i < 16384 :: arr[i] == 0
  }

  lemma ArrayParts(e: seq<Byte>, f: seq<Byte>, z: seq<Byte>)
    requires |e| == |f| == 128 && |z| == 16128
    ensures var a := e + f + z; a[0..128] == e && a[128..256] == f && a[256..] == z
  {
  }

  lemma ArrayOf(e: seq<Byte>, f: seq<Byte>, espLast: nat, dataFirst: nat, dataLast: nat, g: Guids, arr: seq<Byte>)
    requires IsEntry(e, ESP_TYPE, g.esp, 2048, espLast, "EFI System") && IsEntry(f, DATA_TYPE, g.data, dataFirst, dataLast, "ruos-data")
    requires arr == e + f + Zeros(16128)
    ensures IsArray(arr, espLast, dataFirst, dataLast, g)
  {
    ArrayParts(e, f, Zeros(16128));
    assert forall i | 256 <= i < 16384 :: arr[i] == arr[256..][i - 256];
  }

  lemma NamesFit()
    ensures |"EFI System"| == 10 && forall k | 0 <= k < 10 :: "EFI System"[k] as int < 256
    ensures |"ruos-data"| == 9 && forall k | 0 <= k < 9 :: "ruos-data"[k] as int < 256
  {
  }

  lemma ArrayIs(p: Placement, g: Guids, arr: seq<Byte>)
    requires g.Sized() && 68 <= p.total <= U64_MAX && p.espLast <= U64_MAX && p.dataFirst <= U64_MAX && arr == ArrayBytes(p, g)
    ensures IsArray(arr, p.espLast, p.dataFirst, p.total - 34, g)
  {
    var e := EntryBytes(ESP_TYPE, g.esp, ALIGNMENT, p.espLast, "EFI System");
    var f := EntryBytes(DATA_TYPE, g.data, p.dataFirst, p.LastUsable(), "ruos-data");
    NamesFit();
    EntryIs(ESP_TYPE, g.esp, ALIGNMENT, p.espLast, "EFI System", 0, e);
    EntryIs(DATA_TYPE, g.data, p.dataFirst, p.LastUsable(), "ruos-data", 0, f);
    ArrayOf(e, f, p.espLast, p.dataFirst, p.LastUsable(), g, arr);
  }

  // ----- the whole disk -----------------------------------------------------------------------

  lemma TablesAsSpecified(p: Placement, g: Guids, t: Tables)
    requires g.Sized() && 68 <= p.total <= U64_MAX && p.espLast <= U64_MAX && p.dataFirst <= U64_MAX && t == TablesFor(Value, p, g)
    ensures IsProtectiveMbr(t.mbr, p.total)
    ensures IsHeader(t.primary, p.total, 1, p.total - 1, 2, g.disk)
    ensures IsHeader(t.backup, p.total, p.total - 1, 1, p.total - 33, g.disk)
    ensures IsArray(t.arr, p.espLast, p.dataFirst, p.total - 34, g)
  {
    var sum := Value(t.arr);
    MbrIs(p.total);
    HeaderIs(Value, PrimaryInfo(p, sum), g.disk, p.total, t.primary);
    HeaderIs(Value, BackupInfo(p, sum), g.disk, p.total, t.backup);
    ArrayIs(p, g, t.arr);
  }

  lemma WhereTheyAre(before: seq<Byte>, disk: seq<Byte>, total: nat, t: Tables)
    requires LaidOut(before, disk, total, t)
    ensures |disk| == total * 512 && total >= 68
    ensures Sector(disk, 0) == t.mbr && Sector(disk, 1) == t.primary && Sector(disk, total - 1) == t.backup
    ensures disk[1024..17408] == t.arr && disk[(total - 33) * 512..(total - 1) * 512] == t.arr
  {
    assert Sector(disk, 0) == disk[..512] && Sector(disk, total - 1) == disk[(total - 1) * 512..];
  }

  lemma OneAndTwo(h: seq<Byte>, total: nat, guid: seq<Byte>)
    requires total >= 1 && IsHeader(h, total, 1, total - 1, 2, guid)
    ensures h[24..32] == [1, 0, 0, 0, 0, 0, 0, 0] && h[72..80] == [2, 0, 0, 0, 0, 0, 0, 0]
  {
    NumbersRead(1, 2, 0, 0);
    SmallNumber(1);
    SmallNumber(2);
    NumberInjective(h[24..32], LittleEndian(1, 8));
    NumberInjective(h[72..80], LittleEndian(2, 8));
  }

  /** A disk in the specification's own terms: each header in its own sector names that sector, the other
      copy and its array, and both carry the same disk GUID. */
  ghost predicate AsSpecified(disk: seq<Byte>, total: nat, espLast: nat, dataFirst: nat, g: Guids)
  {
    && |disk| == total * 512 && total >= 68
    && IsProtectiveMbr(Sector(disk, 0), total)
    && IsHeader(Sector(disk, 1), total, 1, total - 1, 2, g.disk)
    && Sector(disk, 1)[24..32] == [1, 0, 0, 0, 0, 0, 0, 0] && Sector(disk, 1)[72..80] == [2, 0, 0, 0, 0, 0, 0, 0]
    && IsHeader(Sector(disk, total - 1), total, total - 1, 1, total - 33, g.disk)
    && IsArray(disk[1024..17408], espLast, dataFirst, total - 34, g)
    && IsArray(disk[(total - 33) * 512..(total - 1) * 512], espLast, dataFirst, total - 34, g)
  }

  lemma Assembled(before: seq<Byte>, disk: seq<Byte>, total: nat, t: Tables, espLast: nat, dataFirst: nat, g: Guids)
    requires LaidOut(before, disk, total, t) && IsProtectiveMbr(t.mbr, total)
    requires IsHeader(t.primary, total, 1, total - 1, 2, g.disk) && IsHeader(t.backup, total, total - 1, 1, total - 33, g.disk)
    requires IsArray(t.arr, espLast, dataFirst, total - 34, g)
    ensures AsSpecified(disk, total, espLast, dataFirst, g)
  {
    OneAndTwo(t.primary, total, g.disk);
    WhereTheyAre(before, disk, total, t);
  }

  /** The disk after a successful write_layout. */
  lemma DiskAsSpecified(before: seq<Byte>, disk: seq<Byte>, total: nat, espSectors: U64, g: Guids)
    requires g.Sized() && total <= U64_MAX && Place(total, espSectors).Some?
    requires LaidOut(before, disk, total, TablesFor(Value, Place(total, espSectors).value, g))
    ensures AsSpecified(disk, total, 2048 + espSectors - 1, Place(total, espSectors).value.dataFirst, g)
  {
    var p := Place(total, espSectors).value;
    var t := TablesFor(Value, p, g);
    TablesAsSpecified(p, g, t);
    Assembled(before, disk, total, t, p.espLast, p.dataFirst, g);
  }

  // ----- what is read -------------------------------------------------------------------------

  /** The reader takes a sector for a header exactly if it is signed, its checksum over its own size (held
      to 92..512) is right, and its entries are 128 bytes each and not none; it then finds the array where
      bytes 72..80 say, with as many entries as bytes 80..84 say, at most 128. */
  lemma ReadsAsSpecified(h: seq<Byte>)
    requires |h| == 512
    ensures var size, num := Number(h[12..16]), Number(h[80..84]);
            var n := if size < 92 then 92 else if size > 512 then 512 else size;
            var signed := h[0..8] == [0x45, 0x46, 0x49, 0x20, 0x50, 0x41, 0x52, 0x54];
            var right := Number(h[16..20]) == Value((h[..16] + [0, 0, 0, 0] + h[20..])[..n]);
            ParseHeader(Value, h) == if signed && right && Number(h[84..88]) == 128 && num != 0
                                     then Some(Header(Number(h[72..80]), if num < 128 then num else 128, Number(h[88..92]))) else None
  {
    assert Zeros(4) == [0, 0, 0, 0];
    assert Patched(h, 16, Zeros(4)) == h[..16] + [0, 0, 0, 0] + h[20..];
  }
}
