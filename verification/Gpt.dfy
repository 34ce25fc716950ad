/** Reading and authoring a GUID Partition Table (UEFI Specification sections 5.2.3, 5.3.2 and 5.3.3).

    The functions take the checksum as a parameter; the methods compute it with CRC-32. */
module Gpt {
  import opened Common
  import opened Crc32
  import opened Bytes
  import opened BlockDevice

  datatype GptError = TooSmall | IoError
  datatype Outcome = Authored(esp: Extent, data: Extent) | Refused(error: GptError)

  datatype Extent = Extent(firstLba: nat, sectors: nat)

  datatype GptPartition = GptPartition(typeGuid: seq<Byte>, firstLba: nat, lastLba: nat)
  {
    /** Saturating at both ends, as the u64 arithmetic does. */
    function Sectors(): nat
    {
      var span := if lastLba < firstLba then 0 else lastLba - firstLba;
      if span >= U64_MAX then U64_MAX else span + 1
    }
  }

  const ESP_TYPE: seq<Byte> :=
    [0x28, 0x73, 0x2A, 0xC1, 0x1F, 0xF8, 0xD2, 0x11, 0xBA, 0x4B, 0x00, 0xA0, 0xC9, 0x3E, 0xC9, 0x3B]
  const DATA_TYPE: seq<Byte> :=
    [0xA2, 0xA0, 0xD0, 0xEB, 0xE5, 0xB9, 0x33, 0x44, 0x87, 0xC0, 0x68, 0xB6, 0xB7, 0x26, 0x99, 0xC7]

  /** "EFI PART". */
  const SIGNATURE: seq<Byte> := [0x45, 0x46, 0x49, 0x20, 0x50, 0x41, 0x52, 0x54]
  const HEADER_SIZE: nat := 92
  const ENTRY_SIZE: nat := 128
  const ARRAY_SIZE: nat := 16384
  const ALIGNMENT: nat := 2048

  // ----- reading ------------------------------------------------------------------------------

  datatype Header = Header(entriesLba: nat, num: nat, arrayCrc: nat)

  /** The header's own size, held to what fits a sector. */
  function HeaderSize(h: seq<Byte>): (r: nat)
    requires |h| == SECTOR
    ensures HEADER_SIZE <= r <= SECTOR
  {
    var size := Number(h[12..16]);
    if size < HEADER_SIZE then HEADER_SIZE else if size > SECTOR then SECTOR else size
  }

  /** What the header checksum covers: the header with its checksum field zeroed. */
  function Covered(h: seq<Byte>): (r: seq<Byte>)
    requires |h| == SECTOR
    ensures |r| == HeaderSize(h)
  {
    Patched(h, 16, Zeros(4))[..HeaderSize(h)]
  }

  function ParseHeader(crc: seq<Byte> -> nat, h: seq<Byte>): (r: Option<Header>)
    requires |h| == SECTOR
    ensures r.Some? ==> 1 <= r.value.num <= 128
  {
    var num, esize := Number(h[80..84]), Number(h[84..88]);
    if h[0..8] != SIGNATURE then None
    else if crc(Covered(h)) != Number(h[16..20]) then None
    else if esize != ENTRY_SIZE || num == 0 then None
    else Some(Header(Number(h[72..80]), if num < 128 then num else 128, Number(h[88..92])))
  }

  function Entry(arr: seq<Byte>, i: nat): (r: seq<Byte>)
    requires (i + 1) * 128 <= |arr|
    ensures |r| == ENTRY_SIZE
  {
    arr[i * 128..(i + 1) * 128]
  }

  function PartitionOf(e: seq<Byte>): GptPartition
    requires |e| == ENTRY_SIZE
  {
    GptPartition(e[0..16], Number(e[32..40]), Number(e[40..48]))
  }

  /** An entry with an all-zero type is empty. */
  function Found(e: seq<Byte>): seq<GptPartition>
  {
    if |e| != ENTRY_SIZE || e[0..16] == Zeros(16) then [] else [PartitionOf(e)]
  }

  /** What the first n entries hold. */
  function Collect<P>(found: seq<Byte> -> seq<P>, arr: seq<Byte>, n: nat): seq<P>
    requires n * 128 <= |arr|
  {
    if n == 0 then [] else Collect(found, arr, n - 1) + found(Entry(arr, n - 1))
  }

  /** Sectors that hold num entries. */
  function SectorsFor(num: nat): nat
  {
    (num + 3) / 4
  }

  /** The partitions a header at the given LBA leads to. */
  function ParseAt(crc: seq<Byte> -> nat, disk: seq<Byte>, lba: nat): Option<seq<GptPartition>>
  {
    if (lba + 1) * 512 > |disk| then None
    else
      var h := ParseHeader(crc, disk[lba * 512..(lba + 1) * 512]);
      if h.None? then None
      else ParseArray(crc, disk, h.value)
  }

  function ParseArray(crc: seq<Byte> -> nat, disk: seq<Byte>, h: Header): Option<seq<GptPartition>>
  {
    var start := h.entriesLba * 512;
    if (h.entriesLba + SectorsFor(h.num)) * 512 > |disk| then None
    else
      var arr := disk[start..start + h.num * 128];
      var out := Collect(Found, arr, h.num);
      if crc(arr) != h.arrayCrc || out == [] then None else Some(out)
  }

  predicate ThreeInARow(fails: nat -> bool, k: nat)
  {
    fails(k) && fails(k + 1) && fails(k + 2)
  }

  /** How many commands it takes to read a sector that is on the disk, or to give up. */
  function Tries(fails: nat -> bool, k: nat): nat
  {
    if !fails(k) then 1 else if !fails(k + 1) then 2 else 3
  }

  /** The command with which sector s of an array is begun, if sector 0 is begun with command k. */
  function CommandFor(fails: nat -> bool, k: nat, s: nat): nat
  {
    if s == 0 then k
    else
      var c := CommandFor(fails, k, s - 1);
      c + Tries(fails, c)
  }

  /** One of the n sectors of the array fails three times running. */
  ghost predicate GivesUp(fails: nat -> bool, k: nat, n: nat)
  {
    exists s: nat :: s < n && ThreeInARow(fails, CommandFor(fails, k, s))
  }

  /** One sector, tried up to three times. */
  method ReadPersistently(dev: Device, lba: nat) returns (r: Option<seq<Byte>>)
    requires dev.Valid()
    modifies dev`commands
    ensures dev.Valid()
    ensures (lba + 1) * 512 > |dev.bytes| ==> r == None
    ensures (lba + 1) * 512 <= |dev.bytes| ==>
              && r == (if ThreeInARow(dev.fails, old(dev.commands)) then None else Some(dev.bytes[lba * 512..(lba + 1) * 512]))
              && dev.commands == old(dev.commands) + Tries(dev.fails, old(dev.commands))
  {
    ghost var start := dev.commands;
    var tries := 0;
    while true
      invariant tries <= 2 && dev.commands == start + tries
      invariant dev.Valid() && dev.bytes == old(dev.bytes)
      invariant (lba + 1) * 512 <= |dev.bytes| ==> (tries >= 1 ==> dev.fails(start)) && (tries >= 2 ==> dev.fails(start + 1))
      decreases 2 - tries
    {
      var got := dev.ReadBlocks(lba, 1);
      if got.Ok? { return Some(got.value); }
      if tries >= 2 { return None; }
      tries := tries + 1;
    }
  }

  lemma {:induction false} CollectPrefix<P>(found: seq<Byte> -> seq<P>, a: seq<Byte>, e: seq<Byte>, n: nat)
    requires n * 128 <= |a|
    ensures Collect(found, a + e, n) == Collect(found, a, n)
  {
    if n > 0 {
      CollectPrefix(found, a, e, n - 1);
      assert Entry(a + e, n - 1) == Entry(a, n - 1);
    }
  }

  lemma CollectAppend<P>(found: seq<Byte> -> seq<P>, a: seq<Byte>, e: seq<Byte>, n: nat)
    requires |a| == n * 128 && |e| == 128
    ensures Collect(found, a + e, n + 1) == Collect(found, a, n) + found(e)
  {
    CollectPrefix(found, a, e, n);
    assert Entry(a + e, n) == e;
  }

  /** The entries of one sector, added to those read so far. */
  method AddSector<P>(found: seq<Byte> -> seq<P>, sec: seq<Byte>, first: nat, num: nat, arr0: seq<Byte>, out0: seq<P>)
    returns (arr: seq<Byte>, out: seq<P>)
    requires |sec| == 512 && first < num && |arr0| == first * 128 && out0 == Collect(found, arr0, first)
    ensures var k := if first + 4 <= num then 4 else num - first;
            && arr == arr0 + sec[..k * 128] && out == Collect(found, arr, first + k)
  {
    arr, out := arr0, out0;
    var i := 0;
    while i < 4 && first + i < num
      invariant i <= 4 && first + i <= num
      invariant arr == arr0 + sec[..i * 128] && out == Collect(found, arr, first + i)
    {
      var e := sec[i * 128..(i + 1) * 128];
      AddEntry(found, arr0, sec, first, i, e);
      arr := arr + e;
      out := out + found(e);
      i := i + 1;
    }
  }

  lemma AddEntry<P>(found: seq<Byte> -> seq<P>, arr0: seq<Byte>, sec: seq<Byte>, first: nat, i: nat, e: seq<Byte>)
    requires |sec| == 512 && i < 4 && |arr0| == first * 128 && e == sec[i * 128..(i + 1) * 128]
    ensures arr0 + sec[..i * 128] + e == arr0 + sec[..(i + 1) * 128]
    ensures Collect(found, arr0 + sec[..i * 128] + e, first + i + 1) == Collect(found, arr0 + sec[..i * 128], first + i) + found(e)
  {
    assert sec[..i * 128] + e == sec[..(i + 1) * 128];
    CollectAppend(found, arr0 + sec[..i * 128], e, first + i);
  }

  lemma SliceExtends(disk: seq<Byte>, lba: nat, s: nat, k: nat)
    requires (lba + s + 1) * 512 <= |disk| && k <= 4
    ensures disk[lba * 512..lba * 512 + 4 * s * 128] + disk[(lba + s) * 512..(lba + s + 1) * 512][..k * 128]
            == disk[lba * 512..lba * 512 + (4 * s + k) * 128]
  {
  }

  /** What the loop of parse has after s sectors. */
  ghost predicate ReadSoFar<P>(found: seq<Byte> -> seq<P>, disk: seq<Byte>, lba: nat, s: nat, have: nat, arr: seq<Byte>, out: seq<P>)
  {
    && |arr| == have * 128 && out == Collect(found, arr, have)
    && (s == 0 ==> have == 0)
    && (s > 0 ==> (lba + s) * 512 <= |disk| && have <= 4 * s && arr == disk[lba * 512..lba * 512 + have * 128])
  }

  method ReadSector<P>(dev: Device, lba: nat, s: nat, num: nat, found: seq<Byte> -> seq<P>, arr0: seq<Byte>, out0: seq<P>)
    returns (ok: bool, arr: seq<Byte>, out: seq<P>)
    requires dev.Valid() && 4 * s < num && ReadSoFar(found, dev.bytes, lba, s, 4 * s, arr0, out0)
    modifies dev`commands
    ensures dev.Valid()
    ensures ok ==> ReadSoFar(found, dev.bytes, lba, s + 1, if 4 * s + 4 <= num then 4 * s + 4 else num, arr, out)
    ensures ok ==> dev.commands == old(dev.commands) + Tries(dev.fails, old(dev.commands))
    ensures ok <==> (lba + s + 1) * 512 <= |dev.bytes| && !ThreeInARow(dev.fails, old(dev.commands))
  {
    arr, out := arr0, out0;
    if lba + s > U64_MAX { return false, arr0, out0; }
    var sec := ReadPersistently(dev, lba + s);
    if sec.None? { return false, arr0, out0; }
    ghost var k := if 4 * s + 4 <= num then 4 else num - 4 * s;
    SliceExtends(dev.bytes, lba, s, k);
    arr, out := AddSector(found, sec.value, 4 * s, num, arr0, out0);
    ok := true;
  }

  lemma GivesUpOnward(fails: nat -> bool, k: nat, s: nat, n: nat)
    requires s < n
    ensures GivesUp(fails, k, s + 1) <==> GivesUp(fails, k, s) || ThreeInARow(fails, CommandFor(fails, k, s))
    ensures GivesUp(fails, k, s + 1) ==> GivesUp(fails, k, n)
  {
    if GivesUp(fails, k, s + 1) {
      var i: nat :| i < s + 1 && ThreeInARow(fails, CommandFor(fails, k, i));
      assert i < n;
    }
  }

  /** The entries, unless the array is not all on the disk or one of its sectors cannot be read. */
  method ReadEntries<P>(dev: Device, lba: nat, num: nat, found: seq<Byte> -> seq<P>) returns (r: Option<(seq<Byte>, seq<P>)>)
    requires dev.Valid() && 1 <= num
    modifies dev`commands
    ensures dev.Valid()
    ensures r.Some? ==>
              && (lba + SectorsFor(num)) * 512 <= |dev.bytes|
              && r.value.0 == dev.bytes[lba * 512..lba * 512 + num * 128]
              && r.value.1 == Collect(found, r.value.0, num)
    ensures r.None? <==> (lba + SectorsFor(num)) * 512 > |dev.bytes| || GivesUp(dev.fails, old(dev.commands), SectorsFor(num))
  {
    var arr, out := [], [];
    var needed := SectorsFor(num);
    ghost var start, have := dev.commands, 0;
    var s := 0;
    while s < needed
      invariant s <= needed && dev.Valid() && dev.bytes == old(dev.bytes) && dev.commands == CommandFor(dev.fails, start, s)
      invariant !GivesUp(dev.fails, start, s)
      invariant (s < needed ==> have == 4 * s) && (s == needed ==> have == num)
      invariant ReadSoFar(found, dev.bytes, lba, s, have, arr, out)
    {
      var ok;
      GivesUpOnward(dev.fails, start, s, needed);
      ok, arr, out := ReadSector(dev, lba, s, num, found, arr, out);
      if !ok { return None; }
      have := if 4 * s + 4 <= num then 4 * s + 4 else num;
      s := s + 1;
    }
    return Some((arr, out));
  }

  /** The header sector with its checksum field zeroed. */
  method ZeroChecksum(hdr: seq<Byte>) returns (r: seq<Byte>)
    requires |hdr| == 512
    ensures r == Patched(hdr, 16, Zeros(4))
  {
    var copy := new Byte[512];
    assert copy[..] == copy[..0] + copy[0..];
    Fill(copy, 0, hdr);
    assert copy[..] == hdr;
    Fill(copy, 16, Zeros(4));
    return copy[..];
  }

  method CheckHeader(hdr: seq<Byte>) returns (r: Option<Header>)
    requires |hdr| == 512
    ensures r == ParseHeader(Value, hdr)
  {
    if hdr[0..8] != SIGNATURE { return None; }
    var size := Number(hdr[12..16]);
    var hdrSize := if size < HEADER_SIZE then HEADER_SIZE else if size > SECTOR then SECTOR else size;
    var copy := ZeroChecksum(hdr);
    var sum := CrcNumber(copy[..hdrSize]);
    if sum != Number(hdr[16..20]) { return None; }
    var num, esize := Number(hdr[80..84]), Number(hdr[84..88]);
    if esize != ENTRY_SIZE || num == 0 { return None; }
    return Some(Header(Number(hdr[72..80]), if num < 128 then num else 128, Number(hdr[88..92])));
  }

  method ParseEntries(dev: Device, h: Header) returns (r: Option<seq<GptPartition>>)
    requires dev.Valid() && 1 <= h.num
    modifies dev`commands
    ensures dev.Valid()
    ensures r == if GivesUp(dev.fails, old(dev.commands), SectorsFor(h.num)) then None else ParseArray(Value, dev.bytes, h)
  {
    var entries := ReadEntries(dev, h.entriesLba, h.num, Found);
    if entries.None? { return None; }
    var (arr, out) := entries.value;
    var sum := CrcNumber(arr);
    Verdict(Value, dev.bytes, h, arr, out, sum);
    if sum != h.arrayCrc { return None; }
    return if out == [] then None else Some(out);
  }

  lemma Verdict(crc: seq<Byte> -> nat, disk: seq<Byte>, h: Header, arr: seq<Byte>, out: seq<GptPartition>, sum: nat)
    requires (h.entriesLba + SectorsFor(h.num)) * 512 <= |disk|
    requires arr == disk[h.entriesLba * 512..h.entriesLba * 512 + h.num * 128]
    requires out == Collect(Found, arr, h.num) && sum == crc(arr)
    ensures ParseArray(crc, disk, h) == if sum != h.arrayCrc || out == [] then None else Some(out)
  {
  }

  /** The device fails the command k that reads the header, or three times running one of the sectors
      of the array that the header leads to. */
  ghost predicate Unreadable(disk: seq<Byte>, fails: nat -> bool, k: nat)
  {
    || fails(k)
    || (&& |disk| >= 1024
        && var h := ParseHeader(Value, disk[512..1024]);
           h.Some? && GivesUp(fails, k + 1, SectorsFor(h.value.num)))
  }

  /** Exactly the partitions the disk holds, unless its table cannot be read. */
  method Parse(dev: Device) returns (r: Option<seq<GptPartition>>)
    requires dev.Valid()
    modifies dev`commands
    ensures dev.Valid()
    ensures dev.blockSize != SECTOR ==> r == None
    ensures dev.blockSize == SECTOR ==> r == if Unreadable(dev.bytes, dev.fails, old(dev.commands)) then None else ParseAt(Value, dev.bytes, 1)
  {
    if dev.blockSize != SECTOR { return None; }
    var got := dev.ReadBlocks(1, 1);
    if got.Err? { return None; }
    var header := CheckHeader(got.value);
    if header.None? { return None; }
    r := ParseEntries(dev, header.value);
  }

  /** A device that fails no first command and no three in a row is read whatever the disk holds. */
  lemma BearableIsReadable(disk: seq<Byte>, fails: nat -> bool, k: nat)
    requires !fails(k) && forall i: nat | i > k :: !ThreeInARow(fails, i)
    ensures !Unreadable(disk, fails, k)
  {
    if Unreadable(disk, fails, k) {
      var n := SectorsFor(ParseHeader(Value, disk[512..1024]).value.num);
      var s: nat :| s < n && ThreeInARow(fails, CommandFor(fails, k + 1, s));
      CommandsGrow(fails, k + 1, s);
    }
  }

  lemma {:induction false} CommandsGrow(fails: nat -> bool, k: nat, s: nat)
    ensures CommandFor(fails, k, s) >= k + s
  {
    if s > 0 { CommandsGrow(fails, k, s - 1); }
  }
}
