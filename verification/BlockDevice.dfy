/** A disk of 512-byte sectors that may fail any command, and the partition views over it. */
module BlockDevice {
  import opened Common
  import opened Bytes

  const SECTOR: nat := 512

  datatype BlockError = Io | OutOfRange
  datatype Result<+T> = Ok(value: T) | Err(error: BlockError)
  datatype Status = Done | Failed(error: BlockError)

  /** The two buffers differ at most from byte lo up to byte hi. */
  ghost predicate OnlyWithin(before: seq<Byte>, after: seq<Byte>, lo: nat, hi: nat)
  {
    |before| == |after| && forall i | 0 <= i < |before| && !(lo <= i < hi) :: after[i] == before[i]
  }

  class Device {
    const blockSize: nat
    const fails: nat -> bool       // whether command k ends in an I/O error
    var bytes: seq<Byte>
    var commands: nat              // commands issued so far

    ghost predicate Valid()
      reads this
    {
      |bytes| % 512 == 0 && |bytes| / 512 <= U64_MAX
    }

    constructor (blockSize: nat, bytes: seq<Byte>, fails: nat -> bool)
      requires |bytes| % 512 == 0 && |bytes| / 512 <= U64_MAX
      ensures Valid() && this.bytes == bytes && this.fails == fails && commands == 0
    {
      this.blockSize := blockSize;
      this.fails := fails;
      this.bytes := bytes;
      this.commands := 0;
    }

    function BlockCount(): nat
      reads this
    {
      |bytes| / 512
    }

    method ReadBlocks(lba: nat, n: nat) returns (r: Result<seq<Byte>>)
      requires Valid()
      modifies this`commands
      ensures commands == old(commands) + 1
      ensures lba + n > BlockCount() ==> r == Err(OutOfRange)
      ensures lba + n <= BlockCount() ==>
                r == if fails(old(commands)) then Err(Io) else Ok(bytes[lba * 512..(lba + n) * 512])
    {
      var k := commands;
      commands := commands + 1;
      if lba + n > BlockCount() { return Err(OutOfRange); }
      if fails(k) { return Err(Io); }
      return Ok(bytes[lba * 512..(lba + n) * 512]);
    }

    /** A write that fails may leave anything in the sectors it addressed. */
    method WriteBlocks(lba: nat, buf: seq<Byte>) returns (r: Status)
      requires Valid() && |buf| % 512 == 0
      modifies this
      ensures Valid() && |bytes| == |old(bytes)| && commands == old(commands) + 1
      ensures lba + |buf| / 512 > BlockCount() ==> r == Failed(OutOfRange) && bytes == old(bytes)
      ensures lba + |buf| / 512 <= BlockCount() ==>
                && r == (if fails(old(commands)) then Failed(Io) else Done)
                && OnlyWithin(old(bytes), bytes, lba * 512, lba * 512 + |buf|)
                && (r == Done ==> bytes == Patched(old(bytes), lba * 512, buf))
    {
      var k := commands;
      commands := commands + 1;
      if lba + |buf| / 512 > BlockCount() { return Failed(OutOfRange); }
      if fails(k) {
        var left: seq<Byte> := *;
        if |left| == |buf| { bytes := Patched(bytes, lba * 512, left); }
        return Failed(Io);
      }
      bytes := Patched(bytes, lba * 512, buf);
      return Done;
    }
  }

  /** PartBorrow (and PartitionDevice): the sectors base .. base + count, numbered from 0. */
  class Partition {
    const inner: Device
    const base: U64
    const count: U64

    constructor (inner: Device, base: U64, count: U64)
      ensures this.inner == inner && this.base == base && this.count == count
    {
      this.inner := inner;
      this.base := base;
      this.count := count;
    }

    /** The n sectors from lba on lie inside the partition and on the disk. */
    predicate InReach(lba: U64, n: nat)
      reads inner
    {
      lba + n <= count && base + lba <= U64_MAX && base + lba + n <= inner.BlockCount()
    }

    method ReadBlocks(lba: U64, n: U64) returns (r: Result<seq<Byte>>)
      requires inner.Valid()
      modifies inner`commands
      ensures !InReach(lba, n) ==> r == Err(OutOfRange)
      ensures InReach(lba, n) ==>
                r == if inner.fails(old(inner.commands)) then Err(Io)
                     else Ok(inner.bytes[(base + lba) * 512..(base + lba + n) * 512])
    {
      if lba + n > U64_MAX || lba + n > count { return Err(OutOfRange); }
      if base + lba > U64_MAX { return Err(OutOfRange); }
      r := inner.ReadBlocks(base + lba, n);
    }

    /** Whatever the outcome, nothing outside the partition changes. */
    method WriteBlocks(lba: U64, buf: seq<Byte>) returns (r: Status)
      requires inner.Valid() && |buf| % 512 == 0
      modifies inner
      ensures inner.Valid()
      ensures OnlyWithin(old(inner.bytes), inner.bytes, base * 512, (base + count) * 512)
      ensures !InReach(lba, |buf| / 512) ==> r == Failed(OutOfRange) && inner.bytes == old(inner.bytes)
      ensures InReach(lba, |buf| / 512) ==>
                && r == (if inner.fails(old(inner.commands)) then Failed(Io) else Done)
                && (r == Done ==> inner.bytes == Patched(old(inner.bytes), (base + lba) * 512, buf))
    {
      var n := |buf| / 512;
      if lba + n > U64_MAX || lba + n > count { return Failed(OutOfRange); }
      if base + lba > U64_MAX { return Failed(OutOfRange); }
      r := inner.WriteBlocks(base + lba, buf);
    }
  }
}
