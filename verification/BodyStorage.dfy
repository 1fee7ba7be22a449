/** Request bodies that can be read again (common/body_storage.go): one store over a
    byte slice with `bytes.Reader`, one over a temporary file, behind one interface. */
module BodyStorage {
  import opened Basics
  import opened DiskCache

  datatype Whence = SeekStart | SeekCurrent | SeekEnd

  datatype Op = Read(n: nat) | Seek(offset: Int64, whence: Whence) | Bytes | Close

  datatype Outcome =
    | Data(bytes: seq<Byte>)
    | EndOfFile
    | Position(pos: int)
    | BadSeek
    | StorageClosed
    | Done

  /** A memory storage: the data and the position of its reader. */
  datatype Memory = Memory(data: seq<Byte>, pos: int, closed: bool)

  /** A disk storage: the file, its offset and the size noted at creation. */
  datatype Disk = Disk(file: seq<Byte>, pos: int, size: int, closed: bool)

  function Min(a: int, b: int): int {
    if a < b then a else b
  }

  /** Addition of two int64, which wraps around. */
  function WrappingAdd(a: int, b: int): int {
    var sum := a + b;
    if sum > INT64_MAX then sum - TWO_64 else if sum < INT64_MIN then sum + TWO_64 else sum
  }

  // ---------------------------------------------------------------------
  // The two implementations, operation by operation
  // ---------------------------------------------------------------------

  /** `bytes.Reader.Read`: end of file is reported even for an empty buffer. */
  function ReaderRead(data: seq<Byte>, pos: int, n: nat): (r: (int, Outcome))
    requires pos >= 0
  {
    if pos >= |data| then (pos, EndOfFile)
    else
      var end := Min(pos + n, |data|);
      (end, Data(data[pos..end]))
  }

  /** `bytes.Reader.Seek`. */
  function ReaderSeek(data: seq<Byte>, pos: int, offset: int, whence: Whence): (int, Outcome) {
    var abs := match whence
      case SeekStart => offset
      case SeekCurrent => WrappingAdd(pos, offset)
      case SeekEnd => WrappingAdd(|data|, offset);
    if abs < 0 then (pos, BadSeek) else (abs, Position(abs))
  }

  /** `os.File.Read` on a regular file: an empty buffer reads nothing. */
  function FileRead(file: seq<Byte>, pos: int, n: nat): (int, Outcome)
    requires pos >= 0
  {
    if n == 0 then (pos, Data([]))
    else if pos >= |file| then (pos, EndOfFile)
    else (pos + Min(n, |file| - pos), Data(file[pos..pos + Min(n, |file| - pos)]))
  }

  /** `lseek`: the resulting offset must be a non-negative int64. */
  function FileSeek(file: seq<Byte>, pos: int, offset: int, whence: Whence): (int, Outcome) {
    var target := offset + match whence
      case SeekStart => 0
      case SeekCurrent => pos
      case SeekEnd => |file|;
    if 0 <= target <= INT64_MAX then (target, Position(target)) else (pos, BadSeek)
  }

  ghost predicate MemoryOk(m: Memory) {
    0 <= m.pos <= INT64_MAX && |m.data| <= INT64_MAX
  }

  ghost predicate DiskOk(d: Disk) {
    0 <= d.pos <= INT64_MAX && d.size == |d.file| <= INT64_MAX
  }

  function MemoryStep(m: Memory, op: Op): (Memory, Outcome)
    requires MemoryOk(m)
  {
    if op.Close? then (m.(closed := true), Done)
    else if m.closed then (m, StorageClosed)
    else match op
      case Read(n) => var (pos, r) := ReaderRead(m.data, m.pos, n); (m.(pos := pos), r)
      case Seek(offset, whence) => var (pos, r) := ReaderSeek(m.data, m.pos, offset, whence); (m.(pos := pos), r)
      case Bytes => (m, Data(m.data))
  }

  /** `diskStorage.Bytes`: note the offset, go to the start, read `size` bytes, go back. */
  function FileBytes(d: Disk): (Disk, Outcome)
    requires DiskOk(d)
  {
    var (p0, current) := FileSeek(d.file, d.pos, 0, SeekCurrent);
    var (p1, _) := FileSeek(d.file, p0, 0, SeekStart);
    var (p2, content) := if d.size == 0 then (p1, Data([])) else FileRead(d.file, p1, d.size);
    if !current.Position? then (d, current)
    else
      var (p3, _) := FileSeek(d.file, p2, current.pos, SeekStart);
      (d.(pos := p3), content)
  }

  function DiskStep(d: Disk, op: Op): (Disk, Outcome)
    requires DiskOk(d)
  {
    if op.Close? then (d.(closed := true), Done)
    else if d.closed then (d, StorageClosed)
    else match op
      case Read(n) => var (pos, r) := FileRead(d.file, d.pos, n); (d.(pos := pos), r)
      case Seek(offset, whence) => var (pos, r) := FileSeek(d.file, d.pos, offset, whence); (d.(pos := pos), r)
      case Bytes => FileBytes(d)
  }

  class MemoryStorage {
    const data: seq<Byte>
    var pos: int
    var closed: bool

    ghost predicate Valid()
      reads this
    {
      MemoryOk(State())
    }

    function State(): Memory
      reads this
    {
      Memory(data, pos, closed)
    }

    constructor (data: seq<Byte>, stats: DiskCacheStats)
      requires |data| <= INT64_MAX
      modifies stats
      ensures Valid() && State() == Memory(data, 0, false)
      ensures stats.State() == AddMemory(old(stats.State()), |data|)
    {
      this.data := data;
      pos, closed := 0, false;
      new;
      stats.IncrementMemoryBuffers(|data|);
    }

    method Read(n: nat) returns (r: Outcome)
      requires Valid()
      modifies this
      ensures Valid() && (State(), r) == MemoryStep(old(State()), Op.Read(n))
    {
      if closed {
        return StorageClosed;
      }
      var (p, out) := ReaderRead(data, pos, n);
      pos, r := p, out;
    }

    method Seek(offset: Int64, whence: Whence) returns (r: Outcome)
      requires Valid()
      modifies this
      ensures Valid() && (State(), r) == MemoryStep(old(State()), Op.Seek(offset, whence))
    {
      if closed {
        return StorageClosed;
      }
      var (p, out) := ReaderSeek(data, pos, offset, whence);
      pos, r := p, out;
    }

    method Bytes() returns (r: Outcome)
      requires Valid()
      ensures (State(), r) == MemoryStep(State(), Op.Bytes)
    {
      if closed {
        return StorageClosed;
      }
      r := Data(data);
    }

    method Close(stats: DiskCacheStats)
      requires Valid()
      modifies this, stats
      ensures Valid() && State() == MemoryStep(old(State()), Op.Close).0
      ensures stats.State() == if old(closed) then old(stats.State()) else DropMemory(old(stats.State()), |data|)
    {
      if !closed {
        closed := true;
        stats.DecrementMemoryBuffers(|data|);
      }
    }
  }

  class DiskStorage {
    const file: seq<Byte>
    const size: int
    var pos: int
    var closed: bool

    ghost predicate Valid()
      reads this
    {
      DiskOk(State())
    }

    function State(): Disk
      reads this
    {
      Disk(file, pos, size, closed)
    }

    /** `newDiskStorage` and `newDiskStorageFromReader` once the file is written. */
    constructor (file: seq<Byte>, stats: DiskCacheStats)
      requires |file| <= INT64_MAX
      modifies stats
      ensures Valid() && State() == Disk(file, 0, |file|, false)
      ensures stats.State() == AddDisk(old(stats.State()), |file|)
    {
      this.file, this.size := file, |file|;
      pos, closed := 0, false;
      new;
      stats.IncrementDiskFiles(|file|);
    }

    method SeekFile(offset: int, whence: Whence) returns (r: Outcome)
      modifies this`pos
      ensures (pos, r) == FileSeek(file, old(pos), offset, whence)
    {
      var (p, out) := FileSeek(file, pos, offset, whence);
      pos, r := p, out;
    }

    method ReadFile(n: nat) returns (r: Outcome)
      requires pos >= 0
      modifies this`pos
      ensures (pos, r) == FileRead(file, old(pos), n)
    {
      var (p, out) := FileRead(file, pos, n);
      pos, r := p, out;
    }

    method Read(n: nat) returns (r: Outcome)
      requires Valid()
      modifies this
      ensures Valid() && (State(), r) == DiskStep(old(State()), Op.Read(n))
    {
      if closed {
        return StorageClosed;
      }
      r := ReadFile(n);
    }

    method Seek(offset: Int64, whence: Whence) returns (r: Outcome)
      requires Valid()
      modifies this
      ensures Valid() && (State(), r) == DiskStep(old(State()), Op.Seek(offset, whence))
    {
      if closed {
        return StorageClosed;
      }
      r := SeekFile(offset, whence);
    }

    method Bytes() returns (r: Outcome)
      requires Valid()
      modifies this
      ensures Valid() && (State(), r) == DiskStep(old(State()), Op.Bytes)
    {
      if closed {
        return StorageClosed;
      }
      var current := SeekFile(0, SeekCurrent);
      if !current.Position? {
        return current;
      }
      var _ := SeekFile(0, SeekStart);
      r := Data([]);
      if size > 0 {
        r := ReadFile(size);
      }
      var _ := SeekFile(current.pos, SeekStart);
    }

    method Close(stats: DiskCacheStats)
      requires Valid()
      modifies this, stats
      ensures Valid() && State() == DiskStep(old(State()), Op.Close).0
      ensures stats.State() == if old(closed) then old(stats.State()) else DropDisk(old(stats.State()), size)
    {
      if !closed {
        closed := true;
        stats.DecrementDiskFiles(size);
      }
    }
  }

  // ---------------------------------------------------------------------
  // Memory and disk are the same store
  // ---------------------------------------------------------------------

  /** The two storages hold the same bytes at the same position. */
  ghost predicate Alike(m: Memory, d: Disk) {
    MemoryOk(m) && DiskOk(d) && m.data == d.file && m.pos == d.pos && m.closed == d.closed
  }

  /** Reading nothing at the end of an open storage: the one operation that tells the
      two apart. */
  predicate EmptyReadAtEnd(m: Memory, op: Op) {
    op == Read(0) && !m.closed && m.pos >= |m.data|
  }

  /** Both seek relative to the start, the position or the end, and refuse, without moving,
      what is not a non-negative int64. */
  lemma SeeksAgree(data: seq<Byte>, pos: int, offset: Int64, whence: Whence)
    requires 0 <= pos <= INT64_MAX && |data| <= INT64_MAX
    ensures ReaderSeek(data, pos, offset, whence) == FileSeek(data, pos, offset, whence)
    ensures var (pos', r) := FileSeek(data, pos, offset, whence);
            && (r.BadSeek? ==> pos' == pos)
            && (!r.BadSeek? ==> r == Position(pos') && 0 <= pos' <= 0x7FFF_FFFF_FFFF_FFFF)
            && (!r.BadSeek? && whence.SeekStart? ==> pos' == offset)
            && (!r.BadSeek? && whence.SeekCurrent? ==> pos' - pos == offset)
            && (!r.BadSeek? && whence.SeekEnd? ==> pos' - |data| == offset)
            && (0 <= offset && offset + pos <= 0x7FFF_FFFF_FFFF_FFFF && offset + |data| <= 0x7FFF_FFFF_FFFF_FFFF ==> !r.BadSeek?)
            && (-pos <= offset < 0 && whence.SeekCurrent? ==> !r.BadSeek?)
            && (-|data| <= offset < 0 && whence.SeekEnd? ==> !r.BadSeek?)
  {
  }

  lemma ReadsAgree(data: seq<Byte>, pos: int, n: nat)
    requires 0 <= pos
    ensures ReaderRead(data, pos, n).0 == FileRead(data, pos, n).0
    ensures ReaderRead(data, pos, n).1 == FileRead(data, pos, n).1 <==> n > 0 || pos < |data|
    ensures var (pos', r) := FileRead(data, pos, n);
            && (r == EndOfFile <==> n > 0 && pos >= |data|)
            && (r == EndOfFile ==> pos' == pos)
            && (r != EndOfFile ==> r.Data? && pos' == pos + |r.bytes| && |r.bytes| <= n)
            && (r != EndOfFile && n > 0 ==> pos' <= |data| && r.bytes == data[pos..pos'] && (|r.bytes| == n || pos' == |data|))
  {
  }

  /** Reading all bytes of a file leaves its offset where it was. */
  lemma BytesKeepPosition(d: Disk)
    requires DiskOk(d)
    ensures FileBytes(d) == (d, Data(d.file))
  {
    assert d.file[0..|d.file|] == d.file;
  }

  /** Each operation leaves the two alike, and gives the same result if and only if it
      is not an empty read at the end. */
  lemma StepAlike(m: Memory, d: Disk, op: Op)
    requires Alike(m, d)
    ensures Alike(MemoryStep(m, op).0, DiskStep(d, op).0)
    ensures MemoryStep(m, op).1 == DiskStep(d, op).1 <==> !EmptyReadAtEnd(m, op)
  {
    match op
    case Read(n) => ReadsAgree(m.data, m.pos, n);
    case Seek(offset, whence) => SeeksAgree(m.data, m.pos, offset, whence);
    case Bytes => BytesKeepPosition(d);
    case Close =>
  }

  function MemoryRun(m: Memory, ops: seq<Op>): seq<Outcome>
    requires MemoryOk(m)
    decreases |ops|
  {
    if ops == [] then []
    else
      var (m', r) := MemoryStep(m, ops[0]);
      [r] + MemoryRun(m', ops[1..])
  }

  function DiskRun(d: Disk, ops: seq<Op>): seq<Outcome>
    requires DiskOk(d)
    decreases |ops|
  {
    if ops == [] then []
    else
      var (d', r) := DiskStep(d, ops[0]);
      [r] + DiskRun(d', ops[1..])
  }

  /** A memory and a disk storage of the same bytes give the same results on every
      sequence of operations without empty reads. */
  lemma {:induction false} RunsAgree(m: Memory, d: Disk, ops: seq<Op>)
    requires Alike(m, d) && forall i :: 0 <= i < |ops| ==> ops[i] != Read(0)
    ensures MemoryRun(m, ops) == DiskRun(d, ops)
    decreases |ops|
  {
    if ops != [] {
      StepAlike(m, d, ops[0]);
      RunsAgree(MemoryStep(m, ops[0]).0, DiskStep(d, ops[0]).0, ops[1..]);
    }
  }
}
