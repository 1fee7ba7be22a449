/** Creating body storages from bytes or from the incoming stream
    (common/body_storage.go), and reading them. */
module BodyCreation {
  import opened Basics
  import opened DiskCache
  import opened BodyStorage
  import opened BodySource

  datatype Store = InMemory(memory: Memory) | OnDisk(disk: Disk)
  {
    ghost predicate Ok() {
      match this
      case InMemory(m) => MemoryOk(m)
      case OnDisk(d) => DiskOk(d)
    }

    predicate Open() {
      match this
      case InMemory(m) => !m.closed
      case OnDisk(d) => !d.closed
    }

    function Content(): seq<Byte> {
      match this
      case InMemory(m) => m.data
      case OnDisk(d) => d.file
    }

    function Offset(): int {
      match this
      case InMemory(m) => m.pos
      case OnDisk(d) => d.pos
    }

    function Perform(op: Op): (Store, Outcome)
      requires Ok()
    {
      match this
      case InMemory(m) => var (m', r) := MemoryStep(m, op); (InMemory(m'), r)
      case OnDisk(d) => var (d', r) := DiskStep(d, op); (OnDisk(d'), r)
    }
  }

  lemma PerformOk(s: Store, op: Op)
    requires s.Ok()
    ensures s.Perform(op).0.Ok()
    ensures s.Perform(op).0.Content() == s.Content() && s.Perform(op).0.InMemory? == s.InMemory?
    ensures s.Perform(op).0.Open() <==> s.Open() && !op.Close?
  {
    if s.OnDisk? && op.Bytes? {
      BytesKeepPosition(s.disk);
    }
  }

  function Answers(s: Store, ops: seq<Op>): (r: seq<Outcome>)
    requires s.Ok()
    ensures |r| == |ops|
    decreases |ops|
  {
    if ops == [] then []
    else
      var (s', r) := s.Perform(ops[0]);
      PerformOk(s, ops[0]);
      [r] + Answers(s', ops[1..])
  }

  /** After Close every operation but another Close fails, for good, in memory and on
      disk. */
  lemma {:induction false} ClosedForGood(s: Store, ops: seq<Op>, i: nat)
    requires s.Ok() && !s.Open() && i < |ops|
    ensures Answers(s, ops)[i] == if ops[i].Close? then Done else StorageClosed
    decreases |ops|
  {
    PerformOk(s, ops[0]);
    if i > 0 {
      ClosedForGood(s.Perform(ops[0]).0, ops[1..], i - 1);
    }
  }

  // ---------------------------------------------------------------------
  // Reading to the end
  // ---------------------------------------------------------------------

  /** What successive reads with the given buffer sizes return, up to the end of file. */
  function Drain(s: Store, sizes: seq<nat>): seq<Byte>
    requires s.Ok()
    decreases |sizes|
  {
    if sizes == [] then []
    else
      var (s', r) := s.Perform(Read(sizes[0]));
      if r.Data? then r.bytes + Drain(s', sizes[1..]) else []
  }

  function Sum(sizes: seq<nat>): nat {
    if sizes == [] then 0 else sizes[0] + Sum(sizes[1..])
  }

  /** The same reads on the content alone.  At its end a read ends the reading, unless it
      is an empty read of a file. */
  function DrainAt(all: seq<Byte>, pos: nat, sizes: seq<nat>, file: bool): seq<Byte>
    requires pos <= |all|
    decreases |sizes|
  {
    if sizes == [] || (pos == |all| && (sizes[0] > 0 || !file)) then []
    else
      var end := Min(pos + sizes[0], |all|);
      all[pos..end] + DrainAt(all, end, sizes[1..], file)
  }

  /** One read of an open storage. */
  lemma ReadOnce(s: Store, n: nat)
    requires s.Ok() && s.Open() && s.Offset() <= |s.Content()|
    ensures var (s', r) := s.Perform(Read(n));
            var end := Min(s.Offset() + n, |s.Content()|);
            && s'.Ok() && s'.Open() && s'.Content() == s.Content() && s'.Offset() == end && s'.OnDisk? == s.OnDisk?
            && r == if s.Offset() == |s.Content()| && (n > 0 || !s.OnDisk?) then EndOfFile
                    else Data(s.Content()[s.Offset()..end])
  {
  }

  lemma {:induction false} DrainOfContent(s: Store, sizes: seq<nat>)
    requires s.Ok() && s.Open() && s.Offset() <= |s.Content()|
    ensures Drain(s, sizes) == DrainAt(s.Content(), s.Offset(), sizes, s.OnDisk?)
    decreases |sizes|
  {
    if sizes != [] {
      var (s', r) := s.Perform(Read(sizes[0]));
      ReadOnce(s, sizes[0]);
      if r.Data? {
        calc {
          Drain(s, sizes);
        ==
          r.bytes + Drain(s', sizes[1..]);
        == { DrainOfContent(s', sizes[1..]); }
          r.bytes + DrainAt(s'.Content(), s'.Offset(), sizes[1..], s'.OnDisk?);
        ==
          DrainAt(s.Content(), s.Offset(), sizes, s.OnDisk?);
        }
      }
    }
  }

  lemma {:induction false} DrainAtRest(all: seq<Byte>, pos: nat, sizes: seq<nat>, file: bool)
    requires pos <= |all|
    ensures DrainAt(all, pos, sizes, file) == all[pos..Min(pos + Sum(sizes), |all|)]
    decreases |sizes|
  {
    if sizes != [] {
      DrainAtRest(all, Min(pos + sizes[0], |all|), sizes[1..], file);
      RestJoins(all, pos, sizes[0], Sum(sizes[1..]));
    }
  }

  /** Whatever the buffer sizes, reads return the bytes from the position on, in order
      and without gaps; enough of them return everything. */
  lemma DrainReturnsRest(s: Store, sizes: seq<nat>)
    requires s.Ok() && s.Open() && s.Offset() <= |s.Content()|
    ensures Drain(s, sizes) == s.Content()[s.Offset()..Min(s.Offset() + Sum(sizes), |s.Content()|)]
  {
    DrainOfContent(s, sizes);
    DrainAtRest(s.Content(), s.Offset(), sizes, s.OnDisk?);
  }

  /** `n` bytes and then up to `more` bytes are the next `n + more` bytes. */
  lemma RestJoins(all: seq<Byte>, from: nat, n: nat, more: nat)
    requires from <= |all|
    ensures var mid, end := Min(from + n, |all|), Min(from + (n + more), |all|);
            && Min(mid + more, |all|) == end
            && all[from..mid] + all[mid..end] == all[from..end]
            && (from == |all| ==> all[from..end] == [] && all[mid..end] == [])
  {
  }

  datatype Error = TooLarge | DiskFailed | ReadFailed | Closed | ParseFailed

  datatype Result<T> = Success(value: T) | Failure(error: Error)

  // ---------------------------------------------------------------------
  // Creation
  // ---------------------------------------------------------------------

  predicate PrefersDisk(cfg: Config, stats: Stats, size: int) {
    cfg.enabled && size >= cfg.ThresholdBytes() && Available(cfg, stats, size)
  }

  /** `CreateBodyStorage`: a failing disk falls back to memory. */
  function Created(cfg: Config, stats: Stats, data: seq<Byte>, diskFails: bool): (Store, Stats) {
    if PrefersDisk(cfg, stats, |data|) && !diskFails
    then (OnDisk(Disk(data, 0, |data|, false)), AddDisk(stats, |data|))
    else (InMemory(Memory(data, 0, false)), AddMemory(stats, |data|))
  }

  /** A stream read in full through both limits, or why it is not. */
  function Whole(s: Stream, maxBytes: int): (Result<seq<Byte>>, Stream) {
    var (data, error, rest) := Delivery(s, maxBytes + 1);
    (if error == Some(SizeLimit) then Failure(TooLarge)
     else if error.Some? then Failure(ReadFailed)
     else if |data| > maxBytes then Failure(TooLarge)
     else Success(data),
     rest)
  }

  /** Why a stream is not stored on a disk that fails once `after` bytes are read; a
      disk that fails at once leaves the stream unread. */
  function Spoiled(s: Stream, maxBytes: int, after: nat): (Error, Stream) {
    if after == 0 then (DiskFailed, s)
    else
      var (data, error, rest) := Delivery(s, Min(after, maxBytes + 1));
      (if error == Some(SizeLimit) || |data| > maxBytes then TooLarge else DiskFailed, rest)
  }

  /** The stream goes to disk as it comes in. */
  function Streamed(stats: Stats, s: Stream, maxBytes: int, disk: Option<nat>): (Result<Store>, Stats, Stream) {
    if disk.Some? then
      var (error, rest) := Spoiled(s, maxBytes, disk.value);
      (Failure(error), stats, rest)
    else
      var (whole, rest) := Whole(s, maxBytes);
      match whole
      case Success(data) =>
        (Success(OnDisk(Disk(data, 0, |data|, false))), HitDisk(AddDisk(stats, |data|)), rest)
      case Failure(error) =>
        (Failure(if error.TooLarge? then TooLarge else DiskFailed), stats, rest)
  }

  /** The stream is read into memory and then stored. */
  function Gathered(cfg: Config, stats: Stats, s: Stream, maxBytes: int, diskFails: bool): (Result<Store>, Stats, Stream) {
    var (whole, rest) := Whole(s, maxBytes);
    match whole
    case Success(data) =>
      var (store, stats') := Created(cfg, stats, data, diskFails);
      (Success(store), if store.OnDisk? then HitDisk(stats') else HitMemory(stats'), rest)
    case Failure(error) => (Failure(error), stats, rest)
  }

  /** `CreateBodyStorageFromReader`; `disk` says after how many bytes the disk fails. */
  function CreatedFromReader(cfg: Config, stats: Stats, s: Stream, contentLength: int, maxBytes: int, disk: Option<nat>)
    : (Result<Store>, Stats, Stream)
  {
    if contentLength > 0 && PrefersDisk(cfg, stats, contentLength) then Streamed(stats, s, maxBytes, disk)
    else Gathered(cfg, stats, s, maxBytes, disk.Some?)
  }

  lemma FreshWhole(s: Stream, maxBytes: int)
    requires s.Fresh()
    ensures var r := Whole(s, maxBytes).0;
            && (r.Success? <==> !s.broken && |s.bytes| <= Allowed(s, maxBytes))
            && (r.Success? ==> r.value == s.bytes)
            && (r.Failure? ==> (r.error == TooLarge <==> |s.bytes| > Allowed(s, maxBytes)))
  {
    FreshDelivery(s, maxBytes);
  }

  /** While the disk works, a creation from an unread stream succeeds exactly when the body
      arrives in full and fits both limits, on either path, and then holds precisely that
      body from its start; it fails as too large exactly when the body does not fit. */
  lemma CreationHoldsBody(cfg: Config, stats: Stats, s: Stream, contentLength: int, maxBytes: int)
    requires s.Fresh()
    ensures var (r, _, _) := CreatedFromReader(cfg, stats, s, contentLength, maxBytes, None);
            && (r.Success? <==> !s.broken && |s.bytes| <= Allowed(s, maxBytes))
            && (r.Failure? ==> (r.error == TooLarge <==> |s.bytes| > Allowed(s, maxBytes)))
            && (r.Failure? ==> r.error == TooLarge || r.error == DiskFailed || r.error == ReadFailed)
            && (r.Failure? && r.error == DiskFailed ==> cfg.enabled && contentLength >= cfg.thresholdMB * 1048576)
            && (r.Failure? && r.error == ReadFailed ==>
                  !cfg.enabled || contentLength <= 0 || contentLength < cfg.thresholdMB * 1048576
                  || stats.diskBytes + contentLength > cfg.maxSizeMB * 1048576)
            && (r.Success? ==> r.value.Content() == s.bytes && r.value.Offset() == 0 && r.value.Open())
  {
    FreshWhole(s, maxBytes);
  }

  /** A stored body is on disk if and only if the disk works, the cache is enabled, and the
      announced or the actual length reaches the threshold and still fits. */
  lemma PlacementExact(cfg: Config, stats: Stats, s: Stream, contentLength: int, maxBytes: int, disk: Option<nat>)
    ensures var (r, stats', _) := CreatedFromReader(cfg, stats, s, contentLength, maxBytes, disk);
            r.Success? ==>
              && (r.value.OnDisk? <==>
                    var threshold, room := cfg.thresholdMB * 1048576, cfg.maxSizeMB * 1048576 - stats.diskBytes;
                    var length := |r.value.Content()|;
                    && disk.None? && cfg.enabled
                    && ((contentLength > 0 && threshold <= contentLength <= room) || threshold <= length <= room))
              && stats'.diskHits - stats.diskHits == (if r.value.OnDisk? then 1 else 0)
              && stats'.memoryHits - stats.memoryHits == (if r.value.OnDisk? then 0 else 1)
  {
  }

  /** The counters after closing an open storage. */
  function Released(stats: Stats, s: Store): Stats {
    if s.InMemory? then DropMemory(stats, |s.Content()|) else DropDisk(stats, |s.Content()|)
  }

  /** A storage object behind the common interface. */
  datatype StorageRef = MemoryRef(memory: MemoryStorage) | DiskRef(disk: DiskStorage)
  {
    function Object(): object {
      match this
      case MemoryRef(m) => m
      case DiskRef(d) => d
    }

    function State(): Store
      reads Object()
    {
      match this
      case MemoryRef(m) => InMemory(m.State())
      case DiskRef(d) => OnDisk(d.State())
    }

    method Seek(offset: Int64, whence: Whence) returns (r: Outcome)
      requires State().Ok()
      modifies Object()
      ensures (State(), r) == old(State()).Perform(Op.Seek(offset, whence)) && State().Ok()
    {
      match this
      case MemoryRef(m) => r := m.Seek(offset, whence);
      case DiskRef(d) => r := d.Seek(offset, whence);
    }

    method Bytes() returns (r: Outcome)
      requires State().Ok()
      modifies Object()
      ensures (State(), r) == old(State()).Perform(Op.Bytes) && State().Ok()
    {
      match this
      case MemoryRef(m) => r := m.Bytes();
      case DiskRef(d) => r := d.Bytes();
    }

    method Close(stats: DiskCacheStats)
      requires State().Ok()
      modifies Object(), stats
      ensures State() == old(State()).Perform(Op.Close).0 && State().Ok()
      ensures stats.State() == if old(State()).Open() then Released(old(stats.State()), old(State())) else old(stats.State())
    {
      match this
      case MemoryRef(m) => m.Close(stats);
      case DiskRef(d) => d.Close(stats);
    }
  }

  method CreateBodyStorage(cfg: Config, stats: DiskCacheStats, data: seq<Byte>, diskFails: bool) returns (r: StorageRef)
    requires |data| <= INT64_MAX
    modifies stats
    ensures (r.State(), stats.State()) == Created(cfg, old(stats.State()), data, diskFails)
    ensures fresh(r.Object()) && r.State().Ok()
  {
    var size := |data|;
    if cfg.enabled && size >= cfg.ThresholdBytes() && Available(cfg, stats.State(), size) {
      if diskFails {
        var m := new MemoryStorage(data, stats);
        return MemoryRef(m);
      }
      var d := new DiskStorage(data, stats);
      return DiskRef(d);
    }
    var m := new MemoryStorage(data, stats);
    return MemoryRef(m);
  }

  method CreateBodyStorageFromReader(cfg: Config, stats: DiskCacheStats, reader: Stream, contentLength: int, maxBytes: int, disk: Option<nat>)
    returns (r: Result<StorageRef>, rest: Stream)
    requires maxBytes < INT64_MAX
    modifies stats
    ensures var (want, stats', rest') := CreatedFromReader(cfg, old(stats.State()), reader, contentLength, maxBytes, disk);
            && stats.State() == stats' && rest == rest'
            && (r.Success? <==> want.Success?)
            && (r.Success? ==> r.value.State() == want.value && r.value.State().Ok() && fresh(r.value.Object()))
            && (r.Failure? ==> r.error == want.error)
  {
    if cfg.enabled && contentLength > 0 && contentLength >= cfg.ThresholdBytes() && Available(cfg, stats.State(), contentLength) {
      if disk.Some? {
        var (error, left) := Spoiled(reader, maxBytes, disk.value);
        return Failure(error), left;
      }
      var (written, left) := Whole(reader, maxBytes);
      if written.Failure? {
        return Failure(if written.error.TooLarge? then TooLarge else DiskFailed), left;
      }
      var d := new DiskStorage(written.value, stats);
      stats.IncrementDiskCacheHits();
      return Success(DiskRef(d)), left;
    }
    var (data, left) := Whole(reader, maxBytes);
    if data.Failure? {
      return Failure(data.error), left;
    }
    var storage := CreateBodyStorage(cfg, stats, data.value, disk.Some?);
    if storage.MemoryRef? {
      stats.IncrementMemoryCacheHits();
    } else {
      stats.IncrementDiskCacheHits();
    }
    return Success(storage), left;
  }
}
