/** The global accounting of the body storages that are open (common/body_storage.go,
    common/disk_cache_config.go): over every run the counters are exact. */
module BodyLedger {
  import opened Basics
  import opened DiskCache
  import opened BodyStorage
  import opened BodySource
  import opened BodyCreation

  // ---------------------------------------------------------------------
  // Runs of creations, operations and closes
  // ---------------------------------------------------------------------

  /** The counters and every storage ever created. */
  datatype System = System(stats: Stats, stores: seq<Store>)

  datatype Event =
    | Create(data: seq<Byte>, diskFails: bool)
    | CreateFromReader(reader: Stream, contentLength: int, maxBytes: int, disk: Option<nat>)
    | Operate(index: nat, op: Op)

  ghost predicate StoresOk(sys: System) {
    forall i :: 0 <= i < |sys.stores| ==> sys.stores[i].Ok()
  }

  ghost predicate EventOk(sys: System, e: Event) {
    match e
    case Create(data, _) => |data| <= INT64_MAX
    case CreateFromReader(_, _, maxBytes, _) => maxBytes < INT64_MAX
    case Operate(i, _) => i < |sys.stores|
  }

  ghost function Step(cfg: Config, sys: System, e: Event): System
    requires StoresOk(sys) && EventOk(sys, e)
  {
    match e
    case Create(data, diskFails) =>
      var (store, stats) := Created(cfg, sys.stats, data, diskFails);
      System(stats, sys.stores + [store])
    case CreateFromReader(reader, contentLength, maxBytes, disk) =>
      var (r, stats, _) := CreatedFromReader(cfg, sys.stats, reader, contentLength, maxBytes, disk);
      System(stats, if r.Success? then sys.stores + [r.value] else sys.stores)
    case Operate(i, op) =>
      System(if op.Close? && sys.stores[i].Open() then Released(sys.stats, sys.stores[i]) else sys.stats,
             sys.stores[i := sys.stores[i].Perform(op).0])
  }

  // ---------------------------------------------------------------------
  // Counting
  // ---------------------------------------------------------------------

  datatype Measure = DiskFiles | DiskBytes | MemoryBuffers | MemoryBytes

  /** What an open storage contributes to a counter. */
  function Weight(q: Measure, s: Store): nat {
    if !s.Open() then 0
    else match q
      case DiskFiles => if s.OnDisk? then 1 else 0
      case DiskBytes => if s.OnDisk? then |s.Content()| else 0
      case MemoryBuffers => if s.InMemory? then 1 else 0
      case MemoryBytes => if s.InMemory? then |s.Content()| else 0
  }

  function By(q: Measure): Store -> nat {
    (s: Store) => Weight(q, s)
  }

  /** The counters are the number and total size of the open storages of each kind. */
  ghost predicate Exact(sys: System) {
    && sys.stats.diskFiles == Total(By(DiskFiles), sys.stores)
    && sys.stats.diskBytes == Total(By(DiskBytes), sys.stores)
    && sys.stats.memoryBuffers == Total(By(MemoryBuffers), sys.stores)
    && sys.stats.memoryBytes == Total(By(MemoryBytes), sys.stores)
  }

  /** Closing an open disk storage never runs into the clamps. */
  lemma ClampsUnreachable(sys: System, i: nat)
    requires Exact(sys) && i < |sys.stores| && sys.stores[i].OnDisk? && sys.stores[i].Open()
    ensures sys.stats.diskFiles - 1 >= 0 && sys.stats.diskBytes - |sys.stores[i].Content()| >= 0
  {
    TotalReplaced(By(DiskFiles), sys.stores, i, sys.stores[i]);
    TotalReplaced(By(DiskBytes), sys.stores, i, sys.stores[i]);
  }

  ghost predicate Adds(before: Stats, after: Stats, s: Store) {
    && after.diskFiles == before.diskFiles + Weight(DiskFiles, s)
    && after.diskBytes == before.diskBytes + Weight(DiskBytes, s)
    && after.memoryBuffers == before.memoryBuffers + Weight(MemoryBuffers, s)
    && after.memoryBytes == before.memoryBytes + Weight(MemoryBytes, s)
  }

  lemma StoredExactly(sys: System, s: Store, stats: Stats)
    requires Exact(sys) && s.Ok() && s.Open() && Adds(sys.stats, stats, s)
    ensures Exact(System(stats, sys.stores + [s]))
  {
    TotalAppended(By(DiskFiles), sys.stores, s);
    TotalAppended(By(DiskBytes), sys.stores, s);
    TotalAppended(By(MemoryBuffers), sys.stores, s);
    TotalAppended(By(MemoryBytes), sys.stores, s);
  }

  lemma OperateKeepsExact(cfg: Config, sys: System, i: nat, op: Op)
    requires Exact(sys) && StoresOk(sys) && i < |sys.stores|
    ensures Exact(Step(cfg, sys, Operate(i, op))) && StoresOk(Step(cfg, sys, Operate(i, op)))
  {
    var s := sys.stores[i];
    var s' := s.Perform(op).0;
    PerformOk(s, op);
    TotalReplaced(By(DiskFiles), sys.stores, i, s');
    TotalReplaced(By(DiskBytes), sys.stores, i, s');
    TotalReplaced(By(MemoryBuffers), sys.stores, i, s');
    TotalReplaced(By(MemoryBytes), sys.stores, i, s');
  }

  lemma CreateKeepsExact(cfg: Config, sys: System, e: Event)
    requires Exact(sys) && StoresOk(sys) && EventOk(sys, e) && e.Create?
    ensures Exact(Step(cfg, sys, e)) && StoresOk(Step(cfg, sys, e))
  {
    var (store, stats) := Created(cfg, sys.stats, e.data, e.diskFails);
    CreationWeighs(cfg, sys.stats, e.data, e.diskFails);
    StoredExactly(sys, store, stats);
  }

  /** What a creation adds is what the new storage weighs. */
  lemma CreationWeighs(cfg: Config, stats: Stats, data: seq<Byte>, diskFails: bool)
    requires |data| <= INT64_MAX
    ensures var (s, stats') := Created(cfg, stats, data, diskFails); s.Ok() && s.Open() && Adds(stats, stats', s)
  {
  }

  lemma ReaderCreationWeighs(cfg: Config, stats: Stats, reader: Stream, contentLength: int, maxBytes: int, disk: Option<nat>)
    requires maxBytes < INT64_MAX
    ensures var (r, stats', _) := CreatedFromReader(cfg, stats, reader, contentLength, maxBytes, disk);
            if r.Success? then r.value.Ok() && r.value.Open() && Adds(stats, stats', r.value) else stats' == stats
  {
    var whole := Whole(reader, maxBytes).0;
    if whole.Success? {
      CreationWeighs(cfg, stats, whole.value, disk.Some?);
    }
  }

  lemma CreateFromReaderKeepsExact(cfg: Config, sys: System, e: Event)
    requires Exact(sys) && StoresOk(sys) && EventOk(sys, e) && e.CreateFromReader?
    ensures Exact(Step(cfg, sys, e)) && StoresOk(Step(cfg, sys, e))
  {
    ReaderCreationWeighs(cfg, sys.stats, e.reader, e.contentLength, e.maxBytes, e.disk);
    var (r, stats, _) := CreatedFromReader(cfg, sys.stats, e.reader, e.contentLength, e.maxBytes, e.disk);
    if r.Success? {
      StoredExactly(sys, r.value, stats);
    }
  }

  lemma StepKeepsExact(cfg: Config, sys: System, e: Event)
    requires Exact(sys) && StoresOk(sys) && EventOk(sys, e)
    ensures Exact(Step(cfg, sys, e)) && StoresOk(Step(cfg, sys, e))
  {
    match e
    case Create(_, _) => CreateKeepsExact(cfg, sys, e);
    case CreateFromReader(_, _, _, _) => CreateFromReaderKeepsExact(cfg, sys, e);
    case Operate(i, op) => OperateKeepsExact(cfg, sys, i, op);
  }

  /** A run from nothing, with its events. */
  ghost predicate IsRun(cfg: Config, run: seq<System>, events: seq<Event>) {
    && |run| == |events| + 1
    && run[0] == System(NO_USAGE, [])
    && forall k {:trigger events[k]} :: 0 <= k < |events| ==>
         StoresOk(run[k]) && EventOk(run[k], events[k]) && run[k + 1] == Step(cfg, run[k], events[k])
  }

  /** Over every run of creations, failed creations, fallbacks, operations and repeated
      closes the counters are exact. */
  lemma {:induction false} CountersExact(cfg: Config, run: seq<System>, events: seq<Event>, k: nat)
    requires IsRun(cfg, run, events) && k < |run|
    ensures Exact(run[k]) && StoresOk(run[k])
  {
    if k > 0 {
      CountersExact(cfg, run, events, k - 1);
      StepKeepsExact(cfg, run[k - 1], events[k - 1]);
    }
  }

  /** A body streamed straight to disk that is too long for the room left: the room was
      checked against the announced length. */
  predicate Overruns(cfg: Config, stats: Stats, e: Event) {
    && e.CreateFromReader? && e.contentLength > 0 && PrefersDisk(cfg, stats, e.contentLength) && e.disk.None?
    && var body := Whole(e.reader, e.maxBytes).0;
       body.Success? && stats.diskBytes + |body.value| > cfg.MaxBytes()
  }

  /** From within the configured maximum, exactly the overruns leave it. */
  lemma BoundLeftExactly(cfg: Config, sys: System, e: Event)
    requires StoresOk(sys) && EventOk(sys, e) && Exact(sys)
    requires sys.stats.diskBytes <= cfg.MaxBytes()
    ensures Step(cfg, sys, e).stats.diskBytes > cfg.MaxBytes() <==> Overruns(cfg, sys.stats, e)
  {
    match e
    case Operate(i, op) =>
      if op.Close? && sys.stores[i].Open() && sys.stores[i].OnDisk? {
        ClampsUnreachable(sys, i);
      }
    case _ =>
  }

  /** A body that is no longer than announced (a length of zero or less announces
      nothing).  The connection cuts a body at its announced length; only a decompressed
      body can be longer. */
  predicate Announced(e: Event) {
    e.CreateFromReader? ==>
      var body := Whole(e.reader, e.maxBytes).0;
      body.Success? ==> |body.value| <= e.contentLength || e.contentLength <= 0
  }

  /** One creation after the other under a fixed configuration, the disk usage never
      exceeds the configured maximum, provided no body is longer than announced. */
  lemma {:induction false} DiskUsageBounded(cfg: Config, run: seq<System>, events: seq<Event>, k: nat)
    requires IsRun(cfg, run, events) && k < |run| && cfg.maxSizeMB >= 0
    requires forall i :: 0 <= i < |events| ==> Announced(events[i])
    ensures run[k].stats.diskBytes <= cfg.MaxBytes()
  {
    if k > 0 {
      DiskUsageBounded(cfg, run, events, k - 1);
      CountersExact(cfg, run, events, k - 1);
      BoundLeftExactly(cfg, run[k - 1], events[k - 1]);
    }
  }

  /** A longer body does exceed it: with room for a megabyte, every compressed body of up
      to that length that unpacks to more, within the limits of the request. */
  lemma UnannouncedBodyExceeds(reader: Stream, announced: nat, maxBytes: int)
    requires reader.Fresh() && !reader.broken && 0 < announced <= MEGABYTE
    requires MEGABYTE < |reader.bytes| <= Allowed(reader, maxBytes) && maxBytes < INT64_MAX
    ensures var cfg := Config(true, 0, 1);
            var sys := System(NO_USAGE, []);
            var e := CreateFromReader(reader, announced, maxBytes, None);
            StoresOk(sys) && EventOk(sys, e) && Step(cfg, sys, e).stats.diskBytes > cfg.MaxBytes()
  {
    FreshWhole(reader, maxBytes);
  }
}
