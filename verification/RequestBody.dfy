/** The body of one request as its handlers see it (common/gin.go, controller/relay.go):
    the first access stores it, every later one presents it again from the start. */
module RequestBody {
  import opened Basics
  import opened DiskCache
  import opened BodySource
  import opened BodyStorage
  import opened BodyCreation
  import opened BodyLedger

  /** What the request's body reads from: the incoming stream, the stored body, or a
      storage that has been cleaned up. */
  datatype Source = Incoming(stream: Stream) | Current | Stale

  /** `legacy` are the bytes an older cache key may hold, `maxMB` the configured limit. */
  datatype Context = Context(slot: Option<Store>, legacy: Option<seq<Byte>>, source: Source, contentLength: int, maxMB: int)

  /** What a step meets outside: the cache configuration, and after how many bytes the
      disk fails, if it does. */
  datatype Env = Env(cfg: Config, disk: Option<nat>)

  ghost predicate ContextOk(c: Context) {
    && (c.slot.Some? ==> c.slot.value.Ok() && c.slot.value.Open())
    && (c.legacy.Some? ==> |c.legacy.value| <= INT64_MAX)
    && (c.source.Current? ==> c.slot.Some?)
  }

  // ---------------------------------------------------------------------
  // The operations
  // ---------------------------------------------------------------------

  /** A closed storage refuses to be read. */
  const CLOSED_STORAGE := Stream([], true, true, false, None)

  function StreamOf(source: Source): Stream {
    if source.Incoming? then source.stream else CLOSED_STORAGE
  }

  /** The source after it was read and closed; closing `io.NopCloser` does nothing. */
  function Used(source: Source, rest: Stream): Source {
    if source.Incoming? then Incoming(rest.Close()) else source
  }

  /** `GetRequestBody`, and `GetBodyStorage` on top of it. */
  function Got(env: Env, stats: Stats, c: Context): (Context, Stats, Result<Store>)
    requires ContextOk(c)
  {
    if c.slot.Some? then
      var (s, r) := c.slot.value.Perform(Seek(0, SeekStart));
      (c.(slot := Some(s)), stats, if r.Position? then Success(s) else Failure(Closed))
    else if c.legacy.Some? then
      var (s, stats') := Created(env.cfg, stats, c.legacy.value, env.disk.Some?);
      (c.(slot := Some(s)), stats', Success(s))
    else
      var (r, stats', rest) := CreatedFromReader(env.cfg, stats, StreamOf(c.source), c.contentLength, MaxBytes(c.maxMB), env.disk);
      (c.(source := Used(c.source, rest), slot := if r.Success? then Some(r.value) else None), stats', r)
  }

  /** The rest of `UnmarshalBodyReusable` once there is a storage: all bytes go to the
      parser, and the request's body becomes the rewound storage. */
  function Parsed(c: Context, parseFails: bool): (Context, Result<seq<Byte>>)
    requires ContextOk(c) && c.slot.Some?
  {
    var (s1, content) := c.slot.value.Perform(Bytes);
    var c1 := c.(slot := Some(s1));
    if !content.Data? then (c1, Failure(Closed))
    else if parseFails then (c1, Failure(ParseFailed))
    else
      PerformOk(c.slot.value, Bytes);
      var (s2, r) := s1.Perform(Seek(0, SeekStart));
      if r.Position? then (c1.(slot := Some(s2), source := Current), Success(content.bytes))
      else (c1.(slot := Some(s2)), Failure(Closed))
  }

  /** `UnmarshalBodyReusable`: the result is what the parser is given. */
  function Unmarshalled(env: Env, stats: Stats, c: Context, parseFails: bool): (Context, Stats, Result<seq<Byte>>)
    requires ContextOk(c)
  {
    var (c', stats', got) := Got(env, stats, c);
    match got
    case Failure(error) => (c', stats', Failure(error))
    case Success(_) =>
      GotOk(env, stats, c);
      var (c'', r) := Parsed(c', parseFails);
      (c'', stats', r)
  }

  /** `CleanupBodyStorage`. */
  function Cleaned(stats: Stats, c: Context): (Context, Stats)
    requires ContextOk(c)
  {
    if c.slot.None? then (c, stats)
    else (c.(slot := None, source := if c.source.Current? then Stale else c.source), Released(stats, c.slot.value))
  }

  lemma GotOk(env: Env, stats: Stats, c: Context)
    requires ContextOk(c)
    ensures var (c', _, r) := Got(env, stats, c);
            && ContextOk(c') && c'.legacy == c.legacy && c'.maxMB == c.maxMB
            && (r.Success? <==> c'.slot.Some?)
            && (r.Success? ==> c'.slot.value == r.value && r.value.Offset() == 0)
  {
    if c.slot.None? && c.legacy.None? {
      ReaderCreationWeighs(env.cfg, stats, StreamOf(c.source), c.contentLength, MaxBytes(c.maxMB), env.disk);
    }
  }

  // ---------------------------------------------------------------------
  // One access after the other
  // ---------------------------------------------------------------------

  /** What happens to a request's body. `Use` is a handler's own operation on the storage
      it was given; nobody but the cleanup closes it. */
  datatype Action =
    | Get
    | Attach
    | Unmarshal(parseFails: bool)
    | ReadSource(n: nat)
    | Use(op: Op)
    | Cleanup

  function Applied(c: Context, op: Op): Context
    requires ContextOk(c)
  {
    if c.slot.None? || op.Close? then c else c.(slot := Some(c.slot.value.Perform(op).0))
  }

  function Act(env: Env, stats: Stats, c: Context, a: Action): (Context, Stats)
    requires ContextOk(c)
  {
    match a
    case Get =>
      var (c', stats', _) := Got(env, stats, c);
      (c', stats')
    case Attach =>
      var (c', stats', r) := Got(env, stats, c);
      (if r.Success? then c'.(source := Current) else c', stats')
    case Unmarshal(parseFails) =>
      var (c', stats', _) := Unmarshalled(env, stats, c, parseFails);
      (c', stats')
    case ReadSource(n) =>
      (match c.source
       case Current => Applied(c, Read(n))
       case Incoming(stream) => c.(source := Incoming(Delivery(stream, n).2))
       case Stale => c,
       stats)
    case Use(op) => (Applied(c, op), stats)
    case Cleanup => Cleaned(stats, c)
  }

  lemma AppliedOk(c: Context, op: Op)
    requires ContextOk(c)
    ensures var c' := Applied(c, op);
            && ContextOk(c') && c'.(slot := None) == c.(slot := None) && c'.slot.Some? == c.slot.Some?
            && (c.slot.Some? ==> c'.slot.value.Content() == c.slot.value.Content())
            && (c.slot.Some? ==> c'.slot.value.InMemory? == c.slot.value.InMemory?)
  {
    if c.slot.Some? {
      PerformOk(c.slot.value, op);
    }
  }

  /** With a stored body every access succeeds, whatever fails outside, and presents the
      whole of it from its first byte; the counters do not move. */
  lemma StoredIsPresented(env: Env, stats: Stats, c: Context)
    requires ContextOk(c) && c.slot.Some?
    ensures var (c', stats', r) := Got(env, stats, c);
            && stats' == stats && r.Success? && c'.slot == Some(r.value) && c'.source == c.source
            && r.value.Content() == c.slot.value.Content() && r.value.InMemory? == c.slot.value.InMemory?
            && r.value.Offset() == 0 && r.value.Open()
  {
    PerformOk(c.slot.value, Seek(0, SeekStart));
  }

  lemma UnmarshalledOk(env: Env, stats: Stats, c: Context, parseFails: bool)
    requires ContextOk(c)
    ensures var (c', stats', r) := Unmarshalled(env, stats, c, parseFails);
            var (g, gotStats, got) := Got(env, stats, c);
            && ContextOk(c') && c'.legacy == c.legacy && c'.maxMB == c.maxMB && stats' == gotStats
            && (r.Success? <==> got.Success? && !parseFails)
            && (got.Failure? ==> c' == g && r.error == got.error)
            && (got.Success? && parseFails ==> r == Failure(ParseFailed))
            && (got.Success? ==> c'.slot.Some? && c'.slot.value.Content() == got.value.Content())
            && (got.Success? ==> c'.slot.value.InMemory? == got.value.InMemory? && c'.slot.value.Offset() == 0)
            && (r.Success? ==> r.value == got.value.Content() && c'.source == Current)
            && (got.Success? && parseFails ==> c'.source == g.source)
  {
    GotOk(env, stats, c);
    var (g, _, got) := Got(env, stats, c);
    if got.Success? {
      BytesGiveContent(g.slot.value);
      PerformOk(g.slot.value.Perform(Bytes).0, Seek(0, SeekStart));
    }
  }

  lemma BytesGiveContent(s: Store)
    requires s.Ok() && s.Open()
    ensures s.Perform(Bytes) == (s, Data(s.Content()))
  {
    if s.OnDisk? {
      BytesKeepPosition(s.disk);
    }
  }

  lemma ActOk(env: Env, stats: Stats, c: Context, a: Action)
    requires ContextOk(c)
    ensures ContextOk(Act(env, stats, c, a).0)
  {
    match a
    case Get => GotOk(env, stats, c);
    case Attach => GotOk(env, stats, c);
    case Unmarshal(parseFails) => UnmarshalledOk(env, stats, c, parseFails);
    case ReadSource(n) => AppliedOk(c, Read(n));
    case Use(op) => AppliedOk(c, op);
    case Cleanup =>
  }

  function Run(stats: Stats, c: Context, steps: seq<(Env, Action)>): (Context, Stats)
    requires ContextOk(c)
    decreases |steps|
  {
    if steps == [] then (c, stats)
    else
      ActOk(steps[0].0, stats, c, steps[0].1);
      var (c', stats') := Act(steps[0].0, stats, c, steps[0].1);
      Run(stats', c', steps[1..])
  }

  // ---------------------------------------------------------------------
  // The first access
  // ---------------------------------------------------------------------

  /** A request whose body nobody has touched. */
  ghost predicate Untouched(c: Context) {
    ContextOk(c) && c.slot.None? && c.legacy.None? && c.source.Incoming? && c.source.stream.Fresh()
  }

  /** While the disk works, the first access succeeds if and only if the body arrives in
      full and is not longer than the limits of the route allow (see `EffectiveLimits`),
      and then stores all of it; it fails as too large exactly when the body is longer. */
  lemma FirstAccess(env: Env, stats: Stats, c: Context)
    requires Untouched(c) && env.disk.None?
    ensures var (c', _, r) := Got(env, stats, c);
            var s, allowed := c.source.stream, Allowed(c.source.stream, MaxBytes(c.maxMB));
            && (r.Success? <==> !s.broken && |s.bytes| <= allowed)
            && (r.Success? ==> r.value.Content() == s.bytes && r.value.Offset() == 0 && c'.slot == Some(r.value))
            && (r.Failure? ==> (r.error == TooLarge <==> |s.bytes| > allowed))
  {
    CreationHoldsBody(env.cfg, stats, c.source.stream, c.contentLength, MaxBytes(c.maxMB));
  }

  /** Bytes under the older cache key are presented like a stored body, without touching the
      stream. */
  lemma LegacyAccess(env: Env, stats: Stats, c: Context)
    requires ContextOk(c) && c.slot.None? && c.legacy.Some?
    ensures var (c', _, r) := Got(env, stats, c);
            && r.Success? && r.value.Content() == c.legacy.value && r.value.Offset() == 0 && r.value.Open()
            && c'.slot == Some(r.value) && c'.source == c.source && c'.legacy == c.legacy
  {
  }

  // ---------------------------------------------------------------------
  // Every later one
  // ---------------------------------------------------------------------

  ghost predicate Keeps(steps: seq<(Env, Action)>) {
    forall i :: 0 <= i < |steps| ==> steps[i].1 != Cleanup
  }

  lemma ActKeepsBody(env: Env, stats: Stats, c: Context, a: Action)
    requires ContextOk(c) && c.slot.Some? && a != Cleanup
    ensures var (c', stats') := Act(env, stats, c, a);
            && stats' == stats && ContextOk(c') && c'.slot.Some?
            && c'.slot.value.Content() == c.slot.value.Content() && c'.slot.value.InMemory? == c.slot.value.InMemory?
  {
    match a
    case Get => StoredIsPresented(env, stats, c);
    case Attach => StoredIsPresented(env, stats, c);
    case Unmarshal(parseFails) =>
      StoredIsPresented(env, stats, c);
      UnmarshalledOk(env, stats, c, parseFails);
    case ReadSource(n) => AppliedOk(c, Read(n));
    case Use(op) => AppliedOk(c, op);
  }

  /** A stored body survives every sequence of accesses, parses, partial reads, seeks and
      failures up to the cleanup. */
  lemma {:induction false} RunKeepsBody(stats: Stats, c: Context, steps: seq<(Env, Action)>)
    requires ContextOk(c) && c.slot.Some? && Keeps(steps)
    ensures var (c', stats') := Run(stats, c, steps);
            && stats' == stats && ContextOk(c') && c'.slot.Some?
            && c'.slot.value.Content() == c.slot.value.Content()
    decreases |steps|
  {
    if steps != [] {
      var (env, a) := steps[0];
      assert a != Cleanup;
      ActKeepsBody(env, stats, c, a);
      var (c', stats') := Act(env, stats, c, a);
      RunKeepsBody(stats', c', steps[1..]);
    }
  }

  /** After any such sequence, the next parser is given exactly the stored body, and a
      request body attached by it or by the relay reads exactly the stored body, whatever
      the buffer sizes. */
  lemma BodyPresentedWhole(stats: Stats, c: Context, steps: seq<(Env, Action)>, env: Env, sizes: seq<nat>)
    requires ContextOk(c) && c.slot.Some? && Keeps(steps)
    requires Sum(sizes) >= |c.slot.value.Content()|
    ensures var body := c.slot.value.Content();
            var (c1, stats1) := Run(stats, c, steps);
            && ContextOk(c1)
            && var (parsed, _, given) := Unmarshalled(env, stats1, c1, false);
               var attached := Act(env, stats1, c1, Attach).0;
               && given == Success(body)
               && parsed.source == Current && ContextOk(parsed) && Drain(parsed.slot.value, sizes) == body
               && attached.source == Current && ContextOk(attached) && Drain(attached.slot.value, sizes) == body
  {
    var body := c.slot.value.Content();
    RunKeepsBody(stats, c, steps);
    var (c1, stats1) := Run(stats, c, steps);
    StoredIsPresented(env, stats1, c1);
    UnmarshalledOk(env, stats1, c1, false);
    var parsed := Unmarshalled(env, stats1, c1, false).0;
    var attached := Act(env, stats1, c1, Attach).0;
    GotOk(env, stats1, c1);
    DrainReturnsRest(parsed.slot.value, sizes);
    DrainReturnsRest(attached.slot.value, sizes);
    assert body[0..|body|] == body;
  }

  // ---------------------------------------------------------------------
  // After a failed first access, and after the cleanup
  // ---------------------------------------------------------------------

  /** Nothing is stored, and the stream only repeats how it ended. */
  ghost predicate Spent(c: Context, fate: Stop) {
    && ContextOk(c) && c.slot.None? && c.legacy.None? && MaxBytes(c.maxMB) >= 0
    && c.source.Incoming? && Exhausted(c.source.stream) && Fate(c.source.stream) == fate
  }

  lemma SpentAccess(env: Env, stats: Stats, c: Context, fate: Stop)
    requires Spent(c, fate)
    ensures var (c', stats', r) := Got(env, stats, c);
            match fate
            case AtEnd =>
              && (env.disk.None? ==> r.Success?)
              && (r.Success? ==> r.value.Content() == [] && c' == c.(slot := Some(r.value)))
              && (r.Failure? ==> r.error == DiskFailed && c' == c)
            case Failed(error) =>
              && r.Failure? && c' == c && stats' == stats
              && (error.BrokenRead? ==> r.error != TooLarge)
              && (error.SizeLimit? ==> r.error == TooLarge || (r.error == DiskFailed && env.disk == Some(0)))
  {
    var s, cap := c.source.stream, MaxBytes(c.maxMB) + 1;
    ExhaustedRepeats(s, cap);
    if env.disk.Some? && env.disk.value > 0 {
      ExhaustedRepeats(s, Min(env.disk.value, cap));
    }
  }

  /** Once the stream has ended in an error, nothing changes any more. */
  lemma {:induction false} FailedForGood(stats: Stats, c: Context, error: ReadError, steps: seq<(Env, Action)>)
    requires Spent(c, Failed(error))
    ensures Run(stats, c, steps) == (c, stats)
    decreases |steps|
  {
    if steps != [] {
      var (env, a) := steps[0];
      SpentAccess(env, stats, c, Failed(error));
      if a.ReadSource? && a.n > 0 {
        ExhaustedRepeats(c.source.stream, a.n);
      }
      FailedForGood(stats, c, error, steps[1..]);
    }
  }

  /** The stream is at its end: whatever is stored from now on is empty. */
  ghost predicate Emptied(c: Context) {
    && ContextOk(c) && c.legacy.None? && MaxBytes(c.maxMB) >= 0
    && (c.slot.Some? ==> c.slot.value.Content() == [])
    && (c.source.Incoming? ==> Exhausted(c.source.stream) && Fate(c.source.stream) == AtEnd)
  }

  lemma EmptiedAccess(env: Env, stats: Stats, c: Context)
    requires Emptied(c)
    ensures var (c', _, r) := Got(env, stats, c);
            && Emptied(c')
            && (r.Success? ==> r.value.Content() == [])
            && (r.Failure? ==> r.error != TooLarge)
            && (c.source.Incoming? && env.disk.None? ==> r.Success?)
  {
    GotOk(env, stats, c);
    if c.slot.Some? {
      StoredIsPresented(env, stats, c);
    } else if c.source.Incoming? {
      SpentAccess(env, stats, c, AtEnd);
    }
  }

  lemma ActKeepsEmptied(env: Env, stats: Stats, c: Context, a: Action)
    requires Emptied(c)
    ensures Emptied(Act(env, stats, c, a).0)
  {
    EmptiedAccess(env, stats, c);
    match a
    case Get =>
    case Attach => GotOk(env, stats, c);
    case Unmarshal(parseFails) =>
      GotOk(env, stats, c);
      UnmarshalledOk(env, stats, c, parseFails);
    case ReadSource(n) =>
      AppliedOk(c, Read(n));
      if n > 0 && c.source.Incoming? {
        ExhaustedRepeats(c.source.stream, n);
      }
    case Use(op) => AppliedOk(c, op);
    case Cleanup =>
  }

  lemma {:induction false} EmptiedForGood(stats: Stats, c: Context, steps: seq<(Env, Action)>)
    requires Emptied(c)
    ensures Emptied(Run(stats, c, steps).0)
    decreases |steps|
  {
    if steps != [] {
      var (env, a) := steps[0];
      ActKeepsEmptied(env, stats, c, a);
      var (c', stats') := Act(env, stats, c, a);
      EmptiedForGood(stats', c', steps[1..]);
    }
  }

  /** The context after a first access that failed, or that succeeded and was cleaned up. */
  function AfterFirst(env: Env, stats: Stats, c: Context): (Context, Stats)
    requires ContextOk(c)
  {
    var (c1, stats1, r) := Got(env, stats, c);
    GotOk(env, stats, c);
    if r.Failure? then (c1, stats1) else Cleaned(stats1, c1)
  }

  lemma FirstAccessSpends(env: Env, stats: Stats, c: Context)
    requires Untouched(c) && env.disk.None? && MaxBytes(c.maxMB) >= 0 && AsRouted(c.source.stream, MaxBytes(c.maxMB))
    ensures Spent(AfterFirst(env, stats, c).0, Left(c.source.stream))
  {
    GotOk(env, stats, c);
    FateAfterReading(c.source.stream, MaxBytes(c.maxMB));
  }

  /** The body is read from its stream once.  After a failed first access, or after the
      cleanup of a successful one, and after any further steps:
      - a relayed body (behind the limit) that was too large is too large again;
      - a relayed body that was read to its end, like an absent body, reads as empty, and
        once a parser or the relay has replaced the request's body it fails otherwise;
      - a body that broke off, and any other body of another route, fails otherwise. */
  lemma LaterAccess(env: Env, stats: Stats, c: Context, steps: seq<(Env, Action)>, again: Env)
    requires Untouched(c) && env.disk.None? && again.disk.None?
    requires MaxBytes(c.maxMB) >= 0 && AsRouted(c.source.stream, MaxBytes(c.maxMB))
    ensures ContextOk(AfterFirst(env, stats, c).0)
    ensures var (ended, after) := AfterFirst(env, stats, c);
            var (c2, stats2) := Run(after, ended, steps);
            && ContextOk(c2)
            && var answer := Got(again, stats2, c2).2;
               match Left(c.source.stream)
               case AtEnd =>
                 && (c2.source.Incoming? ==> answer.Success?)
                 && (answer.Success? ==> answer.value.Content() == [])
                 && (answer.Failure? ==> answer.error != TooLarge)
               case Failed(error) =>
                 answer.Failure? && (answer.error == TooLarge <==> error == SizeLimit)
  {
    FirstAccessSpends(env, stats, c);
    var (ended, after) := AfterFirst(env, stats, c);
    match Left(c.source.stream)
    case AtEnd =>
      EmptiedForGood(after, ended, steps);
      EmptiedAccess(again, Run(after, ended, steps).1, Run(after, ended, steps).0);
    case Failed(error) =>
      FailedForGood(after, ended, error, steps);
      SpentAccess(again, after, ended, Failed(error));
  }

  /** Reading up to `cap` bytes of an untouched stream reaches its end or its limit. */
  predicate ReachesStop(s: Stream, cap: int) {
    cap > 0 && (|s.bytes| < cap || (s.limit.Some? && s.limit.value.left < |s.bytes| && s.limit.value.left < cap))
  }

  /** A stream of which `cap` bytes were read before it was closed. */
  lemma PartlyRead(s: Stream, cap: nat, maxBytes: nat)
    requires AsRouted(s, maxBytes) && cap <= maxBytes + 1
    ensures var r := Whole(Delivery(s, cap).2.Close(), maxBytes).0;
            if ReachesStop(s, cap) then
              match Left(s)
              case AtEnd => r == Success([])
              case Failed(error) => r.Failure? && (r.error == TooLarge <==> error == SizeLimit)
            else if !s.buffered then
              r.Failure? && r.error != TooLarge
            else
              && (r.Success? <==> !s.broken && |s.bytes| <= Allowed(s, maxBytes))
              && (r.Success? ==> r.value == s.bytes[cap..])
              && (r.Failure? ==> (r.error == TooLarge <==> |s.bytes| > Allowed(s, maxBytes)))
  {
  }

  /** What an unstored body answers when the disk works: what its stream gives in full. */
  lemma AccessGivesWhole(env: Env, stats: Stats, c: Context)
    requires ContextOk(c) && c.slot.None? && c.legacy.None? && env.disk.None?
    ensures var r, whole := Got(env, stats, c).2, Whole(StreamOf(c.source), MaxBytes(c.maxMB)).0;
            && (r.Success? <==> whole.Success?)
            && (r.Success? ==> r.value.Content() == whole.value)
            && (r.Failure? ==> (r.error == TooLarge <==> whole.error == TooLarge))
  {
  }

  /** A first access on its way to a disk that fails once `after` bytes are read, and the
      next one:
      - the first fails, as too large exactly when more than the limits was read by then;
      - if the stream had been read to its end or its limit, the next answers as after a
        first access to a working disk;
      - otherwise the rest is lost with the connection and the next access fails, unless
        the rest is buffered: then the next access succeeds, but stores the rest only. */
  lemma SpoiledAccess(env: Env, stats: Stats, c: Context, after: nat, again: Env)
    requires Untouched(c) && MaxBytes(c.maxMB) >= 0 && AsRouted(c.source.stream, MaxBytes(c.maxMB))
    requires c.contentLength > 0 && PrefersDisk(env.cfg, stats, c.contentLength)
    requires env.disk == Some(after) && again.disk.None?
    ensures var (c1, stats1, r) := Got(env, stats, c);
            var s, maxBytes := c.source.stream, MaxBytes(c.maxMB);
            var allowed, cap := Allowed(s, maxBytes), Min(after, maxBytes + 1);
            && ContextOk(c1) && c1.slot.None? && stats1 == stats
            && r.Failure? && (r.error == TooLarge <==> after > allowed && |s.bytes| > allowed)
            && var answer := Got(again, stats1, c1).2;
               if ReachesStop(s, cap) then
                 match Left(s)
                 case AtEnd => answer.Success? && answer.value.Content() == []
                 case Failed(error) => answer.Failure? && (answer.error == TooLarge <==> error == SizeLimit)
               else if !s.buffered then
                 answer.Failure? && answer.error != TooLarge
               else
                 && (answer.Success? <==> !s.broken && |s.bytes| <= allowed)
                 && (answer.Success? ==> answer.value.Content() == s.bytes[cap..])
                 && (answer.Failure? ==> (answer.error == TooLarge <==> |s.bytes| > allowed))
  {
    var s, maxBytes := c.source.stream, MaxBytes(c.maxMB);
    GotOk(env, stats, c);
    SpoiledRest(s, maxBytes, after);
    PartlyRead(s, Min(after, maxBytes + 1), maxBytes);
    AccessGivesWhole(again, stats, Got(env, stats, c).0);
  }

  lemma SpoiledRest(s: Stream, maxBytes: nat, after: nat)
    requires AsRouted(s, maxBytes)
    ensures Spoiled(s, maxBytes, after).1 == Delivery(s, Min(after, maxBytes + 1)).2
    ensures Spoiled(s, maxBytes, after).0 == TooLarge <==> after > Allowed(s, maxBytes) && |s.bytes| > Allowed(s, maxBytes)
  {
  }

  /** A setting so large that the limit overflows to a negative one refuses every body,
      read or not, as too large. */
  lemma OverflowRefuses(env: Env, stats: Stats, c: Context)
    requires ContextOk(c) && c.slot.None? && c.legacy.None? && MaxBytes(c.maxMB) < 0 && env.disk.None?
    ensures Got(env, stats, c).2 == Failure(TooLarge)
  {
  }

  // ---------------------------------------------------------------------
  // A request's share of the counters
  // ---------------------------------------------------------------------

  ghost function Share(q: Measure, c: Context): nat {
    if c.slot.Some? then Weight(q, c.slot.value) else 0
  }

  /** The counters are what they were before the request, plus its stored body. */
  ghost predicate Balanced(base: Stats, stats: Stats, c: Context) {
    && stats.diskFiles == base.diskFiles + Share(DiskFiles, c)
    && stats.diskBytes == base.diskBytes + Share(DiskBytes, c)
    && stats.memoryBuffers == base.memoryBuffers + Share(MemoryBuffers, c)
    && stats.memoryBytes == base.memoryBytes + Share(MemoryBytes, c)
  }

  lemma GotBalanced(env: Env, base: Stats, stats: Stats, c: Context)
    requires ContextOk(c) && Balanced(base, stats, c)
    ensures Balanced(base, Got(env, stats, c).1, Got(env, stats, c).0)
  {
    if c.slot.Some? {
      StoredIsPresented(env, stats, c);
    } else if c.legacy.Some? {
      CreationWeighs(env.cfg, stats, c.legacy.value, env.disk.Some?);
    } else {
      ReaderCreationWeighs(env.cfg, stats, StreamOf(c.source), c.contentLength, MaxBytes(c.maxMB), env.disk);
    }
  }

  lemma ActBalanced(env: Env, base: Stats, stats: Stats, c: Context, a: Action)
    requires ContextOk(c) && Balanced(base, stats, c) && base.diskFiles >= 0 && base.diskBytes >= 0
    ensures var (c', stats') := Act(env, stats, c, a); Balanced(base, stats', c')
  {
    GotOk(env, stats, c);
    GotBalanced(env, base, stats, c);
    if c.slot.Some? && a != Cleanup {
      ActKeepsBody(env, stats, c, a);
    } else if a.Unmarshal? {
      UnmarshalledOk(env, stats, c, a.parseFails);
    }
  }

  /** Over every sequence of steps of a request the counters account for exactly its
      stored body: a cleanup at the end gives everything back. */
  lemma {:induction false} RequestBalanced(base: Stats, stats: Stats, c: Context, steps: seq<(Env, Action)>)
    requires ContextOk(c) && Balanced(base, stats, c) && base.diskFiles >= 0 && base.diskBytes >= 0
    ensures var (c', stats') := Run(stats, c, steps);
            && ContextOk(c') && Balanced(base, stats', c')
            && Balanced(base, Cleaned(stats', c').1, c'.(slot := None))
    decreases |steps|
  {
    if steps != [] {
      var (env, a) := steps[0];
      ActBalanced(env, base, stats, c, a);
      ActOk(env, stats, c, a);
      var (c', stats') := Act(env, stats, c, a);
      RequestBalanced(base, stats', c', steps[1..]);
    }
  }

  // ---------------------------------------------------------------------
  // The request context as an object
  // ---------------------------------------------------------------------

  /** The request's body: the incoming stream, or `io.NopCloser` around a storage. */
  datatype BodyRef = Raw(stream: Stream) | NopCloser(storage: StorageRef)

  class RequestContext {
    var slot: Option<StorageRef>
    var body: BodyRef
    const legacy: Option<seq<Byte>>
    const contentLength: int
    const maxMB: int

    ghost function Objects(): set<object>
      reads this
    {
      (if slot.Some? then {slot.value.Object()} else {}) + (if body.NopCloser? then {body.storage.Object()} else {})
    }

    /** A storage that is no longer in the slot is closed. */
    ghost predicate Valid()
      reads this, Objects()
    {
      && this !in Objects()
      && ContextOk(State())
      && (body.NopCloser? && slot != Some(body.storage) ==> body.storage.State().Ok() && !body.storage.State().Open())
    }

    ghost function State(): Context
      reads this, Objects()
    {
      Context(if slot.Some? then Some(slot.value.State()) else None, legacy, Reads(), contentLength, maxMB)
    }

    function Reads(): Source
      reads this
    {
      match body
      case Raw(stream) => Incoming(stream)
      case NopCloser(storage) => if slot == Some(storage) then Current else Stale
    }

    constructor (stream: Stream, contentLength: int, maxMB: int, legacy: Option<seq<Byte>>)
      requires legacy.Some? ==> |legacy.value| <= INT64_MAX
      ensures Valid() && Objects() == {}
      ensures State() == Context(None, legacy, Incoming(stream), contentLength, maxMB)
    {
      slot, body := None, Raw(stream);
      this.legacy, this.contentLength, this.maxMB := legacy, contentLength, maxMB;
    }

    method GetBodyStorage(env: Env, stats: DiskCacheStats) returns (r: Result<StorageRef>)
      requires Valid() && stats !in Objects()
      modifies this, Objects(), stats
      ensures Valid() && stats !in Objects() && fresh(Objects() - old(Objects()))
      ensures var (c, after, want) := Got(env, old(stats.State()), old(State()));
              && State() == c && stats.State() == after
              && (r.Success? <==> want.Success?)
              && (r.Success? ==> slot == Some(r.value))
              && (r.Failure? ==> want == Failure(r.error))
    {
      if slot.Some? {
        var sought := slot.value.Seek(0, SeekStart);
        return if sought.Position? then Success(slot.value) else Failure(Closed);
      }
      if legacy.Some? {
        var storage := CreateBodyStorage(env.cfg, stats, legacy.value, env.disk.Some?);
        slot := Some(storage);
        return Success(storage);
      }
      var rest;
      r, rest := CreateBodyStorageFromReader(env.cfg, stats, StreamOf(Reads()), contentLength, MaxBytes(maxMB), env.disk);
      if body.Raw? {
        body := Raw(rest.Close());
      }
      if r.Success? {
        slot := Some(r.value);
      }
    }

    method ParseStored(storage: StorageRef, parseFails: bool) returns (r: Result<seq<Byte>>)
      requires Valid() && slot == Some(storage)
      modifies this, storage.Object()
      ensures Valid() && slot == Some(storage) && Objects() <= old(Objects())
      ensures (State(), r) == Parsed(old(State()), parseFails)
    {
      PerformOk(storage.State(), Bytes);
      var content := storage.Bytes();
      if !content.Data? {
        return Failure(Closed);
      }
      if parseFails {
        return Failure(ParseFailed);
      }
      PerformOk(storage.State(), Seek(0, SeekStart));
      var sought := storage.Seek(0, SeekStart);
      if !sought.Position? {
        return Failure(Closed);
      }
      body := NopCloser(storage);
      return Success(content.bytes);
    }

    method UnmarshalBodyReusable(env: Env, stats: DiskCacheStats, parseFails: bool) returns (r: Result<seq<Byte>>)
      requires Valid() && stats !in Objects()
      modifies this, Objects(), stats
      ensures Valid() && stats !in Objects() && fresh(Objects() - old(Objects()))
      ensures (State(), stats.State(), r) == Unmarshalled(env, old(stats.State()), old(State()), parseFails)
    {
      GotOk(env, stats.State(), State());
      var got := GetBodyStorage(env, stats);
      if got.Failure? {
        return Failure(got.error);
      }
      r := ParseStored(got.value, parseFails);
    }

    method CleanupBodyStorage(stats: DiskCacheStats)
      requires Valid() && stats !in Objects()
      modifies this, Objects(), stats
      ensures Valid() && Objects() <= old(Objects())
      ensures (State(), stats.State()) == Cleaned(old(stats.State()), old(State()))
    {
      if slot.Some? {
        slot.value.Close(stats);
        slot := None;
      }
    }
  }
}
