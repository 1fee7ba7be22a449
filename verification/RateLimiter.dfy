/** The in-memory sliding-window rate limiter of common/rate-limit.go.

    The limiter keeps a short queue of accepted request times per key and a sweep
    deletes queues that look expired.  The law it is meant to implement speaks of
    the whole history: a request is accepted exactly when fewer than its limit of
    the accepted requests of its key lie within the last `duration` seconds.

    The limit comes with every request and may differ between requests of one key
    (middleware/model-rate-limit.go). */
module RateLimiter {
  import opened Basics

  type Key = string
  type Store = map<Key, seq<int>>

  /** The answer to a request (`Request`, without the clock). */
  predicate Allows(store: Store, key: Key, maxRequestNum: int, duration: int, now: int)
    requires key in store ==> store[key] != []
  {
    key in store ==> |store[key]| < maxRequestNum || now - store[key][0] >= duration
  }

  /** The queues after a request. */
  function AfterRequest(store: Store, key: Key, maxRequestNum: int, duration: int, now: int): Store
    requires key in store ==> store[key] != []
  {
    if !Allows(store, key, maxRequestNum, duration, now) then store
    else if key !in store then store[key := [now]]
    else if |store[key]| < maxRequestNum then store[key := store[key] + [now]]
    else store[key := store[key][1..] + [now]]
  }

  predicate Stale(queue: seq<int>, expiration: int, now: int) {
    queue == [] || now - queue[|queue| - 1] > expiration
  }

  /** The queues after a sweep. */
  function AfterSweep(store: Store, expiration: int, now: int): Store {
    map key | key in store && !Stale(store[key], expiration, now) :: store[key]
  }

  class InMemoryRateLimiter {
    var store: Store
    /** `expirationDuration` in whole seconds, 0 for a shorter one. */
    const expiration: int

    /** No queue is ever empty, so `(*queue)[0]` cannot panic. */
    ghost predicate Valid()
      reads this
    {
      forall key :: key in store ==> store[key] != []
    }

    constructor (expiration: int)
      ensures Valid() && store == map[] && this.expiration == expiration
    {
      this.expiration := expiration;
      store := map[];
    }

    method Request(key: Key, maxRequestNum: nat, duration: int, now: int) returns (ok: bool)
      requires Valid()
      modifies this
      ensures Valid()
      ensures ok == Allows(old(store), key, maxRequestNum, duration, now)
      ensures store == AfterRequest(old(store), key, maxRequestNum, duration, now)
    {
      if key in store {
        var queue := store[key];
        if |queue| < maxRequestNum {
          store := store[key := queue + [now]];
          return true;
        } else {
          if now - queue[0] >= duration {
            queue := queue[1..];
            store := store[key := queue + [now]];
            return true;
          } else {
            return false;
          }
        }
      } else {
        store := store[key := []];
        store := store[key := store[key] + [now]];
        assert store[key] == [now];
      }
      return true;
    }

    /** One pass of `clearExpiredItems`; the order of the keys is arbitrary. */
    method ClearExpiredItems(now: int)
      requires Valid()
      modifies this
      ensures Valid()
      ensures store == AfterSweep(old(store), expiration, now)
    {
      var pending := store.Keys;
      while pending != {}
        invariant pending <= old(store).Keys
        invariant store == map key | key in old(store) && (key in pending || !Stale(old(store)[key], expiration, now)) :: old(store)[key]
        decreases |pending|
      {
        var key :| key in pending;
        var queue := store[key];
        var size := |queue|;
        if size == 0 || now - queue[size - 1] > expiration {
          store := store - {key};
        }
        pending := pending - {key};
      }
    }
  }

  // ---------------------------------------------------------------------
  // Runs and the full history
  // ---------------------------------------------------------------------

  datatype Event = Request(key: Key, limit: nat, now: int) | Sweep(now: int)

  /** The limits a key may be used with, its window, and the sweeper's expiration in whole
      seconds: an expiration that is not positive starts no sweeper, one below a second
      starts one and counts as 0. */
  datatype Config = Config(limits: (Key, nat) -> bool, duration: Key -> int, expiration: Option<nat>)

  /** The limiter together with every acceptance there ever was. */
  datatype World = World(store: Store, accepted: map<Key, seq<int>>)

  const EMPTY := World(map[], map[])

  function Accepted(w: World, key: Key): seq<int> {
    if key in w.accepted then w.accepted[key] else []
  }

  function Answer(cfg: Config, w: World, key: Key, limit: nat, now: int): bool
    requires key in w.store ==> w.store[key] != []
  {
    Allows(w.store, key, limit, cfg.duration(key), now)
  }

  function Apply(cfg: Config, w: World, e: Event): (r: World)
    requires forall key :: key in w.store ==> w.store[key] != []
    ensures forall key :: key in r.store ==> r.store[key] != []
  {
    match e
    case Request(key, limit, now) =>
      World(AfterRequest(w.store, key, limit, cfg.duration(key), now),
            if Answer(cfg, w, key, limit, now) then w.accepted[key := Accepted(w, key) + [now]] else w.accepted)
    case Sweep(now) =>
      if cfg.expiration.None? then w else w.(store := AfterSweep(w.store, cfg.expiration.value, now))
  }

  function Run(cfg: Config, events: seq<Event>): (r: World)
    ensures forall key :: key in r.store ==> r.store[key] != []
  {
    if events == [] then EMPTY
    else Apply(cfg, Run(cfg, events[..|events| - 1]), events[|events| - 1])
  }

  /** The clock never goes back, and requests use the limits of their key. */
  ghost predicate Legal(cfg: Config, events: seq<Event>) {
    && (forall i, j :: 0 <= i < j < |events| ==> events[i].now <= events[j].now)
    && (forall i :: 0 <= i < |events| && events[i].Request? ==> cfg.limits(events[i].key, events[i].limit))
  }

  /** How many of the times lie within the last `duration` seconds. */
  function CountWithin(times: seq<int>, now: int, duration: int): nat {
    if times == [] then 0
    else CountWithin(times[..|times| - 1], now, duration) + if now - times[|times| - 1] < duration then 1 else 0
  }

  /** The law, for the last request of a run. */
  ghost predicate AnswersByHistory(cfg: Config, events: seq<Event>) {
    events != [] && events[|events| - 1].Request? ==>
      var before, e := Run(cfg, events[..|events| - 1]), events[|events| - 1];
      Answer(cfg, before, e.key, e.limit, e.now) <==>
        CountWithin(Accepted(before, e.key), e.now, cfg.duration(e.key)) < e.limit
  }

  /** The law on every run. */
  ghost predicate Lawful(cfg: Config) {
    forall events :: Legal(cfg, events) ==> AnswersByHistory(cfg, events)
  }

  /** The condition on the configuration. */
  ghost predicate Sound(cfg: Config) {
    forall key: Key, m: nat, n: nat :: cfg.limits(key, m) && cfg.limits(key, n) ==> PairSound(cfg, key, m, n)
  }

  /** No limit is zero, an expired queue is out of the window, and, unless the window is
      empty, the limit never changes. */
  predicate PairSound(cfg: Config, key: Key, m: nat, n: nat) {
    n >= 1 && SweepSound(cfg, key) && (cfg.duration(key) <= 0 || m == n)
  }

  predicate SweepSound(cfg: Config, key: Key) {
    cfg.expiration.None? || cfg.duration(key) <= cfg.expiration.value + 1
  }

  // ---------------------------------------------------------------------
  // Counting in sorted histories
  // ---------------------------------------------------------------------

  ghost predicate Sorted(times: seq<int>) {
    forall i, j :: 0 <= i < j < |times| ==> times[i] <= times[j]
  }

  ghost predicate Outside(times: seq<int>, now: int, duration: int) {
    forall i :: 0 <= i < |times| ==> now - times[i] >= duration
  }

  lemma {:induction false} CountSplits(a: seq<int>, b: seq<int>, now: int, duration: int)
    ensures CountWithin(a + b, now, duration) == CountWithin(a, now, duration) + CountWithin(b, now, duration)
  {
    if b == [] {
      assert a + b == a;
    } else {
      assert (a + b)[..|a + b| - 1] == a + b[..|b| - 1];
      CountSplits(a, b[..|b| - 1], now, duration);
    }
  }

  lemma {:induction false} CountOutside(times: seq<int>, now: int, duration: int)
    requires Outside(times, now, duration)
    ensures CountWithin(times, now, duration) == 0
  {
    if times != [] {
      CountOutside(times[..|times| - 1], now, duration);
    }
  }

  lemma {:induction false} CountBounded(times: seq<int>, now: int, duration: int)
    ensures CountWithin(times, now, duration) <= |times|
  {
    if times != [] {
      CountBounded(times[..|times| - 1], now, duration);
    }
  }

  lemma {:induction false} CountInside(times: seq<int>, now: int, duration: int)
    requires forall i :: 0 <= i < |times| ==> now - times[i] < duration
    ensures CountWithin(times, now, duration) == |times|
  {
    if times != [] {
      CountInside(times[..|times| - 1], now, duration);
    }
  }

  // ---------------------------------------------------------------------
  // The queue of a key against its history
  // ---------------------------------------------------------------------

  /** The queue of a key; a key that is not stored has an empty one. */
  function QueueOf(w: World, key: Key): seq<int> {
    if key in w.store then w.store[key] else []
  }

  /** A queue is the recent end of the history, and what it lacks is out of the window. */
  ghost predicate QueueOk(cfg: Config, w: World, key: Key, clock: int) {
    && (key in w.store ==> w.store[key] != [])
    && Past(Accepted(w, key), clock)
    && IsRecentEnd(QueueOf(w, key), Accepted(w, key), cfg.duration(key), clock)
  }

  /** A sorted history up to the clock. */
  ghost predicate Past(h: seq<int>, clock: int) {
    Sorted(h) && forall i :: 0 <= i < |h| ==> h[i] <= clock
  }

  /** What the queue has lost of the history. */
  function Older(h: seq<int>, q: seq<int>): seq<int>
    requires |q| <= |h|
  {
    h[..|h| - |q|]
  }

  ghost predicate IsRecentEnd(q: seq<int>, h: seq<int>, duration: int, clock: int) {
    && |q| <= |h|
    && h == Older(h, q) + q
    && Outside(Older(h, q), clock, duration)
  }

  lemma QueueAges(cfg: Config, w: World, key: Key, clock: int, now: int)
    requires QueueOk(cfg, w, key, clock) && clock <= now
    ensures QueueOk(cfg, w, key, now)
  {
  }

  /** The limit that is in force: a queue that was filled under a greater limit keeps its
      length, and there is always room for one. */
  function InForce(limit: nat, queueLength: nat): nat {
    var n := if limit < queueLength then queueLength else limit;
    if n == 0 then 1 else n
  }

  /** The short queue answers as the whole history would, for the limit in force. */
  lemma QueueAnswers(cfg: Config, w: World, key: Key, limit: nat, now: int)
    requires QueueOk(cfg, w, key, now)
    ensures key in w.store ==> w.store[key] != []
    ensures Answer(cfg, w, key, limit, now) <==>
            CountWithin(Accepted(w, key), now, cfg.duration(key)) < InForce(limit, |QueueOf(w, key)|)
  {
    EndAnswers(QueueOf(w, key), Accepted(w, key), limit, cfg.duration(key), now);
  }

  lemma EndAnswers(q: seq<int>, h: seq<int>, limit: nat, d: int, now: int)
    requires Sorted(h) && IsRecentEnd(q, h, d, now)
    ensures q == [] || |q| < limit || now - q[0] >= d <==> CountWithin(h, now, d) < InForce(limit, |q|)
  {
    var older := Older(h, q);
    CountSplits(older, q, now, d);
    CountOutside(older, now, d);
    CountBounded(q, now, d);
    if q != [] {
      HeadDivides(older, q, h);
      if now - q[0] >= d {
        StaleHeadCounts(q, now, d);
      } else {
        FreshHeadCounts(q, now, d);
      }
    }
  }

  lemma HeadDivides(older: seq<int>, q: seq<int>, h: seq<int>)
    requires q != [] && h == older + q && Sorted(h)
    ensures Sorted(q)
  {
    var n := |older|;
    forall i, j | 0 <= i < j < |q| ensures q[i] <= q[j] {
      assert q[i] == h[n + i] && q[j] == h[n + j];
    }
  }

  /** With the first of a list outside the window, not all of it is within. */
  lemma StaleHeadCounts(q: seq<int>, now: int, d: int)
    requires q != [] && now - q[0] >= d
    ensures CountWithin(q, now, d) < |q|
  {
    assert q == [q[0]] + q[1..];
    CountSplits([q[0]], q[1..], now, d);
    CountOutside([q[0]], now, d);
    CountBounded(q[1..], now, d);
  }

  /** With the first of a sorted list within the window, all of it is. */
  lemma FreshHeadCounts(times: seq<int>, now: int, duration: int)
    requires times != [] && Sorted(times)
    ensures now - times[0] < duration ==> CountWithin(times, now, duration) == |times|
  {
    if now - times[0] < duration {
      CountInside(times, now, duration);
    }
  }

  lemma RequestKeepsQueue(cfg: Config, w: World, key: Key, limit: nat, now: int)
    requires forall k :: k in w.store ==> w.store[k] != []
    requires QueueOk(cfg, w, key, now)
    ensures QueueOk(cfg, Apply(cfg, w, Request(key, limit, now)), key, now)
  {
    if Answer(cfg, w, key, limit, now) {
      RequestPushes(cfg, w, key, limit, now);
      PastGrows(Accepted(w, key), now);
      PushKeepsEnd(QueueOf(w, key), Accepted(w, key), limit, cfg.duration(key), now);
    }
  }

  /** A full queue loses its head. */
  function Pushed(q: seq<int>, limit: nat, now: int): seq<int> {
    (if |q| < limit || q == [] then q else q[1..]) + [now]
  }

  lemma RequestPushes(cfg: Config, w: World, key: Key, limit: nat, now: int)
    requires forall k :: k in w.store ==> w.store[k] != []
    requires Answer(cfg, w, key, limit, now)
    ensures var w' := Apply(cfg, w, Request(key, limit, now));
            && key in w'.store && w'.store[key] == Pushed(QueueOf(w, key), limit, now)
            && Accepted(w', key) == Accepted(w, key) + [now]
  {
    assert [] + [now] == [now];
  }

  lemma PastGrows(h: seq<int>, now: int)
    requires Past(h, now)
    ensures Past(h + [now], now)
  {
  }

  /** The end of a history stays its end when both grow; a head that is pushed out is out of
      the window. */
  lemma PushKeepsEnd(q: seq<int>, h: seq<int>, limit: nat, duration: int, now: int)
    requires IsRecentEnd(q, h, duration, now) && (q == [] || |q| < limit || now - q[0] >= duration)
    ensures IsRecentEnd(Pushed(q, limit, now), h + [now], duration, now)
  {
    if |q| < limit || q == [] {
      EndGrows(Older(h, q), q, now);
    } else {
      EndGrows(Older(h, q) + [q[0]], q[1..], now);
      assert h == Older(h, q) + [q[0]] + q[1..];
    }
  }

  lemma EndGrows(older: seq<int>, q: seq<int>, now: int)
    ensures var h' := older + q + [now]; h' == older + (q + [now]) && Older(h', q + [now]) == older
  {
  }

  lemma SweepKeepsQueue(cfg: Config, w: World, key: Key, now: int)
    requires forall k :: k in w.store ==> w.store[k] != []
    requires QueueOk(cfg, w, key, now) && SweepSound(cfg, key)
    ensures QueueOk(cfg, Apply(cfg, w, Sweep(now)), key, now)
  {
    if cfg.expiration.Some? && key in w.store && Stale(w.store[key], cfg.expiration.value, now) {
      StaleQueueOutside(w.store[key], Accepted(w, key), cfg.expiration.value, cfg.duration(key), now);
    }
  }

  /** A queue whose last request is stale belongs to a history that is out of the window. */
  lemma StaleQueueOutside(q: seq<int>, h: seq<int>, expiration: int, duration: int, now: int)
    requires q != [] && Stale(q, expiration, now) && duration <= expiration + 1
    requires Sorted(h) && IsRecentEnd(q, h, duration, now)
    ensures IsRecentEnd([], h, duration, now)
  {
    var last := |h| - 1;
    assert q[|q| - 1] == h[last];
    forall i | 0 <= i < |h| ensures now - h[i] >= duration {
      assert i < last ==> h[i] <= h[last];
    }
    assert Older(h, []) == h && h + [] == h;
  }

  lemma {:induction false} RunKeepsQueues(cfg: Config, events: seq<Event>, key: Key, clock: int)
    requires Legal(cfg, events) && SweepSound(cfg, key)
    requires forall i :: 0 <= i < |events| ==> events[i].now <= clock
    ensures QueueOk(cfg, Run(cfg, events), key, clock)
  {
    if events != [] {
      var before, e := events[..|events| - 1], events[|events| - 1];
      RunKeepsQueues(cfg, before, key, e.now);
      var w := Run(cfg, before);
      match e {
        case Sweep(now) => SweepKeepsQueue(cfg, w, key, now);
        case Request(k, limit, now) =>
          if k == key {
            RequestKeepsQueue(cfg, w, key, limit, now);
          }
      }
      QueueAges(cfg, Run(cfg, events), key, e.now, clock);
    }
  }

  /** For every run, across any interleaving with the sweep, with other keys and with other
      limits: a request is accepted exactly when fewer than the limit in force of the
      accepted ones lie within the window. */
  lemma AnswersByLimitInForce(cfg: Config, events: seq<Event>)
    requires Legal(cfg, events) && events != [] && events[|events| - 1].Request?
    requires SweepSound(cfg, events[|events| - 1].key)
    ensures var before, e := Run(cfg, events[..|events| - 1]), events[|events| - 1];
            Answer(cfg, before, e.key, e.limit, e.now) <==>
              CountWithin(Accepted(before, e.key), e.now, cfg.duration(e.key)) < InForce(e.limit, |QueueOf(before, e.key)|)
  {
    var before, e := events[..|events| - 1], events[|events| - 1];
    RunKeepsQueues(cfg, before, e.key, e.now);
    QueueAnswers(cfg, Run(cfg, before), e.key, e.limit, e.now);
  }

  /** The greatest limit a key has been used with, and at least one. */
  function Peak(events: seq<Event>, key: Key): (r: nat)
    ensures r >= 1
  {
    if events == [] then 1
    else
      var before, e := Peak(events[..|events| - 1], key), events[|events| - 1];
      if e.Request? && e.key == key && e.limit > before then e.limit else before
  }

  /** No queue outgrows the greatest limit of its key so far. */
  lemma {:induction false} QueueWithinPeak(cfg: Config, events: seq<Event>, key: Key)
    ensures |QueueOf(Run(cfg, events), key)| <= Peak(events, key)
  {
    if events != [] {
      var before, e := events[..|events| - 1], events[|events| - 1];
      QueueWithinPeak(cfg, before, key);
      var w := Run(cfg, before);
      if e.Request? && e.key == key && Answer(cfg, w, key, e.limit, e.now) {
        RequestPushes(cfg, w, key, e.limit, e.now);
      }
    }
  }

  // ---------------------------------------------------------------------
  // Exactly when the law holds
  // ---------------------------------------------------------------------

  lemma {:induction false} PeakOfOneLimit(cfg: Config, events: seq<Event>, key: Key, limit: nat)
    requires Legal(cfg, events) && limit >= 1 && forall n: nat :: cfg.limits(key, n) ==> n == limit
    ensures Peak(events, key) <= limit
  {
    if events != [] {
      PeakOfOneLimit(cfg, events[..|events| - 1], key, limit);
    }
  }

  /** Under a sound configuration every answer is that of the full history. */
  lemma SoundAnswersByHistory(cfg: Config, events: seq<Event>)
    requires Legal(cfg, events) && Sound(cfg)
    ensures AnswersByHistory(cfg, events)
  {
    if events != [] && events[|events| - 1].Request? {
      var before, e := events[..|events| - 1], events[|events| - 1];
      assert cfg.limits(e.key, e.limit) && PairSound(cfg, e.key, e.limit, e.limit);
      AnswersByLimitInForce(cfg, events);
      if cfg.duration(e.key) <= 0 {
        RunKeepsQueues(cfg, before, e.key, e.now);
        CountOutside(Accepted(Run(cfg, before), e.key), e.now, cfg.duration(e.key));
      } else {
        forall n: nat | cfg.limits(e.key, n) ensures n == e.limit {
          assert PairSound(cfg, e.key, n, e.limit);
        }
        PeakOfOneLimit(cfg, before, e.key, e.limit);
        QueueWithinPeak(cfg, before, e.key);
      }
    }
  }

  /** A limit of zero still lets the first request through. */
  lemma ZeroLimitBreaksLaw(cfg: Config, key: Key)
    requires cfg.limits(key, 0)
    ensures var events := [Request(key, 0, 0)]; Legal(cfg, events) && !AnswersByHistory(cfg, events)
  {
    assert [Request(key, 0, 0)][..0] == [];
  }

  function Burst(key: Key, limit: nat, now: int, n: nat): (r: seq<Event>)
    ensures |r| == n && forall i :: 0 <= i < n ==> r[i] == Request(key, limit, now)
  {
    if n == 0 then [] else Burst(key, limit, now, n - 1) + [Request(key, limit, now)]
  }

  function Times(t: int, n: nat): (r: seq<int>)
    ensures |r| == n && forall i :: 0 <= i < n ==> r[i] == t
  {
    seq(n, _ => t)
  }

  /** A burst up to the limit is accepted and remembered in full. */
  lemma {:induction false} BurstAccepted(cfg: Config, key: Key, limit: nat, n: nat)
    requires n <= limit
    ensures Remembers(Run(cfg, Burst(key, limit, 0, n)), key, Times(0, n), Times(0, n))
  {
    if n > 0 {
      var before := Burst(key, limit, 0, n - 1);
      BurstAccepted(cfg, key, limit, n - 1);
      assert Burst(key, limit, 0, n)[..n - 1] == before;
      RequestPushes(cfg, Run(cfg, before), key, limit, 0);
      assert Times(0, n - 1) + [0] == Times(0, n);
    }
  }

  ghost predicate Remembers(w: World, key: Key, q: seq<int>, h: seq<int>) {
    QueueOf(w, key) == q && Accepted(w, key) == h
  }

  /** A burst, a sweep once it has expired, and one request more. */
  function LateSweep(key: Key, limit: nat, expiration: nat): seq<Event> {
    Burst(key, limit, 0, limit) + [Sweep(expiration + 1)] + [Request(key, limit, expiration + 1)]
  }

  /** A window longer than the expiration loses its requests to the sweep. */
  lemma LateSweepBreaksLaw(cfg: Config, key: Key, limit: nat)
    requires cfg.limits(key, limit) && limit >= 1 && !SweepSound(cfg, key)
    ensures var events := LateSweep(key, limit, cfg.expiration.value); Legal(cfg, events) && !AnswersByHistory(cfg, events)
  {
    var now := cfg.expiration.value + 1;
    var burst := Burst(key, limit, 0, limit);
    var swept := burst + [Sweep(now)];
    var events := LateSweep(key, limit, cfg.expiration.value);
    BurstAccepted(cfg, key, limit, limit);
    assert events[..|events| - 1] == swept;
    assert swept[..|swept| - 1] == burst;
    CountInside(Times(0, limit), now, cfg.duration(key));
  }

  /** A burst up to a limit, and after the window `j` requests under a lower limit. */
  function Lowered(key: Key, high: nat, low: nat, duration: int, j: nat): seq<Event> {
    Burst(key, high, 0, high) + Burst(key, low, duration, j)
  }

  lemma LoweredGrows(key: Key, high: nat, low: nat, duration: int, j: nat)
    ensures Lowered(key, high, low, duration, 0) == Burst(key, high, 0, high)
    ensures Lowered(key, high, low, duration, j + 1) == Lowered(key, high, low, duration, j) + [Request(key, low, duration)]
  {
  }

  lemma RunGrows(cfg: Config, events: seq<Event>, e: Event)
    ensures Run(cfg, events + [e]) == Apply(cfg, Run(cfg, events), e)
  {
    assert (events + [e])[..|events + [e]| - 1] == events;
  }

  /** Of a full queue the first times have been replaced by later ones. */
  function Replaced(high: nat, t: int, j: nat): seq<int>
    requires j <= high
  {
    Times(0, high - j) + Times(t, j)
  }

  lemma ReplacedGrows(high: nat, t: int, j: nat)
    requires j < high
    ensures Replaced(high, t, j) != [] && Replaced(high, t, j)[0] == 0
    ensures Replaced(high, t, j)[1..] + [t] == Replaced(high, t, j + 1)
    ensures Times(0, high) + Times(t, j) + [t] == Times(0, high) + Times(t, j + 1)
  {
  }

  lemma OneMoreLowered(cfg: Config, w: World, key: Key, high: nat, low: nat, j: nat)
    requires forall k :: k in w.store ==> w.store[k] != []
    requires j < high && low < high && Remembers(w, key, Replaced(high, cfg.duration(key), j), Times(0, high) + Times(cfg.duration(key), j))
    ensures var d := cfg.duration(key);
            && Answer(cfg, w, key, low, d)
            && Remembers(Apply(cfg, w, Request(key, low, d)), key, Replaced(high, d, j + 1), Times(0, high) + Times(d, j + 1))
  {
    ReplacedGrows(high, cfg.duration(key), j);
    RequestPushes(cfg, w, key, low, cfg.duration(key));
  }

  /** The queue keeps the length it got under the higher limit. */
  lemma {:induction false} LoweredRemembers(cfg: Config, key: Key, high: nat, low: nat, j: nat)
    requires low < high && j <= low
    ensures var d := cfg.duration(key);
            Remembers(Run(cfg, Lowered(key, high, low, d, j)), key, Replaced(high, d, j), Times(0, high) + Times(d, j))
  {
    var d := cfg.duration(key);
    if j == 0 {
      LoweredGrows(key, high, low, d, 0);
      BurstAccepted(cfg, key, high, high);
      assert Times(0, high) + Times(d, 0) == Times(0, high);
    } else {
      var before := Lowered(key, high, low, d, j - 1);
      LoweredRemembers(cfg, key, high, low, j - 1);
      LoweredGrows(key, high, low, d, j - 1);
      RunGrows(cfg, before, Request(key, low, d));
      OneMoreLowered(cfg, Run(cfg, before), key, high, low, j - 1);
    }
  }

  /** A lowered limit is not enforced: one request more than it allows is accepted. */
  lemma LoweredLimitBreaksLaw(cfg: Config, key: Key, high: nat, low: nat)
    requires cfg.limits(key, high) && cfg.limits(key, low) && low < high && cfg.duration(key) > 0
    ensures var events := Lowered(key, high, low, cfg.duration(key), low + 1); Legal(cfg, events) && !AnswersByHistory(cfg, events)
  {
    var d := cfg.duration(key);
    var before := Lowered(key, high, low, d, low);
    LoweredLegal(cfg, key, high, low, low + 1);
    LoweredGrows(key, high, low, d, low);
    LawAtLast(cfg, before, key, low, d);
    LoweredRemembers(cfg, key, high, low, low);
    OneMoreLowered(cfg, Run(cfg, before), key, high, low, low);
    LoweredCounts(high, low, d);
  }

  /** The law for one request more. */
  lemma LawAtLast(cfg: Config, before: seq<Event>, key: Key, limit: nat, now: int)
    ensures var w := Run(cfg, before);
            AnswersByHistory(cfg, before + [Request(key, limit, now)]) <==>
              (Answer(cfg, w, key, limit, now) <==> CountWithin(Accepted(w, key), now, cfg.duration(key)) < limit)
  {
    var events := before + [Request(key, limit, now)];
    assert events[..|events| - 1] == before;
  }

  lemma LoweredLegal(cfg: Config, key: Key, high: nat, low: nat, j: nat)
    requires cfg.limits(key, high) && cfg.limits(key, low) && cfg.duration(key) > 0
    ensures Legal(cfg, Lowered(key, high, low, cfg.duration(key), j))
  {
  }

  lemma LoweredCounts(high: nat, low: nat, d: int)
    requires d > 0
    ensures CountWithin(Times(0, high) + Times(d, low), d, d) == low
  {
    CountSplits(Times(0, high), Times(d, low), d, d);
    CountOutside(Times(0, high), d, d);
    CountInside(Times(d, low), d, d);
  }

  /** The law holds on every run if and only if no limit is zero, no window is longer than
      the expiration plus one second, and the limit of a key with a window never changes. */
  lemma LawfulExactlyWhenSound(cfg: Config)
    ensures Lawful(cfg) <==> Sound(cfg)
  {
    if Sound(cfg) {
      forall events: seq<Event> | Legal(cfg, events) ensures AnswersByHistory(cfg, events) {
        SoundAnswersByHistory(cfg, events);
      }
    } else {
      var key: Key, m: nat, n: nat :| cfg.limits(key, m) && cfg.limits(key, n) && !PairSound(cfg, key, m, n);
      if n == 0 {
        ZeroLimitBreaksLaw(cfg, key);
      } else if !SweepSound(cfg, key) {
        LateSweepBreaksLaw(cfg, key, n);
      } else if m < n {
        LoweredLimitBreaksLaw(cfg, key, n, m);
      } else {
        LoweredLimitBreaksLaw(cfg, key, m, n);
      }
    }
  }

  // ---------------------------------------------------------------------
  // How full a window gets
  // ---------------------------------------------------------------------

  /** An accepted request is a full window after the request that many before it, for any
      number that is not below the limit in force. */
  lemma AcceptanceSpaced(cfg: Config, w: World, key: Key, limit: nat, now: int, n: nat)
    requires QueueOk(cfg, w, key, now) && Answer(cfg, w, key, limit, now)
    requires InForce(limit, |QueueOf(w, key)|) <= n <= |Accepted(w, key)|
    ensures now - Accepted(w, key)[|Accepted(w, key)| - n] >= cfg.duration(key)
  {
    var h := Accepted(w, key);
    var m := |h| - n;
    QueueAnswers(cfg, w, key, limit, now);
    assert h == h[..m] + h[m..];
    CountSplits(h[..m], h[m..], now, cfg.duration(key));
    HeadDivides(h[..m], h[m..], h);
    FreshHeadCounts(h[m..], now, cfg.duration(key));
  }

  ghost predicate Spaced(times: seq<int>, limit: nat, duration: int) {
    forall i, j :: 0 <= i && j < |times| && j == i + limit ==> times[j] - times[i] >= duration
  }

  lemma SpacedGrows(h: seq<int>, now: int, limit: nat, duration: int)
    requires limit >= 1 && Spaced(h, limit, duration)
    requires limit <= |h| ==> now - h[|h| - limit] >= duration
    ensures Spaced(h + [now], limit, duration)
  {
  }

  lemma SpacedWidens(h: seq<int>, m: nat, n: nat, duration: int)
    requires Sorted(h) && Spaced(h, m, duration) && m <= n
    ensures Spaced(h, n, duration)
  {
    forall i, j | 0 <= i && j < |h| && j == i + n ensures h[j] - h[i] >= duration {
      assert h[i + m] - h[i] >= duration;
    }
  }

  /** One more event: the history grows by an accepted request of that key, or not at all. */
  lemma HistoryGrows(cfg: Config, w: World, e: Event, key: Key)
    requires forall k :: k in w.store ==> w.store[k] != []
    ensures Accepted(Apply(cfg, w, e), key) ==
            if e.Request? && e.key == key && Answer(cfg, w, key, e.limit, e.now) then Accepted(w, key) + [e.now] else Accepted(w, key)
  {
  }

  /** Whatever the limits, no window ever holds more than the greatest one so far: of any
      that many plus one acceptances, the last is at least `duration` after the first. */
  lemma {:induction false} NoWindowOverfull(cfg: Config, events: seq<Event>, key: Key)
    requires Legal(cfg, events) && SweepSound(cfg, key)
    ensures Spaced(Accepted(Run(cfg, events), key), Peak(events, key), cfg.duration(key))
  {
    if events != [] {
      var before, e := events[..|events| - 1], events[|events| - 1];
      var w, peak := Run(cfg, before), Peak(events, key);
      var h := Accepted(w, key);
      NoWindowOverfull(cfg, before, key);
      RunKeepsQueues(cfg, before, key, e.now);
      HistoryGrows(cfg, w, e, key);
      SpacedWidens(h, Peak(before, key), peak, cfg.duration(key));
      if e.Request? && e.key == key && Answer(cfg, w, key, e.limit, e.now) {
        QueueWithinPeak(cfg, before, key);
        if peak <= |h| {
          AcceptanceSpaced(cfg, w, key, e.limit, e.now, peak);
        }
        SpacedGrows(h, e.now, peak, cfg.duration(key));
      }
    }
  }
}
