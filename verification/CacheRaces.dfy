/** Concurrent requests and the disk counters (common/disk_cache_config.go): the room check
    and every atomic addition are steps of their own, interleaved in any way. */
module CacheRaces {
  import opened Basics

  /** What one of the goroutines does next with the disk cache. */
  datatype Pc =
    | Idle
    | Writing(announced: nat)                   // the room check has passed
    | FileCounted(announced: nat, written: nat) // the file is counted, its bytes are not
    | Open(size: nat)
    | ClampFiles(size: nat)                     // closing: the file counter went negative
    | FileDropped(size: nat)                    // closing: the bytes are still counted
    | ClampBytes                                // closing: the byte counter went negative

  /** The two counters and the goroutines.  `overlap` is history: the greatest total length
      announced by others that were still writing when a room check passed. */
  datatype State = State(files: int, bytes: int, threads: seq<Pc>, overlap: nat)

  datatype Action =
    | Check(i: nat, announced: nat)
    | Abandon(i: nat)
    | CountFile(i: nat, written: nat)
    | CountBytes(i: nat)
    | DropFile(i: nat)
    | StoreFiles(i: nat)
    | DropBytes(i: nat)
    | StoreBytes(i: nat)

  function Goto(s: State, i: nat, pc: Pc): State
    requires i < |s.threads|
  {
    s.(threads := s.threads[i := pc])
  }

  /** The action is the next one of its goroutine.  What is written is no longer than what
      was announced. */
  predicate Enabled(max: int, s: State, a: Action) {
    a.i < |s.threads| &&
    match a
    case Check(i, announced) => s.threads[i].Idle? && s.bytes + announced <= max
    case Abandon(i) => s.threads[i].Writing?
    case CountFile(i, written) => s.threads[i].Writing? && written <= s.threads[i].announced
    case CountBytes(i) => s.threads[i].FileCounted?
    case DropFile(i) => s.threads[i].Open?
    case StoreFiles(i) => s.threads[i].ClampFiles?
    case DropBytes(i) => s.threads[i].FileDropped?
    case StoreBytes(i) => s.threads[i].ClampBytes?
  }

  function Step(max: int, s: State, a: Action): State
    requires Enabled(max, s, a)
  {
    var pc := s.threads[a.i];
    match a
    case Check(i, announced) =>
      var together := Total(By(InFlight), s.threads);
      Goto(s, i, Writing(announced)).(overlap := if together > s.overlap then together else s.overlap)
    case Abandon(i) => Goto(s, i, Idle)
    case CountFile(i, written) => Goto(s, i, FileCounted(pc.announced, written)).(files := s.files + 1)
    case CountBytes(i) => Goto(s, i, Open(pc.written)).(bytes := s.bytes + pc.written)
    case DropFile(i) =>
      Goto(s, i, if s.files - 1 < 0 then ClampFiles(pc.size) else FileDropped(pc.size)).(files := s.files - 1)
    case StoreFiles(i) => Goto(s, i, FileDropped(pc.size)).(files := 0)
    case DropBytes(i) =>
      Goto(s, i, if s.bytes - pc.size < 0 then ClampBytes else Idle).(bytes := s.bytes - pc.size)
    case StoreBytes(i) => Goto(s, i, Idle).(bytes := 0)
  }

  ghost predicate Init(s: State) {
    s.files == 0 && s.bytes == 0 && s.overlap == 0 && forall i :: 0 <= i < |s.threads| ==> s.threads[i].Idle?
  }

  /** Any interleaving of any number of goroutines. */
  ghost predicate IsRun(max: int, run: seq<State>, actions: seq<Action>) {
    && |run| == |actions| + 1
    && Init(run[0])
    && forall k {:trigger actions[k]} :: 0 <= k < |actions| ==>
         Enabled(max, run[k], actions[k]) && run[k + 1] == Step(max, run[k], actions[k])
  }

  // ---------------------------------------------------------------------
  // Counting over the goroutines
  // ---------------------------------------------------------------------

  datatype Measure = Files | Bytes | InFlight

  function Weight(q: Measure, pc: Pc): nat {
    match q
    case Files => if pc.FileCounted? || pc.Open? then 1 else 0
    case Bytes => if pc.Open? || pc.FileDropped? then pc.size else 0
    case InFlight => if pc.Writing? || pc.FileCounted? then pc.announced else 0
  }

  function By(q: Measure): Pc -> nat {
    (pc: Pc) => Weight(q, pc)
  }

  lemma {:induction false} TotalIdle(q: Measure, threads: seq<Pc>)
    requires forall i :: 0 <= i < |threads| ==> threads[i].Idle?
    ensures Total(By(q), threads) == 0
  {
    if threads != [] {
      TotalIdle(q, threads[..|threads| - 1]);
    }
  }

  // ---------------------------------------------------------------------
  // What every interleaving keeps
  // ---------------------------------------------------------------------

  ghost predicate NoClamps(s: State) {
    forall i :: 0 <= i < |s.threads| ==> !s.threads[i].ClampFiles? && !s.threads[i].ClampBytes?
  }

  ghost predicate WithinAnnounced(s: State) {
    forall i :: 0 <= i < |s.threads| && s.threads[i].FileCounted? ==> s.threads[i].written <= s.threads[i].announced
  }

  ghost predicate Inv(max: int, s: State) {
    && s.files == Total(By(Files), s.threads)
    && s.bytes == Total(By(Bytes), s.threads)
    && NoClamps(s)
    && WithinAnnounced(s)
    && s.bytes + Total(By(InFlight), s.threads) <= max + s.overlap
  }

  lemma StepKeepsTotals(max: int, s: State, a: Action)
    requires Inv(max, s) && Enabled(max, s, a)
    ensures var s' := Step(max, s, a);
            && s'.files == Total(By(Files), s'.threads) && s'.bytes == Total(By(Bytes), s'.threads)
            && s'.bytes + Total(By(InFlight), s'.threads) <= max + s'.overlap
  {
    var pc := Step(max, s, a).threads[a.i];
    TotalReplaced(By(Files), s.threads, a.i, pc);
    TotalReplaced(By(Bytes), s.threads, a.i, pc);
    TotalReplaced(By(InFlight), s.threads, a.i, pc);
  }

  lemma StepKeepsInv(max: int, s: State, a: Action)
    requires Inv(max, s) && Enabled(max, s, a)
    ensures Inv(max, Step(max, s, a))
  {
    StepKeepsTotals(max, s, a);
    TotalReplaced(By(Files), s.threads, a.i, Idle);
    TotalReplaced(By(Bytes), s.threads, a.i, Idle);
  }

  lemma {:induction false} RunInv(max: int, run: seq<State>, actions: seq<Action>, k: nat)
    requires IsRun(max, run, actions) && max >= 0 && k < |run|
    ensures Inv(max, run[k])
  {
    if k == 0 {
      TotalIdle(Files, run[0].threads);
      TotalIdle(Bytes, run[0].threads);
      TotalIdle(InFlight, run[0].threads);
    } else {
      RunInv(max, run, actions, k - 1);
      StepKeepsInv(max, run[k - 1], actions[k - 1]);
    }
  }

  /** Over every interleaving of the additions, no counter is ever clamped and none is ever
      negative. */
  lemma ClampsNeverReached(max: int, run: seq<State>, actions: seq<Action>, k: nat)
    requires IsRun(max, run, actions) && max >= 0 && k < |run|
    ensures NoClamps(run[k]) && run[k].files >= 0 && run[k].bytes >= 0
  {
    RunInv(max, run, actions, k);
  }

  /** The usage exceeds the maximum by no more than what others were writing when a room
      check passed; without such an overlap it never does. */
  lemma OvershootBounded(max: int, run: seq<State>, actions: seq<Action>, k: nat)
    requires IsRun(max, run, actions) && max >= 0 && k < |run|
    ensures run[k].bytes <= max + run[k].overlap
  {
    RunInv(max, run, actions, k);
  }

  // ---------------------------------------------------------------------
  // Exactly when the maximum can be exceeded
  // ---------------------------------------------------------------------

  /** No goroutine accounts for more than the maximum. */
  ghost predicate EachWithin(max: int, s: State) {
    forall i :: 0 <= i < |s.threads| ==> Weight(Bytes, s.threads[i]) <= max && Weight(InFlight, s.threads[i]) <= max
  }

  lemma {:induction false} RunEachWithin(max: int, run: seq<State>, actions: seq<Action>, k: nat)
    requires IsRun(max, run, actions) && max >= 0 && k < |run|
    ensures EachWithin(max, run[k]) && |run[k].threads| == |run[0].threads|
  {
    if k > 0 {
      RunEachWithin(max, run, actions, k - 1);
      RunInv(max, run, actions, k - 1);
      assert Enabled(max, run[k - 1], actions[k - 1]);
    }
  }

  lemma {:induction false} TotalWithin(max: nat, threads: seq<Pc>)
    requires forall i :: 0 <= i < |threads| ==> Weight(Bytes, threads[i]) <= max
    ensures Total(By(Bytes), threads) <= |threads| * max
  {
    if threads != [] {
      TotalWithin(max, threads[..|threads| - 1]);
      assert |threads| * max == (|threads| - 1) * max + max;
    }
  }

  /** n goroutines use at most n times the maximum ... */
  lemma UsageBounded(max: nat, run: seq<State>, actions: seq<Action>, k: nat)
    requires IsRun(max, run, actions) && k < |run|
    ensures run[k].bytes <= |run[0].threads| * max
  {
    RunInv(max, run, actions, k);
    RunEachWithin(max, run, actions, k);
    TotalWithin(max, run[k].threads);
  }

  lemma RunExtends(max: int, run: seq<State>, actions: seq<Action>, a: Action)
    requires IsRun(max, run, actions) && Enabled(max, run[|run| - 1], a)
    ensures IsRun(max, run + [Step(max, run[|run| - 1], a)], actions + [a])
  {
    var run', actions' := run + [Step(max, run[|run| - 1], a)], actions + [a];
    forall k | 0 <= k < |actions'|
      ensures Enabled(max, run'[k], actions'[k]) && run'[k + 1] == Step(max, run'[k], actions'[k])
    {
      if k < |actions| {
        assert actions'[k] == actions[k];
      }
    }
  }

  /** The first `open` of n goroutines hold a file of the maximal size, those up to
      `writing` are still writing one. */
  function Crowd(max: nat, n: nat, open: nat, writing: nat): (r: seq<Pc>)
    ensures |r| == n
    ensures forall i :: 0 <= i < n ==> r[i] == if i < open then Open(max) else if i < writing then Writing(max) else Idle
  {
    seq(n, i => if i < open then Open(max) else if i < writing then Writing(max) else Idle)
  }

  lemma {:induction false} AllCheck(max: nat, n: nat, j: nat) returns (run: seq<State>, actions: seq<Action>)
    requires j <= n
    ensures IsRun(max, run, actions) && |run[0].threads| == n
    ensures run[|run| - 1].bytes == 0 && run[|run| - 1].threads == Crowd(max, n, 0, j)
  {
    if j == 0 {
      run, actions := [State(0, 0, Crowd(max, n, 0, 0), 0)], [];
    } else {
      run, actions := AllCheck(max, n, j - 1);
      var a := Check(j - 1, max);
      var s := run[|run| - 1];
      RunExtends(max, run, actions, a);
      assert Step(max, s, a).threads == Crowd(max, n, 0, j);
      run, actions := run + [Step(max, s, a)], actions + [a];
    }
  }

  /** ... and this is reached: all of them pass the room check before any of them counts
      its bytes. */
  lemma {:induction false} UsageReached(max: nat, n: nat, j: nat) returns (run: seq<State>, actions: seq<Action>)
    requires j <= n
    ensures IsRun(max, run, actions) && |run[0].threads| == n
    ensures run[|run| - 1].bytes == j * max && run[|run| - 1].threads == Crowd(max, n, j, n)
  {
    if j == 0 {
      run, actions := AllCheck(max, n, n);
    } else {
      run, actions := UsageReached(max, n, j - 1);
      run, actions := OneOpens(max, n, j - 1, run, actions);
      assert j * max == (j - 1) * max + max;
    }
  }

  /** The next goroutine of the crowd counts its file and its bytes. */
  lemma OneOpens(max: nat, n: nat, j: nat, run: seq<State>, actions: seq<Action>) returns (run': seq<State>, actions': seq<Action>)
    requires j < n && IsRun(max, run, actions) && run[|run| - 1].threads == Crowd(max, n, j, n)
    ensures IsRun(max, run', actions') && run'[0] == run[0]
    ensures run'[|run'| - 1].bytes == run[|run| - 1].bytes + max && run'[|run'| - 1].threads == Crowd(max, n, j + 1, n)
  {
    var s, a, b := run[|run| - 1], CountFile(j, max), CountBytes(j);
    var counted := Step(max, s, a);
    RunExtends(max, run, actions, a);
    var grown := Step(max, counted, b);
    RunExtends(max, run + [counted], actions + [a], b);
    assert grown.threads == Crowd(max, n, j + 1, n);
    run', actions' := run + [counted] + [grown], actions + [a] + [b];
  }

  ghost predicate Exceeds(max: nat, n: nat, run: seq<State>, actions: seq<Action>) {
    IsRun(max, run, actions) && |run[0].threads| == n && run[|run| - 1].bytes > max
  }

  ghost predicate CanExceed(max: nat, n: nat) {
    exists run, actions :: Exceeds(max, n, run, actions)
  }

  /** Some run of n goroutines exceeds the maximum if and only if there are at least two
      of them and the maximum is not zero. */
  lemma OvershootExactlyWhen(max: nat, n: nat)
    ensures CanExceed(max, n) <==> n >= 2 && max >= 1
  {
    if CanExceed(max, n) {
      var run, actions :| Exceeds(max, n, run, actions);
      UsageBounded(max, run, actions, |run| - 1);
    }
    if n >= 2 && max >= 1 {
      var run, actions := UsageReached(max, n, n);
      assert n * max >= 2 * max;
      assert Exceeds(max, n, run, actions);
    }
  }
}
