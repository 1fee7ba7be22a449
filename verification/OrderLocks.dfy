/** The per-order lock of controller/topup.go: a registry of reference-counted
    mutexes, `LockOrder` and `UnlockOrder`, taken as an interleaving of the
    individual steps of any number of goroutines.

    A goroutine's program counter says which statement it executes next.  The
    `held` field of a program counter is the mutex that `LockOrder` locked; the
    program itself does not remember it, `UnlockOrder` looks the mutex up again. */
module OrderLocks {
  import opened Basics

  type TradeNo = string
  type Thread = nat
  /** The address of a `refCountedMutex`; addresses are never reused. */
  type Address = nat

  datatype RefCountedMutex = RefCountedMutex(locked: bool, refCount: int)

  datatype Pc =
      // LockOrder
    | EnterCreate(tradeNo: TradeNo)
    | LookUp(tradeNo: TradeNo)
    | CountUp(tradeNo: TradeNo, rcm: Address)
    | LeaveCreate(tradeNo: TradeNo, rcm: Address)
    | AwaitMutex(tradeNo: TradeNo, rcm: Address)
      // between LockOrder and UnlockOrder
    | Inside(tradeNo: TradeNo, held: Address)
      // UnlockOrder
    | UnlockMutex(tradeNo: TradeNo, rcm: Address, held: Address)
    | EnterRelease(tradeNo: TradeNo, rcm: Address)
    | CountDown(tradeNo: TradeNo, rcm: Address)
    | DropEntry(tradeNo: TradeNo, rcm: Address)
    | LeaveRelease(tradeNo: TradeNo)
  {
    /** The goroutine owns `createLock`. */
    predicate OwnsCreateLock() {
      LookUp? || CountUp? || LeaveCreate? || CountDown? || DropEntry? || LeaveRelease?
    }

    /** The goroutine has executed `refCount++` and not yet `refCount--`. */
    predicate Registered() {
      LeaveCreate? || AwaitMutex? || Inside? || UnlockMutex? || EnterRelease? || CountDown?
    }

    /** The goroutine refers to a mutex. */
    predicate NamesMutex() {
      Registered() || CountUp? || DropEntry?
    }

    function Mutex(): Address
      requires NamesMutex()
    {
      if Inside? then held else rcm
    }

    /** The goroutine is between `mu.Lock` and `mu.Unlock`: the critical section. */
    predicate Critical() {
      Inside? || UnlockMutex?
    }
  }

  /** `orderLocks`, `createLock`, every mutex ever allocated and the goroutines
      that are somewhere between the start of `LockOrder` and the end of
      `UnlockOrder`. */
  datatype State = State(
    orderLocks: map<TradeNo, Address>,
    createLock: Option<Thread>,
    heap: seq<RefCountedMutex>,
    threads: map<Thread, Pc>)

  const INITIAL := State(map[], None, [], map[])

  function Goto(s: State, i: Thread, pc: Pc): State {
    s.(threads := s.threads[i := pc])
  }

  function Finish(s: State, i: Thread): State {
    s.(threads := s.threads - {i})
  }

  /** The next statement of goroutine `i` can execute: locking waits until the lock
      is free.  (The address bounds hold in every reachable state, see
      `OnlyLocksBlock`.) */
  predicate CanStep(s: State, i: Thread) {
    i in s.threads &&
    match s.threads[i]
    case EnterCreate(_) => s.createLock == None
    case EnterRelease(_, _) => s.createLock == None
    case AwaitMutex(_, rcm) => rcm < |s.heap| && !s.heap[rcm].locked
    case CountUp(_, rcm) => rcm < |s.heap|
    case UnlockMutex(_, rcm, _) => rcm < |s.heap|
    case CountDown(_, rcm) => rcm < |s.heap|
    case DropEntry(_, rcm) => rcm < |s.heap|
    case _ => true
  }

  /** The effect of the next statement of goroutine `i`. */
  function Step(s: State, i: Thread): State
    requires CanStep(s, i)
  {
    match s.threads[i]
    case EnterCreate(t) =>
      Goto(s, i, LookUp(t)).(createLock := Some(i))
    case LookUp(t) =>
      if t in s.orderLocks then
        Goto(s, i, CountUp(t, s.orderLocks[t]))
      else
        Goto(s, i, CountUp(t, |s.heap|)).(
          heap := s.heap + [RefCountedMutex(false, 0)],
          orderLocks := s.orderLocks[t := |s.heap|])
    case CountUp(t, rcm) =>
      Goto(s, i, LeaveCreate(t, rcm)).(
        heap := s.heap[rcm := s.heap[rcm].(refCount := s.heap[rcm].refCount + 1)])
    case LeaveCreate(t, rcm) =>
      Goto(s, i, AwaitMutex(t, rcm)).(createLock := None)
    case AwaitMutex(t, rcm) =>
      Goto(s, i, Inside(t, rcm)).(heap := s.heap[rcm := s.heap[rcm].(locked := true)])
    case Inside(t, held) =>
      // `orderLocks.Load`, outside `createLock`; a miss makes UnlockOrder return
      if t in s.orderLocks then
        Goto(s, i, UnlockMutex(t, s.orderLocks[t], held))
      else
        Finish(s, i)
    case UnlockMutex(t, rcm, _) =>
      Goto(s, i, EnterRelease(t, rcm)).(heap := s.heap[rcm := s.heap[rcm].(locked := false)])
    case EnterRelease(t, rcm) =>
      Goto(s, i, CountDown(t, rcm)).(createLock := Some(i))
    case CountDown(t, rcm) =>
      Goto(s, i, DropEntry(t, rcm)).(
        heap := s.heap[rcm := s.heap[rcm].(refCount := s.heap[rcm].refCount - 1)])
    case DropEntry(t, rcm) =>
      if s.heap[rcm].refCount == 0 then
        Goto(s, i, LeaveRelease(t)).(orderLocks := s.orderLocks - {t})
      else
        Goto(s, i, LeaveRelease(t))
    case LeaveRelease(_) =>
      Finish(s, i).(createLock := None)
  }

  /** A goroutine that is not running calls `LockOrder(t)`. */
  function Call(s: State, i: Thread, t: TradeNo): State {
    Goto(s, i, EnterCreate(t))
  }

  ghost predicate Next(s: State, s': State) {
    || (exists i, t :: i !in s.threads && s' == Call(s, i, t))
    || (exists i :: CanStep(s, i) && s' == Step(s, i))
  }

  /** A run: any finite interleaving from the empty registry. */
  ghost predicate IsRun(run: seq<State>) {
    && |run| > 0
    && run[0] == INITIAL
    && forall k :: 0 <= k < |run| - 1 ==> NextAt(run, k)
  }

  ghost predicate NextAt(run: seq<State>, k: nat)
    requires k + 1 < |run|
  {
    Next(run[k], run[k + 1])
  }

  // ---------------------------------------------------------------------
  // The inductive invariant
  // ---------------------------------------------------------------------

  ghost predicate RegisteredThere(s: State, i: Thread, a: Address) {
    i in s.threads && s.threads[i].Registered() && s.threads[i].Mutex() == a
  }

  ghost predicate CriticalThere(s: State, i: Thread, a: Address) {
    i in s.threads && s.threads[i].Critical() && s.threads[i].held == a
  }

  ghost function RegisteredAt(s: State, a: Address): set<Thread> {
    set i | i in s.threads && RegisteredThere(s, i, a)
  }

  ghost function CriticalAt(s: State, a: Address): set<Thread> {
    set i | i in s.threads && CriticalThere(s, i, a)
  }

  /** `createLock` is owned by the one goroutine inside it. */
  ghost predicate CreateLockExclusive(s: State) {
    && (s.createLock.Some? ==>
          s.createLock.value in s.threads && s.threads[s.createLock.value].OwnsCreateLock())
    && forall i :: i in s.threads && s.threads[i].OwnsCreateLock() ==> s.createLock == Some(i)
  }

  ghost predicate UsesEntry(s: State, pc: Pc)
    requires pc.NamesMutex()
  {
    && pc.tradeNo in s.orderLocks
    && pc.Mutex() == s.orderLocks[pc.tradeNo]
    && (pc.UnlockMutex? ==> pc.held == pc.rcm)
  }

  /** The map holds allocated mutexes, no mutex twice. */
  ghost predicate EntriesDistinct(s: State) {
    && (forall t :: t in s.orderLocks ==> s.orderLocks[t] < |s.heap|)
    && (forall t, u :: t in s.orderLocks && u in s.orderLocks && s.orderLocks[t] == s.orderLocks[u] ==> t == u)
  }

  /** Everybody who refers to a trade number's mutex refers to the one in the map. */
  ghost predicate EntriesCurrent(s: State) {
    forall i :: i in s.threads && s.threads[i].NamesMutex() ==> UsesEntry(s, s.threads[i])
  }

  /** `refCount` counts the registered goroutines of each mutex. */
  ghost predicate CountsExact(s: State) {
    forall a :: 0 <= a < |s.heap| ==> s.heap[a].refCount == |RegisteredAt(s, a)|
  }

  /** A mutex is locked by exactly one goroutine or by none. */
  ghost predicate MutexesExact(s: State) {
    forall a :: 0 <= a < |s.heap| ==>
      |CriticalAt(s, a)| == if s.heap[a].locked then 1 else 0
  }

  /** The goroutine inside `createLock` is about to count this entry up, or has
      just counted it down. */
  ghost predicate EntryInTransit(s: State, t: TradeNo) {
    && s.createLock.Some?
    && s.createLock.value in s.threads
    && var pc := s.threads[s.createLock.value];
       (pc.CountUp? || pc.DropEntry?) && pc.tradeNo == t
  }

  ghost predicate EntriesUsed(s: State) {
    forall t :: t in s.orderLocks && s.orderLocks[t] < |s.heap| && s.heap[s.orderLocks[t]].refCount == 0 ==>
      EntryInTransit(s, t)
  }

  ghost predicate Inv(s: State) {
    && CreateLockExclusive(s)
    && EntriesDistinct(s)
    && EntriesCurrent(s)
    && CountsExact(s)
    && MutexesExact(s)
    && EntriesUsed(s)
  }

  // ---------------------------------------------------------------------
  // How one goroutine's move changes the sets that are counted
  // ---------------------------------------------------------------------

  ghost predicate SameElsewhere(s: State, s': State, i: Thread) {
    forall j :: j != i ==> (j in s.threads <==> j in s'.threads) &&
                           (j in s.threads ==> s.threads[j] == s'.threads[j])
  }

  function Bit(b: bool): int { if b then 1 else 0 }

  lemma OneElementMoves(before: set<Thread>, after: set<Thread>, i: Thread)
    requires before - {i} == after - {i}
    ensures |after| == |before| - Bit(i in before) + Bit(i in after)
  {
    var rest := before - {i};
    assert i in before ==> before == rest + {i};
    assert i !in before ==> before == rest;
    assert i in after ==> after == rest + {i};
    assert i !in after ==> after == rest;
  }

  lemma RegisteredMoves(s: State, s': State, i: Thread, a: Address)
    requires SameElsewhere(s, s', i)
    ensures |RegisteredAt(s', a)| ==
            |RegisteredAt(s, a)| - Bit(RegisteredThere(s, i, a)) + Bit(RegisteredThere(s', i, a))
  {
    OneElementMoves(RegisteredAt(s, a), RegisteredAt(s', a), i);
  }

  lemma CriticalMoves(s: State, s': State, i: Thread, a: Address)
    requires SameElsewhere(s, s', i)
    ensures |CriticalAt(s', a)| ==
            |CriticalAt(s, a)| - Bit(CriticalThere(s, i, a)) + Bit(CriticalThere(s', i, a))
  {
    OneElementMoves(CriticalAt(s, a), CriticalAt(s', a), i);
  }

  lemma FreshAddressUnused(s: State, a: Address)
    requires EntriesDistinct(s) && EntriesCurrent(s) && |s.heap| <= a
    ensures RegisteredAt(s, a) == {} && CriticalAt(s, a) == {}
  {
  }

  lemma CountPositive(s: State, i: Thread, a: Address)
    requires CountsExact(s) && a < |s.heap| && RegisteredThere(s, i, a)
    ensures s.heap[a].refCount > 0
  {
    assert i in RegisteredAt(s, a);
  }

  lemma CountZero(s: State, i: Thread, a: Address)
    requires CountsExact(s) && a < |s.heap| && s.heap[a].refCount == 0
    ensures !RegisteredThere(s, i, a)
  {
    if RegisteredThere(s, i, a) {
      CountPositive(s, i, a);
    }
  }

  // ---------------------------------------------------------------------
  // Every step keeps the invariant
  // ---------------------------------------------------------------------

  lemma StepKeepsCreateLock(s: State, i: Thread)
    requires Inv(s) && CanStep(s, i)
    ensures CreateLockExclusive(Step(s, i))
  {
    var s' := Step(s, i);
    assert SameElsewhere(s, s', i);
  }

  /** Nobody else refers to an entry that is about to be deleted. */
  lemma DroppedEntryUnused(s: State, i: Thread)
    requires Inv(s) && i in s.threads && s.threads[i].DropEntry?
    requires s.threads[i].rcm < |s.heap| && s.heap[s.threads[i].rcm].refCount == 0
    ensures forall j :: j in s.threads && j != i && s.threads[j].NamesMutex() ==>
              s.threads[j].tradeNo != s.threads[i].tradeNo
  {
    forall j | j in s.threads && j != i && s.threads[j].NamesMutex()
      ensures s.threads[j].tradeNo != s.threads[i].tradeNo
    {
      CountZero(s, j, s.threads[i].rcm);
    }
  }

  lemma StepKeepsEntriesDistinct(s: State, i: Thread)
    requires Inv(s) && CanStep(s, i)
    ensures EntriesDistinct(Step(s, i))
  {
  }

  lemma EntriesSurvive(s: State, i: Thread)
    requires CanStep(s, i) && !(s.threads[i].DropEntry? && s.heap[s.threads[i].rcm].refCount == 0)
    ensures var s' := Step(s, i);
            forall t :: t in s.orderLocks ==> t in s'.orderLocks && s'.orderLocks[t] == s.orderLocks[t]
  {
  }

  lemma StepKeepsEntriesCurrent(s: State, i: Thread)
    requires Inv(s) && CanStep(s, i)
    ensures EntriesCurrent(Step(s, i))
  {
    var s' := Step(s, i);
    assert SameElsewhere(s, s', i);
    var pc := s.threads[i];
    if pc.DropEntry? && s.heap[pc.rcm].refCount == 0 {
      DroppedEntryUnused(s, i);
    } else {
      EntriesSurvive(s, i);
    }
    forall j | j in s'.threads && s'.threads[j].NamesMutex() ensures UsesEntry(s', s'.threads[j]) {
      if j != i {
        assert UsesEntry(s, s.threads[j]);
      }
    }
  }

  lemma StepKeepsCounts(s: State, i: Thread)
    requires Inv(s) && CanStep(s, i)
    ensures CountsExact(Step(s, i))
  {
    var s' := Step(s, i);
    assert SameElsewhere(s, s', i);
    forall a | 0 <= a < |s'.heap| ensures s'.heap[a].refCount == |RegisteredAt(s', a)| {
      RegisteredMoves(s, s', i, a);
      if a == |s.heap| {
        FreshAddressUnused(s, a);
      }
    }
  }

  lemma StepKeepsMutexes(s: State, i: Thread)
    requires Inv(s) && CanStep(s, i)
    ensures MutexesExact(Step(s, i))
  {
    var s' := Step(s, i);
    assert SameElsewhere(s, s', i);
    forall a | 0 <= a < |s'.heap|
      ensures |CriticalAt(s', a)| == if s'.heap[a].locked then 1 else 0
    {
      CriticalMoves(s, s', i, a);
      if a == |s.heap| {
        FreshAddressUnused(s, a);
      }
      if s.threads[i].UnlockMutex? && a == s.threads[i].rcm {
        assert i in CriticalAt(s, a);
      }
    }
  }

  lemma StepKeepsEntriesUsed(s: State, i: Thread)
    requires Inv(s) && CanStep(s, i)
    ensures EntriesUsed(Step(s, i))
  {
    if s.threads[i].CountUp? {
      assert s.heap[s.threads[i].rcm].refCount == |RegisteredAt(s, s.threads[i].rcm)|;
    }
  }

  lemma StepKeepsInv(s: State, i: Thread)
    requires Inv(s) && CanStep(s, i)
    ensures Inv(Step(s, i))
  {
    StepKeepsCreateLock(s, i);
    StepKeepsEntriesDistinct(s, i);
    StepKeepsEntriesCurrent(s, i);
    StepKeepsCounts(s, i);
    StepKeepsMutexes(s, i);
    StepKeepsEntriesUsed(s, i);
  }

  lemma CallKeepsInv(s: State, i: Thread, t: TradeNo)
    requires Inv(s) && i !in s.threads
    ensures Inv(Call(s, i, t))
  {
    var s' := Call(s, i, t);
    assert SameElsewhere(s, s', i);
    forall a | 0 <= a < |s'.heap|
      ensures |RegisteredAt(s', a)| == |RegisteredAt(s, a)| && |CriticalAt(s', a)| == |CriticalAt(s, a)|
    {
      RegisteredMoves(s, s', i, a);
      CriticalMoves(s, s', i, a);
    }
    forall j | j in s'.threads && s'.threads[j].NamesMutex() ensures UsesEntry(s', s'.threads[j]) {
      assert UsesEntry(s, s.threads[j]);
    }
    forall t | EntryInTransit(s, t) ensures EntryInTransit(s', t) {
    }
  }

  lemma NextKeepsInv(s: State, s': State)
    requires Inv(s) && Next(s, s')
    ensures Inv(s')
  {
    if i, t :| i !in s.threads && s' == Call(s, i, t) {
      CallKeepsInv(s, i, t);
    } else {
      var i :| CanStep(s, i) && s' == Step(s, i);
      StepKeepsInv(s, i);
    }
  }

  lemma {:induction false} RunInv(run: seq<State>, k: nat)
    requires IsRun(run) && k < |run|
    ensures Inv(run[k])
  {
    if k > 0 {
      RunInv(run, k - 1);
      assert NextAt(run, k - 1);
      NextKeepsInv(run[k - 1], run[k]);
    }
  }

  // ---------------------------------------------------------------------
  // What every reachable state satisfies
  // ---------------------------------------------------------------------

  lemma InvExcludes(s: State, i: Thread, j: Thread)
    requires Inv(s) && i in s.threads && j in s.threads
    requires s.threads[i].Critical() && s.threads[j].Critical()
    requires s.threads[i].tradeNo == s.threads[j].tradeNo
    ensures i == j
  {
    var a := s.threads[i].held;
    assert UsesEntry(s, s.threads[i]) && UsesEntry(s, s.threads[j]);
    assert i != j ==> |{i, j}| == 2;
    SubsetSize({i, j}, CriticalAt(s, a));
  }

  /** Mutual exclusion: at most one goroutine is inside the critical section of
      a trade number. */
  lemma MutualExclusion(run: seq<State>, k: nat, i: Thread, j: Thread)
    requires IsRun(run) && k < |run|
    requires i in run[k].threads && j in run[k].threads
    requires run[k].threads[i].Critical() && run[k].threads[j].Critical()
    requires run[k].threads[i].tradeNo == run[k].threads[j].tradeNo
    ensures i == j
  {
    RunInv(run, k);
    InvExcludes(run[k], i, j);
  }

  /** The goroutines that use a trade number's lock. */
  ghost function UsersOf(s: State, t: TradeNo): set<Thread> {
    set i | i in s.threads && s.threads[i].Registered() && s.threads[i].tradeNo == t
  }

  lemma UsersAreRegistered(s: State, t: TradeNo)
    requires Inv(s)
    ensures t in s.orderLocks ==> UsersOf(s, t) == RegisteredAt(s, s.orderLocks[t])
    ensures t !in s.orderLocks ==> UsersOf(s, t) == {}
  {
    forall i | i in UsersOf(s, t)
      ensures t in s.orderLocks && i in RegisteredAt(s, s.orderLocks[t])
    {
      assert UsesEntry(s, s.threads[i]);
    }
    if t in s.orderLocks {
      forall i | i in RegisteredAt(s, s.orderLocks[t]) ensures i in UsersOf(s, t) {
        assert UsesEntry(s, s.threads[i]);
      }
    }
  }

  /** Whenever nobody is inside `createLock`, the map holds a trade number exactly
      when somebody uses its lock, and `refCount` is how many do. */
  lemma RegistryExact(run: seq<State>, k: nat, t: TradeNo)
    requires IsRun(run) && k < |run| && run[k].createLock == None
    ensures t in run[k].orderLocks <==> UsersOf(run[k], t) != {}
    ensures t in run[k].orderLocks ==>
              && run[k].orderLocks[t] < |run[k].heap|
              && run[k].heap[run[k].orderLocks[t]].refCount == |UsersOf(run[k], t)|
  {
    RunInv(run, k);
    UsersAreRegistered(run[k], t);
    assert !EntryInTransit(run[k], t);
  }

  /** `UnlockOrder` finds an entry, and it is the very mutex its goroutine locked;
      a goroutine that waits waits for that mutex too, so one trade number never
      has two live mutexes. */
  lemma UnlockFindsOwnMutex(run: seq<State>, k: nat, i: Thread)
    requires IsRun(run) && k < |run| && i in run[k].threads
    ensures run[k].threads[i].Registered() ==>
              && run[k].threads[i].tradeNo in run[k].orderLocks
              && run[k].orderLocks[run[k].threads[i].tradeNo] == run[k].threads[i].Mutex()
    ensures run[k].threads[i].Critical() ==>
              && run[k].threads[i].held == run[k].threads[i].Mutex()
              && run[k].threads[i].held < |run[k].heap|
              && run[k].heap[run[k].threads[i].held].locked
  {
    RunInv(run, k);
    var s := run[k];
    if s.threads[i].NamesMutex() {
      assert UsesEntry(s, s.threads[i]);
    }
    if s.threads[i].Critical() {
      assert i in CriticalAt(s, s.threads[i].held);
    }
  }

  /** Once every goroutine has returned from `UnlockOrder` the registry is empty. */
  lemma NothingLeaks(run: seq<State>, k: nat)
    requires IsRun(run) && k < |run| && run[k].threads == map[]
    ensures run[k].orderLocks == map[] && run[k].createLock == None
    ensures forall a :: 0 <= a < |run[k].heap| ==> run[k].heap[a] == RefCountedMutex(false, 0)
  {
    RunInv(run, k);
    var s := run[k];
    forall t ensures t !in s.orderLocks {
      RegistryExact(run, k, t);
    }
    forall a | 0 <= a < |s.heap| ensures s.heap[a] == RefCountedMutex(false, 0) {
      assert RegisteredAt(s, a) == {} && CriticalAt(s, a) == {};
    }
  }

  lemma InvOnlyLocksBlock(s: State, i: Thread)
    requires Inv(s) && i in s.threads
    ensures || CanStep(s, i)
            || ((s.threads[i].EnterCreate? || s.threads[i].EnterRelease?) && s.createLock.Some? && s.createLock != Some(i))
            || (s.threads[i].AwaitMutex? && s.threads[i].rcm < |s.heap| && s.heap[s.threads[i].rcm].locked)
  {
    if s.threads[i].NamesMutex() {
      assert UsesEntry(s, s.threads[i]);
    }
  }

  /** A goroutine is only ever held up by a lock that somebody else owns: no lookup
      misses and no address dangles. */
  lemma OnlyLocksBlock(run: seq<State>, k: nat, i: Thread)
    requires IsRun(run) && k < |run| && i in run[k].threads
    ensures var s := run[k];
            || CanStep(s, i)
            || ((s.threads[i].EnterCreate? || s.threads[i].EnterRelease?) && s.createLock.Some? && s.createLock != Some(i))
            || (s.threads[i].AwaitMutex? && s.threads[i].rcm < |s.heap| && s.heap[s.threads[i].rcm].locked)
  {
    RunInv(run, k);
    InvOnlyLocksBlock(run[k], i);
  }

  /** No deadlock: while some goroutine is running, some goroutine can step. */
  lemma NoDeadlock(run: seq<State>, k: nat)
    requires IsRun(run) && k < |run| && run[k].threads != map[]
    ensures exists i :: CanStep(run[k], i)
  {
    RunInv(run, k);
    var s := run[k];
    var i :| i in s.threads;
    InvOnlyLocksBlock(s, i);
    if s.createLock.Some? {
      InvOnlyLocksBlock(s, s.createLock.value);
    } else if !CanStep(s, i) {
      var j :| j in CriticalAt(s, s.threads[i].rcm);
      InvOnlyLocksBlock(s, j);
    }
  }
}
