/** The handlers that complete, fail or expire a top-up order, interleaved step by
    step over the order lock: `EpayNotify`, `sessionExpired`,
    `sessionAsyncPaymentFailed`, the crediting transactions of Stripe, Creem, Waffo
    and the administrator, and the two writers that take no lock: the Waffo failure
    branch, and the Waffo payment request whose call to the provider fails.

    Each database read, save and quota increase is one atomic step; a save that
    fails has no effect.  The quota per unit is an option that may change between any
    two steps. */
module OrderPayments {
  import opened Basics
  import Locks = OrderLocks

  type TradeNo = Locks.TradeNo
  type Thread = Locks.Thread

  datatype Status = Pending | Success | Failed | Expired

  datatype PaymentMethod = Stripe | Creem | Waffo | Other(name: string)

  datatype TopUp = TopUp(userId: int, amount: int, money: real, paymentMethod: PaymentMethod, status: Status)

  datatype Handler =
    | EpayNotify
    | SessionExpired
    | SessionAsyncPaymentFailed
    | Recharge           // Stripe
    | RechargeCreem
    | RechargeWaffo
    | ManualComplete     // administrator
  {
    predicate CreditsInTransaction() {
      Recharge? || RechargeCreem? || RechargeWaffo? || ManualComplete?
    }
  }

  /** How far a handler has come inside the critical section. */
  datatype Progress =
    | Start                 // the order has not been read
    | HasRead(row: TopUp)   // the order was found
    | Marked(row: TopUp)    // EpayNotify saved the order as a success
    | Done                  // about to run the deferred UnlockOrder

  datatype Job = Job(handler: Handler, progress: Progress)

  /** A credit, with the quota per unit at that moment and the handler that gave it. */
  datatype Credit = Credit(tradeNo: TradeNo, userId: int, quota: real, unit: real, giver: Handler)

  /** A goroutine without the lock that may yet save its copy of a pending order as
      failed: the Waffo failure branch, or the payment request that made the order. */
  datatype Failure = Rejection(tradeNo: TradeNo, row: TopUp) | Request(tradeNo: TradeNo, row: TopUp)

  datatype State = State(
    locks: Locks.State,
    jobs: map<Thread, Job>,
    failures: map<nat, Failure>,
    orders: map<TradeNo, TopUp>,
    quota: map<int, real>,
    credits: seq<Credit>,
    unit: real)

  /** `int(decimal.IntPart())`: truncation toward zero. */
  function Truncate(x: real): int {
    if x >= 0.0 then x.Floor else -((-x).Floor)
  }

  function Times(x: real, unit: real): real {
    x * unit
  }

  function UnitsToQuota(amount: int, unit: real): int {
    Truncate(Times(amount as real, unit))
  }

  /** What a crediting handler adds to the user's quota. */
  function QuotaOf(h: Handler, row: TopUp, unit: real): real {
    match h
    case Recharge => Times(row.money, unit)
    case RechargeCreem => row.amount as real
    case ManualComplete =>
      if row.paymentMethod.Stripe? then Truncate(Times(row.money, unit)) as real
      else UnitsToQuota(row.amount, unit) as real
    case _ => UnitsToQuota(row.amount, unit) as real
  }

  /** A handler's test on the order it read. */
  predicate Accepts(h: Handler, row: TopUp, unit: real) {
    row.status.Pending? &&
    match h
    case EpayNotify => row.paymentMethod.Other?
    case SessionExpired => true
    case SessionAsyncPaymentFailed => row.paymentMethod.Stripe?
    case Recharge => row.paymentMethod.Stripe?
    case RechargeCreem => row.paymentMethod.Creem?
    case RechargeWaffo => row.paymentMethod.Waffo? && QuotaOf(h, row, unit) > 0.0
    case ManualComplete => QuotaOf(h, row, unit) > 0.0
  }

  /** `UPDATE users SET quota = quota + ?`: no row, no effect. */
  function AddQuota(quota: map<int, real>, userId: int, delta: real): map<int, real> {
    if userId in quota then quota[userId := quota[userId] + delta] else quota
  }

  predicate InCriticalBody(s: State, i: Thread) {
    i in s.locks.threads && s.locks.threads[i].Inside? && i in s.jobs
  }

  function OrderOf(s: State, i: Thread): TradeNo
    requires InCriticalBody(s, i)
  {
    s.locks.threads[i].tradeNo
  }

  function Advance(s: State, i: Thread, p: Progress): State
    requires i in s.jobs
  {
    s.(jobs := s.jobs[i := s.jobs[i].(progress := p)])
  }

  function Save(s: State, t: TradeNo, row: TopUp): State {
    s.(orders := s.orders[t := row])
  }

  /** Handler `h` adds the quota of an order it read. */
  function AddCredit(s: State, t: TradeNo, row: TopUp, h: Handler): State {
    s.(quota := AddQuota(s.quota, row.userId, QuotaOf(h, row, s.unit)),
       credits := s.credits + [Credit(t, row.userId, QuotaOf(h, row, s.unit), s.unit, h)])
  }

  // ---------------------------------------------------------------------
  // The steps
  // ---------------------------------------------------------------------

  ghost predicate NewOrder(s: State, s': State, t: TradeNo, row: TopUp) {
    t !in s.orders && row.status.Pending? && !row.paymentMethod.Waffo? && s' == Save(s, t, row)
  }

  /** `RequestWaffoPay` inserts its order and goes on to call the provider. */
  ghost predicate NewRequest(s: State, s': State, j: nat, t: TradeNo, row: TopUp) {
    && t !in s.orders && row.status.Pending? && row.paymentMethod.Waffo? && j !in s.failures
    && s' == Save(s, t, row).(failures := s.failures[j := Request(t, row)])
  }

  /** The option `QuotaPerUnit` is changed. */
  ghost predicate SetUnit(s: State, s': State, unit: real) {
    s' == s.(unit := unit)
  }

  ghost predicate CallHandler(s: State, s': State, i: Thread, t: TradeNo, h: Handler) {
    && i !in s.locks.threads
    && s' == s.(locks := Locks.Call(s.locks, i, t), jobs := s.jobs[i := Job(h, Start)])
  }

  /** A step of `LockOrder` or `UnlockOrder`; the latter is deferred to the end of
      the handler. */
  ghost predicate LockStep(s: State, s': State, i: Thread) {
    && Locks.CanStep(s.locks, i)
    && (s.locks.threads[i].Inside? ==> i in s.jobs && s.jobs[i].progress.Done?)
    && s' == s.(locks := Locks.Step(s.locks, i))
  }

  /** `GetTopUpByTradeNo`; the handler may also return before or because of it. */
  ghost predicate ReadOrder(s: State, s': State, i: Thread) {
    && InCriticalBody(s, i) && s.jobs[i].progress.Start?
    && (|| s' == Advance(s, i, Done)
        || (OrderOf(s, i) in s.orders && s' == Advance(s, i, HasRead(s.orders[OrderOf(s, i)]))))
  }

  /** What a handler does with the order it read; a failed save changes nothing. */
  ghost predicate ActOnOrder(s: State, s': State, i: Thread) {
    && InCriticalBody(s, i) && s.jobs[i].progress.HasRead?
    && var t, h, row := OrderOf(s, i), s.jobs[i].handler, s.jobs[i].progress.row;
       || (s' == Advance(s, i, Done))
       || (h.EpayNotify? && Accepts(h, row, s.unit) &&
           s' == Save(Advance(s, i, Marked(row)), t, row.(status := Success)))
       || (h.SessionAsyncPaymentFailed? && Accepts(h, row, s.unit) &&
           s' == Save(Advance(s, i, Done), t, row.(status := Failed)))
          // a status other than pending is only logged
       || (h.SessionExpired? &&
           s' == Save(Advance(s, i, Done), t, row.(status := Expired)))
          // one transaction saves the order and adds the quota
       || (h.CreditsInTransaction() && Accepts(h, row, s.unit) &&
           s' == AddCredit(Save(Advance(s, i, Done), t, row.(status := Success)), t, row, h))
  }

  /** `IncreaseUserQuota`, which refuses a negative amount and may fail. */
  ghost predicate IncreaseQuota(s: State, s': State, i: Thread) {
    && InCriticalBody(s, i) && s.jobs[i].progress.Marked?
    && var h, row := s.jobs[i].handler, s.jobs[i].progress.row;
       || s' == Advance(s, i, Done)
       || (QuotaOf(h, row, s.unit) >= 0.0 &&
           s' == AddCredit(Advance(s, i, Done), OrderOf(s, i), row, h))
  }

  ghost predicate RejectRead(s: State, s': State, j: nat, t: TradeNo) {
    && j !in s.failures && t in s.orders && s.orders[t].status.Pending?
    && s' == s.(failures := s.failures[j := Rejection(t, s.orders[t])])
  }

  /** A writer without the lock ends: it saves its copy as failed, or it does not. */
  ghost predicate EndFailure(s: State, s': State, j: nat) {
    && j in s.failures
    && var f := s.failures[j];
       var s1 := s.(failures := s.failures - {j});
       s' == s1 || s' == Save(s1, f.tradeNo, f.row.(status := Failed))
  }

  datatype Action =
    | ANew(t: TradeNo, row: TopUp)
    | ACall(i: Thread, t: TradeNo, h: Handler)
    | ALock(i: Thread)
    | ARead(i: Thread)
    | AAct(i: Thread)
    | AIncrease(i: Thread)
    | ARequest(j: nat, t: TradeNo, row: TopUp)
    | ARejectRead(j: nat, t: TradeNo)
    | AEndFailure(j: nat)
    | ASetUnit(unit: real)

  ghost predicate NextBy(s: State, s': State, a: Action) {
    match a
    case ANew(t, row) => NewOrder(s, s', t, row)
    case ACall(i, t, h) => CallHandler(s, s', i, t, h)
    case ALock(i) => LockStep(s, s', i)
    case ARead(i) => ReadOrder(s, s', i)
    case AAct(i) => ActOnOrder(s, s', i)
    case AIncrease(i) => IncreaseQuota(s, s', i)
    case ARequest(j, t, row) => NewRequest(s, s', j, t, row)
    case ARejectRead(j, t) => RejectRead(s, s', j, t)
    case AEndFailure(j) => EndFailure(s, s', j)
    case ASetUnit(unit) => SetUnit(s, s', unit)
  }

  ghost predicate Init(s: State) {
    s.locks == Locks.INITIAL && s.jobs == map[] && s.failures == map[] && s.credits == []
  }

  /** A run with the actions that were taken; orders, quota and unit start arbitrary. */
  ghost predicate IsRun(run: seq<State>, actions: seq<Action>) {
    && |run| == |actions| + 1
    && Init(run[0])
    && forall k {:trigger actions[k]} :: 0 <= k < |actions| ==> NextBy(run[k], run[k + 1], actions[k])
  }

  // ---------------------------------------------------------------------
  // The inductive invariant
  // ---------------------------------------------------------------------

  ghost predicate Credited(s: State, t: TradeNo) {
    exists n :: 0 <= n < |s.credits| && s.credits[n].tradeNo == t
  }

  /** Two rows of one order differ in nothing but the status. */
  predicate SameOrder(a: TopUp, b: TopUp) {
    a.userId == b.userId && a.amount == b.amount && a.money == b.money && a.paymentMethod == b.paymentMethod
  }

  ghost predicate CreditsClosed(s: State) {
    forall n :: 0 <= n < |s.credits| ==>
      && s.credits[n].tradeNo in s.orders
      && !s.orders[s.credits[n].tradeNo].status.Pending?
  }

  ghost predicate CreditsDistinct(s: State) {
    forall m, n :: 0 <= m < n < |s.credits| ==> s.credits[m].tradeNo != s.credits[n].tradeNo
  }

  /** What a handler in the critical section may rely on about its order. */
  ghost predicate ProgressOk(s: State, i: Thread)
    requires InCriticalBody(s, i)
  {
    var t, h := OrderOf(s, i), s.jobs[i].handler;
    match s.jobs[i].progress
    case Start => true
    case Done => true
    case HasRead(row) =>
      && t in s.orders && SameOrder(row, s.orders[t])
      && (row.status.Pending? ==>
            !Credited(s, t) && (s.orders[t].status.Pending? || s.orders[t].status.Failed?))
    case Marked(row) =>
      && t in s.orders && SameOrder(row, s.orders[t])
      && h.EpayNotify? && Accepts(h, row, s.unit)
      && !Credited(s, t) && !s.orders[t].status.Pending?
  }

  ghost predicate JobsOk(s: State) {
    && (forall i :: i in s.locks.threads ==> i in s.jobs)
    && (forall i :: i in s.locks.threads && BeforeCritical(s.locks.threads[i]) ==> s.jobs[i].progress.Start?)
    && (forall i :: InCriticalBody(s, i) ==> ProgressOk(s, i))
  }

  predicate BeforeCritical(pc: Locks.Pc) {
    pc.EnterCreate? || pc.LookUp? || pc.CountUp? || pc.LeaveCreate? || pc.AwaitMutex?
  }

  ghost predicate FailuresOk(s: State) {
    forall j :: j in s.failures ==>
      && s.failures[j].tradeNo in s.orders
      && SameOrder(s.failures[j].row, s.orders[s.failures[j].tradeNo])
  }

  /** The part of the invariant that does not speak of the registry. */
  ghost predicate PaymentsOk(s: State) {
    && CreditsClosed(s)
    && CreditsDistinct(s)
    && JobsOk(s)
    && FailuresOk(s)
  }

  ghost predicate Inv(s: State) {
    Locks.Inv(s.locks) && PaymentsOk(s)
  }

  /** What the order lock contributes. */
  ghost predicate Exclusive(s: State) {
    forall i, j :: InCriticalBody(s, i) && InCriticalBody(s, j) && OrderOf(s, i) == OrderOf(s, j) ==> i == j
  }

  lemma LocksExclude(s: State)
    requires Locks.Inv(s.locks)
    ensures Exclusive(s)
  {
    forall i, j | InCriticalBody(s, i) && InCriticalBody(s, j) && OrderOf(s, i) == OrderOf(s, j) ensures i == j {
      Locks.InvExcludes(s.locks, i, j);
    }
  }

  lemma StillExclusive(s: State, s': State)
    requires Exclusive(s) && s'.locks == s.locks && s'.jobs.Keys == s.jobs.Keys
    ensures Exclusive(s')
  {
    forall i, j | InCriticalBody(s', i) && InCriticalBody(s', j) && OrderOf(s', i) == OrderOf(s', j) ensures i == j {
      assert InCriticalBody(s, i) && InCriticalBody(s, j);
    }
  }

  /** Only the status of an order ever changes, and never back to pending. */
  ghost predicate OrdersEvolve(s: State, s': State) {
    forall t :: t in s.orders ==>
      && t in s'.orders
      && SameOrder(s.orders[t], s'.orders[t])
      && (!s.orders[t].status.Pending? ==> !s'.orders[t].status.Pending?)
  }

  // ---------------------------------------------------------------------
  // Every step keeps the invariant
  // ---------------------------------------------------------------------

  lemma CreditAppended(s: State, s': State, c: Credit)
    requires s'.credits == s.credits + [c]
    ensures forall t :: Credited(s', t) <==> Credited(s, t) || t == c.tradeNo
  {
    forall t ensures Credited(s', t) <==> Credited(s, t) || t == c.tradeNo {
      if Credited(s, t) {
        var n :| 0 <= n < |s.credits| && s.credits[n].tradeNo == t;
        assert s'.credits[n].tradeNo == t;
      }
      assert s'.credits[|s.credits|].tradeNo == c.tradeNo;
    }
  }

  /** Handler `i` acts on its own order only. */
  ghost predicate ActsAlone(s: State, s': State, i: Thread)
    requires InCriticalBody(s, i)
  {
    && s'.locks == s.locks && s'.failures == s.failures && s'.unit == s.unit
    && s'.jobs.Keys == s.jobs.Keys
    && (forall j :: j in s.jobs && j != i ==> s'.jobs[j] == s.jobs[j])
    && s'.orders.Keys == s.orders.Keys
    && (forall t :: t in s.orders && t != OrderOf(s, i) ==> s'.orders[t] == s.orders[t])
    && (forall t :: t != OrderOf(s, i) ==> (Credited(s', t) <==> Credited(s, t)))
  }

  lemma OthersUndisturbed(s: State, s': State, i: Thread)
    requires PaymentsOk(s) && Exclusive(s) && InCriticalBody(s, i) && ActsAlone(s, s', i)
    requires OrdersEvolve(s, s') && ProgressOk(s', i)
    ensures JobsOk(s') && FailuresOk(s')
  {
    forall j | InCriticalBody(s', j) ensures ProgressOk(s', j) {
      if j != i {
        assert InCriticalBody(s, j) && ProgressOk(s, j);
        assert OrderOf(s, j) != OrderOf(s, i);
      }
    }
  }

  /** A handler saves the order it read with another status. */
  lemma SaveKeeps(s: State, s': State, i: Thread, status: Status, p: Progress)
    requires PaymentsOk(s) && Exclusive(s) && InCriticalBody(s, i) && s.jobs[i].progress.HasRead?
    requires !status.Pending?
    requires s' == Save(Advance(s, i, p), OrderOf(s, i), s.jobs[i].progress.row.(status := status))
    requires p.Done? || (p == Marked(s.jobs[i].progress.row) && s.jobs[i].handler.EpayNotify? &&
                         Accepts(EpayNotify, s.jobs[i].progress.row, s.unit))
    ensures PaymentsOk(s') && OrdersEvolve(s, s')
  {
    assert ProgressOk(s, i);
    OthersUndisturbed(s, s', i);
  }

  /** A credit for the order that the handler alone is working on. */
  lemma AddCreditKeeps(s: State, s': State, i: Thread, row: TopUp, h: Handler)
    requires PaymentsOk(s) && Exclusive(s) && InCriticalBody(s, i) && s.jobs[i].progress.Done?
    requires OrderOf(s, i) in s.orders && !s.orders[OrderOf(s, i)].status.Pending? && !Credited(s, OrderOf(s, i))
    requires s' == AddCredit(s, OrderOf(s, i), row, h)
    ensures PaymentsOk(s') && OrdersEvolve(s, s')
  {
    CreditAppended(s, s', Credit(OrderOf(s, i), row.userId, QuotaOf(h, row, s.unit), s.unit, h));
    OthersUndisturbed(s, s', i);
  }

  lemma ActKeeps(s: State, s': State, i: Thread)
    requires PaymentsOk(s) && Exclusive(s) && ActOnOrder(s, s', i)
    ensures PaymentsOk(s') && OrdersEvolve(s, s')
  {
    var t, h, row := OrderOf(s, i), s.jobs[i].handler, s.jobs[i].progress.row;
    assert ProgressOk(s, i);
    if s' == Advance(s, i, Done) {
      OthersUndisturbed(s, s', i);
    } else if h.EpayNotify? {
      SaveKeeps(s, s', i, Success, Marked(row));
    } else if h.SessionAsyncPaymentFailed? {
      SaveKeeps(s, s', i, Failed, Done);
    } else if h.SessionExpired? {
      SaveKeeps(s, s', i, Expired, Done);
    } else {
      var saved := Save(Advance(s, i, Done), t, row.(status := Success));
      SaveKeeps(s, saved, i, Success, Done);
      StillExclusive(s, saved);
      AddCreditKeeps(saved, s', i, row, h);
    }
  }

  lemma IncreaseKeeps(s: State, s': State, i: Thread)
    requires PaymentsOk(s) && Exclusive(s) && IncreaseQuota(s, s', i)
    ensures PaymentsOk(s') && OrdersEvolve(s, s')
  {
    assert ProgressOk(s, i);
    var ended := Advance(s, i, Done);
    OthersUndisturbed(s, ended, i);
    if s' != ended {
      StillExclusive(s, ended);
      AddCreditKeeps(ended, s', i, s.jobs[i].progress.row, s.jobs[i].handler);
    }
  }

  lemma ReadKeeps(s: State, s': State, i: Thread)
    requires PaymentsOk(s) && Exclusive(s) && ReadOrder(s, s', i)
    ensures PaymentsOk(s') && OrdersEvolve(s, s')
  {
    OthersUndisturbed(s, s', i);
  }

  /** The registry moves, the handlers do not. */
  lemma LocksMoveKeeps(s: State, s': State, i: Thread)
    requires PaymentsOk(s) && Locks.SameElsewhere(s.locks, s'.locks, i)
    requires s' == s.(locks := s'.locks, jobs := s'.jobs)
    requires forall j :: j in s.jobs && j != i ==> j in s'.jobs && s'.jobs[j] == s.jobs[j]
    requires i in s'.locks.threads ==> i in s'.jobs
    requires i in s'.locks.threads && (BeforeCritical(s'.locks.threads[i]) || s'.locks.threads[i].Inside?) ==>
               s'.jobs[i].progress.Start?
    ensures PaymentsOk(s') && OrdersEvolve(s, s')
  {
    forall j | InCriticalBody(s', j) ensures ProgressOk(s', j) {
      if j != i {
        assert InCriticalBody(s, j) && ProgressOk(s, j);
      }
    }
  }

  lemma LockStepKeepsInv(s: State, s': State, i: Thread)
    requires Inv(s) && LockStep(s, s', i)
    ensures Inv(s') && OrdersEvolve(s, s')
  {
    Locks.StepKeepsInv(s.locks, i);
    StepMovesOnly(s.locks, i);
    LocksMoveKeeps(s, s', i);
  }

  lemma CallKeepsInv(s: State, s': State, i: Thread, t: TradeNo, h: Handler)
    requires Inv(s) && CallHandler(s, s', i, t, h)
    ensures Inv(s') && OrdersEvolve(s, s')
  {
    Locks.CallKeepsInv(s.locks, i, t);
    LocksMoveKeeps(s, s', i);
  }

  lemma StepMovesOnly(l: Locks.State, i: Thread)
    requires Locks.CanStep(l, i)
    ensures Locks.SameElsewhere(l, Locks.Step(l, i), i)
    ensures var l' := Locks.Step(l, i);
            i in l'.threads && (BeforeCritical(l'.threads[i]) || l'.threads[i].Inside?) ==> BeforeCritical(l.threads[i])
  {
  }

  lemma NewOrderKeeps(s: State, s': State, t: TradeNo, row: TopUp)
    requires PaymentsOk(s) && NewOrder(s, s', t, row)
    ensures PaymentsOk(s') && OrdersEvolve(s, s')
  {
    forall j | InCriticalBody(s', j) ensures ProgressOk(s', j) {
      assert InCriticalBody(s, j) && ProgressOk(s, j);
    }
  }

  lemma NewRequestKeeps(s: State, s': State, j: nat, t: TradeNo, row: TopUp)
    requires PaymentsOk(s) && NewRequest(s, s', j, t, row)
    ensures PaymentsOk(s') && OrdersEvolve(s, s')
  {
    forall i | InCriticalBody(s', i) ensures ProgressOk(s', i) {
      assert InCriticalBody(s, i) && ProgressOk(s, i);
    }
  }

  lemma SetUnitKeeps(s: State, s': State, unit: real)
    requires PaymentsOk(s) && SetUnit(s, s', unit)
    ensures PaymentsOk(s') && OrdersEvolve(s, s')
  {
    forall i | InCriticalBody(s', i) ensures ProgressOk(s', i) {
      assert InCriticalBody(s, i) && ProgressOk(s, i);
    }
  }

  lemma EndFailureKeeps(s: State, s': State, j: nat)
    requires PaymentsOk(s) && EndFailure(s, s', j)
    ensures PaymentsOk(s') && OrdersEvolve(s, s')
  {
    forall i | InCriticalBody(s', i) ensures ProgressOk(s', i) {
      assert InCriticalBody(s, i) && ProgressOk(s, i);
    }
  }

  lemma RejectReadKeeps(s: State, s': State, j: nat, t: TradeNo)
    requires PaymentsOk(s) && RejectRead(s, s', j, t)
    ensures PaymentsOk(s') && OrdersEvolve(s, s')
  {
    forall i | InCriticalBody(s', i) ensures ProgressOk(s', i) {
      assert InCriticalBody(s, i) && ProgressOk(s, i);
    }
  }

  /** Every step but those of the lock itself. */
  lemma NextKeepsPayments(s: State, s': State, a: Action)
    requires PaymentsOk(s) && Exclusive(s) && NextBy(s, s', a) && !a.ACall? && !a.ALock?
    ensures PaymentsOk(s') && OrdersEvolve(s, s') && s'.locks == s.locks
  {
    match a
    case ANew(t, row) => NewOrderKeeps(s, s', t, row);
    case ARead(i) => ReadKeeps(s, s', i);
    case AAct(i) => ActKeeps(s, s', i);
    case AIncrease(i) => IncreaseKeeps(s, s', i);
    case ARequest(j, t, row) => NewRequestKeeps(s, s', j, t, row);
    case ARejectRead(j, t) => RejectReadKeeps(s, s', j, t);
    case AEndFailure(j) => EndFailureKeeps(s, s', j);
    case ASetUnit(unit) => SetUnitKeeps(s, s', unit);
  }

  lemma NextKeepsInv(s: State, s': State, a: Action)
    requires Inv(s) && NextBy(s, s', a)
    ensures Inv(s') && OrdersEvolve(s, s')
  {
    if a.ACall? {
      CallKeepsInv(s, s', a.i, a.t, a.h);
    } else if a.ALock? {
      LockStepKeepsInv(s, s', a.i);
    } else {
      LocksExclude(s);
      NextKeepsPayments(s, s', a);
    }
  }

  lemma {:induction false} RunInv(run: seq<State>, actions: seq<Action>, k: nat)
    requires IsRun(run, actions) && k < |run|
    ensures Inv(run[k])
  {
    if k > 0 {
      RunInv(run, actions, k - 1);
      NextKeepsInv(run[k - 1], run[k], actions[k - 1]);
    }
  }

  // ---------------------------------------------------------------------
  // What holds over whole runs
  // ---------------------------------------------------------------------

  lemma RunEvolves(run: seq<State>, actions: seq<Action>, k: nat)
    requires IsRun(run, actions) && k < |actions|
    ensures OrdersEvolve(run[k], run[k + 1])
  {
    RunInv(run, actions, k);
    NextKeepsInv(run[k], run[k + 1], actions[k]);
  }

  /** No order is credited twice, by whatever mixture of handlers. */
  lemma CreditedAtMostOnce(run: seq<State>, actions: seq<Action>, k: nat, m: nat, n: nat)
    requires IsRun(run, actions) && k < |run| && m < |run[k].credits| && n < |run[k].credits|
    requires run[k].credits[m].tradeNo == run[k].credits[n].tradeNo
    ensures m == n
  {
    RunInv(run, actions, k);
  }

  /** Handler `i` credits order `t`, which it read as pending under the lock and
      which nobody had credited. */
  ghost predicate RightfulCredit(s: State, s': State, i: Thread) {
    && InCriticalBody(s, i)
    && (s.jobs[i].progress.HasRead? || s.jobs[i].progress.Marked?)
    && var t, h, row := OrderOf(s, i), s.jobs[i].handler, s.jobs[i].progress.row;
       && (h.EpayNotify? || h.CreditsInTransaction())
       && row.status.Pending? && Accepts(h, row, s.unit)
       && t in s.orders && SameOrder(row, s.orders[t])
       && !Credited(s, t)
       && t in s'.orders && !s'.orders[t].status.Pending?
       && s'.credits == s.credits + [Credit(t, row.userId, QuotaOf(h, row, s.unit), s.unit, h)]
       && s'.quota == AddQuota(s.quota, row.userId, QuotaOf(h, row, s.unit))
  }

  ghost predicate SomeRightfulCredit(s: State, s': State) {
    exists i :: RightfulCredit(s, s', i)
  }

  /** Quota changes only by a rightful credit. */
  lemma CreditOnlyWhilePending(run: seq<State>, actions: seq<Action>, k: nat)
    requires IsRun(run, actions) && k < |actions|
    ensures || (run[k].credits == run[k + 1].credits && run[k].quota == run[k + 1].quota)
            || SomeRightfulCredit(run[k], run[k + 1])
  {
    RunInv(run, actions, k);
    var s, s', a := run[k], run[k + 1], actions[k];
    if (s.credits != s'.credits || s.quota != s'.quota) && a.AAct? {
      ActCreditsRightfully(s, s', a.i);
    } else if (s.credits != s'.credits || s.quota != s'.quota) && a.AIncrease? {
      IncreaseCreditsRightfully(s, s', a.i);
    }
  }

  lemma ActCreditsRightfully(s: State, s': State, i: Thread)
    requires Inv(s) && ActOnOrder(s, s', i) && (s.credits != s'.credits || s.quota != s'.quota)
    ensures RightfulCredit(s, s', i)
  {
    assert ProgressOk(s, i);
  }

  lemma IncreaseCreditsRightfully(s: State, s': State, i: Thread)
    requires Inv(s) && IncreaseQuota(s, s', i) && (s.credits != s'.credits || s.quota != s'.quota)
    ensures RightfulCredit(s, s', i)
  {
    assert ProgressOk(s, i);
  }

  function CreditedTo(credits: seq<Credit>, userId: int): (r: real) {
    if credits == [] then 0.0
    else
      var last := credits[|credits| - 1];
      CreditedTo(credits[..|credits| - 1], userId) + if last.userId == userId then last.quota else 0.0
  }

  /** Conservation: every user's quota is the initial one plus that user's credits. */
  lemma {:induction false} QuotaConserved(run: seq<State>, actions: seq<Action>, k: nat, userId: int)
    requires IsRun(run, actions) && k < |run|
    ensures userId in run[k].quota <==> userId in run[0].quota
    ensures userId in run[k].quota ==>
              run[k].quota[userId] == run[0].quota[userId] + CreditedTo(run[k].credits, userId)
  {
    if k > 0 {
      QuotaConserved(run, actions, k - 1, userId);
      CreditOnlyWhilePending(run, actions, k - 1);
      var s, s' := run[k - 1], run[k];
      if s.credits != s'.credits {
        assert s'.credits[..|s'.credits| - 1] == s.credits;
      }
    }
  }

  lemma EvolveCompose(a: State, b: State, c: State)
    requires OrdersEvolve(a, b) && OrdersEvolve(b, c)
    ensures OrdersEvolve(a, c)
  {
  }

  /** An order that has left the pending state never returns to it, and its user,
      amount and payment method never change. */
  lemma {:induction false} NeverPendingAgain(run: seq<State>, actions: seq<Action>, j: nat, k: nat)
    requires IsRun(run, actions) && j <= k < |run|
    ensures OrdersEvolve(run[j], run[k])
  {
    if j < k {
      NeverPendingAgain(run, actions, j, k - 1);
      RunEvolves(run, actions, k - 1);
      EvolveCompose(run[j], run[k - 1], run[k]);
    }
  }

  /** Truncation loses less than one unit of quota, and nothing exactly when the product
      is whole. */
  lemma TruncationExact(x: real)
    ensures -1.0 < x - Truncate(x) as real < 1.0
    ensures x >= 0.0 ==> Truncate(x) as real <= x
    ensures Truncate(x) as real == x <==> x.Floor as real == x
  {
    if x.Floor as real == x {
      assert (-x) == (-x.Floor) as real;
    }
  }

  /** An order's quota is amount times unit, without loss for every whole unit. */
  lemma UnitsAreExact(amount: int, unit: int)
    ensures UnitsToQuota(amount, unit as real) == amount * unit
  {
    var product := amount * unit;
    assert amount as real * unit as real == product as real;
    TruncationExact(product as real);
  }

  /** The credit each handler gives, and to which orders. */
  predicate FairCredit(c: Credit, order: TopUp) {
    c.userId == order.userId && FairQuota(c.giver, c.quota, c.unit, order)
  }

  predicate FairQuota(h: Handler, quota: real, unit: real, order: TopUp) {
    match h
    case EpayNotify => order.paymentMethod.Other? && quota == Truncate(Times(order.amount as real, unit)) as real
    case Recharge => order.paymentMethod.Stripe? && quota == Times(order.money, unit)
    case RechargeCreem => order.paymentMethod.Creem? && quota == order.amount as real
    case RechargeWaffo => order.paymentMethod.Waffo? && quota == Truncate(Times(order.amount as real, unit)) as real && quota > 0.0
    case ManualComplete =>
      && quota > 0.0
      && quota == Truncate(if order.paymentMethod.Stripe? then Times(order.money, unit) else Times(order.amount as real, unit)) as real
    case SessionExpired => false
    case SessionAsyncPaymentFailed => false
  }

  lemma AcceptedQuotaIsFair(h: Handler, row: TopUp, unit: real, order: TopUp)
    requires Accepts(h, row, unit) && (h.EpayNotify? || h.CreditsInTransaction()) && SameOrder(row, order)
    ensures FairQuota(h, QuotaOf(h, row, unit), unit, order)
  {
  }

  lemma RightfulCreditIsFair(s: State, s': State, i: Thread)
    requires RightfulCredit(s, s', i) && OrdersEvolve(s, s')
    ensures |s'.credits| == |s.credits| + 1 && s'.credits[|s.credits|].tradeNo in s'.orders
    ensures FairCredit(s'.credits[|s.credits|], s'.orders[s'.credits[|s.credits|].tradeNo])
  {
    var row := s.jobs[i].progress.row;
    AcceptedQuotaIsFair(s.jobs[i].handler, row, s.unit, s'.orders[OrderOf(s, i)]);
  }

  ghost predicate CreditsFair(s: State) {
    forall n :: 0 <= n < |s.credits| ==>
      s.credits[n].tradeNo in s.orders && FairCredit(s.credits[n], s.orders[s.credits[n].tradeNo])
  }

  lemma SamePrice(h: Handler, quota: real, unit: real, a: TopUp, b: TopUp)
    requires SameOrder(a, b) && FairQuota(h, quota, unit, a)
    ensures FairQuota(h, quota, unit, b)
  {
  }

  lemma FairnessKept(s: State, s': State)
    requires CreditsFair(s) && OrdersEvolve(s, s') && s'.credits == s.credits
    ensures CreditsFair(s')
  {
    forall n | 0 <= n < |s'.credits|
      ensures s'.credits[n].tradeNo in s'.orders && FairCredit(s'.credits[n], s'.orders[s'.credits[n].tradeNo])
    {
      var t := s.credits[n].tradeNo;
      assert FairCredit(s.credits[n], s.orders[t]);
      SamePrice(s.credits[n].giver, s.credits[n].quota, s.credits[n].unit, s.orders[t], s'.orders[t]);
    }
  }

  /** Every credit ever given is the price that its handler gives for its order, at the
      quota per unit of that moment, and its handler is one for that payment method. */
  lemma {:induction false} CreditsMatchOrders(run: seq<State>, actions: seq<Action>, k: nat)
    requires IsRun(run, actions) && k < |run|
    ensures CreditsFair(run[k])
  {
    if k > 0 {
      var s, s' := run[k - 1], run[k];
      CreditsMatchOrders(run, actions, k - 1);
      RunEvolves(run, actions, k - 1);
      CreditOnlyWhilePending(run, actions, k - 1);
      if s'.credits == s.credits {
        FairnessKept(s, s');
      } else {
        var i :| RightfulCredit(s, s', i);
        RightfulCreditIsFair(s, s', i);
        FairnessKept(s, s'.(credits := s.credits));
        assert s'.credits[..|s.credits|] == s.credits;
      }
    }
  }

  // ---------------------------------------------------------------------
  // Who writes which status
  // ---------------------------------------------------------------------

  /** The step is that of a handler `h` that has read order `t`. */
  ghost predicate HandlerActs(s: State, a: Action, t: TradeNo, h: Handler) {
    && a.AAct? && InCriticalBody(s, a.i) && OrderOf(s, a.i) == t
    && s.jobs[a.i].handler == h && s.jobs[a.i].progress.HasRead?
  }

  /** The step credits order `t`, once, for its user. */
  ghost predicate CreditsNow(s: State, s': State, t: TradeNo, h: Handler) {
    && |s'.credits| == |s.credits| + 1 && s'.credits[..|s.credits|] == s.credits
    && t in s.orders
    && var c := s'.credits[|s.credits|];
       c.tradeNo == t && c.giver == h && c.userId == s.orders[t].userId
  }

  /** A success is written by an Epay notification, which has yet to credit it, or by a
      handler that credits the order in the same step. */
  ghost predicate SuccessWritten(s: State, s': State, a: Action, t: TradeNo) {
    || (HandlerActs(s, a, t, EpayNotify) && a.i in s'.jobs && s'.jobs[a.i].progress.Marked? && s'.credits == s.credits)
    || (HandlerActs(s, a, t, Recharge) && CreditsNow(s, s', t, Recharge))
    || (HandlerActs(s, a, t, RechargeCreem) && CreditsNow(s, s', t, RechargeCreem))
    || (HandlerActs(s, a, t, RechargeWaffo) && CreditsNow(s, s', t, RechargeWaffo))
    || (HandlerActs(s, a, t, ManualComplete) && CreditsNow(s, s', t, ManualComplete))
  }

  /** A failure is written by a failed Stripe payment or by a writer without the lock. */
  ghost predicate FailureWritten(s: State, a: Action, t: TradeNo) {
    || HandlerActs(s, a, t, SessionAsyncPaymentFailed)
    || (a.AEndFailure? && a.j in s.failures && s.failures[a.j].tradeNo == t)
  }

  /** Over every run, for every order: what each change of status was. */
  lemma StatusWriters(run: seq<State>, actions: seq<Action>, k: nat, t: TradeNo)
    requires IsRun(run, actions) && k < |actions| && t in run[k].orders
    ensures t in run[k + 1].orders
    ensures run[k + 1].orders[t].status != run[k].orders[t].status ==>
              match run[k + 1].orders[t].status
              case Pending => false
              case Success =>
                && (run[k].orders[t].status == Pending || run[k].orders[t].status == Failed)
                && SuccessWritten(run[k], run[k + 1], actions[k], t)
              case Failed =>
                FailureWritten(run[k], actions[k], t) && run[k + 1].credits == run[k].credits && run[k + 1].quota == run[k].quota
              case Expired =>
                HandlerActs(run[k], actions[k], t, SessionExpired) && run[k + 1].credits == run[k].credits && run[k + 1].quota == run[k].quota
  {
    RunInv(run, actions, k);
    RunEvolves(run, actions, k);
    if run[k + 1].orders[t].status != run[k].orders[t].status {
      OnlyTwoStepsWrite(run[k], run[k + 1], actions[k], t);
      if actions[k].AAct? {
        ActWrites(run[k], run[k + 1], actions[k].i, t);
      }
    }
  }

  lemma OnlyTwoStepsWrite(s: State, s': State, a: Action, t: TradeNo)
    requires NextBy(s, s', a) && t in s.orders && t in s'.orders && s'.orders[t].status != s.orders[t].status
    ensures a.AAct? || a.AEndFailure?
    ensures a.AEndFailure? ==>
              && a.j in s.failures && s.failures[a.j].tradeNo == t && s'.orders[t].status.Failed?
              && s'.credits == s.credits && s'.quota == s.quota
  {
  }

  lemma ActWrites(s: State, s': State, i: Thread, t: TradeNo)
    requires Inv(s) && ActOnOrder(s, s', i) && t in s.orders && t in s'.orders
    requires s'.orders[t].status != s.orders[t].status
    ensures OrderOf(s, i) == t
    ensures s'.orders[t].status.Success? ==>
              (s.orders[t].status.Pending? || s.orders[t].status.Failed?) && SuccessWritten(s, s', AAct(i), t)
    ensures s'.orders[t].status.Failed? ==>
              HandlerActs(s, AAct(i), t, SessionAsyncPaymentFailed) && s'.credits == s.credits && s'.quota == s.quota
    ensures s'.orders[t].status.Expired? ==>
              HandlerActs(s, AAct(i), t, SessionExpired) && s'.credits == s.credits && s'.quota == s.quota
  {
    assert ProgressOk(s, i);
  }

  ghost predicate CanWrite(s: State, i: Thread, t: TradeNo, status: Status) {
    exists s' :: NextBy(s, s', AAct(i)) && t in s'.orders && s'.orders[t].status == status
  }

  /** ... and each of them does happen: what a handler that has read a pending order can
      write next, by payment method and price. */
  lemma HandlersCanWrite(s: State, i: Thread)
    requires InCriticalBody(s, i) && s.jobs[i].progress.HasRead? && s.jobs[i].progress.row.status.Pending?
    ensures var t, h, row := OrderOf(s, i), s.jobs[i].handler, s.jobs[i].progress.row;
            && (h.EpayNotify? && row.paymentMethod.Other? ==> CanWrite(s, i, t, Success))
            && (h.SessionAsyncPaymentFailed? && row.paymentMethod.Stripe? ==> CanWrite(s, i, t, Failed))
            && (h.SessionExpired? ==> CanWrite(s, i, t, Expired))
            && (h.Recharge? && row.paymentMethod.Stripe? ==> CanWrite(s, i, t, Success))
            && (h.RechargeCreem? && row.paymentMethod.Creem? ==> CanWrite(s, i, t, Success))
            && (h.RechargeWaffo? && row.paymentMethod.Waffo? && UnitsToQuota(row.amount, s.unit) > 0 ==> CanWrite(s, i, t, Success))
            && (h.ManualComplete? && row.paymentMethod.Stripe? && Truncate(Times(row.money, s.unit)) > 0 ==> CanWrite(s, i, t, Success))
            && (h.ManualComplete? && !row.paymentMethod.Stripe? && UnitsToQuota(row.amount, s.unit) > 0 ==> CanWrite(s, i, t, Success))
  {
    var t, h, row := OrderOf(s, i), s.jobs[i].handler, s.jobs[i].progress.row;
    var ended := Advance(s, i, Done);
    if h.EpayNotify? && row.paymentMethod.Other? {
      assert NextBy(s, Save(Advance(s, i, Marked(row)), t, row.(status := Success)), AAct(i));
    } else if h.SessionAsyncPaymentFailed? && row.paymentMethod.Stripe? {
      assert NextBy(s, Save(ended, t, row.(status := Failed)), AAct(i));
    } else if h.SessionExpired? {
      assert NextBy(s, Save(ended, t, row.(status := Expired)), AAct(i));
    } else if h.CreditsInTransaction() && Accepts(h, row, s.unit) {
      assert NextBy(s, AddCredit(Save(ended, t, row.(status := Success)), t, row, h), AAct(i));
    }
  }

  ghost predicate CanCredit(s: State, i: Thread, credit: Credit) {
    exists s' :: NextBy(s, s', AIncrease(i)) && s'.credits == s.credits + [credit] && s'.orders == s.orders
  }

  /** Epay, once it has saved the success, can give the quota of the order as it read it,
      unless that is negative. */
  lemma EpayCanCredit(s: State, i: Thread)
    requires InCriticalBody(s, i) && s.jobs[i].progress.Marked? && s.jobs[i].handler.EpayNotify?
    ensures var row := s.jobs[i].progress.row;
            var quota := Truncate(Times(row.amount as real, s.unit));
            quota >= 0 ==> CanCredit(s, i, Credit(OrderOf(s, i), row.userId, quota as real, s.unit, EpayNotify))
  {
    var row := s.jobs[i].progress.row;
    if QuotaOf(EpayNotify, row, s.unit) >= 0.0 {
      assert NextBy(s, AddCredit(Advance(s, i, Done), OrderOf(s, i), row, EpayNotify), AIncrease(i));
    }
  }

  // ---------------------------------------------------------------------
  // Terminal statuses are not final
  // ---------------------------------------------------------------------

  /** A Stripe expiry of order `t` has read it; it does not stop at a wrong status. */
  ghost predicate ExpiryReady(s: State, i: Thread, t: TradeNo) {
    && InCriticalBody(s, i) && OrderOf(s, i) == t
    && s.jobs[i].handler.SessionExpired? && s.jobs[i].progress.HasRead?
  }

  ghost predicate SomeExpiryReady(s: State, t: TradeNo) {
    exists i :: ExpiryReady(s, i, t)
  }

  /** A rejection or a payment request still holds its copy of order `t`. */
  ghost predicate FailureOutstanding(s: State, t: TradeNo) {
    exists j :: j in s.failures && s.failures[j].tradeNo == t
  }

  ghost predicate LosesSuccess(s: State, s': State, a: Action, t: TradeNo) {
    NextBy(s, s', a) && t in s'.orders && !s'.orders[t].status.Success?
  }

  ghost predicate CanLoseSuccess(s: State, t: TradeNo) {
    exists s', a :: LosesSuccess(s, s', a, t)
  }

  /** Some next step undoes a success if and only if, now, an expiry of the order has
      read it or a writer without the lock still holds a copy of it. */
  lemma SuccessLostExactlyWhen(s: State, t: TradeNo)
    requires Inv(s) && t in s.orders && s.orders[t].status.Success?
    ensures CanLoseSuccess(s, t) <==> SomeExpiryReady(s, t) || FailureOutstanding(s, t)
  {
    if CanLoseSuccess(s, t) {
      var s', a :| LosesSuccess(s, s', a, t);
      LossNeedsWriter(s, s', a, t);
    }
    if SomeExpiryReady(s, t) {
      var i :| ExpiryReady(s, i, t);
      var s' := Save(Advance(s, i, Done), t, s.jobs[i].progress.row.(status := Expired));
      assert LosesSuccess(s, s', AAct(i), t);
    }
    if FailureOutstanding(s, t) {
      var j :| j in s.failures && s.failures[j].tradeNo == t;
      var s' := Save(s.(failures := s.failures - {j}), t, s.failures[j].row.(status := Failed));
      assert LosesSuccess(s, s', AEndFailure(j), t);
    }
  }

  lemma LossNeedsWriter(s: State, s': State, a: Action, t: TradeNo)
    requires Inv(s) && t in s.orders && s.orders[t].status.Success? && LosesSuccess(s, s', a, t)
    ensures SomeExpiryReady(s, t) || FailureOutstanding(s, t)
  {
    if a.AAct? {
      OnlyExpiryUndoes(s, s', a.i, t);
    } else if a.AEndFailure? {
      assert s.failures[a.j].tradeNo == t;
    }
  }

  lemma OnlyExpiryUndoes(s: State, s': State, i: Thread, t: TradeNo)
    requires Inv(s) && t in s.orders && s.orders[t].status.Success?
    requires ActOnOrder(s, s', i) && t in s'.orders && !s'.orders[t].status.Success?
    ensures ExpiryReady(s, i, t)
  {
    assert ProgressOk(s, i);
  }

  /** No writer without the lock comes to hold a copy of an order that is not pending. */
  lemma NoNewFailure(s: State, s': State, a: Action, t: TradeNo)
    requires NextBy(s, s', a) && t in s.orders && !s.orders[t].status.Pending? && !FailureOutstanding(s, t)
    ensures !FailureOutstanding(s', t)
  {
    forall j | j in s'.failures ensures s'.failures[j].tradeNo != t {
      assert j in s.failures ==> s.failures[j].tradeNo != t;
    }
  }

  /** Hence a success without such a copy stays a success for as long as no expiry of the
      order gets to read it. */
  lemma {:induction false} SuccessFinal(run: seq<State>, actions: seq<Action>, k: nat, m: nat, t: TradeNo)
    requires IsRun(run, actions) && k <= m < |run|
    requires t in run[k].orders && run[k].orders[t].status.Success? && !FailureOutstanding(run[k], t)
    requires forall n :: k <= n < m ==> !SomeExpiryReady(run[n], t)
    ensures t in run[m].orders && run[m].orders[t].status.Success? && !FailureOutstanding(run[m], t)
  {
    if k < m {
      SuccessFinal(run, actions, k, m - 1, t);
      var s, s', a := run[m - 1], run[m], actions[m - 1];
      RunInv(run, actions, m - 1);
      RunEvolves(run, actions, m - 1);
      NoNewFailure(s, s', a, t);
      if !s'.orders[t].status.Success? {
        LossNeedsWriter(s, s', a, t);
      }
    }
  }

  // ---------------------------------------------------------------------
  // A run that credits an order and loses its success
  // ---------------------------------------------------------------------

  /** The registry while goroutine 0, alone, locks order `t`. */
  function Alone(t: TradeNo, pc: Locks.Pc, heap: seq<Locks.RefCountedMutex>, inCreate: bool): Locks.State {
    Locks.State(if heap == [] then map[] else map[t := 0], if inCreate then Some(0) else None, heap, map[0 := pc])
  }

  /** The states of the registry from the call of `LockOrder` to its return. */
  function LockingAlone(t: TradeNo): (r: seq<Locks.State>)
    ensures |r| == 6
  {
    var unused, counted := Locks.RefCountedMutex(false, 0), Locks.RefCountedMutex(false, 1);
    [Alone(t, Locks.EnterCreate(t), [], false),
     Alone(t, Locks.LookUp(t), [], true),
     Alone(t, Locks.CountUp(t, 0), [unused], true),
     Alone(t, Locks.LeaveCreate(t, 0), [counted], true),
     Alone(t, Locks.AwaitMutex(t, 0), [counted], false),
     Alone(t, Locks.Inside(t, 0), [Locks.RefCountedMutex(true, 1)], false)]
  }

  lemma LockingAloneSteps(t: TradeNo, k: nat)
    requires k < 5
    ensures var l := LockingAlone(t); Locks.CanStep(l[k], 0) && Locks.Step(l[k], 0) == l[k + 1]
    ensures LockingAlone(t)[0] == Locks.Call(Locks.INITIAL, 0, t)
  {
  }

  lemma RunExtends(run: seq<State>, actions: seq<Action>, s': State, a: Action)
    requires IsRun(run, actions) && NextBy(run[|run| - 1], s', a)
    ensures IsRun(run + [s'], actions + [a])
  {
    var run', actions' := run + [s'], actions + [a];
    forall k | 0 <= k < |actions'| ensures NextBy(run'[k], run'[k + 1], actions'[k]) {
      if k < |actions| {
        assert actions'[k] == actions[k];
      }
    }
  }

  /** Goroutine 0, alone, locks its order. */
  lemma {:induction false} LockAlone(run: seq<State>, actions: seq<Action>, t: TradeNo, k: nat) returns (run': seq<State>, actions': seq<Action>)
    requires IsRun(run, actions) && k <= 5 && run[|run| - 1].locks == LockingAlone(t)[0]
    ensures IsRun(run', actions') && |run'| == |run| + k
    ensures run'[|run'| - 1] == run[|run| - 1].(locks := LockingAlone(t)[k])
    ensures run <= run'
  {
    if k == 0 {
      run', actions' := run, actions;
    } else {
      run', actions' := LockAlone(run, actions, t, k - 1);
      var s := run'[|run'| - 1];
      LockingAloneSteps(t, k - 1);
      var s' := s.(locks := LockingAlone(t)[k]);
      assert NextBy(s, s', ALock(0));
      RunExtends(run', actions', s', ALock(0));
      run', actions' := run' + [s'], actions' + [ALock(0)];
    }
  }

  /** From every initial state, for every Waffo order that brings quota: a payment request
      makes the order, the administrator completes it while the request still waits for
      the provider, and the request then fails.  The user keeps the one credit, and the
      order is left as failed. */
  lemma CreditedSuccessLost(s0: State, t: TradeNo, row: TopUp) returns (run: seq<State>, actions: seq<Action>)
    requires Init(s0) && t !in s0.orders
    requires row.status.Pending? && row.paymentMethod.Waffo? && UnitsToQuota(row.amount, s0.unit) > 0
    ensures IsRun(run, actions) && |run| == 11 && run[0] == s0
    ensures t in run[9].orders && run[9].orders[t].status.Success?
    ensures t in run[10].orders && run[10].orders[t].status.Failed?
    ensures var credit := Credit(t, row.userId, UnitsToQuota(row.amount, s0.unit) as real, s0.unit, ManualComplete);
            run[9].credits == [credit] && run[10].credits == [credit]
  {
    run, actions := RequestAndCall(s0, t, row);
    run, actions := LockAlone(run, actions, t, 5);
    run, actions := CompleteAlone(run, actions, t, row);
    var credited := run[9];
    var lost := Save(credited.(failures := credited.failures - {0}), t, row.(status := Failed));
    assert NextBy(credited, lost, AEndFailure(0));
    RunExtends(run, actions, lost, AEndFailure(0));
    run, actions := run + [lost], actions + [AEndFailure(0)];
  }

  /** Goroutine 0, inside, completes its pending order for the administrator. */
  lemma CompleteAlone(run: seq<State>, actions: seq<Action>, t: TradeNo, row: TopUp) returns (run': seq<State>, actions': seq<Action>)
    requires IsRun(run, actions)
    requires var s := run[|run| - 1];
             && s.locks == LockingAlone(t)[5] && s.jobs == map[0 := Job(ManualComplete, Start)]
             && t in s.orders && s.orders[t] == row && Accepts(ManualComplete, row, s.unit)
    ensures IsRun(run', actions') && |run'| == |run| + 2 && run <= run'
    ensures var s, s' := run[|run| - 1], run'[|run'| - 1];
            && s'.orders == s.orders[t := row.(status := Success)] && s'.failures == s.failures
            && s'.credits == s.credits + [Credit(t, row.userId, QuotaOf(ManualComplete, row, s.unit), s.unit, ManualComplete)]
  {
    var s := run[|run| - 1];
    var found := Advance(s, 0, HasRead(row));
    assert NextBy(s, found, ARead(0));
    RunExtends(run, actions, found, ARead(0));
    var credited := AddCredit(Save(Advance(found, 0, Done), t, row.(status := Success)), t, row, ManualComplete);
    assert NextBy(found, credited, AAct(0));
    RunExtends(run + [found], actions + [ARead(0)], credited, AAct(0));
    run', actions' := run + [found] + [credited], actions + [ARead(0)] + [AAct(0)];
  }

  lemma RequestAndCall(s0: State, t: TradeNo, row: TopUp) returns (run: seq<State>, actions: seq<Action>)
    requires Init(s0) && t !in s0.orders && row.status.Pending? && row.paymentMethod.Waffo?
    ensures IsRun(run, actions) && |run| == 3 && run[0] == s0
    ensures run[2] == s0.(orders := s0.orders[t := row], failures := map[0 := Request(t, row)],
                          locks := LockingAlone(t)[0], jobs := map[0 := Job(ManualComplete, Start)])
  {
    var s1 := Save(s0, t, row).(failures := s0.failures[0 := Request(t, row)]);
    var s2 := s1.(locks := Locks.Call(s1.locks, 0, t), jobs := s1.jobs[0 := Job(ManualComplete, Start)]);
    LockingAloneSteps(t, 0);
    assert NextBy(s0, s1, ARequest(0, t, row));
    RunExtends([s0], [], s1, ARequest(0, t, row));
    assert NextBy(s1, s2, ACall(0, t, ManualComplete));
    RunExtends([s0, s1], [ARequest(0, t, row)], s2, ACall(0, t, ManualComplete));
    assert [s0] + [s1] == [s0, s1] && [] + [ARequest(0, t, row)] == [ARequest(0, t, row)];
    run, actions := [s0, s1] + [s2], [ARequest(0, t, row)] + [ACall(0, t, ManualComplete)];
  }
}
