/**
 The life of a top-up order under the webhook and admin handlers of
 controller/topup.go and controller/topup_stripe.go. Each handler takes the
 order's lock, then works on the order in one or more separate database calls.
 Other gateways also write their own rows without the lock.
 */
module TopUpOrders {
  import opened L = OrderLocks

  /** `Subscription` rows mirror a subscription order and carry no gateway of their own. */
  datatype Provider = Stripe | Epay | OtherProvider | Subscription

  datatype Status = Pending | Success | Failed | Expired

  /**
   A row of the top-up table: `quota` is what the gateway's own completion adds to the user's
   balance, `manualQuota` what a completion by an administrator adds.
   */
  datatype Order = Order(userId: nat, provider: Provider, quota: int, manualQuota: int, status: Status)

  /** A committed addition to a balance. */
  datatype Credit = Credit(tradeNo: TradeNo, userId: nat, amount: int)

  /** The table, the users' balances, and the log of credits in the order they were committed. */
  datatype Database = Database(orders: map<TradeNo, Order>, balance: map<nat, int>, credits: seq<Credit>)

  /** Which handler holds, or waits for, the lock. */
  datatype Handler = FulfillOrder | AsyncPaymentFailed | SessionExpired | AdminComplete | EpayNotify | OtherSuccess

  /** How far the handler's critical section has come; `Loaded` carries the row read by an earlier step. */
  datatype Phase = Begin | Checked | Loaded(copy: Order) | Finished

  datatype Job = Job(handler: Handler, phase: Phase)

  // ----- Database calls: each is one transaction -------------------------------

  predicate IsPending(db: Database, k: TradeNo) {
    k in db.orders && db.orders[k].status.Pending?
  }

  predicate Of(db: Database, k: TradeNo, provider: Provider) {
    k in db.orders && db.orders[k].provider == provider
  }

  function SetStatus(db: Database, k: TradeNo, status: Status): Database
    requires k in db.orders
  {
    db.(orders := db.orders[k := db.orders[k].(status := status)])
  }

  /** UPDATE users SET quota = quota + ? WHERE id = ?: nothing happens to an unknown user. */
  function Raise(balance: map<nat, int>, c: Credit): map<nat, int> {
    if c.userId in balance then balance[c.userId := balance[c.userId] + c.amount] else balance
  }

  /** Mark the order successful and credit its user, in one transaction. */
  function Complete(db: Database, k: TradeNo, amount: int): Database
    requires k in db.orders
  {
    var c := Credit(k, db.orders[k].userId, amount);
    SetStatus(db, k, Success).(balance := Raise(db.balance, c), credits := db.credits + [c])
  }

  function Recharge(db: Database, k: TradeNo, provider: Provider): Database {
    if IsPending(db, k) && Of(db, k, provider) then Complete(db, k, db.orders[k].quota) else db
  }

  function UpdatePendingStatus(db: Database, k: TradeNo, provider: Provider, target: Status): Database {
    if IsPending(db, k) && Of(db, k, provider) then SetStatus(db, k, target) else db
  }

  function ManualComplete(db: Database, k: TradeNo): Database {
    if IsPending(db, k) && db.orders[k].manualQuota > 0 then Complete(db, k, db.orders[k].manualQuota) else db
  }

  function CompleteEpay(db: Database, k: TradeNo): Database {
    if IsPending(db, k) && db.orders[k].quota > 0 then Recharge(db, k, Epay) else db
  }

  /**
   One database call of a handler. `ok` is the call's outcome where the handler cannot
   control it: false means that the transaction rolled back or, for the subscription lookup
   that precedes two of the handlers, that the order was a subscription.
   */
  function Work(db: Database, k: TradeNo, job: Job, ok: bool): (Database, Job)
    requires !job.phase.Finished?
  {
    var done := job.(phase := Finished);
    match job.handler
    case FulfillOrder =>
      if job.phase.Begin? then (db, if ok then job.(phase := Checked) else done)
      else (if ok then Recharge(db, k, Stripe) else db, done)
    case SessionExpired =>
      if job.phase.Begin? then (db, if ok then job.(phase := Checked) else done)
      else (if ok then UpdatePendingStatus(db, k, Stripe, Expired) else db, done)
    case AdminComplete => (if ok then ManualComplete(db, k) else db, done)
    case OtherSuccess => (if ok then Recharge(db, k, OtherProvider) else db, done)
    case EpayNotify =>
      if job.phase.Begin? then
        (db, if ok && IsPending(db, k) && Of(db, k, Epay) then job.(phase := Checked) else done)
      else (if ok then CompleteEpay(db, k) else db, done)
    case AsyncPaymentFailed =>
      if job.phase.Loaded? then
        // topUp.Update() writes the whole row, whatever it holds by now.
        (if ok then db.(orders := db.orders[k := job.phase.copy]) else db, done)
      else
        (db, if ok && IsPending(db, k) && Of(db, k, Stripe)
             then job.(phase := Loaded(db.orders[k].(status := Failed))) else done)
  }

  // ----- The whole process -----------------------------------------------------

  /** `drafts` are the rows that payment requests of other gateways inserted and still hold a copy of. */
  datatype System = System(locks: L.State, jobs: map<Thread, Job>, db: Database, drafts: map<TradeNo, Order>)

  datatype Event =
    | Arrive(t: Thread, tradeNo: TradeNo, handler: Handler)
    | Lock(t: Thread)                                  // one statement of LockOrder or UnlockOrder
    | Call(t: Thread, ok: bool)                        // one database call inside the critical section
    | Insert(newTradeNo: TradeNo, order: Order)        // a user opens an order
    | Draft(newTradeNo: TradeNo, order: Order)         // the same at a gateway whose request keeps the inserted row
    | StaleFail(tradeNo: TradeNo)                      // that request saves its copy as failed, without the lock
    | UnlockedFailure(tradeNo: TradeNo)                // a webhook fails a pending row of its gateway, without the lock
    | Subscribe(tradeNo: TradeNo, order: Order)        // a completed subscription writes its mirror row

  predicate CanHappen(s: System, e: Event) {
    match e
    case Arrive(t, k, _) => L.Enabled(s.locks, Spawn(t, k))
    case Lock(t) =>
      && L.Enabled(s.locks, Move(t)) && t in s.jobs
      && (s.locks.frames[t].pc.Inside? ==> s.jobs[t].phase.Finished?)
    case Call(t, _) =>
      t in s.locks.frames && t in s.jobs && s.locks.frames[t].pc.Inside? && !s.jobs[t].phase.Finished?
    case Insert(k, o) => k !in s.db.orders && o.status.Pending? && !o.provider.Subscription?
    case Draft(k, o) => k !in s.db.orders && o.status.Pending? && o.provider.OtherProvider?
    case StaleFail(k) => k in s.drafts
    case UnlockedFailure(k) => true
    case Subscribe(k, o) =>
      (k !in s.db.orders || Of(s.db, k, Subscription)) && o.provider.Subscription? && o.status.Success?
  }

  function WithRow(db: Database, k: TradeNo, o: Order): Database {
    db.(orders := db.orders[k := o])
  }

  function Happen(s: System, e: Event): System
    requires CanHappen(s, e)
  {
    match e
    case Arrive(t, k, h) => s.(locks := L.Exec(s.locks, Spawn(t, k)), jobs := s.jobs[t := Job(h, Begin)])
    case Lock(t) => s.(locks := L.Exec(s.locks, Move(t)))
    case Call(t, ok) =>
      var (db, job) := Work(s.db, s.locks.frames[t].tradeNo, s.jobs[t], ok);
      s.(db := db, jobs := s.jobs[t := job])
    case Insert(k, o) => s.(db := WithRow(s.db, k, o))
    case Draft(k, o) => s.(db := WithRow(s.db, k, o), drafts := s.drafts[k := o])
    case StaleFail(k) => s.(db := WithRow(s.db, k, s.drafts[k].(status := Failed)), drafts := s.drafts - {k})
    case UnlockedFailure(k) => s.(db := UpdatePendingStatus(s.db, k, OtherProvider, Failed))
    case Subscribe(k, o) => s.(db := WithRow(s.db, k, o))
  }

  // ----- Invariants ------------------------------------------------------------

  /** How often an order has been credited. */
  function Count(credits: seq<Credit>, k: TradeNo): nat {
    if credits == [] then 0
    else Count(credits[..|credits| - 1], k) + if credits[|credits| - 1].tradeNo == k then 1 else 0
  }

  lemma CountSnoc(credits: seq<Credit>, c: Credit, k: TradeNo)
    ensures Count(credits + [c], k) == Count(credits, k) + if c.tradeNo == k then 1 else 0
  {
    assert (credits + [c])[..|credits|] == credits;
  }

  /** The order has been credited once if it is successful, and never otherwise. */
  ghost predicate Exact(db: Database, k: TradeNo) {
    Count(db.credits, k) == if k in db.orders && db.orders[k].status.Success? then 1 else 0
  }

  /** Every credit of the order went to its user, for an amount the order is worth. */
  ghost predicate Backed(db: Database, k: TradeNo) {
    k in db.orders && forall i :: 0 <= i < |db.credits| && db.credits[i].tradeNo == k ==>
      && db.credits[i].userId == db.orders[k].userId
      && db.credits[i].amount in {db.orders[k].quota, db.orders[k].manualQuota}
  }

  /** Orders of the gateways whose every status change happens inside the order's lock. */
  predicate Guarded(o: Order) {
    o.provider.Stripe? || o.provider.Epay?
  }

  /** Only existing orders are credited. */
  ghost predicate Known(db: Database) {
    forall i :: 0 <= i < |db.credits| ==> db.credits[i].tradeNo in db.orders
  }

  ghost predicate Ledger(db: Database) {
    Known(db) && forall k :: k in db.orders && Guarded(db.orders[k]) ==> Exact(db, k) && Backed(db, k)
  }

  /** A handler works only inside the lock, and the row it has read is still what the table holds. */
  ghost predicate JobInv(db: Database, f: Frame, job: Job) {
    && (job.phase.Checked? || job.phase.Loaded? ==> f.pc.Inside?)
    && (job.phase.Loaded? ==>
          && IsPending(db, f.tradeNo) && Of(db, f.tradeNo, Stripe)
          && job.phase.copy == db.orders[f.tradeNo].(status := Failed))
  }

  /** A draft is the row as it was inserted; in the table at most its status has changed. */
  ghost predicate DraftInv(db: Database, k: TradeNo, draft: Order) {
    && Of(db, k, OtherProvider) && draft.status.Pending?
    && db.orders[k] == draft.(status := db.orders[k].status)
  }

  ghost predicate JobsInv(s: System) {
    && s.jobs.Keys == s.locks.frames.Keys
    && Ledger(s.db)
    && (forall t :: t in s.jobs ==> JobInv(s.db, s.locks.frames[t], s.jobs[t]))
    && forall k :: k in s.drafts ==> DraftInv(s.db, k, s.drafts[k])
  }

  ghost predicate SystemInv(s: System) {
    L.Inv(s.locks) && JobsInv(s)
  }

  /** Rows stay, credits stay, and of a guarded row only the status changes, once, from pending. */
  ghost predicate Evolves(db: Database, db': Database) {
    && db.credits <= db'.credits
    && (forall k :: k in db.orders ==> k in db'.orders)
    && forall k :: k in db.orders && Guarded(db.orders[k]) ==>
         && db'.orders[k] == db.orders[k].(status := db'.orders[k].status)
         && (!db.orders[k].status.Pending? ==> db'.orders[k].status == db.orders[k].status)
  }

  /** A change confined to order `k`, which was pending and keeps all but its status. */
  ghost predicate Settles(db: Database, db': Database, k: TradeNo) {
    && Ledger(db') && Evolves(db, db')
    && (k in db.orders ==> k in db'.orders && db'.orders[k] == db.orders[k].(status := db'.orders[k].status))
    && forall j :: j in db.orders && j != k ==> j in db'.orders && db'.orders[j] == db.orders[j]
  }

  lemma CompleteBalances(db: Database, k: TradeNo, amount: int, j: TradeNo)
    requires IsPending(db, k) && amount in {db.orders[k].quota, db.orders[k].manualQuota}
    requires Exact(db, j) && Backed(db, j)
    ensures Exact(Complete(db, k, amount), j) && Backed(Complete(db, k, amount), j)
  {
    CountSnoc(db.credits, Credit(k, db.orders[k].userId, amount), j);
  }

  lemma CompleteSettles(db: Database, k: TradeNo, amount: int)
    requires Ledger(db) && IsPending(db, k) && amount in {db.orders[k].quota, db.orders[k].manualQuota}
    ensures Settles(db, Complete(db, k, amount), k)
  {
    var db' := Complete(db, k, amount);
    forall j | j in db'.orders && Guarded(db'.orders[j])
      ensures Exact(db', j) && Backed(db', j)
    {
      CompleteBalances(db, k, amount, j);
    }
  }

  lemma SetStatusSettles(db: Database, k: TradeNo, status: Status)
    requires Ledger(db) && IsPending(db, k) && !status.Success?
    ensures Settles(db, SetStatus(db, k, status), k)
  {
    var db' := SetStatus(db, k, status);
    forall j | j in db'.orders && Guarded(db'.orders[j])
      ensures Exact(db', j) && Backed(db', j)
    {
      assert Exact(db, j) && Backed(db, j);
    }
  }

  /** What one database call can do: nothing, or settle its pending order in one of four ways. */
  lemma WorkEffect(db: Database, f: Frame, job: Job, ok: bool)
    requires JobInv(db, f, job) && !job.phase.Finished?
    ensures var k := f.tradeNo; var db' := Work(db, k, job, ok).0;
            || db' == db
            || (IsPending(db, k) &&
                db' in {Complete(db, k, db.orders[k].quota), Complete(db, k, db.orders[k].manualQuota),
                        SetStatus(db, k, Failed), SetStatus(db, k, Expired)})
    ensures f.pc.Inside? ==> JobInv(Work(db, f.tradeNo, job, ok).0, f, Work(db, f.tradeNo, job, ok).1)
  {
  }

  /** One database call of any handler settles its order and touches no other. */
  lemma WorkKeepsLedger(db: Database, f: Frame, job: Job, ok: bool)
    requires Ledger(db) && JobInv(db, f, job) && !job.phase.Finished?
    ensures Settles(db, Work(db, f.tradeNo, job, ok).0, f.tradeNo)
  {
    WorkEffect(db, f, job, ok);
    var k := f.tradeNo;
    if IsPending(db, k) {
      CompleteSettles(db, k, db.orders[k].quota);
      CompleteSettles(db, k, db.orders[k].manualQuota);
      SetStatusSettles(db, k, Failed);
      SetStatusSettles(db, k, Expired);
    }
  }

  /** Two threads inside the lock work on different orders. */
  lemma InsideDifferentOrders(s: L.State, t: Thread, u: Thread)
    requires L.Inv(s) && t in s.frames && u in s.frames && t != u
    requires s.frames[t].pc.Inside? && s.frames[u].pc.Inside?
    ensures s.frames[t].tradeNo != s.frames[u].tradeNo
  {
    assert FrameInv(s.mem, s.frames[t]) && FrameInv(s.mem, s.frames[u]);
  }

  /** No other thread is inside the lock of the order that thread `t` works on. */
  ghost predicate Alone(s: L.State, t: Thread) {
    && t in s.frames
    && forall u :: u in s.frames && u != t && s.frames[u].pc.Inside? ==> s.frames[u].tradeNo != s.frames[t].tradeNo
  }

  lemma InsideIsAlone(s: L.State, t: Thread)
    requires L.Inv(s) && t in s.frames && s.frames[t].pc.Inside?
    ensures Alone(s, t)
  {
    forall u | u in s.frames && u != t && s.frames[u].pc.Inside?
      ensures s.frames[u].tradeNo != s.frames[t].tradeNo
    {
      InsideDifferentOrders(s, t, u);
    }
  }

  /** A change confined to the row of the thread inside its lock leaves every other handler's copy current. */
  lemma ConfinedChange(s: System, t: Thread, u: Thread, db: Database)
    requires JobsInv(s) && Alone(s.locks, t) && u in s.jobs && u != t
    requires Settles(s.db, db, s.locks.frames[t].tradeNo)
    ensures JobInv(db, s.locks.frames[u], s.jobs[u])
  {
    assert JobInv(s.db, s.locks.frames[u], s.jobs[u]);
  }

  lemma CallKeepsJobs(s: System, t: Thread, ok: bool)
    requires JobsInv(s) && CanHappen(s, Call(t, ok)) && Alone(s.locks, t)
    ensures JobsInv(Happen(s, Call(t, ok))) && Evolves(s.db, Happen(s, Call(t, ok)).db)
  {
    var s' := Happen(s, Call(t, ok));
    WorkEffect(s.db, s.locks.frames[t], s.jobs[t], ok);
    WorkKeepsLedger(s.db, s.locks.frames[t], s.jobs[t], ok);
    forall u | u in s'.jobs
      ensures JobInv(s'.db, s'.locks.frames[u], s'.jobs[u])
    {
      if u != t {
        ConfinedChange(s, t, u, s'.db);
      }
    }
    forall k | k in s'.drafts
      ensures DraftInv(s'.db, k, s'.drafts[k])
    {
      assert DraftInv(s.db, k, s.drafts[k]);
    }
  }

  /** Moving through the lock code changes no handler's phase and starts no critical section early. */
  lemma LockKeepsJobs(s: System, e: Event)
    requires CanHappen(s, e) && (e.Lock? || e.Arrive?) && JobsInv(s)
    ensures JobsInv(Happen(s, e))
  {
    var s' := Happen(s, e);
    forall u | u in s'.jobs
      ensures JobInv(s'.db, s'.locks.frames[u], s'.jobs[u])
    {
      if u != e.t {
        assert s'.locks.frames[u] == s.locks.frames[u] && s'.jobs[u] == s.jobs[u];
      }
    }
  }

  predicate Unlocked(e: Event) {
    e.Insert? || e.Draft? || e.StaleFail? || e.UnlockedFailure? || e.Subscribe?
  }

  /** Without the lock, rows are only added or rows of other gateways rewritten; nothing is credited. */
  lemma UnlockedEffect(s: System, e: Event)
    requires CanHappen(s, e) && Unlocked(e) && JobsInv(s)
    ensures var db' := Happen(s, e).db;
            && db'.credits == s.db.credits && db'.balance == s.db.balance
            && (forall k :: k in s.db.orders ==> k in db'.orders)
            && (forall k :: k in s.db.orders && Guarded(s.db.orders[k]) ==> db'.orders[k] == s.db.orders[k])
            && (forall k :: k in db'.orders && Guarded(db'.orders[k]) && k !in s.db.orders ==>
                db'.orders[k].status.Pending?)
            && (forall k :: k in db'.orders && Guarded(db'.orders[k]) && k in s.db.orders ==> Guarded(s.db.orders[k]))
  {
    if e.StaleFail? {
      assert DraftInv(s.db, e.tradeNo, s.drafts[e.tradeNo]);
    }
  }

  lemma UnlockedKeepsLedger(s: System, e: Event)
    requires CanHappen(s, e) && Unlocked(e) && JobsInv(s)
    ensures Ledger(Happen(s, e).db) && Evolves(s.db, Happen(s, e).db)
  {
    var db, db' := s.db, Happen(s, e).db;
    UnlockedEffect(s, e);
    forall k | k in db'.orders && Guarded(db'.orders[k])
      ensures Exact(db', k) && Backed(db', k)
    {
      if k in db.orders {
        assert Exact(db, k) && Backed(db, k);
      } else {
        NoCredit(db, k);
        assert forall i :: 0 <= i < |db.credits| ==> db.credits[i].tradeNo in db.orders;
      }
    }
  }

  /** An order that does not exist has not been credited. */
  lemma NoCredit(db: Database, k: TradeNo)
    requires Known(db) && k !in db.orders
    ensures Count(db.credits, k) == 0
  {
    CountNone(db.credits, k);
  }

  lemma {:induction false} CountNone(credits: seq<Credit>, k: TradeNo)
    requires forall i :: 0 <= i < |credits| ==> credits[i].tradeNo != k
    ensures Count(credits, k) == 0
  {
    if credits != [] {
      CountNone(credits[..|credits| - 1], k);
    }
  }

  lemma UnlockedKeepsJobs(s: System, e: Event)
    requires CanHappen(s, e) && Unlocked(e) && JobsInv(s)
    ensures JobsInv(Happen(s, e)) && Evolves(s.db, Happen(s, e).db)
  {
    var s' := Happen(s, e);
    UnlockedEffect(s, e);
    UnlockedKeepsLedger(s, e);
    forall u | u in s'.jobs
      ensures JobInv(s'.db, s'.locks.frames[u], s'.jobs[u])
    {
      assert JobInv(s.db, s.locks.frames[u], s.jobs[u]);
    }
    forall k | k in s'.drafts
      ensures DraftInv(s'.db, k, s'.drafts[k])
    {
      if k in s.drafts {
        assert DraftInv(s.db, k, s.drafts[k]);
      }
    }
  }

  lemma SystemInvHappens(s: System, e: Event)
    requires SystemInv(s) && CanHappen(s, e)
    ensures SystemInv(Happen(s, e)) && Evolves(s.db, Happen(s, e).db)
  {
    match e
    case Arrive(t, k, _) =>
      L.InvExec(s.locks, Spawn(t, k));
      LockKeepsJobs(s, e);
    case Lock(t) =>
      L.InvExec(s.locks, Move(t));
      LockKeepsJobs(s, e);
    case Call(t, ok) =>
      InsideIsAlone(s.locks, t);
      CallKeepsJobs(s, t, ok);
    case _ =>
      UnlockedKeepsJobs(s, e);
  }

  // ----- Whole runs ------------------------------------------------------------

  ghost predicate Start(s: System) {
    L.Init(s.locks) && s.jobs == map[] && s.drafts == map[] && Ledger(s.db)
  }

  ghost predicate Run(states: seq<System>, events: seq<Event>) {
    && |states| == |events| + 1
    && Start(states[0])
    && forall i :: 0 <= i < |events| ==>
        CanHappen(states[i], events[i]) && states[i + 1] == Happen(states[i], events[i])
  }

  lemma {:induction false} RunInv(states: seq<System>, events: seq<Event>, i: nat)
    requires Run(states, events) && i < |states|
    ensures SystemInv(states[i])
  {
    if i == 0 {
      L.InvInit(states[0].locks);
    } else {
      RunInv(states, events, i - 1);
      SystemInvHappens(states[i - 1], events[i - 1]);
    }
  }

  /**
   In every state of every interleaving, a Stripe or Epay order has been credited once if it is
   successful and never otherwise, to its own user and for an amount it is worth.
   */
  lemma CreditedExactlyOnce(states: seq<System>, events: seq<Event>, i: nat, k: TradeNo)
    requires Run(states, events) && i < |states| && k in states[i].db.orders && Guarded(states[i].db.orders[k])
    ensures Exact(states[i].db, k) && Backed(states[i].db, k)
  {
    RunInv(states, events, i);
  }

  /** Such an order leaves pending at most once: what it is afterwards, it stays for the rest of the run. */
  lemma {:induction false} SettledForever(states: seq<System>, events: seq<Event>, i: nat, j: nat)
    requires Run(states, events) && i <= j < |states|
    ensures Evolves(states[i].db, states[j].db)
    decreases j - i
  {
    if i < j {
      SettledForever(states, events, i, j - 1);
      RunInv(states, events, j - 1);
      SystemInvHappens(states[j - 1], events[j - 1]);
    }
  }

  /** Which orders a handler is there for. */
  predicate Handles(handler: Handler, o: Order) {
    match handler
    case FulfillOrder | AsyncPaymentFailed | SessionExpired => o.provider.Stripe?
    case AdminComplete => o.manualQuota > 0
    case EpayNotify => o.provider.Epay? && o.quota > 0
    case OtherSuccess => o.provider.OtherProvider?
  }

  /** Which status a handler gives them. */
  function Verdict(handler: Handler): Status {
    match handler
    case AsyncPaymentFailed => Failed
    case SessionExpired => Expired
    case _ => Success
  }

  predicate MaySettle(handler: Handler, o: Order, status: Status) {
    Handles(handler, o) && status == Verdict(handler)
  }

  /** Which rows are written without the lock. */
  predicate MayRewrite(e: Event, o: Order, k: TradeNo) {
    match e
    case StaleFail(j) => j == k && o.provider.OtherProvider?
    case UnlockedFailure(j) => j == k && o.provider.OtherProvider? && o.status.Pending?
    case Subscribe(j, _) => j == k && o.provider.Subscription?
    case _ => false
  }

  lemma WorkByOwner(db: Database, f: Frame, job: Job, ok: bool, k: TradeNo)
    requires JobInv(db, f, job) && !job.phase.Finished? && k in db.orders
    ensures var db' := Work(db, f.tradeNo, job, ok).0;
            && k in db'.orders
            && (db'.orders[k] != db.orders[k] ==>
                  f.tradeNo == k && IsPending(db, k) && MaySettle(job.handler, db.orders[k], db'.orders[k].status))
  {
  }

  /** A row changes only by an owner: a handler inside its lock, or an unlocked writer of another gateway. */
  lemma SettledByOwner(s: System, e: Event, k: TradeNo)
    requires JobsInv(s) && CanHappen(s, e) && k in s.db.orders
    ensures k in Happen(s, e).db.orders
    ensures Happen(s, e).db.orders[k] != s.db.orders[k] ==>
              || MayRewrite(e, s.db.orders[k], k)
              || (e.Call? && s.locks.frames[e.t].tradeNo == k && s.locks.frames[e.t].pc.Inside? && IsPending(s.db, k)
                  && MaySettle(s.jobs[e.t].handler, s.db.orders[k], Happen(s, e).db.orders[k].status))
  {
    if e.Call? {
      WorkByOwner(s.db, s.locks.frames[e.t], s.jobs[e.t], e.ok, k);
    } else if e.StaleFail? {
      assert DraftInv(s.db, e.tradeNo, s.drafts[e.tradeNo]);
    }
  }

  // ----- What a handler does achieve -------------------------------------------

  /** The handler's next database call is its last one. */
  predicate LastCall(job: Job) {
    match job.handler
    case FulfillOrder | SessionExpired | EpayNotify => job.phase.Checked?
    case AsyncPaymentFailed => job.phase.Loaded?
    case AdminComplete | OtherSuccess => job.phase.Begin?
  }

  /** The order is there, pending, and the handler's to settle. */
  predicate Settleable(db: Database, k: TradeNo, handler: Handler) {
    k in db.orders && db.orders[k].status.Pending? && Handles(handler, db.orders[k])
  }

  /** Every row but that of `k` is as it was. */
  ghost predicate OtherRowsKept(db: Database, db': Database, k: TradeNo) {
    db'.orders.Keys == db.orders.Keys && forall j :: j in db.orders && j != k ==> db'.orders[j] == db.orders[j]
  }

  /** The user is credited once, by that amount, and no other balance moves. */
  ghost predicate PaidOnce(db: Database, db': Database, k: TradeNo, user: nat, amount: int) {
    && db'.credits == db.credits + [Credit(k, user, amount)]
    && db'.balance.Keys == db.balance.Keys
    && forall u :: u in db.balance ==> db'.balance[u] == if u == user then db.balance[u] + amount else db.balance[u]
  }

  /**
   The last call of every handler: the row changes if and only if it is pending and the handler's to
   settle. It then has the handler's status, and a success pays what the order is worth, once.
   */
  lemma CallDecides(s: System, t: Thread)
    requires JobsInv(s) && CanHappen(s, Call(t, true)) && LastCall(s.jobs[t])
    ensures var s', k, h := Happen(s, Call(t, true)), s.locks.frames[t].tradeNo, s.jobs[t].handler;
            && s'.jobs[t].phase.Finished? && OtherRowsKept(s.db, s'.db, k)
            && (k in s.db.orders ==> (s'.db.orders[k] != s.db.orders[k] <==> Settleable(s.db, k, h)))
            && (Settleable(s.db, k, h) ==> s'.db.orders[k] == s.db.orders[k].(status := Verdict(h)))
            && if Settleable(s.db, k, h) && Verdict(h).Success? then
                 var o := s.db.orders[k];
                 PaidOnce(s.db, s'.db, k, o.userId, if h.AdminComplete? then o.manualQuota else o.quota)
               else s'.db.credits == s.db.credits && s'.db.balance == s.db.balance
  {
    assert JobInv(s.db, s.locks.frames[t], s.jobs[t]);
  }

  /** Every other call writes nothing; a handler goes on to its last call unless it can see that there is no use. */
  lemma CallPrepares(s: System, t: Thread, ok: bool)
    requires JobsInv(s) && CanHappen(s, Call(t, ok)) && !(ok && LastCall(s.jobs[t])) && s.jobs[t].phase.Begin?
    ensures var s', k, h := Happen(s, Call(t, ok)), s.locks.frames[t].tradeNo, s.jobs[t].handler;
            && s'.db == s.db && s'.jobs[t].handler == h
            && (!ok ==> s'.jobs[t].phase.Finished?)
            && (ok && Settleable(s.db, k, h) ==> LastCall(s'.jobs[t]))
            && (ok && !LastCall(s'.jobs[t]) ==> s'.jobs[t].phase.Finished?)
  {
  }

  /** A handler whose calls all commit leaves no order pending that is its to settle. */
  lemma FinishedHandlerSettles(s: System, t: Thread)
    requires JobsInv(s) && CanHappen(s, Call(t, true)) && (s.jobs[t].phase.Begin? || LastCall(s.jobs[t]))
    requires Happen(s, Call(t, true)).jobs[t].phase.Finished?
    ensures !Settleable(Happen(s, Call(t, true)).db, s.locks.frames[t].tradeNo, s.jobs[t].handler)
  {
    if LastCall(s.jobs[t]) {
      CallDecides(s, t);
    } else {
      CallPrepares(s, t, true);
    }
  }

  /** The two kinds of calls are all there are: in every run a handler is before its first or its last call, or done. */
  lemma {:induction false} PhasesFit(states: seq<System>, events: seq<Event>, i: nat, t: Thread)
    requires Run(states, events) && i < |states| && t in states[i].jobs
    ensures states[i].jobs[t].phase.Begin? || LastCall(states[i].jobs[t]) || states[i].jobs[t].phase.Finished?
  {
    if i > 0 && t in states[i - 1].jobs {
      PhasesFit(states, events, i - 1, t);
    }
  }

  /** In every run, what the last call decides about a Stripe or Epay order is final, and paid for exactly once. */
  lemma VerdictIsFinal(states: seq<System>, events: seq<Event>, i: nat, j: nat, t: Thread)
    requires Run(states, events) && i < j < |states| && events[i] == Call(t, true) && LastCall(states[i].jobs[t])
    requires var k := states[i].locks.frames[t].tradeNo;
             Settleable(states[i].db, k, states[i].jobs[t].handler) && Guarded(states[i].db.orders[k])
    ensures var k, verdict := states[i].locks.frames[t].tradeNo, Verdict(states[i].jobs[t].handler);
            && k in states[j].db.orders && states[j].db.orders[k].status == verdict
            && Count(states[j].db.credits, k) == if verdict.Success? then 1 else 0
  {
    RunInv(states, events, i);
    CallDecides(states[i], t);
    SettledForever(states, events, i + 1, j);
    CreditedExactlyOnce(states, events, j, states[i].locks.frames[t].tradeNo);
  }

  /** What is written without the lock, row by row. */
  lemma UnlockedDecides(s: System, e: Event)
    requires CanHappen(s, e) && Unlocked(e)
    ensures var db, db' := s.db, Happen(s, e).db;
            match e
            case Insert(k, o) => db'.orders == db.orders[k := o]
            case Draft(k, o) => db'.orders == db.orders[k := o] && Happen(s, e).drafts == s.drafts[k := o]
            case StaleFail(k) => db'.orders == db.orders[k := s.drafts[k].(status := Failed)]
            case Subscribe(k, o) => db'.orders == db.orders[k := o]
            case UnlockedFailure(k) =>
              && OtherRowsKept(db, db', k)
              && (k in db.orders ==>
                    db'.orders[k] == if db.orders[k].status.Pending? && db.orders[k].provider.OtherProvider?
                                     then db.orders[k].(status := Failed) else db.orders[k])
            case _ => true
  {
  }

  // ----- Other gateways --------------------------------------------------------

  /** A payment request saves its stale copy over an order that has been completed since. */
  predicate Clobbers(s: System, e: Event, k: TradeNo) {
    e == StaleFail(k) && k in s.db.orders && s.db.orders[k].status.Success?
  }

  /** The order is not the mirror row of a subscription, which is successful without a credit. */
  predicate TopUp(db: Database, k: TradeNo) {
    !Of(db, k, Subscription)
  }

  lemma CompleteExact(db: Database, j: TradeNo, amount: int, k: TradeNo)
    requires IsPending(db, j) && Exact(db, k)
    ensures Exact(Complete(db, j, amount), k)
  {
    CountSnoc(db.credits, Credit(j, db.orders[j].userId, amount), k);
  }

  lemma WorkExact(db: Database, f: Frame, job: Job, ok: bool, k: TradeNo)
    requires JobInv(db, f, job) && !job.phase.Finished? && Exact(db, k)
    ensures Exact(Work(db, f.tradeNo, job, ok).0, k)
  {
    WorkEffect(db, f, job, ok);
    var j := f.tradeNo;
    if IsPending(db, j) {
      CompleteExact(db, j, db.orders[j].quota, k);
      CompleteExact(db, j, db.orders[j].manualQuota, k);
      assert Exact(SetStatus(db, j, Failed), k) && Exact(SetStatus(db, j, Expired), k);
    }
  }

  /** For an order of any gateway, one step keeps the ledger exact unless it clobbers a completed order. */
  lemma StepExact(s: System, e: Event, k: TradeNo)
    requires JobsInv(s) && CanHappen(s, e) && TopUp(s.db, k) && Exact(s.db, k) && (e.Subscribe? ==> e.tradeNo != k)
    ensures Exact(Happen(s, e).db, k) <==> !Clobbers(s, e, k)
  {
    match e
    case Call(t, ok) => WorkExact(s.db, s.locks.frames[t], s.jobs[t], ok, k);
    case StaleFail(j) => assert DraftInv(s.db, j, s.drafts[j]);
    case _ =>
  }

  ghost predicate ExactUpTo(states: seq<System>, k: TradeNo, i: nat) {
    forall j :: 0 <= j <= i && j < |states| ==> Exact(states[j].db, k)
  }

  ghost predicate NeverClobbered(states: seq<System>, events: seq<Event>, k: TradeNo, i: nat) {
    forall b :: 0 <= b < i && b < |events| && b < |states| ==> !Clobbers(states[b], events[b], k)
  }

  /** The run never writes the order as a subscription's mirror row. */
  ghost predicate NoSubscription(states: seq<System>, events: seq<Event>, k: TradeNo) {
    && |states| > 0 && TopUp(states[0].db, k)
    && forall b :: 0 <= b < |events| && events[b].Subscribe? ==> events[b].tradeNo != k
  }

  lemma StepTopUp(s: System, e: Event, k: TradeNo)
    requires JobsInv(s) && CanHappen(s, e) && TopUp(s.db, k) && (e.Subscribe? ==> e.tradeNo != k)
    ensures TopUp(Happen(s, e).db, k)
  {
    if e.Call? {
      WorkEffect(s.db, s.locks.frames[e.t], s.jobs[e.t], e.ok);
    } else if e.StaleFail? {
      assert DraftInv(s.db, e.tradeNo, s.drafts[e.tradeNo]);
    }
  }

  lemma {:induction false} StaysTopUp(states: seq<System>, events: seq<Event>, k: TradeNo, i: nat)
    requires Run(states, events) && i < |states| && NoSubscription(states, events, k)
    ensures TopUp(states[i].db, k)
  {
    if i > 0 {
      StaysTopUp(states, events, k, i - 1);
      RunInv(states, events, i - 1);
      StepTopUp(states[i - 1], events[i - 1], k);
    }
  }

  lemma OneMoreState(states: seq<System>, events: seq<Event>, k: TradeNo, i: nat)
    requires 0 < i < |states| == |events| + 1
    ensures ExactUpTo(states, k, i) <==> ExactUpTo(states, k, i - 1) && Exact(states[i].db, k)
    ensures NeverClobbered(states, events, k, i)
            <==> NeverClobbered(states, events, k, i - 1) && !Clobbers(states[i - 1], events[i - 1], k)
  {
  }

  /** The last step decides whether the ledger stays exact. */
  lemma LastStepExact(states: seq<System>, events: seq<Event>, k: TradeNo, i: nat)
    requires Run(states, events) && 0 < i < |states| && NoSubscription(states, events, k) && Exact(states[i - 1].db, k)
    ensures Exact(states[i].db, k) <==> !Clobbers(states[i - 1], events[i - 1], k)
  {
    RunInv(states, events, i - 1);
    StaysTopUp(states, events, k, i - 1);
    StepExact(states[i - 1], events[i - 1], k);
  }

  /**
   Orders of every gateway: the ledger is exact throughout a run if and only if no payment request
   saves its stale copy over an order that was completed after the request inserted it.
   */
  lemma {:induction false} ExactIffNeverClobbered(states: seq<System>, events: seq<Event>, k: TradeNo, i: nat)
    requires Run(states, events) && i < |states| && NoSubscription(states, events, k) && Exact(states[0].db, k)
    ensures ExactUpTo(states, k, i) <==> NeverClobbered(states, events, k, i)
  {
    if i > 0 {
      ExactIffNeverClobbered(states, events, k, i - 1);
      OneMoreState(states, events, k, i);
      if ExactUpTo(states, k, i - 1) {
        LastStepExact(states, events, k, i);
      }
    }
  }

  /** The copy a payment request holds is the row it inserted itself, and that row was pending then. */
  lemma {:induction false} DraftWasPending(states: seq<System>, events: seq<Event>, b: nat, k: TradeNo)
    returns (a: nat)
    requires Run(states, events) && b < |states| && k in states[b].drafts
    ensures a < b && events[a].Draft? && events[a].newTradeNo == k && events[a].order == states[b].drafts[k]
    ensures IsPending(states[a + 1].db, k)
  {
    if k in states[b - 1].drafts && !(events[b - 1].Draft? && events[b - 1].newTradeNo == k) {
      a := DraftWasPending(states, events, b - 1, k);
    } else {
      a := b - 1;
    }
  }

  lemma OneMoreEvent(states: seq<System>, events: seq<Event>, e: Event)
    requires Run(states, events) && CanHappen(states[|events|], e)
    ensures Run(states + [Happen(states[|events|], e)], events + [e])
  {
  }

  /** A single thread before LockOrder, half way through, and inside the lock. */
  function Waiting(t: Thread, k: TradeNo): L.State {
    L.State(Memory(false, map[], []), map[t := Frame(AcquireCreate, k, 0, 0)])
  }

  function Stored(t: Thread, k: TradeNo): L.State {
    L.State(Memory(true, map[k := 0], [RefCountedMutex(false, 0)]), map[t := Frame(Increment, k, 0, 0)])
  }

  function Entered(t: Thread, k: TradeNo): L.State {
    L.State(Memory(false, map[k := 0], [RefCountedMutex(true, 1)]), map[t := Frame(PC.Inside, k, 0, 0)])
  }

  function ThreeLocks(t: Thread): seq<Event> {
    [Lock(t), Lock(t), Lock(t)]
  }

  /** Nobody else is there, so three statements and three more lead into the critical section. */
  lemma ThreeStatements(states: seq<System>, events: seq<Event>, t: Thread, k: TradeNo) returns (more: seq<System>)
    requires Run(states, events) && t in states[|events|].jobs
    requires states[|events|].locks in {Waiting(t, k), Stored(t, k)}
    ensures Run(states + more, events + ThreeLocks(t))
    ensures |more| == 3 && more[2] == states[|events|].(
              locks := if states[|events|].locks == Waiting(t, k) then Stored(t, k) else Entered(t, k))
  {
    var s0 := states[|events|];
    var s1 := Happen(s0, Lock(t));
    var s2 := Happen(s1, Lock(t));
    more := [s1, s2, Happen(s2, Lock(t))];
    OneMoreEvent(states, events, Lock(t));
    OneMoreEvent(states + [s1], events + [Lock(t)], Lock(t));
    OneMoreEvent(states + [s1] + [s2], events + [Lock(t)] + [Lock(t)], Lock(t));
    assert events + [Lock(t)] + [Lock(t)] + [Lock(t)] == events + ThreeLocks(t);
    assert states + [s1] + [s2] + [more[2]] == states + more;
  }

  function AdminArrives(t: Thread, k: TradeNo, o: Order): seq<Event> {
    [Draft(k, o)] + [Arrive(t, k, AdminComplete)] + ThreeLocks(t) + ThreeLocks(t)
  }

  /** A payment request of another gateway has inserted its order, and an administrator is about to complete it. */
  lemma AdminInside(t: Thread, k: TradeNo, o: Order) returns (states: seq<System>)
    requires o.status.Pending? && o.provider.OtherProvider?
    ensures Run(states, AdminArrives(t, k, o))
    ensures states[8] == System(Entered(t, k), map[t := Job(AdminComplete, Begin)],
                                Database(map[k := o], map[], []), map[k := o])
  {
    var start := System(L.State(Memory(false, map[], []), map[]), map[], Database(map[], map[], []), map[]);
    var s1 := Happen(start, Draft(k, o));
    var events := [Draft(k, o)];
    states := [start] + [s1];
    assert [] + events == events;
    OneMoreEvent([start], [], Draft(k, o));
    OneMoreEvent(states, events, Arrive(t, k, AdminComplete));
    states := states + [Happen(s1, Arrive(t, k, AdminComplete))];
    events := events + [Arrive(t, k, AdminComplete)];
    var more := ThreeStatements(states, events, t, k);
    states, events := states + more, events + ThreeLocks(t);
    more := ThreeStatements(states, events, t, k);
    states := states + more;
  }

  /** The order is completed, then the request fails and saves its copy: credited, and failed. */
  lemma OtherGatewayLosesUpdate(t: Thread, k: TradeNo, o: Order) returns (states: seq<System>)
    requires o.status.Pending? && o.provider.OtherProvider? && o.manualQuota > 0
    ensures Run(states, AdminArrives(t, k, o) + [Call(t, true)] + [StaleFail(k)])
    ensures Clobbers(states[9], StaleFail(k), k) && Exact(states[9].db, k) && !Exact(states[10].db, k)
    ensures states[10].db.credits == [Credit(k, o.userId, o.manualQuota)] && states[10].db.orders[k].status.Failed?
  {
    states := AdminInside(t, k, o);
    var events := AdminArrives(t, k, o);
    OneMoreEvent(states, events, Call(t, true));
    states, events := states + [Happen(states[8], Call(t, true))], events + [Call(t, true)];
    OneMoreEvent(states, events, StaleFail(k));
    states := states + [Happen(states[9], StaleFail(k))];
    CountSnoc([], Credit(k, o.userId, o.manualQuota), k);
    assert [] + [Credit(k, o.userId, o.manualQuota)] == [Credit(k, o.userId, o.manualQuota)];
  }

  // ----- Balances --------------------------------------------------------------

  /** What these credits add to a user's balance. */
  function Sum(credits: seq<Credit>, user: nat): int {
    if credits == [] then 0
    else
      var c := credits[|credits| - 1];
      Sum(credits[..|credits| - 1], user) + if c.userId == user then c.amount else 0
  }

  /** A step either commits nothing, or one credit together with its balance update. */
  ghost predicate Pays(db: Database, db': Database) {
    || (db'.balance == db.balance && db'.credits == db.credits)
    || exists c :: db'.credits == db.credits + [c] && db'.balance == Raise(db.balance, c)
  }

  lemma EventPays(s: System, e: Event)
    requires CanHappen(s, e) && JobsInv(s)
    ensures Pays(s.db, Happen(s, e).db)
  {
    if e.Call? {
      WorkEffect(s.db, s.locks.frames[e.t], s.jobs[e.t], e.ok);
    }
  }

  lemma PaysSum(db: Database, db': Database, from: nat, user: nat)
    requires Pays(db, db') && from <= |db.credits| && user in db.balance
    ensures user in db'.balance && |db.credits| <= |db'.credits|
    ensures db'.balance[user] - db.balance[user] == Sum(db'.credits[from..], user) - Sum(db.credits[from..], user)
  {
    if db'.credits != db.credits {
      var c :| db'.credits == db.credits + [c] && db'.balance == Raise(db.balance, c);
      var earlier := db.credits[from..];
      assert db'.credits[from..] == earlier + [c];
      assert (earlier + [c])[..|earlier|] == earlier;
    }
  }

  /** The balance has grown by exactly the user's credits since `db0`. */
  ghost predicate Balanced(db0: Database, db: Database, user: nat) {
    && |db0.credits| <= |db.credits| && user in db0.balance && user in db.balance
    && db.balance[user] == db0.balance[user] + Sum(db.credits[|db0.credits|..], user)
  }

  /**
   Conservation: in every interleaving, a user's balance has grown by exactly the credits logged
   for that user since the start.
   */
  lemma {:induction false} BalanceConserved(states: seq<System>, events: seq<Event>, i: nat, user: nat)
    requires Run(states, events) && i < |states| && user in states[0].db.balance
    ensures Balanced(states[0].db, states[i].db, user)
  {
    if i > 0 {
      BalanceConserved(states, events, i - 1, user);
      RunInv(states, events, i - 1);
      EventPays(states[i - 1], events[i - 1]);
      PaysSum(states[i - 1].db, states[i].db, |states[0].db.credits|, user);
    }
  }

  // ----- The lock is needed, and it does not wedge the process -----------------

  /** Without the lock the two-step failure handler would lose an update: a credited order ends as failed. */
  lemma LostUpdateWithoutLock(k: TradeNo, o: Order)
    requires o.status.Pending? && o.provider.Stripe?
    ensures var db0 := Database(map[k := o], map[], []);
            var (db1, failing) := Work(db0, k, Job(AsyncPaymentFailed, Begin), true);
            var (db2, _) := Work(db1, k, Job(FulfillOrder, Checked), true);
            !failing.phase.Finished? &&
            var (db3, _) := Work(db2, k, failing, true);
            Exact(db0, k) && db3.credits == [Credit(k, o.userId, o.quota)] && db3.orders[k].status.Failed?
                && !Exact(db3, k)
  {
    CountSnoc([], Credit(k, o.userId, o.quota), k);
    assert [] + [Credit(k, o.userId, o.quota)] == [Credit(k, o.userId, o.quota)];
  }

  /** The process never wedges: while a handler is unfinished, some thread can take a step. */
  lemma NoDeadlock(states: seq<System>, events: seq<Event>, i: nat, t: Thread)
    requires Run(states, events) && i < |states|
    requires t in states[i].locks.frames && !states[i].locks.frames[t].pc.Returned?
    ensures exists e: Event :: (e.Lock? || e.Call?) && CanHappen(states[i], e)
  {
    RunInv(states, events, i);
    var s := states[i];
    L.SomeThreadReady(s.locks, t);
    var u :| L.Enabled(s.locks, Move(u));
    assert CanHappen(s, Lock(u)) || CanHappen(s, Call(u, true));
  }
}
