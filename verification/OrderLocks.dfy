/**
 The per-order lock of controller/topup.go: a reference-counted mutex per trade
 number, kept in a map whose entries are created and deleted while other
 requests are using the map.

 The protocol is a state machine. Every statement of LockOrder and UnlockOrder
 that touches shared memory is one atomic move of one thread, so a run is an
 arbitrary interleaving of the statements of arbitrarily many threads.
 */
module OrderLocks {

  type Thread = nat
  type TradeNo = string

  /** An address in the heap of mutexes; mutexes are never moved or reused. */
  type Ref = nat

  /** Go's refCountedMutex: a mutex (held or free) and a plain counter. */
  datatype RefCountedMutex = RefCountedMutex(held: bool, refCount: int)

  /** The next statement of a thread, in program order. */
  datatype PC =
    | AcquireCreate     // LockOrder: createLock.Lock()
    | LoadEntry         // LockOrder: orderLocks.Load(tradeNo)
    | StoreEntry        // LockOrder: allocate and orderLocks.Store
    | Increment         // LockOrder: rcm.refCount++
    | ReleaseCreate     // LockOrder: createLock.Unlock()
    | AcquireMutex      // LockOrder: rcm.mu.Lock()
    | Inside            // the caller's critical section
    | LoadForUnlock     // UnlockOrder: orderLocks.Load(tradeNo), createLock not held
    | ReleaseMutex      // UnlockOrder: rcm.mu.Unlock()
    | ReacquireCreate   // UnlockOrder: createLock.Lock()
    | Decrement         // UnlockOrder: rcm.refCount--
    | MaybeDelete       // UnlockOrder: if rcm.refCount == 0 { orderLocks.Delete }
    | FinishUnlock      // UnlockOrder: createLock.Unlock()
    | Returned
    | Fatal             // the Go runtime aborts: unlock of an unlocked mutex

  /** One call frame: `locked` is LockOrder's rcm, `found` is UnlockOrder's rcm. */
  datatype Frame = Frame(pc: PC, tradeNo: TradeNo, locked: Ref, found: Ref)

  /** The shared variables. */
  datatype Memory = Memory(createHeld: bool, orderLocks: map<TradeNo, Ref>, heap: seq<RefCountedMutex>)

  datatype State = State(mem: Memory, frames: map<Thread, Frame>)

  datatype Action = Spawn(t: Thread, tradeNo: TradeNo) | Move(t: Thread)

  ghost predicate Init(s: State) {
    s == State(Memory(false, map[], []), map[])
  }

  /** A statement waits only for a lock somebody holds; a finished call has no statement left. */
  predicate Ready(m: Memory, f: Frame) {
    match f.pc
    case AcquireCreate | ReacquireCreate => !m.createHeld
    case AcquireMutex => f.locked < |m.heap| && !m.heap[f.locked].held
    case Increment => f.locked < |m.heap|
    case ReleaseMutex | Decrement | MaybeDelete => f.found < |m.heap|
    case Returned | Fatal => false
    case _ => true
  }

  /** The statement at a frame's program counter: its effect on the shared variables and on the frame. */
  function Statement(m: Memory, f: Frame): (Memory, Frame)
    requires Ready(m, f)
  {
    match f.pc
    case AcquireCreate => (m.(createHeld := true), f.(pc := LoadEntry))
    case LoadEntry =>
      if f.tradeNo in m.orderLocks
      then (m, f.(pc := Increment, locked := m.orderLocks[f.tradeNo]))
      else (m, f.(pc := StoreEntry))
    case StoreEntry =>
      (m.(heap := m.heap + [RefCountedMutex(false, 0)], orderLocks := m.orderLocks[f.tradeNo := |m.heap|]),
       f.(pc := Increment, locked := |m.heap|))
    case Increment =>
      var x := m.heap[f.locked];
      (m.(heap := m.heap[f.locked := x.(refCount := x.refCount + 1)]), f.(pc := ReleaseCreate))
    case ReleaseCreate =>
      if m.createHeld then (m.(createHeld := false), f.(pc := AcquireMutex)) else (m, f.(pc := Fatal))
    case AcquireMutex => (m.(heap := m.heap[f.locked := m.heap[f.locked].(held := true)]), f.(pc := Inside))
    case Inside => (m, f.(pc := LoadForUnlock))
    case LoadForUnlock =>
      if f.tradeNo in m.orderLocks
      then (m, f.(pc := ReleaseMutex, found := m.orderLocks[f.tradeNo]))
      else (m, f.(pc := Returned))
    case ReleaseMutex =>
      if m.heap[f.found].held
      then (m.(heap := m.heap[f.found := m.heap[f.found].(held := false)]), f.(pc := ReacquireCreate))
      else (m, f.(pc := Fatal))
    case ReacquireCreate => (m.(createHeld := true), f.(pc := Decrement))
    case Decrement =>
      var x := m.heap[f.found];
      (m.(heap := m.heap[f.found := x.(refCount := x.refCount - 1)]), f.(pc := MaybeDelete))
    case MaybeDelete =>
      (if m.heap[f.found].refCount == 0 then m.(orderLocks := m.orderLocks - {f.tradeNo}) else m,
       f.(pc := FinishUnlock))
    case FinishUnlock => if m.createHeld then (m.(createHeld := false), f.(pc := Returned)) else (m, f.(pc := Fatal))
  }

  predicate Enabled(s: State, a: Action) {
    match a
    case Spawn(t, _) => t !in s.frames
    case Move(t) => t in s.frames && Ready(s.mem, s.frames[t])
  }

  /** One step of the system: a new request starts, or one thread executes one statement. */
  function Exec(s: State, a: Action): State
    requires Enabled(s, a)
  {
    match a
    case Spawn(t, k) => s.(frames := s.frames[t := Frame(AcquireCreate, k, 0, 0)])
    case Move(t) =>
      var (m, f) := Statement(s.mem, s.frames[t]);
      State(m, s.frames[t := f])
  }

  // ----- The invariant ---------------------------------------------------------

  /** Statements executed while holding createLock. */
  predicate InCreate(pc: PC) {
    pc.LoadEntry? || pc.StoreEntry? || pc.Increment? || pc.ReleaseCreate?
    || pc.Decrement? || pc.MaybeDelete? || pc.FinishUnlock?
  }

  /** Statements between the thread's increment and its decrement. */
  predicate Counted(pc: PC) {
    pc.ReleaseCreate? || pc.AcquireMutex? || pc.Inside? || pc.LoadForUnlock?
    || pc.ReleaseMutex? || pc.ReacquireCreate? || pc.Decrement?
  }

  /** Statements executed while holding the order's own mutex. */
  predicate HoldsMutex(pc: PC) {
    pc.Inside? || pc.LoadForUnlock? || pc.ReleaseMutex?
  }

  function Users(s: State, k: TradeNo): set<Thread> {
    set t | t in s.frames && Counted(s.frames[t].pc) && s.frames[t].tradeNo == k
  }

  /** createLock is a lock: held exactly when some thread is inside its region, and by one thread only. */
  ghost predicate CreateLockInv(s: State) {
    && (forall t, u :: t in s.frames && u in s.frames && InCreate(s.frames[t].pc) && InCreate(s.frames[u].pc) ==>
        t == u)
    && (s.mem.createHeld <==> exists t :: t in s.frames && InCreate(s.frames[t].pc))
  }

  /** What each program point knows about the references it carries. */
  ghost predicate FrameInv(m: Memory, f: Frame) {
    && !f.pc.Fatal?
    && (f.pc.StoreEntry? ==> f.tradeNo !in m.orderLocks)
    && (f.pc.Increment? || Counted(f.pc) ==> f.tradeNo in m.orderLocks && f.locked == m.orderLocks[f.tradeNo])
    && (f.pc.ReleaseMutex? || f.pc.ReacquireCreate? || f.pc.Decrement? ==> f.found == f.locked)
    && (f.pc.MaybeDelete? ==> f.tradeNo in m.orderLocks && f.found == m.orderLocks[f.tradeNo])
  }

  /** Entries point to live mutexes, and different orders never share one. */
  ghost predicate EntriesInv(m: Memory) {
    && (forall k :: k in m.orderLocks ==> m.orderLocks[k] < |m.heap|)
    && (forall j, k :: j in m.orderLocks && k in m.orderLocks && m.orderLocks[j] == m.orderLocks[k] ==> j == k)
  }

  /** The counter of an entry is the number of its users. */
  ghost predicate CountInv(s: State) {
    forall k :: k in s.mem.orderLocks && s.mem.orderLocks[k] < |s.mem.heap| ==>
        s.mem.heap[s.mem.orderLocks[k]].refCount == |Users(s, k)|
  }

  /** An entry is in use, or the thread holding createLock is just adding or just dropping it. */
  ghost predicate InUse(s: State, k: TradeNo) {
    exists t :: t in s.frames && s.frames[t].tradeNo == k
                && (Counted(s.frames[t].pc) || s.frames[t].pc.Increment? || s.frames[t].pc.MaybeDelete?)
  }

  ghost predicate MutexInv(s: State) {
    && (forall t, u :: (t in s.frames && u in s.frames && HoldsMutex(s.frames[t].pc) && HoldsMutex(s.frames[u].pc)
                        && s.frames[t].locked == s.frames[u].locked) ==> t == u)
    && (forall t :: t in s.frames && HoldsMutex(s.frames[t].pc) && s.frames[t].locked < |s.mem.heap| ==>
        s.mem.heap[s.frames[t].locked].held)
    && (forall r :: 0 <= r < |s.mem.heap| && s.mem.heap[r].held ==> HeldBySome(s, r))
  }

  ghost predicate HeldBySome(s: State, r: Ref) {
    exists t :: t in s.frames && HoldsMutex(s.frames[t].pc) && s.frames[t].locked == r
  }

  ghost predicate Inv(s: State) {
    && CreateLockInv(s)
    && (forall t :: t in s.frames ==> FrameInv(s.mem, s.frames[t]))
    && EntriesInv(s.mem)
    && CountInv(s)
    && (forall k :: k in s.mem.orderLocks ==> InUse(s, k))
    && MutexInv(s)
  }

  // ----- Every move keeps the invariant ----------------------------------------

  lemma InvInit(s: State)
    requires Init(s)
    ensures Inv(s)
  {
  }

  /** A move rewrites one frame, so it changes the users of an order by at most that thread. */
  lemma UsersUpdate(s: State, s': State, t: Thread, f: Frame, k: TradeNo)
    requires s'.frames == s.frames[t := f]
    ensures |Users(s', k)| == |Users(s, k)| - Flag(t in Users(s, k)) + Flag(Counted(f.pc) && f.tradeNo == k)
  {
    if Counted(f.pc) && f.tradeNo == k {
      assert Users(s', k) == Users(s, k) + {t};
    } else {
      assert Users(s', k) == Users(s, k) - {t};
    }
  }

  function Flag(b: bool): int {
    if b then 1 else 0
  }

  /** What the invariant says about one thread that is ready to move. */
  ghost predicate Sound(m: Memory, f: Frame) {
    && Ready(m, f) && FrameInv(m, f) && EntriesInv(m)
    && (InCreate(f.pc) ==> m.createHeld)
    && (HoldsMutex(f.pc) ==> f.locked < |m.heap| && m.heap[f.locked].held)
  }

  /** A statement moves an entry's counter exactly as it moves the thread in or out of the counted region. */
  lemma RefCountEffect(m: Memory, f: Frame, k: TradeNo)
    requires Sound(m, f)
    requires k in Statement(m, f).0.orderLocks
    ensures var (m', f') := Statement(m, f);
            var before := if k in m.orderLocks then m.heap[m.orderLocks[k]].refCount else 0;
            && m'.orderLocks[k] < |m'.heap|
            && m'.heap[m'.orderLocks[k]].refCount
               == before + (if f.tradeNo == k then Flag(Counted(f'.pc)) - Flag(Counted(f.pc)) else 0)
  {
  }

  lemma CountMove(s: State, t: Thread, k: TradeNo)
    requires Inv(s) && Enabled(s, Move(t)) && k in Exec(s, Move(t)).mem.orderLocks
    ensures var s' := Exec(s, Move(t));
            s'.mem.orderLocks[k] < |s'.mem.heap| && s'.mem.heap[s'.mem.orderLocks[k]].refCount == |Users(s', k)|
  {
    var s' := Exec(s, Move(t));
    var f := s.frames[t];
    RefCountEffect(s.mem, f, k);
    Progression(s.mem, f);
    UsersUpdate(s, s', t, s'.frames[t], k);
    assert k !in s.mem.orderLocks ==> Users(s, k) == {};
  }

  lemma CountExec(s: State, a: Action)
    requires Inv(s) && Enabled(s, a)
    ensures CountInv(Exec(s, a))
  {
    var s' := Exec(s, a);
    forall k | k in s'.mem.orderLocks && s'.mem.orderLocks[k] < |s'.mem.heap|
      ensures s'.mem.heap[s'.mem.orderLocks[k]].refCount == |Users(s', k)|
    {
      if a.Move? {
        CountMove(s, a.t, k);
      } else {
        UsersUpdate(s, s', a.t, s'.frames[a.t], k);
      }
    }
  }

  lemma CreateLockExec(s: State, a: Action)
    requires Enabled(s, a) && CreateLockInv(s)
    ensures CreateLockInv(Exec(s, a))
  {
    var s' := Exec(s, a);
    if s'.mem.createHeld && a.Move? && InCreate(s'.frames[a.t].pc) {
      assert a.t in s'.frames;
    } else if s'.mem.createHeld {
      var t :| t in s.frames && InCreate(s.frames[t].pc);
      assert t in s'.frames && InCreate(s'.frames[t].pc);
    }
  }

  /** The moving thread arrives at a program point whose facts hold. */
  lemma FrameSelf(m: Memory, f: Frame)
    requires Sound(m, f)
    ensures var (m', f') := Statement(m, f); FrameInv(m', f') && EntriesInv(m')
  {
  }

  /** An entry whose counter is zero has no user, and nobody else is about to become one. */
  lemma ZeroIsUnused(s: State, t: Thread, u: Thread)
    requires Inv(s) && t in s.frames && s.frames[t].pc.MaybeDelete? && s.mem.heap[s.frames[t].found].refCount == 0
    requires u in s.frames && u != t && s.frames[u].tradeNo == s.frames[t].tradeNo
    ensures !Counted(s.frames[u].pc) && !InCreate(s.frames[u].pc)
  {
    assert u in Users(s, s.frames[t].tradeNo) <==> Counted(s.frames[u].pc);
    assert Users(s, s.frames[t].tradeNo) == {};
  }

  /** The map changes only where an entry is stored or deleted. */
  lemma MapEffect(m: Memory, f: Frame, k: TradeNo)
    requires Sound(m, f)
    ensures var m' := Statement(m, f).0;
            && (f.pc.StoreEntry? || f.pc.MaybeDelete? ==> InCreate(f.pc))
            && (k in m.orderLocks && !(f.pc.MaybeDelete? && f.tradeNo == k && m.heap[f.found].refCount == 0) ==>
                  k in m'.orderLocks && m'.orderLocks[k] == m.orderLocks[k])
            && (k !in m.orderLocks && !(f.pc.StoreEntry? && f.tradeNo == k) ==> k !in m'.orderLocks)
  {
  }

  /** The other threads' facts survive the move. */
  lemma FrameOther(s: State, t: Thread, u: Thread)
    requires Inv(s) && Enabled(s, Move(t)) && u in s.frames && u != t
    ensures FrameInv(Statement(s.mem, s.frames[t]).0, s.frames[u])
  {
    var f, g := s.frames[t], s.frames[u];
    assert FrameInv(s.mem, f) && FrameInv(s.mem, g);
    MapEffect(s.mem, f, g.tradeNo);
    if f.pc.MaybeDelete? && f.tradeNo == g.tradeNo && s.mem.heap[f.found].refCount == 0 {
      ZeroIsUnused(s, t, u);
    }
  }

  lemma FramesExec(s: State, a: Action)
    requires Inv(s) && Enabled(s, a)
    ensures EntriesInv(Exec(s, a).mem)
    ensures var s' := Exec(s, a); forall t :: t in s'.frames ==> FrameInv(s'.mem, s'.frames[t])
  {
    if a.Move? {
      FrameSelf(s.mem, s.frames[a.t]);
      forall u | u in s.frames && u != a.t
        ensures FrameInv(Exec(s, a).mem, s.frames[u])
      {
        FrameOther(s, a.t, u);
      }
    }
  }

  /** Where a statement can take a thread that uses an entry or holds a mutex. */
  lemma Progression(m: Memory, f: Frame)
    requires Sound(m, f)
    ensures var f' := Statement(m, f).1;
            && f'.tradeNo == f.tradeNo
            && (Counted(f.pc) || f.pc.Increment? ==> f'.locked == f.locked && (Counted(f'.pc) || f'.pc.MaybeDelete?))
            && (HoldsMutex(f'.pc) ==> f'.locked == f.locked && (HoldsMutex(f.pc) || f.pc.AcquireMutex?))
            && (HoldsMutex(f.pc) && !HoldsMutex(f'.pc) ==> f.pc.ReleaseMutex?)
  {
  }

  /** An entry kept by the deleting thread still has a user. */
  lemma InUseKept(s: State, t: Thread)
    requires Inv(s) && t in s.frames && s.frames[t].pc.MaybeDelete? && s.mem.heap[s.frames[t].found].refCount != 0
    ensures exists u :: u in s.frames && u != t && Counted(s.frames[u].pc) && s.frames[u].tradeNo == s.frames[t].tradeNo
  {
    assert FrameInv(s.mem, s.frames[t]);
    assert |Users(s, s.frames[t].tradeNo)| != 0;
    var u :| u in Users(s, s.frames[t].tradeNo);
  }

  /** A thread that keeps an entry in use still does after its own statement, unless it drops the entry. */
  lemma InUseMove(s: State, t: Thread, u: Thread, k: TradeNo)
    requires Inv(s) && Enabled(s, Move(t)) && u in s.frames && s.frames[u].tradeNo == k
    requires Counted(s.frames[u].pc) || s.frames[u].pc.Increment? || (s.frames[u].pc.MaybeDelete? && u != t)
    ensures InUse(Exec(s, Move(t)), k)
  {
    var s' := Exec(s, Move(t));
    if u == t {
      Progression(s.mem, s.frames[t]);
    }
    assert u in s'.frames && s'.frames[u].tradeNo == k;
  }

  lemma InUseSpawn(s: State, a: Action, k: TradeNo)
    requires Enabled(s, a) && a.Spawn? && InUse(s, k)
    ensures InUse(Exec(s, a), k)
  {
    var u :| u in s.frames && s.frames[u].tradeNo == k
             && (Counted(s.frames[u].pc) || s.frames[u].pc.Increment? || s.frames[u].pc.MaybeDelete?);
    assert Exec(s, a).frames[u] == s.frames[u];
  }

  /** An entry that is in use stays so unless a thread without company deletes it. */
  lemma InUseStays(s: State, t: Thread, k: TradeNo)
    requires Inv(s) && Enabled(s, Move(t)) && InUse(s, k)
    requires var f := s.frames[t]; f.pc.MaybeDelete? && f.tradeNo == k ==> s.mem.heap[f.found].refCount != 0
    ensures InUse(Exec(s, Move(t)), k)
  {
    var u :| u in s.frames && s.frames[u].tradeNo == k
             && (Counted(s.frames[u].pc) || s.frames[u].pc.Increment? || s.frames[u].pc.MaybeDelete?);
    if u == t && s.frames[u].pc.MaybeDelete? {
      InUseKept(s, u);
      u :| u in s.frames && u != t && Counted(s.frames[u].pc) && s.frames[u].tradeNo == k;
    }
    InUseMove(s, t, u, k);
  }

  lemma InUseExec(s: State, t: Thread, k: TradeNo)
    requires Inv(s) && Enabled(s, Move(t)) && k in Exec(s, Move(t)).mem.orderLocks
    ensures InUse(Exec(s, Move(t)), k)
  {
    var f := s.frames[t];
    if f.tradeNo == k && f.pc.StoreEntry? {
      assert Exec(s, Move(t)).frames[t].pc.Increment?;
    } else {
      assert FrameInv(s.mem, f);
      MapEffect(s.mem, f, k);
      InUseStays(s, t, k);
    }
  }

  /** Which mutex a statement takes or releases. */
  lemma HeldEffect(m: Memory, f: Frame, r: Ref)
    requires Ready(m, f) && r < |Statement(m, f).0.heap|
    ensures var (m', f') := Statement(m, f);
            m'.heap[r].held ==
            if f.pc.AcquireMutex? && f.locked == r then true
            else if f.pc.ReleaseMutex? && f.found == r then false
            else r < |m.heap| && m.heap[r].held
    ensures |m.heap| <= |Statement(m, f).0.heap|
  {
  }

  lemma HeldBySomeExec(s: State, t: Thread, r: Ref)
    requires Inv(s) && Enabled(s, Move(t))
    requires r < |Exec(s, Move(t)).mem.heap| && Exec(s, Move(t)).mem.heap[r].held
    ensures HeldBySome(Exec(s, Move(t)), r)
  {
    var s' := Exec(s, Move(t));
    var f := s.frames[t];
    HeldEffect(s.mem, f, r);
    Progression(s.mem, f);
    if f.pc.AcquireMutex? && f.locked == r {
      assert HoldsMutex(s'.frames[t].pc) && s'.frames[t].locked == r;
    } else {
      var u :| u in s.frames && HoldsMutex(s.frames[u].pc) && s.frames[u].locked == r;
      assert FrameInv(s.mem, s.frames[u]);
      assert HoldsMutex(s'.frames[u].pc) && s'.frames[u].locked == r;
    }
  }

  lemma ExclusiveExec(s: State, t: Thread, u: Thread)
    requires Inv(s) && Enabled(s, Move(t)) && u in s.frames && u != t
    ensures var s' := Exec(s, Move(t));
            HoldsMutex(s'.frames[t].pc) && HoldsMutex(s.frames[u].pc) ==> s'.frames[t].locked != s.frames[u].locked
  {
    Progression(s.mem, s.frames[t]);
    assert FrameInv(s.mem, s.frames[u]);
  }

  lemma HolderExec(s: State, t: Thread, u: Thread)
    requires Inv(s) && Enabled(s, Move(t)) && u in s.frames
    ensures var s' := Exec(s, Move(t)); var g := s'.frames[u];
            HoldsMutex(g.pc) && g.locked < |s'.mem.heap| ==> s'.mem.heap[g.locked].held
  {
    var s' := Exec(s, Move(t));
    Progression(s.mem, s.frames[t]);
    assert FrameInv(s.mem, s.frames[t]) && FrameInv(s.mem, s.frames[u]);
    if s'.frames[u].locked < |s'.mem.heap| {
      HeldEffect(s.mem, s.frames[t], s'.frames[u].locked);
    }
  }

  lemma MutexExec(s: State, t: Thread)
    requires Inv(s) && Enabled(s, Move(t))
    ensures MutexInv(Exec(s, Move(t)))
  {
    var s' := Exec(s, Move(t));
    forall r: Ref | r < |s'.mem.heap| && s'.mem.heap[r].held
      ensures HeldBySome(s', r)
    {
      HeldBySomeExec(s, t, r);
    }
    forall u | u in s'.frames
      ensures HoldsMutex(s'.frames[u].pc) && s'.frames[u].locked < |s'.mem.heap| ==>
                s'.mem.heap[s'.frames[u].locked].held
      ensures u != t && HoldsMutex(s'.frames[t].pc) && HoldsMutex(s.frames[u].pc) ==>
                s'.frames[t].locked != s.frames[u].locked
    {
      HolderExec(s, t, u);
      if u != t {
        ExclusiveExec(s, t, u);
      }
    }
  }

  /** Every statement of every thread keeps the invariant. */
  lemma InvExec(s: State, a: Action)
    requires Inv(s) && Enabled(s, a)
    ensures Inv(Exec(s, a))
  {
    CreateLockExec(s, a);
    FramesExec(s, a);
    CountExec(s, a);
    forall k | k in Exec(s, a).mem.orderLocks
      ensures InUse(Exec(s, a), k)
    {
      if a.Move? {
        InUseExec(s, a.t, k);
      } else {
        InUseSpawn(s, a, k);
      }
    }
    if a.Move? {
      MutexExec(s, a.t);
    } else {
      SpawnMutex(s, a);
    }
  }

  lemma SpawnMutex(s: State, a: Action)
    requires MutexInv(s) && Enabled(s, a) && a.Spawn?
    ensures MutexInv(Exec(s, a))
  {
    var s' := Exec(s, a);
    forall r | 0 <= r < |s.mem.heap| && s.mem.heap[r].held
      ensures HeldBySome(s', r)
    {
      var u :| u in s.frames && HoldsMutex(s.frames[u].pc) && s.frames[u].locked == r;
      assert u in s'.frames && HoldsMutex(s'.frames[u].pc) && s'.frames[u].locked == r;
    }
  }

  // ----- Whole runs ------------------------------------------------------------

  /** A run: any sequence of enabled steps from the empty system. */
  ghost predicate Run(states: seq<State>, actions: seq<Action>) {
    && |states| == |actions| + 1
    && Init(states[0])
    && forall i :: 0 <= i < |actions| ==> Enabled(states[i], actions[i]) && states[i + 1] == Exec(states[i], actions[i])
  }

  lemma {:induction false} RunInv(states: seq<State>, actions: seq<Action>, i: nat)
    requires Run(states, actions) && i < |states|
    ensures Inv(states[i])
  {
    if i == 0 {
      InvInit(states[0]);
    } else {
      RunInv(states, actions, i - 1);
      InvExec(states[i - 1], actions[i - 1]);
    }
  }

  /** In no state of any run are two threads inside the locked region of the same order. */
  lemma MutualExclusion(states: seq<State>, actions: seq<Action>, i: nat, t: Thread, u: Thread)
    requires Run(states, actions) && i < |states|
    requires t in states[i].frames && u in states[i].frames
    requires states[i].frames[t].pc.Inside? && states[i].frames[u].pc.Inside?
    requires states[i].frames[t].tradeNo == states[i].frames[u].tradeNo
    ensures t == u
  {
    RunInv(states, actions, i);
    assert FrameInv(states[i].mem, states[i].frames[t]) && FrameInv(states[i].mem, states[i].frames[u]);
  }

  /**
   The bookkeeping is exact in every state of every run: a counter is the number of threads
   between their increment and their decrement, those threads all refer to the one mutex in
   the map, and an entry without such a thread is being added or dropped by a running call.
   */
  lemma ExactBookkeeping(states: seq<State>, actions: seq<Action>, i: nat, k: TradeNo)
    requires Run(states, actions) && i < |states|
    ensures var s := states[i];
            && (forall t :: t in Users(s, k) ==> k in s.mem.orderLocks && s.frames[t].locked == s.mem.orderLocks[k])
            && (k in s.mem.orderLocks ==>
                  && s.mem.orderLocks[k] < |s.mem.heap|
                  && s.mem.heap[s.mem.orderLocks[k]].refCount == |Users(s, k)|
                  && exists t :: t in s.frames && s.frames[t].tradeNo == k && !s.frames[t].pc.Returned?)
  {
    RunInv(states, actions, i);
    var s := states[i];
    forall t | t in Users(s, k)
      ensures k in s.mem.orderLocks && s.frames[t].locked == s.mem.orderLocks[k]
    {
      assert FrameInv(s.mem, s.frames[t]);
    }
  }

  /** UnlockOrder's unguarded Load finds the very mutex its caller locked, which is still held; no call aborts. */
  lemma UnlockFindsOwnMutex(states: seq<State>, actions: seq<Action>, i: nat, t: Thread)
    requires Run(states, actions) && i < |states| && t in states[i].frames
    ensures var s := states[i]; var f := s.frames[t];
            && !f.pc.Fatal?
            && (f.pc.LoadForUnlock? ==>
                  f.tradeNo in s.mem.orderLocks && s.mem.orderLocks[f.tradeNo] == f.locked)
            && (f.pc.ReleaseMutex? ==> f.found == f.locked && f.locked < |s.mem.heap| && s.mem.heap[f.found].held)
  {
    RunInv(states, actions, i);
    assert FrameInv(states[i].mem, states[i].frames[t]);
  }

  /** When every call has returned, the map is empty again and no lock is held. */
  lemma NothingLeaks(states: seq<State>, actions: seq<Action>, i: nat)
    requires Run(states, actions) && i < |states|
    requires forall t :: t in states[i].frames ==> states[i].frames[t].pc.Returned?
    ensures states[i].mem.orderLocks == map[] && !states[i].mem.createHeld
    ensures forall r :: 0 <= r < |states[i].mem.heap| ==> !states[i].mem.heap[r].held
  {
    RunInv(states, actions, i);
    assert forall k :: k in states[i].mem.orderLocks ==> InUse(states[i], k);
  }

  /** As long as some call has not returned, some thread can execute its next statement. */
  lemma NoDeadlock(states: seq<State>, actions: seq<Action>, i: nat, t: Thread)
    requires Run(states, actions) && i < |states| && t in states[i].frames && !states[i].frames[t].pc.Returned?
    ensures exists u :: Enabled(states[i], Move(u))
  {
    RunInv(states, actions, i);
    SomeThreadReady(states[i], t);
  }

  lemma SomeThreadReady(s: State, t: Thread)
    requires Inv(s) && t in s.frames && !s.frames[t].pc.Returned?
    ensures exists u :: Enabled(s, Move(u))
  {
    var f := s.frames[t];
    assert FrameInv(s.mem, f);
    if s.mem.createHeld {
      var u :| u in s.frames && InCreate(s.frames[u].pc);
      assert FrameInv(s.mem, s.frames[u]);
      assert Enabled(s, Move(u));
    } else if f.pc.AcquireMutex? && s.mem.heap[f.locked].held {
      assert HeldBySome(s, f.locked);
      var u :| u in s.frames && HoldsMutex(s.frames[u].pc) && s.frames[u].locked == f.locked;
      assert FrameInv(s.mem, s.frames[u]);
      assert Enabled(s, Move(u));
    } else {
      assert Enabled(s, Move(t));
    }
  }
}
