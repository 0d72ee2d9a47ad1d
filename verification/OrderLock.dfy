/**
 The per-order lock behind every money-crediting webhook: `LockOrder` and
 `UnlockOrder` keep a map from trade number to a reference-counted mutex.
 Creation and removal of map entries happen under one global `createLock`;
 the `Load` at the start of `UnlockOrder` does not.

 The protocol is a transition system over any number of threads.  Each program
 counter value is the next atomic action of a thread.  Mutexes are plain
 booleans without an owner, so exclusion is proved and not assumed, and a
 release of a mutex nobody holds raises `fault` (Go aborts the process there).
 */
module OrderLock {

  type Thread = nat
  type TradeNo = string
  type MutexId = nat

  datatype PC =
    | Idle
    // LockOrder
    | Acquire       // createLock.Lock()
    | Load          // orderLocks.Load(tradeNo)
    | Store         // orderLocks.Store(tradeNo, &refCountedMutex{})
    | Increment     // rcm.refCount++
    | Release       // createLock.Unlock()
    | LockMutex     // rcm.mu.Lock()
    // the webhook's critical section: read the order status, then settle it
    | Check
    | Settle
    // UnlockOrder
    | Reload        // orderLocks.Load(tradeNo), outside createLock
    | UnlockMutex   // rcm.mu.Unlock()
    | Reacquire     // createLock.Lock()
    | Decrement     // rcm.refCount--
    | Remove        // if rcm.refCount == 0 { orderLocks.Delete(tradeNo) }
    | Rerelease     // createLock.Unlock()

  /** `rcm` is the local of `LockOrder`, `loaded` the local of `UnlockOrder`. */
  datatype Local = Local(pc: PC, trade: TradeNo, rcm: MutexId, loaded: MutexId, sawPending: bool)

  datatype RefCountedMutex = RefCountedMutex(locked: bool, refCount: int)

  /** `heap` holds every mutex ever allocated, indexed by its identity.
      `pending` and `ended` are the orders of those statuses, `ended` being any terminal
      status other than success, and `credits` is the crediting log. */
  datatype State = State(
    threads: map<Thread, Local>,
    createLocked: bool,
    orderLocks: map<TradeNo, MutexId>,
    heap: seq<RefCountedMutex>,
    pending: set<TradeNo>,
    credits: multiset<TradeNo>,
    ended: set<TradeNo>,
    fault: bool)

  /** What a webhook does with an order it saw pending: credit it, end it without credit
      (expired, failed), or leave it, as when the payment checks fail. */
  datatype Outcome = Credit | End | Leave

  /** `Begin` starts a webhook for an order; `Advance` runs the next atomic action. */
  datatype Action = Begin(trade: TradeNo) | Advance(outcome: Outcome)

  datatype Event = Event(thread: Thread, action: Action)

  function Init(pending: set<TradeNo>): State {
    State(map[], false, map[], [], pending, multiset{}, {}, false)
  }

  predicate IsIdle(s: State, t: Thread) {
    t !in s.threads || s.threads[t].pc.Idle?
  }

  /** A blocked `Lock()` is an action that is not enabled. */
  predicate Enabled(s: State, e: Event) {
    match e.action
    case Begin(_) => IsIdle(s, e.thread)
    case Advance(_) =>
      && !IsIdle(s, e.thread)
      && var me := s.threads[e.thread];
      match me.pc
      case Acquire | Reacquire => !s.createLocked
      case LockMutex => me.rcm < |s.heap| && !s.heap[me.rcm].locked
      case Increment => me.rcm < |s.heap|
      case UnlockMutex | Decrement | Remove => me.loaded < |s.heap|
      case _ => true
  }

  predicate At(s: State, t: Thread, pc: PC) {
    t in s.threads && s.threads[t].pc == pc
  }

  /** Thread `t` takes the locals `me`; nothing else changes. */
  function SetThread(s: State, t: Thread, me: Local): State {
    s.(threads := s.threads[t := me])
  }

  function Goto(s: State, t: Thread, pc: PC): State
    requires t in s.threads
  {
    SetThread(s, t, s.threads[t].(pc := pc))
  }

  function DoBegin(s: State, t: Thread, trade: TradeNo): State {
    SetThread(s, t, Local(Acquire, trade, 0, 0, false))
  }

  /** `createLock.Lock()`, from either call. */
  function DoCreateLock(s: State, t: Thread, pc: PC): State
    requires t in s.threads
  {
    Goto(s.(createLocked := true), t, pc)
  }

  /** `createLock.Unlock()`, from either call. */
  function DoCreateUnlock(s: State, t: Thread, pc: PC): State
    requires t in s.threads
  {
    Goto(s.(createLocked := false, fault := s.fault || !s.createLocked), t, pc)
  }

  function DoLoad(s: State, t: Thread): State
    requires At(s, t, Load)
  {
    var me := s.threads[t];
    if me.trade in s.orderLocks
    then SetThread(s, t, me.(pc := Increment, rcm := s.orderLocks[me.trade]))
    else Goto(s, t, Store)
  }

  function DoStore(s: State, t: Thread): State
    requires At(s, t, Store)
  {
    var me := s.threads[t];
    SetThread(s.(heap := s.heap + [RefCountedMutex(false, 0)], orderLocks := s.orderLocks[me.trade := |s.heap|]),
              t, me.(pc := Increment, rcm := |s.heap|))
  }

  function DoIncrement(s: State, t: Thread): State
    requires At(s, t, Increment) && s.threads[t].rcm < |s.heap|
  {
    var id := s.threads[t].rcm;
    Goto(s.(heap := s.heap[id := s.heap[id].(refCount := s.heap[id].refCount + 1)]), t, Release)
  }

  function DoLockMutex(s: State, t: Thread): State
    requires At(s, t, LockMutex) && s.threads[t].rcm < |s.heap|
  {
    var id := s.threads[t].rcm;
    Goto(s.(heap := s.heap[id := s.heap[id].(locked := true)]), t, Check)
  }

  function DoCheck(s: State, t: Thread): State
    requires At(s, t, Check)
  {
    var me := s.threads[t];
    SetThread(s, t, me.(pc := Settle, sawPending := me.trade in s.pending))
  }

  function DoSettle(s: State, t: Thread, outcome: Outcome): State
    requires At(s, t, Settle)
  {
    var me := s.threads[t];
    if !me.sawPending || outcome.Leave? then Goto(s, t, Reload)
    else if outcome.Credit?
    then Goto(s.(pending := s.pending - {me.trade}, credits := s.credits + multiset{me.trade}), t, Reload)
    else Goto(s.(pending := s.pending - {me.trade}, ended := s.ended + {me.trade}), t, Reload)
  }

  /** When the entry is missing `UnlockOrder` returns and the mutex stays locked. */
  function DoReload(s: State, t: Thread): State
    requires At(s, t, Reload)
  {
    var me := s.threads[t];
    if me.trade in s.orderLocks
    then SetThread(s, t, me.(pc := UnlockMutex, loaded := s.orderLocks[me.trade]))
    else Goto(s, t, Idle)
  }

  function DoUnlockMutex(s: State, t: Thread): State
    requires At(s, t, UnlockMutex) && s.threads[t].loaded < |s.heap|
  {
    var id := s.threads[t].loaded;
    Goto(s.(heap := s.heap[id := s.heap[id].(locked := false)], fault := s.fault || !s.heap[id].locked), t, Reacquire)
  }

  function DoDecrement(s: State, t: Thread): State
    requires At(s, t, Decrement) && s.threads[t].loaded < |s.heap|
  {
    var id := s.threads[t].loaded;
    Goto(s.(heap := s.heap[id := s.heap[id].(refCount := s.heap[id].refCount - 1)]), t, Remove)
  }

  function DoRemove(s: State, t: Thread): State
    requires At(s, t, Remove) && s.threads[t].loaded < |s.heap|
  {
    var me := s.threads[t];
    if s.heap[me.loaded].refCount == 0
    then Goto(s.(orderLocks := s.orderLocks - {me.trade}), t, Rerelease)
    else Goto(s, t, Rerelease)
  }

  function Next(s: State, e: Event): State
    requires Enabled(s, e)
  {
    var t := e.thread;
    match e.action
    case Begin(trade) => DoBegin(s, t, trade)
    case Advance(outcome) =>
      match s.threads[t].pc
      case Acquire => DoCreateLock(s, t, Load)
      case Load => DoLoad(s, t)
      case Store => DoStore(s, t)
      case Increment => DoIncrement(s, t)
      case Release => DoCreateUnlock(s, t, LockMutex)
      case LockMutex => DoLockMutex(s, t)
      case Check => DoCheck(s, t)
      case Settle => DoSettle(s, t, outcome)
      case Reload => DoReload(s, t)
      case UnlockMutex => DoUnlockMutex(s, t)
      case Reacquire => DoCreateLock(s, t, Decrement)
      case Decrement => DoDecrement(s, t)
      case Remove => DoRemove(s, t)
      case Rerelease => DoCreateUnlock(s, t, Idle)
  }

  /** What a fault is: unlocking a mutex, or the creation lock, that is not locked. */
  lemma FaultIff(s: State, e: Event)
    requires Enabled(s, e)
    ensures Next(s, e).fault <==>
            || s.fault
            || (e.action.Advance? && At(s, e.thread, UnlockMutex) && !s.heap[s.threads[e.thread].loaded].locked)
            || (e.action.Advance? && (At(s, e.thread, Release) || At(s, e.thread, Rerelease)) && !s.createLocked)
  {
  }

  /** `events` is a run from `s` to `s'`. */
  ghost predicate Run(s: State, events: seq<Event>, s': State)
    decreases |events|
  {
    if events == [] then s == s'
    else Enabled(s, events[0]) && Run(Next(s, events[0]), events[1..], s')
  }

  // ---------------------------------------------------------------- regions

  /** Between acquiring and releasing `createLock`. */
  predicate InCreate(pc: PC) {
    pc.Load? || pc.Store? || pc.Increment? || pc.Release? || pc.Decrement? || pc.Remove? || pc.Rerelease?
  }

  /** Between `refCount++` and `refCount--`. */
  predicate Counted(pc: PC) {
    pc.Release? || pc.LockMutex? || pc.Check? || pc.Settle? || pc.Reload? || pc.UnlockMutex? || pc.Reacquire? || pc.Decrement?
  }

  /** Between acquiring and releasing the order's mutex. */
  predicate Holding(pc: PC) {
    pc.Check? || pc.Settle? || pc.Reload? || pc.UnlockMutex?
  }

  /** Between publishing or finding the map entry and the removal test. */
  predicate Refers(pc: PC) {
    Counted(pc) || pc.Increment? || pc.Remove?
  }

  /** `UnlockOrder` has loaded its mutex. */
  predicate Loaded(pc: PC) {
    pc.UnlockMutex? || pc.Reacquire? || pc.Decrement? || pc.Remove?
  }

  /** The locals of a thread; one that never ran is idle. */
  function Loc(s: State, t: Thread): Local {
    if t in s.threads then s.threads[t] else Local(Idle, "", 0, 0, false)
  }

  function Holders(s: State, id: MutexId): set<Thread> {
    set t | t in s.threads && Counted(s.threads[t].pc) && s.threads[t].rcm == id
  }

  // ------------------------------------------------------------- invariants

  ghost predicate CreateLockExclusive(s: State) {
    && (forall t, u :: InCreate(Loc(s, t).pc) && InCreate(Loc(s, u).pc) ==> t == u)
    && (s.createLocked <==> exists t :: InCreate(Loc(s, t).pc))
  }

  /** Every thread that refers to an order uses the one mutex the map holds for it. */
  ghost predicate EntriesShared(s: State) {
    && (forall t :: Refers(Loc(s, t).pc) ==> Loc(s, t).trade in s.orderLocks && s.orderLocks[Loc(s, t).trade] == Loc(s, t).rcm)
    && (forall t :: Loaded(Loc(s, t).pc) ==> Loc(s, t).loaded == Loc(s, t).rcm)
    && (forall t :: Loc(s, t).pc.Store? ==> Loc(s, t).trade !in s.orderLocks)
  }

  ghost predicate EntriesDistinct(s: State) {
    && (forall n | n in s.orderLocks :: s.orderLocks[n] < |s.heap|)
    && (forall n, k | n in s.orderLocks && k in s.orderLocks && s.orderLocks[n] == s.orderLocks[k] :: n == k)
  }

  ghost predicate EntriesReferenced(s: State) {
    forall n | n in s.orderLocks :: exists t :: Refers(Loc(s, t).pc) && Loc(s, t).trade == n
  }

  ghost predicate RefCountsExact(s: State) {
    && (forall t :: Counted(Loc(s, t).pc) ==> Loc(s, t).rcm < |s.heap|)
    && forall id | 0 <= id < |s.heap| :: s.heap[id].refCount == |Holders(s, id)|
  }

  ghost predicate MutexExclusive(s: State) {
    && (forall t, u :: Holding(Loc(s, t).pc) && Holding(Loc(s, u).pc) && Loc(s, t).rcm == Loc(s, u).rcm ==> t == u)
    && (forall t :: Holding(Loc(s, t).pc) ==> Loc(s, t).rcm < |s.heap| && s.heap[Loc(s, t).rcm].locked)
    && (forall id | 0 <= id < |s.heap| && s.heap[id].locked :: exists t :: Holding(Loc(s, t).pc) && Loc(s, t).rcm == id)
  }

  ghost predicate CreditsSound(s: State) {
    && (forall n :: s.credits[n] <= 1)
    && (forall n | n in s.credits :: n !in s.pending && n !in s.ended)
    && s.pending !! s.ended
    && (forall t :: Loc(s, t).pc.Settle? ==> (Loc(s, t).sawPending <==> Loc(s, t).trade in s.pending))
  }

  ghost predicate Inv(s: State) {
    && !s.fault
    && CreateLockExclusive(s)
    && EntriesShared(s)
    && EntriesDistinct(s)
    && EntriesReferenced(s)
    && RefCountsExact(s)
    && MutexExclusive(s)
    && CreditsSound(s)
  }

  // ------------------------------------------- each action keeps the invariant

  /** Only thread `t` changed its locals. */
  ghost predicate OnlyMoved(s: State, t: Thread, s': State) {
    forall u | u != t :: Loc(s', u) == Loc(s, u)
  }

  /** `createLock` is untouched, taken when free, or given back by its holder. */
  ghost predicate CreateMove(s: State, t: Thread, s': State) {
    var before, after := InCreate(Loc(s, t).pc), InCreate(Loc(s', t).pc);
    || (before == after && s'.createLocked == s.createLocked)
    || (!s.createLocked && after && s'.createLocked)
    || (before && !after && !s'.createLocked)
  }

  lemma CreateLockKept(s: State, t: Thread, s': State)
    requires CreateLockExclusive(s) && OnlyMoved(s, t, s') && CreateMove(s, t, s')
    ensures CreateLockExclusive(s')
  {
    if s'.createLocked && !InCreate(Loc(s', t).pc) {
      var u :| InCreate(Loc(s, u).pc);
      assert InCreate(Loc(s', u).pc);
    }
  }

  /** A thread keeps its reference, or takes one, possibly publishing the entry. */
  ghost predicate ReferenceMove(s: State, t: Thread, s': State) {
    && s'.orderLocks.Keys <= s.orderLocks.Keys + {Loc(s', t).trade}
    && (Refers(Loc(s', t).pc) || (!Refers(Loc(s, t).pc) && s'.orderLocks == s.orderLocks))
    && (Refers(Loc(s, t).pc) ==> Loc(s', t).trade == Loc(s, t).trade)
  }

  lemma EntriesReferencedKept(s: State, t: Thread, s': State)
    requires EntriesReferenced(s) && OnlyMoved(s, t, s') && ReferenceMove(s, t, s')
    ensures EntriesReferenced(s')
  {
    forall n | n in s'.orderLocks ensures exists u :: Refers(Loc(s', u).pc) && Loc(s', u).trade == n {
      if Refers(Loc(s', t).pc) && Loc(s', t).trade == n {
      } else {
        var u :| Refers(Loc(s, u).pc) && Loc(s, u).trade == n;
        assert Refers(Loc(s', u).pc);
      }
    }
  }

  lemma HoldersAfter(s: State, t: Thread, s': State, id: MutexId)
    requires OnlyMoved(s, t, s')
    ensures Holders(s', id) ==
              if Counted(Loc(s', t).pc) && Loc(s', t).rcm == id then Holders(s, id) + {t} else Holders(s, id) - {t}
    ensures t in Holders(s, id) <==> Counted(Loc(s, t).pc) && Loc(s, t).rcm == id
  {
    forall u ensures u in Holders(s, id) <==> Counted(Loc(s, u).pc) && Loc(s, u).rcm == id {
    }
    forall u ensures u in Holders(s', id) <==> Counted(Loc(s', u).pc) && Loc(s', u).rcm == id {
    }
  }

  /** The moved thread enters or leaves the counted region together with its mutex's counter. */
  ghost predicate CountMove(s: State, t: Thread, s': State) {
    && |s'.heap| >= |s.heap|
    && (forall id | |s.heap| <= id < |s'.heap| :: s'.heap[id].refCount == 0)
    && (Counted(Loc(s', t).pc) ==> Loc(s', t).rcm < |s.heap|)
    && (Counted(Loc(s, t).pc) && Counted(Loc(s', t).pc) ==> Loc(s', t).rcm == Loc(s, t).rcm)
    && (forall id | 0 <= id < |s.heap| :: s'.heap[id].refCount ==
          s.heap[id].refCount
          + (if Counted(Loc(s', t).pc) && Loc(s', t).rcm == id then 1 else 0)
          - (if Counted(Loc(s, t).pc) && Loc(s, t).rcm == id then 1 else 0))
  }

  lemma RefCountsKept(s: State, t: Thread, s': State)
    requires RefCountsExact(s) && OnlyMoved(s, t, s') && CountMove(s, t, s')
    ensures RefCountsExact(s')
  {
    forall id | 0 <= id < |s'.heap| ensures s'.heap[id].refCount == |Holders(s', id)| {
      HoldersAfter(s, t, s', id);
      if |s.heap| <= id {
        assert forall u | u in Holders(s, id) :: Counted(Loc(s, u).pc) && Loc(s, u).rcm == id;
        assert Holders(s, id) == {};
      }
    }
  }

  /** No mutex changes, or `t` takes a free one, or `t` gives its own back. */
  ghost predicate MutexMove(s: State, t: Thread, s': State) {
    var before, after := Holding(Loc(s, t).pc), Holding(Loc(s', t).pc);
    var id, id' := Loc(s, t).rcm, Loc(s', t).rcm;
    && |s'.heap| >= |s.heap|
    && (forall k | |s.heap| <= k < |s'.heap| :: !s'.heap[k].locked)
    && (|| (before == after && (before ==> id == id') && forall k | 0 <= k < |s.heap| :: s'.heap[k].locked == s.heap[k].locked)
        || (!before && after && id' < |s.heap| && !s.heap[id'].locked
            && forall k | 0 <= k < |s.heap| :: s'.heap[k].locked == (k == id' || s.heap[k].locked))
        || (before && !after && forall k | 0 <= k < |s.heap| :: s'.heap[k].locked == (k != id && s.heap[k].locked)))
  }

  lemma MutexKept(s: State, t: Thread, s': State)
    requires MutexExclusive(s) && OnlyMoved(s, t, s') && MutexMove(s, t, s')
    ensures MutexExclusive(s')
  {
    forall k | 0 <= k < |s'.heap| && s'.heap[k].locked ensures exists u :: Holding(Loc(s', u).pc) && Loc(s', u).rcm == k {
      if Holding(Loc(s', t).pc) && Loc(s', t).rcm == k {
      } else {
        var u :| Holding(Loc(s, u).pc) && Loc(s, u).rcm == k;
        assert Holding(Loc(s', u).pc) && Loc(s', u).rcm == k;
      }
    }
  }

  /** The order table is untouched, or `t` credits or ends the order it saw pending. */
  ghost predicate CreditMove(s: State, t: Thread, s': State) {
    var me := Loc(s, t);
    || (&& s'.pending == s.pending && s'.credits == s.credits && s'.ended == s.ended
        && (Loc(s', t).pc.Settle? ==> (Loc(s', t).sawPending <==> Loc(s', t).trade in s.pending)))
    || (&& me.pc.Settle? && me.sawPending && !Loc(s', t).pc.Settle?
        && s'.pending == s.pending - {me.trade}
        && (|| (s'.credits == s.credits + multiset{me.trade} && s'.ended == s.ended)
            || (s'.credits == s.credits && s'.ended == s.ended + {me.trade})))
  }

  /** Settling needs the order's mutex, so no other thread is settling the same order. */
  lemma CreditsKept(s: State, t: Thread, s': State)
    requires CreditsSound(s) && MutexExclusive(s) && EntriesShared(s) && OnlyMoved(s, t, s') && CreditMove(s, t, s')
    ensures CreditsSound(s')
  {
  }

  /** Actions that leave the map alone. */
  ghost predicate ShareMove(s: State, t: Thread, s': State) {
    var me := Loc(s', t);
    && s'.orderLocks == s.orderLocks
    && (Refers(me.pc) ==> me.trade in s.orderLocks && s.orderLocks[me.trade] == me.rcm)
    && (Loaded(me.pc) ==> me.loaded == me.rcm)
    && (me.pc.Store? ==> me.trade !in s.orderLocks)
  }

  lemma SharedKept(s: State, t: Thread, s': State)
    requires EntriesShared(s) && OnlyMoved(s, t, s') && ShareMove(s, t, s')
    ensures EntriesShared(s')
  {
  }

  /** Publishing a new mutex: nobody refers to the order yet, and nobody else is about to publish. */
  lemma SharedAfterStore(s: State, t: Thread, s': State)
    requires CreateLockExclusive(s) && EntriesShared(s) && OnlyMoved(s, t, s')
    requires At(s, t, Store) && s' == DoStore(s, t)
    ensures EntriesShared(s')
  {
    assert InCreate(Loc(s, t).pc);
    assert forall u | u != t :: !InCreate(Loc(s, u).pc);
  }

  /** Removing the entry at count zero: no other thread refers to the order. */
  lemma SharedAfterRemove(s: State, t: Thread, s': State)
    requires CreateLockExclusive(s) && EntriesShared(s) && EntriesDistinct(s) && RefCountsExact(s) && OnlyMoved(s, t, s')
    requires At(s, t, Remove) && s.threads[t].loaded < |s.heap| && s' == DoRemove(s, t)
    ensures EntriesShared(s')
  {
    var me := Loc(s, t);
    assert me.loaded == me.rcm && s.orderLocks[me.trade] == me.rcm;
    if s.heap[me.loaded].refCount == 0 {
      forall u | Refers(Loc(s', u).pc) ensures Loc(s', u).trade != me.trade {
        if Loc(s', u).trade == me.trade {
          LastReference(s, t, u);
        }
      }
    }
  }

  /** At count zero a thread about to test for removal is the only one referring to its order. */
  lemma LastReference(s: State, t: Thread, u: Thread)
    requires CreateLockExclusive(s) && EntriesShared(s) && EntriesDistinct(s) && RefCountsExact(s)
    requires Loc(s, t).pc.Remove? && s.heap[Loc(s, t).rcm].refCount == 0
    requires Refers(Loc(s, u).pc) && Loc(s, u).trade == Loc(s, t).trade
    ensures u == t
  {
    assert Counted(Loc(s, u).pc) ==> u in Holders(s, Loc(s, t).rcm);
    assert !Counted(Loc(s, u).pc) ==> InCreate(Loc(s, u).pc) && InCreate(Loc(s, t).pc);
  }

  /** A thread that leaves the entry behind was not its last reference. */
  lemma ReferencedAfterRemove(s: State, t: Thread, s': State)
    requires CreateLockExclusive(s) && EntriesShared(s) && EntriesDistinct(s) && EntriesReferenced(s) && RefCountsExact(s)
    requires OnlyMoved(s, t, s')
    requires At(s, t, Remove) && s.threads[t].loaded < |s.heap| && s' == DoRemove(s, t)
    ensures EntriesReferenced(s')
  {
    var me := Loc(s, t);
    forall n | n in s'.orderLocks ensures exists u :: Refers(Loc(s', u).pc) && Loc(s', u).trade == n {
      if n == me.trade {
        var u :| u in Holders(s, me.rcm);
        assert Counted(Loc(s, u).pc) && u != t;
        assert Refers(Loc(s', u).pc) && Loc(s', u).trade == n;
      } else {
        var u :| Refers(Loc(s, u).pc) && Loc(s, u).trade == n;
        assert Refers(Loc(s', u).pc) && Loc(s', u).trade == n;
      }
    }
  }

  lemma DistinctAfterStore(s: State, t: Thread)
    requires EntriesDistinct(s) && At(s, t, Store)
    ensures EntriesDistinct(DoStore(s, t))
  {
  }

  /** What the moving thread may rely on. */
  ghost predicate MoverOk(s: State, t: Thread) {
    var me := Loc(s, t);
    && !s.fault
    && (InCreate(me.pc) ==> s.createLocked)
    && (Refers(me.pc) ==> me.trade in s.orderLocks && s.orderLocks[me.trade] == me.rcm && me.rcm < |s.heap|)
    && (Loaded(me.pc) ==> me.loaded == me.rcm)
    && (Holding(me.pc) ==> s.heap[me.rcm].locked)
    && (me.pc.Store? ==> me.trade !in s.orderLocks)
  }

  lemma OthersStay(s: State, e: Event)
    requires MoverOk(s, e.thread) && Enabled(s, e)
    ensures !Next(s, e).fault && OnlyMoved(s, e.thread, Next(s, e))
  {
  }

  lemma CreateLockMovesSoundly(s: State, e: Event)
    requires MoverOk(s, e.thread) && Enabled(s, e)
    ensures CreateMove(s, e.thread, Next(s, e))
  {
  }

  lemma OrdersMoveSoundly(s: State, e: Event)
    requires MoverOk(s, e.thread) && Enabled(s, e)
    ensures CreditMove(s, e.thread, Next(s, e))
  {
  }

  /** The heap stays, and with it what `t` counts and holds. */
  ghost predicate Quiet(s: State, t: Thread, s': State) {
    && s'.heap == s.heap
    && (Counted(Loc(s, t).pc) <==> Counted(Loc(s', t).pc)) && (Holding(Loc(s, t).pc) <==> Holding(Loc(s', t).pc))
    && (Counted(Loc(s, t).pc) ==> Loc(s', t).rcm == Loc(s, t).rcm < |s.heap|)
  }

  predicate OnHeap(pc: PC) {
    pc.Store? || pc.Increment? || pc.LockMutex? || pc.UnlockMutex? || pc.Decrement?
  }

  lemma HeapStays(s: State, e: Event)
    requires MoverOk(s, e.thread) && Enabled(s, e) && !(e.action.Advance? && OnHeap(Loc(s, e.thread).pc))
    ensures Quiet(s, e.thread, Next(s, e))
  {
  }

  lemma QuietMoves(s: State, t: Thread, s': State)
    requires Quiet(s, t, s')
    ensures CountMove(s, t, s') && MutexMove(s, t, s')
  {
  }

  lemma HeapMovesSoundly(s: State, e: Event)
    requires MoverOk(s, e.thread) && Enabled(s, e) && e.action.Advance? && OnHeap(Loc(s, e.thread).pc)
    ensures MutexMove(s, e.thread, Next(s, e))
  {
  }

  lemma MutexesMoveSoundly(s: State, e: Event)
    requires MoverOk(s, e.thread) && Enabled(s, e)
    ensures MutexMove(s, e.thread, Next(s, e))
  {
    if e.action.Advance? && OnHeap(Loc(s, e.thread).pc) {
      HeapMovesSoundly(s, e);
    } else {
      HeapStays(s, e);
      QuietMoves(s, e.thread, Next(s, e));
    }
  }

  lemma CountersMoveSoundly(s: State, e: Event)
    requires MoverOk(s, e.thread) && Enabled(s, e)
    requires e.action.Advance? && (At(s, e.thread, Increment) || At(s, e.thread, Decrement))
    ensures CountMove(s, e.thread, Next(s, e))
  {
  }

  lemma StoreMovesSoundly(s: State, e: Event)
    requires MoverOk(s, e.thread) && Enabled(s, e) && e.action.Advance? && At(s, e.thread, Store)
    ensures CountMove(s, e.thread, Next(s, e))
  {
  }

  lemma MutexesLeaveCounters(s: State, e: Event)
    requires MoverOk(s, e.thread) && Enabled(s, e) && e.action.Advance?
    requires At(s, e.thread, LockMutex) || At(s, e.thread, UnlockMutex)
    ensures CountMove(s, e.thread, Next(s, e))
  {
  }

  lemma CountsMoveSoundly(s: State, e: Event)
    requires MoverOk(s, e.thread) && Enabled(s, e)
    ensures CountMove(s, e.thread, Next(s, e))
  {
    if !(e.action.Advance? && OnHeap(Loc(s, e.thread).pc)) {
      HeapStays(s, e);
      QuietMoves(s, e.thread, Next(s, e));
    } else if At(s, e.thread, Store) {
      StoreMovesSoundly(s, e);
    } else if At(s, e.thread, LockMutex) || At(s, e.thread, UnlockMutex) {
      MutexesLeaveCounters(s, e);
    } else {
      CountersMoveSoundly(s, e);
    }
  }

  lemma ReferencesMoveSoundly(s: State, e: Event)
    requires MoverOk(s, e.thread) && Enabled(s, e)
    requires e.action.Advance? ==> !At(s, e.thread, Remove)
    ensures ReferenceMove(s, e.thread, Next(s, e))
  {
  }

  lemma SharesMoveSoundly(s: State, e: Event)
    requires MoverOk(s, e.thread) && Enabled(s, e)
    requires e.action.Advance? ==> !At(s, e.thread, Remove) && !At(s, e.thread, Store)
    ensures ShareMove(s, e.thread, Next(s, e))
  {
  }

  lemma HeapGrows(s: State, e: Event)
    requires Enabled(s, e)
    ensures |s.heap| <= |Next(s, e).heap|
  {
  }

  lemma NextAtRemove(s: State, e: Event)
    requires MoverOk(s, e.thread) && Enabled(s, e) && e.action.Advance? && At(s, e.thread, Remove)
    ensures s.threads[e.thread].loaded < |s.heap| && Next(s, e) == DoRemove(s, e.thread)
  {
  }

  lemma NextAtStore(s: State, e: Event)
    requires Enabled(s, e) && e.action.Advance? && At(s, e.thread, Store)
    ensures Next(s, e) == DoStore(s, e.thread)
  {
  }

  lemma MoverIsOk(s: State, t: Thread)
    requires Inv(s)
    ensures MoverOk(s, t)
  {
  }

  ghost predicate EntriesSound(s: State) {
    EntriesShared(s) && EntriesDistinct(s) && EntriesReferenced(s)
  }

  lemma RemoveKeepsEntries(s: State, t: Thread, s': State)
    requires CreateLockExclusive(s) && EntriesSound(s) && RefCountsExact(s) && OnlyMoved(s, t, s')
    requires At(s, t, Remove) && s.threads[t].loaded < |s.heap| && s' == DoRemove(s, t)
    ensures EntriesSound(s')
  {
    SharedAfterRemove(s, t, s');
    ReferencedAfterRemove(s, t, s');
  }

  lemma StoreKeepsEntries(s: State, t: Thread, s': State)
    requires CreateLockExclusive(s) && EntriesSound(s) && OnlyMoved(s, t, s')
    requires At(s, t, Store) && s' == DoStore(s, t) && ReferenceMove(s, t, s')
    ensures EntriesSound(s')
  {
    SharedAfterStore(s, t, s');
    DistinctAfterStore(s, t);
    EntriesReferencedKept(s, t, s');
  }

  lemma OthersKeepEntries(s: State, t: Thread, s': State)
    requires EntriesSound(s) && OnlyMoved(s, t, s') && ReferenceMove(s, t, s') && ShareMove(s, t, s')
    requires |s.heap| <= |s'.heap|
    ensures EntriesSound(s')
  {
    SharedKept(s, t, s');
    EntriesReferencedKept(s, t, s');
  }

  lemma StepKeepsEntries(s: State, e: Event)
    requires CreateLockExclusive(s) && EntriesSound(s) && RefCountsExact(s)
    requires MoverOk(s, e.thread) && Enabled(s, e) && OnlyMoved(s, e.thread, Next(s, e))
    ensures EntriesSound(Next(s, e))
  {
    if e.action.Advance? && At(s, e.thread, Remove) {
      NextAtRemove(s, e);
      RemoveKeepsEntries(s, e.thread, Next(s, e));
    } else if e.action.Advance? && At(s, e.thread, Store) {
      NextAtStore(s, e);
      ReferencesMoveSoundly(s, e);
      StoreKeepsEntries(s, e.thread, Next(s, e));
    } else {
      ReferencesMoveSoundly(s, e);
      SharesMoveSoundly(s, e);
      HeapGrows(s, e);
      OthersKeepEntries(s, e.thread, Next(s, e));
    }
  }

  /** The main step lemma: whichever thread moves, the invariant survives. */
  lemma StepKeepsInv(s: State, e: Event)
    requires Inv(s) && Enabled(s, e)
    ensures Inv(Next(s, e))
  {
    var s' := Next(s, e);
    var t := e.thread;
    MoverIsOk(s, t);
    OthersStay(s, e);
    CreateLockMovesSoundly(s, e);
    OrdersMoveSoundly(s, e);
    MutexesMoveSoundly(s, e);
    CountsMoveSoundly(s, e);
    CreateLockKept(s, t, s');
    RefCountsKept(s, t, s');
    MutexKept(s, t, s');
    CreditsKept(s, t, s');
    StepKeepsEntries(s, e);
  }

  // ------------------------------------------------------------ whole runs

  lemma InitHolds(pending: set<TradeNo>)
    ensures Inv(Init(pending))
  {
    var s := Init(pending);
    assert forall t :: Loc(s, t).pc == Idle;
  }

  lemma {:induction false} RunKeepsInv(s: State, events: seq<Event>, s': State)
    requires Inv(s) && Run(s, events, s')
    ensures Inv(s')
    decreases |events|
  {
    if events != [] {
      StepKeepsInv(s, events[0]);
      RunKeepsInv(Next(s, events[0]), events[1..], s');
    }
  }

  /** Safety, in terms of what callers see.  In every reachable state: at most one
      thread is inside the critical section of an order; all threads in flight for
      an order share the one mutex the map holds; its `refCount` is the number of
      threads between increment and decrement; the unguarded `Load` of `UnlockOrder`
      finds the very mutex that thread locked; and no `Unlock` hits a free mutex. */
  lemma OrderLockSafety(pending: set<TradeNo>, events: seq<Event>, s: State)
    requires Run(Init(pending), events, s)
    ensures forall t, u :: Holding(Loc(s, t).pc) && Holding(Loc(s, u).pc) && Loc(s, t).trade == Loc(s, u).trade ==> t == u
    ensures forall t :: Refers(Loc(s, t).pc) ==>
                          Loc(s, t).trade in s.orderLocks && s.orderLocks[Loc(s, t).trade] == Loc(s, t).rcm
    ensures forall n | n in s.orderLocks ::
              s.orderLocks[n] < |s.heap|
              && s.heap[s.orderLocks[n]].refCount
                 == |set t | t in s.threads && Counted(s.threads[t].pc) && s.threads[t].trade == n|
    ensures forall t :: Loc(s, t).pc.UnlockMutex? ==>
                          Loc(s, t).loaded == Loc(s, t).rcm < |s.heap| && s.heap[Loc(s, t).loaded].locked
    ensures forall t :: Loc(s, t).pc.Release? || Loc(s, t).pc.Rerelease? ==> s.createLocked
    ensures !s.fault
  {
    InitHolds(pending);
    RunKeepsInv(Init(pending), events, s);
    forall n | n in s.orderLocks
      ensures s.heap[s.orderLocks[n]].refCount == |set t | t in s.threads && Counted(s.threads[t].pc) && s.threads[t].trade == n|
    {
      CountedByTrade(s, n);
    }
  }

  /** Counting the threads of an order by trade number or by mutex is the same. */
  lemma CountedByTrade(s: State, n: TradeNo)
    requires EntriesShared(s) && EntriesDistinct(s) && n in s.orderLocks
    ensures Holders(s, s.orderLocks[n]) == set t | t in s.threads && Counted(s.threads[t].pc) && s.threads[t].trade == n
  {
    forall t | t in s.threads && Counted(s.threads[t].pc)
      ensures s.threads[t].trade == n <==> s.threads[t].rcm == s.orderLocks[n]
    {
      assert Refers(Loc(s, t).pc);
    }
  }

  /** No leak: an order is in the map exactly while some thread refers to it. */
  lemma EntryIffReferenced(pending: set<TradeNo>, events: seq<Event>, s: State, n: TradeNo)
    requires Run(Init(pending), events, s)
    ensures n in s.orderLocks <==> exists t :: Refers(Loc(s, t).pc) && Loc(s, t).trade == n
  {
    InitHolds(pending);
    RunKeepsInv(Init(pending), events, s);
  }

  /** The purpose of the lock: however webhooks for an order are repeated and interleaved,
      it is credited at most once, and it is always pending, credited or ended, and never
      two of these.  Reading the status and writing it are separate steps here, so it is
      the lock that keeps them together; the database repeats the check in its transaction. */
  lemma CreditedAtMostOnce(pending: set<TradeNo>, events: seq<Event>, s: State, n: TradeNo)
    requires Run(Init(pending), events, s)
    ensures s.credits[n] <= 1
    ensures n in pending <==> n in s.pending || n in s.credits || n in s.ended
    ensures !(n in s.pending && n in s.credits) && !(n in s.pending && n in s.ended) && !(n in s.credits && n in s.ended)
  {
    InitHolds(pending);
    RunKeepsInv(Init(pending), events, s);
    RunMovesOrders(Init(pending), events, s);
    assert Known(s, n) <==> Known(Init(pending), n);
  }

  predicate Known(s: State, n: TradeNo) {
    n in s.pending || n in s.credits || n in s.ended
  }

  /** No order is lost, and no status but pending is ever left. */
  lemma {:induction false} RunMovesOrders(s: State, events: seq<Event>, s': State)
    requires Inv(s) && Run(s, events, s')
    ensures forall n :: Known(s', n) <==> Known(s, n)
    ensures s.credits <= s'.credits && s.ended <= s'.ended && s'.pending <= s.pending
    decreases |events|
  {
    if events != [] {
      StepKeepsInv(s, events[0]);
      MoverIsOk(s, events[0].thread);
      OrdersMoveSoundly(s, events[0]);
      assert forall n :: Known(Next(s, events[0]), n) <==> Known(s, n);
      RunMovesOrders(Next(s, events[0]), events[1..], s');
    }
  }

  /** A webhook for `n` takes its decision `o` while `n` is pending. */
  predicate Decides(s: State, e: Event, n: TradeNo, o: Outcome) {
    e.action == Advance(o) && Loc(s, e.thread).pc.Settle? && Loc(s, e.thread).trade == n && n in s.pending
  }

  /** Somewhere along a run such a decision is taken. */
  ghost predicate Decided(s: State, events: seq<Event>, n: TradeNo, o: Outcome)
    decreases |events|
  {
    events != [] && Enabled(s, events[0]) && (Decides(s, events[0], n, o) || Decided(Next(s, events[0]), events[1..], n, o))
  }

  predicate SameOrders(s: State, s': State) {
    s'.pending == s.pending && s'.credits == s.credits && s'.ended == s.ended
  }

  lemma OrdersStay(s: State, e: Event)
    requires Enabled(s, e) && !(e.action.Advance? && At(s, e.thread, Settle))
    ensures SameOrders(s, Next(s, e))
  {
  }

  lemma NextAtSettle(s: State, e: Event)
    requires Enabled(s, e) && e.action.Advance? && At(s, e.thread, Settle)
    ensures Next(s, e) == DoSettle(s, e.thread, e.action.outcome)
  {
  }

  lemma StepDecides(s: State, e: Event, n: TradeNo)
    requires CreditsSound(s) && Enabled(s, e)
    ensures n in Next(s, e).credits <==> n in s.credits || Decides(s, e, n, Credit)
    ensures n in Next(s, e).ended <==> n in s.ended || Decides(s, e, n, End)
    ensures n in Next(s, e).pending <==> n in s.pending && !Decides(s, e, n, Credit) && !Decides(s, e, n, End)
  {
    if e.action.Advance? && At(s, e.thread, Settle) {
      NextAtSettle(s, e);
      assert Loc(s, e.thread) == s.threads[e.thread];
    } else {
      OrdersStay(s, e);
    }
  }

  lemma {:induction false} RunDecides(s: State, events: seq<Event>, s': State, n: TradeNo)
    requires Inv(s) && Run(s, events, s')
    ensures n in s'.credits <==> n in s.credits || Decided(s, events, n, Credit)
    ensures n in s'.ended <==> n in s.ended || Decided(s, events, n, End)
    ensures n in s'.pending <==> n in s.pending && !Decided(s, events, n, Credit) && !Decided(s, events, n, End)
    decreases |events|
  {
    if events != [] {
      StepDecides(s, events[0], n);
      StepKeepsInv(s, events[0]);
      RunDecides(Next(s, events[0]), events[1..], s', n);
    }
  }

  /** Over every run an order is credited exactly when a webhook for it decided to credit it
      while it was pending, ended exactly when one decided to end it, and left pending
      exactly when neither happened. */
  lemma StatusIsDecided(pending: set<TradeNo>, events: seq<Event>, s: State, n: TradeNo)
    requires Run(Init(pending), events, s)
    ensures n in s.credits <==> Decided(Init(pending), events, n, Credit)
    ensures n in s.ended <==> Decided(Init(pending), events, n, End)
    ensures n in s.pending <==> n in pending && !Decided(Init(pending), events, n, Credit) && !Decided(Init(pending), events, n, End)
  {
    InitHolds(pending);
    RunDecides(Init(pending), events, s, n);
  }

  // --------------------------------------------------------------- progress

  lemma CanMove(s: State, t: Thread)
    requires MoverOk(s, t)
    requires var me := Loc(s, t);
             || InCreate(me.pc) || Holding(me.pc)
             || ((me.pc.Acquire? || me.pc.Reacquire?) && !s.createLocked)
             || (me.pc.LockMutex? && !s.heap[me.rcm].locked)
    ensures Enabled(s, Event(t, Advance(Leave)))
  {
  }

  /** No deadlock: while any webhook is unfinished, some unfinished one can move. */
  lemma Progress(s: State)
    requires Inv(s)
    requires exists t :: !Loc(s, t).pc.Idle?
    ensures exists t :: Enabled(s, Event(t, Advance(Leave)))
  {
    var u :| !Loc(s, u).pc.Idle?;
    if c :| InCreate(Loc(s, c).pc) {
      MoverIsOk(s, c);
      CanMove(s, c);
    } else if h :| Holding(Loc(s, h).pc) {
      MoverIsOk(s, h);
      CanMove(s, h);
    } else {
      assert Loc(s, u).pc.Acquire? || Loc(s, u).pc.Reacquire? || Loc(s, u).pc.LockMutex?;
      MoverIsOk(s, u);
      CanMove(s, u);
    }
  }

  /** Actions a thread still has to take before it is idle. */
  function Remaining(pc: PC): nat {
    match pc
    case Idle => 0
    case Rerelease => 1
    case Remove => 2
    case Decrement => 3
    case Reacquire => 4
    case UnlockMutex => 5
    case Reload => 6
    case Settle => 7
    case Check => 8
    case LockMutex => 9
    case Release => 10
    case Increment => 11
    case Store => 12
    case Load => 13
    case Acquire => 14
  }

  ghost function Work(s: State, ts: set<Thread>): nat {
    if ts == {} then 0
    else
      var t :| t in ts;
      Remaining(Loc(s, t).pc) + Work(s, ts - {t})
  }

  lemma {:induction false} WorkSplit(s: State, ts: set<Thread>, t: Thread)
    requires t in ts
    ensures Work(s, ts) == Remaining(Loc(s, t).pc) + Work(s, ts - {t})
    decreases ts
  {
    var u :| u in ts && Work(s, ts) == Remaining(Loc(s, u).pc) + Work(s, ts - {u});
    if u != t {
      WorkSplit(s, ts - {u}, t);
      WorkSplit(s, ts - {t}, u);
      assert ts - {u} - {t} == ts - {t} - {u};
    }
  }

  lemma {:induction false} WorkUnchanged(s: State, s': State, ts: set<Thread>)
    requires forall t | t in ts :: Loc(s', t) == Loc(s, t)
    ensures Work(s', ts) == Work(s, ts)
    decreases ts
  {
    if ts != {} {
      var t :| t in ts;
      WorkSplit(s, ts, t);
      WorkSplit(s', ts, t);
      WorkUnchanged(s, s', ts - {t});
    }
  }

  lemma {:induction false} WorkBound(s: State, ts: set<Thread>)
    ensures Work(s, ts) <= 14 * |ts|
    decreases ts
  {
    if ts != {} {
      var t :| t in ts;
      WorkSplit(s, ts, t);
      WorkBound(s, ts - {t});
    }
  }

  lemma AdvanceDoesWork(s: State, e: Event)
    requires MoverOk(s, e.thread) && Enabled(s, e) && e.action.Advance?
    ensures Remaining(Loc(Next(s, e), e.thread).pc) < Remaining(Loc(s, e.thread).pc)
  {
  }

  lemma ThreadsStay(s: State, e: Event)
    requires Enabled(s, e) && e.action.Advance?
    ensures e.thread in s.threads && Next(s, e).threads.Keys == s.threads.Keys
  {
  }

  /** A run without new webhooks is no longer than the work outstanding at its start. */
  lemma {:induction false} DrainIsBounded(s: State, events: seq<Event>, s': State)
    requires Inv(s) && Run(s, events, s')
    requires forall i | 0 <= i < |events| :: events[i].action.Advance?
    ensures |events| + Work(s', s.threads.Keys) <= Work(s, s.threads.Keys)
    ensures s'.threads.Keys == s.threads.Keys
    decreases |events|
  {
    if events != [] {
      var e := events[0];
      var t := e.thread;
      var m := Next(s, e);
      MoverIsOk(s, t);
      OthersStay(s, e);
      AdvanceDoesWork(s, e);
      ThreadsStay(s, e);
      StepKeepsInv(s, e);
      WorkSplit(s, s.threads.Keys, t);
      WorkSplit(m, s.threads.Keys, t);
      WorkUnchanged(s, m, s.threads.Keys - {t});
      DrainIsBounded(m, events[1..], s');
    }
  }

  /** Progress and no leak together: once no new webhook starts, every run ends
      after at most 14 actions per thread, and where it cannot continue all
      threads are idle, the map is empty, and every lock is free. */
  lemma {:induction false} EveryRunDrains(pending: set<TradeNo>, before: seq<Event>, s: State, events: seq<Event>, s': State)
    requires Run(Init(pending), before, s) && Run(s, events, s')
    requires forall i | 0 <= i < |events| :: events[i].action.Advance?
    ensures |events| <= 14 * |s.threads|
    ensures (forall t :: !Enabled(s', Event(t, Advance(Leave)))) ==>
              && (forall t :: Loc(s', t).pc.Idle?)
              && s'.orderLocks == map[] && !s'.createLocked
              && forall id | 0 <= id < |s'.heap| :: s'.heap[id] == RefCountedMutex(false, 0)
  {
    InitHolds(pending);
    RunKeepsInv(Init(pending), before, s);
    RunKeepsInv(s, events, s');
    DrainIsBounded(s, events, s');
    WorkBound(s, s.threads.Keys);
    if forall t :: !Enabled(s', Event(t, Advance(Leave))) {
      if exists t :: !Loc(s', t).pc.Idle? {
        Progress(s');
      }
      QuiescentIsClean(s');
    }
  }

  lemma QuiescentIsClean(s: State)
    requires Inv(s) && forall t :: Loc(s, t).pc.Idle?
    ensures s.orderLocks == map[] && !s.createLocked
    ensures forall id | 0 <= id < |s.heap| :: s.heap[id] == RefCountedMutex(false, 0)
  {
    forall id | 0 <= id < |s.heap| ensures s.heap[id] == RefCountedMutex(false, 0) {
      assert forall t | t in Holders(s, id) :: Counted(Loc(s, t).pc);
      assert Holders(s, id) == {};
    }
    assert s.orderLocks.Keys == {};
  }

  // ------------------------------------------------------ one webhook alone

  /** What one webhook makes of the order table. */
  predicate Made(s: State, n: TradeNo, o: Outcome, s': State) {
    match o
    case Credit => s'.pending == s.pending - {n} && s'.credits == s.credits + multiset{n} && s'.ended == s.ended
    case End => s'.pending == s.pending - {n} && s'.credits == s.credits && s'.ended == s.ended + {n}
    case Leave => s'.pending == s.pending && s'.credits == s.credits && s'.ended == s.ended
  }

  predicate BeforeSettling(pc: PC) {
    pc.Acquire? || pc.Load? || pc.Store? || pc.Increment? || pc.Release? || pc.LockMutex? || pc.Check? || pc.Settle?
  }

  /** Where a webhook for `n` stands that started from `s` and runs alone. */
  predicate Underway(s: State, t: Thread, n: TradeNo, o: Outcome, s': State) {
    && Loc(s', t).trade == n
    && Made(s, n, if BeforeSettling(Loc(s', t).pc) then Leave else o, s')
    && (Loc(s', t).pc.Settle? ==> Loc(s', t).sawPending)
  }

  lemma StaysOnItsSide(s: State, e: Event)
    requires Enabled(s, e) && e.action.Advance? && !At(s, e.thread, Settle)
    ensures BeforeSettling(Loc(Next(s, e), e.thread).pc) <==> BeforeSettling(Loc(s, e.thread).pc)
  {
  }

  lemma KeepsItsOrder(s: State, e: Event)
    requires Enabled(s, e) && e.action.Advance?
    ensures Loc(Next(s, e), e.thread).trade == Loc(s, e.thread).trade
  {
  }

  lemma SeesTheStatus(s: State, e: Event)
    requires Enabled(s, e) && e.action.Advance? && !At(s, e.thread, Settle)
    ensures var me' := Loc(Next(s, e), e.thread);
            me'.pc.Settle? ==> (me'.sawPending <==> Loc(s, e.thread).trade in s.pending)
  {
  }

  lemma StepsOn(s: State, t: Thread, n: TradeNo, o: Outcome, s': State)
    requires n in s.pending && Underway(s, t, n, o, s') && Enabled(s', Event(t, Advance(o)))
    ensures Underway(s, t, n, o, Next(s', Event(t, Advance(o))))
  {
    var e := Event(t, Advance(o));
    if At(s', t, Settle) {
      NextAtSettle(s', e);
      assert Loc(s', t) == s'.threads[t];
    } else {
      OrdersStay(s', e);
      StaysOnItsSide(s', e);
      SeesTheStatus(s', e);
    }
    KeepsItsOrder(s', e);
  }

  lemma {:induction false} LoneRun(s: State, t: Thread, n: TradeNo, o: Outcome, m: State, events: seq<Event>, s': State)
    requires n in s.pending && Underway(s, t, n, o, m) && Run(m, events, s')
    requires forall i | 0 <= i < |events| :: events[i] == Event(t, Advance(o))
    ensures Underway(s, t, n, o, s')
    decreases |events|
  {
    if events != [] {
      assert events[0] == Event(t, Advance(o));
      StepsOn(s, t, n, o, m);
      LoneRun(s, t, n, o, Next(m, events[0]), events[1..], s');
    }
  }

  /** A webhook for a pending order that runs alone to its end does exactly what it decides:
      it credits the order once, ends it, or leaves it pending, and touches no other order. */
  lemma LoneWebhookDecides(s: State, t: Thread, n: TradeNo, o: Outcome, events: seq<Event>, s': State)
    requires IsIdle(s, t) && n in s.pending && Run(Next(s, Event(t, Begin(n))), events, s') && Loc(s', t).pc.Idle?
    requires forall i | 0 <= i < |events| :: events[i] == Event(t, Advance(o))
    ensures Made(s, n, o, s')
  {
    LoneRun(s, t, n, o, Next(s, Event(t, Begin(n))), events, s');
  }

  /** And it does come to its end. */
  lemma {:induction false} LoneWebhookEnds(s: State, t: Thread, o: Outcome) returns (events: seq<Event>, s': State)
    requires Inv(s) && forall u | u != t :: Loc(s, u).pc.Idle?
    ensures Run(s, events, s') && Loc(s', t).pc.Idle? && forall i | 0 <= i < |events| :: events[i] == Event(t, Advance(o))
    decreases Remaining(Loc(s, t).pc)
  {
    if Loc(s, t).pc.Idle? {
      events, s' := [], s;
    } else {
      var e := Event(t, Advance(o));
      OnlyOneCanMove(s, t, o);
      MoverIsOk(s, t);
      OthersStay(s, e);
      AdvanceDoesWork(s, e);
      StepKeepsInv(s, e);
      var rest;
      rest, s' := LoneWebhookEnds(Next(s, e), t, o);
      events := [e] + rest;
      assert events[1..] == rest;
    }
  }

  lemma OnlyOneCanMove(s: State, t: Thread, o: Outcome)
    requires Inv(s) && !Loc(s, t).pc.Idle? && forall u | u != t :: Loc(s, u).pc.Idle?
    ensures Enabled(s, Event(t, Advance(o)))
  {
    Progress(s);
    var u :| Enabled(s, Event(u, Advance(Leave)));
    assert !Loc(s, u).pc.Idle?;
    assert u == t;
  }
}
