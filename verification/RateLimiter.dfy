/**
 The sliding-window rate limiter of common/rate-limit.go. Each key keeps a queue
 of at most `max` admission times, and a background sweep drops idle keys. The
 reference is a limiter that keeps the whole admission log and counts.
 */
module RateLimiter {

  /** At most `max` admissions in any `duration` seconds. */
  datatype Limit = Limit(max: int, duration: int)

  type Store = map<string, seq<int>>

  function Queue(store: Store, key: string): seq<int> {
    if key in store then store[key] else []
  }

  /** Admission against a queue: grow it while it is short, else slide it if its oldest entry has left the window. */
  predicate Admits(q: seq<int>, limit: Limit, now: int) {
    |q| < limit.max || q == [] || now - q[0] >= limit.duration
  }

  function Pushed(q: seq<int>, limit: Limit, now: int): seq<int> {
    if |q| < limit.max || q == [] then q + [now] else q[1..] + [now]
  }

  predicate Idle(q: seq<int>, expiration: int, now: int) {
    q == [] || now - q[|q| - 1] > expiration
  }

  function Swept(store: Store, expiration: int, now: int): Store {
    map k | k in store && !Idle(store[k], expiration, now) :: store[k]
  }

  class InMemoryRateLimiter {
    const expiration: int
    var store: Store

    constructor (expiration: int)
      ensures this.expiration == expiration && store == map[]
    {
      this.expiration := expiration;
      store := map[];
    }

    /** No queue in the store is ever empty. */
    ghost predicate Valid()
      reads this
    {
      forall k :: k in store ==> store[k] != []
    }

    method Request(key: string, limit: Limit, now: int) returns (ok: bool)
      requires Valid()
      modifies this
      ensures Valid()
      ensures ok == Admits(Queue(old(store), key), limit, now)
      ensures store == if ok then old(store)[key := Pushed(Queue(old(store), key), limit, now)] else old(store)
    {
      if key in store {
        var queue := store[key];
        if |queue| < limit.max {
          store := store[key := queue + [now]];
          return true;
        } else if now - queue[0] >= limit.duration {
          queue := queue[1..];
          store := store[key := queue + [now]];
          return true;
        } else {
          return false;
        }
      }
      assert [] + [now] == [now];
      store := store[key := [now]];
      return true;
    }

    method ClearExpired(now: int)
      requires Valid()
      modifies this
      ensures Valid()
      ensures store == Swept(old(store), expiration, now)
      ensures forall k :: k in store <==>
                && k in old(store)
                && now - old(store)[k][|old(store)[k]| - 1] <= expiration
      ensures forall k :: k in store ==> store[k] == old(store)[k]
    {
      var keys := store.Keys;
      while keys != {}
        invariant keys <= old(store).Keys
        invariant store == map k | k in old(store) && (k in keys || !Idle(old(store)[k], expiration, now)) ::
                    old(store)[k]
        decreases |keys|
      {
        var k :| k in keys;
        keys := keys - {k};
        var queue := store[k];
        if |queue| == 0 || now - queue[|queue| - 1] > expiration {
          store := store - {k};
        }
      }
    }
  }

  // ----- Runs ------------------------------------------------------------------

  datatype Event = Request(key: string, now: int) | Sweep(now: int)

  /** What the limiter holds and has answered after some events. */
  datatype Trace = Trace(store: Store, answers: seq<bool>)

  /** What the reference holds and has answered: every admission ever made, per key. */
  datatype Reference = Reference(log: Store, answers: seq<bool>)

  function LimitedStep(limits: string -> Limit, expiration: int, t: Trace, e: Event): Trace {
    match e
    case Request(k, now) =>
      var q := Queue(t.store, k);
      if Admits(q, limits(k), now) then Trace(t.store[k := Pushed(q, limits(k), now)], t.answers + [true])
      else Trace(t.store, t.answers + [false])
    case Sweep(now) => Trace(Swept(t.store, expiration, now), t.answers)
  }

  function Limited(limits: string -> Limit, expiration: int, events: seq<Event>): Trace {
    if events == [] then Trace(map[], [])
    else LimitedStep(limits, expiration, Limited(limits, expiration, events[..|events| - 1]), events[|events| - 1])
  }

  lemma LimitedSnoc(limits: string -> Limit, expiration: int, init: seq<Event>, e: Event)
    ensures Limited(limits, expiration, init + [e])
              == LimitedStep(limits, expiration, Limited(limits, expiration, init), e)
    ensures Counted(limits, init + [e]) == CountedStep(limits, Counted(limits, init), e)
  {
    assert (init + [e])[..|init|] == init;
  }

  /** How many logged admissions lie in the last `duration` seconds. */
  function InWindow(log: seq<int>, duration: int, now: int): nat {
    if log == [] then 0
    else InWindow(log[..|log| - 1], duration, now) + if now - log[|log| - 1] < duration then 1 else 0
  }

  function CountedStep(limits: string -> Limit, r: Reference, e: Event): Reference {
    match e
    case Request(k, now) =>
      var log := Queue(r.log, k);
      if InWindow(log, limits(k).duration, now) < limits(k).max
      then Reference(r.log[k := log + [now]], r.answers + [true])
      else Reference(r.log, r.answers + [false])
    case Sweep(_) => r
  }

  function Counted(limits: string -> Limit, events: seq<Event>): Reference {
    if events == [] then Reference(map[], [])
    else CountedStep(limits, Counted(limits, events[..|events| - 1]), events[|events| - 1])
  }

  /** The positions of the admissions that are less than `duration` seconds old. */
  function Recent(log: seq<int>, duration: int, now: int): set<int> {
    set i | 0 <= i < |log| && log[i] > now - duration
  }

  /** The reference counts them. */
  lemma {:induction false} InWindowIsSize(log: seq<int>, duration: int, now: int)
    ensures InWindow(log, duration, now) == |Recent(log, duration, now)|
  {
    if log != [] {
      var last := |log| - 1;
      InWindowIsSize(log[..last], duration, now);
      assert Recent(log, duration, now) ==
             Recent(log[..last], duration, now) + if log[last] > now - duration then {last} else {};
    }
  }

  /** What the reference does with a request: it admits and logs it exactly when there is room in the window. */
  lemma ReferenceStep(limits: string -> Limit, events: seq<Event>, key: string, now: int)
    ensures var before, after := Counted(limits, events), Counted(limits, events + [Request(key, now)]);
            var room := |Recent(Queue(before.log, key), limits(key).duration, now)| < limits(key).max;
            && after.answers == before.answers + [room]
            && after.log == if room then before.log[key := Queue(before.log, key) + [now]] else before.log
  {
    assert (events + [Request(key, now)])[..|events|] == events;
    InWindowIsSize(Queue(Counted(limits, events).log, key), limits(key).duration, now);
  }

  ghost predicate InTimeOrder(events: seq<Event>) {
    forall i, j :: 0 <= i < j < |events| ==> events[i].now <= events[j].now
  }

  /** Sweeps run only when there is an expiration. */
  ghost predicate Possible(expiration: int, events: seq<Event>) {
    forall i :: 0 <= i < |events| && events[i].Sweep? ==> expiration > 0
  }

  /** The limit allows something, and its window is over before an idle key is dropped. */
  predicate Sensible(limit: Limit, expiration: int) {
    limit.max >= 1 && (expiration > 0 ==> limit.duration <= expiration + 1)
  }

  // ----- Queue and log agree ---------------------------------------------------

  ghost predicate Sorted(log: seq<int>) {
    forall i, j :: 0 <= i < j < |log| ==> log[i] <= log[j]
  }

  /**
   The queue is the end of the log. Either it is full, or everything before it has left the
   window for good.
   */
  ghost predicate Agree(q: seq<int>, log: seq<int>, limit: Limit, now: int) {
    && Sorted(log) && (forall i :: 0 <= i < |log| ==> log[i] <= now)
    && |q| <= |log| && (forall i :: 0 <= i < |q| ==> q[i] == log[|log| - |q| + i])
    && |q| <= limit.max
    && (|q| < limit.max ==> forall i :: 0 <= i < |log| - |q| ==> now - log[i] >= limit.duration)
  }

  lemma {:induction false} InWindowConcat(a: seq<int>, b: seq<int>, duration: int, now: int)
    ensures InWindow(a + b, duration, now) == InWindow(a, duration, now) + InWindow(b, duration, now)
  {
    if b == [] {
      assert a + b == a;
    } else {
      assert (a + b)[..|a + b| - 1] == a + b[..|b| - 1];
      InWindowConcat(a, b[..|b| - 1], duration, now);
    }
  }

  ghost predicate AllOutside(log: seq<int>, duration: int, now: int) {
    forall i :: 0 <= i < |log| ==> now - log[i] >= duration
  }

  ghost predicate AllInside(log: seq<int>, duration: int, now: int) {
    forall i :: 0 <= i < |log| ==> now - log[i] < duration
  }

  lemma {:induction false} InWindowBounds(log: seq<int>, duration: int, now: int)
    ensures InWindow(log, duration, now) <= |log|
    ensures AllOutside(log, duration, now) ==> InWindow(log, duration, now) == 0
    ensures AllInside(log, duration, now) ==> InWindow(log, duration, now) == |log|
  {
    if log != [] {
      InWindowBounds(log[..|log| - 1], duration, now);
    }
  }

  /** The log splits into what the queue has forgotten and the queue. */
  lemma InWindowSplit(q: seq<int>, log: seq<int>, limit: Limit, now: int)
    requires Agree(q, log, limit, now)
    ensures var older := log[..|log| - |q|];
            log == older + q
            && InWindow(log, limit.duration, now)
                == InWindow(older, limit.duration, now) + InWindow(q, limit.duration, now)
  {
    var older := log[..|log| - |q|];
    assert log == older + q;
    InWindowConcat(older, q, limit.duration, now);
  }

  lemma FullQueueBlocks(q: seq<int>, log: seq<int>, limit: Limit, now: int)
    requires Agree(q, log, limit, now) && q != [] && now - q[0] < limit.duration
    ensures InWindow(q, limit.duration, now) == |q|
  {
    forall i | 0 <= i < |q|
      ensures now - q[i] < limit.duration
    {
      var start := |log| - |q|;
      assert q[i] == log[start + i] && q[0] == log[start];
    }
    InWindowBounds(q, limit.duration, now);
  }

  /** The queue alone decides as the whole log would. */
  lemma SameDecision(q: seq<int>, log: seq<int>, limit: Limit, now: int)
    requires limit.max >= 1 && Agree(q, log, limit, now)
    ensures Admits(q, limit, now) <==> InWindow(log, limit.duration, now) < limit.max
  {
    InWindowSplit(q, log, limit, now);
    var older := log[..|log| - |q|];
    if |q| < limit.max {
      InWindowBounds(older, limit.duration, now);
      InWindowBounds(q, limit.duration, now);
    } else if now - q[0] < limit.duration {
      FullQueueBlocks(q, log, limit, now);
    } else {
      FullQueueSlides(q, older, limit, now);
    }
  }

  /** When the oldest entry of a full queue has left the window, the window has room for one more. */
  lemma FullQueueSlides(q: seq<int>, older: seq<int>, limit: Limit, now: int)
    requires q != [] && Sorted(older + q) && now - q[0] >= limit.duration
    ensures InWindow(older + q, limit.duration, now) < |q|
  {
    var gone, rest := older + [q[0]], q[1..];
    assert older + q == gone + rest;
    InWindowConcat(gone, rest, limit.duration, now);
    assert AllOutside(gone, limit.duration, now) by {
      forall i | 0 <= i < |gone|
        ensures now - gone[i] >= limit.duration
      {
        assert (older + q)[i] == gone[i] && (older + q)[|older|] == q[0];
      }
    }
    InWindowBounds(gone, limit.duration, now);
    InWindowBounds(rest, limit.duration, now);
  }

  lemma AgreeLater(q: seq<int>, log: seq<int>, limit: Limit, now: int, later: int)
    requires Agree(q, log, limit, now) && now <= later
    ensures Agree(q, log, limit, later)
  {
  }

  lemma AgreeAfterPush(q: seq<int>, log: seq<int>, limit: Limit, now: int)
    requires limit.max >= 1 && Agree(q, log, limit, now) && Admits(q, limit, now)
    ensures Agree(Pushed(q, limit, now), log + [now], limit, now)
  {
    var q', log' := Pushed(q, limit, now), log + [now];
    assert forall i :: 0 <= i < |log| ==> log'[i] == log[i];
    assert forall i :: 0 <= i < |q'| ==> q'[i] == log'[|log'| - |q'| + i];
  }

  lemma AgreeAfterSweep(q: seq<int>, log: seq<int>, limit: Limit, expiration: int, now: int)
    requires Agree(q, log, limit, now) && Sensible(limit, expiration) && expiration > 0 && Idle(q, expiration, now)
    ensures Agree([], log, limit, now)
  {
    if q != [] {
      assert q[|q| - 1] == log[|log| - 1];
    }
  }

  ghost predicate AllAgree(limits: string -> Limit, expiration: int, store: Store, log: Store, now: int) {
    forall k :: Sensible(limits(k), expiration) ==> Agree(Queue(store, k), Queue(log, k), limits(k), now)
  }

  /** One key's queue and log after a request to it. */
  lemma RequestedKey(q: seq<int>, log: seq<int>, limit: Limit, now: int)
    requires limit.max >= 1 && Agree(q, log, limit, now)
    ensures var admitted := InWindow(log, limit.duration, now) < limit.max;
            && Admits(q, limit, now) == admitted
            && Agree(if admitted then Pushed(q, limit, now) else q, if admitted then log + [now] else log, limit, now)
  {
    SameDecision(q, log, limit, now);
    if Admits(q, limit, now) {
      AgreeAfterPush(q, log, limit, now);
    }
  }

  lemma RequestAgrees(limits: string -> Limit, expiration: int, t: Trace, r: Reference, e: Event)
    requires e.Request? && AllAgree(limits, expiration, t.store, r.log, e.now) && t.answers == r.answers
    requires Sensible(limits(e.key), expiration)
    ensures var t', r' := LimitedStep(limits, expiration, t, e), CountedStep(limits, r, e);
            t'.answers == r'.answers && AllAgree(limits, expiration, t'.store, r'.log, e.now)
  {
    var t', r' := LimitedStep(limits, expiration, t, e), CountedStep(limits, r, e);
    RequestedKey(Queue(t.store, e.key), Queue(r.log, e.key), limits(e.key), e.now);
    forall k | Sensible(limits(k), expiration)
      ensures Agree(Queue(t'.store, k), Queue(r'.log, k), limits(k), e.now)
    {
      if k != e.key {
        assert Queue(t'.store, k) == Queue(t.store, k) && Queue(r'.log, k) == Queue(r.log, k);
      }
    }
  }

  lemma StepAgrees(limits: string -> Limit, expiration: int, t: Trace, r: Reference, e: Event)
    requires AllAgree(limits, expiration, t.store, r.log, e.now) && t.answers == r.answers
    requires if e.Request? then Sensible(limits(e.key), expiration) else expiration > 0
    ensures var t', r' := LimitedStep(limits, expiration, t, e), CountedStep(limits, r, e);
            t'.answers == r'.answers && AllAgree(limits, expiration, t'.store, r'.log, e.now)
  {
    if e.Request? {
      RequestAgrees(limits, expiration, t, r, e);
    } else {
      var t', r' := LimitedStep(limits, expiration, t, e), CountedStep(limits, r, e);
      forall k | Sensible(limits(k), expiration)
        ensures Agree(Queue(t'.store, k), Queue(r'.log, k), limits(k), e.now)
      {
        if Idle(Queue(t.store, k), expiration, e.now) {
          AgreeAfterSweep(Queue(t.store, k), Queue(r.log, k), limits(k), expiration, e.now);
        }
      }
    }
  }

  /** The hypotheses of exactness: time moves forward, and every request carries a sensible limit. */
  ghost predicate GoodRun(limits: string -> Limit, expiration: int, events: seq<Event>) {
    && InTimeOrder(events) && Possible(expiration, events)
    && forall i :: 0 <= i < |events| && events[i].Request? ==> Sensible(limits(events[i].key), expiration)
  }

  lemma {:induction false} RunsAgree(limits: string -> Limit, expiration: int, events: seq<Event>, now: int)
    requires GoodRun(limits, expiration, events) && (events != [] ==> events[|events| - 1].now <= now)
    ensures Limited(limits, expiration, events).answers == Counted(limits, events).answers
    ensures AllAgree(limits, expiration, Limited(limits, expiration, events).store, Counted(limits, events).log, now)
    decreases |events|
  {
    if events != [] {
      var last := |events| - 1;
      var init, e := events[..last], events[last];
      RunsAgree(limits, expiration, init, e.now);
      StepAgrees(limits, expiration, Limited(limits, expiration, init), Counted(limits, init), e);
      var store, log := Limited(limits, expiration, events).store, Counted(limits, events).log;
      forall k | Sensible(limits(k), expiration)
        ensures Agree(Queue(store, k), Queue(log, k), limits(k), now)
      {
        AgreeLater(Queue(store, k), Queue(log, k), limits(k), e.now, now);
      }
    }
  }

  /** Every run of the limiter answers as the reference does: truncation and sweeping are invisible. */
  lemma LimiterIsExact(limits: string -> Limit, expiration: int, events: seq<Event>)
    requires GoodRun(limits, expiration, events)
    ensures Limited(limits, expiration, events).answers == Counted(limits, events).answers
  {
    RunsAgree(limits, expiration, events, if events == [] then 0 else events[|events| - 1].now);
  }

  /** A fresh limiter driven through a whole run of requests and sweeps gives the reference's answers. */
  method Serve(limiter: InMemoryRateLimiter, limits: string -> Limit, events: seq<Event>) returns (answers: seq<bool>)
    requires limiter.store == map[] && GoodRun(limits, limiter.expiration, events)
    modifies limiter
    ensures answers == Counted(limits, events).answers
  {
    answers := [];
    for i := 0 to |events|
      invariant limiter.Valid()
      invariant Trace(limiter.store, answers) == Limited(limits, limiter.expiration, events[..i])
    {
      assert events[..i + 1] == events[..i] + [events[i]];
      LimitedSnoc(limits, limiter.expiration, events[..i], events[i]);
      match events[i]
      case Request(key, now) =>
        var ok := limiter.Request(key, limits(key), now);
        answers := answers + [ok];
      case Sweep(now) =>
        limiter.ClearExpired(now);
    }
    assert events[..|events|] == events;
    LimiterIsExact(limits, limiter.expiration, events);
  }

  // ----- The hypotheses are needed ---------------------------------------------

  function Zeros(n: nat): seq<int> {
    if n == 0 then [] else Zeros(n - 1) + [0]
  }

  lemma {:induction false} ZerosAreZero(n: nat)
    ensures |Zeros(n)| == n && forall i :: 0 <= i < n ==> Zeros(n)[i] == 0
  {
    if n > 0 {
      ZerosAreZero(n - 1);
    }
  }

  /** A request at time 0 to a key whose earlier admissions were all at time 0, and not too many. */
  lemma FillStep(limits: string -> Limit, expiration: int, t: Trace, r: Reference, t': Trace, r': Reference,
                 key: string, n: nat)
    requires n < limits(key).max && Queue(t.store, key) == Zeros(n) == Queue(r.log, key)
    requires t' == LimitedStep(limits, expiration, t, Request(key, 0)) && r' == CountedStep(limits, r, Request(key, 0))
    ensures Queue(t'.store, key) == Zeros(n + 1) == Queue(r'.log, key)
    ensures |t'.answers| == |t.answers| + 1 && |r'.answers| == |r.answers| + 1
  {
    ZerosAreZero(n);
    InWindowBounds(Zeros(n), limits(key).duration, 0);
  }

  /** `n` requests at time 0 are all admitted and all remembered. */
  lemma {:induction false} Burst(limits: string -> Limit, expiration: int, key: string, n: nat)
    returns (events: seq<Event>)
    requires n <= limits(key).max
    ensures |events| == n && forall i :: 0 <= i < n ==> events[i] == Request(key, 0)
    ensures Queue(Limited(limits, expiration, events).store, key) == Zeros(n)
    ensures Queue(Counted(limits, events).log, key) == Zeros(n)
    ensures |Limited(limits, expiration, events).answers| == n == |Counted(limits, events).answers|
  {
    if n == 0 {
      events := [];
    } else {
      var init := Burst(limits, expiration, key, n - 1);
      events := init + [Request(key, 0)];
      LimitedSnoc(limits, expiration, init, Request(key, 0));
      FillStep(limits, expiration, Limited(limits, expiration, init), Counted(limits, init),
               Limited(limits, expiration, events), Counted(limits, events), key, n - 1);
    }
  }

  /** A sweep after the expiration drops the key, and the next request is let in although the window is full. */
  lemma ForgetStep(limits: string -> Limit, expiration: int, t: Trace, r: Reference, key: string)
    requires expiration > 0 && limits(key).max >= 1 && limits(key).duration > expiration + 1
    requires Queue(t.store, key) == Zeros(limits(key).max) == Queue(r.log, key) && |t.answers| == |r.answers|
    ensures var e, e' := Sweep(expiration + 1), Request(key, expiration + 1);
            LimitedStep(limits, expiration, LimitedStep(limits, expiration, t, e), e').answers
            != CountedStep(limits, CountedStep(limits, r, e), e').answers
  {
    var n := limits(key).max;
    ZerosAreZero(n);
    InWindowBounds(Zeros(n), limits(key).duration, expiration + 1);
    var t1 := LimitedStep(limits, expiration, t, Sweep(expiration + 1));
    assert key !in t1.store;
    var t2 := LimitedStep(limits, expiration, t1, Request(key, expiration + 1));
    var r2 := CountedStep(limits, r, Request(key, expiration + 1));
    assert t2.answers[|t.answers|] && !r2.answers[|t.answers|];
  }

  /** The run of a burst, a late sweep and a late request. */
  function LateRun(burst: seq<Event>, key: string, late: int): seq<Event> {
    burst + [Sweep(late)] + [Request(key, late)]
  }

  lemma LateRunIsGood(burst: seq<Event>, key: string, expiration: int)
    requires expiration > 0 && forall i :: 0 <= i < |burst| ==> burst[i] == Request(key, 0)
    ensures var events := LateRun(burst, key, expiration + 1);
            InTimeOrder(events) && Possible(expiration, events) && OnlyKey(events, key)
  {
  }

  lemma LateRunForgets(limits: string -> Limit, expiration: int, key: string, burst: seq<Event>)
    requires limits(key).max >= 1 && expiration > 0 && limits(key).duration > expiration + 1
    requires Queue(Limited(limits, expiration, burst).store, key) == Zeros(limits(key).max)
               == Queue(Counted(limits, burst).log, key)
    requires |Limited(limits, expiration, burst).answers| == |Counted(limits, burst).answers|
    ensures var events := LateRun(burst, key, expiration + 1);
            Limited(limits, expiration, events).answers != Counted(limits, events).answers
  {
    var late := expiration + 1;
    ForgetStep(limits, expiration, Limited(limits, expiration, burst), Counted(limits, burst), key);
    LimitedSnoc(limits, expiration, burst, Sweep(late));
    LimitedSnoc(limits, expiration, burst + [Sweep(late)], Request(key, late));
  }

  /** With a window longer than the expiration, a sweep forgets admissions that still count. */
  lemma SweepForgets(limits: string -> Limit, expiration: int, key: string) returns (events: seq<Event>)
    requires limits(key).max >= 1 && expiration > 0 && limits(key).duration > expiration + 1
    ensures InTimeOrder(events) && Possible(expiration, events) && OnlyKey(events, key)
    ensures Limited(limits, expiration, events).answers != Counted(limits, events).answers
  {
    var burst := Burst(limits, expiration, key, limits(key).max);
    LateRunIsGood(burst, key, expiration);
    LateRunForgets(limits, expiration, key, burst);
    events := LateRun(burst, key, expiration + 1);
  }

  /** A limit of zero still admits the first request of a key. */
  lemma ZeroLimitAdmits(limits: string -> Limit, expiration: int, key: string)
    requires limits(key).max <= 0
    ensures Limited(limits, expiration, [Request(key, 0)]).answers == [true]
    ensures Counted(limits, [Request(key, 0)]).answers == [false]
  {
    assert [Request(key, 0)][..0] == [];
  }

  /** The limiter is exact on every run of a key if and only if the key's limit is sensible. */
  lemma ExactIffSensible(limits: string -> Limit, expiration: int, key: string)
    ensures Sensible(limits(key), expiration) <==>
            forall events: seq<Event> ::
              InTimeOrder(events) && Possible(expiration, events) && OnlyKey(events, key) ==>
              Limited(limits, expiration, events).answers == Counted(limits, events).answers
  {
    if Sensible(limits(key), expiration) {
      forall events: seq<Event> | InTimeOrder(events) && Possible(expiration, events) && OnlyKey(events, key)
        ensures Limited(limits, expiration, events).answers == Counted(limits, events).answers
      {
        LimiterIsExact(limits, expiration, events);
      }
    } else if limits(key).max <= 0 {
      ZeroLimitAdmits(limits, expiration, key);
      assert OnlyKey([Request(key, 0)], key);
    } else {
      var events := SweepForgets(limits, expiration, key);
    }
  }

  ghost predicate OnlyKey(events: seq<Event>, key: string) {
    forall i :: 0 <= i < |events| && events[i].Request? ==> events[i].key == key
  }
}
