/**
 What the step-up session promises depends on which of the values it was sent a client presents.
 This module compares runs in which requests present arbitrary earlier values with a session of
 which only the newest value counts, and says exactly when the two cannot be told apart.
 */
module SessionReplay {

  import opened Basics
  import opened SecureSession
  import opened SessionRuns
  import Spans

  // ----- Values that are current -----------------------------------------------

  function Marker(k: Keys): Stamp {
    k.ready
  }

  function Verification(k: Keys): (Stamp, Option<string>) {
    (k.verifiedAt, k.verifiedMethod)
  }

  /** Request `i` gives a key of the session another value than the one it was presented. */
  ghost predicate Changes<T>(r: Run, key: Keys -> T, i: nat)
    requires r.Valid() && i < |r.events|
  {
    key(r.Value(i + 1)) != key(r.Presented(i))
  }

  /** No request presents a value older than the last one that changed the key in question. */
  ghost predicate Current<T>(r: Run, key: Keys -> T)
    requires r.Valid()
  {
    forall i, j :: 0 <= i < j < |r.events| && Changes(r, key, i) ==> i < r.from[j]
  }

  /** Every request presents the newest value. */
  predicate Newest(r: Run)
    requires r.Valid()
  {
    forall i :: 0 <= i < |r.events| ==> r.from[i] == i
  }

  /** All values since the last change agree on the key. */
  lemma {:induction false} SinceLastChange<T>(r: Run, key: Keys -> T, v: nat, n: nat)
    requires r.Valid() && Current(r, key) && v <= n <= |r.events|
    requires forall i :: 0 <= i < n && Changes(r, key, i) ==> i < v
    ensures key(r.Value(v)) == key(r.Value(n))
    decreases n
  {
    if v < n {
      SinceLastChange(r, key, v, n - 1);
      SinceLastChange(r, key, r.from[n - 1], n - 1);
      assert !Changes(r, key, n - 1);
    }
  }

  /** So a request finds the key as the newest value has it. */
  lemma PresentsNewest<T>(r: Run, key: Keys -> T, n: nat)
    requires r.Valid() && Current(r, key) && n < |r.events|
    ensures key(r.Presented(n)) == key(r.Value(n))
  {
    SinceLastChange(r, key, r.from[n], n);
  }

  /** The first `n` natural numbers. */
  function Numbers(n: nat): (h: set<nat>)
    ensures forall i: nat :: i in h <==> i < n
  {
    if n == 0 then {} else Numbers(n - 1) + {n - 1}
  }

  /** All requests before request `n`, whatever they presented. */
  function Before(n: nat): (h: set<nat>)
    ensures forall i: nat :: i in h <==> i < n
  {
    Numbers(n)
  }

  /** Clock readings do not decrease, within a request and from one request to the next. */
  ghost predicate Ordered(events: seq<Event>) {
    && (forall i :: 0 <= i < |events| ==> Begin(events[i]) <= events[i].now)
    && (forall i, j :: 0 <= i < j < |events| ==> events[i].now <= Begin(events[j]))
  }

  lemma {:induction false} LastVerification(r: Run, n: nat) returns (i: nat)
    requires r.Valid() && n <= |r.events| && Blank(r.start) && Current(r, Verification) && r.Value(n).verifiedAt.At?
    ensures i < n && r.events[i].Verify? && Stands(r, Before(n), i, r.events[i].request.means)
    ensures Verification(r.Value(n)) == (At(r.events[i].now), Some(r.events[i].request.means))
  {
    if r.events[n - 1].Verify? && r.Accepted(n - 1) {
      i := n - 1;
    } else {
      PresentsNewest(r, Verification, n - 1);
      assert !Ends(r, n - 1) && Verification(r.Value(n)) == Verification(r.Presented(n - 1));
      i := LastVerification(r, n - 1);
    }
  }

  lemma {:induction false} VerificationKept(r: Run, i: nat, n: nat, m: string)
    requires r.Valid() && n <= |r.events| && Current(r, Verification) && Stands(r, Before(n), i, m)
    requires forall j :: i < j < n ==> r.events[j].now - r.events[i].now < SECURE_VERIFICATION_TIMEOUT
    ensures Verification(r.Value(n)) == (At(r.events[i].now), Some(m))
  {
    if i != n - 1 {
      VerificationKept(r, i, n - 1, m);
      PresentsNewest(r, Verification, n - 1);
      assert !Ends(r, n - 1);
    }
  }

  /**
   When no request presents a value older than the last change of the verification, an action that asks
   for method `m` is allowed exactly when the last verification of the whole run was by `m`, less than 300
   seconds ago, and nothing withdrew it since.
   */
  lemma CurrentAllowedExactly(r: Run, n: nat, m: string)
    requires r.Valid() && n < |r.events| && Blank(r.start) && Ordered(r.events) && Current(r, Verification)
    requires r.events[n].Require? && r.events[n].means == m
    ensures r.Accepted(n) <==> exists i: nat :: Stands(r, Before(n), i, m) && Recent(r, i, n)
  {
    PresentsNewest(r, Verification, n);
    if r.Accepted(n) {
      var i := LastVerification(r, n);
      assert r.events[i].now <= Begin(r.events[n]);
    }
    forall i: nat | Stands(r, Before(n), i, m) && Recent(r, i, n)
      ensures r.Accepted(n)
    {
      StandsInOrder(r, i, n, m);
    }
  }

  lemma StandsInOrder(r: Run, i: nat, n: nat, m: string)
    requires r.Valid() && n < |r.events| && Ordered(r.events) && Current(r, Verification)
    requires Stands(r, Before(n), i, m) && Recent(r, i, n)
    ensures Verification(r.Value(n)) == (At(r.events[i].now), Some(m))
  {
    forall j | i < j < n
      ensures r.events[j].now - r.events[i].now < SECURE_VERIFICATION_TIMEOUT
    {
      assert r.events[j].now <= Begin(r.events[n]);
    }
    VerificationKept(r, i, n, m);
  }

  /** The same for the guard in front of channel keys, which accepts either method. */
  lemma CurrentGuardedExactly(r: Run, n: nat)
    requires r.Valid() && n < |r.events| && Blank(r.start) && Ordered(r.events) && Current(r, Verification)
    requires r.events[n].Guard?
    ensures r.Accepted(n) <==> exists i: nat, m :: Stands(r, Before(n), i, m) && Recent(r, i, n)
  {
    PresentsNewest(r, Verification, n);
    if r.Accepted(n) {
      var i := LastVerification(r, n);
      assert r.events[i].now <= Begin(r.events[n]);
      assert Stands(r, Before(n), i, r.events[i].request.means);
    }
    forall i: nat, m | Stands(r, Before(n), i, m) && Recent(r, i, n)
      ensures r.Accepted(n)
    {
      StandsInOrder(r, i, n, m);
    }
  }

  lemma {:induction false} LastMarker(r: Run, n: nat) returns (k: nat)
    requires r.Valid() && n <= |r.events| && Blank(r.start) && Current(r, Marker) && r.Value(n).ready.At?
    ensures MarkerOf(r, Before(n), k) && r.Value(n).ready == At(r.events[k].now)
  {
    if Marks(r.events[n - 1]) {
      k := n - 1;
    } else {
      PresentsNewest(r, Marker, n - 1);
      assert !Spends(r.events[n - 1]);
      k := LastMarker(r, n - 1);
    }
  }

  lemma {:induction false} MarkerKept(r: Run, k: nat, n: nat)
    requires r.Valid() && n <= |r.events| && Current(r, Marker) && MarkerOf(r, Before(n), k)
    ensures r.Value(n).ready == At(r.events[k].now)
  {
    if k != n - 1 {
      MarkerKept(r, k, n - 1);
      PresentsNewest(r, Marker, n - 1);
      assert !Marks(r.events[n - 1]) && !Spends(r.events[n - 1]);
    }
  }

  /**
   When no request presents a value older than the last change of the marker, a passkey verification uses
   a marker exactly when the run has a finish less than 60 seconds before and since then no other finish,
   no successful verification and no attempt.
   */
  lemma CurrentMarkerExactly(r: Run, i: nat)
    requires r.Valid() && i < |r.events| && Blank(r.start) && Ordered(r.events) && Current(r, Marker)
    requires r.events[i].Verify? && r.events[i].request.means == "passkey"
    ensures UsesMarker(r, i) <==>
            && r.events[i].request.hasPasskey && r.events[i].consumeSaved
            && exists k: nat :: MarkerOf(r, Before(i), k) && Prompt(r, k, i)
  {
    PresentsNewest(r, Marker, i);
    if UsesMarker(r, i) {
      var k := LastMarker(r, i);
      assert r.events[k].now <= Begin(r.events[i]);
    }
    forall k: nat | MarkerOf(r, Before(i), k)
      ensures r.Presented(i).ready == At(r.events[k].now)
    {
      MarkerKept(r, k, i);
    }
  }

  /** Then between two accepted uses lies a passkey finish. */
  lemma FinishBetweenUses(r: Run, i: nat, j: nat) returns (k: nat)
    requires r.Valid() && Blank(r.start) && Current(r, Marker) && i < j < |r.events|
    requires UsesMarker(r, i) && UsesMarker(r, j)
    ensures i < k < j && Marks(r.events[k])
  {
    PresentsNewest(r, Marker, j);
    k := LastMarker(r, j);
    assert Spends(r.events[i]);
  }

  /** In particular when every request presents the newest value, as if the server held the session. */
  lemma NewestExactly(r: Run, n: nat)
    requires r.Valid() && n < |r.events| && Blank(r.start) && Ordered(r.events) && Newest(r)
    ensures r.events[n].Require? ==>
              (r.Accepted(n) <==> exists i: nat :: Stands(r, Before(n), i, r.events[n].means) && Recent(r, i, n))
    ensures r.events[n].Verify? && r.events[n].request.means == "passkey" ==>
              (UsesMarker(r, n) <==> && r.events[n].request.hasPasskey && r.events[n].consumeSaved
                                     && exists k: nat :: MarkerOf(r, Before(n), k) && Prompt(r, k, n))
  {
    if r.events[n].Require? {
      CurrentAllowedExactly(r, n, r.events[n].means);
    }
    if r.events[n].Verify? && r.events[n].request.means == "passkey" {
      CurrentMarkerExactly(r, n);
    }
  }

  // ----- Which ways of presenting values are safe for all requests --------------

  /** Which value each request presents; nothing is said about the requests. */
  predicate Pattern(from: seq<nat>) {
    forall i :: 0 <= i < |from| ==> from[i] <= i
  }

  /** No two verifications use the marker of one finish. */
  ghost predicate OneShot(r: Run)
    requires r.Valid()
  {
    forall i, j, k :: 0 <= i < j < |r.events| && UsesMarker(r, i) && UsesMarker(r, j) ==>
      !(MarkerOf(r, r.History(r.from[i]), k) && MarkerOf(r, r.History(r.from[j]), k))
  }

  /** Every allowed action follows a verification by its method that nothing in the whole run withdrew since. */
  ghost predicate Honoured(r: Run)
    requires r.Valid()
  {
    forall n :: 0 <= n < |r.events| && r.events[n].Require? && r.Accepted(n) ==>
      exists i: nat :: Stands(r, Before(n), i, r.events[n].means) && Recent(r, i, n)
  }

  /** No value but that of the start is presented twice. */
  predicate PresentedOnce(from: seq<nat>) {
    forall i, j :: 0 <= i < j < |from| && from[i] == from[j] ==> from[i] == 0
  }

  /** Every request presents the newest value, or starts afresh. */
  predicate NewestOrFresh(from: seq<nat>) {
    forall n :: 0 <= n < |from| ==> from[n] == n || from[n] == 0
  }

  /** A request in a history that is not the last one there is followed by the one that presents its value. */
  lemma {:induction false} Successor(r: Run, p: nat, v: nat) returns (q: nat)
    requires r.Valid() && v <= |r.events| && p in r.History(v) && p + 1 != v
    ensures q in r.History(v) && q < v && r.from[q] == p + 1
    decreases v
  {
    if r.from[v - 1] == p + 1 {
      q := v - 1;
    } else {
      q := Successor(r, p, r.from[v - 1]);
    }
  }

  /** Two requests whose values have a request in common: the earlier one led to the value of the later one. */
  lemma {:induction false} OneBranch(r: Run, i: nat, j: nat, k: nat)
    requires r.Valid() && PresentedOnce(r.from) && i < j < |r.events|
    requires k in r.History(r.from[i]) && k in r.History(r.from[j])
    ensures i in r.History(r.from[j])
    decreases j
  {
    var p := r.from[j] - 1;
    HistoryBelow(r, r.from[i], k);
    if i < p {
      OneBranch(r, i, p, k);
    } else if p < i {
      if k != p {
        OneBranch(r, p, i, k);
      }
      var q := Successor(r, p, r.from[i]);
      assert false;
    }
  }

  lemma OnceIsOneShot(r: Run)
    requires r.Valid() && PresentedOnce(r.from)
    ensures OneShot(r)
  {
    forall i, j, k | 0 <= i < j < |r.events| && UsesMarker(r, i) && UsesMarker(r, j)
      ensures !(MarkerOf(r, r.History(r.from[i]), k) && MarkerOf(r, r.History(r.from[j]), k))
    {
      if MarkerOf(r, r.History(r.from[i]), k) && MarkerOf(r, r.History(r.from[j]), k) {
        OneBranch(r, i, j, k);
        HistoryBelow(r, r.from[i], k);
        assert Spends(r.events[i]);
      }
    }
  }

  function PasskeyUse(now: int): Event {
    Verify(Request("passkey", false, true, false), now, now, true, true)
  }

  function CodeUse(now: int): Event {
    Verify(Request("2fa", true, false, true), now, now, true, true)
  }

  /** Requests at time 0 that do nothing, except for the given ones. */
  function Script(n: nat, acts: map<int, Event>): (events: seq<Event>)
    requires forall x :: x in acts ==> Begin(acts[x]) == acts[x].now == 0
    ensures |events| == n && Ordered(events)
    ensures forall x :: 0 <= x < n ==> events[x] == if x in acts then acts[x] else Clear(0, false)
  {
    seq(n, x => if x in acts then acts[x] else Clear(0, false))
  }

  /** A value that is presented twice can carry a marker that is used twice. */
  lemma TwiceIsNotOneShot(start: Keys, from: seq<nat>, i: nat, j: nat) returns (events: seq<Event>)
    requires Pattern(from) && i < j < |from| && from[i] == from[j] > 0
    ensures |events| == |from| && Ordered(events) && !OneShot(Run(start, from, events))
  {
    var v := from[i];
    events := Script(|from|, map[v - 1 := Finish(0, true), i := PasskeyUse(0), j := PasskeyUse(0)]);
    var r := Run(start, from, events);
    assert r.Value(v) == After(r.Value(from[v - 1]), Finish(0, true));
    forall x | x in r.History(v)
      ensures x <= v - 1
    {
      HistoryBelow(r, v, x);
    }
    assert UsesMarker(r, i) && UsesMarker(r, j) && MarkerOf(r, r.History(v), v - 1);
  }

  /**
   A way of presenting values keeps every marker one-shot, whatever the requests are, if and only if no
   value but that of the start is presented twice.
   */
  lemma OneShotExactly(start: Keys, from: seq<nat>)
    requires Pattern(from)
    ensures (forall events :: |events| == |from| && Ordered(events) ==> OneShot(Run(start, from, events)))
            <==> PresentedOnce(from)
  {
    if PresentedOnce(from) {
      forall events | |events| == |from| && Ordered(events)
        ensures OneShot(Run(start, from, events))
      {
        OnceIsOneShot(Run(start, from, events));
      }
    } else {
      var i, j :| 0 <= i < j < |from| && from[i] == from[j] > 0;
      var events := TwiceIsNotOneShot(start, from, i, j);
    }
  }

  lemma {:induction false} WholeHistory(r: Run, n: nat, i: nat, j: nat)
    requires r.Valid() && NewestOrFresh(r.from) && n <= |r.events| && i in r.History(n) && i <= j < n
    ensures j in r.History(n)
    decreases n
  {
    if j < n - 1 {
      WholeHistory(r, n - 1, i, j);
    }
  }

  lemma NewestIsHonoured(r: Run)
    requires r.Valid() && NewestOrFresh(r.from) && Blank(r.start) && Ordered(r.events)
    ensures Honoured(r)
  {
    forall n | 0 <= n < |r.events| && r.events[n].Require? && r.Accepted(n)
      ensures exists i: nat :: Stands(r, Before(n), i, r.events[n].means) && Recent(r, i, n)
    {
      var i := VerifiedOrigin(r, n);
      forall j | i < j < n
        ensures !Ends(r, j)
      {
        WholeHistory(r, n, i, j);
      }
      assert r.events[i].now <= Begin(r.events[n]);
      assert Stands(r, Before(n), i, r.events[n].means);
    }
  }

  /** A value older than the newest can carry a verification that was withdrawn meanwhile. */
  lemma OlderIsNotHonoured(start: Keys, from: seq<nat>, n: nat) returns (events: seq<Event>)
    requires Pattern(from) && n < |from| && 0 < from[n] < n
    ensures |events| == |from| && Ordered(events) && !Honoured(Run(start, from, events))
  {
    var v := from[n];
    events := Script(|from|, map[v - 1 := CodeUse(0), v := Finish(0, true), n := Require("2fa", 0, false)]);
    var r := Run(start, from, events);
    assert r.Value(v) == After(r.Value(from[v - 1]), CodeUse(0));
    assert r.Accepted(n);
    assert Ends(r, v) && v in Before(n);
  }

  /**
   A way of presenting values lets no withdrawn verification allow an action, whatever the requests are,
   if and only if every request presents the newest value or starts afresh.
   */
  lemma HonouredExactly(start: Keys, from: seq<nat>)
    requires Pattern(from) && Blank(start)
    ensures (forall events :: |events| == |from| && Ordered(events) ==> Honoured(Run(start, from, events)))
            <==> NewestOrFresh(from)
  {
    if NewestOrFresh(from) {
      forall events | |events| == |from| && Ordered(events)
        ensures Honoured(Run(start, from, events))
      {
        NewestIsHonoured(Run(start, from, events));
      }
    } else {
      var n :| 0 <= n < |from| && 0 < from[n] < n;
      var events := OlderIsNotHonoured(start, from, n);
    }
  }

  // ----- Two replays -----------------------------------------------------------

  /** Three requests of which the last presents what the second presented: the value issued by the first. */
  function Replay(events: seq<Event>): (r: Run)
    requires |events| == 3
    ensures r.Valid()
  {
    Run(Keys(Missing, Missing, None), [0, 1, 1], events)
  }

  /** The value sent back by a passkey finish is presented to two verifications: both succeed. */
  lemma ConsumedMarkerReplayed(finished: int, first: int, second: int)
    requires finished <= first <= second < finished + PASSKEY_READY_TIMEOUT
    ensures var r := Replay([Finish(finished, true), PasskeyUse(first), PasskeyUse(second)]);
            Ordered(r.events) && r.Accepted(1) && r.Accepted(2) && !OneShot(r)
  {
    var r := Replay([Finish(finished, true), PasskeyUse(first), PasskeyUse(second)]);
    assert r.Value(1) == Keys(At(finished), Missing, None);
    assert r.History(1) == {0};
    assert UsesMarker(r, 1) && UsesMarker(r, 2) && MarkerOf(r, r.History(1), 0);
  }

  /** A verification withdrawn by a passkey finish still allows an action that presents the value before it. */
  lemma WithdrawnVerificationReplayed(verified: int, finished: int, acted: int)
    requires verified <= finished <= acted < verified + SECURE_VERIFICATION_TIMEOUT
    ensures var r := Replay([CodeUse(verified), Finish(finished, true), Require("2fa", acted, true)]);
            Ordered(r.events) && r.Accepted(2) && r.Value(2).verifiedAt.Missing? && !Honoured(r)
  {
    var r := Replay([CodeUse(verified), Finish(finished, true), Require("2fa", acted, true)]);
    assert r.Value(1) == Keys(Missing, At(verified), Some("2fa"));
    assert Ends(r, 1) && 1 in Before(2);
  }

  // ----- Overlapping requests of one client ------------------------------------

  /** Whether the request saves the session, which replaces all of its keys. */
  predicate Writes(k: Keys, e: Event) {
    match e
    case Finish(_, saved) => saved
    case Verify(r, _, _, consumeSaved, _) => Succeeds(k, e) || (TriesMarker(r) && !k.ready.Missing? && consumeSaved)
    case Require(_, now, saved) => !Fresh(k, now) && saved
    case Guard(now, saved) => !k.verifiedAt.Missing? && !Fresh(k, now) && saved
    case Clear(_, saved) => saved
  }

  /**
   A client that keeps the value it was sent last, as a browser does. A request is loaded with that value,
   and when it ends the value it sent back, if any, takes its place.
   */
  function Jar(): Spans.Service<Keys, Event, bool> {
    Spans.Service((copy: Keys, e: Event) => Writes(copy, e),
                  (copy: Keys, e: Event) => After(copy, e),
                  (copy: Keys, e: Event) => Succeeds(copy, e))
  }

  /** The values of a run do not depend on what follows. */
  lemma {:induction false} ValueExtends(r: Run, more: Run, v: nat)
    requires r.Valid() && more.Valid() && r.start == more.start && v <= |r.events|
    requires r.from <= more.from && r.events <= more.events
    ensures r.Value(v) == more.Value(v)
    decreases v
  {
    if v > 0 {
      ValueExtends(r, more, r.from[v - 1]);
    }
  }

  /** A run explains a state: which value is stored, which values are held, and all the answers. */
  ghost predicate Explains(r: Run, s: Spans.Shared<Keys, bool>, newest: nat, held: map<nat, nat>)
    requires r.Valid()
  {
    && newest <= |r.events| && r.Value(newest) == s.stored
    && held.Keys == s.copies.Keys
    && (forall t :: t in held ==> held[t] <= |r.events| && r.Value(held[t]) == s.copies[t])
    && |s.answers| == |r.events| && forall i :: 0 <= i < |r.events| ==> s.answers[i] == r.Accepted(i)
  }

  /** One more request leaves the values and answers so far as they are. */
  lemma OneMoreRequest(r: Run, v: nat, e: Event)
    requires r.Valid() && v <= |r.events|
    ensures var more := Run(r.start, r.from + [v], r.events + [e]);
            && more.Valid()
            && (forall w :: 0 <= w <= |r.events| ==> more.Value(w) == r.Value(w))
            && (forall i :: 0 <= i < |r.events| ==> more.Accepted(i) == r.Accepted(i))
            && more.Value(|r.events| + 1) == After(r.Value(v), e)
            && more.Accepted(|r.events|) == Succeeds(r.Value(v), e)
  {
    var more := Run(r.start, r.from + [v], r.events + [e]);
    forall w | 0 <= w <= |r.events|
      ensures more.Value(w) == r.Value(w)
    {
      ValueExtends(r, more, w);
    }
  }

  lemma ExplainsSave(r: Run, s: Spans.Shared<Keys, bool>, newest: nat, held: map<nat, nat>, t: nat, e: Event)
    requires r.Valid() && Explains(r, s, newest, held) && t in s.copies
    ensures var more := Run(r.start, r.from + [held[t]], r.events + [e]);
            var newest' := if Writes(s.copies[t], e) then |r.events| + 1 else newest;
            more.Valid() && Explains(more, Spans.Exec(Jar(), s, Spans.Save(t, e)), newest', held - {t})
  {
    OneMoreRequest(r, held[t], e);
  }

  /**
   However the requests of one client overlap, they are answered as in a run in which each presents some
   value issued before; so what holds of all runs holds of them.
   */
  lemma {:induction false} OverlapIsRun(states: seq<Spans.Shared<Keys, bool>>, steps: seq<Spans.Step<Event>>, n: nat)
    returns (r: Run, newest: nat, held: map<nat, nat>)
    requires Spans.Run(Jar(), states, steps) && n < |states|
    ensures r.Valid() && r.start == states[0].stored && r.events == Spans.Saved(steps[..n])
    ensures Explains(r, states[n], newest, held)
  {
    if n == 0 {
      r, newest, held := Run(states[0].stored, [], []), 0, map[];
    } else {
      var step := steps[n - 1];
      r, newest, held := OverlapIsRun(states, steps, n - 1);
      assert steps[..n][..n - 1] == steps[..n - 1];
      if step.Save? {
        var t, e := step.t, step.request;
        ExplainsSave(r, states[n - 1], newest, held, t, e);
        newest := if Writes(states[n - 1].copies[t], e) then |r.events| + 1 else newest;
        r, held := Run(r.start, r.from + [held[t]], r.events + [e]), held - {t};
      } else {
        held := held[step.t := newest];
        assert Spans.Saved(steps[..n]) == Spans.Saved(steps[..n - 1]);
      }
    }
  }

  /** The run of these requests in which each presents the newest value. */
  function NewestRun(start: Keys, events: seq<Event>): (r: Run)
    ensures r.Valid() && Newest(r)
  {
    Run(start, seq(|events|, (i: nat) => i), events)
  }

  lemma {:induction false} SerialIsNewest(start: Keys, events: seq<Event>, n: nat)
    requires n <= |events|
    ensures Spans.Serial(Jar(), start, events[..n]) == NewestRun(start, events).Value(n)
    ensures |Spans.SerialAnswers(Jar(), start, events[..n])| == n
    ensures forall i :: 0 <= i < n ==>
              Spans.SerialAnswers(Jar(), start, events[..n])[i] == NewestRun(start, events).Accepted(i)
  {
    if n > 0 {
      SerialIsNewest(start, events, n - 1);
      assert events[..n][..n - 1] == events[..n - 1];
    }
  }

  /**
   Requests of one client that interleave are answered as if they came one after the other, each with the
   newest value, when none sends a new value between another's load and end.
   */
  lemma InterleavedIsSerial(states: seq<Spans.Shared<Keys, bool>>, steps: seq<Spans.Step<Event>>, n: nat)
    requires Spans.Run(Jar(), states, steps) && Spans.Undisturbed(Jar(), states, steps) && n < |states|
    ensures var r := NewestRun(states[0].stored, Spans.Saved(steps[..n]));
            && states[n].stored == r.Value(|r.events|)
            && |states[n].answers| == |r.events|
            && forall i :: 0 <= i < |r.events| ==> states[n].answers[i] == r.Accepted(i)
  {
    var events := Spans.Saved(steps[..n]);
    Spans.UndisturbedIsSerial(Jar(), states, steps, n);
    SerialIsNewest(states[0].stored, events, |events|);
    assert events[..|events|] == events;
  }

  /** Otherwise one marker can be accepted twice: both requests load it before either has removed it. */
  lemma OverlapUsesMarkerTwice(k: Keys, now: int)
    requires k.ready.At? && now - k.ready.time < PASSKEY_READY_TIMEOUT
    ensures var states := Spans.OverlapStates(Jar(), k, PasskeyUse(now), PasskeyUse(now));
            && Spans.Run(Jar(), states, Spans.Overlapping(PasskeyUse(now), PasskeyUse(now)))
            && states[0].stored == k && states[4].answers == [true, true]
  {
    Spans.OverlapResult(Jar(), k, PasskeyUse(now), PasskeyUse(now));
  }
}
