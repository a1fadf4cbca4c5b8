/**
 What the step-up session promises in every run, whichever of the values it was sent a client
 presents: an accepted request is explained by the requests that led to the presented value.
 */
module SessionRuns {

  import opened Basics
  import opened SecureSession

  // ----- Histories -------------------------------------------------------------

  lemma {:induction false} HistoryBelow(r: Run, v: nat, i: nat)
    requires r.Valid() && v <= |r.events| && i in r.History(v)
    ensures i < v
    decreases v
  {
    if i != v - 1 {
      HistoryBelow(r, r.from[v - 1], i);
    }
  }

  /** No verification is recorded at the start and no marker is set. */
  ghost predicate Blank(start: Keys) {
    !start.ready.At? && !start.verifiedAt.At?
  }

  /** The time at which a request first reads the clock. */
  function Begin(e: Event): int {
    if e.Verify? then e.checkedAt else e.now
  }

  /** Clock readings do not decrease, within a request and from the issue of a value to its presentation. */
  ghost predicate Causal(r: Run)
    requires r.Valid()
  {
    && (forall i :: 0 <= i < |r.events| ==> Begin(r.events[i]) <= r.events[i].now)
    && (forall i :: 0 <= i < |r.events| && r.from[i] > 0 ==> r.events[r.from[i] - 1].now <= Begin(r.events[i]))
  }

  lemma {:induction false} HistoryEarlier(r: Run, v: nat, i: nat)
    requires r.Valid() && Causal(r) && 0 < v <= |r.events| && i in r.History(v) && i < v
    ensures r.events[i].now <= r.events[v - 1].now
    decreases v
  {
    if i != v - 1 {
      var w := r.from[v - 1];
      HistoryBelow(r, w, i);
      HistoryEarlier(r, w, i);
    }
  }

  /** Whatever led to a value happened before a request presents it. */
  lemma PresentedLater(r: Run, n: nat, i: nat)
    requires r.Valid() && Causal(r) && n < |r.events| && i in r.History(r.from[n])
    ensures i < r.from[n] && r.events[i].now <= Begin(r.events[n]) <= r.events[n].now
  {
    HistoryBelow(r, r.from[n], i);
    HistoryEarlier(r, r.from[n], i);
  }

  // ----- Recorded verifications ------------------------------------------------

  /** A request that records a verification by method `m`. */
  predicate Verifies(r: Run, i: nat, m: string)
    requires r.Valid() && i < |r.events|
  {
    r.events[i].Verify? && r.events[i].request.means == m && r.Accepted(i)
  }

  /** A request that replaces or withdraws a recorded verification, apart from expiry. */
  predicate Ends(r: Run, i: nat)
    requires r.Valid() && i < |r.events|
  {
    match r.events[i]
    case Finish(_, saved) => saved
    case Verify(_, _, _, _, _) => r.Accepted(i)
    case Clear(_, saved) => saved
    case _ => false
  }

  /** Among the requests of `h`, request `i` verified by `m` and no later one ended that. */
  ghost predicate Stands(r: Run, h: set<nat>, i: nat, m: string)
    requires r.Valid()
  {
    && i in h && i < |r.events| && Verifies(r, i, m)
    && forall j :: j in h && i < j < |r.events| ==> !Ends(r, j)
  }

  /** Every recorded verification comes from a request in the value's history that still stands there. */
  lemma {:induction false} VerifiedOrigin(r: Run, v: nat) returns (i: nat)
    requires r.Valid() && v <= |r.events| && Blank(r.start) && r.Value(v).verifiedAt.At?
    ensures i < v && r.events[i].Verify? && Stands(r, r.History(v), i, r.events[i].request.means)
    ensures r.Value(v).verifiedAt == At(r.events[i].now)
    ensures r.Value(v).verifiedMethod == Some(r.events[i].request.means)
    decreases v
  {
    var h := r.History(v);
    if r.events[v - 1].Verify? && r.Accepted(v - 1) {
      i := v - 1;
      forall j | j in h
        ensures j <= i
      {
        HistoryBelow(r, v, j);
      }
    } else {
      i := VerifiedOrigin(r, r.from[v - 1]);
      assert !Ends(r, v - 1);
    }
  }

  /** A standing verification is recorded, unless a later request found it to be expired. */
  lemma {:induction false} StandsRecorded(r: Run, v: nat, i: nat, m: string)
    requires r.Valid() && v <= |r.events| && Stands(r, r.History(v), i, m)
    requires forall j :: j in r.History(v) && j < |r.events| ==>
               r.events[j].now - r.events[i].now < SECURE_VERIFICATION_TIMEOUT
    ensures r.Value(v).verifiedAt == At(r.events[i].now)
    ensures r.Value(v).verifiedMethod == Some(m)
    decreases v
  {
    if i != v - 1 {
      HistoryBelow(r, v, i);
      StandsRecorded(r, r.from[v - 1], i, m);
      assert !Ends(r, v - 1);
    }
  }

  lemma StandsUntil(r: Run, n: nat, i: nat, m: string)
    requires r.Valid() && n < |r.events| && Causal(r) && Stands(r, r.History(r.from[n]), i, m)
    requires r.events[n].now - r.events[i].now < SECURE_VERIFICATION_TIMEOUT
    ensures r.Presented(n).verifiedAt == At(r.events[i].now) && r.Presented(n).verifiedMethod == Some(m)
  {
    forall j | j in r.History(r.from[n]) && j < |r.events|
      ensures r.events[j].now - r.events[i].now < SECURE_VERIFICATION_TIMEOUT
    {
      PresentedLater(r, n, j);
    }
    StandsRecorded(r, r.from[n], i, m);
  }

  /** Request `i` is less than 300 seconds before request `n`. */
  predicate Recent(r: Run, i: nat, n: nat)
    requires i < |r.events| && n < |r.events|
  {
    0 <= r.events[n].now - r.events[i].now < SECURE_VERIFICATION_TIMEOUT
  }

  /**
   Whichever values the client presents, an action that asks for method `m` is allowed exactly when the
   last verification in the history of the presented value was by `m`, less than 300 seconds ago, and no
   passkey was presented since in that history.
   */
  lemma AllowedExactly(r: Run, n: nat, m: string)
    requires r.Valid() && n < |r.events| && Blank(r.start) && Causal(r)
    requires r.events[n].Require? && r.events[n].means == m
    ensures r.Accepted(n) <==> exists i: nat :: Stands(r, r.History(r.from[n]), i, m) && Recent(r, i, n)
  {
    if r.Accepted(n) {
      var i := VerifiedOrigin(r, r.from[n]);
      PresentedLater(r, n, i);
    }
    forall i: nat | Stands(r, r.History(r.from[n]), i, m) && Recent(r, i, n)
      ensures r.Accepted(n)
    {
      StandsUntil(r, n, i, m);
    }
  }

  /** The guard in front of channel keys accepts either method. */
  lemma GuardedExactly(r: Run, n: nat)
    requires r.Valid() && n < |r.events| && Blank(r.start) && Causal(r) && r.events[n].Guard?
    ensures r.Accepted(n) <==> exists i: nat, m :: Stands(r, r.History(r.from[n]), i, m) && Recent(r, i, n)
  {
    if r.Accepted(n) {
      var i := VerifiedOrigin(r, r.from[n]);
      PresentedLater(r, n, i);
      assert Stands(r, r.History(r.from[n]), i, r.events[i].request.means);
    }
    forall i: nat, m | Stands(r, r.History(r.from[n]), i, m) && Recent(r, i, n)
      ensures r.Accepted(n)
    {
      StandsUntil(r, n, i, m);
    }
  }

  // ----- The passkey marker ----------------------------------------------------

  /** A passkey finish that sets the marker. */
  predicate Marks(e: Event) {
    e.Finish? && e.saved
  }

  /** A request that removes the marker: an attempt to use it, or a successful verification by code. */
  predicate Spends(e: Event) {
    e.Verify? && if e.request.means == "2fa" then e.request.has2FA && e.request.codeAccepted && e.saved
                 else TriesMarker(e.request) && e.consumeSaved
  }

  /** Among the requests of `h`, request `k` set the marker and no later one replaced or removed it. */
  ghost predicate MarkerOf(r: Run, h: set<nat>, k: nat) {
    && k in h && k < |r.events| && Marks(r.events[k])
    && forall j :: j in h && k < j < |r.events| ==> !Marks(r.events[j]) && !Spends(r.events[j])
  }

  /** A verification whose marker is accepted. */
  predicate UsesMarker(r: Run, i: nat)
    requires r.Valid() && i < |r.events|
  {
    && r.events[i].Verify? && TriesMarker(r.events[i].request)
    && ConsumeSucceeds(r.Presented(i), r.events[i].checkedAt, r.events[i].consumeSaved)
  }

  /** Finish `k` is less than 60 seconds before verification `i`. */
  predicate Prompt(r: Run, k: nat, i: nat)
    requires k < |r.events| && i < |r.events| && r.events[i].Verify?
  {
    0 <= r.events[i].checkedAt - r.events[k].now < PASSKEY_READY_TIMEOUT
  }

  lemma {:induction false} ReadyOrigin(r: Run, v: nat) returns (k: nat)
    requires r.Valid() && v <= |r.events| && Blank(r.start) && r.Value(v).ready.At?
    ensures MarkerOf(r, r.History(v), k) && r.Value(v).ready == At(r.events[k].now)
    decreases v
  {
    var h := r.History(v);
    if Marks(r.events[v - 1]) {
      k := v - 1;
      forall j | j in h
        ensures j <= k
      {
        HistoryBelow(r, v, j);
      }
    } else {
      k := ReadyOrigin(r, r.from[v - 1]);
      assert !Spends(r.events[v - 1]);
    }
  }

  lemma {:induction false} MarkerRecorded(r: Run, v: nat, k: nat)
    requires r.Valid() && v <= |r.events| && MarkerOf(r, r.History(v), k)
    ensures r.Value(v).ready == At(r.events[k].now)
    decreases v
  {
    if k != v - 1 {
      HistoryBelow(r, v, k);
      MarkerRecorded(r, r.from[v - 1], k);
      assert !Marks(r.events[v - 1]) && !Spends(r.events[v - 1]);
    }
  }

  /**
   A passkey verification uses a marker exactly when the history of the presented value has a finish less
   than 60 seconds before and since then no other finish, no successful verification and no attempt.
   */
  lemma MarkerExactly(r: Run, i: nat)
    requires r.Valid() && i < |r.events| && Blank(r.start) && Causal(r)
    requires r.events[i].Verify? && r.events[i].request.means == "passkey"
    ensures UsesMarker(r, i) <==>
            && r.events[i].request.hasPasskey && r.events[i].consumeSaved
            && exists k: nat :: MarkerOf(r, r.History(r.from[i]), k) && Prompt(r, k, i)
    ensures r.Accepted(i) <==> UsesMarker(r, i) && r.events[i].saved
  {
    if UsesMarker(r, i) {
      var k := ReadyOrigin(r, r.from[i]);
      PresentedLater(r, i, k);
    }
    forall k: nat | MarkerOf(r, r.History(r.from[i]), k)
      ensures r.Presented(i).ready == At(r.events[k].now)
    {
      MarkerRecorded(r, r.from[i], k);
    }
  }

  /** A value that stems from an accepted use carries no marker until the next finish in its history. */
  lemma MarkerUsedOnce(r: Run, i: nat, j: nat) returns (k: nat)
    requires r.Valid() && Blank(r.start) && i < |r.events| && j < |r.events|
    requires UsesMarker(r, i) && UsesMarker(r, j) && i in r.History(r.from[j])
    ensures k in r.History(r.from[j]) && i < k < j && Marks(r.events[k])
  {
    k := ReadyOrigin(r, r.from[j]);
    HistoryBelow(r, r.from[j], k);
    assert Spends(r.events[i]);
  }

  /**
   Whichever values the client presents, an action allowed for a passkey follows a finish, its use within
   60 seconds and a wait of less than 300 seconds, all in the history of the presented value.
   */
  lemma AllowedByPasskey(r: Run, n: nat) returns (k: nat, i: nat)
    requires r.Valid() && n < |r.events| && Blank(r.start) && Causal(r)
    requires r.events[n].Require? && r.events[n].means == "passkey" && r.Accepted(n)
    ensures k < i < n && MarkerOf(r, r.History(r.from[i]), k) && UsesMarker(r, i) && Prompt(r, k, i)
    ensures Stands(r, r.History(r.from[n]), i, "passkey") && Recent(r, i, n)
  {
    i := VerifiedOrigin(r, r.from[n]);
    PresentedLater(r, n, i);
    k := ReadyOrigin(r, r.from[i]);
    PresentedLater(r, i, k);
  }

  /** A verification by code succeeds exactly when 2FA is set up, the code is right and the session is saved. */
  lemma CodeExactly(r: Run, i: nat)
    requires r.Valid() && i < |r.events| && r.events[i].Verify?
    ensures var e := r.events[i];
            && (e.request.means == "2fa" ==>
                  (r.Accepted(i) <==> e.request.has2FA && e.request.codeAccepted && e.saved))
            && (e.request.means !in {"2fa", "passkey"} ==> !r.Accepted(i))
  {
  }

  /** Whichever values are presented, an action allowed for a code follows an accepted code, within 300 seconds. */
  lemma AllowedByCode(r: Run, n: nat) returns (i: nat)
    requires r.Valid() && n < |r.events| && Blank(r.start) && Causal(r)
    requires r.events[n].Require? && r.events[n].means == "2fa" && r.Accepted(n)
    ensures i < n && Stands(r, r.History(r.from[n]), i, "2fa") && Recent(r, i, n)
    ensures r.events[i].request.has2FA && r.events[i].request.codeAccepted
  {
    i := VerifiedOrigin(r, r.from[n]);
    PresentedLater(r, n, i);
    CodeExactly(r, i);
  }

  /** Every accepted action, and every request the guard lets pass, rests on one of these two methods. */
  lemma OnlyTwoMethods(r: Run, n: nat) returns (i: nat)
    requires r.Valid() && n < |r.events| && Blank(r.start) && Causal(r)
    requires (r.events[n].Require? || r.events[n].Guard?) && r.Accepted(n)
    ensures i < n && r.events[i].Verify? && r.events[i].request.means in {"2fa", "passkey"} && Recent(r, i, n)
    ensures Stands(r, r.History(r.from[n]), i, r.events[i].request.means)
    ensures r.events[n].Require? ==> r.events[i].request.means == r.events[n].means
  {
    i := VerifiedOrigin(r, r.from[n]);
    PresentedLater(r, n, i);
    CodeExactly(r, i);
  }

  /** The verification is missing, malformed or at least 300 seconds old. */
  predicate Stale(k: Keys, now: int) {
    !k.verifiedAt.At? || now - k.verifiedAt.time >= SECURE_VERIFICATION_TIMEOUT
  }

  /**
   What every request leaves in the session: the marker of a finish until it is spent, and the last
   verification until it is withdrawn, replaced or found to be stale.
   */
  lemma RequestLeaves(r: Run, i: nat)
    requires r.Valid() && i < |r.events|
    ensures var e, before, after := r.events[i], r.Presented(i), r.Value(i + 1);
            after.ready == if Marks(e) then At(e.now) else if Spends(e) then Missing else before.ready
    ensures var e, before, after := r.events[i], r.Presented(i), r.Value(i + 1);
            (after.verifiedAt, after.verifiedMethod) ==
            if Marks(e) || (e.Clear? && e.saved) then (Missing, None)
            else if e.Verify? && r.Accepted(i) then (At(e.now), Some(e.request.means))
            else if (e.Require? || (e.Guard? && !before.verifiedAt.Missing?)) && e.saved && Stale(before, e.now) then
              (Missing, None)
            else (before.verifiedAt, before.verifiedMethod)
  {
  }

  /** The values a server issues and the answers it gives, in order. */
  ghost predicate Served(r: Run, issued: seq<Keys>, ok: seq<bool>, n: nat)
    requires r.Valid() && n <= |r.events|
  {
    && |issued| == n + 1 && (forall v :: 0 <= v <= n ==> issued[v] == r.Value(v))
    && |ok| == n && forall i :: 0 <= i < n ==> ok[i] == r.Accepted(i)
  }

  /** A server working through requests that present any values it has issued. */
  method Serve(r: Run) returns (issued: seq<Keys>, ok: seq<bool>)
    requires r.Valid()
    ensures Served(r, issued, ok, |r.events|)
  {
    issued, ok := [r.start], [];
    for i := 0 to |r.events|
      invariant Served(r, issued, ok, i)
    {
      var session := new Session(issued[r.from[i]]);
      var answer := session.Handle(r.events[i]);
      ServedSnoc(r, issued, ok, i);
      issued, ok := issued + [session.stored], ok + [answer];
    }
  }

  lemma ServedSnoc(r: Run, issued: seq<Keys>, ok: seq<bool>, n: nat)
    requires r.Valid() && n < |r.events| && Served(r, issued, ok, n)
    ensures var k := issued[r.from[n]];
            Served(r, issued + [After(k, r.events[n])], ok + [Succeeds(k, r.events[n])], n + 1)
  {
  }
}
