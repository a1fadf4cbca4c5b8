/**
 Requests that load a record, compute on their copy and save it back, without a lock that
 covers both. Loading and saving are separate steps of arbitrarily many requests, so a run
 is an arbitrary interleaving. The theorem says when such a run is as good as one request
 after the other.
 */
module Spans {

  /**
   What requests do with their copy: whether they write it back at all, what they make of it, and
   what they answer.
   */
  datatype Service<!S, !R, !A> = Service(writes: (S, R) -> bool, change: (S, R) -> S, answer: (S, R) -> A) {
    /** The stored record after a request that worked on `copy` ends while `current` is stored. */
    function Save(copy: S, current: S, r: R): S {
      if writes(copy, r) then change(copy, r) else current
    }

    /** The request alone. */
    function Next(s: S, r: R): S {
      Save(s, s, r)
    }
  }

  datatype Step<R> = Load(t: nat) | Save(t: nat, request: R)

  /** The stored record, the copies of the requests under way, and the answers given. */
  datatype Shared<S, A> = Shared(stored: S, copies: map<nat, S>, answers: seq<A>)

  predicate Enabled<S, R, A>(s: Shared<S, A>, step: Step<R>) {
    step.Save? ==> step.t in s.copies
  }

  function Exec<S, R, A>(sv: Service<S, R, A>, s: Shared<S, A>, step: Step<R>): Shared<S, A>
    requires Enabled(s, step)
  {
    match step
    case Load(t) => s.(copies := s.copies[t := s.stored])
    case Save(t, r) =>
      var copy := s.copies[t];
      Shared(sv.Save(copy, s.stored, r), s.copies - {t}, s.answers + [sv.answer(copy, r)])
  }

  ghost predicate Run<S, R, A>(sv: Service<S, R, A>, states: seq<Shared<S, A>>, steps: seq<Step<R>>) {
    && |states| == |steps| + 1
    && states[0].copies == map[] && states[0].answers == []
    && forall i :: 0 <= i < |steps| ==>
         Enabled(states[i], steps[i]) && states[i + 1] == Exec(sv, states[i], steps[i])
  }

  /** The requests in the order in which they saved. */
  function Saved<R>(steps: seq<Step<R>>): seq<R> {
    if steps == [] then []
    else Saved(steps[..|steps| - 1]) + if steps[|steps| - 1].Save? then [steps[|steps| - 1].request] else []
  }

  /** One request after the other. */
  function Serial<S, R, A>(sv: Service<S, R, A>, start: S, requests: seq<R>): S {
    if requests == [] then start
    else sv.Next(Serial(sv, start, requests[..|requests| - 1]), requests[|requests| - 1])
  }

  function SerialAnswers<S, R, A>(sv: Service<S, R, A>, start: S, requests: seq<R>): seq<A> {
    if requests == [] then []
    else
      var init, r := requests[..|requests| - 1], requests[|requests| - 1];
      SerialAnswers(sv, start, init) + [sv.answer(Serial(sv, start, init), r)]
  }

  lemma SerialSnoc<S, R, A>(sv: Service<S, R, A>, start: S, requests: seq<R>, r: R)
    ensures Serial(sv, start, requests + [r]) == sv.Next(Serial(sv, start, requests), r)
    ensures SerialAnswers(sv, start, requests + [r])
            == SerialAnswers(sv, start, requests) + [sv.answer(Serial(sv, start, requests), r)]
  {
    assert (requests + [r])[..|requests|] == requests;
  }

  /** The request that saves at `j` loaded at `i`, and did not load again in between. */
  ghost predicate Span<R>(steps: seq<Step<R>>, i: int, j: int) {
    && 0 <= i < j < |steps| && steps[i].Load? && steps[j].Save? && steps[i].t == steps[j].t
    && forall m :: i < m < j ==> steps[m].t != steps[i].t
  }

  /** Step `m` writes the record. */
  predicate Writes<S, R, A>(sv: Service<S, R, A>, states: seq<Shared<S, A>>, steps: seq<Step<R>>, m: nat)
    requires m < |steps| && m < |states|
  {
    && steps[m].Save? && steps[m].t in states[m].copies
    && sv.writes(states[m].copies[steps[m].t], steps[m].request)
  }

  /** Nobody writes between a request's load and its save; what ends without writing disturbs no one. */
  ghost predicate Undisturbed<S, R, A>(sv: Service<S, R, A>, states: seq<Shared<S, A>>, steps: seq<Step<R>>)
    requires |states| == |steps| + 1
  {
    forall i, j, m :: Span(steps, i, j) && i < m < j ==> !Writes(sv, states, steps, m)
  }

  /** What a request has loaded stays its copy until it acts again. */
  lemma {:induction false} CopyKept<S, R, A>(sv: Service<S, R, A>, states: seq<Shared<S, A>>, steps: seq<Step<R>>,
                                             t: nat, n: nat) returns (i: nat)
    requires Run(sv, states, steps) && n < |states| && t in states[n].copies
    ensures i < n && steps[i] == Load(t) && (forall m :: i < m < n ==> steps[m].t != t)
    ensures states[n].copies[t] == states[i].stored
  {
    if steps[n - 1] == Load(t) {
      i := n - 1;
    } else {
      i := CopyKept(sv, states, steps, t, n - 1);
    }
  }

  /** Without a write in between, the stored record is still the same. */
  lemma {:induction false} StoredKept<S, R, A>(sv: Service<S, R, A>, states: seq<Shared<S, A>>, steps: seq<Step<R>>,
                                               i: nat, n: nat)
    requires Run(sv, states, steps) && i <= n < |states|
    requires forall m :: i <= m < n ==> !Writes(sv, states, steps, m)
    ensures states[n].stored == states[i].stored
    decreases n - i
  {
    if i < n {
      StoredKept(sv, states, steps, i, n - 1);
      assert !Writes(sv, states, steps, n - 1);
    }
  }

  /** An undisturbed request saves what it would have computed on the current record. */
  lemma CopyIsCurrent<S, R, A>(sv: Service<S, R, A>, states: seq<Shared<S, A>>, steps: seq<Step<R>>, n: nat)
    requires Run(sv, states, steps) && Undisturbed(sv, states, steps) && n < |steps| && steps[n].Save?
    ensures states[n].copies[steps[n].t] == states[n].stored
  {
    var i := CopyKept(sv, states, steps, steps[n].t, n);
    assert Span(steps, i, n);
    StoredKept(sv, states, steps, i, n);
  }

  /** An undisturbed run stores and answers what the same requests would one after the other. */
  lemma {:induction false} UndisturbedIsSerial<S, R, A>(sv: Service<S, R, A>, states: seq<Shared<S, A>>,
                                                        steps: seq<Step<R>>, n: nat)
    requires Run(sv, states, steps) && Undisturbed(sv, states, steps) && n < |states|
    ensures states[n].stored == Serial(sv, states[0].stored, Saved(steps[..n]))
    ensures states[n].answers == SerialAnswers(sv, states[0].stored, Saved(steps[..n]))
  {
    if n > 0 {
      var step := steps[n - 1];
      UndisturbedIsSerial(sv, states, steps, n - 1);
      assert steps[..n][..n - 1] == steps[..n - 1];
      if step.Save? {
        CopyIsCurrent(sv, states, steps, n - 1);
        SerialSnoc(sv, states[0].stored, Saved(steps[..n - 1]), step.request);
      } else {
        assert Saved(steps[..n]) == Saved(steps[..n - 1]);
      }
    }
  }

  /** Two requests load, then both save: the later one saves what it computed on the older record. */
  function Overlapping<R>(first: R, second: R): seq<Step<R>> {
    [Load(0), Load(1), Save(0, first), Save(1, second)]
  }

  function OverlapStates<S, R, A>(sv: Service<S, R, A>, start: S, first: R, second: R): seq<Shared<S, A>> {
    var steps := Overlapping(first, second);
    var s0 := Shared(start, map[], []);
    var s1 := Exec(sv, s0, steps[0]);
    var s2 := Exec(sv, s1, steps[1]);
    var s3 := Exec(sv, s2, steps[2]);
    [s0, s1, s2, s3, Exec(sv, s3, steps[3])]
  }

  lemma OverlapResult<S, R, A>(sv: Service<S, R, A>, start: S, first: R, second: R)
    ensures var states := OverlapStates(sv, start, first, second);
            && Run(sv, states, Overlapping(first, second))
            && states[3].stored == sv.Next(start, first)
            && states[4].stored == sv.Save(start, sv.Next(start, first), second)
            && states[4].answers == [sv.answer(start, first), sv.answer(start, second)]
  {
  }
}
