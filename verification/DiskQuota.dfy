/**
 The disk usage counters under concurrent requests (common/disk_cache_config.go and the
 disk stores of common/body_storage.go). The counters are separate atomic variables, and
 the test against the maximum is not atomic with counting the file. Every atomic operation
 is one step, so a run is an arbitrary interleaving of arbitrarily many creations and closings.
 */
module DiskQuota {

  /** How far one disk store has come; its next atomic operation is given by the stage. */
  datatype Stage =
    | Admitted       // IsDiskCacheAvailable said yes; the file is being written
    | FileCounted    // ActiveDiskFiles was incremented, CurrentDiskUsageBytes not yet
    | Open           // counted
    | FileDropped    // Close has decremented ActiveDiskFiles, CurrentDiskUsageBytes not yet
    | FloorFiles     // ActiveDiskFiles was found negative and is about to be set to zero
    | FloorBytes     // the same for CurrentDiskUsageBytes
    | Gone

  /** A store: the length it was admitted with, and the size that was written. */
  datatype Store = Store(stage: Stage, declared: nat, size: nat)

  /** The two counters and every disk store ever admitted. */
  datatype State = State(files: int, bytes: int, stores: seq<Store>)

  datatype Step =
    | Admit(declared: nat)
    | Fail(i: nat)
    | CountFile(i: nat, size: nat)
    | CountBytes(i: nat)
    | DropFile(i: nat)
    | SetFilesToZero(i: nat)
    | DropBytes(i: nat)
    | SetBytesToZero(i: nat)

  predicate AtStage(s: State, i: nat, stage: Stage) {
    i < |s.stores| && s.stores[i].stage == stage
  }

  predicate Enabled(max: int, s: State, step: Step) {
    match step
    case Admit(declared) => s.bytes + declared <= max
    case Fail(i) => AtStage(s, i, Admitted)
    case CountFile(i, _) => AtStage(s, i, Admitted)
    case CountBytes(i) => AtStage(s, i, FileCounted)
    case DropFile(i) => AtStage(s, i, Open)
    case SetFilesToZero(i) => AtStage(s, i, FloorFiles)
    case DropBytes(i) => AtStage(s, i, FileDropped)
    case SetBytesToZero(i) => AtStage(s, i, FloorBytes)
  }

  /** The store moves on to another stage. */
  function Moved(s: State, i: nat, stage: Stage): State
    requires i < |s.stores|
  {
    s.(stores := s.stores[i := s.stores[i].(stage := stage)])
  }

  function Exec(max: int, s: State, step: Step): State
    requires Enabled(max, s, step)
  {
    match step
    case Admit(declared) => s.(stores := s.stores + [Store(Admitted, declared, declared)])
    case Fail(i) => Moved(s, i, Gone)
    case CountFile(i, size) =>
      s.(files := s.files + 1, stores := s.stores[i := s.stores[i].(stage := FileCounted, size := size)])
    case CountBytes(i) => Moved(s, i, Open).(bytes := s.bytes + s.stores[i].size)
    case DropFile(i) => Moved(s, i, if s.files - 1 < 0 then FloorFiles else FileDropped).(files := s.files - 1)
    case SetFilesToZero(i) => Moved(s, i, FileDropped).(files := 0)
    case DropBytes(i) =>
      var left := s.bytes - s.stores[i].size;
      Moved(s, i, if left < 0 then FloorBytes else Gone).(bytes := left)
    case SetBytesToZero(i) => Moved(s, i, Gone).(bytes := 0)
  }

  ghost predicate Run(max: int, states: seq<State>, steps: seq<Step>) {
    && |states| == |steps| + 1
    && states[0] == State(0, 0, [])
    && forall i :: 0 <= i < |steps| ==>
        Enabled(max, states[i], steps[i]) && states[i + 1] == Exec(max, states[i], steps[i])
  }

  // ----- The counters are exact ------------------------------------------------

  function Files(st: Store): nat {
    if st.stage.FileCounted? || st.stage.Open? then 1 else 0
  }

  function Bytes(st: Store): nat {
    if st.stage.Open? || st.stage.FileDropped? then st.size else 0
  }

  /** What a creation in flight may still add. */
  function Reserved(st: Store): nat {
    if st.stage.Admitted? || st.stage.FileCounted? then st.size else 0
  }

  function InFlight(st: Store): nat {
    if st.stage.Admitted? || st.stage.FileCounted? then 1 else 0
  }

  function Total(stores: seq<Store>, f: Store -> nat): nat {
    if stores == [] then 0 else Total(stores[..|stores| - 1], f) + f(stores[|stores| - 1])
  }

  lemma TotalAppend(stores: seq<Store>, st: Store, f: Store -> nat)
    ensures Total(stores + [st], f) == Total(stores, f) + f(st)
  {
    assert (stores + [st])[..|stores|] == stores;
  }

  lemma {:induction false} TotalUpdate(stores: seq<Store>, i: nat, st: Store, f: Store -> nat)
    requires i < |stores|
    ensures Total(stores[i := st], f) == Total(stores, f) - f(stores[i]) + f(st)
    ensures Total(stores, f) >= f(stores[i])
  {
    var last := |stores| - 1;
    if i == last {
      assert stores[i := st][..last] == stores[..last];
    } else {
      TotalUpdate(stores[..last], i, st, f);
      assert stores[i := st][..last] == stores[..last][i := st];
    }
  }

  /** The counters are what the stores add up to, and no counter is about to be set to zero. */
  ghost predicate Exact(s: State) {
    && s.files == Total(s.stores, Files)
    && s.bytes == Total(s.stores, Bytes)
    && forall i :: 0 <= i < |s.stores| ==> !AtFloor(s.stores[i])
  }

  predicate AtFloor(st: Store) {
    st.stage.FloorFiles? || st.stage.FloorBytes?
  }

  /** A step moves the counters as it moves its store, if they cover the store and it is not being floored. */
  lemma LocalEffect(max: int, s: State, step: Step)
    requires Enabled(max, s, step) && !step.Admit?
    requires !AtFloor(s.stores[step.i]) && s.files >= Files(s.stores[step.i]) && s.bytes >= Bytes(s.stores[step.i])
    ensures var s' := Exec(max, s, step);
            && |s'.stores| == |s.stores| && s'.stores == s.stores[step.i := s'.stores[step.i]]
            && !AtFloor(s'.stores[step.i])
            && s'.files - s.files == Files(s'.stores[step.i]) - Files(s.stores[step.i])
            && s'.bytes - s.bytes == Bytes(s'.stores[step.i]) - Bytes(s.stores[step.i])
  {
  }

  lemma ExactExec(max: int, s: State, step: Step)
    requires Enabled(max, s, step) && Exact(s)
    ensures Exact(Exec(max, s, step))
  {
    if step.Admit? {
      var st := Store(Admitted, step.declared, step.declared);
      TotalAppend(s.stores, st, Files);
      TotalAppend(s.stores, st, Bytes);
    } else {
      ExactMove(max, s, step);
    }
  }

  lemma ExactMove(max: int, s: State, step: Step)
    requires Enabled(max, s, step) && !step.Admit? && Exact(s)
    ensures Exact(Exec(max, s, step))
  {
    var i, st' := step.i, Exec(max, s, step).stores[step.i];
    TotalUpdate(s.stores, i, st', Files);
    TotalUpdate(s.stores, i, st', Bytes);
    LocalEffect(max, s, step);
  }

  lemma {:induction false} RunExact(max: int, states: seq<State>, steps: seq<Step>, n: nat)
    requires Run(max, states, steps) && n < |states|
    ensures Exact(states[n])
  {
    if n > 0 {
      RunExact(max, states, steps, n - 1);
      ExactExec(max, states[n - 1], steps[n - 1]);
    }
  }

  /** In no interleaving is a counter ever found negative, so it is never set to zero. */
  lemma NeverNegative(max: int, states: seq<State>, steps: seq<Step>, n: nat)
    requires Run(max, states, steps) && n < |states|
    ensures states[n].files >= 0 && states[n].bytes >= 0
    ensures n < |steps| ==> !steps[n].SetFilesToZero? && !steps[n].SetBytesToZero?
  {
    RunExact(max, states, steps, n);
  }

  // ----- How far the maximum can be exceeded -----------------------------------

  /** No client sends more than it declared. */
  ghost predicate Honest(states: seq<State>, steps: seq<Step>) {
    |states| == |steps| + 1 &&
    forall k :: 0 <= k < |steps| && steps[k].CountFile? && steps[k].i < |states[k].stores| ==>
      steps[k].size <= states[k].stores[steps[k].i].declared
  }

  /** At most `n` creations are in flight at once. */
  ghost predicate AtMostInFlight(states: seq<State>, n: nat) {
    forall k :: 0 <= k < |states| ==> Total(states[k].stores, InFlight) <= n
  }

  /** A creation in flight reserves no more than it declared, and nobody is admitted with more than the maximum. */
  ghost predicate Modest(max: int, s: State) {
    forall i :: 0 <= i < |s.stores| ==>
      && s.stores[i].declared <= max
      && (s.stores[i].stage.Admitted? ==> s.stores[i].size == s.stores[i].declared)
      && (s.stores[i].stage.FileCounted? ==> s.stores[i].size <= s.stores[i].declared)
  }

  lemma {:induction false} ReservedBound(max: nat, stores: seq<Store>)
    requires forall i :: 0 <= i < |stores| ==> Reserved(stores[i]) <= max
    ensures Total(stores, Reserved) <= Total(stores, InFlight) * max
  {
    if stores != [] {
      var init, last := stores[..|stores| - 1], stores[|stores| - 1];
      ReservedBound(max, init);
      assert (Total(init, InFlight) + 1) * max == Total(init, InFlight) * max + max;
    }
  }

  lemma ModestExec(max: int, s: State, step: Step)
    requires Enabled(max, s, step) && Exact(s) && Modest(max, s)
    requires step.CountFile? ==> step.size <= s.stores[step.i].declared
    ensures Modest(max, Exec(max, s, step))
  {
  }

  lemma {:induction false} MulMono(a: nat, b: nat, max: nat)
    requires a < b
    ensures a * max + max <= b * max
    decreases b
  {
    if a + 1 < b {
      MulMono(a, b - 1, max);
    }
    assert b * max == (b - 1) * max + max;
  }

  /** A new creation is tested against what is counted; the others in flight reserve the maximum at most. */
  lemma AdmitBound(max: nat, s: State, declared: nat, n: nat)
    requires Enabled(max, s, Admit(declared)) && Modest(max, s)
    requires Total(Exec(max, s, Admit(declared)).stores, InFlight) <= n
    ensures var s' := Exec(max, s, Admit(declared)); s'.bytes + Total(s'.stores, Reserved) <= n * max
  {
    var st := Store(Admitted, declared, declared);
    TotalAppend(s.stores, st, Reserved);
    TotalAppend(s.stores, st, InFlight);
    ReservedBound(max, s.stores);
    MulMono(Total(s.stores, InFlight), n, max);
  }

  /** No other step raises what is counted and what is still to come. */
  lemma NoRise(max: int, s: State, step: Step)
    requires Enabled(max, s, step) && !step.Admit? && Exact(s) && Modest(max, s)
    requires step.CountFile? ==> step.size <= s.stores[step.i].declared
    ensures var s' := Exec(max, s, step);
            s'.bytes + Total(s'.stores, Reserved) <= s.bytes + Total(s.stores, Reserved)
  {
    var s' := Exec(max, s, step);
    TotalUpdate(s.stores, step.i, s'.stores[step.i], Reserved);
    assert s'.stores == s.stores[step.i := s'.stores[step.i]];
  }

  lemma {:induction false} RunBound(max: nat, states: seq<State>, steps: seq<Step>, n: nat, k: nat)
    requires Run(max, states, steps) && Honest(states, steps) && AtMostInFlight(states, n) && k < |states|
    ensures Modest(max, states[k]) && states[k].bytes + Total(states[k].stores, Reserved) <= n * max
    decreases k
  {
    if k > 0 {
      RunBound(max, states, steps, n, k - 1);
      RunExact(max, states, steps, k - 1);
      ModestExec(max, states[k - 1], steps[k - 1]);
      if steps[k - 1].Admit? {
        AdmitBound(max, states[k - 1], steps[k - 1].declared, n);
      } else {
        NoRise(max, states[k - 1], steps[k - 1]);
      }
    }
  }

  /**
   While clients send what they declare and at most `n` creations overlap, the usage never
   exceeds `n` times the maximum; without overlap it never exceeds the maximum.
   */
  lemma UsageBound(max: nat, states: seq<State>, steps: seq<Step>, n: nat, k: nat)
    requires Run(max, states, steps) && Honest(states, steps) && AtMostInFlight(states, n) && k < |states|
    ensures states[k].bytes <= n * max
  {
    RunBound(max, states, steps, n, k);
  }

  // ----- The bound is reached --------------------------------------------------

  /** `n` stores, the first `done` of them counted with the whole maximum and the rest admitted with it. */
  function Overlapping(max: nat, n: nat, done: nat): State
    requires done <= n
  {
    State(done, done * max, seq(n, i requires 0 <= i < n => Store(if i < done then Open else Admitted, max, max)))
  }

  /** A run from the empty system to a state. */
  ghost predicate Reaches(max: nat, states: seq<State>, steps: seq<Step>, s: State, n: nat) {
    && Run(max, states, steps) && Honest(states, steps) && AtMostInFlight(states, n)
    && states[|states| - 1] == s
  }

  lemma {:induction false} TotalAtMostLength(stores: seq<Store>)
    ensures Total(stores, InFlight) <= |stores|
  {
    if stores != [] {
      TotalAtMostLength(stores[..|stores| - 1]);
    }
  }

  lemma Extend(max: nat, states: seq<State>, steps: seq<Step>, s: State, step: Step, n: nat)
    requires Reaches(max, states, steps, s, n) && Enabled(max, s, step)
    requires step.CountFile? ==> step.size <= s.stores[step.i].declared
    requires |Exec(max, s, step).stores| <= n
    ensures Reaches(max, states + [Exec(max, s, step)], steps + [step], Exec(max, s, step), n)
  {
    TotalAtMostLength(Exec(max, s, step).stores);
  }

  lemma CountOne(max: nat, n: nat, done: nat)
    requires done < n
    ensures var s := Overlapping(max, n, done);
            && Enabled(max, s, CountFile(done, max))
            && Enabled(max, Exec(max, s, CountFile(done, max)), CountBytes(done))
            && Exec(max, Exec(max, s, CountFile(done, max)), CountBytes(done)) == Overlapping(max, n, done + 1)
  {
    assert (done + 1) * max == done * max + max;
  }

  /** First all stores are admitted, then they are counted one after the other. */
  lemma {:induction false} AdmitAndCount(max: nat, m: nat, done: nat, n: nat)
    returns (states: seq<State>, steps: seq<Step>)
    requires done <= m <= n && (done > 0 ==> m == n)
    ensures Reaches(max, states, steps, Overlapping(max, m, done), n)
    decreases m + done
  {
    if m == 0 {
      states, steps := [State(0, 0, [])], [];
    } else if done == 0 {
      states, steps := AdmitAndCount(max, m - 1, 0, n);
      var s := Overlapping(max, m - 1, 0);
      Extend(max, states, steps, s, Admit(max), n);
      states, steps := states + [Exec(max, s, Admit(max))], steps + [Admit(max)];
      assert Exec(max, s, Admit(max)) == Overlapping(max, m, 0);
    } else {
      states, steps := AdmitAndCount(max, n, done - 1, n);
      CountOne(max, n, done - 1);
      var s := Overlapping(max, n, done - 1);
      var s' := Exec(max, s, CountFile(done - 1, max));
      Extend(max, states, steps, s, CountFile(done - 1, max), n);
      states, steps := states + [s'], steps + [CountFile(done - 1, max)];
      Extend(max, states, steps, s', CountBytes(done - 1), n);
      states, steps := states + [Exec(max, s', CountBytes(done - 1))], steps + [CountBytes(done - 1)];
    }
  }

  /** The bound cannot be improved: `n` overlapping creations can bring the usage to `n` times the maximum. */
  lemma BoundIsReached(max: nat, n: nat) returns (states: seq<State>, steps: seq<Step>)
    ensures Run(max, states, steps) && Honest(states, steps) && AtMostInFlight(states, n)
    ensures states[|states| - 1].bytes == n * max
  {
    states, steps := AdmitAndCount(max, n, n, n);
  }
}
