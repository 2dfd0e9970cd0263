/** Tasks run in goroutines of their own, at most `limit` at a time; a failing task cancels the rest. */
module Runner {
  import opened Wrappers

  type Error = int

  /** How far the goroutine of one task is. From `Running` to `Leaving` it holds a passport. */
  datatype Task =
    | Waiting
    | Running
    | Failing(e: Error)          // the task returned an error that is not yet recorded
    | Recorded(e: Error)         // inside Cancel, the error is recorded
    | Leaving(result: Option<Error>)
    | Skipped                    // no passport: the task never ran
    | Finished(result: Option<Error>)

  predicate HasPassport(t: Task) {
    t.Running? || t.Failing? || t.Recorded? || t.Leaving?
  }

  datatype Owner = Free | ByTask(c: nat) | ByCaller

  /** `result` is what each task returns when it runs; `tokens` is the fill of the passport channel; `runs`, `silent` and `given` record how often
      each task ran, whether a caller cancelled without an error, and the errors of callers. */
  datatype State = State(
    limit: nat, tokens: nat, cancelled: bool, err: Option<Error>, lock: Owner, tasks: seq<Task>,
    runs: seq<nat>, silent: bool, given: set<Error>, result: nat -> Option<Error>)

  ghost predicate Init(s: State) {
    && s.tokens == 0 && !s.cancelled && s.err.None? && s.lock.Free?
    && s.tasks == [] && s.runs == [] && !s.silent && s.given == {}
  }

  // The steps

  ghost predicate AddTask(s: State, t: State) {
    t == s.(tasks := s.tasks + [Waiting], runs := s.runs + [0])
  }

  ghost predicate Is(s: State, c: nat, task: Task) {
    c < |s.tasks| && s.tasks[c] == task
  }

  /** A passport is free; after a cancel this case may still be chosen. */
  ghost predicate Apply(s: State, t: State, c: nat) {
    && Is(s, c, Waiting) && s.tokens < s.limit && c < |s.runs|
    && t == s.(tokens := s.tokens + 1, tasks := s.tasks[c := Running], runs := s.runs[c := s.runs[c] + 1])
  }

  ghost predicate Skip(s: State, t: State, c: nat) {
    Is(s, c, Waiting) && s.cancelled && t == s.(tasks := s.tasks[c := Skipped])
  }

  ghost predicate Return(s: State, t: State, c: nat) {
    && Is(s, c, Running)
    && t == s.(tasks := s.tasks[c := if s.result(c).Some? then Failing(s.result(c).value) else Leaving(None)])
  }

  ghost predicate Record(s: State, t: State, c: nat, e: Error) {
    && Is(s, c, Failing(e)) && s.lock.Free?
    && t == s.(tasks := s.tasks[c := Recorded(e)], err := Some(e), lock := ByTask(c))
  }

  ghost predicate Stop(s: State, t: State, c: nat, e: Error) {
    && Is(s, c, Recorded(e)) && s.lock == ByTask(c)
    && t == s.(tasks := s.tasks[c := Leaving(Some(e))], cancelled := true, lock := Free)
  }

  ghost predicate Revoke(s: State, t: State, c: nat, result: Option<Error>) {
    && Is(s, c, Leaving(result)) && s.tokens > 0
    && t == s.(tokens := s.tokens - 1, tasks := s.tasks[c := Finished(result)])
  }

  /** After a cancel, revoking may return without taking a passport back. */
  ghost predicate RevokeNothing(s: State, t: State, c: nat, result: Option<Error>) {
    Is(s, c, Leaving(result)) && s.cancelled && t == s.(tasks := s.tasks[c := Finished(result)])
  }

  ghost predicate CallerRecords(s: State, t: State, e: Error) {
    s.lock.Free? && t == s.(err := Some(e), lock := ByCaller, given := s.given + {e})
  }

  ghost predicate CallerStops(s: State, t: State) {
    s.lock.ByCaller? && t == s.(cancelled := true, lock := Free)
  }

  ghost predicate CallerStopsSilently(s: State, t: State) {
    t == s.(cancelled := true, silent := true)
  }

  ghost predicate TaskStep(s: State, t: State, c: nat) {
    || Apply(s, t, c) || Skip(s, t, c) || Return(s, t, c)
    || (exists result :: Revoke(s, t, c, result) || RevokeNothing(s, t, c, result))
    || (exists e :: Record(s, t, c, e) || Stop(s, t, c, e))
  }

  ghost predicate Next(s: State, t: State) {
    || AddTask(s, t) || CallerStops(s, t) || CallerStopsSilently(s, t)
    || (exists e :: CallerRecords(s, t, e))
    || (exists c :: TaskStep(s, t, c))
  }

  ghost predicate IsRun(run: seq<State>) {
    && run != [] && Init(run[0])
    && forall i :: 0 <= i < |run| - 1 ==> Next(run[i], run[i + 1])
  }

  // The invariant

  ghost function Count(tasks: seq<Task>, p: Task -> bool): nat {
    if tasks == [] then 0 else (if p(tasks[0]) then 1 else 0) + Count(tasks[1..], p)
  }

  lemma {:induction false} CountUpdate(tasks: seq<Task>, p: Task -> bool, c: nat, t: Task)
    requires c < |tasks|
    ensures Count(tasks[c := t], p) + (if p(tasks[c]) then 1 else 0) == Count(tasks, p) + (if p(t) then 1 else 0)
  {
    if c > 0 {
      assert tasks[c := t][1..] == tasks[1..][c - 1 := t];
      CountUpdate(tasks[1..], p, c - 1, t);
    } else {
      assert tasks[c := t][1..] == tasks[1..];
    }
  }

  lemma {:induction false} CountAppend(tasks: seq<Task>, p: Task -> bool, t: Task)
    ensures Count(tasks + [t], p) == Count(tasks, p) + (if p(t) then 1 else 0)
  {
    if tasks == [] {
      assert (tasks + [t])[1..] == [];
    } else {
      assert (tasks + [t])[1..] == tasks[1..] + [t];
      CountAppend(tasks[1..], p, t);
    }
  }

  lemma {:induction false} CountWeaker(tasks: seq<Task>, p: Task -> bool, q: Task -> bool)
    requires forall t :: p(t) ==> q(t)
    ensures Count(tasks, p) <= Count(tasks, q)
  {
    if tasks != [] {
      CountWeaker(tasks[1..], p, q);
    }
  }

  /** The task returned, and its error, if any, is recorded. */
  predicate Ended(t: Task, result: Option<Error>) {
    t == Leaving(result) || t == Finished(result) || (result.Some? && t == Recorded(result.value))
  }

  predicate Failed(t: Task) {
    t.Recorded? || (t.Leaving? && t.result.Some?) || (t.Finished? && t.result.Some?)
  }

  /** What the task carries is what it returned. */
  predicate Told(t: Task, result: Option<Error>) {
    match t
    case Failing(e) => result == Some(e)
    case Recorded(e) => result == Some(e)
    case Leaving(r) => result == r
    case Finished(r) => result == r
    case _ => true
  }

  ghost predicate TaskInv(s: State, c: nat)
    requires c < |s.tasks|
  {
    && c < |s.runs|
    && s.runs[c] == (if s.tasks[c].Waiting? || s.tasks[c].Skipped? then 0 else 1)
    && (s.tasks[c].Skipped? ==> s.cancelled)
    && (Failed(s.tasks[c]) ==> s.err.Some?)
    && (Failed(s.tasks[c]) && !s.tasks[c].Recorded? ==> s.cancelled)
    && Told(s.tasks[c], s.result(c))
  }

  /** A recorded error is one of a task or of a caller. */
  ghost predicate ErrorIsReal(s: State) {
    s.err.Some? ==>
      s.err.value in s.given || exists c :: 0 <= c < |s.tasks| && Ended(s.tasks[c], s.err)
  }

  ghost predicate Inv(s: State) {
    && Count(s.tasks, HasPassport) <= s.tokens <= s.limit
    && (!s.cancelled ==> Count(s.tasks, HasPassport) == s.tokens)
    && |s.runs| == |s.tasks|
    && (forall c :: 0 <= c < |s.tasks| ==> TaskInv(s, c))
    && (s.cancelled ==> s.err.Some? || s.silent)
    && (s.lock.ByCaller? ==> s.err.Some?)
    && LockInv(s)
    && (s.silent || (s.given != {} && !s.lock.ByCaller?) ==> s.cancelled)
    && ErrorIsReal(s)
  }

  lemma TaskStepInv(s: State, t: State, c: nat)
    requires Inv(s) && TaskStep(s, t, c)
    ensures Inv(t) && t.limit == s.limit && t.result == s.result
  {
    hide ErrorIsReal, TaskInv, TaskStep;
    TaskStepMoves(s, t, c);
    CountUpdate(s.tasks, HasPassport, c, t.tasks[c]);
    TaskStepKeepsTasks(s, t, c);
    TaskStepKeepsError(s, t, c);
    TaskStepLocks(s, t, c);
  }

  ghost predicate LockInv(s: State) {
    && (s.lock.ByTask? ==> s.lock.c < |s.tasks| && s.tasks[s.lock.c].Recorded?)
    && (forall c :: 0 <= c < |s.tasks| && s.tasks[c].Recorded? ==> s.lock == ByTask(c))
  }

  lemma TaskStepLocks(s: State, t: State, c: nat)
    requires LockInv(s) && TaskStep(s, t, c)
    ensures LockInv(t)
  {
  }

  ghost function Passports(t: Task): nat {
    if HasPassport(t) then 1 else 0
  }

  /** One task moves, and its passport with it, except that one may stay behind. */
  lemma TaskStepMoves(s: State, t: State, c: nat)
    requires TaskStep(s, t, c) && s.tokens <= s.limit
    ensures c < |s.tasks| == |t.tasks| && t.tasks == s.tasks[c := t.tasks[c]] && |t.runs| == |s.runs|
    ensures t.tokens + Passports(s.tasks[c]) >= s.tokens + Passports(t.tasks[c]) && t.tokens <= t.limit == s.limit
    ensures !t.cancelled ==> !s.cancelled && t.tokens + Passports(s.tasks[c]) == s.tokens + Passports(t.tasks[c])
    ensures s.err.Some? ==> t.err.Some?
    ensures t.lock.ByCaller? ==> s.lock.ByCaller?
    ensures t.result == s.result && t.silent == s.silent && t.given == s.given && (s.cancelled ==> t.cancelled) && (s.lock.ByCaller? ==> t.lock.ByCaller?)
  {
  }

  lemma TaskStepKeepsTasks(s: State, t: State, c: nat)
    requires |s.runs| == |s.tasks| && (forall d :: 0 <= d < |s.tasks| ==> TaskInv(s, d)) && TaskStep(s, t, c)
    ensures forall d :: 0 <= d < |t.tasks| ==> TaskInv(t, d)
    ensures t.cancelled && !s.cancelled ==> t.err.Some?
  {
    assert TaskInv(s, c);
    forall d | 0 <= d < |t.tasks| ensures TaskInv(t, d) {
      assert TaskInv(s, d);
    }
  }

  lemma TaskStepKeepsError(s: State, t: State, c: nat)
    requires ErrorIsReal(s) && TaskStep(s, t, c)
    ensures ErrorIsReal(t)
  {
    if t.err.Some? && t.err.value !in t.given {
      if t.err == s.err {
        var d :| 0 <= d < |s.tasks| && Ended(s.tasks[d], s.err);
        assert Ended(t.tasks[d], t.err);
      } else {
        assert Ended(t.tasks[c], t.err);
      }
    }
  }

  lemma OutsideStepInv(s: State, t: State)
    requires Inv(s)
    requires AddTask(s, t) || CallerStops(s, t) || CallerStopsSilently(s, t) || exists e :: CallerRecords(s, t, e)
    ensures Inv(t) && t.limit == s.limit && t.result == s.result
  {
    if AddTask(s, t) {
      CountAppend(s.tasks, HasPassport, Waiting);
    }
    forall c | 0 <= c < |t.tasks| ensures TaskInv(t, c) {
      if c < |s.tasks| { assert TaskInv(s, c); }
    }
    if t.err.Some? && t.err.value !in t.given {
      var d :| 0 <= d < |s.tasks| && Ended(s.tasks[d], s.err);
      assert Ended(t.tasks[d], t.err);
    }
  }

  lemma {:induction false} RunInv(run: seq<State>, i: nat)
    requires IsRun(run) && i < |run|
    ensures Inv(run[i]) && run[i].limit == run[0].limit && run[i].result == run[0].result
  {
    hide Inv, TaskStep;
    if i == 0 {
      InitInv(run[0]);
    } else {
      var k := i - 1;
      RunInv(run, k);
      assert Next(run[k], run[k + 1]);
      NextInv(run[k], run[k + 1]);
    }
  }

  lemma NextInv(s: State, t: State)
    requires Inv(s) && Next(s, t)
    ensures Inv(t) && t.limit == s.limit && t.result == s.result
  {
    hide Inv, TaskStep;
    if c :| TaskStep(s, t, c) {
      TaskStepInv(s, t, c);
    } else {
      OutsideStepInv(s, t);
    }
  }

  lemma InitInv(s: State)
    requires Init(s)
    ensures Inv(s)
  {
  }

  /** In every interleaving no more than `limit` tasks run at a time, and each runs at most once. */
  lemma NeverAboveTheLimit(run: seq<State>, i: nat)
    requires IsRun(run) && i < |run|
    ensures Count(run[i].tasks, (t: Task) => t.Running?) <= run[0].limit
    ensures |run[i].runs| == |run[i].tasks| && forall c :: 0 <= c < |run[i].tasks| ==> run[i].runs[c] <= 1
  {
    RunInv(run, i);
    CountWeaker(run[i].tasks, (t: Task) => t.Running?, HasPassport);
    forall c | 0 <= c < |run[i].tasks| ensures run[i].runs[c] <= 1 {
      assert TaskInv(run[i], c);
    }
  }

  /** Before a cancel no passport is lost; a task that failed and left, and a caller that returned
      from Cancel, have cancelled the rest. */
  lemma FailureCancels(run: seq<State>, i: nat, c: nat)
    requires IsRun(run) && i < |run| && c < |run[i].tasks|
    ensures !run[i].cancelled ==> run[i].tokens == Count(run[i].tasks, HasPassport)
    ensures run[i].tasks[c].Skipped? ==> run[i].cancelled
    ensures run[i].silent || (run[i].given != {} && !run[i].lock.ByCaller?) ==> run[i].cancelled
    ensures (run[i].tasks[c].Leaving? || run[i].tasks[c].Finished?) && run[i].tasks[c].result.Some? ==> run[i].cancelled && run[i].err.Some?
  {
    RunInv(run, i);
    assert TaskInv(run[i], c);
  }

  /** In step `j` somebody takes the lock and records an error: the task that failed with it, or a
      caller. */
  ghost predicate Records(run: seq<State>, j: nat, e: Error) {
    && j + 1 < |run| && run[j].lock.Free? && run[j + 1].err == Some(e)
    && match run[j + 1].lock
       case Free => false
       case ByTask(c) => c < |run[j].tasks| && run[j].tasks[c] == Failing(e)
       case ByCaller => e in run[j + 1].given
  }

  /** The lock is taken in step `j`. */
  ghost predicate Locks(run: seq<State>, j: nat) {
    j + 1 < |run| && run[j].lock.Free? && !run[j + 1].lock.Free?
  }

  lemma StepRecords(s: State, t: State)
    requires Next(s, t)
    ensures s.lock.Free? && !t.lock.Free? ==> t.err.Some? && match t.lock
      case Free => true
      case ByTask(c) => c < |s.tasks| && s.tasks[c] == Failing(t.err.value)
      case ByCaller => t.err.value in t.given
    ensures !(s.lock.Free? && !t.lock.Free?) ==> t.err == s.err
  {
  }

  /** The error that Wait returns is the last one recorded. */
  lemma {:induction false} LastErrorStands(run: seq<State>, i: nat) returns (j: nat)
    requires IsRun(run) && i < |run| && run[i].err.Some?
    ensures j < i && Records(run, j, run[i].err.value) && forall k :: j < k < i ==> !Locks(run, k)
    decreases i
  {
    j := i - 1;
    assert Next(run[j], run[j + 1]);
    StepRecords(run[j], run[j + 1]);
    hide Next;
    if !Locks(run, j) {
      j := LastErrorStands(run, j);
    }
  }

  /** The wait group is at zero: every task added so far is through. */
  ghost predicate AllThrough(s: State) {
    forall c :: 0 <= c < |s.tasks| ==> s.tasks[c].Skipped? || s.tasks[c].Finished?
  }

  ghost predicate AllSucceeded(s: State) {
    |s.runs| == |s.tasks| && forall c :: 0 <= c < |s.tasks| ==> s.runs[c] == 1 && s.result(c).None?
  }

  lemma {:induction false} SomeoneHolds(tasks: seq<Task>, p: Task -> bool) returns (c: nat)
    requires Count(tasks, p) > 0
    ensures c < |tasks| && p(tasks[c])
  {
    if p(tasks[0]) {
      c := 0;
    } else {
      var d := SomeoneHolds(tasks[1..], p);
      c := d + 1;
    }
  }

  ghost predicate CanMove(s: State) {
    exists t: State, c: nat :: t.tasks != s.tasks && TaskStep(s, t, c)
  }

  /** A task with a passport moves on, unless it waits for the lock. */
  lemma HolderMoves(s: State, c: nat)
    requires c < |s.tasks| && HasPassport(s.tasks[c]) && s.tokens > 0
    requires s.tasks[c].Recorded? ==> s.lock == ByTask(c)
    ensures CanMove(s) || (s.tasks[c].Failing? && !s.lock.Free?)
  {
    match s.tasks[c] {
      case Running =>
        var t := s.(tasks := s.tasks[c := if s.result(c).Some? then Failing(s.result(c).value) else Leaving(None)]);
        assert t.tasks[c] != s.tasks[c] && Return(s, t, c) && TaskStep(s, t, c);
      case Failing(e) =>
        if s.lock.Free? {
          var t := s.(tasks := s.tasks[c := Recorded(e)], err := Some(e), lock := ByTask(c));
          assert t.tasks[c] != s.tasks[c] && Record(s, t, c, e) && TaskStep(s, t, c);
        }
      case Recorded(e) =>
        var t := s.(tasks := s.tasks[c := Leaving(Some(e))], cancelled := true, lock := Free);
        assert t.tasks[c] != s.tasks[c] && Stop(s, t, c, e) && TaskStep(s, t, c);
      case Leaving(result) =>
        var t := s.(tokens := s.tokens - 1, tasks := s.tasks[c := Finished(result)]);
        assert t.tasks[c] != s.tasks[c] && Revoke(s, t, c, result) && TaskStep(s, t, c);
    }
  }

  /** A waiting task gets a passport, is skipped, or somebody holds one. */
  lemma WaiterMoves(s: State, c: nat)
    requires Inv(s) && s.limit > 0 && c < |s.tasks| && s.tasks[c].Waiting?
    ensures CanMove(s) || Count(s.tasks, HasPassport) > 0
  {
    assert TaskInv(s, c);
    if s.tokens < s.limit {
      var t := s.(tokens := s.tokens + 1, tasks := s.tasks[c := Running], runs := s.runs[c := s.runs[c] + 1]);
      assert t.tasks[c] != s.tasks[c] && Apply(s, t, c) && TaskStep(s, t, c);
    } else if s.cancelled {
      var t := s.(tasks := s.tasks[c := Skipped]);
      assert t.tasks[c] != s.tasks[c] && Skip(s, t, c) && TaskStep(s, t, c);
    }
  }

  /** Nothing is stuck: until all tasks are through some task can move, or a caller inside Cancel
      has the lock. */
  lemma NeverStuck(run: seq<State>, i: nat)
    requires IsRun(run) && i < |run| && run[0].limit > 0 && !AllThrough(run[i])
    ensures CanMove(run[i]) || run[i].lock.ByCaller?
  {
    RunInv(run, i);
    var s := run[i];
    hide IsRun, CanMove, TaskInv, ErrorIsReal;
    var c: nat :| c < |s.tasks| && !s.tasks[c].Skipped? && !s.tasks[c].Finished?;
    if s.tasks[c].Waiting? {
      WaiterMoves(s, c);
    } else {
      SomeoneCounts(s.tasks, HasPassport, c);
    }
    if !CanMove(s) {
      var d := SomeoneHolds(s.tasks, HasPassport);
      HolderMoves(s, d);
      if s.lock.ByTask? {
        SomeoneCounts(s.tasks, HasPassport, s.lock.c);
        HolderMoves(s, s.lock.c);
      }
    }
  }

  lemma {:induction false} SomeoneCounts(tasks: seq<Task>, p: Task -> bool, c: nat)
    requires c < |tasks| && p(tasks[c])
    ensures Count(tasks, p) > 0
  {
    if c > 0 {
      SomeoneCounts(tasks[1..], p, c - 1);
    }
  }

  /** What Wait returns. Without a caller's Cancel(nil), nil means that every task ran and
      succeeded; without callers' errors it is nil only if they did; an error comes from
      a task that ran, or from a caller. */
  lemma WaitTellsTheTruth(run: seq<State>, i: nat)
    requires IsRun(run) && i < |run| && AllThrough(run[i])
    ensures run[i].err.None? && !run[i].silent ==> AllSucceeded(run[i])
    ensures AllSucceeded(run[i]) && run[i].given == {} ==> run[i].err.None?
    ensures run[i].err.Some? && run[i].err.value !in run[i].given ==>
      exists c :: 0 <= c < |run[i].tasks| && |run[i].runs| == |run[i].tasks| && run[i].runs[c] == 1 && run[i].result(c) == run[i].err
    ensures run[i].result == run[0].result
  {
    RunInv(run, i);
    var s := run[i];
    forall c | 0 <= c < |s.tasks|
      ensures |s.runs| == |s.tasks|
      ensures s.err.None? && !s.silent ==> s.result(c).None? && s.runs[c] == 1
    {
      assert TaskInv(s, c);
    }
    if s.err.Some? && s.err.value !in s.given {
      var c :| 0 <= c < |s.tasks| && Ended(s.tasks[c], s.err);
      assert TaskInv(s, c) && s.tasks[c] == Finished(s.err);
    }
  }

  /** With a caller's Cancel(nil), nil may be returned although a task never ran. */
  lemma SilentCancelHidesSkippedTask()
    ensures exists run: seq<State> :: IsRun(run) && AllThrough(run[|run| - 1]) && run[|run| - 1].err.None? && !AllSucceeded(run[|run| - 1])
  {
    var s0 := State(1, 0, false, None, Free, [], [], false, {}, _ => None);
    var s1 := s0.(tasks := s0.tasks + [Waiting], runs := s0.runs + [0]);
    var s2 := s1.(cancelled := true, silent := true);
    var s3 := s2.(tasks := s2.tasks[0 := Skipped]);
    var run := [s0, s1, s2, s3];
    assert AddTask(s0, s1) && CallerStopsSilently(s1, s2);
    assert Skip(s2, s3, 0) && TaskStep(s2, s3, 0);
    assert s3.tasks[0] == Skipped && s3.runs[0] == 0;
    assert IsRun(run) && AllThrough(run[3]) && !AllSucceeded(run[3]);
  }
}
