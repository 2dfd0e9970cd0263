/** Any number of callers update one quota row under an optimistic lock, with retries. */
module QuotaProtocol {
  import opened Int64
  import opened QuotaOps
  import opened Wrappers

  /** What a caller asked for; a refresh counts the usage anew on every attempt. */
  datatype Kind = AskReserve(r: Resources) | AskRollback(r: Resources) | AskRefresh(ignoreLimits: bool)

  predicate Resolves(kind: Kind, op: Op) {
    match kind
    case AskReserve(r) => op == Reserve(r)
    case AskRollback(r) => op == Rollback(r)
    case AskRefresh(ignoreLimits) => op.Refresh? && op.ignoreLimits == ignoreLimits
  }

  /** One acknowledged operation and the time it was in progress. */
  datatype Entry = Entry(client: nat, op: Op, start: nat, end: nat)

  datatype Client =
    | Idle
    | Ready(kind: Kind, start: nat)
    | Loaded(kind: Kind, start: nat, used: Resources, version: int, seen: nat)
    | Writing(kind: Kind, start: nat, used: Resources, version: int, seen: nat, op: Op, after: Resources)

  /** The stored row and the callers, followed by the history: the usage after each write,
      the writes, the operations that changed nothing (by the number of writes they had
      seen), the time of each write, and everything acknowledged. */
  datatype State = State(
    used: Resources, version: int, clients: seq<Client>,
    now: nat, values: seq<Resources>, writes: seq<Entry>, noops: seq<seq<Entry>>, times: seq<nat>,
    acked: multiset<Entry>)

  datatype Event = Internal | Accepted(op: Op) | Refused

  const VERSIONS := 0x8000_0000_0000_0000

  function Bump(version: int): int {
    if version == VERSIONS - 1 then 0 else version + 1
  }

  ghost predicate Turn(s: State, t: State, c: nat, next: Client) {
    c < |s.clients| && t.clients == s.clients[c := next] && t.now == s.now + 1
  }

  ghost predicate SameHistory(s: State, t: State) {
    && t.used == s.used && t.version == s.version && t.values == s.values
    && t.writes == s.writes && t.noops == s.noops && t.times == s.times && t.acked == s.acked
  }

  ghost predicate Invoke(s: State, t: State, c: nat, kind: Kind) {
    c < |s.clients| && s.clients[c].Idle? && Turn(s, t, c, Ready(kind, s.now)) && SameHistory(s, t)
  }

  ghost predicate Read(s: State, t: State, c: nat) {
    && c < |s.clients| && s.clients[c].Ready?
    && Turn(s, t, c, Loaded(s.clients[c].kind, s.clients[c].start, s.used, s.version, |s.writes|))
    && SameHistory(s, t)
  }

  /** A timeout, a cancelled context or a failing lookup. */
  ghost predicate GiveUp(s: State, t: State, c: nat) {
    c < |s.clients| && !s.clients[c].Idle? && Turn(s, t, c, Idle) && SameHistory(s, t)
  }

  /** The operation is refused. */
  ghost predicate Refuse(hard: Resources, s: State, t: State, c: nat, op: Op) {
    && c < |s.clients| && s.clients[c].Loaded? && Resolves(s.clients[c].kind, op)
    && Apply(op, hard, s.clients[c].used).None?
    && Turn(s, t, c, Idle) && SameHistory(s, t)
  }

  /** The operation changes nothing: success without a write. */
  ghost predicate EarlyReturn(hard: Resources, s: State, t: State, c: nat, op: Op) {
    && c < |s.clients| && s.clients[c].Loaded? && Resolves(s.clients[c].kind, op)
    && Apply(op, hard, s.clients[c].used) == Some(s.clients[c].used)
    && Turn(s, t, c, Idle)
    && var e := Entry(c, op, s.clients[c].start, s.now);
    && t.used == s.used && t.version == s.version && t.values == s.values && t.writes == s.writes && t.times == s.times
    && s.clients[c].seen < |s.noops|
    && t.noops == s.noops[s.clients[c].seen := s.noops[s.clients[c].seen] + [e]]
    && t.acked == s.acked + multiset{e}
  }

  ghost predicate Prepare(hard: Resources, s: State, t: State, c: nat, op: Op) {
    && c < |s.clients| && s.clients[c].Loaded? && Resolves(s.clients[c].kind, op)
    && var Loaded(kind, start, used, version, seen) := s.clients[c];
    && Apply(op, hard, used).Some? && Apply(op, hard, used).value != used
    && Turn(s, t, c, Writing(kind, start, used, version, seen, op, Apply(op, hard, used).value))
    && SameHistory(s, t)
  }

  /** The update matched the version it had read. */
  ghost predicate Write(s: State, t: State, c: nat) {
    && c < |s.clients| && s.clients[c].Writing? && s.clients[c].version == s.version
    && Turn(s, t, c, Idle)
    && var e := Entry(c, s.clients[c].op, s.clients[c].start, s.now);
    && t.used == s.clients[c].after && t.version == Bump(s.version)
    && t.values == s.values + [s.clients[c].after] && t.writes == s.writes + [e]
    && t.noops == s.noops + [[]] && t.times == s.times + [s.now]
    && t.acked == s.acked + multiset{e}
  }

  /** The optimistic lock failed; try again from the read. */
  ghost predicate Retry(s: State, t: State, c: nat) {
    && c < |s.clients| && s.clients[c].Writing? && s.clients[c].version != s.version
    && Turn(s, t, c, Ready(s.clients[c].kind, s.clients[c].start)) && SameHistory(s, t)
  }

  ghost predicate Step(hard: Resources, s: State, t: State, c: nat, event: Event) {
    match event
    case Internal => Read(s, t, c) || Retry(s, t, c) || (exists op :: Prepare(hard, s, t, c, op))
    case Accepted(op) => EarlyReturn(hard, s, t, c, op) || (Write(s, t, c) && s.clients[c].op == op)
    case Refused => GiveUp(s, t, c) || (exists op :: Refuse(hard, s, t, c, op))
  }

  ghost predicate Next(hard: Resources, s: State, t: State) {
    (exists c, kind :: Invoke(s, t, c, kind)) || (exists c, event :: Step(hard, s, t, c, event))
  }

  ghost predicate Init(s: State) {
    && 0 <= s.version < VERSIONS && s.now == 0
    && (forall c :: 0 <= c < |s.clients| ==> s.clients[c].Idle?)
    && s.values == [s.used] && s.writes == [] && s.noops == [[]] && s.times == [] && s.acked == multiset{}
  }

  ghost predicate IsRun(hard: Resources, run: seq<State>) {
    && run != [] && Init(run[0])
    && forall i :: 0 <= i < |run| - 1 ==> Next(hard, run[i], run[i + 1])
  }

  /** A write comes fewer than 2^63 writes after the read it rests on. */
  ghost predicate FreshStep(s: State, t: State) {
    forall c: nat :: Write(s, t, c) ==> |s.writes| - s.clients[c].seen < VERSIONS
  }

  ghost predicate Fresh(run: seq<State>) {
    forall i :: 0 <= i < |run| - 1 ==> FreshStep(run[i], run[i + 1])
  }

  // The invariant

  function VersionAfter(v0: int, writes: nat): int {
    (v0 + writes) % VERSIONS
  }

  /** A caller's version is current exactly when the number of writes since is a multiple of 2^63. */
  lemma VersionsRepeat(v0: int, seen: nat, writes: nat)
    requires 0 <= v0 < VERSIONS && seen <= writes
    ensures VersionAfter(v0, seen) == VersionAfter(v0, writes) <==> (writes - seen) % VERSIONS == 0
  {
    var q, r := (writes - seen) / VERSIONS, (writes - seen) % VERSIONS;
    assert v0 + writes == (v0 + seen + r) + VERSIONS * q;
    ModShift(v0 + seen + r, q);
    var q2, r2 := (v0 + seen) / VERSIONS, (v0 + seen) % VERSIONS;
    assert v0 + seen + r == (r2 + r) + VERSIONS * q2;
    ModShift(r2 + r, q2);
    if r2 + r >= VERSIONS {
      ModShift(r2 + r - VERSIONS, 1);
    }
  }

  lemma ModShift(x: int, q: int)
    ensures (x + VERSIONS * q) % VERSIONS == x % VERSIONS
  {
    var a, b := x / VERSIONS, x % VERSIONS;
    assert x + VERSIONS * q == VERSIONS * (a + q) + b;
  }

  ghost predicate HistoryInv(hard: Resources, v0: int, s: State) {
    && |s.values| == |s.noops| == |s.writes| + 1 && |s.times| == |s.writes|
    && s.used == s.values[|s.writes|] && s.version == VersionAfter(v0, |s.writes|)
    && (forall i :: 0 <= i < |s.writes| ==> Apply(s.writes[i].op, hard, s.values[i]) == Some(s.values[i + 1]))
    && (forall i, k :: 0 <= i < |s.noops| && 0 <= k < |s.noops[i]| ==>
          Apply(s.noops[i][k].op, hard, s.values[i]) == Some(s.values[i]))
  }

  ghost predicate TimeInv(s: State) {
    && |s.noops| == |s.writes| + 1 && |s.times| == |s.writes|
    && (forall i :: 0 <= i < |s.times| ==> s.times[i] < s.now)
    && (forall i, j :: 0 <= i < j < |s.times| ==> s.times[i] < s.times[j])
    && (forall i :: 0 <= i < |s.writes| ==> s.writes[i].start <= s.times[i] == s.writes[i].end)
    && (forall i, k :: 0 <= i < |s.noops| && 0 <= k < |s.noops[i]| ==>
          && s.noops[i][k].start <= s.noops[i][k].end < s.now
          && (i < |s.times| ==> s.noops[i][k].start <= s.times[i])
          && (0 < i ==> s.times[i - 1] <= s.noops[i][k].end))
    && (forall i, k, l :: 0 <= i < |s.noops| && 0 <= k < l < |s.noops[i]| ==> s.noops[i][k].end <= s.noops[i][l].end)
  }

  ghost predicate ClientInv(hard: Resources, v0: int, s: State, c: nat)
    requires c < |s.clients|
  {
    var p := s.clients[c];
    && (p.Idle? || p.start <= s.now)
    && (p.Loaded? || p.Writing? ==>
          && p.seen <= |s.writes| && p.seen < |s.values|
          && p.used == s.values[p.seen] && p.version == VersionAfter(v0, p.seen)
          && (p.seen < |s.times| ==> p.start <= s.times[p.seen]))
    && (p.Writing? ==> Resolves(p.kind, p.op) && Apply(p.op, hard, p.used) == Some(p.after))
  }

  ghost predicate Inv(hard: Resources, v0: int, s: State) {
    && 0 <= v0 < VERSIONS
    && HistoryInv(hard, v0, s) && TimeInv(s)
    && (forall c :: 0 <= c < |s.clients| ==> ClientInv(hard, v0, s, c))
    && s.acked == multiset(Log(s.writes, s.noops, |s.writes|))
  }

  /** The acknowledged operations in one order: those that saw `n` writes and changed
      nothing come just before the write that followed. */
  ghost function Log(writes: seq<Entry>, noops: seq<seq<Entry>>, n: nat): seq<Entry>
    requires n <= |writes| && n < |noops|
  {
    if n == 0 then noops[0] else Log(writes, noops, n - 1) + [writes[n - 1]] + noops[n]
  }

  ghost function Occurs(log: seq<Entry>, x: Entry): nat {
    multiset(log)[x]
  }

  lemma LogOccurs(writes: seq<Entry>, noops: seq<seq<Entry>>, n: nat, x: Entry)
    requires n <= |writes| && n < |noops|
    ensures Occurs(Log(writes, noops, n), x) ==
            if n == 0 then Occurs(noops[0], x)
            else Occurs(Log(writes, noops, n - 1), x) + (if writes[n - 1] == x then 1 else 0) + Occurs(noops[n], x)
  {
  }

  lemma AppendOccurs(log: seq<Entry>, e: Entry, x: Entry)
    ensures Occurs(log + [e], x) == Occurs(log, x) + if e == x then 1 else 0
  {
  }

  lemma {:induction false} LogCount(writes: seq<Entry>, noops: seq<seq<Entry>>, n: nat, i: nat, e: Entry, x: Entry)
    requires n <= |writes| && n < |noops| && i < |noops|
    ensures Occurs(Log(writes, noops[i := noops[i] + [e]], n), x)
            == Occurs(Log(writes, noops, n), x) + if i <= n && e == x then 1 else 0
  {
    hide Log, Occurs;
    var more := noops[i := noops[i] + [e]];
    AppendOccurs(noops[i], e, x);
    LogOccurs(writes, noops, n, x);
    LogOccurs(writes, more, n, x);
    if n > 0 {
      LogCount(writes, noops, n - 1, i, e, x);
    }
  }

  lemma LogInsert(writes: seq<Entry>, noops: seq<seq<Entry>>, n: nat, i: nat, e: Entry)
    requires i <= n <= |writes| && n < |noops|
    ensures multiset(Log(writes, noops[i := noops[i] + [e]], n)) == multiset(Log(writes, noops, n)) + multiset{e}
  {
    hide Log;
    forall x ensures multiset(Log(writes, noops[i := noops[i] + [e]], n))[x] == (multiset(Log(writes, noops, n)) + multiset{e})[x] {
      LogCount(writes, noops, n, i, e, x);
    }
  }

  lemma {:induction false} LogFrame(writes: seq<Entry>, noops: seq<seq<Entry>>, n: nat, w: Entry, z: seq<Entry>)
    requires n <= |writes| && n < |noops|
    ensures Log(writes + [w], noops + [z], n) == Log(writes, noops, n)
  {
    if n > 0 {
      LogFrame(writes, noops, n - 1, w, z);
    }
  }

  lemma QuietStep(hard: Resources, v0: int, s: State, t: State, c: nat, next: Client)
    requires Inv(hard, v0, s) && Turn(s, t, c, next) && SameHistory(s, t) && ClientInv(hard, v0, t, c)
    ensures Inv(hard, v0, t)
  {
    QuietHistory(hard, v0, s, t);
    hide HistoryInv, TimeInv, Log;
    forall d | 0 <= d < |t.clients| ensures ClientInv(hard, v0, t, d) {
      if d != c { assert ClientInv(hard, v0, s, d); }
    }
  }

  lemma QuietHistory(hard: Resources, v0: int, s: State, t: State)
    requires HistoryInv(hard, v0, s) && TimeInv(s) && SameHistory(s, t) && s.now <= t.now
    ensures HistoryInv(hard, v0, t) && TimeInv(t)
  {
  }

  lemma EarlyReturnHistory(hard: Resources, v0: int, s: State, t: State, c: nat, op: Op)
    requires HistoryInv(hard, v0, s) && EarlyReturn(hard, s, t, c, op) && ClientInv(hard, v0, s, c)
    ensures HistoryInv(hard, v0, t)
  {
    var i := s.clients[c].seen;
    forall j, k | 0 <= j < |t.noops| && 0 <= k < |t.noops[j]|
      ensures Apply(t.noops[j][k].op, hard, t.values[j]) == Some(t.values[j])
    {
      if j == i && k == |s.noops[i]| {
      } else {
        assert t.noops[j][k] == s.noops[j][k];
      }
    }
  }

  lemma EarlyReturnTimes(hard: Resources, v0: int, s: State, t: State, c: nat, op: Op)
    requires TimeInv(s) && EarlyReturn(hard, s, t, c, op) && ClientInv(hard, v0, s, c)
    ensures TimeInv(t)
  {
    var i := s.clients[c].seen;
    var last := |s.noops[i]|;
    assert t.noops[i][last] == Entry(c, op, s.clients[c].start, s.now);
    forall j, k | 0 <= j < |t.noops| && 0 <= k < |t.noops[j]|
      ensures !(j == i && k == last) ==> k < |s.noops[j]| && t.noops[j][k] == s.noops[j][k]
      ensures t.noops[j][k].start <= t.noops[j][k].end < t.now
      ensures j < |t.times| ==> t.noops[j][k].start <= t.times[j]
      ensures 0 < j ==> t.times[j - 1] <= t.noops[j][k].end
    {
    }
  }

  lemma OthersStay(hard: Resources, v0: int, s: State, t: State, c: nat)
    requires Turn(s, t, c, Idle) && s.values <= t.values && s.times <= t.times && |s.writes| <= |t.writes|
    requires |s.values| == |s.writes| + 1 && |s.times| == |s.writes|
    requires forall i :: |s.times| <= i < |t.times| ==> t.times[i] >= s.now
    requires forall d :: 0 <= d < |s.clients| ==> ClientInv(hard, v0, s, d)
    ensures forall d :: 0 <= d < |t.clients| ==> ClientInv(hard, v0, t, d)
  {
    forall d | 0 <= d < |t.clients| ensures ClientInv(hard, v0, t, d) {
      if d != c { assert ClientInv(hard, v0, s, d); }
    }
  }

  lemma EarlyReturnStep(hard: Resources, v0: int, s: State, t: State, c: nat, op: Op)
    requires Inv(hard, v0, s) && EarlyReturn(hard, s, t, c, op)
    ensures Inv(hard, v0, t)
  {
    hide HistoryInv, TimeInv;
    assert ClientInv(hard, v0, s, c);
    EarlyReturnHistory(hard, v0, s, t, c, op);
    EarlyReturnTimes(hard, v0, s, t, c, op);
    Shape(hard, v0, s);
    LogInsert(s.writes, s.noops, |s.writes|, s.clients[c].seen, Entry(c, op, s.clients[c].start, s.now));
    OthersStay(hard, v0, s, t, c);
  }

  lemma Shape(hard: Resources, v0: int, s: State)
    requires HistoryInv(hard, v0, s)
    ensures |s.values| == |s.noops| == |s.writes| + 1 && |s.times| == |s.writes|
    ensures s.used == s.values[|s.writes|] && s.version == VersionAfter(v0, |s.writes|)
  {
  }

  lemma WriteHistory(hard: Resources, v0: int, s: State, t: State, c: nat)
    requires HistoryInv(hard, v0, s) && Write(s, t, c) && ClientInv(hard, v0, s, c)
    requires s.clients[c].seen == |s.writes| && 0 <= v0
    ensures HistoryInv(hard, v0, t)
  {
    BumpAfter(v0, |s.writes|);
    forall i | 0 <= i < |t.writes| ensures Apply(t.writes[i].op, hard, t.values[i]) == Some(t.values[i + 1]) {
      if i < |s.writes| {
        assert t.writes[i] == s.writes[i] && t.values[i] == s.values[i] && t.values[i + 1] == s.values[i + 1];
      }
    }
    assert forall i :: 0 <= i < |s.noops| ==> t.noops[i] == s.noops[i] && t.values[i] == s.values[i];
  }

  lemma BumpAfter(v0: int, writes: nat)
    requires 0 <= v0
    ensures Bump(VersionAfter(v0, writes)) == VersionAfter(v0, writes + 1)
  {
    var q, r := (v0 + writes) / VERSIONS, (v0 + writes) % VERSIONS;
    assert v0 + writes + 1 == (r + 1) + VERSIONS * q;
    ModShift(r + 1, q);
  }

  lemma WriteTimes(hard: Resources, v0: int, s: State, t: State, c: nat)
    requires TimeInv(s) && Write(s, t, c) && ClientInv(hard, v0, s, c)
    ensures TimeInv(t)
  {
    assert forall i :: 0 <= i < |s.noops| ==> t.noops[i] == s.noops[i];
    assert forall i :: 0 <= i < |s.times| ==> t.times[i] == s.times[i] && t.writes[i] == s.writes[i];
  }

  /** With fewer than 2^63 writes since the read, a matching version means the row is still as it was read. */
  lemma WriteStep(hard: Resources, v0: int, s: State, t: State, c: nat)
    requires Inv(hard, v0, s) && Write(s, t, c) && |s.writes| - s.clients[c].seen < VERSIONS
    ensures Inv(hard, v0, t)
    ensures s.clients[c].used == s.used && Apply(s.clients[c].op, hard, s.used) == Some(t.used)
  {
    hide HistoryInv, TimeInv;
    assert ClientInv(hard, v0, s, c);
    Shape(hard, v0, s);
    VersionsRepeat(v0, s.clients[c].seen, |s.writes|);
    WriteHistory(hard, v0, s, t, c);
    WriteTimes(hard, v0, s, t, c);
    var e := Entry(c, s.clients[c].op, s.clients[c].start, s.now);
    LogFrame(s.writes, s.noops, |s.writes|, e, []);
    assert t.noops[|t.writes|] == [];
    assert Log(t.writes, t.noops, |t.writes|) == Log(s.writes, s.noops, |s.writes|) + [e];
    OthersStay(hard, v0, s, t, c);
  }

  lemma QuietPhases(hard: Resources, v0: int, s: State, t: State, c: nat)
    requires Inv(hard, v0, s) && c < |s.clients|
    requires (exists kind :: Invoke(s, t, c, kind)) || Read(s, t, c) || GiveUp(s, t, c) || Retry(s, t, c)
             || (exists op :: Prepare(hard, s, t, c, op) || Refuse(hard, s, t, c, op))
    ensures Inv(hard, v0, t) && SameHistory(s, t)
  {
    hide TimeInv, Log;
    assert ClientInv(hard, v0, s, c);
    assert ClientInv(hard, v0, t, c);
    QuietStep(hard, v0, s, t, c, t.clients[c]);
  }

  lemma StepInv(hard: Resources, v0: int, s: State, t: State, c: nat, event: Event)
    requires Inv(hard, v0, s) && Step(hard, s, t, c, event) && FreshStep(s, t)
    ensures Inv(hard, v0, t) && |t.clients| == |s.clients|
  {
    hide HistoryInv, TimeInv, ClientInv, Inv;
    if event.Accepted? {
      if EarlyReturn(hard, s, t, c, event.op) {
        EarlyReturnStep(hard, v0, s, t, c, event.op);
      } else {
        WriteStep(hard, v0, s, t, c);
      }
    } else {
      QuietPhases(hard, v0, s, t, c);
    }
  }

  lemma NextInv(hard: Resources, v0: int, s: State, t: State)
    requires Inv(hard, v0, s) && Next(hard, s, t) && FreshStep(s, t)
    ensures Inv(hard, v0, t)
  {
    hide HistoryInv, TimeInv, ClientInv, Inv, Step;
    if c, kind :| Invoke(s, t, c, kind) {
      QuietPhases(hard, v0, s, t, c);
    } else {
      var c, event :| Step(hard, s, t, c, event);
      StepInv(hard, v0, s, t, c, event);
    }
  }

  lemma InitInv(hard: Resources, s: State)
    requires Init(s)
    ensures Inv(hard, s.version, s) && |s.writes| == 0
  {
    assert VersionAfter(s.version, 0) == s.version;
  }

  lemma {:induction false} RunInv(hard: Resources, run: seq<State>, i: nat)
    requires IsRun(hard, run) && i < |run| && Fresh(run)
    ensures Inv(hard, run[0].version, run[i])
  {
    hide Next, Inv, Init, FreshStep;
    if i == 0 {
      InitInv(hard, run[0]);
    } else {
      RunInv(hard, run, i - 1);
      var k := i - 1;
      assert Next(hard, run[k], run[k + 1]) && FreshStep(run[k], run[k + 1]);
      NextInv(hard, run[0].version, run[k], run[k + 1]);
    }
  }

  /** Runs of at most 2^63 states are fresh. */
  lemma ShortRunIsFresh(hard: Resources, run: seq<State>)
    requires IsRun(hard, run) && |run| <= VERSIONS
    ensures Fresh(run)
  {
    forall i | 0 <= i < |run| - 1 ensures FreshStep(run[i], run[i + 1]) {
      WritesGrow(hard, run, i);
    }
  }

  lemma {:induction false} WritesGrow(hard: Resources, run: seq<State>, i: nat)
    requires IsRun(hard, run) && i < |run|
    ensures |run[i].writes| <= i
  {
    if i > 0 {
      var k := i - 1;
      WritesGrow(hard, run, k);
      assert Next(hard, run[k], run[k + 1]);
      OneWriteAtMost(hard, run[k], run[k + 1]);
    }
  }

  lemma OneWriteAtMost(hard: Resources, s: State, t: State)
    requires Next(hard, s, t)
    ensures |t.writes| <= |s.writes| + 1
  {
  }

  // Linearizability

  /** Applying the operations one at a time. */
  ghost function Replay(hard: Resources, used: Resources, log: seq<Entry>): Option<Resources>
    decreases |log|
  {
    if log == [] then Some(used)
    else match Apply(log[0].op, hard, used)
         case None => None
         case Some(after) => Replay(hard, after, log[1..])
  }

  lemma {:induction false} ReplayAppend(hard: Resources, used: Resources, a: seq<Entry>, b: seq<Entry>)
    requires Replay(hard, used, a).Some?
    ensures Replay(hard, used, a + b) == Replay(hard, Replay(hard, used, a).value, b)
    decreases |a|
  {
    if a == [] {
      assert a + b == b;
    } else {
      assert (a + b)[1..] == a[1..] + b;
      ReplayAppend(hard, Apply(a[0].op, hard, used).value, a[1..], b);
    }
  }

  lemma {:induction false} ReplayNoops(hard: Resources, used: Resources, log: seq<Entry>)
    requires forall k :: 0 <= k < |log| ==> Apply(log[k].op, hard, used) == Some(used)
    ensures Replay(hard, used, log) == Some(used)
  {
    if log != [] {
      ReplayNoops(hard, used, log[1..]);
    }
  }

  lemma {:induction false} ReplayLog(hard: Resources, v0: int, s: State, n: nat)
    requires HistoryInv(hard, v0, s) && n <= |s.writes|
    ensures Replay(hard, s.values[0], Log(s.writes, s.noops, n)) == Some(s.values[n])
  {
    ReplayNoops(hard, s.values[n], s.noops[n]);
    if n > 0 {
      ReplayLog(hard, v0, s, n - 1);
      var before := Log(s.writes, s.noops, n - 1);
      var w := [s.writes[n - 1]];
      ReplayAppend(hard, s.values[0], before, w);
      assert Replay(hard, s.values[n - 1], w) == Some(s.values[n]) by {
        assert w[1..] == [];
      }
      ReplayAppend(hard, s.values[0], before + w, s.noops[n]);
    }
  }

  /** No operation is ordered before one that had ended when it started. */
  ghost predicate RealTime(log: seq<Entry>) {
    forall i, j :: 0 <= i < j < |log| ==> log[i].start <= log[j].end
  }

  lemma {:induction false} OrderLog(s: State, n: nat)
    requires TimeInv(s) && n <= |s.writes|
    ensures RealTime(Log(s.writes, s.noops, n))
    ensures n < |s.times| ==> forall i :: 0 <= i < |Log(s.writes, s.noops, n)| ==> Log(s.writes, s.noops, n)[i].start <= s.times[n]
  {
    if n > 0 {
      OrderLog(s, n - 1);
      var a, w, b := Log(s.writes, s.noops, n - 1), s.writes[n - 1], s.noops[n];
      var log := Log(s.writes, s.noops, n);
      assert log == a + [w] + b;
      forall i | 0 <= i < |log| ensures i <= |a| ==> log[i].start <= s.times[n - 1] {
      }
      forall j | 0 <= j < |log| ensures j >= |a| ==> s.times[n - 1] <= log[j].end {
      }
    }
  }

  /** In every run in which no write rests on a read 2^63 writes ago, the acknowledged operations,
      each once, applied one at a time in an order that respects real time, give the stored usage. */
  lemma Linearizable(hard: Resources, run: seq<State>, i: nat)
    requires IsRun(hard, run) && i < |run| && Fresh(run)
    ensures |run[i].noops| == |run[i].writes| + 1
    ensures var log := Log(run[i].writes, run[i].noops, |run[i].writes|);
      && multiset(log) == run[i].acked
      && RealTime(log)
      && Replay(hard, run[0].used, log) == Some(run[i].used)
  {
    RunInv(hard, run, i);
    FirstValue(hard, run, i);
    ReplayLog(hard, run[0].version, run[i], |run[i].writes|);
    OrderLog(run[i], |run[i].writes|);
  }

  // The books: plain sums over the acknowledged operations

  /** What one operation makes of an amount of resource `k`. */
  ghost function Entered(x: int, op: Op, k: string): int {
    match op
    case Reserve(r) => x + Value(r, k)
    case Rollback(r) => x - Value(r, k)
    case Refresh(counted, _) => Value(counted, k)
  }

  /** The amount of resource `k` after the operations in `log`, without any limit or width. */
  ghost function Booked(x: int, log: seq<Entry>, k: string): int
    decreases |log|
  {
    if log == [] then x else Booked(Entered(x, log[0].op, k), log[1..], k)
  }

  /** Only the last refresh and what follows it counts. */
  lemma {:induction false} BookedSinceRefresh(x: int, a: seq<Entry>, e: Entry, b: seq<Entry>, k: string)
    requires e.op.Refresh?
    ensures Booked(x, a + [e] + b, k) == Booked(Value(e.op.counted, k), b, k)
    decreases |a|
  {
    var all := a + [e] + b;
    if a == [] {
      assert all[1..] == b;
    } else {
      assert all[0] == a[0] && all[1..] == a[1..] + [e] + b;
      BookedSinceRefresh(Entered(x, a[0].op, k), a[1..], e, b, k);
    }
  }

  ghost predicate Counts64(log: seq<Entry>) {
    forall i :: 0 <= i < |log| && log[i].op.Refresh? ==> Int64s(log[i].op.counted)
  }

  /** One accepted operation keeps the stored amount equal to the booked one, modulo 2^64. */
  lemma EnteredIsStored(op: Op, hard: Resources, used: Resources, x: int, k: string)
    requires Apply(op, hard, used).Some? && Value(used, k) == Wrap(x) && Int64s(used) && (op.Refresh? ==> Int64s(op.counted))
    ensures Value(Apply(op, hard, used).value, k) == Wrap(Entered(x, op, k))
  {
    if op.Reserve? {
      ReserveOutcome(hard, used, op.r);
      WrapTwice(x, Value(op.r, k));
    } else if op.Rollback? {
      RollbackOutcome(hard, used, op.r);
      WrapTwice(x, -Value(op.r, k));
    } else {
      RefreshOutcome(hard, used, op.counted, op.ignoreLimits);
    }
  }

  lemma {:induction false} ReplayIsBooked(hard: Resources, used: Resources, log: seq<Entry>, x: int, k: string)
    requires Replay(hard, used, log).Some? && Int64s(used) && Counts64(log) && Value(used, k) == Wrap(x)
    ensures Value(Replay(hard, used, log).value, k) == Wrap(Booked(x, log, k))
    decreases |log|
  {
    if log != [] {
      var after := Apply(log[0].op, hard, used).value;
      EnteredIsStored(log[0].op, hard, used, x, k);
      ApplyIsInt64(log[0].op, hard, used);
      forall i | 0 <= i < |log[1..]| && log[1..][i].op.Refresh? ensures Int64s(log[1..][i].op.counted) {
        assert log[1..][i] == log[i + 1];
      }
      ReplayIsBooked(hard, after, log[1..], Entered(x, log[0].op, k), k);
    }
  }

  /** In every run, with refreshes or without, the stored amount of each resource is what the
      acknowledged operations add up to since the last refresh, modulo 2^64. */
  lemma UsageIsBooked(hard: Resources, run: seq<State>, i: nat, k: string)
    requires IsRun(hard, run) && i < |run| && Fresh(run) && Int64s(run[0].used)
    requires forall e :: e in run[i].acked && e.op.Refresh? ==> Int64s(e.op.counted)
    ensures |run[i].noops| == |run[i].writes| + 1
    ensures Value(run[i].used, k) ==
      Wrap(Booked(Value(run[0].used, k), Log(run[i].writes, run[i].noops, |run[i].writes|), k))
  {
    Linearizable(hard, run, i);
    hide IsRun, Fresh, Log;
    var log := Log(run[i].writes, run[i].noops, |run[i].writes|);
    forall j | 0 <= j < |log| && log[j].op.Refresh? ensures Int64s(log[j].op.counted) {
      assert log[j] in multiset(log);
    }
    ReplayIsBooked(hard, run[0].used, log, Value(run[0].used, k), k);
  }

  lemma {:induction false} FirstValue(hard: Resources, run: seq<State>, i: nat)
    requires IsRun(hard, run) && i < |run|
    ensures run[i].values != [] && run[i].values[0] == run[0].used
  {
    if i > 0 {
      FirstValue(hard, run, i - 1);
      var k := i - 1;
      assert Next(hard, run[k], run[k + 1]);
      ValuesGrow(hard, run[k], run[k + 1]);
    }
  }

  lemma ValuesGrow(hard: Resources, s: State, t: State)
    requires Next(hard, s, t)
    ensures s.values <= t.values
  {
  }

  /** Every request so far was of non-negative amounts, and no reservation overflowed 64 bits. */
  ghost predicate Benign(s: State) {
    |s.writes| < |s.values| &&
    forall i :: 0 <= i < |s.writes| ==>
      match s.writes[i].op
      case Reserve(r) => Int64s(r) && NonNegative(r) && Fits(s.values[i], r)
      case Rollback(r) => Int64s(r) && NonNegative(r)
      case Refresh(counted, _) => Int64s(counted)
  }

  lemma {:induction false} ValuesSafe(hard: Resources, v0: int, s: State, n: nat)
    requires HistoryInv(hard, v0, s) && Benign(s) && ValidLimits(hard) && n <= |s.writes|
    requires Int64s(s.values[0]) && NonNegative(s.values[0])
    ensures Int64s(s.values[n]) && NonNegative(s.values[n])
    ensures n > 0 && Below(hard, s.values[n - 1]) && !Below(hard, s.values[n]) ==>
      s.writes[n - 1].op.Refresh? && s.writes[n - 1].op.ignoreLimits
  {
    if n > 0 {
      var k := n - 1;
      ValuesSafe(hard, v0, s, k);
      assert Apply(s.writes[k].op, hard, s.values[k]) == Some(s.values[k + 1]);
      ApplySafe(s.writes[k].op, hard, s.values[k]);
    }
  }

  /** Every operation written so far was of non-negative 64-bit amounts. */
  ghost predicate ProperWrites(s: State) {
    forall i :: 0 <= i < |s.writes| ==>
      match s.writes[i].op
      case Reserve(r) => Int64s(r) && NonNegative(r)
      case Rollback(r) => Int64s(r) && NonNegative(r)
      case Refresh(counted, _) => Int64s(counted)
  }

  ghost predicate Overflows(s: State, i: nat)
    requires i < |s.writes| && i < |s.values|
  {
    s.writes[i].op.Reserve? && !Fits(s.values[i], s.writes[i].op.r)
  }

  lemma ApplyIsInt64(op: Op, hard: Resources, used: Resources)
    requires Int64s(used) && Apply(op, hard, used).Some? && (op.Refresh? ==> Int64s(op.counted))
    ensures Int64s(Apply(op, hard, used).value)
  {
  }

  lemma {:induction false} ValuesAreInt64(hard: Resources, v0: int, s: State, n: nat)
    requires HistoryInv(hard, v0, s) && ProperWrites(s) && n <= |s.writes| && Int64s(s.values[0])
    ensures Int64s(s.values[n])
  {
    if n > 0 {
      var k := n - 1;
      ValuesAreInt64(hard, v0, s, k);
      assert Apply(s.writes[k].op, hard, s.values[k]) == Some(s.values[k + 1]);
      ApplyIsInt64(s.writes[k].op, hard, s.values[k]);
    }
  }

  /** In every interleaving of reserve, rollback and refresh no stored usage was ever negative if
      and only if no reservation overflowed 64 bits. */
  lemma NeverNegative(hard: Resources, run: seq<State>, i: nat)
    requires IsRun(hard, run) && i < |run| && Fresh(run) && ValidLimits(hard) && ProperWrites(run[i])
    requires Int64s(run[0].used) && NonNegative(run[0].used)
    ensures |run[i].values| == |run[i].writes| + 1
    ensures (forall n :: 0 <= n <= |run[i].writes| ==> NonNegative(run[i].values[n])) <==>
      forall n :: 0 <= n < |run[i].writes| ==> !Overflows(run[i], n)
  {
    var s := run[i];
    RunInv(hard, run, i);
    FirstValue(hard, run, i);
    hide IsRun, Fresh;
    if forall n :: 0 <= n <= |s.writes| ==> NonNegative(s.values[n]) {
      forall n | 0 <= n < |s.writes| ensures !Overflows(s, n) {
        ValuesAreInt64(hard, run[0].version, s, n);
        OverflowShows(hard, run[0].version, s, n);
      }
    }
    if forall n :: 0 <= n < |s.writes| ==> !Overflows(s, n) {
      NoneOverflows(s);
      forall n | 0 <= n <= |s.writes| ensures NonNegative(s.values[n]) {
        ValuesSafe(hard, run[0].version, s, n);
      }
    }
  }

  lemma NoneOverflows(s: State)
    requires ProperWrites(s) && |s.values| == |s.writes| + 1
    requires forall n :: 0 <= n < |s.writes| ==> !Overflows(s, n)
    ensures Benign(s)
  {
    forall n | 0 <= n < |s.writes| && s.writes[n].op.Reserve? ensures Fits(s.values[n], s.writes[n].op.r) {
      assert !Overflows(s, n);
    }
  }

  lemma OverflowShows(hard: Resources, v0: int, s: State, n: nat)
    requires HistoryInv(hard, v0, s) && ProperWrites(s) && n < |s.writes| && Int64s(s.values[n])
    requires NonNegative(s.values[n]) && NonNegative(s.values[n + 1])
    ensures !Overflows(s, n)
  {
    assert Apply(s.writes[n].op, hard, s.values[n]) == Some(s.values[n + 1]);
    if s.writes[n].op.Reserve? {
      ReserveStaysNonNegative(hard, s.values[n], s.writes[n].op.r);
    }
  }

  /** What `c` holds as read was stored at some time since its call began. */
  lemma {:induction false} ReadDuringCall(hard: Resources, run: seq<State>, i: nat, c: nat) returns (j: nat)
    requires IsRun(hard, run) && i < |run| && c < |run[i].clients|
    requires run[i].clients[c].Loaded? || run[i].clients[c].Writing?
    ensures j <= i && run[i].clients[c].start <= j && run[j].used == run[i].clients[c].used
  {
    j := i;
    if i > 0 {
      var k := i - 1;
      assert Next(hard, run[k], run[k + 1]);
      ClientStep(hard, run[k], run[k + 1], c);
      hide Next;
      if run[k].clients[c].Ready? {
        StartedBefore(hard, run, k, c);
        j := k;
      } else {
        j := ReadDuringCall(hard, run, k, c);
      }
    }
  }

  /** One step as seen by `c`: its call just read, or holds what it held. */
  ghost predicate SeenBy(s: State, t: State, c: nat) {
    && c < |s.clients| == |t.clients| && t.now == s.now + 1
    && var p, q := s.clients[c], t.clients[c];
    && (q.Idle? || q.start == if p.Idle? then s.now else p.start)
    && (q.Loaded? || q.Writing? ==>
          if p.Ready? then q.used == s.used else (p.Loaded? || p.Writing?) && q.used == p.used)
  }

  lemma ClientStep(hard: Resources, s: State, t: State, c: nat)
    requires Next(hard, s, t) && c < |t.clients|
    ensures SeenBy(s, t, c)
  {
    hide Step, SeenBy;
    if d, kind :| Invoke(s, t, d, kind) {
      InvokeSeen(s, t, d, kind, c);
    } else {
      var d, event :| Step(hard, s, t, d, event);
      StepSeen(hard, s, t, d, event, c);
    }
  }

  lemma InvokeSeen(s: State, t: State, d: nat, kind: Kind, c: nat)
    requires Invoke(s, t, d, kind) && c < |t.clients|
    ensures SeenBy(s, t, c)
  {
  }

  lemma StepSeen(hard: Resources, s: State, t: State, d: nat, event: Event, c: nat)
    requires Step(hard, s, t, d, event) && c < |t.clients|
    ensures SeenBy(s, t, c)
  {
    hide Apply, Resolves;
  }

  lemma {:induction false} StartedBefore(hard: Resources, run: seq<State>, i: nat, c: nat)
    requires IsRun(hard, run) && i < |run| && c < |run[i].clients|
    ensures run[i].now == i && (run[i].clients[c].Idle? || run[i].clients[c].start <= i)
  {
    if i > 0 {
      var k := i - 1;
      assert Next(hard, run[k], run[k + 1]);
      ClientStep(hard, run[k], run[k + 1], c);
      hide Next;
      StartedBefore(hard, run, k, c);
    }
  }

  /** What an acknowledgement stands for: a call of that client that ended then, from its beginning,
      with the operation it asked for. */
  ghost predicate EndsCall(run: seq<State>, j: nat, e: Entry) {
    && j + 1 < |run| && e.end == j && e.client < |run[j].clients| == |run[j + 1].clients|
    && var p := run[j].clients[e.client];
    && (p.Loaded? || p.Writing?) && p.start == e.start && Resolves(p.kind, e.op)
    && run[j + 1].clients[e.client].Idle? && run[j + 1].acked == run[j].acked + multiset{e}
  }

  lemma StepAcks(hard: Resources, run: seq<State>, k: nat, e: Entry)
    requires IsRun(hard, run) && k + 1 < |run| && e in run[k + 1].acked && e !in run[k].acked
    requires run[k].now == k && forall c :: 0 <= c < |run[k].clients| && run[k].clients[c].Writing? ==>
      Resolves(run[k].clients[c].kind, run[k].clients[c].op)
    ensures EndsCall(run, k, e)
  {
    assert Next(hard, run[k], run[k + 1]);
    hide IsRun, Apply;
  }

  /** A call that is about to write has the operation it asked for. */
  lemma {:induction false} WritesWhatWasAsked(hard: Resources, run: seq<State>, i: nat, c: nat)
    requires IsRun(hard, run) && i < |run| && c < |run[i].clients|
    ensures run[i].clients[c].Writing? ==> Resolves(run[i].clients[c].kind, run[i].clients[c].op)
  {
    if i > 0 {
      var k := i - 1;
      assert Next(hard, run[k], run[k + 1]);
      AsksStill(hard, run[k], run[k + 1], c);
      hide Next, Init;
      if run[i].clients[c] == run[k].clients[c] {
        WritesWhatWasAsked(hard, run, k, c);
      }
    }
  }

  lemma AsksStill(hard: Resources, s: State, t: State, c: nat)
    requires Next(hard, s, t) && c < |t.clients|
    ensures c < |s.clients|
    ensures t.clients[c] == s.clients[c] || (t.clients[c].Writing? ==> Resolves(t.clients[c].kind, t.clients[c].op))
  {
    hide Apply, Resolves;
  }

  /** Every acknowledged operation is one call, which ended when it says. */
  lemma {:induction false} AckedIsReal(hard: Resources, run: seq<State>, i: nat, e: Entry)
    requires IsRun(hard, run) && i < |run| && e in run[i].acked
    ensures e.end < i && EndsCall(run, e.end, e)
    decreases i
  {
    hide Next;
    if i > 0 {
      var k := i - 1;
      if e in run[k].acked {
        AckedIsReal(hard, run, k, e);
      } else {
        forall c | 0 <= c < |run[k].clients| && run[k].clients[c].Writing?
          ensures Resolves(run[k].clients[c].kind, run[k].clients[c].op)
        {
          WritesWhatWasAsked(hard, run, k, c);
        }
        ClockTicks(hard, run, k);
        StepAcks(hard, run, k, e);
      }
    }
  }

  lemma {:induction false} ClockTicks(hard: Resources, run: seq<State>, i: nat)
    requires IsRun(hard, run) && i < |run|
    ensures run[i].now == i
  {
    if i > 0 {
      var k := i - 1;
      assert Next(hard, run[k], run[k + 1]);
      Ticks(hard, run[k], run[k + 1]);
      hide Next, Init;
      ClockTicks(hard, run, k);
    }
  }

  lemma Ticks(hard: Resources, s: State, t: State)
    requires Next(hard, s, t)
    ensures t.now == s.now + 1
  {
    hide Apply, Resolves;
  }

  /** No call is stuck: whatever the others do, it can go on without giving up. */
  lemma CallGoesOn(hard: Resources, s: State, c: nat, op: Op)
    requires c < |s.clients| && !s.clients[c].Idle? && (s.clients[c].Loaded? ==> Resolves(s.clients[c].kind, op) && s.clients[c].seen < |s.noops|)
    ensures exists t, event :: Step(hard, s, t, c, event) && t.clients != s.clients
  {
    hide Apply, Resolves;
    var p := s.clients[c];
    match p {
      case Ready(kind, start) =>
        var t := s.(now := s.now + 1, clients := s.clients[c := Loaded(kind, start, s.used, s.version, |s.writes|)]);
        assert t.clients[c] != p && Read(s, t, c) && Step(hard, s, t, c, Internal);
      case Writing(kind, start, used, version, seen, wop, after) =>
        if version == s.version {
          var e := Entry(c, wop, start, s.now);
          var t := State(after, Bump(s.version), s.clients[c := Idle], s.now + 1, s.values + [after], s.writes + [e],
                         s.noops + [[]], s.times + [s.now], s.acked + multiset{e});
          assert t.clients[c] != p && Write(s, t, c) && Step(hard, s, t, c, Accepted(wop));
        } else {
          var t := s.(now := s.now + 1, clients := s.clients[c := Ready(kind, start)]);
          assert t.clients[c] != p && Retry(s, t, c) && Step(hard, s, t, c, Internal);
        }
      case Loaded(_, _, _, _, _) =>
        LoadedGoesOn(hard, s, c, op);
    }
  }

  lemma LoadedGoesOn(hard: Resources, s: State, c: nat, op: Op)
    requires c < |s.clients| && s.clients[c].Loaded? && Resolves(s.clients[c].kind, op) && s.clients[c].seen < |s.noops|
    ensures exists t, event :: Step(hard, s, t, c, event) && t.clients != s.clients
  {
    hide Apply, Resolves;
    var p := s.clients[c];
    var result := Apply(op, hard, p.used);
    if result.None? {
      var t := s.(now := s.now + 1, clients := s.clients[c := Idle]);
      assert t.clients[c] != p && Refuse(hard, s, t, c, op) && Step(hard, s, t, c, Refused);
    } else if result == Some(p.used) {
      var e := Entry(c, op, p.start, s.now);
      var t := s.(now := s.now + 1, clients := s.clients[c := Idle], noops := s.noops[p.seen := s.noops[p.seen] + [e]],
                  acked := s.acked + multiset{e});
      assert t.clients[c] != p && EarlyReturn(hard, s, t, c, op) && Step(hard, s, t, c, Accepted(op));
    } else {
      var t := s.(now := s.now + 1,
                  clients := s.clients[c := Writing(p.kind, p.start, p.used, p.version, p.seen, op, result.value)]);
      assert t.clients[c] != p && Prepare(hard, s, t, c, op) && Step(hard, s, t, c, Internal);
    }
  }

  /** A refusal was right for a usage that was stored during the call. */
  lemma RefusalIsRight(hard: Resources, run: seq<State>, i: nat, c: nat, op: Op) returns (j: nat)
    requires IsRun(hard, run) && i + 1 < |run| && Refuse(hard, run[i], run[i + 1], c, op)
    ensures run[i].clients[c].start <= j <= i && Apply(op, hard, run[j].used).None?
  {
    j := ReadDuringCall(hard, run, i, c);
  }

  /** In every interleaving of reserve, rollback and refresh the stored usage is never
      negative, and only a refresh that ignores limits can lift it above a limited value. */
  lemma UsageStaysSafe(hard: Resources, run: seq<State>, i: nat, n: nat)
    requires IsRun(hard, run) && i < |run| && Fresh(run) && n <= |run[i].writes|
    requires ValidLimits(hard) && Int64s(run[0].used) && NonNegative(run[0].used) && Benign(run[i])
    ensures NonNegative(run[i].used) && NonNegative(run[i].values[n])
    ensures n > 0 && Below(hard, run[i].values[n - 1]) && !Below(hard, run[i].values[n]) ==>
      run[i].writes[n - 1].op.Refresh? && run[i].writes[n - 1].op.ignoreLimits
  {
    RunInv(hard, run, i);
    FirstValue(hard, run, i);
    ValuesSafe(hard, run[0].version, run[i], n);
    ValuesSafe(hard, run[0].version, run[i], |run[i].writes|);
  }
}
