/** Requests: reserve, run a body, roll back when it fails; no refresh meanwhile. */
module QuotaRequests {
  import opened Int64
  import opened QuotaOps
  import opened Wrappers
  import opened QuotaProtocol

  datatype Phase =
    | Waiting
    | Reserving
    | Denied       // the reservation was not made
    | Running
    | Kept         // the body succeeded
    | RollingBack
    | Released
    | Leaked       // the rollback failed

  predicate Holds(p: Phase) {
    p.Running? || p.Kept? || p.RollingBack? || p.Leaked?
  }

  datatype System = System(quota: State, phases: seq<Phase>)

  ghost predicate Enter(s: System, t: System, c: nat, p: Phase) {
    c < |s.phases| && t.phases == s.phases[c := p]
  }

  ghost predicate Begin(requests: seq<Resources>, s: System, t: System, c: nat) {
    && c < |s.phases| && c < |requests| && s.phases[c].Waiting? && Enter(s, t, c, Reserving)
    && Invoke(s.quota, t.quota, c, AskReserve(requests[c]))
  }

  ghost predicate Body(requests: seq<Resources>, s: System, t: System, c: nat, fails: bool) {
    && c < |s.phases| && c < |requests| && s.phases[c].Running?
    && if fails then Enter(s, t, c, RollingBack) && Invoke(s.quota, t.quota, c, AskRollback(requests[c]))
       else Enter(s, t, c, Kept) && t.quota == s.quota
  }

  ghost predicate Progress(hard: Resources, s: System, t: System, c: nat, event: Event) {
    && c < |s.phases| && (s.phases[c].Reserving? || s.phases[c].RollingBack?)
    && Step(hard, s.quota, t.quota, c, event)
    && Enter(s, t, c,
         match event
         case Internal => s.phases[c]
         case Accepted(_) => if s.phases[c].Reserving? then Running else Released
         case Refused => if s.phases[c].Reserving? then Denied else Leaked)
  }

  ghost predicate NextRequest(hard: Resources, requests: seq<Resources>, s: System, t: System) {
    || (exists c :: Begin(requests, s, t, c))
    || (exists c, fails :: Body(requests, s, t, c, fails))
    || (exists c, event :: Progress(hard, s, t, c, event))
  }

  ghost predicate IsRequestRun(hard: Resources, requests: seq<Resources>, run: seq<System>) {
    && run != [] && Init(run[0].quota)
    && |run[0].phases| == |requests| == |run[0].quota.clients|
    && (forall c :: 0 <= c < |requests| ==> run[0].phases[c].Waiting?)
    && forall i :: 0 <= i < |run| - 1 ==> NextRequest(hard, requests, run[i], run[i + 1])
  }

  ghost predicate Fresh(run: seq<System>) {
    forall i :: 0 <= i < |run| - 1 ==> FreshStep(run[i].quota, run[i + 1].quota)
  }

  ghost function Part(p: Phase, r: Resources, k: string): int {
    if Holds(p) then Value(r, k) else 0
  }

  /** What the calls in the given phases hold of resource `k`. */
  ghost function Held(phases: seq<Phase>, requests: seq<Resources>, k: string): int
    requires |phases| == |requests|
  {
    if phases == [] then 0
    else Part(phases[0], requests[0], k) + Held(phases[1..], requests[1..], k)
  }

  lemma {:induction false} HeldUpdate(phases: seq<Phase>, requests: seq<Resources>, k: string, c: nat, p: Phase)
    requires |phases| == |requests| && c < |phases|
    ensures Held(phases[c := p], requests, k)
            == Held(phases, requests, k) + Part(p, requests[c], k) - Part(phases[c], requests[c], k)
  {
    if c > 0 {
      assert phases[c := p][1..] == phases[1..][c - 1 := p];
      HeldUpdate(phases[1..], requests[1..], k, c - 1, p);
    } else {
      assert phases[c := p][1..] == phases[1..];
    }
  }

  ghost predicate Int64Requests(requests: seq<Resources>) {
    forall c :: 0 <= c < |requests| ==> Int64s(requests[c])
  }

  // 64-bit sums

  lemma WrapStays(x: int, r: int)
    requires IsInt64(r) && x == Wrap(x + r)
    ensures r == 0
  {
    var q := (x + r - MIN_INT64) / WORD;
    assert x + r == x + WORD * q;
  }

  // Conservation

  /** What a call in each phase adds up to, with the starting usage. */
  ghost function Sum(requests: seq<Resources>, u0: Resources, phases: seq<Phase>, k: string): int
    requires |phases| == |requests|
  {
    Value(u0, k) + Held(phases, requests, k)
  }

  /** The stored usage is the starting usage and what the calls hold, in 64 bits. */
  ghost predicate Conserved(requests: seq<Resources>, u0: Resources, s: System) {
    |s.phases| == |requests| && forall k :: Value(s.quota.used, k) == Wrap(Sum(requests, u0, s.phases, k))
  }

  ghost predicate CallInv(requests: seq<Resources>, s: System, c: nat)
    requires c < |requests| == |s.phases| == |s.quota.clients|
  {
    var p := s.quota.clients[c];
    && (p.Idle? <==> !s.phases[c].Reserving? && !s.phases[c].RollingBack?)
    && (s.phases[c].Reserving? ==> p.kind == AskReserve(requests[c]))
    && (s.phases[c].RollingBack? ==> p.kind == AskRollback(requests[c]))
  }

  ghost predicate RequestInv(hard: Resources, requests: seq<Resources>, u0: Resources, v0: int, s: System) {
    && Inv(hard, v0, s.quota) && Conserved(requests, u0, s)
    && |requests| == |s.phases| == |s.quota.clients|
    && (forall c :: 0 <= c < |requests| ==> CallInv(requests, s, c))
  }

  /** A call changed phase: the usage moved by as much as it now holds more or less. */
  lemma Moved(requests: seq<Resources>, u0: Resources, s: System, t: System, c: nat, p: Phase)
    requires Conserved(requests, u0, s) && Enter(s, t, c, p)
    requires forall k :: Value(t.quota.used, k)
                         == Wrap(Value(s.quota.used, k) + (Part(p, requests[c], k) - Part(s.phases[c], requests[c], k)))
    ensures Conserved(requests, u0, t)
  {
    forall k ensures Value(t.quota.used, k) == Wrap(Sum(requests, u0, t.phases, k)) {
      HeldUpdate(s.phases, requests, k, c, p);
      WrapTwice(Sum(requests, u0, s.phases, k), Part(p, requests[c], k) - Part(s.phases[c], requests[c], k));
    }
  }

  ghost predicate AmountsMoved(used: Resources, after: Resources, r: Resources, op: Op) {
    forall k :: Value(after, k) == Wrap(Value(used, k) + if op.Reserve? then Value(r, k) else -Value(r, k))
  }

  /** What an accepted reserve or rollback does to every amount. */
  lemma ApplyWraps(hard: Resources, used: Resources, r: Resources, op: Op)
    requires (op == Reserve(r) || op == Rollback(r)) && Apply(op, hard, used).Some?
    ensures AmountsMoved(used, Apply(op, hard, used).value, r, op)
  {
  }

  /** An operation that changed nothing asked for nothing. */
  lemma NothingAsked(hard: Resources, used: Resources, r: Resources, op: Op)
    requires op == Reserve(r) || op == Rollback(r)
    requires Int64s(r) && Apply(op, hard, used) == Some(used)
    ensures forall k :: Value(r, k) == 0
  {
    forall k ensures Value(r, k) == 0 {
      if k in r {
        var after := if op.Reserve? then Add(used, r) else Subtract(used, r);
        assert after == used && k in after;
        if op.Reserve? {
          WrapStays(used[k], r[k]);
        } else {
          assert used[k] == Wrap(used[k] - r[k]);
          WrapAway(used[k], r[k]);
        }
      }
    }
  }

  lemma WrapAway(x: int, r: int)
    requires IsInt64(r) && x == Wrap(x - r)
    ensures r == 0
  {
    var q := (x - r - MIN_INT64) / WORD;
    assert x - r == x + WORD * q;
  }

  lemma StoredIsInt64(requests: seq<Resources>, u0: Resources, s: System)
    requires Conserved(requests, u0, s)
    ensures Int64s(s.quota.used)
  {
    forall k | k in s.quota.used ensures IsInt64(s.quota.used[k]) {
      assert Value(s.quota.used, k) == Wrap(Sum(requests, u0, s.phases, k));
    }
  }

  /** An accepted operation is the one asked for, applied to the usage as stored, or it changed nothing. */
  lemma AcceptedApplies(hard: Resources, requests: seq<Resources>, u0: Resources, v0: int,
                        s: System, t: System, c: nat, op: Op)
    requires RequestInv(hard, requests, u0, v0, s) && FreshStep(s.quota, t.quota)
    requires Progress(hard, s, t, c, Accepted(op))
    ensures op == if s.phases[c].Reserving? then Reserve(requests[c]) else Rollback(requests[c])
    ensures c < |s.quota.clients| && (s.quota.clients[c].Loaded? || s.quota.clients[c].Writing?)
    ensures Apply(op, hard, s.quota.used) == Some(t.quota.used)
            || (t.quota.used == s.quota.used && Apply(op, hard, s.quota.clients[c].used) == Some(s.quota.clients[c].used))
  {
    hide Inv, Conserved, Apply;
    assert CallInv(requests, s, c);
    if !EarlyReturn(hard, s.quota, t.quota, c, op) {
      WriteStep(hard, v0, s.quota, t.quota, c);
      WritesItsOp(hard, v0, s.quota, c);
    }
  }

  lemma AmountsMove(hard: Resources, requests: seq<Resources>, u0: Resources, s: System,
                    after: Resources, snapshot: Resources, r: Resources, op: Op)
    requires (op == Reserve(r) || op == Rollback(r)) && Int64s(r) && Conserved(requests, u0, s)
    requires Apply(op, hard, s.quota.used) == Some(after)
             || (after == s.quota.used && Apply(op, hard, snapshot) == Some(snapshot))
    ensures AmountsMoved(s.quota.used, after, r, op)
  {
    hide Apply, AmountsMoved, Conserved, Wrap, Value;
    if Apply(op, hard, s.quota.used) == Some(after) {
      ApplyWraps(hard, s.quota.used, r, op);
    } else {
      NothingAsked(hard, snapshot, r, op);
      AmountsStay(requests, u0, s, r, op);
    }
  }

  lemma AmountsStay(requests: seq<Resources>, u0: Resources, s: System, r: Resources, op: Op)
    requires Conserved(requests, u0, s) && forall k :: Value(r, k) == 0
    ensures AmountsMoved(s.quota.used, s.quota.used, r, op)
  {
    hide Wrap;
    forall k ensures Value(s.quota.used, k) == Wrap(Value(s.quota.used, k) + if op.Reserve? then Value(r, k) else -Value(r, k)) {
      StoredIsWrapped(requests, u0, s, k);
    }
  }

  lemma StoredIsWrapped(requests: seq<Resources>, u0: Resources, s: System, k: string)
    requires Conserved(requests, u0, s)
    ensures Value(s.quota.used, k) == Wrap(Value(s.quota.used, k))
  {
  }

  lemma MovedByOp(requests: seq<Resources>, u0: Resources, s: System, t: System, c: nat, op: Op)
    requires Conserved(requests, u0, s) && c < |s.phases|
    requires (op.Reserve? && s.phases[c].Reserving? && Enter(s, t, c, Running))
             || (op.Rollback? && s.phases[c].RollingBack? && Enter(s, t, c, Released))
    requires AmountsMoved(s.quota.used, t.quota.used, requests[c], op)
    ensures Conserved(requests, u0, t)
  {
    hide Wrap;
    Moved(requests, u0, s, t, c, t.phases[c]);
  }

  /** An accepted operation moves the usage by exactly what the call asked for. */
  lemma AcceptedMoves(hard: Resources, requests: seq<Resources>, u0: Resources, v0: int,
                      s: System, t: System, c: nat, op: Op)
    requires RequestInv(hard, requests, u0, v0, s) && Int64Requests(requests) && FreshStep(s.quota, t.quota)
    requires Progress(hard, s, t, c, Accepted(op))
    ensures Conserved(requests, u0, t)
  {
    AcceptedApplies(hard, requests, u0, v0, s, t, c, op);
    hide Inv, Conserved, Apply, Step, AmountsMoved, Int64s, CallInv;
    AmountsMove(hard, requests, u0, s, t.quota.used, s.quota.clients[c].used, requests[c], op);
    MovedByOp(requests, u0, s, t, c, op);
  }

  lemma WritesItsOp(hard: Resources, v0: int, s: State, c: nat)
    requires Inv(hard, v0, s) && c < |s.clients| && s.clients[c].Writing?
    ensures Resolves(s.clients[c].kind, s.clients[c].op)
  {
    assert ClientInv(hard, v0, s, c);
  }

  /** Every other call stays as it is. */
  lemma OtherCalls(requests: seq<Resources>, s: System, t: System, c: nat, p: Phase)
    requires c < |requests| == |s.phases| == |s.quota.clients| == |t.quota.clients|
    requires Enter(s, t, c, p) && t.quota.clients == s.quota.clients[c := t.quota.clients[c]]
    requires forall d :: 0 <= d < |requests| ==> CallInv(requests, s, d)
    requires |t.phases| == |requests| && CallInv(requests, t, c)
    ensures forall d :: 0 <= d < |requests| ==> CallInv(requests, t, d)
  {
    forall d | 0 <= d < |requests| ensures CallInv(requests, t, d) {
      if d != c { assert CallInv(requests, s, d); }
    }
  }

  lemma ProgressInv(hard: Resources, requests: seq<Resources>, u0: Resources, v0: int,
                    s: System, t: System, c: nat, event: Event)
    requires RequestInv(hard, requests, u0, v0, s) && Int64Requests(requests) && FreshStep(s.quota, t.quota)
    requires Progress(hard, s, t, c, event)
    ensures RequestInv(hard, requests, u0, v0, t)
  {
    hide Inv, Conserved, Wrap;
    StepInv(hard, v0, s.quota, t.quota, c, event);
    StoredIsInt64(requests, u0, s);
    assert CallInv(requests, s, c);
    if event.Accepted? {
      AcceptedMoves(hard, requests, u0, v0, s, t, c, event.op);
    } else {
      Moved(requests, u0, s, t, c, t.phases[c]);
    }
    OtherCalls(requests, s, t, c, t.phases[c]);
  }

  lemma StartInv(hard: Resources, requests: seq<Resources>, u0: Resources, v0: int, s: System, t: System, c: nat)
    requires RequestInv(hard, requests, u0, v0, s)
    requires Begin(requests, s, t, c) || (exists fails :: Body(requests, s, t, c, fails))
    ensures RequestInv(hard, requests, u0, v0, t)
  {
    hide Inv, Conserved;
    assert CallInv(requests, s, c);
    if t.quota != s.quota {
      QuietPhases(hard, v0, s.quota, t.quota, c);
    }
    forall k ensures Value(s.quota.used, k) == Wrap(Value(s.quota.used, k)) {
      StoredIsWrapped(requests, u0, s, k);
    }
    Moved(requests, u0, s, t, c, t.phases[c]);
    OtherCalls(requests, s, t, c, t.phases[c]);
  }

  lemma NextRequestInv(hard: Resources, requests: seq<Resources>, u0: Resources, v0: int, s: System, t: System)
    requires RequestInv(hard, requests, u0, v0, s) && Int64Requests(requests) && FreshStep(s.quota, t.quota)
    requires NextRequest(hard, requests, s, t)
    ensures RequestInv(hard, requests, u0, v0, t)
  {
    hide RequestInv, Begin, Body, Progress;
    if c :| Begin(requests, s, t, c) {
      StartInv(hard, requests, u0, v0, s, t, c);
    } else if c, fails :| Body(requests, s, t, c, fails) {
      StartInv(hard, requests, u0, v0, s, t, c);
    } else {
      var c, event :| Progress(hard, s, t, c, event);
      ProgressInv(hard, requests, u0, v0, s, t, c, event);
    }
  }

  lemma {:induction false} NothingHeld(phases: seq<Phase>, requests: seq<Resources>, k: string)
    requires |phases| == |requests| && forall c :: 0 <= c < |phases| ==> !Holds(phases[c])
    ensures Held(phases, requests, k) == 0
  {
    if phases != [] {
      NothingHeld(phases[1..], requests[1..], k);
    }
  }

  lemma {:induction false} RequestRunInv(hard: Resources, requests: seq<Resources>, run: seq<System>, i: nat)
    requires IsRequestRun(hard, requests, run) && i < |run| && Fresh(run) && Int64Requests(requests) && Int64s(run[0].quota.used)
    ensures RequestInv(hard, requests, run[0].quota.used, run[0].quota.version, run[i])
  {
    hide NextRequest, Inv, Init, Wrap;
    var u0, v0 := run[0].quota.used, run[0].quota.version;
    if i == 0 {
      InitInv(hard, run[0].quota);
      forall k ensures Value(u0, k) == Wrap(Sum(requests, u0, run[0].phases, k)) {
        NothingHeld(run[0].phases, requests, k);
      }
      StartsIdle(run[0].quota);
    } else {
      var k := i - 1;
      RequestRunInv(hard, requests, run, k);
      assert NextRequest(hard, requests, run[k], run[k + 1]) && FreshStep(run[k].quota, run[k + 1].quota);
      NextRequestInv(hard, requests, u0, v0, run[k], run[k + 1]);
    }
  }

  lemma StartsIdle(s: State)
    requires Init(s)
    ensures forall c :: 0 <= c < |s.clients| ==> s.clients[c].Idle?
  {
  }

  /** In every interleaving of requests the stored usage is, in 64 bits, the starting usage plus the
      reservations of calls that run, succeeded or could not roll back; it is their plain sum
      if and only if that is a 64-bit number. */
  lemma UsageIsConserved(hard: Resources, requests: seq<Resources>, run: seq<System>, i: nat, k: string)
    requires IsRequestRun(hard, requests, run) && i < |run| && Fresh(run)
    requires Int64Requests(requests) && Int64s(run[0].quota.used)
    ensures |run[i].phases| == |requests|
    ensures var sum := Value(run[0].quota.used, k) + Held(run[i].phases, requests, k);
      && Value(run[i].quota.used, k) == Wrap(sum)
      && (Value(run[i].quota.used, k) == sum <==> IsInt64(sum))
  {
    hide Inv;
    RequestRunInv(hard, requests, run, i);
  }

  // While the sums fit

  /** Nothing asked for is negative, and what is held with the starting usage fits in 64 bits. */
  ghost predicate SumsFit(requests: seq<Resources>, u0: Resources, phases: seq<Phase>) {
    |phases| == |requests| && forall k :: IsInt64(Sum(requests, u0, phases, k))
  }

  ghost predicate Proper(requests: seq<Resources>, u0: Resources) {
    && Int64s(u0) && NonNegative(u0)
    && forall c :: 0 <= c < |requests| ==> Int64s(requests[c]) && NonNegative(requests[c])
  }

  lemma {:induction false} HeldCovers(phases: seq<Phase>, requests: seq<Resources>, k: string)
    requires |phases| == |requests| && forall c :: 0 <= c < |requests| ==> NonNegative(requests[c])
    ensures 0 <= Held(phases, requests, k)
    ensures forall c :: 0 <= c < |phases| && Holds(phases[c]) ==> Value(requests[c], k) <= Held(phases, requests, k)
  {
    if phases != [] {
      HeldCovers(phases[1..], requests[1..], k);
      assert forall c :: 1 <= c < |phases| ==> phases[c] == phases[1..][c - 1] && requests[c] == requests[1..][c - 1];
    }
  }

  ghost predicate Covers(used: Resources, r: Resources) {
    forall k :: Value(used, k) >= Value(r, k)
  }

  /** The stored usage is then the plain sum: it is not negative and covers every held request. */
  lemma StoredCovers(requests: seq<Resources>, u0: Resources, s: System)
    requires Conserved(requests, u0, s) && Proper(requests, u0) && SumsFit(requests, u0, s.phases)
    ensures Int64s(s.quota.used) && NonNegative(s.quota.used)
    ensures forall c :: 0 <= c < |requests| && Holds(s.phases[c]) ==> Covers(s.quota.used, requests[c])
  {
    StoredIsInt64(requests, u0, s);
    forall k ensures Value(s.quota.used, k) == Sum(requests, u0, s.phases, k) >= 0 {
      HeldCovers(s.phases, requests, k);
      assert IsInt64(Sum(requests, u0, s.phases, k));
    }
    forall k | k in s.quota.used ensures s.quota.used[k] >= 0 {
      assert Value(s.quota.used, k) >= 0;
    }
    forall c | 0 <= c < |requests| && Holds(s.phases[c]) ensures Covers(s.quota.used, requests[c]) {
      forall k ensures Value(s.quota.used, k) >= Value(requests[c], k) {
        HeldCovers(s.phases, requests, k);
      }
    }
  }

  /** What a call rolling back has read was stored when it was already rolling back. */
  lemma CallsTracked(hard: Resources, requests: seq<Resources>, run: seq<System>, i: nat, c: nat)
    requires IsRequestRun(hard, requests, run) && i < |run| && Fresh(run) && c < |requests|
    requires Int64Requests(requests) && Int64s(run[0].quota.used)
    ensures |requests| == |run[i].phases| == |run[i].quota.clients|
    ensures run[i].phases[c].RollingBack? ==> !run[i].quota.clients[c].Idle?
  {
    hide Inv, Conserved;
    RequestRunInv(hard, requests, run, i);
    assert CallInv(requests, run[i], c);
  }

  lemma {:induction false} ReadWhileHeld(hard: Resources, requests: seq<Resources>, run: seq<System>, i: nat, c: nat) returns (j: nat)
    requires IsRequestRun(hard, requests, run) && i < |run| && Fresh(run)
    requires Int64Requests(requests) && Int64s(run[0].quota.used)
    requires c < |requests| == |run[i].phases| == |run[i].quota.clients| && run[i].phases[c].RollingBack?
    requires run[i].quota.clients[c].Loaded? || run[i].quota.clients[c].Writing?
    ensures j <= i && |run[j].phases| == |requests| && run[j].phases[c].RollingBack?
    ensures run[j].quota.used == run[i].quota.clients[c].used
  {
    hide RequestInv, NextRequest;
    j := i;
    if i > 0 {
      var k := i - 1;
      CallsTracked(hard, requests, run, k, c);
      assert NextRequest(hard, requests, run[k], run[k + 1]) && FreshStep(run[k].quota, run[k + 1].quota);
      ReadOrKept(hard, requests, run[k], run[k + 1], c);
      if run[k].quota.clients[c].Ready? {
        j := k;
      } else {
        j := ReadWhileHeld(hard, requests, run, k, c);
      }
    }
  }

  /** What `c` holds as read was read in this step or held before. */
  ghost predicate ReadNow(s: System, t: System, c: nat)
    requires c < |s.phases| && c < |s.quota.clients| && c < |t.quota.clients|
    requires t.quota.clients[c].Loaded? || t.quota.clients[c].Writing?
  {
    var p := s.quota.clients[c];
    && s.phases[c].RollingBack?
    && (p.Ready? ==> t.quota.clients[c].used == s.quota.used)
    && (!p.Ready? ==> (p.Loaded? || p.Writing?) && t.quota.clients[c].used == p.used)
  }

  lemma ReadOrKept(hard: Resources, requests: seq<Resources>, s: System, t: System, c: nat)
    requires NextRequest(hard, requests, s, t) && c < |s.phases| == |s.quota.clients|
    requires c < |t.phases| && c < |t.quota.clients| && t.phases[c].RollingBack?
    requires t.quota.clients[c].Loaded? || t.quota.clients[c].Writing?
    requires s.phases[c].RollingBack? ==> !s.quota.clients[c].Idle?
    ensures ReadNow(s, t, c)
  {
    hide Begin, Body, Progress, ReadNow;
    if d :| Begin(requests, s, t, d) {
      BeginKeeps(requests, s, t, d, c);
    } else if d, fails :| Body(requests, s, t, d, fails) {
      BodyKeeps(requests, s, t, d, fails, c);
    } else {
      var d, event :| Progress(hard, s, t, d, event);
      ProgressReads(hard, s, t, d, event, c);
    }
  }

  lemma BeginKeeps(requests: seq<Resources>, s: System, t: System, d: nat, c: nat)
    requires Begin(requests, s, t, d) && c < |s.phases| == |s.quota.clients|
    requires c < |t.phases| && c < |t.quota.clients| && t.phases[c].RollingBack?
    requires t.quota.clients[c].Loaded? || t.quota.clients[c].Writing?
    ensures ReadNow(s, t, c)
  {
  }

  lemma BodyKeeps(requests: seq<Resources>, s: System, t: System, d: nat, fails: bool, c: nat)
    requires Body(requests, s, t, d, fails) && c < |s.phases| == |s.quota.clients|
    requires c < |t.phases| && c < |t.quota.clients| && t.phases[c].RollingBack?
    requires t.quota.clients[c].Loaded? || t.quota.clients[c].Writing?
    ensures ReadNow(s, t, c)
  {
  }

  lemma StepOfOther(hard: Resources, s: State, t: State, d: nat, event: Event, c: nat)
    requires Step(hard, s, t, d, event) && d != c && c < |s.clients|
    ensures |t.clients| == |s.clients| && t.clients[c] == s.clients[c]
  {
    hide Apply, Resolves, SameHistory;
  }

  lemma ProgressReads(hard: Resources, s: System, t: System, d: nat, event: Event, c: nat)
    requires Progress(hard, s, t, d, event) && c < |s.phases| == |s.quota.clients|
    requires c < |t.phases| && c < |t.quota.clients| && t.phases[c].RollingBack?
    requires t.quota.clients[c].Loaded? || t.quota.clients[c].Writing?
    requires s.phases[c].RollingBack? ==> !s.quota.clients[c].Idle?
    ensures ReadNow(s, t, c)
  {
    if d == c {
      assert event.Internal?;
    } else {
      StepOfOther(hard, s.quota, t.quota, d, event, c);
    }
  }

  /** The negative check of a rollback never fires while what is held fits in 64 bits. */
  lemma RollbackIsNeverRefused(hard: Resources, requests: seq<Resources>, run: seq<System>, i: nat, c: nat, op: Op)
    requires IsRequestRun(hard, requests, run) && i < |run| && Fresh(run) && Proper(requests, run[0].quota.used)
    requires forall j :: 0 <= j <= i ==> SumsFit(requests, run[0].quota.used, run[j].phases)
    requires c < |requests| == |run[i].phases| == |run[i].quota.clients|
    requires run[i].phases[c].RollingBack? && run[i].quota.clients[c].Loaded?
    requires Resolves(run[i].quota.clients[c].kind, op)
    ensures op == Rollback(requests[c]) && Apply(op, hard, run[i].quota.clients[c].used).Some?
  {
    hide Inv, Conserved, SumsFit;
    RequestRunInv(hard, requests, run, i);
    assert CallInv(requests, run[i], c);
    var j := ReadWhileHeld(hard, requests, run, i, c);
    RequestRunInv(hard, requests, run, j);
    StoredCovers(requests, run[0].quota.used, run[j]);
    RollbackIsCovered(hard, run[j].quota.used, requests[c]);
  }

  /** Exactly when it fires: the rest of the sum, as it was when the usage was read, wraps below zero. */
  lemma RollbackRefused(hard: Resources, requests: seq<Resources>, run: seq<System>, i: nat, c: nat) returns (j: nat)
    requires IsRequestRun(hard, requests, run) && i < |run| && Fresh(run)
    requires Int64Requests(requests) && Int64s(run[0].quota.used)
    requires c < |requests| == |run[i].phases| == |run[i].quota.clients|
    requires run[i].phases[c].RollingBack? && run[i].quota.clients[c].Loaded?
    ensures j <= i && |run[j].phases| == |requests| && run[j].phases[c].RollingBack?
    ensures Apply(Rollback(requests[c]), hard, run[i].quota.clients[c].used).None? <==>
      exists k :: Wrap(Sum(requests, run[0].quota.used, run[j].phases, k) - Value(requests[c], k)) < 0
  {
    hide Inv, Conserved, Wrap, Apply, Sum;
    j := ReadWhileHeld(hard, requests, run, i, c);
    RequestRunInv(hard, requests, run, j);
    RefusedByWrap(hard, requests, run[0].quota.used, run[j], requests[c]);
  }

  lemma RefusedByWrap(hard: Resources, requests: seq<Resources>, u0: Resources, s: System, r: Resources)
    requires Conserved(requests, u0, s)
    ensures Apply(Rollback(r), hard, s.quota.used).None? <==>
      exists k :: Wrap(Sum(requests, u0, s.phases, k) - Value(r, k)) < 0
  {
    hide Wrap, Sum;
    var used := s.quota.used;
    var after := Subtract(used, r);
    forall k ensures Value(after, k) == Wrap(Sum(requests, u0, s.phases, k) - Value(r, k)) {
      WrapTwice(Sum(requests, u0, s.phases, k), -Value(r, k));
      StoredIsWrapped(requests, u0, s, k);
    }
    if k :| Wrap(Sum(requests, u0, s.phases, k) - Value(r, k)) < 0 {
      assert Value(after, k) < 0 && k in after;
    }
    if Negative(after) {
      var k :| k in after && after[k] < 0;
      assert Value(after, k) < 0;
    }
  }

  lemma RollbackIsCovered(hard: Resources, used: Resources, r: Resources)
    requires Int64s(used) && NonNegative(used) && Int64s(r) && NonNegative(r) && Covers(used, r)
    ensures Apply(Rollback(r), hard, used).Some?
  {
    var after := Subtract(used, r);
    forall k | k in after ensures after[k] >= 0 {
      assert Value(used, k) >= Value(r, k);
      assert IsInt64(Value(used, k) - Value(r, k));
    }
  }

  /** A step that changes the usage is an accepted operation on it. */
  lemma ChangeIsAccepted(hard: Resources, requests: seq<Resources>, u0: Resources, v0: int, s: System, t: System)
    returns (c: nat, op: Op)
    requires RequestInv(hard, requests, u0, v0, s) && FreshStep(s.quota, t.quota)
    requires NextRequest(hard, requests, s, t) && t.quota.used != s.quota.used
    ensures Progress(hard, s, t, c, Accepted(op))
    ensures op == (if s.phases[c].Reserving? then Reserve(requests[c]) else Rollback(requests[c]))
    ensures Apply(op, hard, s.quota.used) == Some(t.quota.used)
  {
    hide Inv, Conserved, Apply;
    var d: nat, event :| Progress(hard, s, t, d, event);
    c, op := d, event.op;
    AcceptedApplies(hard, requests, u0, v0, s, t, c, op);
  }

  lemma StaysBelow(hard: Resources, requests: seq<Resources>, u0: Resources, v0: int, s: System, t: System)
    requires RequestInv(hard, requests, u0, v0, s) && Proper(requests, u0) && FreshStep(s.quota, t.quota)
    requires NextRequest(hard, requests, s, t) && ValidLimits(hard) && Below(hard, s.quota.used)
    requires SumsFit(requests, u0, s.phases) && SumsFit(requests, u0, t.phases)
    ensures Below(hard, t.quota.used)
  {
    if t.quota.used != s.quota.used {
      var c, op := ChangeIsAccepted(hard, requests, u0, v0, s, t);
      hide Inv, Below, Apply;
      StoredCovers(requests, u0, s);
      if op.Reserve? {
        ReserveFits(requests, u0, s, t, c);
      }
      ApplySafe(op, hard, s.quota.used);
    }
  }

  lemma ReserveFits(requests: seq<Resources>, u0: Resources, s: System, t: System, c: nat)
    requires Conserved(requests, u0, s) && SumsFit(requests, u0, s.phases) && SumsFit(requests, u0, t.phases)
    requires c < |s.phases| && s.phases[c].Reserving? && Enter(s, t, c, Running)
    ensures Fits(s.quota.used, requests[c])
  {
    forall k | k in requests[c] ensures IsInt64(Value(s.quota.used, k) + requests[c][k]) {
      HeldUpdate(s.phases, requests, k, c, Running);
      assert IsInt64(Sum(requests, u0, s.phases, k)) && IsInt64(Sum(requests, u0, t.phases, k));
    }
  }

  /** Requests never take the usage above a limited hard value while what is held fits in 64 bits. */
  lemma {:induction false} UsageStaysBelow(hard: Resources, requests: seq<Resources>, run: seq<System>, i: nat)
    requires IsRequestRun(hard, requests, run) && i < |run| && Fresh(run) && Proper(requests, run[0].quota.used)
    requires forall j :: 0 <= j <= i ==> SumsFit(requests, run[0].quota.used, run[j].phases)
    requires ValidLimits(hard) && Below(hard, run[0].quota.used)
    ensures Below(hard, run[i].quota.used)
  {
    hide SumsFit, Inv, Conserved, NextRequest;
    if i > 0 {
      var k := i - 1;
      UsageStaysBelow(hard, requests, run, k);
      RequestRunInv(hard, requests, run, k);
      assert NextRequest(hard, requests, run[k], run[k + 1]) && FreshStep(run[k].quota, run[k + 1].quota);
      assert SumsFit(requests, run[0].quota.used, run[k].phases) && SumsFit(requests, run[0].quota.used, run[k + 1].phases);
      StaysBelow(hard, requests, run[0].quota.used, run[0].quota.version, run[k], run[k + 1]);
    }
  }

  /** In every run, overflowing or not, usage is above a hard value exactly where the wrapped sum of
      what is held is. */
  lemma UsageIsAbove(hard: Resources, requests: seq<Resources>, run: seq<System>, i: nat)
    requires IsRequestRun(hard, requests, run) && i < |run| && Fresh(run)
    requires Int64Requests(requests) && Int64s(run[0].quota.used)
    ensures |run[i].phases| == |requests|
    ensures Below(hard, run[i].quota.used) <==>
      forall k :: k in run[i].quota.used && Limited(hard, k) ==>
        Wrap(Value(run[0].quota.used, k) + Held(run[i].phases, requests, k)) <= hard[k]
  {
    hide IsRequestRun, Fresh;
    RequestRunInv(hard, requests, run, i);
    forall k ensures Value(run[i].quota.used, k) == Wrap(Value(run[0].quota.used, k) + Held(run[i].phases, requests, k)) {
      UsageIsConserved(hard, requests, run, i, k);
    }
  }
}
