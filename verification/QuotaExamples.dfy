/** Calls that nobody disturbs, and a run of them that passes a limit. */
module QuotaExamples {
  import opened Int64
  import opened QuotaOps
  import opened Wrappers
  import opened QuotaProtocol
  import opened QuotaRequests

  ghost predicate Quiet(s: System) {
    forall c :: 0 <= c < |s.quota.clients| ==> s.quota.clients[c].Idle?
  }

  function Invoked(s: System, c: nat, kind: Kind, p: Phase): System
    requires c < |s.phases| == |s.quota.clients|
  {
    System(s.quota.(clients := s.quota.clients[c := Ready(kind, s.quota.now)], now := s.quota.now + 1), s.phases[c := p])
  }

  function HasRead(s: System, c: nat): System
    requires c < |s.quota.clients| && s.quota.clients[c].Ready?
  {
    var q := s.quota;
    var next := Loaded(q.clients[c].kind, q.clients[c].start, q.used, q.version, |q.writes|);
    s.(quota := q.(clients := q.clients[c := next], now := q.now + 1))
  }

  function HasPrepared(s: System, c: nat, op: Op, after: Resources): System
    requires c < |s.quota.clients| && s.quota.clients[c].Loaded?
  {
    var q, p := s.quota, s.quota.clients[c];
    s.(quota := q.(clients := q.clients[c := Writing(p.kind, p.start, p.used, p.version, p.seen, op, after)], now := q.now + 1))
  }

  function HasWritten(s: System, c: nat, p: Phase): System
    requires c < |s.phases| == |s.quota.clients| && s.quota.clients[c].Writing?
  {
    var q, w := s.quota, s.quota.clients[c];
    var e := Entry(c, w.op, w.start, q.now);
    System(State(w.after, Bump(q.version), q.clients[c := Idle], q.now + 1, q.values + [w.after], q.writes + [e],
                 q.noops + [[]], q.times + [q.now], q.acked + multiset{e}), s.phases[c := p])
  }

  /** A run that may go on: nobody is in the middle of an update. */
  ghost predicate Resting(hard: Resources, requests: seq<Resources>, run: seq<System>, s: System) {
    && IsRequestRun(hard, requests, run) && QuotaRequests.Fresh(run) && run[|run| - 1] == s
    && |s.phases| == |requests| == |s.quota.clients|
  }

  lemma OneMore(hard: Resources, requests: seq<Resources>, run: seq<System>, s: System, t: System)
    requires Resting(hard, requests, run, s) && NextRequest(hard, requests, s, t) && FreshStep(s.quota, t.quota)
    requires |t.phases| == |requests| == |t.quota.clients|
    ensures Resting(hard, requests, run + [t], t)
  {
    hide NextRequest, FreshStep;
    var more := run + [t];
    forall i | 0 <= i < |more| - 1
      ensures NextRequest(hard, requests, more[i], more[i + 1]) && FreshStep(more[i].quota, more[i + 1].quota)
    {
      if i < |run| - 1 {
        assert more[i] == run[i] && more[i + 1] == run[i + 1];
      } else {
        assert more[i] == s && more[i + 1] == t;
      }
    }
  }

  lemma ReadAlone(hard: Resources, requests: seq<Resources>, s: System, c: nat)
    requires c < |s.phases| == |s.quota.clients| && s.quota.clients[c].Ready?
    requires s.phases[c].Reserving? || s.phases[c].RollingBack?
    requires forall d :: 0 <= d < |s.quota.clients| && d != c ==> s.quota.clients[d].Idle?
    ensures NextRequest(hard, requests, s, HasRead(s, c)) && FreshStep(s.quota, HasRead(s, c).quota)
  {
    var t := HasRead(s, c);
    assert t.phases == s.phases[c := s.phases[c]];
    assert Progress(hard, s, t, c, Internal);
  }

  lemma PrepareAlone(hard: Resources, requests: seq<Resources>, s: System, c: nat, op: Op, after: Resources)
    requires c < |s.phases| == |s.quota.clients| && s.quota.clients[c].Loaded?
    requires s.phases[c].Reserving? || s.phases[c].RollingBack?
    requires forall d :: 0 <= d < |s.quota.clients| && d != c ==> s.quota.clients[d].Idle?
    requires Resolves(s.quota.clients[c].kind, op) && Apply(op, hard, s.quota.clients[c].used) == Some(after) != Some(s.quota.clients[c].used)
    ensures NextRequest(hard, requests, s, HasPrepared(s, c, op, after)) && FreshStep(s.quota, HasPrepared(s, c, op, after).quota)
  {
    hide Apply;
    var t := HasPrepared(s, c, op, after);
    assert t.phases == s.phases[c := s.phases[c]];
    assert Prepare(hard, s.quota, t.quota, c, op);
    assert Progress(hard, s, t, c, Internal);
  }

  lemma WriteAlone(hard: Resources, requests: seq<Resources>, s: System, c: nat)
    requires c < |s.phases| == |s.quota.clients| && s.quota.clients[c].Writing?
    requires s.quota.clients[c].version == s.quota.version && s.quota.clients[c].seen == |s.quota.writes|
    requires s.phases[c].Reserving? || s.phases[c].RollingBack?
    requires forall d :: 0 <= d < |s.quota.clients| && d != c ==> s.quota.clients[d].Idle?
    ensures var t := HasWritten(s, c, if s.phases[c].Reserving? then Running else Released);
      NextRequest(hard, requests, s, t) && FreshStep(s.quota, t.quota)
  {
    var t := HasWritten(s, c, if s.phases[c].Reserving? then Running else Released);
    assert Write(s.quota, t.quota, c);
    assert Progress(hard, s, t, c, Accepted(s.quota.clients[c].op));
  }

  /** From the call to the acknowledged write without anybody else. */
  lemma CallAlone(hard: Resources, requests: seq<Resources>, run: seq<System>, s: System, c: nat, kind: Kind, p: Phase,
                  op: Op, after: Resources) returns (longer: seq<System>, last: System)
    requires Resting(hard, requests, run, s) && Quiet(s) && c < |requests| && (p.Reserving? || p.RollingBack?)
    requires NextRequest(hard, requests, s, Invoked(s, c, kind, p))
    requires Resolves(kind, op) && Apply(op, hard, s.quota.used) == Some(after) != Some(s.quota.used)
    ensures Resting(hard, requests, longer, last) && Quiet(last) && longer[0] == run[0]
    ensures last.quota.used == after && last.phases == s.phases[c := if p.Reserving? then Running else Released]
  {
    hide NextRequest, FreshStep, Apply, Resolves;
    var a := Invoked(s, c, kind, p);
    QuietIsFresh(s, a);
    OneMore(hard, requests, run, s, a);
    var b := HasRead(a, c);
    ReadAlone(hard, requests, a, c);
    OneMore(hard, requests, run + [a], a, b);
    var d := HasPrepared(b, c, op, after);
    PrepareAlone(hard, requests, b, c, op, after);
    OneMore(hard, requests, run + [a] + [b], b, d);
    last := HasWritten(d, c, if p.Reserving? then Running else Released);
    WriteAlone(hard, requests, d, c);
    OneMore(hard, requests, run + [a] + [b] + [d], d, last);
    longer := run + [a] + [b] + [d] + [last];
    assert last.phases == s.phases[c := if p.Reserving? then Running else Released];
  }

  lemma QuietIsFresh(s: System, t: System)
    requires Quiet(s)
    ensures FreshStep(s.quota, t.quota)
  {
  }

  function Storage(n: int): Resources {
    map["storage" := n]
  }

  lemma ReserveStorage(limit: nat, used: int, n: int)
    requires Wrap(used + n) <= limit
    ensures Apply(Reserve(Storage(n)), Storage(limit), Storage(used)) == Some(Storage(Wrap(used + n)))
  {
    assert Add(Storage(used), Storage(n)) == Storage(Wrap(used + n));
  }

  lemma RollbackStorage(limit: nat, used: int, n: int)
    requires Wrap(used - n) >= 0
    ensures Apply(Rollback(Storage(n)), Storage(limit), Storage(used)) == Some(Storage(Wrap(used - n)))
  {
    assert Subtract(Storage(used), Storage(n)) == Storage(Wrap(used - n));
  }

  /** With a limit of 10: a reservation of 5, one that overflows, and the rollback of the first. */
  lemma ThreeUpdates()
    ensures Apply(Reserve(Storage(5)), Storage(10), Storage(0)) == Some(Storage(5))
    ensures Apply(Reserve(Storage(MAX_INT64)), Storage(10), Storage(5)) == Some(Storage(MIN_INT64 + 4))
    ensures Apply(Rollback(Storage(5)), Storage(10), Storage(MIN_INT64 + 4)) == Some(Storage(MAX_INT64))
  {
    hide Apply, Storage;
    ReserveStorage(10, 0, 5);
    ReserveStorage(10, 5, MAX_INT64);
    RollbackStorage(10, MIN_INT64 + 4, 5);
  }

  lemma StoragesDiffer()
    ensures Storage(0) != Storage(5) && Storage(5) != Storage(MIN_INT64 + 4) && Storage(MIN_INT64 + 4) != Storage(MAX_INT64)
    ensures !Below(Storage(10), Storage(MAX_INT64))
  {
    assert Storage(0)["storage"] == 0 && Storage(5)["storage"] == 5 && Storage(MIN_INT64 + 4)["storage"] == MIN_INT64 + 4;
    assert Storage(MAX_INT64)["storage"] == MAX_INT64 && Limited(Storage(10), "storage");
  }

  function TwoRequests(): seq<Resources> {
    [Storage(5), Storage(MAX_INT64)]
  }

  function Nothing(): System {
    System(State(Storage(0), 0, [Idle, Idle], 0, [Storage(0)], [], [[]], [], multiset{}), [Waiting, Waiting])
  }

  /** Usage passes the limit without any refresh: it ends at the largest 64-bit number. */
  lemma RollbackPassesTheLimit() returns (run: seq<System>)
    ensures IsRequestRun(Storage(10), TwoRequests(), run) && QuotaRequests.Fresh(run) && run[0] == Nothing()
    ensures Proper(TwoRequests(), run[0].quota.used) && Below(Storage(10), run[0].quota.used)
    ensures run[|run| - 1].quota.used == Storage(MAX_INT64) && !Below(Storage(10), run[|run| - 1].quota.used)
  {
    var hard, requests, s := Storage(10), TwoRequests(), Nothing();
    StartsProper();
    ThreeUpdates();
    StoragesDiffer();
    hide Apply, Storage, IsRequestRun, QuotaRequests.Fresh, NextRequest, Below, Proper;
    run := [s];
    Begins(hard, requests, s, 0);
    run, s := CallAlone(hard, requests, run, s, 0, AskReserve(requests[0]), Reserving, Reserve(requests[0]), Storage(5));
    Begins(hard, requests, s, 1);
    run, s := CallAlone(hard, requests, run, s, 1, AskReserve(requests[1]), Reserving, Reserve(requests[1]), Storage(MIN_INT64 + 4));
    BodyFails(hard, requests, s, 0);
    run, s := CallAlone(hard, requests, run, s, 0, AskRollback(requests[0]), RollingBack, Rollback(requests[0]), Storage(MAX_INT64));
  }

  lemma StartsProper()
    ensures Resting(Storage(10), TwoRequests(), [Nothing()], Nothing()) && Quiet(Nothing())
    ensures Proper(TwoRequests(), Storage(0)) && Below(Storage(10), Storage(0))
  {
  }

  lemma Begins(hard: Resources, requests: seq<Resources>, s: System, c: nat)
    requires Quiet(s) && c < |s.phases| == |requests| == |s.quota.clients| && s.phases[c].Waiting?
    ensures NextRequest(hard, requests, s, Invoked(s, c, AskReserve(requests[c]), Reserving))
  {
    assert Begin(requests, s, Invoked(s, c, AskReserve(requests[c]), Reserving), c);
  }

  lemma BodyFails(hard: Resources, requests: seq<Resources>, s: System, c: nat)
    requires Quiet(s) && c < |s.phases| == |requests| == |s.quota.clients| && s.phases[c].Running?
    ensures NextRequest(hard, requests, s, Invoked(s, c, AskRollback(requests[c]), RollingBack))
  {
    assert Body(requests, s, Invoked(s, c, AskRollback(requests[c]), RollingBack), c, true);
  }
}
