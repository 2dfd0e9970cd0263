/** Background pushes into the local registry of a proxy project. */
module ProxyPush {
  import opened Text
  import opened Wrappers

  const MAX_LIST_WAIT := 20
  const MAX_MANIFEST_WAIT := 10

  type Digest = string

  /** What the local registry answers for a digest: present, absent or an error. */
  datatype Answer = Present | Absent | Broken

  /** The elements found locally, in their order. */
  function Found(refs: seq<Digest>, at: Digest -> Answer): seq<Digest> {
    if refs == [] then [] else (if at(refs[0]).Present? then [refs[0]] else []) + Found(refs[1..], at)
  }

  function Missing(refs: seq<Digest>, at: Digest -> Answer): seq<Digest> {
    if refs == [] then [] else (if at(refs[0]).Present? then [] else [refs[0]]) + Missing(refs[1..], at)
  }

  lemma {:induction false} FoundAppend(refs: seq<Digest>, d: Digest, at: Digest -> Answer)
    ensures Found(refs + [d], at) == Found(refs, at) + (if at(d).Present? then [d] else [])
    ensures Missing(refs + [d], at) == Missing(refs, at) + (if at(d).Present? then [] else [d])
  {
    var all := refs + [d];
    if refs == [] {
      assert all[1..] == [];
    } else {
      assert all[1..] == refs[1..] + [d];
      FoundAppend(refs[1..], d, at);
    }
  }

  /** Nothing was dropped: the test by length is exact. */
  lemma {:induction false} LengthTest(refs: seq<Digest>, at: Digest -> Answer)
    ensures |Found(refs, at)| + |Missing(refs, at)| == |refs|
    ensures |Found(refs, at)| == |refs| <==> Found(refs, at) == refs
    ensures |Found(refs, at)| == |refs| <==> forall i :: 0 <= i < |refs| ==> at(refs[i]).Present?
  {
    if refs != [] {
      LengthTest(refs[1..], at);
      assert refs == [refs[0]] + refs[1..];
      assert (forall i :: 0 <= i < |refs| ==> at(refs[i]).Present?) ==>
          forall i :: 0 <= i < |refs[1..]| ==> at(refs[1..][i]).Present?;
    }
  }

  /** Only what the registry has is named. */
  lemma {:induction false} FoundIsPresent(refs: seq<Digest>, at: Digest -> Answer)
    ensures forall i :: 0 <= i < |Found(refs, at)| ==> at(Found(refs, at)[i]).Present?
    ensures forall i :: 0 <= i < |Missing(refs, at)| ==> !at(Missing(refs, at)[i]).Present?
  {
    if refs != [] {
      FoundIsPresent(refs[1..], at);
    }
  }

  predicate NoError(refs: seq<Digest>, at: Digest -> Answer) {
    forall i :: 0 <= i < |refs| ==> !at(refs[i]).Broken?
  }

  method UpdateManifestList(refs: seq<Digest>, at: Digest -> Answer) returns (r: Option<seq<Digest>>)
    ensures r == if NoError(refs, at) then Some(Found(refs, at)) else None
  {
    var exist := [];
    for n := 0 to |refs|
      invariant exist == Found(refs[..n], at) && NoError(refs[..n], at)
    {
      assert refs[..n + 1] == refs[..n] + [refs[n]];
      FoundAppend(refs[..n], refs[n], at);
      if at(refs[n]).Broken? { return None; }
      if at(refs[n]).Present? {
        exist := exist + [refs[n]];
      }
    }
    assert refs[..|refs|] == refs;
    r := Some(exist);
  }

  predicate Complete(refs: seq<Digest>, at: Digest -> Answer) {
    forall i :: 0 <= i < |refs| ==> at(refs[i]).Present?
  }

  // The set of pushes under way

  predicate Adds(before: set<string>, after: set<string>, key: string, suc: bool) {
    (suc <==> key !in before) && after == before + {key}
  }

  predicate Removes(before: set<string>, after: set<string>, key: string) {
    after == before - {key}
  }

  class InflightRequest {
    var reqMap: set<string>

    method AddRequest(artifact: string) returns (suc: bool)
      modifies this
      ensures Adds(old(reqMap), reqMap, artifact, suc)
    {
      if artifact in reqMap { return false; }
      reqMap := reqMap + {artifact};
      suc := true;
    }

    method RemoveRequest(artifact: string)
      modifies this
      ensures Removes(old(reqMap), reqMap, artifact)
    {
      reqMap := reqMap - {artifact};
    }
  }

  datatype Pusher = Waiting(key: string) | Pushing(key: string) | Skipped(key: string) | Ended(key: string)

  datatype State = State(reqMap: set<string>, pushers: seq<Pusher>)

  ghost predicate Spawn(s: State, t: State, key: string) {
    t == s.(pushers := s.pushers + [Waiting(key)])
  }

  ghost predicate Enter(s: State, t: State, p: nat, suc: bool) {
    && p < |s.pushers| && s.pushers[p].Waiting?
    && var key := s.pushers[p].key;
    && Adds(s.reqMap, t.reqMap, key, suc)
    && t.pushers == s.pushers[p := if suc then Pushing(key) else Skipped(key)]
  }

  ghost predicate Leave(s: State, t: State, p: nat) {
    && p < |s.pushers| && s.pushers[p].Pushing?
    && Removes(s.reqMap, t.reqMap, s.pushers[p].key)
    && t.pushers == s.pushers[p := Ended(s.pushers[p].key)]
  }

  ghost predicate Next(s: State, t: State) {
    || (exists key :: Spawn(s, t, key))
    || (exists p, suc :: Enter(s, t, p, suc))
    || (exists p :: Leave(s, t, p))
  }

  ghost predicate IsRun(run: seq<State>) {
    && run != [] && run[0] == State({}, [])
    && forall i :: 0 <= i < |run| - 1 ==> Next(run[i], run[i + 1])
  }

  ghost predicate Holds(s: State, p: nat, key: string) {
    p < |s.pushers| && s.pushers[p] == Pushing(key)
  }

  ghost predicate Inv(s: State) {
    && (forall key :: key in s.reqMap ==> exists p :: Holds(s, p, key))
    && (forall p, key :: Holds(s, p, key) ==> key in s.reqMap)
    && (forall p, q, key :: Holds(s, p, key) && Holds(s, q, key) ==> p == q)
  }

  lemma NextInv(s: State, t: State)
    requires Inv(s) && Next(s, t)
    ensures Inv(t)
  {
    forall key | key in t.reqMap ensures exists p :: Holds(t, p, key) {
      if key in s.reqMap {
        var p :| Holds(s, p, key);
        assert Holds(t, p, key);
      } else {
        var p: nat, suc :| Enter(s, t, p, suc);
        assert Holds(t, p, key);
      }
    }
    if q: nat :| Leave(s, t, q) {
      assert Holds(s, q, s.pushers[q].key);
    }
    forall p, key | Holds(t, p, key) ensures key in t.reqMap {
      assert Holds(s, p, key) || Enter(s, t, p, true);
    }
    forall p, q, key | Holds(t, p, key) && Holds(t, q, key) ensures p == q {
      assert Holds(s, p, key) || Enter(s, t, p, true);
      assert Holds(s, q, key) || Enter(s, t, q, true);
    }
  }

  /** In every interleaving at most one push per key is under way, and the set names just these. */
  lemma {:induction false} OnePushPerKey(run: seq<State>, i: nat)
    requires IsRun(run) && i < |run|
    ensures forall p, q, key :: Holds(run[i], p, key) && Holds(run[i], q, key) ==> p == q
    ensures forall key :: key in run[i].reqMap <==> exists p :: Holds(run[i], p, key)
    ensures Inv(run[i])
  {
    if i > 0 {
      var k := i - 1;
      OnePushPerKey(run, k);
      assert Next(run[k], run[k + 1]);
      NextInv(run[k], run[k + 1]);
    }
  }

  // Guarded pushes

  datatype Put = Done | LeftToAnother | PutFailed

  function Key(repo: string, reference: string): string {
    repo + ":" + reference
  }

  /** Keys tell repositories and references apart, as names of repositories hold no colon. */
  lemma KeysAreApart(repo: string, reference: string, repo2: string, reference2: string)
    requires Lacks(repo, ':') && Lacks(repo2, ':')
    ensures Key(repo, reference) == Key(repo2, reference2) <==> repo == repo2 && reference == reference2
  {
    IndexAfter(repo, ':', reference);
    IndexAfter(repo2, ':', reference2);
    var a, b := repo + [':'] + reference, repo2 + [':'] + reference2;
    assert Key(repo, reference) == a && Key(repo2, reference2) == b;
    assert repo == a[..|repo|] && reference == a[|repo| + 1..];
    assert repo2 == b[..|repo2|] && reference2 == b[|repo2| + 1..];
  }

  /** Pushing a blob or a manifest: skipped, as a success, if and only if a push with its key is
      under way; `accepts` is the registry's answer otherwise. */
  method Push(inflight: InflightRequest, repo: string, reference: string, accepts: bool) returns (r: Put)
    modifies inflight
    ensures inflight.reqMap == old(inflight.reqMap)
    ensures r == if Key(repo, reference) in old(inflight.reqMap) then LeftToAnother else if accepts then Done else PutFailed
  {
    var suc := inflight.AddRequest(Key(repo, reference));
    if !suc {
      return LeftToAnother;
    }
    r := if accepts then Done else PutFailed;
    inflight.RemoveRequest(Key(repo, reference));
  }

  // Lists

  /** Where a push of a list ended. */
  datatype ListOutcome =
    | LookupFailed
    | NothingFound                                          // not one manifest of the list is there
    | AlreadyStored(list: seq<Digest>)                      // the reference already has this list
    | Tried(list: seq<Digest>, reference: string, put: Put)

  /** What a lookup of the list by its reference answers: an error, nothing, or a digest. */
  datatype Stored = Unknown | Nothing | Under(digest: Digest)

  predicate IsDigestReference(reference: string) {
    "sha256:" <= reference
  }

  /** The rounds of waiting: `last` is the first in which every manifest was there, or the last one. */
  ghost predicate Waited(refs: seq<Digest>, seen: nat -> Digest -> Answer, last: nat, rounds: nat) {
    && last < rounds && (forall n :: 0 <= n < last ==> !Complete(refs, seen(n)))
    && (Complete(refs, seen(last)) || last == rounds - 1)
  }

  /** Waits until every manifest of the list is there, or the rounds are over; `seen` is what the
      registry answers in a round. */
  method WaitForList(refs: seq<Digest>, seen: nat -> Digest -> Answer) returns (list: Option<seq<Digest>>, last: nat)
    ensures last < MAX_LIST_WAIT && forall n :: 0 <= n < last ==> !Complete(refs, seen(n))
    ensures list.Some? <==> forall n: nat :: n <= last ==> NoError(refs, seen(n))
    ensures list.Some? ==> list.value == Found(refs, seen(last)) && Waited(refs, seen, last, 20)
  {
    list := Some([]);
    var n := 0;
    last := 0;
    while n < MAX_LIST_WAIT
      invariant 0 <= n <= MAX_LIST_WAIT && last == (if n == 0 then 0 else n - 1)
      invariant forall k: nat :: k < n ==> !Complete(refs, seen(k)) && NoError(refs, seen(k))
      invariant list.Some? && (n > 0 ==> list.value == Found(refs, seen(last)))
    {
      last := n;
      LengthTest(refs, seen(n));
      list := UpdateManifestList(refs, seen(n));
      if list.None? || |list.value| == |refs| { return; }
      n := n + 1;
    }
  }

  /** The list is pushed, under its own digest when asked for by digest, unless a lookup failed,
      nothing of it is there, or the reference already has it. */
  method PushList(inflight: InflightRequest, repo: string, reference: string, refs: seq<Digest>,
                  seen: nat -> Digest -> Answer, digestOf: seq<Digest> -> Digest, stored: Stored, accepts: bool)
    returns (out: ListOutcome, last: nat)
    modifies inflight
    ensures inflight.reqMap == old(inflight.reqMap)
    ensures out.LookupFailed? <==>
      || (exists n: nat :: n <= last && !NoError(refs, seen(n)))
      || (Found(refs, seen(last)) != [] && stored.Unknown?)
    ensures !out.LookupFailed? ==> Waited(refs, seen, last, 20)
    ensures out.NothingFound? ==> Found(refs, seen(last)) == []
    ensures out.AlreadyStored? || out.Tried? ==>
      out.list == Found(refs, seen(last)) != [] && (out.list == refs <==> Complete(refs, seen(last)))
    ensures out.AlreadyStored? ==> stored == Under(digestOf(out.list))
    ensures out.Tried? ==> stored != Under(digestOf(out.list))
    ensures out.Tried? ==> out.reference == if "sha256:" <= reference then digestOf(out.list) else reference
    ensures out.Tried? ==>
      out.put == if Key(repo, out.reference) in old(inflight.reqMap) then LeftToAnother else if accepts then Done else PutFailed
  {
    var list;
    list, last := WaitForList(refs, seen);
    if list.None? { return LookupFailed, last; }
    LengthTest(refs, seen(last));
    var newMan := list.value;
    if |newMan| == 0 { return NothingFound, last; }
    var newDig := digestOf(newMan);
    if stored.Unknown? { return LookupFailed, last; }
    if stored == Under(newDig) { return AlreadyStored(newMan), last; }
    var target := if IsDigestReference(reference) then newDig else reference;
    var put := Push(inflight, repo, target, accepts);
    out := Tried(newMan, target, put);
  }

  // A plain manifest

  method CheckDependencies(refs: seq<Digest>, at: Digest -> Answer) returns (wait: seq<Digest>)
    ensures wait == Missing(refs, at)
  {
    wait := [];
    for n := 0 to |refs|
      invariant wait == Missing(refs[..n], at)
    {
      assert refs[..n + 1] == refs[..n] + [refs[n]];
      FoundAppend(refs[..n], refs[n], at);
      if at(refs[n]).Broken? || at(refs[n]).Absent? {
        wait := wait + [refs[n]];
      }
    }
    assert refs[..|refs|] == refs;
  }

  lemma {:induction false} MissingIsListed(refs: seq<Digest>, at: Digest -> Answer, i: nat)
    requires i < |refs| && !at(refs[i]).Present?
    ensures exists k :: 0 <= k < |Missing(refs, at)| && Missing(refs, at)[k] == refs[i]
  {
    if i == 0 {
      assert Missing(refs, at)[0] == refs[0];
    } else {
      MissingIsListed(refs[1..], at, i - 1);
      var rest := Missing(refs[1..], at);
      var k :| 0 <= k < |rest| && rest[k] == refs[i];
      var shift := |Missing(refs, at)| - |rest|;
      assert Missing(refs, at)[k + shift] == refs[i];
    }
  }

  /** What the other pushes do meanwhile: the registry's answer in a round, the pushes under way
      when the n-th push of this call is tried, whether the remote gives a blob, and whether the
      registry takes a blob, or the manifest under a reference. */
  datatype World = World(seen: nat -> Digest -> Answer, others: nat -> State, readable: Digest -> bool, accepts: string -> bool)

  /** How the n-th push of this call, of `reference`, has to end. */
  ghost function PutAt(w: World, repo: string, n: nat, reference: string): Put {
    if exists p :: Holds(w.others(n), p, Key(repo, reference)) then LeftToAnother
    else if w.accepts(reference) then Done else PutFailed
  }

  /** The n-th missing blob is out of the way: read from the remote, and pushed by this call or its
      push was under way when it was tried. */
  ghost predicate Settled(w: World, repo: string, n: nat, d: Digest) {
    w.readable(d) && !PutAt(w, repo, n, d).PutFailed?
  }

  /** One push among the others. */
  method PushBeside(inflight: InflightRequest, repo: string, reference: string, w: World, n: nat) returns (r: Put)
    requires Inv(w.others(n))
    modifies inflight
    ensures r == PutAt(w, repo, n, reference)
  {
    inflight.reqMap := w.others(n).reqMap;
    r := Push(inflight, repo, reference, w.accepts(reference));
  }

  /** Waits for the blobs and pushes those still missing; stops at the first that cannot be pushed. */
  method SettleBlobs(inflight: InflightRequest, repo: string, refs: seq<Digest>, w: World)
    returns (ready: bool, wait: seq<Digest>, puts: seq<Put>, last: nat)
    requires forall n :: Inv(w.others(n))
    modifies inflight
    ensures Waited(refs, w.seen, last, 10) && wait == Missing(refs, w.seen(last))
    ensures ready <==> forall n :: 0 <= n < |wait| ==> Settled(w, repo, n, wait[n])
    ensures ready ==> |puts| == |wait| && forall n :: 0 <= n < |wait| ==> puts[n] == PutAt(w, repo, n, wait[n])
  {
    wait, puts, last := [], [], 0;
    var n := 0;
    while n < MAX_MANIFEST_WAIT
      invariant 0 <= n <= MAX_MANIFEST_WAIT && last == (if n == 0 then 0 else n - 1)
      invariant forall k: nat :: k < n ==> !Complete(refs, w.seen(k))
      invariant n > 0 ==> wait == Missing(refs, w.seen(last))
    {
      last := n;
      LengthTest(refs, w.seen(n));
      wait := CheckDependencies(refs, w.seen(n));
      if |wait| == 0 { break; }
      n := n + 1;
    }
    for k := 0 to |wait|
      invariant |puts| == k
      invariant forall j :: 0 <= j < k ==> Settled(w, repo, j, wait[j]) && puts[j] == PutAt(w, repo, j, wait[j])
    {
      if !w.readable(wait[k]) { return false, wait, puts, last; }
      var put := PushBeside(inflight, repo, wait[k], w, k);
      if put.PutFailed? { return false, wait, puts, last; }
      puts := puts + [put];
    }
    ready := true;
  }

  /** The manifest is pushed, by digest and by tag as far as these are known, if and only if each
      blob was found in the last round, or was read from the remote and then pushed or left to a
      push of it that was under way. A push by tag is tried whatever became of the one by digest. */
  method CacheManifest(inflight: InflightRequest, repo: string, digest: Digest, tag: string, refs: seq<Digest>, w: World)
    returns (ready: bool, wait: seq<Digest>, last: nat, byDigest: Option<Put>, byTag: Option<Put>)
    requires forall n :: Inv(w.others(n))
    modifies inflight
    ensures Waited(refs, w.seen, last, 10) && wait == Missing(refs, w.seen(last))
    ensures ready <==> forall n :: 0 <= n < |wait| ==> Settled(w, repo, n, wait[n])
    ensures ready ==> forall i :: 0 <= i < |refs| ==> w.seen(last)(refs[i]).Present? || refs[i] in wait
    ensures byDigest == if ready && |digest| > 0 then Some(PutAt(w, repo, |wait|, digest)) else None
    ensures byTag == if ready && |tag| > 0 then Some(PutAt(w, repo, |wait| + 1, tag)) else None
  {
    var puts;
    byDigest, byTag := None, None;
    ready, wait, puts, last := SettleBlobs(inflight, repo, refs, w);
    if !ready {
      return;
    }
    forall i | 0 <= i < |refs| ensures w.seen(last)(refs[i]).Present? || refs[i] in wait {
      if !w.seen(last)(refs[i]).Present? {
        MissingIsListed(refs, w.seen(last), i);
      }
    }
    if |digest| > 0 {
      var put := PushBeside(inflight, repo, digest, w, |wait|);
      byDigest := Some(put);
    }
    if |tag| > 0 {
      var put := PushBeside(inflight, repo, tag, w, |wait| + 1);
      byTag := Some(put);
    }
  }
}
