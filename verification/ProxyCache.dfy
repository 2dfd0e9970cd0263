/** Pulling through a proxy project: manifest lists are cached under their digest while the
    remote moves its tags. */
module ProxyCache {
  import opened Text
  import opened Wrappers

  /** What a client asked for: by digest, or by tag when the digest is empty. */
  datatype Info = Info(project: string, repository: string, tag: string, digest: string)

  function TrimPrefix(s: string, prefix: string): string {
    if prefix <= s then s[|prefix|..] else s
  }

  function RemoteRepo(art: Info): string {
    TrimPrefix(art.repository, art.project + "/")
  }

  /** The project is cut off the front of the repository, if it is there. */
  lemma RemoteRepoDropsProject(art: Info, rest: string)
    ensures art.repository == art.project + "/" + rest ==> RemoteRepo(art) == rest
    ensures !(art.project + "/" <= art.repository) ==> RemoteRepo(art) == art.repository
  {
  }

  function ListKey(repo: string, reference: string): string {
    "manifestlist:" + repo + ":" + reference
  }

  function TypeKey(repo: string, reference: string): string {
    ListKey(repo, reference) + ":contenttype"
  }

  /** An algorithm and a value, with one colon between them. */
  predicate IsDigest(d: string) {
    var n := Index(d, ':');
    n < |d| && Lacks(d[n + 1..], ':')
  }

  predicate IsRepository(repo: string) {
    Lacks(repo, ':')
  }

  lemma SplitAtColon(a: string, x: string, b: string, y: string)
    requires Lacks(a, ':') && Lacks(b, ':') && a + ":" + x == b + ":" + y
    ensures a == b && x == y
  {
    IndexAfter(a, ':', x);
    IndexAfter(b, ':', y);
    var s := a + [':'] + x;
    assert s == b + [':'] + y;
    assert a == s[..|a|] && x == s[|a| + 1..];
    assert b == s[..|b|] && y == s[|b| + 1..];
  }

  lemma NotADigest(d: string)
    requires IsDigest(d)
    ensures !IsDigest(d + ":contenttype")
  {
    var n := Index(d, ':');
    var tail := d[n + 1..] + ":contenttype";
    assert d + ":contenttype" == d[..n] + [':'] + tail;
    IndexAfter(d[..n], ':', tail);
    assert (d + ":contenttype")[n + 1..] == tail;
    assert tail[|d| - n - 1] == ':';
  }

  /** Keys of lists tell repository and digest apart, and are never keys of content types. */
  lemma KeysAreApart(repo: string, d: string, repo2: string, d2: string)
    requires IsRepository(repo) && IsRepository(repo2) && IsDigest(d) && IsDigest(d2)
    ensures ListKey(repo, d) == ListKey(repo2, d2) <==> repo == repo2 && d == d2
    ensures ListKey(repo, d) != TypeKey(repo2, d2)
  {
    var prefix := |"manifestlist:"|;
    assert ListKey(repo, d)[prefix..] == repo + ":" + d;
    assert ListKey(repo2, d2)[prefix..] == repo2 + ":" + d2;
    assert TypeKey(repo2, d2)[prefix..] == repo2 + ":" + (d2 + ":contenttype");
    if ListKey(repo, d) == ListKey(repo2, d2) {
      SplitAtColon(repo, d, repo2, d2);
    }
    if ListKey(repo, d) == TypeKey(repo2, d2) {
      NotADigest(d2);
      SplitAtColon(repo, d, repo2, d2 + ":contenttype");
    }
  }

  // The system

  datatype Value = Payload(bytes: string) | ContentType(name: string)

  datatype Outcome =
    | UseLocal
    | UseList(content: string, digest: string, contentType: string)
    | UseRemote
    | Failed

  /** What became of asking the remote for a descriptor. */
  datatype Answer =
    | NotAsked                     // the artifact asked for by digest is stored
    | Descriptor(digest: string)
    | RateLimited
    | NotThere                     // the remote does not have it
    | HeadError

  /** What a lookup in the cache gave. */
  datatype Fetch = Untried | Got(value: string) | Absent | Broken

  /** How far a pull is; `start` is the time it began and `a` the digest of the local artifact. */
  datatype Pull =
    | Looked(art: Info, start: nat, a: Option<string>)
    | Headed(art: Info, start: nat, a: Option<string>, desc: string)
    | Fetched(art: Info, start: nat, a: Option<string>, desc: string, content: string)
    | Done(art: Info, start: nat, a: Option<string>, answer: Answer, list: Fetch, kind: Fetch, outcome: Outcome)

  /** How far the background caching of a manifest list is. */
  datatype Fill =
    | ToSaveType(repo: string, digest: string, content: string)
    | ToSaveList(repo: string, digest: string, content: string, typeSaved: bool)
    | Filled(repo: string, digest: string, content: string, typeSaved: bool, listSaved: bool)

  datatype World = World(
    now: nat,
    tags: map<(string, string), string>,     // remote repository and tag to digest
    contents: map<string, string>,           // remote digest to content
    stored: set<(string, string)>,           // repository and digest of the local artifacts
    localTags: map<(string, string), string>,  // repository and tag to the digest of a local artifact
    cache: map<string, Value>, pulls: seq<Pull>, fills: seq<Fill>)

  /** The digest and the content type of a manifest, whether a cache is configured and when reading it fails, and whether the
      project serves what it has when the remote has nothing. */
  datatype Env = Env(hash: string -> string, kind: string -> string, caching: bool, broken: nat -> bool, localOnNotFound: bool) {
    ghost predicate Valid() {
      forall content :: IsDigest(hash(content))
    }
  }

  ghost predicate Honest(env: Env, w: World) {
    && (forall k :: k in w.tags ==> w.tags[k] in w.contents)
    && (forall d :: d in w.contents ==> env.hash(w.contents[d]) == d)
  }

  ghost predicate Init(env: Env, w: World) {
    w.now == 0 && w.cache == map[] && w.pulls == [] && w.fills == [] && Honest(env, w)
  }

  ghost predicate Retag(env: Env, w: World, v: World, repo: string, tag: string, content: string) {
    v == w.(now := w.now + 1, tags := w.tags[(repo, tag) := env.hash(content)],
            contents := w.contents[env.hash(content) := content])
  }

  ghost predicate Untag(w: World, v: World, k: (string, string)) {
    v == w.(now := w.now + 1, tags := w.tags - {k})
  }

  ghost predicate Evict(w: World, v: World, key: string) {
    v == w.(now := w.now + 1, cache := w.cache - {key})
  }

  /** The remote's answer to a request for a manifest: its digest, if it is there. */
  ghost function Resolve(w: World, art: Info): Option<string> {
    if art.digest != "" then if art.digest in w.contents then Some(art.digest) else None
    else
      var k := (RemoteRepo(art), art.tag);
      if k in w.tags then Some(w.tags[k]) else None
  }

  /** A manifest list was proxied and is now cached under the digest asked for, or the remote's. */
  ghost predicate BeginFill(w: World, v: World, art: Info) {
    && IsRepository(art.repository)
    && Resolve(w, art).Some? && Resolve(w, art).value in w.contents
    && var d := Resolve(w, art).value;
    && v == w.(now := w.now + 1,
               fills := w.fills + [ToSaveType(art.repository, if art.digest != "" then art.digest else d, w.contents[d])])
  }

  /** A save may fail and change nothing. */
  ghost predicate SaveType(env: Env, w: World, v: World, f: nat, ok: bool) {
    && f < |w.fills| && w.fills[f].ToSaveType?
    && var ToSaveType(repo, digest, content) := w.fills[f];
    && v == w.(now := w.now + 1, fills := w.fills[f := ToSaveList(repo, digest, content, ok)],
               cache := if ok then w.cache[TypeKey(repo, digest) := ContentType(env.kind(content))] else w.cache)
  }

  ghost predicate SaveList(w: World, v: World, f: nat, ok: bool) {
    && f < |w.fills| && w.fills[f].ToSaveList?
    && var ToSaveList(repo, digest, content, typeSaved) := w.fills[f];
    && v == w.(now := w.now + 1, fills := w.fills[f := Filled(repo, digest, content, typeSaved, ok)],
               cache := if ok then w.cache[ListKey(repo, digest) := Payload(content)] else w.cache)
  }

  /** Local artifacts and tags come and go. */
  ghost predicate LocalStep(w: World, v: World) {
    v == w.(now := w.now + 1, stored := v.stored, localTags := v.localTags)
  }

  /** The digest of the local artifact asked for, if it is there. */
  ghost function Local(w: World, art: Info): Option<string> {
    if art.digest != "" then if (art.repository, art.digest) in w.stored then Some(art.digest) else None
    else
      var k := (art.repository, art.tag);
      if k in w.localTags then Some(w.localTags[k]) else None
  }

  ghost predicate BeginPull(w: World, v: World, art: Info) {
    && IsRepository(art.repository) && (art.digest != "" ==> IsDigest(art.digest))
    && var a := Local(w, art);
    && v == w.(now := w.now + 1, pulls := w.pulls + [
                 if a.Some? && art.digest != "" then Done(art, w.now, a, NotAsked, Untried, Untried, UseLocal) else Looked(art, w.now, a)])
  }

  ghost predicate Advance(w: World, v: World, p: nat, pull: Pull) {
    p < |w.pulls| && v == w.(now := w.now + 1, pulls := w.pulls[p := pull])
  }

  /** The HEAD request is answered with a descriptor. */
  ghost predicate Head(w: World, v: World, p: nat) {
    && p < |w.pulls| && w.pulls[p].Looked?
    && var Looked(art, start, a) := w.pulls[p];
    && Resolve(w, art).Some?
    && Advance(w, v, p, Headed(art, start, a, Resolve(w, art).value))
  }

  /** The HEAD request brings no descriptor: the local artifact is served on a rate limit, or, if so
      configured, when the remote has nothing. */
  ghost predicate HeadFails(env: Env, w: World, v: World, p: nat, why: Answer) {
    && p < |w.pulls| && w.pulls[p].Looked?
    && var Looked(art, start, a) := w.pulls[p];
    && (why.RateLimited? || why.HeadError? || (why.NotThere? && Resolve(w, art).None?))
    && var serve := a.Some? && (why.RateLimited? || (why.NotThere? && env.localOnNotFound));
    && Advance(w, v, p, Done(art, start, a, why, Untried, Untried, if serve then UseLocal else Failed))
  }

  function LookupList(env: Env, w: World, key: string): Fetch {
    if env.broken(w.now) then Broken
    else if key in w.cache && w.cache[key].Payload? then Got(w.cache[key].bytes) else Absent
  }

  function LookupType(env: Env, w: World, key: string): Fetch {
    if env.broken(w.now) then Broken
    else if key in w.cache && w.cache[key].ContentType? then Got(w.cache[key].name) else Absent
  }

  ghost predicate FetchList(env: Env, w: World, v: World, p: nat) {
    && p < |w.pulls| && w.pulls[p].Headed?
    && var Headed(art, start, a, desc) := w.pulls[p];
    && var digest := if art.digest != "" then art.digest else desc;
    && var list := if env.caching then LookupList(env, w, ListKey(art.repository, digest)) else Untried;
    && Advance(w, v, p,
         if list.Got? then Fetched(art, start, a, desc, list.value)
         else Done(art, start, a, Descriptor(desc), list, Untried, if a == Some(desc) then UseLocal else UseRemote))
  }

  ghost predicate FetchType(env: Env, w: World, v: World, p: nat) {
    && p < |w.pulls| && w.pulls[p].Fetched?
    && var Fetched(art, start, a, desc, content) := w.pulls[p];
    && var digest := if art.digest != "" then art.digest else desc;
    && var kind := LookupType(env, w, TypeKey(art.repository, digest));
    && Advance(w, v, p, Done(art, start, a, Descriptor(desc), Got(content), kind,
         if kind.Got? then UseList(content, desc, kind.value) else UseRemote))
  }

  ghost predicate RemoteStep(env: Env, w: World, v: World) {
    (exists repo, tag, content :: Retag(env, w, v, repo, tag, content)) || (exists k :: Untag(w, v, k))
  }

  ghost predicate CacheStep(env: Env, w: World, v: World) {
    || (exists key :: Evict(w, v, key))
    || (exists art :: BeginFill(w, v, art))
    || (exists f, ok :: SaveType(env, w, v, f, ok))
    || (exists f, ok :: SaveList(w, v, f, ok))
  }

  ghost predicate PullStep(env: Env, w: World, v: World, p: nat) {
    || Head(w, v, p)
    || (exists why :: HeadFails(env, w, v, p, why)) || FetchList(env, w, v, p) || FetchType(env, w, v, p)
  }

  ghost predicate Next(env: Env, w: World, v: World) {
    || RemoteStep(env, w, v) || CacheStep(env, w, v)
    || LocalStep(w, v) || (exists art :: BeginPull(w, v, art))
    || (exists p :: PullStep(env, w, v, p))
  }

  ghost predicate IsRun(env: Env, run: seq<World>) {
    && env.Valid() && run != [] && Init(env, run[0])
    && forall i :: 0 <= i < |run| - 1 ==> Next(env, run[i], run[i + 1])
  }

  // The invariant

  /** The content type of a manifest with that digest. */
  ghost predicate IsTypeOf(env: Env, value: Value, d: string) {
    value.ContentType? && exists content :: env.hash(content) == d && env.kind(content) == value.name
  }

  /** Whatever is cached as the list of a digest has that digest, and content types are under
      their own keys. */
  ghost predicate CacheInv(env: Env, cache: map<string, Value>) {
    && (forall repo, d :: IsRepository(repo) && IsDigest(d) && ListKey(repo, d) in cache ==>
          cache[ListKey(repo, d)].Payload? && env.hash(cache[ListKey(repo, d)].bytes) == d)
    && (forall repo, d :: IsRepository(repo) && IsDigest(d) && TypeKey(repo, d) in cache ==>
          IsTypeOf(env, cache[TypeKey(repo, d)], d))
  }

  ghost predicate FillInv(env: Env, f: Fill) {
    IsRepository(f.repo) && env.hash(f.content) == f.digest
  }

  /** The descriptor is the digest asked for, or what the remote's tag was at some time of the pull. */
  ghost predicate WasCurrent(run: seq<World>, i: nat, art: Info, start: nat, desc: string) {
    if art.digest != "" then desc == art.digest
    else exists j :: start <= j <= i < |run| && Resolve(run[j], art) == Some(desc)
  }

  function Entry(isList: bool, value: string): Value {
    if isList then Payload(value) else ContentType(value)
  }

  ghost predicate Lacking(cache: map<string, Value>, key: string, isList: bool) {
    key in cache ==> if isList then !cache[key].Payload? else !cache[key].ContentType?
  }

  /** What a lookup of `key` gave was so at some time since the pull began. */
  ghost predicate FetchWasTrue(env: Env, run: seq<World>, i: nat, start: nat, key: string, f: Fetch, isList: bool) {
    match f
    case Untried => true
    case Got(value) => exists j :: start <= j < i < |run| && key in run[j].cache && run[j].cache[key] == Entry(isList, value)
    case Absent => exists j :: start <= j < i < |run| && Lacking(run[j].cache, key, isList)
    case Broken => exists j :: start <= j < i && env.broken(j)
  }

  ghost predicate ListWasTrue(env: Env, run: seq<World>, i: nat, p: Pull, desc: string, f: Fetch) {
    FetchWasTrue(env, run, i, p.start, ListKey(p.art.repository, desc), f, true)
  }

  ghost predicate TypeWasTrue(env: Env, run: seq<World>, i: nat, p: Pull, desc: string, f: Fetch) {
    FetchWasTrue(env, run, i, p.start, TypeKey(p.art.repository, desc), f, false)
  }

  /** The outcome for each answer of the remote and each result of the two lookups. */
  ghost predicate Right(env: Env, p: Pull)
    requires p.Done?
  {
    match p.answer
    case NotAsked => p.a.Some? && p.outcome.UseLocal?
    case RateLimited => p.outcome == if p.a.Some? then UseLocal else Failed
    case NotThere => p.outcome == if p.a.Some? && env.localOnNotFound then UseLocal else Failed
    case HeadError => p.outcome.Failed?
    case Descriptor(d) =>
      && (p.list.Untried? <==> !env.caching) && (p.kind.Untried? <==> !p.list.Got?)
      && p.outcome ==
           if p.list.Got? then if p.kind.Got? then UseList(p.list.value, d, p.kind.value) else UseRemote
           else if p.a == Some(d) then UseLocal else UseRemote
  }

  ghost predicate PullInv(env: Env, run: seq<World>, i: nat, p: Pull) {
    && IsRepository(p.art.repository)
    && p.start < i < |run| && p.a == Local(run[p.start], p.art)
    && (p.art.digest != "" && p.a.Some? ==> p.a.value == p.art.digest)
    && ((p.Done? && p.answer.NotAsked?) <==> p.art.digest != "" && p.a.Some?)
    && (p.Headed? || p.Fetched? ==> IsDigest(p.desc) && WasCurrent(run, i, p.art, p.start, p.desc))
    && (p.Fetched? ==> env.caching && env.hash(p.content) == p.desc && ListWasTrue(env, run, i, p, p.desc, Got(p.content)))
    && (p.Done? ==> Right(env, p))
    && (p.Done? && p.answer.NotThere? ==> exists j :: p.start <= j <= i < |run| && Resolve(run[j], p.art).None?)
    && (p.Done? && p.answer.Descriptor? ==>
          && IsDigest(p.answer.digest) && WasCurrent(run, i, p.art, p.start, p.answer.digest)
          && ListWasTrue(env, run, i, p, p.answer.digest, p.list) && TypeWasTrue(env, run, i, p, p.answer.digest, p.kind)
          && (p.list.Got? ==> env.hash(p.list.value) == p.answer.digest))
  }

  ghost predicate Inv(env: Env, run: seq<World>, i: nat) {
    && i < |run| && run[i].now == i && Honest(env, run[i]) && CacheInv(env, run[i].cache)
    && (forall f :: 0 <= f < |run[i].fills| ==> FillInv(env, run[i].fills[f]))
    && (forall p :: 0 <= p < |run[i].pulls| ==> PullInv(env, run, i, run[i].pulls[p]))
  }

  lemma SavedType(env: Env, cache: map<string, Value>, repo: string, content: string)
    requires CacheInv(env, cache) && IsRepository(repo) && IsDigest(env.hash(content))
    ensures CacheInv(env, cache[TypeKey(repo, env.hash(content)) := ContentType(env.kind(content))])
  {
    hide IsDigest, IsRepository, ListKey, TypeKey;
    var d := env.hash(content);
    assert IsTypeOf(env, ContentType(env.kind(content)), d);
    forall repo2, d2 | IsRepository(repo2) && IsDigest(d2)
      ensures ListKey(repo2, d2) != TypeKey(repo, d) && (TypeKey(repo2, d2) == TypeKey(repo, d) ==> d2 == d)
    {
      KeysAreApart(repo2, d2, repo, d);
      if TypeKey(repo2, d2) == TypeKey(repo, d) {
        TypeKeysAreApart(repo2, d2, repo, d);
      }
    }
  }

  lemma TypeKeysAreApart(repo: string, d: string, repo2: string, d2: string)
    requires IsRepository(repo) && IsRepository(repo2) && TypeKey(repo, d) == TypeKey(repo2, d2)
    ensures repo == repo2 && d == d2
  {
    var prefix, suffix := |"manifestlist:"|, |":contenttype"|;
    var key := TypeKey(repo, d);
    assert key[prefix..|key| - suffix] == repo + ":" + d;
    assert key == TypeKey(repo2, d2);
    assert key[prefix..|key| - suffix] == repo2 + ":" + d2;
    SplitAtColon(repo, d, repo2, d2);
  }

  lemma SavedList(env: Env, cache: map<string, Value>, repo: string, content: string)
    requires CacheInv(env, cache) && IsRepository(repo) && IsDigest(env.hash(content))
    ensures CacheInv(env, cache[ListKey(repo, env.hash(content)) := Payload(content)])
  {
    hide IsDigest, IsRepository, ListKey, TypeKey;
    var d := env.hash(content);
    forall repo2, d2 | IsRepository(repo2) && IsDigest(d2)
      ensures ListKey(repo2, d2) == ListKey(repo, d) ==> d2 == d
      ensures ListKey(repo, d) != TypeKey(repo2, d2)
    {
      KeysAreApart(repo2, d2, repo, d);
      KeysAreApart(repo, d, repo2, d2);
    }
  }

  lemma CacheStepInv(env: Env, w: World, v: World)
    requires env.Valid() && Honest(env, w) && CacheInv(env, w.cache) && CacheStep(env, w, v)
    requires forall f :: 0 <= f < |w.fills| ==> FillInv(env, w.fills[f])
    ensures CacheInv(env, v.cache) && forall f :: 0 <= f < |v.fills| ==> FillInv(env, v.fills[f])
  {
    hide IsRepository, IsDigest, ListKey, TypeKey;
    if f: nat, ok :| SaveType(env, w, v, f, ok) {
      var fill := w.fills[f];
      assert FillInv(env, fill) && IsDigest(env.hash(fill.content));
      SavedType(env, w.cache, fill.repo, fill.content);
    } else if f: nat, ok :| SaveList(w, v, f, ok) {
      var fill := w.fills[f];
      assert FillInv(env, fill) && IsDigest(env.hash(fill.content));
      SavedList(env, w.cache, fill.repo, fill.content);
    }
  }

  lemma FetchStays(env: Env, run: seq<World>, i: nat, start: nat, key: string, f: Fetch, isList: bool)
    requires i + 1 < |run| && FetchWasTrue(env, run, i, start, key, f, isList)
    ensures FetchWasTrue(env, run, i + 1, start, key, f, isList)
  {
  }

  lemma PullStays(env: Env, run: seq<World>, i: nat, p: Pull)
    requires i + 1 < |run| && PullInv(env, run, i, p)
    ensures PullInv(env, run, i + 1, p)
  {
    hide FetchWasTrue, Right, IsDigest, IsRepository, ListKey, TypeKey;
    if p.Fetched? {
      FetchStays(env, run, i, p.start, ListKey(p.art.repository, p.desc), Got(p.content), true);
    } else if p.Done? && p.answer.Descriptor? {
      FetchStays(env, run, i, p.start, ListKey(p.art.repository, p.answer.digest), p.list, true);
      FetchStays(env, run, i, p.start, TypeKey(p.art.repository, p.answer.digest), p.kind, false);
    }
  }

  lemma LookupIsTrue(env: Env, run: seq<World>, i: nat, start: nat, key: string)
    requires start <= i && i + 1 < |run| && run[i].now == i
    ensures FetchWasTrue(env, run, i + 1, start, key, LookupList(env, run[i], key), true)
    ensures FetchWasTrue(env, run, i + 1, start, key, LookupType(env, run[i], key), false)
  {
  }

  /** The remote's answer was current when it was given. */
  lemma HeadIsCurrent(run: seq<World>, i: nat, art: Info, start: nat, desc: string)
    requires start <= i < |run| && Resolve(run[i], art) == Some(desc)
    ensures WasCurrent(run, i, art, start, desc)
  {
  }

  lemma ResolveIsDigest(env: Env, w: World, art: Info)
    requires env.Valid() && Honest(env, w) && Resolve(w, art).Some?
    ensures IsDigest(Resolve(w, art).value)
  {
    hide IsDigest;
    var d := Resolve(w, art).value;
    assert d in w.contents && IsDigest(env.hash(w.contents[d]));
  }

  lemma PullStepInv(env: Env, run: seq<World>, i: nat, p: nat)
    requires Inv(env, run, i) && env.Valid() && i + 1 < |run| && PullStep(env, run[i], run[i + 1], p)
    ensures p < |run[i + 1].pulls| && PullInv(env, run, i + 1, run[i + 1].pulls[p])
  {
    hide IsDigest, IsRepository, ListKey, TypeKey, Honest, CacheInv, WasCurrent, Resolve;
    var w, v := run[i], run[i + 1];
    PullStays(env, run, i, w.pulls[p]);
    if Head(w, v, p) {
      HeadIsCurrent(run, i, w.pulls[p].art, w.pulls[p].start, v.pulls[p].desc);
      ResolveIsDigest(env, w, w.pulls[p].art);
      CurrentStays(run, i, w.pulls[p].art, w.pulls[p].start, v.pulls[p].desc);
    } else if FetchList(env, w, v, p) {
      ListFetched(env, run, i, p);
    } else if FetchType(env, w, v, p) {
      TypeFetched(env, run, i, p);
    } else {
      var why :| HeadFails(env, w, v, p, why);
      HeadFailed(env, run, i, p, why);
    }
  }

  lemma ListFetched(env: Env, run: seq<World>, i: nat, p: nat)
    requires Inv(env, run, i) && i + 1 < |run| && FetchList(env, run[i], run[i + 1], p)
    ensures p < |run[i + 1].pulls| && PullInv(env, run, i + 1, run[i + 1].pulls[p])
  {
    hide IsDigest, IsRepository, ListKey, TypeKey, Honest, CacheInv, WasCurrent, Resolve, FetchWasTrue;
    var pull := run[i].pulls[p];
    assert PullInv(env, run, i, pull);
    DescIsKey(run, i, pull.art, pull.start, pull.desc);
    CurrentStays(run, i, pull.art, pull.start, pull.desc);
    LookupIsTrue(env, run, i, pull.start, ListKey(pull.art.repository, pull.desc));
    NothingTried(env, run, i + 1, pull.start, ListKey(pull.art.repository, pull.desc), TypeKey(pull.art.repository, pull.desc));
    if run[i + 1].pulls[p].Fetched? {
      CachedList(env, run[i].cache, pull.art.repository, pull.desc);
    }
  }

  lemma NothingTried(env: Env, run: seq<World>, i: nat, start: nat, list: string, kind: string)
    ensures FetchWasTrue(env, run, i, start, list, Untried, true)
    ensures FetchWasTrue(env, run, i, start, kind, Untried, false)
  {
  }

  lemma TypeFetched(env: Env, run: seq<World>, i: nat, p: nat)
    requires Inv(env, run, i) && i + 1 < |run| && FetchType(env, run[i], run[i + 1], p)
    ensures p < |run[i + 1].pulls| && PullInv(env, run, i + 1, run[i + 1].pulls[p])
  {
    hide IsDigest, IsRepository, ListKey, TypeKey, Honest, CacheInv, WasCurrent, Resolve, FetchWasTrue;
    var pull := run[i].pulls[p];
    assert PullInv(env, run, i, pull);
    DescIsKey(run, i, pull.art, pull.start, pull.desc);
    CurrentStays(run, i, pull.art, pull.start, pull.desc);
    LookupIsTrue(env, run, i, pull.start, TypeKey(pull.art.repository, pull.desc));
    FetchStays(env, run, i, pull.start, ListKey(pull.art.repository, pull.desc), Got(pull.content), true);
  }

  lemma HeadFailed(env: Env, run: seq<World>, i: nat, p: nat, why: Answer)
    requires Inv(env, run, i) && i + 1 < |run| && HeadFails(env, run[i], run[i + 1], p, why)
    ensures p < |run[i + 1].pulls| && PullInv(env, run, i + 1, run[i + 1].pulls[p])
  {
    hide IsDigest, IsRepository, ListKey, TypeKey, Honest, CacheInv, WasCurrent, FetchWasTrue;
    assert PullInv(env, run, i, run[i].pulls[p]);
  }

  lemma CurrentStays(run: seq<World>, i: nat, art: Info, start: nat, desc: string)
    requires i + 1 < |run| && WasCurrent(run, i, art, start, desc)
    ensures WasCurrent(run, i + 1, art, start, desc)
  {
  }

  lemma DescIsKey(run: seq<World>, i: nat, art: Info, start: nat, desc: string)
    requires WasCurrent(run, i, art, start, desc)
    ensures (if art.digest != "" then art.digest else desc) == desc
  {
  }

  lemma CachedList(env: Env, cache: map<string, Value>, repo: string, d: string)
    requires CacheInv(env, cache) && IsRepository(repo) && IsDigest(d) && ListKey(repo, d) in cache
    ensures cache[ListKey(repo, d)].Payload? && env.hash(cache[ListKey(repo, d)].bytes) == d
  {
  }

  lemma EntriesAreRight(env: Env, cache: map<string, Value>, repo: string, d: string)
    requires CacheInv(env, cache) && IsRepository(repo) && IsDigest(d)
    ensures ListKey(repo, d) in cache ==> cache[ListKey(repo, d)].Payload?
    ensures TypeKey(repo, d) in cache ==> IsTypeOf(env, cache[TypeKey(repo, d)], d)
  {
  }

  lemma RemoteStepHonest(env: Env, w: World, v: World)
    requires Honest(env, w) && Next(env, w, v)
    ensures Honest(env, v) && v.now == w.now + 1
  {
    hide RemoteStep, CacheStep, PullStep, Honest;
    if RemoteStep(env, w, v) {
      RemoteStaysHonest(env, w, v);
    } else {
      RemoteUntouched(env, w, v);
    }
  }

  lemma RemoteStaysHonest(env: Env, w: World, v: World)
    requires Honest(env, w) && RemoteStep(env, w, v)
    ensures Honest(env, v) && v.now == w.now + 1
  {
  }

  lemma RemoteUntouched(env: Env, w: World, v: World)
    requires Honest(env, w) && Next(env, w, v) && !RemoteStep(env, w, v)
    ensures Honest(env, v) && v.now == w.now + 1
  {
    hide Honest, RemoteStep, CacheStep, PullStep;
    if CacheStep(env, w, v) {
      CacheStepFrame(env, w, v);
    } else if p :| PullStep(env, w, v, p) {
      PullStepFrame(env, w, v, p);
    }
    HonestSame(env, w, v);
  }

  lemma HonestSame(env: Env, w: World, v: World)
    requires Honest(env, w) && v.tags == w.tags && v.contents == w.contents
    ensures Honest(env, v)
  {
  }

  lemma NextInv(env: Env, run: seq<World>, i: nat)
    requires Inv(env, run, i) && env.Valid() && i + 1 < |run| && Next(env, run[i], run[i + 1])
    ensures Inv(env, run, i + 1)
  {
    hide IsDigest, IsRepository, ListKey, TypeKey, Honest, CacheInv, PullInv, FillInv, PullStep, CacheStep, RemoteStep;
    var w, v := run[i], run[i + 1];
    RemoteStepHonest(env, w, v);
    forall p | 0 <= p < |w.pulls| ensures PullInv(env, run, i + 1, w.pulls[p]) {
      PullStays(env, run, i, w.pulls[p]);
    }
    if CacheStep(env, w, v) {
      CacheStepInv(env, w, v);
      CacheStepFrame(env, w, v);
    } else if RemoteStep(env, w, v) {
      RemoteStepFrame(env, w, v);
    } else if p :| PullStep(env, w, v, p) {
      PullStepInv(env, run, i, p);
      PullStepFrame(env, w, v, p);
    } else if art :| BeginPull(w, v, art) {
      BegunPull(env, run, i, art);
    }
  }

  lemma BegunPull(env: Env, run: seq<World>, i: nat, art: Info)
    requires i + 1 < |run| && run[i].now == i && BeginPull(run[i], run[i + 1], art)
    ensures PullInv(env, run, i + 1, run[i + 1].pulls[|run[i].pulls|])
    ensures |run[i + 1].pulls| == |run[i].pulls| + 1 && run[i + 1].pulls[..|run[i].pulls|] == run[i].pulls
    ensures run[i + 1].cache == run[i].cache && run[i + 1].fills == run[i].fills
  {
  }

  lemma CacheStepFrame(env: Env, w: World, v: World)
    requires CacheStep(env, w, v)
    ensures v.pulls == w.pulls && v.tags == w.tags && v.contents == w.contents && v.now == w.now + 1
  {
  }

  lemma RemoteStepFrame(env: Env, w: World, v: World)
    requires RemoteStep(env, w, v)
    ensures v.pulls == w.pulls && v.cache == w.cache && v.fills == w.fills
  {
  }

  lemma PullStepFrame(env: Env, w: World, v: World, p: nat)
    requires PullStep(env, w, v, p)
    ensures p < |w.pulls| && |v.pulls| == |w.pulls| && v.cache == w.cache && v.fills == w.fills
    ensures v.tags == w.tags && v.contents == w.contents && v.now == w.now + 1
    ensures forall q :: 0 <= q < |w.pulls| && q != p ==> v.pulls[q] == w.pulls[q]
  {
  }

  lemma {:induction false} RunInv(env: Env, run: seq<World>, i: nat)
    requires IsRun(env, run) && i < |run|
    ensures Inv(env, run, i)
  {
    hide Next, PullInv, FillInv, Honest;
    if i > 0 {
      var k := i - 1;
      RunInv(env, run, k);
      assert Next(env, run[k], run[k + 1]);
      NextInv(env, run, k);
    }
  }

  /** The remote's tag names that digest. */
  ghost predicate TagIs(w: World, art: Info, d: string) {
    var k := (RemoteRepo(art), art.tag); k in w.tags && w.tags[k] == d
  }

  /** The remote has neither the digest asked for nor, without one, the tag. */
  ghost predicate Unknown(w: World, art: Info) {
    if art.digest != "" then art.digest !in w.contents else (RemoteRepo(art), art.tag) !in w.tags
  }

  /** When the remote answered a pull with a descriptor, a local artifact is served only if it
      has that digest, a cached list hashes to the digest reported with it, and the digest is
      the one asked for or was the tag's at the remote while the pull was going on. Without a
      descriptor no list is served. */
  lemma ServedIsCurrent(env: Env, run: seq<World>, i: nat, p: nat)
    requires IsRun(env, run) && i < |run| && p < |run[i].pulls| && run[i].pulls[p].Done?
    ensures var Done(art, start, a, answer, _, _, outcome) := run[i].pulls[p];
      && (answer.Descriptor? ==>
            && (outcome.UseLocal? ==> a == Some(answer.digest))
            && (outcome.UseList? ==>
                  && outcome.digest == answer.digest == env.hash(outcome.content)
                  && exists content :: env.hash(content) == answer.digest && env.kind(content) == outcome.contentType)
            && (art.digest != "" ==> answer.digest == art.digest)
            && (art.digest == "" ==>
                  exists j :: start <= j <= i && TagIs(run[j], art, answer.digest)))
      && (!answer.Descriptor? ==> !outcome.UseList?)
  {
    RunInv(env, run, i);
    var pull := run[i].pulls[p];
    assert PullInv(env, run, i, pull);
    assert forall j :: 0 <= j <= i && pull.answer.Descriptor? && pull.art.digest == "" && Resolve(run[j], pull.art) == Some(pull.answer.digest) ==>
      TagIs(run[j], pull.art, pull.answer.digest);
    hide IsDigest, IsRepository, ListKey, TypeKey, Resolve, TagIs;
    if pull.answer.Descriptor? && pull.outcome.UseList? {
      var key := TypeKey(pull.art.repository, pull.answer.digest);
      var j :| pull.start <= j < i && key in run[j].cache && run[j].cache[key] == Entry(false, pull.kind.value);
      RunInv(env, run, j);
      EntriesAreRight(env, run[j].cache, pull.art.repository, pull.answer.digest);
    }
  }

  /** What a pull that got a descriptor serves, exactly: the list if both it and its content type
      were found in the cache; else, if no list was found, the local artifact exactly when it has
      the digest of the descriptor; else the remote. What the cache gave was so during the pull. */
  lemma PullIsExact(env: Env, run: seq<World>, i: nat, p: nat)
    requires IsRun(env, run) && i < |run| && p < |run[i].pulls| && run[i].pulls[p].Done? && run[i].pulls[p].answer.Descriptor?
    ensures var Done(art, start, a, answer, list, kind, outcome) := run[i].pulls[p];
      && (outcome.UseList? <==> list.Got? && kind.Got?)
      && (outcome.UseList? ==> outcome == UseList(list.value, answer.digest, kind.value))
      && (outcome.UseLocal? <==> !list.Got? && a == Some(answer.digest))
      && (outcome.UseRemote? <==> (list.Got? && !kind.Got?) || (!list.Got? && a != Some(answer.digest)))
      && (list.Untried? <==> !env.caching) && (kind.Untried? <==> !list.Got?)
      && start < i && a == Local(run[start], art)
    ensures var Done(art, start, _, answer, list, kind, _) := run[i].pulls[p];
      var listKey, typeKey := ListKey(art.repository, answer.digest), TypeKey(art.repository, answer.digest);
      && (list.Got? ==> exists j :: start <= j < i && listKey in run[j].cache && run[j].cache[listKey] == Payload(list.value))
      && (list.Absent? ==> exists j :: start <= j < i && listKey !in run[j].cache)
      && (kind.Got? ==> exists j :: start <= j < i && typeKey in run[j].cache && run[j].cache[typeKey] == ContentType(kind.value))
      && (kind.Absent? ==> exists j :: start <= j < i && typeKey !in run[j].cache)
      && (list.Broken? || kind.Broken? ==> exists j :: start <= j < i && env.broken(j))
  {
    RunInv(env, run, i);
    var pull := run[i].pulls[p];
    assert PullInv(env, run, i, pull);
    hide IsDigest, IsRepository, ListKey, TypeKey;
    forall j | 0 <= j < i
      ensures Lacking(run[j].cache, ListKey(pull.art.repository, pull.answer.digest), true) ==>
        ListKey(pull.art.repository, pull.answer.digest) !in run[j].cache
      ensures Lacking(run[j].cache, TypeKey(pull.art.repository, pull.answer.digest), false) ==>
        TypeKey(pull.art.repository, pull.answer.digest) !in run[j].cache
    {
      RunInv(env, run, j);
      EntriesAreRight(env, run[j].cache, pull.art.repository, pull.answer.digest);
    }
  }

  /** Without a descriptor the local artifact is served if it was asked for by digest, on a rate
      limit, or when the remote had nothing and the project allows it, and nothing else is. */
  lemma WithoutDescriptor(env: Env, run: seq<World>, i: nat, p: nat)
    requires IsRun(env, run) && i < |run| && p < |run[i].pulls| && run[i].pulls[p].Done? && !run[i].pulls[p].answer.Descriptor?
    ensures var Done(art, start, a, answer, _, _, outcome) := run[i].pulls[p];
      && start < i && a == Local(run[start], art)
      && (answer.NotAsked? <==> art.digest != "" && a.Some?) && (answer.NotAsked? ==> a == Some(art.digest))
      && (answer.NotThere? ==> exists j :: start <= j <= i && Unknown(run[j], art))
      && outcome == if a.Some? && (answer.NotAsked? || answer.RateLimited? || (answer.NotThere? && env.localOnNotFound))
                    then UseLocal else Failed
  {
    RunInv(env, run, i);
    assert PullInv(env, run, i, run[i].pulls[p]);
    assert forall j :: 0 <= j <= i && Resolve(run[j], run[i].pulls[p].art).None? ==> Unknown(run[j], run[i].pulls[p].art);
  }

  /** No pull is stuck: a pull of anything can begin, and one that is not done has a next step. */
  lemma PullGoesOn(env: Env, w: World, p: nat, art: Info)
    requires p < |w.pulls| && !w.pulls[p].Done?
    requires IsRepository(art.repository) && (art.digest != "" ==> IsDigest(art.digest))
    ensures exists v :: PullStep(env, w, v, p)
    ensures exists v :: BeginPull(w, v, art)
  {
    hide IsDigest, IsRepository, ListKey, TypeKey, Resolve, LookupList, LookupType;
    var a := Local(w, art);
    var begun := w.(now := w.now + 1, pulls := w.pulls + [
      if a.Some? && art.digest != "" then Done(art, w.now, a, NotAsked, Untried, Untried, UseLocal) else Looked(art, w.now, a)]);
    assert BeginPull(w, begun, art);
    var pull := w.pulls[p];
    if pull.Looked? {
      var v := w.(now := w.now + 1, pulls := w.pulls[p := Done(pull.art, pull.start, pull.a, HeadError, Untried, Untried, Failed)]);
      assert HeadFails(env, w, v, p, HeadError);
      assert PullStep(env, w, v, p);
    } else if pull.Headed? {
      var digest := if pull.art.digest != "" then pull.art.digest else pull.desc;
      var list := if env.caching then LookupList(env, w, ListKey(pull.art.repository, digest)) else Untried;
      var next := if list.Got? then Fetched(pull.art, pull.start, pull.a, pull.desc, list.value)
        else Done(pull.art, pull.start, pull.a, Descriptor(pull.desc), list, Untried, if pull.a == Some(pull.desc) then UseLocal else UseRemote);
      var v := w.(now := w.now + 1, pulls := w.pulls[p := next]);
      assert FetchList(env, w, v, p) && PullStep(env, w, v, p);
    } else {
      var digest := if pull.art.digest != "" then pull.art.digest else pull.desc;
      var kind := LookupType(env, w, TypeKey(pull.art.repository, digest));
      var next := Done(pull.art, pull.start, pull.a, Descriptor(pull.desc), Got(pull.content), kind,
        if kind.Got? then UseList(pull.content, pull.desc, kind.value) else UseRemote);
      var v := w.(now := w.now + 1, pulls := w.pulls[p := next]);
      assert FetchType(env, w, v, p) && PullStep(env, w, v, p);
    }
  }

  // What is filled in is served

  /** Nothing removed `key` from the cache up to time `i`. */
  ghost predicate NotEvicted(run: seq<World>, i: nat, key: string) {
    i < |run| && forall j :: 0 <= j < i ==> !Evict(run[j], run[j + 1], key)
  }

  lemma KeyStays(env: Env, w: World, v: World, key: string)
    requires Next(env, w, v) && key in w.cache && !Evict(w, v, key)
    ensures key in v.cache
  {
    hide RemoteStep, PullStep;
    if RemoteStep(env, w, v) {
      RemoteStepFrame(env, w, v);
    } else if p :| PullStep(env, w, v, p) {
      PullStepFrame(env, w, v, p);
    }
  }

  /** One step as seen by a fill: its own save, or nothing. */
  lemma FillMoves(env: Env, w: World, v: World, f: nat)
    requires Next(env, w, v) && f < |v.fills|
    ensures f >= |w.fills| ==> v.fills[f].ToSaveType?
    ensures f < |w.fills| ==>
      || v.fills[f] == w.fills[f]
      || (exists ok :: SaveType(env, w, v, f, ok)) || (exists ok :: SaveList(w, v, f, ok))
  {
    hide RemoteStep, PullStep, CacheStep;
    if RemoteStep(env, w, v) {
      RemoteStepFrame(env, w, v);
    } else if p :| PullStep(env, w, v, p) {
      PullStepFrame(env, w, v, p);
    } else if CacheStep(env, w, v) {
      FillSaves(env, w, v, f);
    }
  }

  lemma FillSaves(env: Env, w: World, v: World, f: nat)
    requires CacheStep(env, w, v) && f < |v.fills|
    ensures f >= |w.fills| ==> v.fills[f].ToSaveType?
    ensures f < |w.fills| ==>
      || v.fills[f] == w.fills[f]
      || (exists ok :: SaveType(env, w, v, f, ok)) || (exists ok :: SaveList(w, v, f, ok))
  {
    hide SaveType, SaveList, Evict;
    if g: nat, ok :| SaveType(env, w, v, g, ok) {
      OtherFills(env, w, v, g, ok);
    } else if g: nat, ok :| SaveList(w, v, g, ok) {
      OtherFills(env, w, v, g, ok);
    } else if key :| Evict(w, v, key) {
      EvictFills(w, v, key);
    }
  }

  lemma EvictFills(w: World, v: World, key: string)
    requires Evict(w, v, key)
    ensures v.fills == w.fills
  {
  }

  lemma OtherFills(env: Env, w: World, v: World, g: nat, ok: bool)
    requires SaveType(env, w, v, g, ok) || SaveList(w, v, g, ok)
    ensures |v.fills| == |w.fills| && forall f :: 0 <= f < |w.fills| && f != g ==> v.fills[f] == w.fills[f]
  {
  }

  /** What a fill saved is in the cache as long as nothing removes it. */
  lemma {:induction false} SavedStays(env: Env, run: seq<World>, i: nat, f: nat)
    requires IsRun(env, run) && i < |run| && f < |run[i].fills|
    ensures var fill := run[i].fills[f];
      && (!fill.ToSaveType? && fill.typeSaved && NotEvicted(run, i, TypeKey(fill.repo, fill.digest)) ==>
            TypeKey(fill.repo, fill.digest) in run[i].cache)
      && (fill.Filled? && fill.listSaved && NotEvicted(run, i, ListKey(fill.repo, fill.digest)) ==>
            ListKey(fill.repo, fill.digest) in run[i].cache)
    decreases i
  {
    if i > 0 {
      var k := i - 1;
      assert Next(env, run[k], run[k + 1]);
      FillMoves(env, run[k], run[k + 1], f);
      var fill := run[i].fills[f];
      if f < |run[k].fills| {
        SavedStays(env, run, k, f);
        CachedStays(env, run, k, TypeKey(fill.repo, fill.digest));
        CachedStays(env, run, k, ListKey(fill.repo, fill.digest));
        hide Next, IsRun, Evict, TypeKey, ListKey;
      }
    }
  }

  lemma CachedStays(env: Env, run: seq<World>, k: nat, key: string)
    requires k + 1 < |run| && Next(env, run[k], run[k + 1])
    ensures NotEvicted(run, k + 1, key) ==> NotEvicted(run, k, key) && (key in run[k].cache ==> key in run[k + 1].cache)
  {
    if NotEvicted(run, k + 1, key) && key in run[k].cache {
      KeyStays(env, run[k], run[k + 1], key);
    }
  }

  lemma {:induction false} FilledStays(env: Env, run: seq<World>, i: nat, j: nat, f: nat)
    requires IsRun(env, run) && i <= j < |run| && f < |run[i].fills| && run[i].fills[f].Filled?
    ensures f < |run[j].fills| && run[j].fills[f] == run[i].fills[f]
    decreases j
  {
    hide Next, Init;
    if i < j {
      var k := j - 1;
      FilledStays(env, run, i, k, f);
      assert Next(env, run[k], run[k + 1]);
      FilledIsDone(env, run[k], run[k + 1], f);
    }
  }

  lemma FilledIsDone(env: Env, w: World, v: World, f: nat)
    requires Next(env, w, v) && f < |w.fills| && w.fills[f].Filled?
    ensures f < |v.fills| && v.fills[f] == w.fills[f]
  {
    FillsGrow(env, w, v);
    FillMoves(env, w, v, f);
    hide Next;
  }

  lemma FillsGrow(env: Env, w: World, v: World)
    requires Next(env, w, v)
    ensures |w.fills| <= |v.fills|
  {
    hide RemoteStep, PullStep;
    if RemoteStep(env, w, v) {
      RemoteStepFrame(env, w, v);
    } else if p :| PullStep(env, w, v, p) {
      PullStepFrame(env, w, v, p);
    }
  }

  /** A pull that begins after a list was filled in, under the digest the remote then answers, is
      served that list from the cache, unless it was evicted or the cache could not be read. */
  lemma FilledIsServed(env: Env, run: seq<World>, i: nat, p: nat, f: nat)
    requires IsRun(env, run) && i < |run| && p < |run[i].pulls| && run[i].pulls[p].Done? && run[i].pulls[p].answer.Descriptor?
    requires run[i].pulls[p].start < |run| && f < |run[run[i].pulls[p].start].fills|
    requires var fill := run[run[i].pulls[p].start].fills[f];
      && fill.Filled? && fill.typeSaved && fill.listSaved
      && fill.repo == run[i].pulls[p].art.repository && fill.digest == run[i].pulls[p].answer.digest
      && NotEvicted(run, i, ListKey(fill.repo, fill.digest)) && NotEvicted(run, i, TypeKey(fill.repo, fill.digest))
    requires env.caching && forall j :: run[i].pulls[p].start <= j < i ==> !env.broken(j)
    ensures run[i].pulls[p].outcome.UseList? && env.hash(run[i].pulls[p].outcome.content) == run[i].pulls[p].answer.digest
  {
    var pull := run[i].pulls[p];
    var fill := run[pull.start].fills[f];
    PullIsExact(env, run, i, p);
    ServedIsCurrent(env, run, i, p);
    forall j | pull.start <= j < i ensures ListKey(fill.repo, fill.digest) in run[j].cache && TypeKey(fill.repo, fill.digest) in run[j].cache {
      FilledStays(env, run, pull.start, j, f);
      SavedStays(env, run, j, f);
    }
  }
}
