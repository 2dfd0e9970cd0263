/** Runs of tag and artifact operations on one store, under fixed immutability rules. */
module StoreRuns {
  import opened Registry
  import opened Collection
  import opened Removal
  import opened ArtifactStore
  import opened Wrappers

  ghost predicate Healthy(db: Db) {
    db.Valid() && db.Unique() && db.Ordered()
  }

  /** The rules match the tag under the project and the repository of its artifact. */
  ghost predicate Matched(db: Db, rules: Rules, t: int) {
    && t in db.tags && db.tags[t].artifact in db.artifacts
    && var art := db.artifacts[db.tags[t].artifact]; rules(art.project, art.repository, db.tags[t].name)
  }

  /** Every tag that the rules match in `a` is the same tag, still matched, in `b`. */
  ghost predicate ImmutableKept(a: Db, b: Db, rules: Rules) {
    forall t :: Matched(a, rules, t) ==> Matched(b, rules, t) && b.tags[t] == a.tags[t]
  }

  predicate TagChar(c: char) {
    'a' <= c <= 'z' || 'A' <= c <= 'Z' || '0' <= c <= '9' || c == '_'
  }

  /** One letter, digit or underscore, then at most 127 of those, dots and dashes. */
  predicate ValidTagName(name: string) {
    && 1 <= |name| <= 128
    && TagChar(name[0])
    && forall i :: 1 <= i < |name| ==> TagChar(name[i]) || name[i] == '.' || name[i] == '-'
  }

  lemma TagNames(name: string)
    ensures ValidTagName(name) ==> 1 <= |name| <= 128 && name[0] != '.' && name[0] != '-'
    ensures ValidTagName(name) ==> forall i :: 0 <= i < |name| ==> name[i] != '/' && name[i] != ':' && name[i] != ' '
    ensures 1 <= |name| <= 128 && (forall i :: 0 <= i < |name| ==> '0' <= name[i] <= '9') ==> ValidTagName(name)
    ensures ValidTagName("_v1.0-RC_2") && !ValidTagName("") && !ValidTagName(".v1") && !ValidTagName("-v1")
  {
  }

  predicate HasTag(db: Db, repo: int, name: string) {
    exists t :: t in db.tags && db.tags[t].repository == repo && db.tags[t].name == name
  }

  /** What ensuring a tag leaves behind, by the state it found. */
  ghost predicate TagEnsured(pre: Db, post: Db, rules: Rules, repo: int, artifact: int, name: string, out: Outcome, id: int) {
    if HasTag(pre, repo, name) then
      exists t :: t in pre.tags && pre.tags[t].repository == repo && pre.tags[t].name == name &&
        if pre.tags[t].artifact == artifact then out.Ok? && id == t && post == pre
        else if Matched(pre, rules, t) then out == ImmutableTag(t) && post == pre
        else if artifact !in pre.artifacts then out.ForeignKey? && post == pre
        else out.Ok? && id == t && post == pre.(tags := pre.tags[t := Tag(repo, artifact, name)])
    else if !ValidTagName(name) then out.InvalidName? && post == pre
    else if artifact !in pre.artifacts then out.ForeignKey? && post == pre
    else out.Ok? && id == pre.serial
         && post == pre.(tags := pre.tags[id := Tag(repo, artifact, name)], serial := pre.serial + 1)
  }

  /** "Ensure" of the tag controller: creates the tag or points it at the artifact. */
  method EnsureTag(store: Store, repo: int, artifact: int, name: string) returns (out: Outcome, id: int)
    requires Healthy(store.db)
    modifies store
    ensures TagEnsured(old(store.db), store.db, store.env.rules, repo, artifact, name, out, id)
    ensures Healthy(store.db) && ImmutableKept(old(store.db), store.db, store.env.rules)
  {
    var db := store.db;
    id := -1;
    if HasTag(db, repo, name) {
      var t :| t in db.tags && db.tags[t].repository == repo && db.tags[t].name == name;
      if db.tags[t].artifact == artifact {
        return Ok, t;
      }
      if Immutable(db, store.env.rules, db.tags[t]) {
        return ImmutableTag(t), -1;
      }
      if artifact !in db.artifacts {
        return ForeignKey, -1;
      }
      store.db := db.(tags := db.tags[t := Tag(repo, artifact, name)]);
      return Ok, t;
    }
    if !ValidTagName(name) {
      return InvalidName, -1;
    }
    if artifact !in db.artifacts {
      return ForeignKey, -1;
    }
    store.db := db.(tags := db.tags[db.serial := Tag(repo, artifact, name)], serial := db.serial + 1);
    return Ok, db.serial;
  }

  predicate HasArtifact(db: Db, repo: int, digest: string) {
    exists x :: x in db.artifacts && db.artifacts[x].repository == repo && db.artifacts[x].digest == digest
  }

  ghost predicate IsArtifact(db: Db, repo: int, digest: string, x: int) {
    x in db.artifacts && db.artifacts[x].repository == repo && db.artifacts[x].digest == digest
  }

  ghost predicate Creatable(db: Db, repo: int, children: seq<string>) {
    && (forall i :: 0 <= i < |children| ==> HasArtifact(db, repo, children[i]))
    && (forall i, j :: 0 <= i < j < |children| ==> children[i] != children[j])
  }

  /** `post` is `pre` with a new artifact `id` that lists exactly the given children. */
  ghost predicate ArtifactCreated(pre: Db, post: Db, art: Artifact, children: seq<string>, id: int) {
    && id == pre.serial && id !in pre.artifacts
    && post.artifacts == pre.artifacts[id := art]
    && post.accessories == pre.accessories && post.tags == pre.tags && post.trash == pre.trash
    && post.serial == pre.serial + 1 + |children|
    && NewReferences(pre, post, id)
    && (forall i :: 0 <= i < |children| ==> Lists(pre, post, art.repository, id, id + 1 + i, children[i]))
  }

  ghost predicate NewReferences(pre: Db, post: Db, id: int) {
    && (forall r :: r in post.references <==> r in pre.references || id < r < post.serial)
    && (forall r :: r in pre.references ==> r in post.references && post.references[r] == pre.references[r])
  }

  ghost predicate Lists(pre: Db, post: Db, repo: int, id: int, r: int, digest: string) {
    r in post.references && post.references[r].parent == id && IsArtifact(pre, repo, digest, post.references[r].child)
  }

  /** An accessory to be linked together with a new artifact. */
  datatype Candidate = Candidate(subject: int, artifact: int, kind: AccessoryType)

  /** The store with a row that makes `artifact` an accessory, unless it already is one; none if
      the artifact is not there. */
  function WithAccessory(db: Db, c: Candidate): Option<Db> {
    if db.IsAccessory(c.artifact) then Some(db)
    else if c.artifact !in db.artifacts then None
    else Some(db.(
      accessories := db.accessories[db.serial := Accessory(c.artifact, c.subject, db.artifacts[c.artifact].digest, c.kind)],
      serial := db.serial + 1))
  }

  lemma LinkIsHealthy(db: Db, c: Candidate)
    requires Healthy(db) && c.subject != c.artifact && WithAccessory(db, c).Some?
    ensures Healthy(WithAccessory(db, c).value)
  {
  }

  /** Since `pre`, some accessory rows were added, each for an artifact that had none. */
  ghost predicate OnlyLinked(pre: Db, post: Db) {
    && post.artifacts == pre.artifacts && post.references == pre.references
    && post.tags == pre.tags && post.trash == pre.trash && pre.serial <= post.serial
    && (forall a :: a in pre.accessories ==> a in post.accessories && post.accessories[a] == pre.accessories[a])
    && (forall a :: a in post.accessories && a !in pre.accessories ==> !pre.IsAccessory(post.accessories[a].artifact))
  }

  /** Every candidate is an accessory in `post`: with the rows it had in `pre`, or with one new
      row that holds what some candidate for it says. */
  ghost predicate Linked(pre: Db, post: Db, candidates: seq<Candidate>) {
    && OnlyLinked(pre, post)
    && (forall i :: 0 <= i < |candidates| ==> post.IsAccessory(candidates[i].artifact))
    && (forall a :: a in post.accessories && a !in pre.accessories ==> Asked(post, candidates, a))
    && (forall a, b :: a in post.accessories && b in post.accessories && a != b && a !in pre.accessories ==>
          post.accessories[a].artifact != post.accessories[b].artifact)
  }

  ghost predicate Asked(post: Db, candidates: seq<Candidate>, a: int)
    requires a in post.accessories
  {
    exists i :: 0 <= i < |candidates|
      && post.accessories[a].artifact == candidates[i].artifact && post.accessories[a].subject == candidates[i].subject
      && post.accessories[a].kind == candidates[i].kind
  }

  lemma LinkedMore(pre: Db, cur: Db, candidates: seq<Candidate>, c: Candidate)
    requires Healthy(cur) && Linked(pre, cur, candidates) && WithAccessory(cur, c).Some?
    ensures Linked(pre, WithAccessory(cur, c).value, candidates + [c])
  {
    var post, all := WithAccessory(cur, c).value, candidates + [c];
    assert all[|candidates|] == c;
    forall a | a in cur.accessories && a !in pre.accessories ensures Asked(cur, all, a) {
      assert Asked(cur, candidates, a);
      var i :| 0 <= i < |candidates| && cur.accessories[a].artifact == candidates[i].artifact
        && cur.accessories[a].subject == candidates[i].subject && cur.accessories[a].kind == candidates[i].kind;
      assert all[i] == candidates[i];
    }
    forall i | 0 <= i < |all| ensures post.IsAccessory(all[i].artifact) {
      if i < |candidates| {
        assert all[i] == candidates[i];
        var a :| a in cur.accessories && cur.accessories[a].artifact == all[i].artifact;
        assert a in post.accessories;
      } else if !cur.IsAccessory(c.artifact) {
        assert cur.serial in post.accessories;
      }
    }
    if !cur.IsAccessory(c.artifact) {
      FreshLink(pre, cur, candidates, c);
    }
  }

  lemma FreshLink(pre: Db, cur: Db, candidates: seq<Candidate>, c: Candidate)
    requires Healthy(cur) && Linked(pre, cur, candidates) && !cur.IsAccessory(c.artifact) && c.artifact in cur.artifacts
    ensures var post := WithAccessory(cur, c).value;
      && OnlyLinked(pre, post)
      && (forall a :: a in post.accessories && a !in pre.accessories ==> Asked(post, candidates + [c], a))
  {
    var post, all := WithAccessory(cur, c).value, candidates + [c];
    assert all[|candidates|] == c;
    assert !pre.IsAccessory(c.artifact);
    forall a | a in post.accessories && a !in pre.accessories ensures Asked(post, all, a) {
      if a in cur.accessories {
        assert Asked(cur, candidates, a);
        var i :| 0 <= i < |candidates| && cur.accessories[a].artifact == candidates[i].artifact
          && cur.accessories[a].subject == candidates[i].subject && cur.accessories[a].kind == candidates[i].kind;
        assert all[i] == candidates[i] && post.accessories[a] == cur.accessories[a];
      }
    }
  }

  ghost predicate Linkable(db: Db, candidates: seq<Candidate>) {
    forall i :: 0 <= i < |candidates| ==> candidates[i].artifact in db.artifacts
  }

  /** Links the candidates one after the other. */
  method LinkAll(db: Db, candidates: seq<Candidate>) returns (ok: bool, post: Db)
    requires Healthy(db) && forall i :: 0 <= i < |candidates| ==> candidates[i].subject != candidates[i].artifact
    ensures ok <==> Linkable(db, candidates)
    ensures ok ==> Linked(db, post, candidates) && Healthy(post)
  {
    post := db;
    for n := 0 to |candidates|
      invariant Linkable(db, candidates[..n]) && Linked(db, post, candidates[..n]) && Healthy(post)
    {
      var c := candidates[n];
      assert candidates[..n + 1] == candidates[..n] + [c];
      hide Healthy, Linked, Linkable;
      var next := WithAccessory(post, c);
      CandidateDecides(db, post, candidates, n);
      if next.None? {
        return false, db;
      }
      LinkIsHealthy(post, c);
      LinkedMore(db, post, candidates[..n], c);
      post := next.value;
    }
    assert candidates[..|candidates|] == candidates;
    ok := true;
  }

  lemma CandidateDecides(db: Db, cur: Db, candidates: seq<Candidate>, n: nat)
    requires n < |candidates| && Healthy(cur) && Linked(db, cur, candidates[..n]) && Linkable(db, candidates[..n])
    ensures WithAccessory(cur, candidates[n]).Some? <==> candidates[n].artifact in db.artifacts
    ensures WithAccessory(cur, candidates[n]).Some? ==> Linkable(db, candidates[..n + 1])
    ensures WithAccessory(cur, candidates[n]).None? ==> !Linkable(db, candidates)
  {
    assert candidates[..n + 1] == candidates[..n] + [candidates[n]];
    if cur.IsAccessory(candidates[n].artifact) {
      var a :| a in cur.accessories && cur.accessories[a].artifact == candidates[n].artifact;
    }
  }

  /** The row and its references as they are before the candidates are linked. */
  ghost predicate ArtifactLinked(pre: Db, post: Db, art: Artifact, children: seq<string>, candidates: seq<Candidate>, id: int) {
    exists mid :: ArtifactCreated(pre, mid, art, children, id) && Linked(mid, post, candidates)
  }

  /** "ensureArtifact": the children of an index are looked up by digest in its repository; the
      row, its references and the rows of its accessory candidates are written in one transaction. */
  method EnsureArtifact(store: Store, art: Artifact, children: seq<string>, candidates: seq<Candidate>)
    returns (out: Outcome, created: bool, id: int)
    requires Healthy(store.db)
    requires !art.index ==> children == []
    requires forall i :: 0 <= i < |candidates| ==> candidates[i].subject != candidates[i].artifact
    modifies store
    ensures Healthy(store.db) && ImmutableKept(old(store.db), store.db, store.env.rules)
    ensures created ==> out.Ok? && ArtifactLinked(old(store.db), store.db, art, children, candidates, id)
    ensures !created ==> store.db == old(store.db)
    ensures out.Ok? ==> IsArtifact(store.db, art.repository, art.digest, id)
    ensures out.Ok? && !created <==> HasArtifact(old(store.db), art.repository, art.digest)
    ensures created <==>
      && !HasArtifact(old(store.db), art.repository, art.digest) && Creatable(old(store.db), art.repository, children)
      && Linkable(old(store.db).(artifacts := old(store.db).artifacts[old(store.db).serial := art]), candidates)
  {
    var db := store.db;
    if HasArtifact(db, art.repository, art.digest) {
      var x :| x in db.artifacts && db.artifacts[x].repository == art.repository && db.artifacts[x].digest == art.digest;
      return Ok, false, x;
    }
    var mid, post;
    created, mid := WithArtifact(db, art, children);
    if !created {
      return NotFound, false, -1;
    }
    CreatedIsHealthy(db, mid, art, children, db.serial);
    created, post := LinkAll(mid, candidates);
    assert Linkable(mid, candidates) <==> Linkable(db.(artifacts := db.artifacts[db.serial := art]), candidates);
    if !created {
      return ForeignKey, false, -1;
    }
    TagsStayPut(db, mid, post, store.env.rules, art, children, candidates);
    store.db := post;
    return Ok, true, db.serial;
  }

  lemma TagsStayPut(db: Db, mid: Db, post: Db, rules: Rules, art: Artifact, children: seq<string>, candidates: seq<Candidate>)
    requires Healthy(db) && ArtifactCreated(db, mid, art, children, db.serial) && Linked(mid, post, candidates)
    ensures ImmutableKept(db, post, rules) && IsArtifact(post, art.repository, art.digest, db.serial)
    ensures ArtifactLinked(db, post, art, children, candidates, db.serial)
  {
  }

  lemma CreatableMore(db: Db, repo: int, children: seq<string>, n: nat)
    requires n < |children| && Creatable(db, repo, children[..n])
    ensures HasArtifact(db, repo, children[n]) && children[n] !in children[..n] <==> Creatable(db, repo, children[..n + 1])
    ensures Creatable(db, repo, children) ==> Creatable(db, repo, children[..n + 1])
  {
    assert children[..n + 1] == children[..n] + [children[n]];
    if children[n] in children[..n] {
      var i :| 0 <= i < n && children[..n][i] == children[n];
      assert children[i] == children[n] && children[..n + 1][i] == children[..n + 1][n];
    }
  }

  lemma ChildAdded(pre: Db, post: Db, art: Artifact, children: seq<string>, n: nat, c: int)
    requires n < |children| && ArtifactCreated(pre, post, art, children[..n], pre.serial)
    requires IsArtifact(pre, art.repository, children[n], c)
    requires forall r :: r in pre.references ==> r < pre.serial
    ensures var id := pre.serial;
      var more := post.(references := post.references[id + 1 + n := Reference(id, c)], serial := id + 2 + n);
      ArtifactCreated(pre, more, art, children[..n + 1], id)
  {
    var id := pre.serial;
    var more := post.(references := post.references[id + 1 + n := Reference(id, c)], serial := id + 2 + n);
    assert NewReferences(pre, more, id) by {
      forall r ensures r in more.references <==> r in pre.references || id < r < more.serial {
        assert r in post.references <==> r in pre.references || id < r < post.serial;
      }
    }
    hide NewReferences;
    var kids := children[..n + 1];
    forall i | 0 <= i < |kids| ensures Lists(pre, more, art.repository, id, id + 1 + i, kids[i]) {
      if i < n {
        assert kids[i] == children[..n][i];
      }
    }
  }

  /** The row of the artifact and one reference row for each child; none if a child is missing or repeated. */
  method WithArtifact(db: Db, art: Artifact, children: seq<string>) returns (ok: bool, post: Db)
    requires Healthy(db)
    ensures ok <==> Creatable(db, art.repository, children)
    ensures ok ==> ArtifactCreated(db, post, art, children, db.serial)
  {
    var id := db.serial;
    post := db.(artifacts := db.artifacts[id := art], serial := id + 1);
    ghost var repo := art.repository;
    for n := 0 to |children|
      invariant Creatable(db, repo, children[..n])
      invariant ArtifactCreated(db, post, art, children[..n], id)
    {
      hide ArtifactCreated, Creatable;
      CreatableMore(db, repo, children, n);
      if !HasArtifact(db, art.repository, children[n]) || children[n] in children[..n] {
        return false, db;
      }
      var c :| c in db.artifacts && db.artifacts[c].repository == art.repository && db.artifacts[c].digest == children[n];
      ChildAdded(db, post, art, children, n, c);
      post := post.(references := post.references[id + 1 + n := Reference(id, c)], serial := id + 2 + n);
    }
    assert children[..|children|] == children;
    ok := true;
  }

  lemma CreatedIsHealthy(pre: Db, post: Db, art: Artifact, children: seq<string>, id: int)
    requires Healthy(pre) && !HasArtifact(pre, art.repository, art.digest)
    requires !art.index ==> children == []
    requires ArtifactCreated(pre, post, art, children, id)
    ensures Healthy(post)
  {
    forall r | r in post.references && r !in pre.references
      ensures post.references[r].parent == id && post.references[r].child in pre.artifacts
      ensures pre.artifacts[post.references[r].child].repository == art.repository && art.index
    {
      var i := r - id - 1;
      assert Lists(pre, post, art.repository, id, id + 1 + i, children[i]);
    }
  }

  /** "Ensure" of the accessory manager: at most one row per artifact. */
  method EnsureAccessory(store: Store, c: Candidate) returns (out: Outcome)
    requires Healthy(store.db) && c.subject != c.artifact
    modifies store
    ensures Healthy(store.db) && ImmutableKept(old(store.db), store.db, store.env.rules)
    ensures out.Ok? <==> c.artifact in old(store.db).artifacts
    ensures out.Ok? ==> Linked(old(store.db), store.db, [c])
    ensures old(store.db).IsAccessory(c.artifact) || !out.Ok? ==> store.db == old(store.db)
  {
    var linked := WithAccessory(store.db, c);
    assert [] + [c] == [c];
    if linked.None? {
      return ForeignKey;
    }
    LinkIsHealthy(store.db, c);
    LinkedMore(store.db, store.db, [], c);
    store.db := linked.value;
    return Ok;
  }

  datatype Op =
    | OpEnsureTag(repo: int, artifact: int, name: string)
    | OpDeleteTag(tag: int)
    | OpDeleteTags(tags: seq<int>)
    | OpDeleteArtifact(artifact: int)
    | OpEnsureArtifact(art: Artifact, children: seq<string>, candidates: seq<Candidate>)
    | OpEnsureAccessory(candidate: Candidate)

  lemma ShrunkIsHealthy(pre: Db, gone: set<int>)
    requires Healthy(pre) && pre.Without(gone).Valid()
    ensures Healthy(pre.Without(gone))
  {
  }

  lemma DeleteKeepsImmutable(pre: Db, gone: set<int>, rules: Rules)
    requires pre.Valid() && NoImmutableTag(pre, rules, gone)
    ensures ImmutableKept(pre, pre.Without(gone), rules)
  {
    var post := pre.Without(gone);
    forall t | Matched(pre, rules, t) ensures Matched(post, rules, t) && post.tags[t] == pre.tags[t] {
      assert pre.tags[t].artifact !in gone;
    }
  }

  /** `x` is an in-toto attestation of something stored. */
  ghost predicate Attests(db: Db, x: int) {
    x in db.artifacts
    && exists a :: a in db.accessories && db.accessories[a].artifact == x
         && db.accessories[a].kind == InTotoAttestation && db.accessories[a].subject in db.artifacts
  }

  /** An attestation of something stored goes only together with another artifact, on which it hung. */
  ghost predicate NeverAlone(pre: Db, post: Db, op: Op, x: int) {
    Attests(pre, x) && x !in post.artifacts ==>
      && op.OpDeleteArtifact? && op.artifact != x && op.artifact in pre.artifacts && op.artifact !in post.artifacts
      && x in Collected(pre, op.artifact)
      && ChildOrHardAccessory(pre, Gone(pre, post), x)
  }

  ghost predicate NoneAlone(pre: Db, post: Db, op: Op) {
    forall x :: NeverAlone(pre, post, op, x)
  }

  /** Only a delete removes artifacts, and then what is collected with its argument. */
  ghost predicate OnlyDeletes(pre: Db, post: Db, op: Op) {
    forall x :: x in pre.artifacts && x !in post.artifacts ==> op.OpDeleteArtifact? && x in Collected(pre, op.artifact)
  }

  lemma DeletedTogether(pre: Db, post: Db, op: Op)
    requires op.OpDeleteArtifact? && post.artifacts == pre.artifacts - Gone(pre, post)
    requires op.artifact in Gone(pre, post) && Gone(pre, post) <= Collected(pre, op.artifact)
    requires Justified(pre, op.artifact, Gone(pre, post)) && !Attests(pre, op.artifact)
    ensures OnlyDeletes(pre, post, op) && NoneAlone(pre, post, op)
  {
    var gone := Gone(pre, post);
    assert gone + {op.artifact} == gone;
    forall x ensures NeverAlone(pre, post, op, x) {
      if Attests(pre, x) && x !in post.artifacts {
        assert x in gone && x != op.artifact;
      }
    }
  }

  /** One operation, whatever its outcome. */
  method Perform(store: Store, op: Op)
    requires Healthy(store.db)
    modifies store
    ensures Healthy(store.db) && ImmutableKept(old(store.db), store.db, store.env.rules)
    ensures OnlyDeletes(old(store.db), store.db, op) && NoneAlone(old(store.db), store.db, op)
  {
    ghost var pre := store.db;
    match op {
      case OpEnsureTag(repo, artifact, name) =>
        var _, _ := EnsureTag(store, repo, artifact, name);
      case OpDeleteTag(tag) =>
        var _ := store.DeleteTag(tag);
      case OpDeleteTags(tags) =>
        var _ := store.DeleteTags(tags);
      case OpDeleteArtifact(artifact) =>
        var out := store.Delete(artifact);
        if out.Ok? {
          ShrunkIsHealthy(pre, Gone(pre, store.db));
          DeleteKeepsImmutable(pre, Gone(pre, store.db), store.env.rules);
          DeletedTogether(pre, store.db, op);
        }
      case OpEnsureArtifact(art, children, candidates) =>
        if (art.index || children == []) && forall c :: c in candidates ==> c.subject != c.artifact {
          var _, _, _ := EnsureArtifact(store, art, children, candidates);
        }
      case OpEnsureAccessory(candidate) =>
        if candidate.subject != candidate.artifact {
          var _ := EnsureAccessory(store, candidate);
        }
    }
  }

  /** Over every run of operations an immutable tag is neither repointed nor removed, and no
      attestation of something stored is deleted on its own. `states` are the stores in between. */
  method Run(store: Store, ops: seq<Op>) returns (ghost states: seq<Db>)
    requires Healthy(store.db)
    modifies store
    ensures Healthy(store.db) && ImmutableKept(old(store.db), store.db, store.env.rules)
    ensures |states| == |ops| + 1 && states[0] == old(store.db) && states[|ops|] == store.db
    ensures forall i :: 0 <= i < |ops| ==> OnlyDeletes(states[i], states[i + 1], ops[i]) && NoneAlone(states[i], states[i + 1], ops[i])
  {
    hide NoneAlone, OnlyDeletes;
    states := [store.db];
    for i := 0 to |ops|
      invariant Healthy(store.db) && ImmutableKept(old(store.db), store.db, store.env.rules)
      invariant |states| == i + 1 && states[0] == old(store.db) && states[i] == store.db
      invariant forall k :: 0 <= k < i ==> OnlyDeletes(states[k], states[k + 1], ops[k]) && NoneAlone(states[k], states[k + 1], ops[k])
    {
      Perform(store, ops[i]);
      states := states + [store.db];
    }
  }
}
