/** Deleting a whole repository: artifacts still listed by an index wait in a backlog. What hangs on
    itself stays behind, what hangs on a tagged and listed accessory may stay, depending on the
    order of rows, and the loop may then never end. */
module Repository {
  import opened Registry
  import opened Collection
  import opened Removal
  import opened Replay
  import opened ArtifactStore
  import opened Sets

  ghost function ArtifactsOf(db: Db, repo: int): set<int> {
    set x | x in db.artifacts && db.artifacts[x].repository == repo
  }

  /** The listing of the artifact controller: tagged or not listed by an index, and no accessory. */
  predicate Listed(db: Db, repo: int, x: int) {
    && x in db.artifacts && db.artifacts[x].repository == repo
    && (db.Tagged(x) || !db.HasParent(x))
    && !db.IsAccessory(x)
  }

  ghost function Candidates(db: Db, repo: int): set<int> {
    set x | x in db.artifacts && Listed(db, repo, x)
  }

  /** A knot: each member is listed by a member, or is an accessory that is no untagged child and
      whose hard subjects in the repository are all members. */
  ghost predicate Knot(db: Db, repo: int, k: set<int>) {
    k <= ArtifactsOf(db, repo) && forall x :: x in k ==> ListedFrom(db, k, x) || HeldBack(db, repo, k, x)
  }

  ghost predicate ListedFrom(db: Db, k: set<int>, x: int) {
    exists r :: r in db.references && db.references[r].child == x && db.references[r].parent in k
  }

  ghost predicate HeldBack(db: Db, repo: int, k: set<int>, x: int) {
    && db.IsAccessory(x) && (db.Tagged(x) || !db.HasParent(x))
    && !HardAccessoryOf(db, ArtifactsOf(db, repo) - k, x)
  }

  ghost predicate InKnot(db: Db, repo: int, x: int) {
    exists k: set<int> :: x in k && Knot(db, repo, k)
  }

  /** Everything in some knot. */
  ghost function Pinned(db: Db, repo: int): set<int> {
    set x | x in ArtifactsOf(db, repo) && InKnot(db, repo, x)
  }

  lemma PinnedIsKnot(db: Db, repo: int)
    ensures Knot(db, repo, Pinned(db, repo))
    ensures forall k: set<int> :: Knot(db, repo, k) ==> k <= Pinned(db, repo)
  {
    var pinned := Pinned(db, repo);
    forall k: set<int>, x | Knot(db, repo, k) && x in k ensures x in pinned {
      assert InKnot(db, repo, x);
    }
    forall x | x in pinned ensures ListedFrom(db, pinned, x) || HeldBack(db, repo, pinned, x) {
      var k: set<int> :| x in k && Knot(db, repo, k);
      HoldsMore(db, repo, k, pinned, x);
    }
  }

  /** A hard accessory that is both tagged and listed: its row may find it still listed, and its
      last parent leaves it because of the tag. */
  ghost predicate Torn(db: Db, repo: int, x: int) {
    x in ArtifactsOf(db, repo) && TaggedChild(db, x) && HardAccessoryOf(db, ArtifactsOf(db, repo), x)
  }

  /** A knot in which torn accessories need no hold. */
  ghost predicate LooseKnot(db: Db, repo: int, k: set<int>) {
    && k <= ArtifactsOf(db, repo)
    && forall x :: x in k ==> ListedFrom(db, k, x) || HeldBack(db, repo, k, x) || Torn(db, repo, x)
  }

  ghost predicate InLooseKnot(db: Db, repo: int, x: int) {
    exists k: set<int> :: x in k && LooseKnot(db, repo, k)
  }

  /** Everything in some loose knot: whatever may stay. */
  ghost function Retained(db: Db, repo: int): set<int> {
    set x | x in ArtifactsOf(db, repo) && InLooseKnot(db, repo, x)
  }

  lemma RetainedIsLoose(db: Db, repo: int)
    ensures LooseKnot(db, repo, Retained(db, repo))
    ensures forall k: set<int> :: LooseKnot(db, repo, k) ==> k <= Retained(db, repo)
  {
    var retained := Retained(db, repo);
    forall k: set<int>, x | LooseKnot(db, repo, k) && x in k ensures x in retained {
      assert InLooseKnot(db, repo, x);
    }
    forall x | x in retained ensures ListedFrom(db, retained, x) || HeldBack(db, repo, retained, x) || Torn(db, repo, x) {
      var k: set<int> :| x in k && LooseKnot(db, repo, k);
      HoldsMore(db, repo, k, retained, x);
    }
  }

  lemma HoldsMore(db: Db, repo: int, k: set<int>, more: set<int>, x: int)
    requires k <= more
    ensures ListedFrom(db, k, x) ==> ListedFrom(db, more, x)
    ensures HeldBack(db, repo, k, x) ==> HeldBack(db, repo, more, x)
  {
    assert HardAccessoryOf(db, ArtifactsOf(db, repo) - more, x) ==> HardAccessoryOf(db, ArtifactsOf(db, repo) - k, x);
  }

  /** What must stay and what may stay are the same if and only if every torn accessory is in a knot. */
  lemma BoundsMeet(db: Db, repo: int)
    ensures Pinned(db, repo) <= Retained(db, repo)
    ensures Pinned(db, repo) == Retained(db, repo) <==> forall x :: Torn(db, repo, x) ==> x in Pinned(db, repo)
  {
    var pinned, retained := Pinned(db, repo), Retained(db, repo);
    PinnedIsKnot(db, repo);
    RetainedIsLoose(db, repo);
    assert LooseKnot(db, repo, pinned);
    forall x | Torn(db, repo, x) ensures x in retained {
      assert LooseKnot(db, repo, {x});
    }
    if forall x :: Torn(db, repo, x) ==> x in pinned {
      forall x | x in retained ensures ListedFrom(db, retained, x) || HeldBack(db, repo, retained, x) {
        HoldsMore(db, repo, pinned, retained, x);
      }
      assert Knot(db, repo, retained);
    }
  }

  /** No accessory row has one end in the repository and the other in another one. */
  ghost predicate Bordered(db: Db, repo: int) {
    forall a :: a in db.accessories && db.accessories[a].subject in db.artifacts ==>
      (db.accessories[a].subject in ArtifactsOf(db, repo) <==> db.accessories[a].artifact in ArtifactsOf(db, repo))
  }

  /** Two accessories of `s` hang together, the first is no untagged child, and the row of the
      lower one comes later. */
  ghost predicate Chained(db: Db, order: Order, s: int, p: int, q: int) {
    && HardRow(db, p, s) && HardRow(db, q, s) && p != q && order.accessories(p) <= order.accessories(q)
    && Below(db, db.accessories[p].artifact, db.accessories[q].artifact)
    && (db.HasParent(db.accessories[p].artifact) ==> db.Tagged(db.accessories[p].artifact))
  }

  /** No two accessories of one artifact outside every knot hang together. */
  ghost predicate Unchained(db: Db, order: Order, repo: int) {
    forall s, p, q :: s in ArtifactsOf(db, repo) && s !in Pinned(db, repo) ==> !Chained(db, order, s, p, q)
  }

  /** Nothing that leaves the repository is torn between two rows. */
  ghost predicate Smooth(db: Db, order: Order, repo: int) {
    && Bordered(db, repo) && Unchained(db, order, repo)
    && forall x :: Torn(db, repo, x) ==> x in Pinned(db, repo)
  }

  /** Since `db0`, exactly the artifacts in `gone` were removed, leaving nothing collectable but
      tagged children, and none that is pinned. */
  ghost predicate Progress(db0: Db, db: Db, env: Env, repo: int, gone: set<int>) {
    && db0.Valid() && db.Valid() && db == db0.Without(gone) && gone <= db0.artifacts.Keys
    && NoImmutableTag(db0, env.rules, gone) && SurelyClosed(db0, gone)
    && (Bordered(db0, repo) ==> gone <= ArtifactsOf(db0, repo) - Pinned(db0, repo))
  }

  lemma StillListedThere(db0: Db, gone: set<int>, repo: int, x: int)
    requires Listed(db0, repo, x) && x !in gone
    ensures Listed(db0.Without(gone), repo, x)
  {
    WithoutShrinks(db0, gone, gone);
  }

  /** Deleting a waiting artifact takes no other waiting one. */
  lemma OthersWait(db0: Db, gone: set<int>, repo: int, id: int)
    requires id in Candidates(db0, repo) - gone
    ensures Collected(db0.Without(gone), id) * (Candidates(db0, repo) - gone) == {id}
  {
    var db, waiting := db0.Without(gone), Candidates(db0, repo) - gone;
    var s := db.artifacts.Keys - (waiting - {id});
    StillListedThere(db0, gone, repo, id);
    forall x | Collectable(db, s, x) ensures x in s {
      if x in waiting {
        StillListedThere(db0, gone, repo, x);
      }
    }
    assert Closed(db, s);
    forall x | x in Collected(db, id) ensures x in s {
      assert InEveryClosed(db, id, x);
    }
    CollectedIsClosed(db, id);
  }

  lemma WaitingIsFree(db0: Db, gone: set<int>, repo: int, id: int)
    requires id in Candidates(db0, repo) - gone && gone !! Pinned(db0, repo) && !db0.Without(gone).HasParent(id)
    ensures id !in Pinned(db0, repo)
  {
    var pinned := Pinned(db0, repo);
    PinnedIsKnot(db0, repo);
    forall r | r in db0.references && r !in db0.Without(gone).references ensures db0.references[r].parent in gone {
    }
    assert !ListedFrom(db0, pinned, id);
  }

  /** What is collected with a waiting artifact stays inside the repository and outside every knot. */
  lemma KnotStays(db0: Db, gone: set<int>, repo: int, id: int)
    requires db0.Valid() && Bordered(db0, repo) && gone <= ArtifactsOf(db0, repo) - Pinned(db0, repo)
    requires id in Candidates(db0, repo) - gone && !db0.Without(gone).HasParent(id)
    ensures Collected(db0.Without(gone), id) <= ArtifactsOf(db0, repo) - Pinned(db0, repo)
  {
    var db, pinned := db0.Without(gone), Pinned(db0, repo);
    var s := ArtifactsOf(db0, repo) - pinned;
    WaitingIsFree(db0, gone, repo, id);
    forall x | Collectable(db, s, x) ensures x in s {
      CollectableInside(db0, gone, repo, x);
    }
    assert Closed(db, s);
    forall x | x in Collected(db, id) ensures x in s {
      assert InEveryClosed(db, id, x);
    }
  }

  lemma CollectableInside(db0: Db, gone: set<int>, repo: int, x: int)
    requires db0.Valid() && Bordered(db0, repo) && gone !! Pinned(db0, repo)
    requires Collectable(db0.Without(gone), ArtifactsOf(db0, repo) - Pinned(db0, repo), x)
    ensures x in ArtifactsOf(db0, repo) - Pinned(db0, repo)
  {
    var db, pinned := db0.Without(gone), Pinned(db0, repo);
    var s := ArtifactsOf(db0, repo) - pinned;
    PinnedIsKnot(db0, repo);
    if HardAccessoryOf(db, s, x) {
      var a :| a in db.accessories && db.accessories[a].artifact == x && db.accessories[a].kind.IsHard() && db.accessories[a].subject in s;
      assert a in db0.accessories && x in ArtifactsOf(db0, repo);
      assert HardAccessoryOf(db0, s, x);
    } else {
      var r :| r in db.references && db.references[r].child == x;
      assert r in db0.references && db0.references[r].parent in s;
    }
    forall r | r in db0.references && r !in db.references ensures db0.references[r].parent in gone {
    }
    assert !ListedFrom(db0, pinned, x);
    WithoutShrinks(db0, gone, gone);
  }

  lemma BelowBefore(db0: Db, gone: set<int>, b: int, x: int)
    requires Below(db0.Without(gone), b, x)
    ensures Below(db0, b, x)
  {
    var db := db0.Without(gone);
    WithoutShrinks(db0, gone, gone);
    forall s: set<int> | b in s && (forall y :: HangsOn(db0, s, y) ==> y in s) ensures x in s {
      forall y | HangsOn(db, s, y) ensures y in s {
        assert HardAccessoryOf(db, s, y) ==> HardAccessoryOf(db0, s, y);
        assert HangsOn(db0, s, y);
      }
    }
  }

  /** Where accessories do not hang together none is found missing while a waiting artifact goes. */
  lemma NeverTangled(db0: Db, env: Env, gone: set<int>, repo: int, id: int)
    requires db0.Valid() && Bordered(db0, repo) && Unchained(db0, env.order, repo) && SurelyClosed(db0, gone)
    requires gone <= ArtifactsOf(db0, repo) - Pinned(db0, repo)
    requires id in Candidates(db0, repo) - gone && !db0.Without(gone).HasParent(id)
    requires db0.Without(gone).Valid()
    ensures !Tangled(db0.Without(gone), env.order, id)
  {
    var db := db0.Without(gone);
    KnotStays(db0, gone, repo, id);
    ClosedIsSettled(db0, gone);
    forall s, p, q | TangledAt(db, env.order, id, s, p, q) ensures Chained(db0, env.order, s, p, q) && s in Collected(db, id) {
      var b := db.accessories[p].artifact;
      BelowBefore(db0, gone, b, db.accessories[q].artifact);
      CollectedExists(db, id, s);
      assert SettledAt(db0, db, gone, b);
    }
  }

  lemma CollectedExists(db: Db, id: int, x: int)
    requires id in db.artifacts && InEveryClosed(db, id, x)
    ensures x in Collected(db, id)
  {
    assert Closed(db, db.artifacts.Keys);
  }

  /** One successful delete of a waiting artifact is progress. */
  lemma AfterDelete(db0: Db, db: Db, post: Db, env: Env, repo: int, gone: set<int>, more: set<int>, id: int)
    requires Progress(db0, db, env, repo, gone) && id in Candidates(db0, repo) - gone && !db.HasParent(id)
    requires more <= Collected(db, id) && post == db.Without(more) && post.Valid() && NoImmutableTag(db, env.rules, more)
    requires SurelyClosed(db, more)
    ensures Progress(db0, post, env, repo, gone + more)
  {
    WithoutTwice(db0, gone, more);
    forall t | t in db0.tags && db0.tags[t].artifact in more ensures !Immutable(db0, env.rules, db0.tags[t]) {
      assert t in db.tags;
    }
    ClosedTwice(db0, gone, more);
    if Bordered(db0, repo) {
      KnotStays(db0, gone, repo, id);
    }
  }

  /** When every waiting artifact is still listed, what remains is a loose knot. */
  lemma RestIsRetained(db0: Db, db: Db, env: Env, repo: int, gone: set<int>)
    requires Progress(db0, db, env, repo, gone) && Bordered(db0, repo)
    requires forall x :: x in Candidates(db0, repo) - gone ==> db.HasParent(x)
    ensures Pinned(db0, repo) <= ArtifactsOf(db0, repo) - gone <= Retained(db0, repo)
  {
    var rest := ArtifactsOf(db0, repo) - gone;
    ClosedIsSettled(db0, gone);
    forall x | x in rest ensures ListedFrom(db0, rest, x) || HeldBack(db0, repo, rest, x) || Torn(db0, repo, x) {
      assert SettledAt(db0, db, gone, x);
      if db.HasParent(x) {
        var r :| r in db.references && db.references[r].child == x;
        assert r in db0.references && db0.references[r].parent in rest;
      } else {
        assert x !in Candidates(db0, repo);
        RestIsHeld(db0, db, repo, gone, x);
      }
    }
    RetainedIsLoose(db0, repo);
    assert LooseKnot(db0, repo, rest);
  }

  lemma RestIsHeld(db0: Db, db: Db, repo: int, gone: set<int>, x: int)
    requires gone <= ArtifactsOf(db0, repo) && x in ArtifactsOf(db0, repo) - gone && !Listed(db0, repo, x)
    requires SettledAt(db0, db, gone, x) && !db.HasParent(x)
    ensures HeldBack(db0, repo, ArtifactsOf(db0, repo) - gone, x) || Torn(db0, repo, x)
  {
    var rest := ArtifactsOf(db0, repo) - gone;
    assert ArtifactsOf(db0, repo) - rest == gone;
    assert HardAccessoryOf(db0, gone, x) ==> HardAccessoryOf(db0, ArtifactsOf(db0, repo), x);
  }

  method List(store: Store, repo: int) returns (rows: seq<int>)
    ensures Distinct(rows) && Elems(rows) == Candidates(store.db, repo)
  {
    var all := set x | x in store.db.artifacts && Listed(store.db, repo, x);
    rows := Enumerate(all);
  }

  ghost predicate Distinct(q: seq<int>) {
    forall i, j :: 0 <= i < j < |q| ==> q[i] != q[j]
  }

  /** Why the deletion of a waiting artifact, and with it the whole loop, can fail. */
  ghost predicate BlockedBy(db0: Db, env: Env, repo: int, out: Outcome) {
    && (Bordered(db0, repo) && Unchained(db0, env.order, repo) ==> out.ImmutableTag?)
    && match out
       case ImmutableTag(t) =>
         && t in db0.tags && Immutable(db0, env.rules, db0.tags[t])
         && (Bordered(db0, repo) ==> db0.tags[t].artifact in ArtifactsOf(db0, repo) - Pinned(db0, repo))
       case NotFound => true
       case _ => false
  }

  lemma WhyBlocked(db0: Db, db: Db, env: Env, repo: int, gone: set<int>, id: int, out: Outcome)
    requires Progress(db0, db, env, repo, gone) && id in Candidates(db0, repo) - gone && !db.HasParent(id)
    requires !out.Ok? && DeleteRefused(db, env, id, out)
    ensures BlockedBy(db0, env, repo, out)
  {
    StillListedThere(db0, gone, repo, id);
    if Bordered(db0, repo) {
      KnotStays(db0, gone, repo, id);
      if Unchained(db0, env.order, repo) {
        NeverTangled(db0, env, gone, repo, id);
      }
    }
  }

  lemma FewerArtifacts(db: Db, gone: set<int>, id: int)
    requires id in gone && id in db.artifacts
    ensures |db.Without(gone).artifacts| < |db.artifacts|
  {
    var post := db.Without(gone);
    assert post.artifacts.Keys + {id} <= db.artifacts.Keys;
    NotMore(post.artifacts.Keys + {id}, db.artifacts.Keys);
  }

  /** One deletion made by the loop. */
  datatype Step = Step(id: int, before: Db, after: Db)

  ghost predicate ReplayedStep(db0: Db, env: Env, repo: int, step: Step) {
    && step.id in Candidates(db0, repo) && step.id in step.before.artifacts && !step.before.HasParent(step.id)
    && (Total(env.order) ==> Deep(step.before, env, step.id, true, false, {}) == Done(step.after))
  }

  ghost function StateAt(db0: Db, steps: seq<Step>, i: nat): Db
    requires i <= |steps|
  {
    if i == 0 then db0 else steps[i - 1].after
  }

  /** The deletions in `steps` lead from `db0` to `db`. */
  ghost predicate Replayed(db0: Db, db: Db, env: Env, repo: int, steps: seq<Step>) {
    && (forall i :: 0 <= i < |steps| ==> ReplayedStep(db0, env, repo, steps[i]))
    && (forall i :: 0 <= i < |steps| ==> steps[i].before == StateAt(db0, steps, i))
    && db == StateAt(db0, steps, |steps|)
  }

  lemma DeleteReady(db0: Db, db: Db, env: Env, repo: int, gone: set<int>, id: int)
    requires Progress(db0, db, env, repo, gone) && id in Candidates(db0, repo) - gone
    ensures db.Valid() && id in db.artifacts && Collected(db, id) * (Candidates(db0, repo) - gone) == {id}
    ensures id in Candidates(db0, repo) && !db.IsAccessory(id) && !AttestationBlocks(db, id)
  {
    OthersWait(db0, gone, repo, id);
    StillListedThere(db0, gone, repo, id);
  }

  lemma ReplayedMore(db0: Db, db: Db, post: Db, env: Env, repo: int, steps: seq<Step>, id: int)
    requires Replayed(db0, db, env, repo, steps) && ReplayedStep(db0, env, repo, Step(id, db, post))
    ensures Replayed(db0, post, env, repo, steps + [Step(id, db, post)])
  {
    hide ReplayedStep;
    var all := steps + [Step(id, db, post)];
    forall i | 0 <= i < |all|
      ensures ReplayedStep(db0, env, repo, all[i]) && all[i].before == StateAt(db0, all, i)
    {
      assert StateAt(db0, all, i) == StateAt(db0, steps, i);
      assert all[i] == if i < |steps| then steps[i] else Step(id, db, post);
    }
    assert StateAt(db0, all, |all|) == post;
  }

  lemma StepIsReplayed(db0: Db, env: Env, repo: int, id: int, pre: Db, post: Db)
    requires id in Candidates(db0, repo) && id in pre.artifacts && !pre.HasParent(id)
    requires Total(env.order) ==> Deep(pre, env, id, true, false, {}) == Done(post)
    ensures ReplayedStep(db0, env, repo, Step(id, pre, post))
  {
  }

  /** Deletes one waiting artifact that no index lists. */
  method DeleteOne(store: Store, repo: int, id: int, ghost db0: Db, ghost gone: set<int>)
    returns (out: Outcome, ghost more: set<int>)
    requires Progress(db0, store.db, store.env, repo, gone)
    requires id in Candidates(db0, repo) - gone && !store.db.HasParent(id)
    modifies store
    ensures out.Ok? ==> Progress(db0, store.db, store.env, repo, gone + more)
    ensures out.Ok? ==> more * (Candidates(db0, repo) - gone) == {id}
    ensures out.Ok? ==> |store.db.artifacts| < |old(store.db).artifacts|
    ensures out.Ok? ==> ReplayedStep(db0, store.env, repo, Step(id, old(store.db), store.db))
    ensures !out.Ok? ==> store.db == old(store.db) && BlockedBy(db0, store.env, repo, out)
  {
    hide *;
    ghost var pre := store.db;
    DeleteReady(db0, pre, store.env, repo, gone, id);
    out := store.Delete(id);
    more := Gone(pre, store.db);
    if out.Ok? {
      AfterDelete(db0, pre, store.db, store.env, repo, gone, more, id);
      FewerArtifacts(pre, more, id);
      StepIsReplayed(db0, store.env, repo, id, pre, store.db);
    } else {
      WhyBlocked(db0, pre, store.env, repo, gone, id, out);
    }
  }

  /** The state inside a pass: the rows from `i` on and those put back are the waiting ones. */
  ghost predicate Midway(db0: Db, db: Db, env: Env, repo: int, rows: seq<int>, i: int, back: seq<int>,
                         gone: set<int>, steps: seq<Step>)
    requires 0 <= i <= |rows|
  {
    && Distinct(rows[i..] + back) && Elems(rows[i..] + back) == Candidates(db0, repo) - gone
    && Progress(db0, db, env, repo, gone) && Replayed(db0, db, env, repo, steps)
  }

  lemma StepOver(rows: seq<int>, i: int, back: seq<int>)
    requires 0 <= i < |rows| && Distinct(rows[i..] + back)
    ensures rows[i] in Elems(rows[i..] + back)
    ensures Elems(rows[i + 1..] + back) == Elems(rows[i..] + back) - {rows[i]}
    ensures Elems(rows[i + 1..] + (back + [rows[i]])) == Elems(rows[i..] + back)
    ensures Distinct(rows[i + 1..] + back) && Distinct(rows[i + 1..] + (back + [rows[i]]))
  {
    var a, b := rows[i..] + back, rows[i + 1..] + back;
    assert a == [rows[i]] + b;
    assert a[0] == rows[i];
    assert forall k :: 0 <= k < |b| ==> b[k] == a[k + 1];
    assert rows[i + 1..] + (back + [rows[i]]) == b + [rows[i]];
  }

  /** Looks at one artifact of the pass: puts it back or deletes it. */
  method Visit(store: Store, repo: int, rows: seq<int>, i: int, back0: seq<int>, ghost db0: Db,
               ghost gone0: set<int>, ghost steps0: seq<Step>)
    returns (out: Outcome, back: seq<int>, ghost gone: set<int>, ghost steps: seq<Step>)
    requires 0 <= i < |rows| && Midway(db0, store.db, store.env, repo, rows, i, back0, gone0, steps0)
    modifies store
    ensures out.Ok? ==> Midway(db0, store.db, store.env, repo, rows, i + 1, back, gone, steps)
    ensures out.Ok? ==> if old(store.db).HasParent(rows[i]) then store.db == old(store.db) && back == back0 + [rows[i]]
                        else |store.db.artifacts| < |old(store.db).artifacts| && back == back0
    ensures !out.Ok? ==> store.db == old(store.db) && gone == gone0 && steps == steps0 && BlockedBy(db0, store.env, repo, out)
  {
    hide Progress, Replayed, ReplayedStep;
    StepOver(rows, i, back0);
    back, gone, steps := back0, gone0, steps0;
    if store.db.HasParent(rows[i]) {
      back := back + [rows[i]];
      out := Ok;
    } else {
      ghost var more;
      ghost var pre := store.db;
      out, more := DeleteOne(store, repo, rows[i], db0, gone);
      if out.Ok? {
        ReplayedMore(db0, pre, store.db, store.env, repo, steps, rows[i]);
        gone, steps := gone + more, steps + [Step(rows[i], pre, store.db)];
        assert Candidates(db0, repo) - gone == (Candidates(db0, repo) - gone0) - {rows[i]};
      }
    }
  }

  /** One pass over the backlog. When it removes nothing, every waiting artifact is listed and the
      next pass starts from the same rows and the same store. */
  method Pass(store: Store, repo: int, rows: seq<int>, ghost db0: Db, ghost gone0: set<int>, ghost steps0: seq<Step>)
    returns (out: Outcome, back: seq<int>, ghost gone: set<int>, ghost steps: seq<Step>)
    requires Midway(db0, store.db, store.env, repo, rows, 0, [], gone0, steps0)
    modifies store
    ensures Progress(db0, store.db, store.env, repo, gone) && Replayed(db0, store.db, store.env, repo, steps)
    ensures out.Ok? ==> Midway(db0, store.db, store.env, repo, back, 0, [], gone, steps)
    ensures out.Ok? && |back| == |rows| ==>
      back == rows && store.db == old(store.db) && forall x :: x in rows ==> store.db.HasParent(x)
    ensures out.Ok? && |back| != |rows| ==> |store.db.artifacts| < |old(store.db).artifacts|
    ensures !out.Ok? ==> BlockedBy(db0, store.env, repo, out)
  {
    hide Progress, Distinct, Candidates, BlockedBy, Replayed;
    back, gone, steps := [], gone0, steps0;
    var i := 0;
    ghost var start := store.db;
    while i < |rows|
      invariant 0 <= i <= |rows| && |back| <= i
      invariant Midway(db0, store.db, store.env, repo, rows, i, back, gone, steps)
      invariant if |back| == i then store.db == start && back == rows[..i] && forall k :: 0 <= k < i ==> start.HasParent(rows[k])
                else |store.db.artifacts| < |start.artifacts|
    {
      out, back, gone, steps := Visit(store, repo, rows, i, back, db0, gone, steps);
      if !out.Ok? {
        return;
      }
      i := i + 1;
    }
    assert rows[i..] + back == back && back[0..] + [] == back;
    out := Ok;
  }

  datatype Verdict =
    | Ends
    | Repeats               // every artifact still in the backlog is listed: the loop never ends
    | Failed(out: Outcome)

  /** "Delete" of a repository. */
  method DeleteRepository(store: Store, repo: int) returns (v: Verdict, ghost gone: set<int>, ghost steps: seq<Step>)
    requires store.db.Valid()
    modifies store
    ensures Progress(old(store.db), store.db, store.env, repo, gone)
    ensures Replayed(old(store.db), store.db, store.env, repo, steps)
    ensures v.Failed? ==> BlockedBy(old(store.db), store.env, repo, v.out)
    ensures v.Ends? ==> Candidates(old(store.db), repo) <= gone
    ensures v.Repeats? ==> !(Candidates(old(store.db), repo) <= gone)
    ensures !v.Failed? ==> forall x :: x in Candidates(old(store.db), repo) - gone ==> store.db.HasParent(x)
    ensures Bordered(old(store.db), repo) ==> Between(old(store.db), store.env, repo, v, gone)
    ensures Smooth(old(store.db), store.env.order, repo) ==> Exact(old(store.db), store.env, repo, v, gone)
  {
    hide Progress, Distinct, Candidates, BlockedBy, Smooth, Bordered, Between, Exact, Replayed;
    ghost var db0 := store.db;
    gone, steps := {}, [];
    var rows := List(store, repo);
    Start(db0, store.env, repo, rows);
    v := Ends;
    var out: Outcome;
    while rows != []
      invariant v.Ends? && Midway(db0, store.db, store.env, repo, rows, 0, [], gone, steps)
      decreases |store.db.artifacts|
    {
      var before := |rows|;
      out, rows, gone, steps := Pass(store, repo, rows, db0, gone, steps);
      if !out.Ok? {
        v := Failed(out);
        Judge(db0, store.db, store.env, repo, gone, v);
        return;
      }
      if |rows| == before {
        v := Repeats;
        assert rows[0] in Elems(rows[0..] + []);
        break;
      }
    }
    assert rows[0..] + [] == rows;
    assert Elems(rows) == Candidates(db0, repo) - gone;
    assert forall x :: x in Candidates(db0, repo) && x !in gone ==> x in Elems(rows);
    Judge(db0, store.db, store.env, repo, gone, v);
  }

  /** What remains lies between what must stay and what may stay. The loop surely ends when no
      listed artifact may stay, and never ends when one must. An immutable tag on what surely goes
      makes it fail, and where accessories do not hang together only one on what can go does. */
  ghost predicate Between(db0: Db, env: Env, repo: int, v: Verdict, gone: set<int>) {
    var all, pinned, retained := ArtifactsOf(db0, repo), Pinned(db0, repo), Retained(db0, repo);
    && (!v.Failed? ==> pinned <= all - gone <= retained)
    && (!v.Failed? && Candidates(db0, repo) !! retained ==> v.Ends?)
    && (!v.Failed? && !(Candidates(db0, repo) !! pinned) ==> v.Repeats?)
    && (!NoImmutableTag(db0, env.rules, all - retained) ==> v.Failed?)
    && (v.Failed? && Unchained(db0, env.order, repo) ==> !NoImmutableTag(db0, env.rules, all - pinned))
  }

  /** Exactly the artifacts outside every knot go, unless one of them has an immutable tag; then
      the loop ends if and only if no listed artifact is in a knot. */
  ghost predicate Exact(db0: Db, env: Env, repo: int, v: Verdict, gone: set<int>) {
    var free := ArtifactsOf(db0, repo) - Pinned(db0, repo);
    && (v.Failed? <==> !NoImmutableTag(db0, env.rules, free))
    && (!v.Failed? ==> gone == free)
    && (!v.Failed? ==> (v.Ends? <==> Candidates(db0, repo) !! Pinned(db0, repo)))
  }

  lemma Start(db0: Db, env: Env, repo: int, rows: seq<int>)
    requires db0.Valid() && Distinct(rows) && Elems(rows) == Candidates(db0, repo)
    ensures Midway(db0, db0, env, repo, rows, 0, [], {}, [])
  {
    WithoutNothing(db0);
    assert rows[0..] + [] == rows;
    assert SurelyClosed(db0, {});
  }

  lemma Judge(db0: Db, db: Db, env: Env, repo: int, gone: set<int>, v: Verdict)
    requires Progress(db0, db, env, repo, gone)
    requires v.Failed? ==> BlockedBy(db0, env, repo, v.out)
    requires v.Ends? ==> Candidates(db0, repo) <= gone
    requires v.Repeats? ==> !(Candidates(db0, repo) <= gone)
    requires !v.Failed? ==> forall x :: x in Candidates(db0, repo) - gone ==> db.HasParent(x)
    ensures Bordered(db0, repo) ==> Between(db0, env, repo, v, gone)
    ensures Smooth(db0, env.order, repo) ==> Exact(db0, env, repo, v, gone)
  {
    if Bordered(db0, repo) {
      assert Candidates(db0, repo) <= ArtifactsOf(db0, repo);
      if !v.Failed? {
        RestIsRetained(db0, db, env, repo, gone);
        FewerTags(db0, env, ArtifactsOf(db0, repo) - Retained(db0, repo), gone);
      }
      if Smooth(db0, env.order, repo) {
        BoundsMeet(db0, repo);
      }
    }
  }

  lemma FewerTags(db: Db, env: Env, a: set<int>, b: set<int>)
    requires a <= b && NoImmutableTag(db, env.rules, b)
    ensures NoImmutableTag(db, env.rules, a)
  {
  }

  // When a repository is smooth, and when it has no knot.

  /** No index lists an accessory of the repository, and each has one row. */
  ghost predicate Plain(db: Db, repo: int) {
    && Bordered(db, repo) && OneRowEach(db, ArtifactsOf(db, repo))
    && forall a :: a in db.accessories && db.accessories[a].artifact in ArtifactsOf(db, repo) ==>
         !db.HasParent(db.accessories[a].artifact)
  }

  /** Two accessories of one artifact hang together only around a knot through that artifact. */
  lemma PlainIsSmooth(db: Db, order: Order, repo: int)
    requires db.Valid() && Plain(db, repo)
    ensures Smooth(db, order, repo)
  {
    forall s, p, q | s in ArtifactsOf(db, repo) && Chained(db, order, s, p, q) ensures s in Pinned(db, repo) {
      ChainIsKnot(db, order, repo, s, p, q);
      PinnedIsKnot(db, repo);
    }
  }

  ghost function AllBelow(db: Db, b: int): set<int> {
    set y | y in db.artifacts && Below(db, b, y)
  }

  /** What lies below `b`, except `b` itself, hangs on something below `b`. */
  lemma BelowHangs(db: Db, b: int, y: int)
    requires y in AllBelow(db, b) && y != b && b in db.artifacts
    ensures HangsOn(db, AllBelow(db, b), y)
  {
    var all := AllBelow(db, b);
    var s := all - {y};
    assert Below(db, b, y);
    var z :| HangsOn(db, s, z) && z !in s;
    assert HangsOn(db, all, z) by {
      assert HardAccessoryOf(db, s, z) ==> HardAccessoryOf(db, all, z);
    }
    HangsBelow(db, b, z);
  }

  lemma HangsBelow(db: Db, b: int, z: int)
    requires HangsOn(db, AllBelow(db, b), z)
    ensures z in AllBelow(db, b)
  {
    var all := AllBelow(db, b);
    forall s: set<int> | b in s && (forall y :: HangsOn(db, s, y) ==> y in s) ensures z in s {
      forall y | y in all ensures y in s { assert Below(db, b, y); }
      assert HardAccessoryOf(db, all, z) ==> HardAccessoryOf(db, s, z);
      assert HangsOn(db, s, z);
    }
  }

  lemma BelowStaysInside(db: Db, repo: int, b: int)
    requires db.Valid() && Bordered(db, repo) && b in ArtifactsOf(db, repo)
    ensures AllBelow(db, b) <= ArtifactsOf(db, repo)
  {
    var s := ArtifactsOf(db, repo);
    forall y | HangsOn(db, s, y) ensures y in s {
      if HardAccessoryOf(db, s, y) {
        var a :| a in db.accessories && db.accessories[a].artifact == y && db.accessories[a].subject in s;
      }
    }
    forall y | y in AllBelow(db, b) ensures y in s { assert Below(db, b, y); }
  }

  lemma ChainIsKnot(db: Db, order: Order, repo: int, s: int, p: int, q: int)
    requires db.Valid() && Plain(db, repo) && s in ArtifactsOf(db, repo) && Chained(db, order, s, p, q)
    ensures var k := AllBelow(db, db.accessories[p].artifact); s in k && Knot(db, repo, k)
  {
    var b, a := db.accessories[p].artifact, db.accessories[q].artifact;
    var k := AllBelow(db, b);
    assert b in ArtifactsOf(db, repo) && a in ArtifactsOf(db, repo) && a != b;
    BelowStaysInside(db, repo, b);
    BelowHangs(db, b, a);
    OnlySubject(db, repo, q, k);
    assert s in k;
    forall y | y in k ensures ListedFrom(db, k, y) || HeldBack(db, repo, k, y) {
      if y == b {
        RowHolds(db, repo, p, k);
      } else {
        BelowHangs(db, b, y);
        if HardAccessoryOf(db, k, y) {
          var row :| row in db.accessories && db.accessories[row].artifact == y && db.accessories[row].subject in k;
          RowHolds(db, repo, row, k);
        }
      }
    }
  }

  lemma OnlySubject(db: Db, repo: int, row: int, k: set<int>)
    requires Plain(db, repo) && row in db.accessories && db.accessories[row].artifact in ArtifactsOf(db, repo)
    requires HangsOn(db, k, db.accessories[row].artifact)
    ensures db.accessories[row].subject in k
  {
    var x := db.accessories[row].artifact;
    assert !db.HasParent(x);
    assert HardAccessoryOf(db, k, x);
  }

  lemma RowHolds(db: Db, repo: int, row: int, k: set<int>)
    requires Plain(db, repo) && row in db.accessories && db.accessories[row].artifact in ArtifactsOf(db, repo)
    requires db.accessories[row].subject in k
    ensures HeldBack(db, repo, k, db.accessories[row].artifact)
  {
  }

  /** References and accessory rows inside the repository form no cycle. */
  ghost predicate Ranks(db: Db, repo: int, rank: map<int, int>) {
    && rank.Keys == ArtifactsOf(db, repo)
    && (forall r :: r in db.references && db.references[r].child in rank && db.references[r].parent in rank ==>
          rank[db.references[r].child] < rank[db.references[r].parent])
    && (forall a :: a in db.accessories && db.accessories[a].artifact in rank && db.accessories[a].subject in rank ==>
          rank[db.accessories[a].artifact] < rank[db.accessories[a].subject])
  }

  ghost predicate HasRank(db: Db, repo: int) {
    exists rank: map<int, int> :: Ranks(db, repo, rank)
  }

  /** Every accessory of the repository is hard and has its subject there. */
  ghost predicate Attached(db: Db, repo: int) {
    forall a :: a in db.accessories && db.accessories[a].artifact in ArtifactsOf(db, repo) ==>
      db.accessories[a].kind.IsHard() && db.accessories[a].subject in ArtifactsOf(db, repo)
  }

  lemma {:induction false} Top(s: set<int>, rank: map<int, int>) returns (x: int)
    requires s != {} && s <= rank.Keys
    ensures x in s && forall y :: y in s ==> rank[y] <= rank[x]
  {
    x := Any(s);
    if s != {x} {
      var y := Top(s - {x}, rank);
      if rank[y] > rank[x] { x := y; }
    }
  }

  /** A repository with attached accessories and no cycle has no knot; nothing of it may stay if
      and only if none of its accessories is torn. */
  lemma RankedHasNoKnot(db: Db, repo: int)
    requires db.Valid() && Attached(db, repo) && HasRank(db, repo)
    ensures Pinned(db, repo) == {}
    ensures Retained(db, repo) == {} <==> forall x :: !Torn(db, repo, x)
  {
    var pinned := Pinned(db, repo);
    PinnedIsKnot(db, repo);
    BoundsMeet(db, repo);
    if pinned != {} {
      var rank: map<int, int> :| Ranks(db, repo, rank);
      var x := Top(pinned, rank);
      assert false;
    }
  }

  /** Where there is no knot, some member of `k` hangs on no member. */
  lemma FreeMember(db: Db, repo: int, k: set<int>) returns (x: int)
    requires db.Valid() && Plain(db, repo) && Pinned(db, repo) == {} && {} != k <= ArtifactsOf(db, repo)
    ensures x in k
    ensures forall r :: r in db.references && db.references[r].child == x ==> db.references[r].parent !in k
    ensures forall a :: a in db.accessories && db.accessories[a].artifact == x ==> db.accessories[a].subject !in k
  {
    PinnedIsKnot(db, repo);
    assert !Knot(db, repo, k);
    x :| x in k && !ListedFrom(db, k, x) && !HeldBack(db, repo, k, x);
  }

  /** In a plain repository without knots the artifacts in `k` can be ranked, the next
      one free in `k` above the others. */
  lemma {:induction false} RankFrom(db: Db, repo: int, k: set<int>) returns (rank: map<int, int>)
    requires db.Valid() && Plain(db, repo) && Pinned(db, repo) == {} && k <= ArtifactsOf(db, repo)
    ensures rank.Keys == k && forall x :: x in k ==> rank[x] <= |k|
    ensures forall r :: r in db.references && db.references[r].child in k && db.references[r].parent in k ==>
      rank[db.references[r].child] < rank[db.references[r].parent]
    ensures forall a :: a in db.accessories && db.accessories[a].artifact in k && db.accessories[a].subject in k ==>
      rank[db.accessories[a].artifact] < rank[db.accessories[a].subject]
    decreases |k|
  {
    rank := map[];
    if k != {} {
      var x := FreeMember(db, repo, k);
      hide *;
      rank := RankFrom(db, repo, k - {x});
      rank := rank[x := |k|];
    }
  }

  lemma NoKnotHasRank(db: Db, repo: int)
    requires db.Valid() && Plain(db, repo) && Pinned(db, repo) == {}
    ensures HasRank(db, repo)
  {
    var rank := RankFrom(db, repo, ArtifactsOf(db, repo));
    assert Ranks(db, repo, rank);
  }
}
