/** Repositories whose deletion does not end. */
module RepositoryExamples {
  import opened Registry
  import opened Collection
  import opened Removal
  import opened Replay
  import opened ArtifactStore
  import opened DeleteExamples
  import opened Repository

  /** An index whose subject is the image it lists, the image tagged or not. */
  function KnottedStore(tagged: bool): Db {
    Db(map[1 := Artifact(0, 0, "c", false), 2 := Artifact(0, 0, "i", true)], map[10 := Reference(2, 1)],
       map[20 := Accessory(2, 1, "i", Cosign)], if tagged then map[30 := Tag(0, 1, "latest")] else map[], {}, 31)
  }

  lemma KnottedStoreRows(tagged: bool)
    ensures var db := KnottedStore(tagged);
      && db.Valid() && db.Unique() && db.Ordered() && Plain(db, 0) && db.HasParent(1)
      && Candidates(db, 0) == (if tagged then {1} else {})
  {
    var db := KnottedStore(tagged);
    assert 10 in db.references && 20 in db.accessories;
    assert tagged ==> 30 in db.tags && db.Tagged(1);
  }

  lemma KnottedStoreIsPinned(tagged: bool)
    ensures ArtifactsOf(KnottedStore(tagged), 0) == {1, 2} == Pinned(KnottedStore(tagged), 0)
  {
    var db := KnottedStore(tagged);
    assert 10 in db.references && 20 in db.accessories;
    assert ArtifactsOf(db, 0) == {1, 2};
    assert Knot(db, 0, {1, 2}) by {
      assert ListedFrom(db, {1, 2}, 1);
      assert HeldBack(db, 0, {1, 2}, 2);
    }
    PinnedIsKnot(db, 0);
  }

  /** On that store the loop removes nothing, and it never ends when the image has a tag. */
  method DeleteKnotted(store: Store, tagged: bool) returns (v: Verdict)
    requires store.db == KnottedStore(tagged)
    modifies store
    ensures store.db == KnottedStore(tagged) && v == if tagged then Repeats else Ends
  {
    KnottedStoreRows(tagged);
    KnottedStoreIsPinned(tagged);
    PlainIsSmooth(store.db, store.env.order, 0);
    WithoutNothing(store.db);
    ghost var gone, steps;
    v, gone, steps := DeleteRepository(store, 0);
    assert gone == {};
    assert tagged ==> 1 in Candidates(KnottedStore(tagged), 0) && 1 in Pinned(KnottedStore(tagged), 0);
  }

  /** An index lists an image and its tagged signature, which is itself an index of a tagged image. */
  function TornStore(): Db {
    Db(map[1 := Artifact(0, 0, "a", false), 2 := Artifact(0, 0, "b", true), 3 := Artifact(0, 0, "c", false), 4 := Artifact(0, 0, "d", true)],
       map[10 := Reference(4, 3), 11 := Reference(4, 2), 12 := Reference(2, 1)],
       map[20 := Accessory(2, 3, "b", Cosign)], map[30 := Tag(0, 2, "v1"), 31 := Tag(0, 1, "v2")], {}, 40)
  }

  lemma TornStoreIsValid()
    ensures TornStore().Valid()
  {
  }

  lemma TornStoreIsUnique()
    ensures TornStore().Unique() && TornStore().Ordered() && ArtifactsOf(TornStore(), 0) == {1, 2, 3, 4}
  {
  }

  lemma TornStoreCandidates()
    ensures Candidates(TornStore(), 0) == {1, 4} && TornStore().HasParent(1)
  {
    var db := TornStore();
    assert 12 in db.references && 31 in db.tags && 10 in db.references && 20 in db.accessories;
    assert db.Tagged(1) && db.HasParent(3) && db.IsAccessory(2);
  }

  lemma TornStoreRows()
    ensures var db := TornStore();
      && Bordered(db, 0) && Attached(db, 0) && OneRowEach(db, ArtifactsOf(db, 0))
      && forall p, q :: p in db.accessories && q in db.accessories ==> p == q
  {
  }

  lemma TornStoreIsRanked()
    ensures HasRank(TornStore(), 0)
  {
    var db := TornStore();
    var rank := map x | x in ArtifactsOf(db, 0) :: x;
    assert Ranks(db, 0, rank);
  }

  /** References and accessories form no cycle, so there is no knot, but the signature is torn. */
  lemma TornStoreHasNoKnot(order: Order)
    ensures Unchained(TornStore(), order, 0) && Pinned(TornStore(), 0) == {} && Torn(TornStore(), 0, 2)
  {
    hide Ranks;
    var db := TornStore();
    TornStoreIsValid();
    TornStoreIsUnique();
    TornStoreRows();
    TornStoreIsRanked();
    SignatureIsTorn();
    hide TornStore, Below, Pinned, Torn;
    RankedHasNoKnot(db, 0);
  }

  lemma SignatureIsTorn()
    ensures Torn(TornStore(), 0, 2)
  {
    var db := TornStore();
    TornStoreIsUnique();
    assert 11 in db.references && 30 in db.tags && 20 in db.accessories;
    assert db.Tagged(2) && db.HasParent(2);
  }

  lemma TornIndexRows()
    ensures var db := TornStore();
      && AccessoryRows(db, 4) == {} && ReferenceRows(db, 4) == {10, 11} && Proceeds(db, 4, true) && !db.IsAccessory(4)
  {
  }

  lemma TaggedIsKept(db: Db, env: Env, id: int, isAccessory: bool, busy: set<int>, t: int)
    requires t in db.tags && db.tags[t].artifact == id
    ensures Deep(db, env, id, false, isAccessory, busy) == Done(db)
  {
    assert db.Tagged(id);
  }

  lemma ErasedKeeps(last: Db, id: int)
    requires id in last.artifacts && (forall t :: t in last.tags ==> last.tags[t].artifact != id)
    requires forall r :: r in last.references ==> last.references[r].parent != id
    ensures Erased(last, id).references == last.references && Erased(last, id).tags == last.tags
  {
    var e := Erased(last, id);
    forall r | r in last.references ensures r in e.references {
    }
    forall t | t in last.tags ensures t in e.tags {
    }
    assert e.references == last.references && e.tags == last.tags;
  }

  /** The index itself goes: neither tags nor references of it are left. */
  lemma IndexErased(env: Env, last: Db)
    requires 4 in last.artifacts && (forall t :: t in last.tags ==> last.tags[t].artifact != 4)
    requires forall r :: r in last.references ==> last.references[r].parent != 4
    ensures var sim := Last(last, env, 4, true);
      && sim.Done? && sim.db.artifacts == last.artifacts - {4} && sim.db.references == last.references
      && sim.db.tags == last.tags && sim.db.accessories == last.accessories
  {
    ErasedKeeps(last, 4);
    assert NoImmutableTag(last, env.rules, {4});
  }

  // The row of the image comes first.

  /** The image goes and leaves its signature, which the index still lists. */
  lemma ImageLeavesSignature(env: Env, cut: Db)
    requires Total(env.order) && cut == TornStore().(references := map[11 := Reference(4, 2), 12 := Reference(2, 1)])
    ensures !cut.IsAccessory(3)
    ensures var sim := Deep(cut, env, 3, false, false, {4});
      && sim.Done? && sim.db.artifacts == cut.artifacts - {3} && sim.db.references == cut.references && sim.db.tags == cut.tags
  {
    assert 11 in cut.references && 30 in cut.tags && 20 in cut.accessories && cut.HasParent(2);
    assert AccessoryRows(cut, 3) == {20} && ReferenceRows(cut, 3) == {} && Proceeds(cut, 3, false);
    TaggedIsKept(cut, env, 2, true, {4} + {3}, 30);
    ErasedKeeps(cut, 3);
    hide Deep, Accs, Kids;
    OneAccessory(cut, env, 3, false, 20, {4});
  }

  lemma ImageFirst(env: Env)
    requires Total(env.order) && env.order.references(10) < env.order.references(11)
    ensures var sim := Deep(TornStore(), env, 4, true, false, {});
      sim.Done? && sim.db.artifacts.Keys == {1, 2} && sim.db.references == map[12 := Reference(2, 1)]
  {
    var db := TornStore();
    TornIndexRows();
    var cut := DropReferences(db, {10});
    assert cut.references == map[11 := Reference(4, 2), 12 := Reference(2, 1)];
    ImageLeavesSignature(env, cut);
    var mid := Deep(cut, env, 3, false, false, {4}).db;
    assert 10 in db.references && db.references[10].child == 3 && 11 in mid.references;
    SignatureStaysListed(env, mid);
    hide Deep, Accs, Kids, Last, TornStore;
    TwoChildren(db, env, 4, 10, 11, mid);
  }

  lemma SignatureStaysListed(env: Env, mid: Db)
    requires mid.artifacts == TornStore().artifacts - {3} && mid.tags == TornStore().tags
    requires mid.references == map[11 := Reference(4, 2), 12 := Reference(2, 1)]
    ensures var last := DropReferences(mid, {11});
      && mid.references[11].child == 2
      && Deep(last, env, 2, false, last.IsAccessory(2), {4}) == Done(last)
      && var sim := Last(last, env, 4, true);
         sim.Done? && sim.db.artifacts.Keys == {1, 2} && sim.db.references == map[12 := Reference(2, 1)]
  {
    var last := DropReferences(mid, {11});
    assert last.references == map[12 := Reference(2, 1)] && 30 in last.tags;
    TaggedIsKept(last, env, 2, last.IsAccessory(2), {4}, 30);
    hide Deep;
    IndexErased(env, last);
  }

  // The row of the signature comes first.

  /** The signature goes as a root and leaves the tagged image it lists. */
  lemma SignatureLeavesImage(env: Env, cut: Db)
    requires Total(env.order) && !env.rules(0, 0, "v1") && cut == TornStore().(references := map[12 := Reference(2, 1)])
    ensures !cut.HasParent(2)
    ensures var sim := Deep(cut, env, 2, true, true, {4} + {3});
      && sim.Done? && sim.db.artifacts == TornStore().artifacts - {2} && sim.db.references == map[]
      && sim.db.tags == map[31 := Tag(0, 1, "v2")] && sim.db.accessories == map[]
  {
    assert 12 in cut.references;
    assert AccessoryRows(cut, 2) == {} && ReferenceRows(cut, 2) == {12} && Proceeds(cut, 2, true);
    var last := DropReferences(DropAccessory(cut, 2, "b"), {12});
    assert 31 in last.tags && last.accessories == map[] && last.references == map[];
    TaggedIsKept(last, env, 1, last.IsAccessory(1), {4} + {3} + {2}, 31);
    SignatureErased(env, last);
    hide Deep, Accs, Kids, Last;
    OneChild(cut, env, 2, true, true, 12, {4} + {3});
  }

  lemma SignatureErased(env: Env, last: Db)
    requires !env.rules(0, 0, "v1") && last == TornStore().(references := map[], accessories := map[])
    ensures var sim := Last(last, env, 2, true);
      && sim.Done? && sim.db.artifacts == TornStore().artifacts - {2} && sim.db.references == map[]
      && sim.db.tags == map[31 := Tag(0, 1, "v2")] && sim.db.accessories == map[]
  {
    assert NoImmutableTag(last, env.rules, {2});
    assert Erased(last, 2).references == map[] && Erased(last, 2).tags == map[31 := Tag(0, 1, "v2")];
  }

  /** The image takes its signature along. */
  lemma ImageTakesIndex(env: Env, cut: Db)
    requires Total(env.order) && !env.rules(0, 0, "v1") && cut == TornStore().(references := map[12 := Reference(2, 1)])
    ensures !cut.IsAccessory(3)
    ensures var sim := Deep(cut, env, 3, false, false, {4});
      && sim.Done? && sim.db.artifacts == TornStore().artifacts - {2, 3} && sim.db.references == map[]
      && sim.db.tags == map[31 := Tag(0, 1, "v2")] && sim.db.accessories == map[]
  {
    assert 20 in cut.accessories;
    assert AccessoryRows(cut, 3) == {20} && ReferenceRows(cut, 3) == {} && Proceeds(cut, 3, false);
    SignatureLeavesImage(env, cut);
    var mid := Deep(cut, env, 2, true, true, {4} + {3}).db;
    ImageErased(env, mid);
    hide Deep, Accs, Kids, Last;
    OneAccessory(cut, env, 3, false, 20, {4});
  }

  lemma ImageErased(env: Env, mid: Db)
    requires mid.artifacts == TornStore().artifacts - {2} && mid.references == map[] && mid.tags == map[31 := Tag(0, 1, "v2")]
    ensures var sim := Last(mid, env, 3, false);
      && sim.Done? && sim.db.artifacts == TornStore().artifacts - {2, 3} && sim.db.references == map[]
      && sim.db.tags == mid.tags && sim.db.accessories == mid.accessories
  {
    assert Erased(mid, 3).references == map[] && Erased(mid, 3).tags == mid.tags;
  }

  lemma SignatureFirst(env: Env)
    requires Total(env.order) && env.order.references(11) < env.order.references(10) && !env.rules(0, 0, "v1")
    ensures var sim := Deep(TornStore(), env, 4, true, false, {});
      && sim.Done? && sim.db.artifacts == TornStore().artifacts - {2, 3, 4} && sim.db.references == map[]
      && sim.db.tags == map[31 := Tag(0, 1, "v2")] && sim.db.accessories == map[]
  {
    var db := TornStore();
    TornIndexRows();
    var mid := DropReferences(db, {11});
    assert 30 in mid.tags && 10 in mid.references && mid.references[10].child == 3 && db.references[11].child == 2;
    TaggedIsKept(mid, env, 2, mid.IsAccessory(2), {4}, 30);
    hide Deep, Accs, Kids, Last;
    ImageThenIndex(env, mid);
    hide TornStore;
    TwoChildren(db, env, 4, 11, 10, mid);
  }

  lemma ImageThenIndex(env: Env, mid: Db)
    requires Total(env.order) && !env.rules(0, 0, "v1") && mid == DropReferences(TornStore(), {11})
    ensures var cut := DropReferences(mid, {10});
      && !cut.IsAccessory(3)
      && var sub := Deep(cut, env, 3, false, false, {4});
         && sub.Done?
         && var sim := Last(sub.db, env, 4, true);
            && sim.Done? && sim.db.artifacts == TornStore().artifacts - {2, 3, 4} && sim.db.references == map[]
            && sim.db.tags == map[31 := Tag(0, 1, "v2")] && sim.db.accessories == map[]
  {
    hide Deep, Last;
    var cut := DropReferences(mid, {10});
    assert cut.references == map[12 := Reference(2, 1)];
    ImageTakesIndex(env, cut);
    IndexErased(env, Deep(cut, env, 3, false, false, {4}).db);
    assert TornStore().artifacts - {2, 3} - {4} == TornStore().artifacts - {2, 3, 4};
  }

  // The loop.

  /** The loop did not fail, and every waiting artifact left is listed. */
  ghost predicate Finished(env: Env, db: Db, gone: set<int>, steps: seq<Step>) {
    && Replayed(TornStore(), db, env, 0, steps) && Total(env.order) && db == TornStore().Without(gone)
    && forall x :: x in Candidates(TornStore(), 0) - gone ==> db.HasParent(x)
  }

  /** The index is the only artifact that can go first. */
  lemma FirstStep(env: Env, db: Db, gone: set<int>, steps: seq<Step>)
    requires Finished(env, db, gone, steps)
    ensures |steps| >= 1 && Done(steps[0].after) == Deep(TornStore(), env, 4, true, false, {})
  {
    TornStoreCandidates();
    TornIndexRows();
    assert 4 in TornStore().artifacts;
    hide Deep, TornStore;
    assert 4 in Candidates(TornStore(), 0);
    assert steps != [];
    assert ReplayedStep(TornStore(), env, 0, steps[0]) && steps[0].before == TornStore();
  }

  /** A later step starts where the one before it ended. */
  lemma LaterStep(env: Env, db: Db, gone: set<int>, steps: seq<Step>, i: nat)
    requires Finished(env, db, gone, steps) && 0 < i < |steps|
    ensures var before := steps[i - 1].after;
      && steps[i].id in {1, 4} && steps[i].id in before.artifacts && !before.HasParent(steps[i].id)
      && Done(steps[i].after) == Deep(before, env, steps[i].id, true, false, {})
  {
    TornStoreCandidates();
    hide Deep, TornStore;
    assert ReplayedStep(TornStore(), env, 0, steps[i]) && steps[i].before == steps[i - 1].after;
  }

  lemma ImageFirstRepeats(env: Env, db: Db, gone: set<int>, steps: seq<Step>)
    requires Finished(env, db, gone, steps) && env.order.references(10) < env.order.references(11)
    ensures db.artifacts.Keys == {1, 2} && !(Candidates(TornStore(), 0) <= gone)
  {
    FirstStep(env, db, gone, steps);
    ImageFirst(env);
    TornStoreCandidates();
    hide Deep, TornStore;
    var after := steps[0].after;
    assert after.references[12].child == 1 && after.HasParent(1);
    if |steps| > 1 {
      LaterStep(env, db, gone, steps, 1);
    }
    assert db == after && 1 in db.artifacts;
    assert 1 in Candidates(TornStore(), 0);
  }

  lemma SignatureFirstEnds(env: Env, db: Db, gone: set<int>, steps: seq<Step>)
    requires Finished(env, db, gone, steps) && env.order.references(11) < env.order.references(10)
    requires !env.rules(0, 0, "v1") && !env.rules(0, 0, "v2")
    ensures db.artifacts.Keys == {}
  {
    FirstStep(env, db, gone, steps);
    SignatureFirst(env);
    var after := steps[0].after;
    LastImageGoes(env, after);
    TornStoreCandidates();
    hide Deep, TornStore;
    assert |steps| == 1 ==> db == after;
    assert 1 in Candidates(TornStore(), 0) && 1 in after.artifacts;
    LaterStep(env, db, gone, steps, 1);
    if |steps| > 2 {
      LaterStep(env, db, gone, steps, 2);
    }
  }

  lemma LastImageGoes(env: Env, after: Db)
    requires Total(env.order) && !env.rules(0, 0, "v2")
    requires after.artifacts == TornStore().artifacts - {2, 3, 4} && after.references == map[] && after.accessories == map[]
    requires after.tags == map[31 := Tag(0, 1, "v2")]
    ensures after.artifacts.Keys == {1} && !after.HasParent(1)
    ensures var sim := Deep(after, env, 1, true, false, {}); sim.Done? && sim.db.artifacts.Keys == {}
  {
    assert AccessoryRows(after, 1) == {} && ReferenceRows(after, 1) == {};
    assert NoImmutableTag(after, env.rules, {1});
    hide Deep;
    Leaf(after, env, 1, true, false, {});
  }

  lemma TornNeverFails(env: Env, out: Outcome)
    requires !env.rules(0, 0, "v1") && !env.rules(0, 0, "v2")
    ensures !BlockedBy(TornStore(), env, 0, out)
  {
    TornStoreRows();
    TornStoreHasNoKnot(env.order);
    hide Unchained, Bordered, Pinned;
  }

  /** Without any knot the loop never ends when the row of the image comes first, and empties the
      repository when the row of the signature does. */
  method DeleteTorn(store: Store) returns (v: Verdict)
    requires store.db == TornStore() && Total(store.env.order)
    requires !store.env.rules(0, 0, "v1") && !store.env.rules(0, 0, "v2")
    modifies store
    ensures store.env.order.references(10) < store.env.order.references(11) ==> v == Repeats && store.db.artifacts.Keys == {1, 2}
    ensures store.env.order.references(11) < store.env.order.references(10) ==> v == Ends && store.db.artifacts.Keys == {}
  {
    TornStoreIsValid();
    hide *;
    ghost var gone, steps;
    v, gone, steps := DeleteRepository(store, 0);
    if v.Failed? {
      TornNeverFails(store.env, v.out);
    }
    TornOutcome(store.env, store.db, gone, steps, v);
  }

  lemma CandidatesAreGone(db: Db, gone: set<int>)
    requires db == TornStore().Without(gone) && db.artifacts.Keys == {}
    ensures Candidates(TornStore(), 0) <= gone
  {
    hide TornStore;
    forall x | x in Candidates(TornStore(), 0) ensures x in gone {
      assert x !in db.artifacts;
    }
  }

  lemma TornOutcome(env: Env, db: Db, gone: set<int>, steps: seq<Step>, v: Verdict)
    requires Replayed(TornStore(), db, env, 0, steps) && Total(env.order) && Progress(TornStore(), db, env, 0, gone)
    requires forall x :: x in Candidates(TornStore(), 0) - gone ==> db.HasParent(x)
    requires !env.rules(0, 0, "v1") && !env.rules(0, 0, "v2") && !v.Failed?
    requires v.Ends? ==> Candidates(TornStore(), 0) <= gone
    requires v.Repeats? ==> !(Candidates(TornStore(), 0) <= gone)
    ensures env.order.references(10) < env.order.references(11) ==> v == Repeats && db.artifacts.Keys == {1, 2}
    ensures env.order.references(11) < env.order.references(10) ==> v == Ends && db.artifacts.Keys == {}
  {
    hide Deep, TornStore, Replayed, Candidates, NoImmutableTag, SurelyClosed, Bordered;
    assert Finished(env, db, gone, steps);
    if db.artifacts.Keys == {} {
      CandidatesAreGone(db, gone);
    }
    if env.order.references(10) < env.order.references(11) {
      ImageFirstRepeats(env, db, gone, steps);
    } else if env.order.references(11) < env.order.references(10) {
      SignatureFirstEnds(env, db, gone, steps);
    }
  }
}
