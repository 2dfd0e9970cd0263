/** The artifact and tag controllers over the database rows: the recursive delete and tag removal. */
module ArtifactStore {
  import opened Registry
  import opened Collection
  import opened Removal
  import opened Replay
  import opened Sets

  method Enumerate<T(==)>(s: set<T>) returns (q: seq<T>)
    ensures forall x :: x in q <==> x in s
    ensures forall i, j :: 0 <= i < j < |q| ==> q[i] != q[j]
  {
    q := [];
    var rest := s;
    while rest != {}
      invariant rest <= s
      invariant forall x :: x in q <==> x in s && x !in rest
      invariant forall i, j :: 0 <= i < j < |q| ==> q[i] != q[j]
      decreases |rest|
    {
      var x :| x in rest;
      rest := rest - {x};
      q := q + [x];
    }
  }

  method EnumerateBy(s: set<int>, order: int -> int) returns (q: seq<int>)
    ensures (forall x :: x in s ==> x in q) && (forall i :: 0 <= i < |q| ==> q[i] in s) && Sorted(q, order)
  {
    q := [];
    var rest := s;
    while rest != {}
      invariant rest <= s
      invariant forall x :: x in s ==> x in q || x in rest
      invariant forall i :: 0 <= i < |q| ==> q[i] in s
      invariant Sorted(q, order)
      invariant forall i, y :: 0 <= i < |q| && y in rest ==> q[i] != y && order(q[i]) <= order(y)
      decreases |rest|
    {
      ghost var first := First(rest, order);
      var x :| x in rest && forall y :: y in rest ==> order(x) <= order(y);
      rest := rest - {x};
      q := q + [x];
    }
  }

  class Store {
    const env: Env
    var db: Db

    constructor (env: Env)
      ensures this.env == env && db == Db(map[], map[], map[], map[], {}, 0) && db.Valid()
    {
      this.env := env;
      db := Db(map[], map[], map[], map[], {}, 0);
    }

    // The rows loaded with an artifact, in the order the database returns them.

    method ReferencesOf(id: int) returns (rows: seq<int>)
      requires db.Valid() && id in db.artifacts
      ensures LoadedReferences(db, env, id, rows)
    {
      rows := [];
      if db.artifacts[id].index {
        rows := EnumerateBy((set r | r in db.references && db.references[r].parent == id), env.order.references);
      }
    }

    method TagsOf(id: int) returns (rows: seq<int>)
      ensures LoadedTags(db, id, rows)
    {
      rows := Enumerate(set t | t in db.tags && db.tags[t].artifact == id);
    }

    method AccessoriesOf(id: int) returns (rows: seq<int>)
      ensures LoadedAccessories(db, env, id, rows)
    {
      rows := EnumerateBy((set a | a in db.accessories && db.accessories[a].subject == id), env.order.accessories);
    }

    method DeleteTag(id: int) returns (out: Outcome)
      modifies this
      ensures out == if id !in old(db).tags then NotFound
                     else if
                       && old(db).tags[id].artifact in old(db).artifacts
                       && var art := old(db).artifacts[old(db).tags[id].artifact];
                          env.rules(art.project, art.repository, old(db).tags[id].name) then ImmutableTag(id)
                     else Ok
      ensures db == if out.Ok? then old(db).(tags := old(db).tags - {id}) else old(db)
    {
      if id !in db.tags {
        return NotFound;
      }
      if Immutable(db, env.rules, db.tags[id]) {
        return ImmutableTag(id);
      }
      db := db.(tags := db.tags - {id});
      return Ok;
    }

    method DeleteTags(ids: seq<int>) returns (out: Outcome)
      modifies this
      ensures out.Ok? ==> db == DropTags(old(db), ids)
      ensures out.Ok? ==> forall t :: t in ids ==> t in old(db).tags && !Immutable(old(db), env.rules, old(db).tags[t])
      ensures !out.Ok? ==> out.NotFound? || out.ImmutableTag?
      ensures out.ImmutableTag? ==>
                out.tag in ids && out.tag in old(db).tags && Immutable(old(db), env.rules, old(db).tags[out.tag])
      ensures out.NotFound? ==>
                exists j :: 0 <= j < |ids| && (ids[j] !in old(db).tags || ids[j] in ids[..j])
      ensures exists k :: 0 <= k <= |ids| && db == DropTags(old(db), ids[..k])
                && forall t :: t in ids[..k] && t in old(db).tags ==> !Immutable(old(db), env.rules, old(db).tags[t])
    {
      var i := 0;
      assert db.tags == DropTags(old(db), ids[..0]).tags;
      while i < |ids|
        invariant 0 <= i <= |ids|
        invariant db == DropTags(old(db), ids[..i])
        invariant forall t :: t in ids[..i] ==> t in old(db).tags && !Immutable(old(db), env.rules, old(db).tags[t])
      {
        assert ids[..i + 1] == ids[..i] + [ids[i]];
        out := DeleteTag(ids[i]);
        if !out.Ok? {
          return;
        }
        assert db.tags == DropTags(old(db), ids[..i + 1]).tags;
        i := i + 1;
      }
      assert ids[..i] == ids;
      return Ok;
    }

    /** Removes the artifact row and its reference rows; refused while any row needs it. */
    method DeleteArtifactRow(id: int) returns (out: Outcome)
      modifies this
      ensures out == if id !in old(db).artifacts then NotFound
                     else if DropChildren(old(db), id).HasParent(id) || old(db).Tagged(id) || old(db).IsAccessory(id) then ForeignKey
                     else Ok
      ensures out.Ok? ==> db == DropChildren(old(db), id).(artifacts := old(db).artifacts - {id})
      ensures out.NotFound? ==> db == old(db)
    {
      if id !in db.artifacts {
        return NotFound;
      }
      db := DropChildren(db, id);
      if db.HasParent(id) || db.Tagged(id) || db.IsAccessory(id) {
        return ForeignKey;
      }
      db := db.(artifacts := db.artifacts - {id});
      return Ok;
    }

    /** "deleteDeeply"; `busy` holds the artifacts whose removal is under way in the callers. */
    method DeleteDeeply(id: int, isRoot: bool, isAccessory: bool, ghost busy: set<int>) returns (out: Outcome)
      requires db.Valid() && Busy(db, busy) && id !in busy
      requires db.IsAccessory(id) ==> isAccessory
      modifies this
      ensures out.Ok? ==> Deleted(old(db), db, env, id, isRoot, busy) && Busy(db, busy)
      ensures !out.Ok? ==> NotDeleted(old(db), env, id, isRoot, out)
      ensures Total(env.order) ==> Simulates(Deep(old(db), env, id, isRoot, isAccessory, busy), out, db)
      decreases |db.artifacts.Keys - busy|, 2
    {
      WithoutNothing(db);
      assert SurelyClosed(db, {});
      if id !in db.artifacts {
        return if isRoot then NotFound else Ok;
      }
      if !isRoot && db.Tagged(id) {
        return Ok;
      }
      if db.HasParent(id) {
        return if isRoot then Referenced else Ok;
      }
      out := Remove(id, isRoot, isAccessory, busy);
    }

    /** The part of "deleteDeeply" after its early exits. */
    method Remove(id: int, isRoot: bool, isAccessory: bool, ghost busy: set<int>) returns (out: Outcome)
      requires db.Valid() && Busy(db, busy) && id !in busy
      requires db.IsAccessory(id) ==> isAccessory
      requires Proceeds(db, id, isRoot)
      modifies this
      ensures out.Ok? ==> Deleted(old(db), db, env, id, isRoot, busy) && Busy(db, busy)
      ensures !out.Ok? ==> Stuck(old(db), env, id, out)
      ensures Total(env.order) ==> Simulates(Deep(old(db), env, id, isRoot, isAccessory, busy), out, db)
      decreases |db.artifacts.Keys - busy|, 1
    {
      hide LoadedReferences, LoadedTags, LoadedAccessories, Stuck, Deleted, ChildrenDone, AccessoriesDone, Deep, Accs, Kids, Last;
      ghost var pre := db;
      DetachedRows(pre, env, id);
      var tagRows := TagsOf(id);
      var accRows := AccessoriesOf(id);
      var refRows := ReferencesOf(id);
      DetachedIsDropped(pre, id);
      DetachedReady(pre, id, busy);
      if isAccessory {
        db := DropAccessory(db, id, db.artifacts[id].digest);
      }
      ghost var base := db;
      assert base == Detached(pre, id);
      ghost var deeper := busy + {id};
      FewerLeft(db.artifacts.Keys, busy, id);
      RemoveReplays(pre, base, env, id, isRoot, isAccessory, accRows, refRows, busy);
      ghost var gone;
      out, gone := DeleteHardAccessories(id, accRows, deeper);
      if !out.Ok? {
        DetachedStuck(pre, env, id, out);
        return;
      }
      ChildrenStart(base, db, env, id, deeper, accRows, refRows, gone);
      NotMore(db.artifacts.Keys - deeper, base.artifacts.Keys - deeper);
      out, gone := DeleteChildren(id, refRows, deeper, base, gone);
      if !out.Ok? {
        DetachedStuck(pre, env, id, out);
        return;
      }
      out := EraseLast(id, isRoot, tagRows, refRows, pre, gone);
      if out.Ok? {
        RemovedFinally(pre, db, env, id, isRoot, busy, gone);
      }
    }

    /** `Erase` as the last part of a removal that began in `pre`. */
    method EraseLast(id: int, isRoot: bool, tagRows: seq<int>, ghost refRows: seq<int>, ghost pre: Db, ghost gone: set<int>)
      returns (out: Outcome)
      requires pre.Valid() && Proceeds(pre, id, isRoot) && LoadedReferences(pre, env, id, refRows)
      requires ChildrenDone(Detached(pre, id), db, env, id, refRows, |refRows|, gone)
      requires LoadedTags(pre, id, tagRows)
      modifies this
      ensures out.Ok? ==> Cascade(pre, db, env, id, gone + {id})
      ensures !out.Ok? ==> Stuck(pre, env, id, out)
      ensures Simulates(Last(old(db), env, id, isRoot), out, db)
    {
      hide ChildrenDone, Detached, Erased, Cascade, NoImmutableTag;
      ghost var cur := db;
      EraseReady(pre, cur, env, id, isRoot, tagRows, refRows, gone);
      out := Erase(id, isRoot, tagRows);
      if out.Ok? {
        Finish(pre, cur, env, id, refRows, gone);
      }
    }

    /** The tags, if `id` is a root, then the rows of the artifact itself. */
    method Erase(id: int, isRoot: bool, tagRows: seq<int>) returns (out: Outcome)
      requires id in db.artifacts && !db.HasParent(id) && !db.IsAccessory(id)
      requires LoadedTags(db, id, tagRows)
      requires isRoot || !db.Tagged(id)
      modifies this
      ensures out.Ok? ==> db == Erased(old(db), id) && NoImmutableTag(old(db), env.rules, {id})
      ensures !out.Ok? ==> out.ImmutableTag? && out.tag in old(db).tags && old(db).tags[out.tag].artifact == id
                           && Immutable(old(db), env.rules, old(db).tags[out.tag]) && isRoot
    {
      ghost var pre := db;
      var art := db.artifacts[id];
      if isRoot {
        assert forall j :: 0 <= j < |tagRows| ==> tagRows[j] in tagRows && tagRows[j] !in tagRows[..j];
        out := DeleteTags(tagRows);
        if !out.Ok? {
          return;
        }
        assert forall t :: t in pre.tags ==> (t in Elems(tagRows) <==> pre.tags[t].artifact == id);
      } else {
        assert forall t :: t in pre.tags ==> pre.tags[t].artifact != id;
      }
      assert db.tags == Erased(pre, id).tags;
      assert !DropChildren(db, id).HasParent(id);
      assert !db.Tagged(id) && !db.IsAccessory(id);
      out := DeleteArtifactRow(id);
      if !out.Ok? {
        return if out.NotFound? && !isRoot then Ok else out;
      }
      db := db.(trash := db.trash + {(art.repository, art.digest)});
      return Ok;
    }

    /** Cuts the references in `rows` one by one and deletes each child that loses its last parent. */
    method DeleteChildren(id: int, rows: seq<int>, ghost busy: set<int>, ghost base: Db, ghost gone0: set<int>)
      returns (out: Outcome, ghost gone: set<int>)
      requires Removing(base, id, busy) && gone0 !! busy
      requires LoadedReferences(base, env, id, rows) && ChildrenDone(base, db, env, id, rows, 0, gone0)
      modifies this
      ensures out.Ok? ==> ChildrenDone(base, db, env, id, rows, |rows|, gone) && gone !! busy
      ensures !out.Ok? ==> Stuck(base, env, id, out)
      ensures Total(env.order) ==> Simulates(Kids(old(db), env, rows, busy), out, db)
      decreases |db.artifacts.Keys - busy|, 3
    {
      hide ChildrenDone, Deleted, NotDeleted, Stuck, LoadedReferences, Deep, Kids;
      gone := gone0;
      var k := 0;
      ghost var start := db;
      assert rows[0..] == rows;
      while k < |rows|
        invariant 0 <= k <= |rows|
        invariant ChildrenDone(base, db, env, id, rows, k, gone) && gone !! busy
        invariant db.artifacts.Keys <= start.artifacts.Keys
        invariant Total(env.order) ==> Kids(start, env, rows, busy) == Kids(db, env, rows[k..], busy)
      {
        ghost var cur := db;
        ChildIsFree(base, cur, env, id, busy, rows, k, gone);
        KidsStep(db, env, rows, k, busy);
        NotMore(cur.artifacts.Keys - busy, start.artifacts.Keys - busy);
        var child := db.references[rows[k]].child;
        db := DropReferences(db, {rows[k]});
        out := DeleteDeeply(child, false, db.IsAccessory(child), busy);
        if !out.Ok? {
          ChildFailure(base, cur, env, id, busy, rows, k, gone, out);
          return;
        }
        ChildStep(base, cur, db, env, id, busy, rows, k, gone);
        DeletedShrinks(DropReferences(cur, {rows[k]}), db, env, child, false, busy);
        gone := gone + Gone(DropReferences(cur, {rows[k]}), db);
        k := k + 1;
      }
      NoRowsLeft(db, env, map[], rows, busy);
      out := Ok;
    }

    /** Deletes the hard accessories among `rows`, as loaded with their subject `id`. */
    method DeleteHardAccessories(id: int, rows: seq<int>, ghost busy: set<int>)
      returns (out: Outcome, ghost gone: set<int>)
      requires Removing(db, id, busy) && LoadedAccessories(db, env, id, rows)
      modifies this
      ensures out.Ok? ==> AccessoriesDone(old(db), db, env, id, rows, |rows|, gone)
      ensures out.Ok? ==> gone !! busy && Busy(db, busy) && db.artifacts.Keys <= old(db).artifacts.Keys
      ensures !out.Ok? ==> Stuck(old(db), env, id, out)
      ensures Total(env.order) ==> Simulates(Accs(old(db), env, old(db).accessories, rows, busy), out, db)
      decreases |db.artifacts.Keys - busy|, 3
    {
      hide AccessoriesDone, Deleted, NotDeleted, Stuck, LoadedAccessories, Deep, Accs;
      ghost var base := db;
      var loaded := db.accessories;
      gone := {};
      AccessoriesStart(base, env, id, rows);
      var k := 0;
      assert rows[0..] == rows;
      while k < |rows|
        invariant 0 <= k <= |rows|
        invariant AccessoriesDone(base, db, env, id, rows, k, gone)
        invariant gone !! busy && Busy(db, busy) && db.artifacts.Keys <= base.artifacts.Keys
        invariant Total(env.order) ==> Accs(base, env, loaded, rows, busy) == Accs(db, env, loaded, rows[k..], busy)
      {
        ghost var cur := db;
        LoadedIsFree(base, cur, env, id, busy, rows, k, gone);
        AccsStep(db, env, loaded, rows, k, busy);
        var acc := loaded[rows[k]];
        if acc.kind.IsHard() {
          out := DeleteDeeply(acc.artifact, !db.HasParent(acc.artifact), true, busy);
          if !out.Ok? {
            AccessoryFailure(base, cur, env, id, busy, rows, k, gone, out);
            return;
          }
          AccessoryStep(base, cur, db, env, id, busy, rows, k, gone);
          DeletedShrinks(cur, db, env, acc.artifact, !cur.HasParent(acc.artifact), busy);
          gone := gone + Gone(cur, db);
        } else {
          AccessorySkip(base, db, env, id, rows, k, gone);
        }
        k := k + 1;
      }
      NoRowsLeft(db, env, loaded, rows, busy);
      out := Ok;
    }

    /** "Delete": one transaction, undone as a whole when anything fails. */
    method Delete(id: int) returns (out: Outcome)
      requires db.Valid()
      modifies this
      ensures !out.Ok? ==> db == old(db)
      ensures out.Ok? ==> db == old(db).Without(Gone(old(db), db)) && db.Valid()
      ensures out.Ok? ==> id in Gone(old(db), db) && Surely(old(db), id) <= Gone(old(db), db) <= Collected(old(db), id)
      ensures out.Ok? ==> SurelyClosed(old(db), Gone(old(db), db))
      ensures out.Ok? ==> Justified(old(db), id, Gone(old(db), db))
      ensures out.Ok? ==> NoImmutableTag(old(db), env.rules, Gone(old(db), db))
      ensures out.Ok? && NoTaggedChildAccessory(old(db), Collected(old(db), id)) ==> Gone(old(db), db) == Collected(old(db), id)
      ensures !out.Ok? ==> DeleteRefused(old(db), env, id, out)
      ensures out.AttestationInUse? <==>
        exists a :: a in old(db).accessories && old(db).accessories[a].artifact == id
          && old(db).accessories[a].kind == InTotoAttestation && old(db).accessories[a].subject in old(db).artifacts
      ensures Deletable(old(db), env.rules, id) && !Tangled(old(db), env.order, id) ==> out.Ok?
      ensures out.Ok? && NoTaggedChildAccessory(old(db), Collected(old(db), id)) ==> Deletable(old(db), env.rules, id)
      ensures Deletable(old(db), env.rules, id) && Regular(old(db), id) && Clash(old(db), env.order, id) ==> out.NotFound?
      ensures Deletable(old(db), env.rules, id) && Regular(old(db), id) && Separate(old(db), id) && Strict(env.order) ==>
        (out.NotFound? <==> Clash(old(db), env.order, id))
      ensures Total(env.order) && !AttestationBlocks(old(db), id) ==>
        var sim := Deep(old(db), env, id, true, old(db).IsAccessory(id), {});
        if out.Ok? then sim == Done(db) else sim == Fails(KindOf(out))
    {
      ghost var pre := db;
      if AttestationBlocks(db, id) {
        return AttestationInUse;
      }
      var snapshot := db;
      out := DeleteDeeply(id, true, db.IsAccessory(id), {});
      if out.Ok? {
        DeletedWhole(pre, db, env, id);
      } else {
        db := snapshot;
        RefusedWhole(pre, env, id, out);
      }
    }
  }
}
