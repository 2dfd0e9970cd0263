/** What deleting an artifact should collect, said once as a least fixpoint over the
    reference and accessory graph, and the lemmas that let a recursion reach it. */
module Collection {
  import opened Registry

  ghost predicate AllParentsIn(db: Db, s: set<int>, x: int) {
    forall r :: r in db.references && db.references[r].child == x ==> db.references[r].parent in s
  }

  ghost predicate HardAccessoryOf(db: Db, s: set<int>, x: int) {
    exists a :: a in db.accessories && db.accessories[a].artifact == x
                && db.accessories[a].kind.IsHard() && db.accessories[a].subject in s
  }

  /** Once the artifacts in `s` go, `x` has to go too: no index outside `s` lists it, and
      it is a hard accessory of `s` or an untagged child. */
  ghost predicate Collectable(db: Db, s: set<int>, x: int) {
    && x in db.artifacts
    && AllParentsIn(db, s, x)
    && (HardAccessoryOf(db, s, x) || (!db.Tagged(x) && db.HasParent(x)))
  }

  ghost predicate Closed(db: Db, s: set<int>) {
    forall x :: Collectable(db, s, x) ==> x in s
  }

  /** The least set that holds `root` and is closed under `Collectable`. */
  ghost function Collected(db: Db, root: int): set<int> {
    set x | x in db.artifacts && InEveryClosed(db, root, x)
  }

  ghost predicate InEveryClosed(db: Db, root: int, x: int) {
    forall s: set<int> :: root in s && Closed(db, s) ==> x in s
  }

  /** A tagged child: deleting its last parent leaves it, whatever else it hangs on. */
  ghost predicate TaggedChild(db: Db, x: int) {
    db.Tagged(x) && db.HasParent(x)
  }

  /** `Closed`, except that tagged children may stay. */
  ghost predicate SurelyClosed(db: Db, s: set<int>) {
    forall x :: Collectable(db, s, x) && !TaggedChild(db, x) ==> x in s
  }

  ghost predicate InEverySurelyClosed(db: Db, root: int, x: int) {
    forall s: set<int> :: root in s && SurelyClosed(db, s) ==> x in s
  }

  /** What goes with `root` whatever the order of rows: the least set that holds it and is closed
      but for tagged children. */
  ghost function Surely(db: Db, root: int): set<int> {
    set x | x in db.artifacts && InEverySurelyClosed(db, root, x)
  }

  /** No hard accessory in `c` is at once listed by an index and tagged. */
  ghost predicate NoTaggedChildAccessory(db: Db, c: set<int>) {
    forall a :: a in db.accessories && db.accessories[a].kind.IsHard() && db.accessories[a].artifact in c ==>
      !(db.HasParent(db.accessories[a].artifact) && db.Tagged(db.accessories[a].artifact))
  }

  /** An artifact in `c` has at most one accessory row. */
  ghost predicate OneRowEach(db: Db, c: set<int>) {
    forall a, b :: a in db.accessories && b in db.accessories && a != b && db.accessories[a].artifact in c ==>
      db.accessories[a].artifact != db.accessories[b].artifact
  }

  ghost predicate ClosedWithin(db: Db, s: set<int>, w: set<int>) {
    forall x :: x in w && Collectable(db, s, x) ==> x in s
  }

  /** The artifacts in `w` can be collected one by one from `root`, using only each other. */
  ghost predicate Derived(db: Db, root: int, w: set<int>) {
    forall s: set<int> :: root in s && ClosedWithin(db, s, w) ==> w <= s
  }

  lemma DerivedIsCollected(db: Db, root: int, w: set<int>, x: int)
    requires Derived(db, root, w) && x in w
    ensures InEveryClosed(db, root, x)
  {
    forall s: set<int> | root in s && Closed(db, s) ensures x in s {
      assert ClosedWithin(db, s, w);
    }
  }

  /** An untagged child or a hard accessory of `s`, whatever else lists it. */
  ghost predicate HangsOn(db: Db, s: set<int>, x: int) {
    && x in db.artifacts
    && (HardAccessoryOf(db, s, x)
        || (!db.Tagged(x) && exists r :: r in db.references && db.references[r].child == x && db.references[r].parent in s))
  }

  /** `x` is `b` or hangs on it through a chain. */
  ghost predicate Below(db: Db, b: int, x: int) {
    forall s: set<int> :: b in s && (forall y :: HangsOn(db, s, y) ==> y in s) ==> x in s
  }

  lemma CollectedIsBelow(db: Db, b: int, x: int)
    requires InEveryClosed(db, b, x)
    ensures Below(db, b, x)
  {
    forall s: set<int> | b in s && (forall y :: HangsOn(db, s, y) ==> y in s) ensures x in s {
      forall y | Collectable(db, s, y) ensures y in s {
        assert HangsOn(db, s, y);
      }
      assert Closed(db, s);
    }
  }

  lemma CollectableGrows(db: Db, s: set<int>, t: set<int>, x: int)
    requires s <= t && Collectable(db, s, x)
    ensures Collectable(db, t, x)
  {
  }

  /** Beside the root, the collected set holds exactly what is collectable once it goes. */
  lemma CollectedFixpoint(db: Db, root: int, x: int)
    requires root in db.artifacts
    ensures x in Collected(db, root) <==> x == root || Collectable(db, Collected(db, root), x)
  {
    var c := Collected(db, root);
    CollectedIsClosed(db, root);
    var s := c - {x};
    assert x in c ==> InEveryClosed(db, root, x);
    if x != root && !Collectable(db, c, x) {
      forall y | Collectable(db, s, y) ensures y in s {
        CollectableGrows(db, s, c, y);
      }
      assert Closed(db, s);
    }
  }

  lemma CollectedIsClosed(db: Db, root: int)
    requires root in db.artifacts
    ensures root in Collected(db, root) && Closed(db, Collected(db, root))
  {
    var c := Collected(db, root);
    forall x | Collectable(db, c, x) ensures x in c {
      forall s: set<int> | root in s && Closed(db, s) ensures x in s {
        forall y | y in c ensures y in s { assert InEveryClosed(db, root, y); }
        CollectableGrows(db, c, s, x);
      }
    }
  }

  /** `cur` is `db` after some rows went: only references listed by `s`, and the tags of
      an artifact only together with it. */
  ghost predicate Shrunk(db: Db, cur: Db, s: set<int>) {
    && cur.artifacts.Keys <= db.artifacts.Keys
    && cur.references.Keys <= db.references.Keys
    && (forall r :: r in cur.references ==> cur.references[r] == db.references[r])
    && (forall r :: r in db.references && r !in cur.references ==> db.references[r].parent in s)
    && cur.accessories.Keys <= db.accessories.Keys
    && (forall a :: a in cur.accessories ==> cur.accessories[a] == db.accessories[a])
    && (forall x :: x in cur.artifacts && db.Tagged(x) ==> cur.Tagged(x))
  }

  lemma ShrunkKeepsClosed(db: Db, cur: Db, s: set<int>)
    requires Shrunk(db, cur, s) && Closed(db, s)
    ensures Closed(cur, s)
  {
    forall x | Collectable(cur, s, x) ensures x in s {
      assert AllParentsIn(db, s, x);
      if HardAccessoryOf(cur, s, x) {
        assert HardAccessoryOf(db, s, x);
      } else {
        assert db.HasParent(x);
      }
      assert Collectable(db, s, x);
    }
  }

  lemma WithoutShrinks(db: Db, gone: set<int>, s: set<int>)
    requires gone <= s
    ensures Shrunk(db, db.Without(gone), s)
  {
    var cur := db.Without(gone);
    forall x | x in cur.artifacts && db.Tagged(x) ensures cur.Tagged(x) {
      var t :| t in db.tags && db.tags[t].artifact == x;
      assert t in cur.tags;
    }
  }

  /** Every artifact left in `cur` that lost its reason to stay (its parents or its
      subject, relative to `db`) to the removed set `gone` is still listed by some index, or is a
      tagged child. */
  ghost predicate Settled(db: Db, cur: Db, gone: set<int>) {
    forall x :: x in cur.artifacts && x !in gone ==> SettledAt(db, cur, gone, x)
  }

  ghost predicate SettledAt(db: Db, cur: Db, gone: set<int>, x: int) {
    (HardAccessoryOf(db, gone, x) || db.HasParent(x)) && !TaggedChild(db, x) ==> cur.HasParent(x)
  }

  lemma ClosedIsSettled(db: Db, gone: set<int>)
    requires SurelyClosed(db, gone)
    ensures Settled(db, db.Without(gone), gone)
  {
    var cur := db.Without(gone);
    forall x | x in cur.artifacts && x !in gone ensures SettledAt(db, cur, gone, x) {
      if (HardAccessoryOf(db, gone, x) || db.HasParent(x)) && !TaggedChild(db, x) {
        assert !Collectable(db, gone, x);
        var r :| r in db.references && db.references[r].child == x && db.references[r].parent !in gone;
        assert r in cur.references;
      }
    }
  }

  lemma SettledIsClosed(db: Db, cur: Db, gone: set<int>)
    requires Settled(db, cur, gone)
    requires db.artifacts.Keys - gone <= cur.artifacts.Keys
    requires forall r :: r in cur.references ==>
      r in db.references && cur.references[r] == db.references[r] && cur.references[r].parent !in gone
    ensures SurelyClosed(db, gone)
  {
    forall x | x in db.artifacts && x !in gone && !TaggedChild(db, x) ensures !Collectable(db, gone, x) {
      assert SettledAt(db, cur, gone, x);
    }
  }

  lemma StillListed(cur: Db, more: set<int>, x: int)
    requires SurelyClosed(cur, more) && x in cur.artifacts && x !in more && !cur.Tagged(x) && cur.HasParent(x)
    ensures cur.Without(more).HasParent(x)
  {
    assert !Collectable(cur, more, x);
    var r :| r in cur.references && cur.references[r].child == x && cur.references[r].parent !in more;
    assert r in cur.Without(more).references;
  }

  /** Accessory rows and tags of an artifact that is still there, and not itself being
      removed, are still there. */
  ghost predicate RowsKept(db: Db, cur: Db, gone: set<int>) {
    && (forall a :: a in db.accessories && db.accessories[a].artifact in cur.artifacts - gone ==>
          a in cur.accessories)
    && (forall x :: x in cur.artifacts && cur.Tagged(x) ==> db.Tagged(x))
  }

  /** One more removal on top of a settled state leaves it settled. */
  lemma SettledStep(db: Db, cur: Db, gone: set<int>, more: set<int>, x: int)
    requires Shrunk(db, cur, gone) && RowsKept(db, cur, gone) && SurelyClosed(cur, more)
    requires x in cur.artifacts && x in db.artifacts && x !in gone && x !in more && SettledAt(db, cur, gone, x)
    ensures SettledAt(db, cur.Without(more), gone + more, x)
  {
    if db.HasParent(x) {
      if !db.Tagged(x) {
        StillListed(cur, more, x);
      }
    } else {
      assert !cur.HasParent(x);
      assert HardAccessoryOf(db, more, x) ==> HardAccessoryOf(cur, more, x);
      assert HardAccessoryOf(cur, more, x) ==> Collectable(cur, more, x);
    }
  }

  lemma ClosedTwice(db: Db, gone: set<int>, more: set<int>)
    requires SurelyClosed(db, gone) && SurelyClosed(db.Without(gone), more)
    ensures SurelyClosed(db, gone + more)
  {
    var cur := db.Without(gone);
    WithoutShrinks(db, gone, gone);
    ClosedIsSettled(db, gone);
    WithoutTwice(db, gone, more);
    var post := cur.Without(more);
    forall x | x in post.artifacts && x !in gone + more ensures SettledAt(db, post, gone + more, x) {
      SettledStep(db, cur, gone, more, x);
    }
    SettledIsClosed(db, post, gone + more);
  }

  /** Where no hard accessory to be collected is a tagged child, nothing collectable stays. */
  lemma SurelyIsClosed(db: Db, root: int, s: set<int>)
    requires root in db.artifacts && SurelyClosed(db, s) && s <= Collected(db, root)
    requires NoTaggedChildAccessory(db, Collected(db, root))
    ensures Closed(db, s)
  {
    var c := Collected(db, root);
    CollectedIsClosed(db, root);
    forall x | Collectable(db, s, x) ensures x in s {
      CollectableGrows(db, s, c, x);
    }
  }

  /** What surely goes is collected, and all of it where the two notions of closed agree. */
  lemma SurelyIsCollected(db: Db, root: int)
    requires root in db.artifacts
    ensures root in Surely(db, root) && Surely(db, root) <= Collected(db, root) && SurelyClosed(db, Surely(db, root))
    ensures NoTaggedChildAccessory(db, Collected(db, root)) ==> Surely(db, root) == Collected(db, root)
  {
    var c, sure := Collected(db, root), Surely(db, root);
    CollectedIsClosed(db, root);
    assert SurelyClosed(db, c);
    forall x | x in sure ensures x in c {
      assert InEverySurelyClosed(db, root, x);
    }
    forall x | Collectable(db, sure, x) && !TaggedChild(db, x) ensures x in sure {
      forall s: set<int> | root in s && SurelyClosed(db, s) ensures x in s {
        forall y | y in sure ensures y in s { assert InEverySurelyClosed(db, root, y); }
        CollectableGrows(db, sure, s, x);
      }
    }
    if NoTaggedChildAccessory(db, c) {
      SurelyIsClosed(db, root, sure);
      forall x | x in c ensures x in sure {
        assert InEveryClosed(db, root, x);
      }
    }
  }

  /** `cur` has no rows that `db` has not. */
  ghost predicate FewerRows(db: Db, cur: Db) {
    && cur.artifacts.Keys <= db.artifacts.Keys
    && (forall r :: r in cur.references ==> r in db.references && cur.references[r] == db.references[r])
    && (forall a :: a in cur.accessories ==> a in db.accessories && cur.accessories[a] == db.accessories[a])
    && (forall t :: t in cur.tags ==> t in db.tags && cur.tags[t] == db.tags[t])
  }

  lemma NoTaggedChildAccessoryStays(db: Db, cur: Db, c: set<int>, d: set<int>)
    requires FewerRows(db, cur) && d <= c
    ensures NoTaggedChildAccessory(db, c) ==> NoTaggedChildAccessory(cur, d)
    ensures OneRowEach(db, c) ==> OneRowEach(cur, d)
  {
    if NoTaggedChildAccessory(db, c) {
      forall a | a in cur.accessories && cur.accessories[a].kind.IsHard() && cur.accessories[a].artifact in d
        ensures !(cur.HasParent(cur.accessories[a].artifact) && cur.Tagged(cur.accessories[a].artifact))
      {
        var x := db.accessories[a].artifact;
        assert !(db.HasParent(x) && db.Tagged(x));
      }
    }
  }
}
