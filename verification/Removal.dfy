/** What the recursive delete keeps, step by step: the lemmas that carry it from the rows of one
    artifact to the least fixpoint of the whole graph. */
module Removal {
  import opened Registry
  import opened Collection
  import opened Sets

  datatype Outcome =
    | Ok
    | NotFound
    | Referenced            // the artifact is still listed by an index
    | AttestationInUse      // an in-toto attestation whose subject is still present
    | ImmutableTag(tag: int)
    | InvalidName
    | ForeignKey            // the database refused to break a foreign key

  /** The immutability rules, fixed: project, repository, tag name. */
  type Rules = (int, int, string) -> bool

  /** The status is looked up through the artifact of the tag; without it the tag counts as mutable. */
  predicate Immutable(db: Db, rules: Rules, tag: Tag) {
    tag.artifact in db.artifacts
    && rules(db.artifacts[tag.artifact].project, db.artifacts[tag.artifact].repository, tag.name)
  }

  ghost predicate NoImmutableTag(db: Db, rules: Rules, arts: set<int>) {
    forall t :: t in db.tags && db.tags[t].artifact in arts ==> !Immutable(db, rules, db.tags[t])
  }

  /** The order in which the database happens to return rows. */
  datatype Order = Order(accessories: int -> int, references: int -> int)

  datatype Env = Env(rules: Rules, order: Order)

  ghost function Gone(pre: Db, post: Db): set<int> {
    pre.artifacts.Keys - post.artifacts.Keys
  }

  /** Artifacts whose removal is under way further up the recursion. */
  ghost predicate Busy(db: Db, busy: set<int>) {
    busy <= db.artifacts.Keys
    && forall b :: b in busy ==> !db.HasParent(b) && !db.IsAccessory(b)
  }

  /** The recursion gets past its early exits. */
  ghost predicate Proceeds(db: Db, id: int, isRoot: bool) {
    id in db.artifacts && !db.HasParent(id) && (isRoot || !db.Tagged(id))
  }

  ghost predicate ChildOrHardAccessory(db: Db, s: set<int>, x: int) {
    || HardAccessoryOf(db, s, x)
    || exists r :: r in db.references && db.references[r].child == x && db.references[r].parent in s
  }

  /** Everything removed beside `id` hung, directly, on something removed. */
  ghost predicate Justified(db: Db, id: int, gone: set<int>) {
    forall x :: x in gone && x != id ==> ChildOrHardAccessory(db, gone + {id}, x)
  }

  lemma DerivedIsJustified(db: Db, id: int, gone: set<int>)
    requires Derived(db, id, gone)
    ensures Justified(db, id, gone)
  {
    forall x | x in gone && x != id ensures ChildOrHardAccessory(db, gone + {id}, x) {
      var s := (gone + {id}) - {x};
      if !ChildOrHardAccessory(db, gone + {id}, x) {
        assert !Collectable(db, s, x);
        assert ClosedWithin(db, s, gone);
      }
    }
  }

  /** `pre` without the accessory rows of `id` itself. */
  ghost function Detached(pre: Db, id: int): Db {
    pre.(accessories := map a | a in pre.accessories && pre.accessories[a].artifact != id :: pre.accessories[a])
  }

  ghost predicate HardRow(db: Db, a: int, subject: int) {
    a in db.accessories && db.accessories[a].kind.IsHard() && db.accessories[a].subject == subject
  }

  /** Two accessories of `s`: the first, listed by no index, is removed by its row and takes the
      second with it, whose row comes later. */
  ghost predicate ClashAt(db: Db, order: Order, s: int) {
    exists p, q :: ClashOf(db, order, s, p, q)
  }

  ghost predicate ClashOf(db: Db, order: Order, s: int, p: int, q: int) {
    && HardRow(db, p, s) && HardRow(db, q, s) && order.accessories(p) < order.accessories(q)
    && !db.HasParent(db.accessories[p].artifact)
    && db.accessories[q].artifact in Collected(Detached(db, s), db.accessories[p].artifact)
  }

  /** Everything collected for `id` has at most one accessory row, and no hard accessory among it
      is both listed and tagged. */
  ghost predicate Regular(db: Db, id: int) {
    NoTaggedChildAccessory(db, Collected(db, id)) && OneRowEach(db, Collected(db, id))
  }

  /** The artifacts in `gone` were removed on behalf of `id`: with exactly their own rows, each
      collected in turn, leaving nothing collectable behind, and no immutable tag lost. */
  ghost predicate Cascade(pre: Db, post: Db, env: Env, id: int, gone: set<int>) {
    && gone <= pre.artifacts.Keys
    && post == pre.Without(gone) && post.Valid()
    && Derived(pre, id, gone)
    && NoImmutableTag(pre, env.rules, gone)
    && SurelyClosed(pre, gone)
    && (Regular(pre, id) ==> forall s :: s in gone ==> !ClashAt(Detached(pre, id), env.order, s))
  }

  /** The recursive delete of `id` succeeded. */
  ghost predicate Deleted(pre: Db, post: Db, env: Env, id: int, isRoot: bool, busy: set<int>) {
    var gone := Gone(pre, post);
    && Cascade(pre, post, env, id, gone)
    && gone !! busy
    && (id in gone <==> Proceeds(pre, id, isRoot))
    && (gone != {} ==> id in gone)
    && (isRoot ==> id in gone)
  }

  /** Collected for `id`, and no untagged child, which goes with its last parent instead. */
  ghost predicate TakenByRow(db: Db, id: int, b: int) {
    InEveryClosed(db, id, b) && (db.HasParent(b) ==> db.Tagged(b))
  }

  /** Two accessories of something collected for `id` hang together: the second lies below the
      first, which its row can take, and the row of the second comes later. */
  ghost predicate Tangled(db: Db, order: Order, id: int) {
    exists s, p, q :: TangledAt(db, order, id, s, p, q)
  }

  ghost predicate TangledAt(db: Db, order: Order, id: int, s: int, p: int, q: int) {
    && InEveryClosed(db, id, s) && p != q && HardRow(db, p, s) && HardRow(db, q, s)
    && order.accessories(p) <= order.accessories(q)
    && db.accessories[p].artifact != id && db.accessories[q].artifact != id
    && Below(db, db.accessories[p].artifact, db.accessories[q].artifact)
    && TakenByRow(db, id, db.accessories[p].artifact)
  }

  /** Why the removal of `id`, once under way, may fail: an immutable tag on something it
      collects, or an accessory that another one already took with it. */
  ghost predicate Stuck(pre: Db, env: Env, id: int, out: Outcome) {
    match out
    case NotFound => Tangled(pre, env.order, id)
    case ImmutableTag(t) =>
      t in pre.tags && Immutable(pre, env.rules, pre.tags[t]) && InEveryClosed(pre, id, pre.tags[t].artifact)
    case _ => false
  }

  ghost predicate NotDeleted(pre: Db, env: Env, id: int, isRoot: bool, out: Outcome) {
    || (isRoot && id !in pre.artifacts && out.NotFound?)
    || (isRoot && pre.HasParent(id) && out.Referenced?)
    || (Proceeds(pre, id, isRoot) && Stuck(pre, env, id, out))
  }

  function DropReferences(db: Db, rows: set<int>): Db {
    db.(references := db.references - rows)
  }

  function DropChildren(db: Db, id: int): Db {
    db.(references := map r | r in db.references && db.references[r].parent != id :: db.references[r])
  }

  function DropAccessory(db: Db, id: int, digest: string): Db {
    db.(accessories := map a | a in db.accessories
                                 && !(db.accessories[a].artifact == id && db.accessories[a].digest == digest) :: db.accessories[a])
  }

  ghost function Elems(q: seq<int>): set<int> {
    set x | x in q
  }

  ghost function DropTags(db: Db, ids: seq<int>): Db {
    db.(tags := db.tags - Elems(ids))
  }

  /** The smallest in the order. */
  lemma First(s: set<int>, order: int -> int) returns (x: int)
    requires s != {}
    ensures x in s && forall y :: y in s ==> order(x) <= order(y)
  {
    x := Any(s);
    if s != {x} {
      var y := First(s - {x}, order);
      if order(y) < order(x) { x := y; }
    }
  }

  ghost predicate Sorted(q: seq<int>, order: int -> int) {
    forall i, j :: 0 <= i < j < |q| ==> q[i] != q[j] && order(q[i]) <= order(q[j])
  }

  lemma FewerLeft(arts: set<int>, busy: set<int>, id: int)
    requires id in arts && id !in busy
    ensures |arts - (busy + {id})| < |arts - busy|
  {
    assert arts - busy == (arts - (busy + {id})) + {id};
  }

  /** A removal justified one level down, from `c` in `cur`, is justified from `id` in `base`. */
  lemma Lift(base: Db, cur: Db, gone: set<int>, id: int, c: int, x: int)
    requires Shrunk(base, cur, gone)
    requires forall y :: y in gone ==> InEveryClosed(base, id, y)
    requires c in base.artifacts && !cur.HasParent(c)
    requires HardAccessoryOf(base, gone, c) || (!base.Tagged(c) && base.HasParent(c))
    requires InEveryClosed(cur, c, x)
    ensures InEveryClosed(base, id, x)
  {
    forall s: set<int> | id in s && Closed(base, s) ensures x in s {
      forall y | y in gone ensures y in s { assert InEveryClosed(base, id, y); }
      assert Shrunk(base, cur, s);
      ShrunkKeepsClosed(base, cur, s);
      assert AllParentsIn(base, s, c);
      assert HardAccessoryOf(base, gone, c) ==> HardAccessoryOf(base, s, c);
      assert Collectable(base, s, c);
    }
  }

  lemma LiftCollected(base: Db, cur: Db, gone: set<int>, id: int, c: int)
    requires Shrunk(base, cur, gone)
    requires forall y :: y in gone ==> InEveryClosed(base, id, y)
    requires c in base.artifacts && !cur.HasParent(c)
    requires HardAccessoryOf(base, gone, c) || (!base.Tagged(c) && base.HasParent(c))
    ensures Collected(cur, c) <= Collected(base, id)
  {
    forall x | x in Collected(cur, c) ensures x in Collected(base, id) {
      Lift(base, cur, gone, id, c, x);
    }
  }

  /** `base` while the removal of `id` is under way: its references in `dropped` are
      already cut and the artifacts in `gone` already removed. */
  ghost function Underway(base: Db, dropped: set<int>, gone: set<int>): Db {
    DropReferences(base, dropped).Without(gone)
  }

  lemma UnderwayShrinks(base: Db, dropped: set<int>, gone: set<int>, s: set<int>)
    requires gone <= s
    requires forall r :: r in dropped && r in base.references ==> base.references[r].parent in s
    ensures Shrunk(base, Underway(base, dropped, gone), s) && RowsKept(base, Underway(base, dropped, gone), s)
  {
    var cur := Underway(base, dropped, gone);
    forall x | x in cur.artifacts && base.Tagged(x) ensures cur.Tagged(x) {
      var t :| t in base.tags && base.tags[t].artifact == x;
      assert t in cur.tags;
    }
  }

  lemma UnderwayCut(base: Db, dropped: set<int>, gone: set<int>, r: int)
    ensures DropReferences(Underway(base, dropped, gone), {r}) == Underway(base, dropped + {r}, gone)
  {
    assert DropReferences(Underway(base, dropped, gone), {r}).references
        == Underway(base, dropped + {r}, gone).references;
  }

  lemma UnderwayMore(base: Db, dropped: set<int>, gone: set<int>, more: set<int>)
    ensures Underway(base, dropped, gone).Without(more) == Underway(base, dropped, gone + more)
  {
    WithoutTwice(DropReferences(base, dropped), gone, more);
  }

  /** What is known when `c`, one level below `id`, has been dealt with. */
  ghost predicate Reached(base: Db, dropped: set<int>, gone: set<int>, id: int, c: int) {
    && base.Valid() && id in base.artifacts && id !in gone && gone <= base.artifacts.Keys
    && !base.HasParent(id) && !base.IsAccessory(id)
    && (forall r :: r in dropped && r in base.references ==> base.references[r].parent == id)
    && Derived(base, id, gone)
    && c in base.artifacts && !Underway(base, dropped, gone).HasParent(c)
    && (HardAccessoryOf(base, {id}, c) || (!base.Tagged(c) && ChildOf(base, id, c)))
  }

  ghost predicate ChildOf(db: Db, id: int, c: int) {
    exists r :: r in db.references && db.references[r].child == c && db.references[r].parent == id
  }

  lemma ReachedLifts(base: Db, dropped: set<int>, gone: set<int>, id: int, c: int)
    requires Reached(base, dropped, gone, id, c)
    ensures var cur := Underway(base, dropped, gone);
      && Shrunk(base, cur, gone + {id}) && RowsKept(base, cur, gone + {id}) && FewerRows(base, cur)
      && (forall y :: y in gone + {id} ==> InEveryClosed(base, id, y))
      && (HardAccessoryOf(base, gone + {id}, c) || (!base.Tagged(c) && base.HasParent(c)))
      && Collected(cur, c) <= Collected(base, id)
  {
    var cur := Underway(base, dropped, gone);
    UnderwayShrinks(base, dropped, gone, gone + {id});
    forall y | y in gone + {id} ensures InEveryClosed(base, id, y) {
      if y in gone {
        DerivedIsCollected(base, id, gone, y);
      }
    }
    LiftCollected(base, cur, gone + {id}, id, c);
  }

  /** The removal `more`, made from `c` one level down, joins the removals made so far. */
  lemma JoinDerived(base: Db, dropped: set<int>, gone: set<int>, more: set<int>, id: int, c: int)
    requires Reached(base, dropped, gone, id, c)
    requires c in more && Derived(Underway(base, dropped, gone), c, more)
    ensures Derived(base, id, gone + more)
  {
    var cur := Underway(base, dropped, gone);
    UnderwayShrinks(base, dropped, gone, gone + {id});
    forall s: set<int> | id in s && ClosedWithin(base, s, gone + more) ensures gone + more <= s {
      assert ClosedWithin(base, s, gone);
      assert Shrunk(base, cur, s);
      assert AllParentsIn(base, s, c);
      assert Collectable(base, s, c);
      forall x | x in more && Collectable(cur, s, x) ensures x in s {
        ShrunkCollectable(base, cur, s, x);
      }
      assert ClosedWithin(cur, s, more);
    }
  }

  lemma ShrunkCollectable(base: Db, cur: Db, s: set<int>, x: int)
    requires Shrunk(base, cur, s) && Collectable(cur, s, x)
    ensures Collectable(base, s, x)
  {
    assert AllParentsIn(base, s, x);
    if HardAccessoryOf(cur, s, x) {
      assert HardAccessoryOf(base, s, x);
    } else {
      assert base.HasParent(x);
    }
  }

  lemma JoinTags(base: Db, dropped: set<int>, gone: set<int>, more: set<int>, rules: Rules)
    requires NoImmutableTag(base, rules, gone) && NoImmutableTag(Underway(base, dropped, gone), rules, more)
    requires more <= Underway(base, dropped, gone).artifacts.Keys
    ensures NoImmutableTag(base, rules, gone + more)
  {
    var cur := Underway(base, dropped, gone);
    forall t | t in base.tags && base.tags[t].artifact in more ensures !Immutable(base, rules, base.tags[t]) {
      assert t in cur.tags;
    }
  }

  // Clashes one level down

  /** What the first of two clashing accessories takes with it lies among what is collected. */
  lemma ClashInside(base: Db, order: Order, id: int, s: int, p: int, q: int)
    requires id in base.artifacts && base.Valid() && s in Collected(base, id) && ClashOf(base, order, s, p, q)
    ensures base.accessories[p].artifact in Collected(base, id)
    ensures Collected(Detached(base, s), base.accessories[p].artifact) <= Collected(base, id)
  {
    var c, d, b := Collected(base, id), Detached(base, s), base.accessories[p].artifact;
    CollectedIsClosed(base, id);
    assert HardAccessoryOf(base, c, b);
    assert Collectable(base, c, b);
    assert Shrunk(base, d, c);
    ShrunkKeepsClosed(base, d, c);
    forall x | x in Collected(d, b) ensures x in c {
      assert InEveryClosed(d, b, x);
    }
  }

  /** None of it is gone while its subject `s` is still there. */
  lemma ClashUntouched(base: Db, gone: set<int>, order: Order, id: int, s: int, p: int, q: int)
    requires id in base.artifacts && base.Valid() && !base.HasParent(id) && !base.IsAccessory(id)
    requires Derived(base, id, gone) && gone <= base.artifacts.Keys && OneRowEach(base, Collected(base, id))
    requires s in Collected(base, id) && s !in gone && s != id && ClashOf(base, order, s, p, q)
    ensures id !in Collected(Detached(base, s), base.accessories[p].artifact)
    ensures gone !! Collected(Detached(base, s), base.accessories[p].artifact)
  {
    var d, b := Detached(base, s), base.accessories[p].artifact;
    var k := Collected(d, b);
    ClashInside(base, order, id, s, p, q);
    assert id != b;
    CollectedFixpoint(d, b, id);
    FirstUntouched(base, gone, order, id, s, p, q);
    var t := (gone + {id}) - k;
    forall y | y in gone && Collectable(base, t, y) ensures y in t {
      CollectedFixpoint(d, b, y);
      if y in k {
        OneRowAt(base, Collected(base, id), y);
        FromBoth(base, d, t, k, y);
      }
    }
    assert ClosedWithin(base, t, gone);
  }

  lemma FirstUntouched(base: Db, gone: set<int>, order: Order, id: int, s: int, p: int, q: int)
    requires Derived(base, id, gone) && OneRowEach(base, Collected(base, id))
    requires s !in gone && s != id && ClashOf(base, order, s, p, q)
    requires base.accessories[p].artifact in Collected(base, id) && base.accessories[p].artifact != id
    ensures base.accessories[p].artifact !in gone
  {
    var b := base.accessories[p].artifact;
    var t := (gone + {id}) - {b};
    assert !HardAccessoryOf(base, t, b);
    assert !Collectable(base, t, b);
    assert ClosedWithin(base, t, gone);
  }

  /** With one accessory row, what is collectable from two sets hangs on something in both. */
  lemma FromBoth(base: Db, d: Db, t: set<int>, k: set<int>, y: int)
    requires d.references == base.references && FewerRows(base, d)
    requires Collectable(base, t, y) && Collectable(d, k, y)
    requires forall a, b :: a in base.accessories && b in base.accessories && a != b && base.accessories[a].artifact == y ==>
      base.accessories[b].artifact != y
    ensures t * k != {}
  {
    if base.HasParent(y) {
      var r :| r in base.references && base.references[r].child == y;
      assert base.references[r].parent in t * k;
    } else {
      assert !d.HasParent(y);
      var a :| a in base.accessories && base.accessories[a].artifact == y && base.accessories[a].subject in t;
      var b :| b in d.accessories && d.accessories[b].artifact == y && d.accessories[b].subject in k;
      assert a == b;
      assert base.accessories[a].subject in t * k;
    }
  }

  /** `c`, which goes now on behalf of `id`, is not among it either. */
  lemma ClashAvoids(base: Db, dropped: set<int>, gone: set<int>, order: Order, id: int, c: int, s: int, p: int, q: int)
    requires Reached(base, dropped, gone, id, c) && OneRowEach(base, Collected(base, id))
    requires s in Collected(base, id) && s !in gone && s != id && ClashOf(base, order, s, p, q)
    ensures c !in Collected(Detached(base, s), base.accessories[p].artifact)
  {
    var d, b := Detached(base, s), base.accessories[p].artifact;
    var k, cur := Collected(d, b), Underway(base, dropped, gone);
    ClashInside(base, order, id, s, p, q);
    ClashUntouched(base, gone, order, id, s, p, q);
    ReachedLifts(base, dropped, gone, id, c);
    CollectedFixpoint(d, b, c);
  }

  /** A clash is still one when the removal of `c` begins. */
  lemma ClashKept(base: Db, dropped: set<int>, gone: set<int>, order: Order, id: int, c: int, s: int, p: int, q: int)
    requires Reached(base, dropped, gone, id, c) && OneRowEach(base, Collected(base, id))
    requires s in Collected(base, id) && s !in gone && s != id && ClashOf(base, order, s, p, q)
    ensures ClashOf(Detached(Underway(base, dropped, gone), c), order, s, p, q)
  {
    var d, b, cur := Detached(base, s), base.accessories[p].artifact, Underway(base, dropped, gone);
    var now := Detached(cur, c);
    var k, a := Collected(d, b), base.accessories[q].artifact;
    ClashInside(base, order, id, s, p, q);
    ClashUntouched(base, gone, order, id, s, p, q);
    ClashAvoids(base, dropped, gone, order, id, c, s, p, q);
    CollectedIsClosed(d, b);
    assert p in now.accessories && q in now.accessories;
    StillCollected(base, dropped, gone, id, c, s, b, a);
  }

  /** What `b` took with it, it still takes: all of it, and all that listed it, is as it was. */
  lemma StillCollected(base: Db, dropped: set<int>, gone: set<int>, id: int, c: int, s: int, b: int, a: int)
    requires Reached(base, dropped, gone, id, c) && b in base.artifacts && a in Collected(Detached(base, s), b)
    requires var k := Collected(Detached(base, s), b); gone !! k && id !in k && c !in k && OneRowEach(base, k)
    ensures InEveryClosed(Detached(Detached(Underway(base, dropped, gone), c), s), b, a)
  {
    var d := Detached(base, s);
    var now, k := Detached(Detached(Underway(base, dropped, gone), c), s), Collected(d, b);
    forall x | x in k && x != b ensures Collectable(d, k, x) {
      CollectedFixpoint(d, b, x);
    }
    forall t: set<int> | b in t && Closed(now, t) ensures a in t {
      var u := t + (base.artifacts.Keys - k);
      forall x | Collectable(d, u, x) ensures x in u {
        assert x in base.artifacts;
        if x in k && x !in t {
          OneRowAt(base, k, x);
          ClashStep(base, dropped, gone, id, c, s, k, t, u, x);
        }
      }
      assert Closed(d, u);
      assert InEveryClosed(d, b, a);
    }
  }

  lemma OneRowAt(db: Db, k: set<int>, x: int)
    requires OneRowEach(db, k) && x in k
    ensures forall a, b :: a in db.accessories && b in db.accessories && a != b && db.accessories[a].artifact == x ==>
      db.accessories[b].artifact != x
  {
  }

  lemma ClashStep(base: Db, dropped: set<int>, gone: set<int>, id: int, c: int, s: int, k: set<int>, t: set<int>, u: set<int>, x: int)
    requires Reached(base, dropped, gone, id, c) && x in k && gone !! k && id !in k && c !in k
    requires u == t + (base.artifacts.Keys - k)
    requires Collectable(Detached(base, s), k, x) && Collectable(Detached(base, s), u, x)
    requires forall a, b :: a in base.accessories && b in base.accessories && a != b && base.accessories[a].artifact == x ==>
      base.accessories[b].artifact != x
    ensures Collectable(Detached(Detached(Underway(base, dropped, gone), c), s), t, x)
  {
    var d, now := Detached(base, s), Detached(Detached(Underway(base, dropped, gone), c), s);
    forall r | r in now.references && now.references[r].child == x ensures now.references[r].parent in t {
      assert r in d.references && d.references[r].parent in k && d.references[r].parent in u;
    }
    if HardAccessoryOf(d, u, x) {
      var a :| a in d.accessories && d.accessories[a].artifact == x && d.accessories[a].kind.IsHard() && d.accessories[a].subject in u;
      if HardAccessoryOf(d, k, x) {
        assert d.accessories[a].subject in k;
        assert a in now.accessories && now.accessories[a].subject in t;
      } else {
        StillChild(base, dropped, gone, id, c, s, k, x);
      }
    } else {
      StillChild(base, dropped, gone, id, c, s, k, x);
    }
  }

  lemma StillChild(base: Db, dropped: set<int>, gone: set<int>, id: int, c: int, s: int, k: set<int>, x: int)
    requires Reached(base, dropped, gone, id, c) && x in k && gone !! k && id !in k
    requires Collectable(Detached(base, s), k, x) && !base.Tagged(x) && base.HasParent(x)
    ensures var now := Detached(Detached(Underway(base, dropped, gone), c), s);
      x in now.artifacts && !now.Tagged(x) && now.HasParent(x)
  {
    var now := Detached(Detached(Underway(base, dropped, gone), c), s);
    var r :| r in base.references && base.references[r].child == x;
    assert r in Detached(base, s).references && base.references[r].parent in k;
    assert r in now.references;
    forall t | t in now.tags ensures now.tags[t].artifact != x {
      assert t in base.tags && base.tags[t] == now.tags[t];
    }
  }

  lemma JoinClash(base: Db, dropped: set<int>, gone: set<int>, more: set<int>, id: int, c: int, order: Order)
    requires Reached(base, dropped, gone, id, c) && Regular(base, id) && id !in more
    requires var cur := Underway(base, dropped, gone);
      && more <= cur.artifacts.Keys && Derived(cur, c, more)
      && (Regular(cur, c) ==> forall s :: s in more ==> !ClashAt(Detached(cur, c), order, s))
    ensures forall s :: s in more ==> !ClashAt(base, order, s)
  {
    var cur := Underway(base, dropped, gone);
    ReachedLifts(base, dropped, gone, id, c);
    NoTaggedChildAccessoryStays(base, cur, Collected(base, id), Collected(cur, c));
    forall s | s in more ensures !ClashAt(base, order, s) {
      DerivedIsCollected(cur, c, more, s);
      assert s in Collected(cur, c);
      if p, q :| ClashOf(base, order, s, p, q) {
        ClashKept(base, dropped, gone, order, id, c, s, p, q);
        assert ClashAt(Detached(cur, c), order, s);
      }
    }
  }

  // Failures one level down

  lemma BelowStays(base: Db, cur: Db, b: int, x: int)
    requires FewerRows(base, cur) && Below(cur, b, x)
    requires forall y :: y in cur.artifacts && base.Tagged(y) ==> cur.Tagged(y)
    ensures Below(base, b, x)
  {
    forall s: set<int> | b in s && (forall y :: HangsOn(base, s, y) ==> y in s) ensures x in s {
      forall y | HangsOn(cur, s, y) ensures y in s {
        assert HangsOn(base, s, y);
      }
    }
  }

  /** Under way, untagged children that are still there are still listed. */
  ghost predicate ChildrenListed(base: Db, cur: Db, c: int) {
    forall y :: y in cur.artifacts && y != c && !base.Tagged(y) && base.HasParent(y) ==> cur.HasParent(y)
  }

  lemma JoinTangled(base: Db, dropped: set<int>, gone: set<int>, id: int, c: int, order: Order)
    requires Reached(base, dropped, gone, id, c) && Underway(base, dropped, gone).Valid()
    requires ChildrenListed(base, Underway(base, dropped, gone), c)
    requires Tangled(Underway(base, dropped, gone), order, c) && c in Underway(base, dropped, gone).artifacts
    ensures Tangled(base, order, id)
  {
    var cur := Underway(base, dropped, gone);
    ReachedLifts(base, dropped, gone, id, c);
    var s, p, q :| TangledAt(cur, order, c, s, p, q);
    var b := cur.accessories[p].artifact;
    Lift(base, cur, gone + {id}, id, c, s);
    Lift(base, cur, gone + {id}, id, c, b);
    BelowStays(base, cur, b, cur.accessories[q].artifact);
    assert cur.Tagged(b) ==> base.Tagged(b);
    assert TangledAt(base, order, id, s, p, q);
  }

  /** A failure one level down, at `c`, is a failure of the removal of `id`. */
  lemma JoinFailure(base: Db, dropped: set<int>, gone: set<int>, id: int, c: int, env: Env, out: Outcome)
    requires Reached(base, dropped, gone, id, c) && Underway(base, dropped, gone).Valid()
    requires ChildrenListed(base, Underway(base, dropped, gone), c)
    requires Stuck(Underway(base, dropped, gone), env, c, out) && c in Underway(base, dropped, gone).artifacts
    ensures Stuck(base, env, id, out)
  {
    var cur := Underway(base, dropped, gone);
    if out.ImmutableTag? {
      ReachedLifts(base, dropped, gone, id, c);
      Lift(base, cur, gone + {id}, id, c, cur.tags[out.tag].artifact);
    } else {
      JoinTangled(base, dropped, gone, id, c, env.order);
    }
  }

  // The accessory loop

  ghost predicate LoadedAccessories(base: Db, env: Env, id: int, rows: seq<int>) {
    && (forall i :: 0 <= i < |rows| ==> rows[i] in base.accessories && base.accessories[rows[i]].subject == id)
    && (forall a :: a in base.accessories && base.accessories[a].subject == id ==> a in rows)
    && Sorted(rows, env.order.accessories)
  }

  ghost predicate HardAt(base: Db, rows: seq<int>, i: int)
    requires 0 <= i < |rows|
  {
    rows[i] in base.accessories && base.accessories[rows[i]].kind.IsHard()
  }

  /** A hard row whose accessory no index lists: the loop removes it. */
  ghost predicate UnlistedAt(base: Db, rows: seq<int>, i: int)
    requires 0 <= i < |rows|
  {
    HardAt(base, rows, i) && !base.HasParent(base.accessories[rows[i]].artifact)
  }

  /** Some hard row so far removed `x` with it. */
  ghost predicate Explained(base: Db, id: int, rows: seq<int>, k: int, x: int)
    requires 0 <= k <= |rows|
  {
    exists i :: 0 <= i < k && HardAt(base, rows, i) && Below(base, base.accessories[rows[i]].artifact, x)
      && TakenByRow(base, id, base.accessories[rows[i]].artifact)
  }

  /** The accessory of row `k` is not collected with that of row `i`. */
  ghost predicate NotTakenBy(base: Db, rows: seq<int>, i: int, k: int)
    requires 0 <= i < |rows| && 0 <= k < |rows|
  {
    && rows[i] in base.accessories && rows[k] in base.accessories
    && base.accessories[rows[k]].artifact !in Collected(base, base.accessories[rows[i]].artifact)
  }

  /** No row so far was for something an earlier one took with it. */
  ghost predicate NoClashSoFar(base: Db, rows: seq<int>, k: int)
    requires 0 <= k <= |rows|
  {
    forall i, j :: 0 <= i < j < k && UnlistedAt(base, rows, i) && HardAt(base, rows, j) ==> NotTakenBy(base, rows, i, j)
  }

  /** The accessory loop of the removal of `id` after its first `k` rows. */
  ghost predicate AccessoriesDone(base: Db, cur: Db, env: Env, id: int, rows: seq<int>, k: int, gone: set<int>)
    requires 0 <= k <= |rows|
  {
    && Cascade(base, cur, env, id, gone)
    && (forall i :: 0 <= i < k && UnlistedAt(base, rows, i) ==> base.accessories[rows[i]].artifact in gone)
    && (forall x :: x in gone ==> Explained(base, id, rows, k, x))
    && (NoTaggedChildAccessory(base, Collected(base, id)) ==> NoClashSoFar(base, rows, k))
  }

  lemma BusyStays(db: Db, gone: set<int>, busy: set<int>)
    requires Busy(db, busy) && gone !! busy
    ensures Busy(db.Without(gone), busy)
  {
    var cur := db.Without(gone);
    forall b | b in busy ensures !cur.HasParent(b) && !cur.IsAccessory(b) {
      assert !db.HasParent(b) && !db.IsAccessory(b);
    }
  }

  /** `base` as the accessory loop of `id` finds it. */
  ghost predicate Removing(base: Db, id: int, busy: set<int>) {
    base.Valid() && Busy(base, busy) && id in busy
  }

  lemma CutNothing(base: Db, gone: set<int>)
    ensures Underway(base, {}, gone) == base.Without(gone)
  {
    assert DropReferences(base, {}) == base;
  }

  lemma DetachedSame(base: Db, id: int)
    requires !base.IsAccessory(id)
    ensures Detached(base, id) == base
  {
    forall a | a in base.accessories ensures base.accessories[a].artifact != id {
    }
    assert Detached(base, id).accessories == base.accessories;
  }

  /** Removing `more` on behalf of an accessory `c` of `id` extends the cascade of `id`. */
  lemma CascadeJoin(base: Db, cur: Db, post: Db, env: Env, id: int, busy: set<int>, c: int, gone: set<int>, more: set<int>)
    requires Removing(base, id, busy) && id !in gone && id !in more && Cascade(base, cur, env, id, gone)
    requires Cascade(cur, post, env, c, more) && c in more && !cur.HasParent(c) && HardAccessoryOf(base, {id}, c)
    ensures Cascade(base, post, env, id, gone + more)
  {
    CutNothing(base, gone);
    assert Reached(base, {}, gone, id, c);
    JoinDerived(base, {}, gone, more, id, c);
    JoinTags(base, {}, gone, more, env.rules);
    WithoutTwice(base, gone, more);
    ClosedTwice(base, gone, more);
    DetachedSame(base, id);
    if Regular(base, id) {
      JoinClash(base, {}, gone, more, id, c, env.order);
    }
  }

  /** A row that found its accessory listed by an index changed nothing. */
  lemma NothingGone(cur: Db, post: Db, env: Env, c: int, isRoot: bool, busy: set<int>)
    requires Deleted(cur, post, env, c, isRoot, busy) && Gone(cur, post) == {}
    ensures post == cur
  {
    WithoutNothing(cur);
  }

  lemma AccessoryStep(base: Db, cur: Db, post: Db, env: Env, id: int, busy: set<int>, rows: seq<int>, k: int, gone: set<int>)
    requires Removing(base, id, busy) && gone !! busy && 0 <= k < |rows| && HardAt(base, rows, k)
    requires LoadedAccessories(base, env, id, rows) && AccessoriesDone(base, cur, env, id, rows, k, gone)
    requires var a := base.accessories[rows[k]].artifact; Deleted(cur, post, env, a, !cur.HasParent(a), busy)
    ensures AccessoriesDone(base, post, env, id, rows, k + 1, gone + Gone(cur, post))
  {
    hide Cascade, Explained, NoClashSoFar;
    var a, more := base.accessories[rows[k]].artifact, Gone(cur, post);
    RowIsHard(base, id, rows[k]);
    StepCascade(base, cur, post, env, id, busy, a, gone);
    StepExplained(base, cur, post, env, id, busy, rows, k, gone);
    StepNoClash(base, cur, post, env, id, busy, rows, k, gone);
    StepTakesUnlisted(base, cur, post, env, id, busy, a, gone);
  }

  lemma StepTakesUnlisted(base: Db, cur: Db, post: Db, env: Env, id: int, busy: set<int>, a: int, gone: set<int>)
    requires Cascade(base, cur, env, id, gone) && Deleted(cur, post, env, a, !cur.HasParent(a), busy)
    ensures !base.HasParent(a) ==> a in Gone(cur, post)
  {
    assert !base.HasParent(a) ==> !cur.HasParent(a);
  }

  lemma StepCascade(base: Db, cur: Db, post: Db, env: Env, id: int, busy: set<int>, a: int, gone: set<int>)
    requires Removing(base, id, busy) && gone !! busy && HardAccessoryOf(base, {id}, a)
    requires Cascade(base, cur, env, id, gone) && Deleted(cur, post, env, a, !cur.HasParent(a), busy)
    ensures Cascade(base, post, env, id, gone + Gone(cur, post))
  {
    var more := Gone(cur, post);
    if more == {} {
      NothingGone(cur, post, env, a, !cur.HasParent(a), busy);
      assert gone + more == gone;
    } else {
      CascadeJoin(base, cur, post, env, id, busy, a, gone, more);
    }
  }

  lemma RowIsHard(base: Db, id: int, p: int)
    requires HardRow(base, p, id)
    ensures HardAccessoryOf(base, {id}, base.accessories[p].artifact)
  {
    var one := {id};
    assert base.accessories[p].subject in one;
  }

  lemma StepExplained(base: Db, cur: Db, post: Db, env: Env, id: int, busy: set<int>, rows: seq<int>, k: int, gone: set<int>)
    requires Removing(base, id, busy) && gone !! busy && 0 <= k < |rows| && HardAt(base, rows, k)
    requires base.accessories[rows[k]].subject == id && Cascade(base, cur, env, id, gone)
    requires forall x :: x in gone ==> Explained(base, id, rows, k, x)
    requires var a := base.accessories[rows[k]].artifact; Deleted(cur, post, env, a, !cur.HasParent(a), busy)
    ensures forall x :: x in gone + Gone(cur, post) ==> Explained(base, id, rows, k + 1, x)
  {
    hide Cascade, Deleted, Below, TakenByRow, Removing;
    var a, more := base.accessories[rows[k]].artifact, Gone(cur, post);
    RowIsHard(base, id, rows[k]);
    forall x | x in gone + more ensures Explained(base, id, rows, k + 1, x) {
      if x in gone {
        assert Explained(base, id, rows, k, x);
      } else {
        RowTakes(base, cur, post, env, id, busy, a, gone, x);
        assert HardAt(base, rows, k);
      }
    }
  }

  lemma RowTakes(base: Db, cur: Db, post: Db, env: Env, id: int, busy: set<int>, a: int, gone: set<int>, x: int)
    requires Removing(base, id, busy) && gone !! busy && HardAccessoryOf(base, {id}, a)
    requires Cascade(base, cur, env, id, gone) && Deleted(cur, post, env, a, !cur.HasParent(a), busy)
    requires x in Gone(cur, post)
    ensures Below(base, a, x)
    ensures TakenByRow(base, id, a)
  {
    DerivedIsCollected(cur, a, Gone(cur, post), x);
    CollectedIsBelow(cur, a, x);
    CutNothing(base, gone);
    assert Reached(base, {}, gone, id, a);
    ReachedLifts(base, {}, gone, id, a);
    BelowStays(base, cur, a, x);
    ClosedIsSettled(base, gone);
    assert SettledAt(base, cur, gone, a);
    CollectedIsClosed(cur, a);
  }

  lemma StepNoClash(base: Db, cur: Db, post: Db, env: Env, id: int, busy: set<int>, rows: seq<int>, k: int, gone: set<int>)
    requires Removing(base, id, busy) && 0 <= k < |rows| && HardAt(base, rows, k)
    requires AccessoriesDone(base, cur, env, id, rows, k, gone)
    requires var a := base.accessories[rows[k]].artifact; Deleted(cur, post, env, a, !cur.HasParent(a), busy)
    ensures NoTaggedChildAccessory(base, Collected(base, id)) ==> NoClashSoFar(base, rows, k + 1)
  {
    assert id in base.artifacts;
    hide *;
    var a := base.accessories[rows[k]].artifact;
    RowIsThere(base, cur, post, env, id, a, gone, busy);
    if NoTaggedChildAccessory(base, Collected(base, id)) {
      forall i | 0 <= i < k && UnlistedAt(base, rows, i) ensures NotTakenBy(base, rows, i, k) {
        TakenBefore(base, cur, env, id, rows, k, gone, i);
      }
      DoneHasNoClash(base, cur, env, id, rows, k, gone);
      NoClashNext(base, rows, k);
    }
  }

  lemma TakenBefore(base: Db, cur: Db, env: Env, id: int, rows: seq<int>, k: int, gone: set<int>, i: int)
    requires 0 <= i < k < |rows| && UnlistedAt(base, rows, i) && HardAt(base, rows, k) && id in base.artifacts
    requires AccessoriesDone(base, cur, env, id, rows, k, gone) && NoTaggedChildAccessory(base, Collected(base, id))
    requires base.accessories[rows[k]].artifact !in gone
    ensures NotTakenBy(base, rows, i, k)
  {
    hide Cascade, Collected, NoTaggedChildAccessory, Explained, NoClashSoFar;
    ClosedTakes(base, cur, env, id, gone, base.accessories[rows[i]].artifact, base.accessories[rows[k]].artifact);
  }

  lemma NoClashNext(base: Db, rows: seq<int>, k: int)
    requires 0 <= k < |rows| && NoClashSoFar(base, rows, k)
    requires forall i :: 0 <= i < k && UnlistedAt(base, rows, i) ==> NotTakenBy(base, rows, i, k)
    ensures NoClashSoFar(base, rows, k + 1)
  {
    hide UnlistedAt, HardAt, NotTakenBy;
  }

  lemma DoneHasNoClash(base: Db, cur: Db, env: Env, id: int, rows: seq<int>, k: int, gone: set<int>)
    requires 0 <= k <= |rows| && AccessoriesDone(base, cur, env, id, rows, k, gone) && NoTaggedChildAccessory(base, Collected(base, id))
    ensures NoClashSoFar(base, rows, k)
  {
    hide Cascade, Explained, NoClashSoFar, NoTaggedChildAccessory, Collected;
  }

  lemma RowIsThere(base: Db, cur: Db, post: Db, env: Env, id: int, a: int, gone: set<int>, busy: set<int>)
    requires Cascade(base, cur, env, id, gone) && Deleted(cur, post, env, a, !cur.HasParent(a), busy)
    ensures a !in gone
  {
  }

  lemma ClosedTakes(base: Db, cur: Db, env: Env, id: int, gone: set<int>, b: int, a: int)
    requires Cascade(base, cur, env, id, gone) && NoTaggedChildAccessory(base, Collected(base, id))
    requires b in gone && a !in gone && id in base.artifacts
    ensures a !in Collected(base, b)
  {
    CascadeInside(base, cur, env, id, gone);
    SurelyIsClosed(base, id, gone);
    assert a in Collected(base, b) ==> InEveryClosed(base, b, a);
  }

  lemma AccessorySkip(base: Db, cur: Db, env: Env, id: int, rows: seq<int>, k: int, gone: set<int>)
    requires 0 <= k < |rows| && !HardAt(base, rows, k)
    requires AccessoriesDone(base, cur, env, id, rows, k, gone)
    ensures AccessoriesDone(base, cur, env, id, rows, k + 1, gone)
  {
    hide Cascade, Explained, NoClashSoFar;
    forall x | x in gone ensures Explained(base, id, rows, k + 1, x) {
      ExplainedStill(base, id, rows, k, x);
    }
    NoClashStill(base, rows, k);
  }

  lemma ExplainedStill(base: Db, id: int, rows: seq<int>, k: int, x: int)
    requires 0 <= k < |rows| && Explained(base, id, rows, k, x)
    ensures Explained(base, id, rows, k + 1, x)
  {
    hide Below, TakenByRow;
  }

  lemma NoClashStill(base: Db, rows: seq<int>, k: int)
    requires 0 <= k < |rows| && !HardAt(base, rows, k)
    ensures NoClashSoFar(base, rows, k) ==> NoClashSoFar(base, rows, k + 1)
  {
    hide Collected;
  }

  /** A loaded accessory is not under removal further up, and the recursion is closer to its end. */
  lemma LoadedIsFree(base: Db, cur: Db, env: Env, id: int, busy: set<int>, rows: seq<int>, k: int, gone: set<int>)
    requires Removing(base, id, busy) && 0 <= k < |rows|
    requires LoadedAccessories(base, env, id, rows) && AccessoriesDone(base, cur, env, id, rows, k, gone)
    ensures cur.Valid() && rows[k] in base.accessories && base.accessories[rows[k]].artifact !in busy
    ensures |cur.artifacts.Keys - busy| <= |base.artifacts.Keys - busy|
  {
    assert rows[k] in rows;
    assert base.IsAccessory(base.accessories[rows[k]].artifact);
    NotMore(cur.artifacts.Keys - busy, base.artifacts.Keys - busy);
  }

  /** The accessory of a row was taken by an earlier one. */
  lemma TakenIsTangled(base: Db, env: Env, id: int, busy: set<int>, rows: seq<int>, k: int, x: int)
    requires Removing(base, id, busy) && 0 <= k < |rows| && HardAt(base, rows, k)
    requires LoadedAccessories(base, env, id, rows)
    requires x == base.accessories[rows[k]].artifact && Explained(base, id, rows, k, x)
    ensures Tangled(base, env.order, id)
  {
    hide Below, TakenByRow;
    var i :| 0 <= i < k && HardAt(base, rows, i) && Below(base, base.accessories[rows[i]].artifact, x)
      && TakenByRow(base, id, base.accessories[rows[i]].artifact);
    var p, q := rows[i], rows[k];
    assert p in rows && q in rows;
    assert base.IsAccessory(base.accessories[p].artifact) && base.IsAccessory(base.accessories[q].artifact);
    assert InEveryClosed(base, id, id);
    assert TangledAt(base, env.order, id, id, p, q);
  }

  lemma ClosedLists(base: Db, env: Env, id: int, gone: set<int>, cur: Db, c: int)
    requires Cascade(base, cur, env, id, gone)
    ensures ChildrenListed(base, cur, c)
  {
    ClosedIsSettled(base, gone);
    forall y | y in cur.artifacts && !base.Tagged(y) && base.HasParent(y) ensures cur.HasParent(y) {
      assert SettledAt(base, cur, gone, y);
    }
  }

  lemma AccessoryFailure(base: Db, cur: Db, env: Env, id: int, busy: set<int>, rows: seq<int>, k: int, gone: set<int>, out: Outcome)
    requires Removing(base, id, busy) && gone !! busy && 0 <= k < |rows| && HardAt(base, rows, k)
    requires LoadedAccessories(base, env, id, rows) && AccessoriesDone(base, cur, env, id, rows, k, gone)
    requires var a := base.accessories[rows[k]].artifact; NotDeleted(cur, env, a, !cur.HasParent(a), out)
    ensures Stuck(base, env, id, out)
  {
    hide Explained, NoClashSoFar, Tangled;
    var row := rows[k];
    assert row in base.accessories;
    var a := base.accessories[row].artifact;
    assert a in base.artifacts;
    if a in cur.artifacts {
      RowIsHard(base, id, rows[k]);
      CutNothing(base, gone);
      assert Reached(base, {}, gone, id, a);
      ClosedLists(base, env, id, gone, cur, a);
      JoinFailure(base, {}, gone, id, a, env, out);
    } else {
      TakenIsTangled(base, env, id, busy, rows, k, a);
    }
  }

  lemma AccessoriesStart(base: Db, env: Env, id: int, rows: seq<int>)
    requires base.Valid()
    ensures AccessoriesDone(base, base, env, id, rows, 0, {})
  {
    WithoutNothing(base);
    assert Closed(base, {});
  }

  // The child loop

  /** The child loop of the removal of `id` after its first `k` references. */
  ghost predicate ChildrenDone(base: Db, cur: Db, env: Env, id: int, rows: seq<int>, k: int, gone: set<int>)
    requires 0 <= k <= |rows|
  {
    && gone <= base.artifacts.Keys && id !in gone
    && cur == Underway(base, Elems(rows[..k]), gone) && cur.Valid()
    && Derived(base, id, gone)
    && NoImmutableTag(base, env.rules, gone)
    && Settled(base, cur, gone + {id})
    && (Regular(base, id) ==> forall s :: s in gone + {id} ==> !ClashAt(base, env.order, s))
  }

  /** After the accessory loop every accessory of `id` is gone or still listed by an index. */
  lemma ChildrenStart(base: Db, cur: Db, env: Env, id: int, busy: set<int>, accs: seq<int>, rows: seq<int>, gone: set<int>)
    requires Removing(base, id, busy) && gone !! busy
    requires LoadedAccessories(base, env, id, accs) && AccessoriesDone(base, cur, env, id, accs, |accs|, gone)
    ensures ChildrenDone(base, cur, env, id, rows, 0, gone)
  {
    assert Elems(rows[..0]) == {};
    CutNothing(base, gone);
    hide Explained, ClashAt;
    StartSettled(base, cur, env, id, accs, gone);
    StartNoClash(base, cur, env, id, busy, accs, gone);
  }

  lemma StartSettled(base: Db, cur: Db, env: Env, id: int, accs: seq<int>, gone: set<int>)
    requires LoadedAccessories(base, env, id, accs) && AccessoriesDone(base, cur, env, id, accs, |accs|, gone)
    ensures Settled(base, cur, gone + {id})
  {
    hide Explained, NoClashSoFar, NoTaggedChildAccessory, Derived, ClashAt, Regular, LoadedAccessories, UnlistedAt, SettledAt;
    ClosedIsSettled(base, gone);
    forall x | x in cur.artifacts && x !in gone + {id} ensures SettledAt(base, cur, gone + {id}, x) {
      assert SettledAt(base, cur, gone, x);
      SubjectSettled(base, cur, env, id, accs, gone, x);
    }
  }

  lemma CascadeInside(base: Db, cur: Db, env: Env, id: int, gone: set<int>)
    requires Cascade(base, cur, env, id, gone)
    ensures gone <= Collected(base, id)
  {
    forall x | x in gone ensures x in Collected(base, id) {
      DerivedIsCollected(base, id, gone, x);
    }
  }

  /** An accessory of `id` that its row left is listed by an index. */
  lemma SubjectSettled(base: Db, cur: Db, env: Env, id: int, accs: seq<int>, gone: set<int>, x: int)
    requires LoadedAccessories(base, env, id, accs) && x !in gone && SettledAt(base, cur, gone, x)
    requires forall i :: 0 <= i < |accs| && UnlistedAt(base, accs, i) ==> base.accessories[accs[i]].artifact in gone
    ensures SettledAt(base, cur, gone + {id}, x)
  {
    if HardAccessoryOf(base, {id}, x) {
      AccessoryIsListed(base, env, id, accs, gone, x);
    }
    assert HardAccessoryOf(base, gone + {id}, x) ==> HardAccessoryOf(base, gone, x) || HardAccessoryOf(base, {id}, x);
  }

  lemma AccessoryIsListed(base: Db, env: Env, id: int, accs: seq<int>, gone: set<int>, x: int)
    requires LoadedAccessories(base, env, id, accs) && HardAccessoryOf(base, {id}, x) && x !in gone
    requires forall i :: 0 <= i < |accs| && UnlistedAt(base, accs, i) ==> base.accessories[accs[i]].artifact in gone
    ensures base.HasParent(x)
  {
    var a :| a in base.accessories && base.accessories[a].artifact == x
             && base.accessories[a].kind.IsHard() && base.accessories[a].subject == id;
    assert a in accs;
    var i :| 0 <= i < |accs| && accs[i] == a;
    assert HardAt(base, accs, i);
    assert UnlistedAt(base, accs, i) <==> !base.HasParent(x);
  }

  lemma StartNoClash(base: Db, cur: Db, env: Env, id: int, busy: set<int>, accs: seq<int>, gone: set<int>)
    requires Removing(base, id, busy)
    requires LoadedAccessories(base, env, id, accs) && AccessoriesDone(base, cur, env, id, accs, |accs|, gone)
    ensures Regular(base, id) ==> forall s :: s in gone + {id} ==> !ClashAt(base, env.order, s)
  {
    hide Explained, Closed, Derived, LoadedAccessories, ClashAt, NoClashSoFar;
    DetachedSame(base, id);
    if Regular(base, id) {
      NoClashHere(base, env, id, accs);
    }
  }

  lemma NoClashHere(base: Db, env: Env, id: int, accs: seq<int>)
    requires LoadedAccessories(base, env, id, accs) && NoClashSoFar(base, accs, |accs|) && Detached(base, id) == base
    ensures !ClashAt(base, env.order, id)
  {
    hide Collected;
    forall p, q | HardRow(base, p, id) && HardRow(base, q, id) && env.order.accessories(p) < env.order.accessories(q)
      && !base.HasParent(base.accessories[p].artifact)
      ensures !ClashOf(base, env.order, id, p, q)
    {
      assert p in accs && q in accs;
      var i :| 0 <= i < |accs| && accs[i] == p;
      var j :| 0 <= j < |accs| && accs[j] == q;
      assert i < j;
      assert UnlistedAt(base, accs, i) && HardAt(base, accs, j);
    }
  }

  ghost predicate LoadedReferences(base: Db, env: Env, id: int, rows: seq<int>) {
    && (forall i :: 0 <= i < |rows| ==> rows[i] in base.references && base.references[rows[i]].parent == id)
    && (forall r :: r in base.references && base.references[r].parent == id ==> r in rows)
    && Sorted(rows, env.order.references)
  }

  ghost predicate LoadedTags(base: Db, id: int, rows: seq<int>) {
    && (forall t :: t in rows <==> t in base.tags && base.tags[t].artifact == id)
    && (forall i, j :: 0 <= i < j < |rows| ==> rows[i] != rows[j])
  }

  lemma TakeOneMore(rows: seq<int>, k: int)
    requires 0 <= k < |rows|
    ensures Elems(rows[..k + 1]) == Elems(rows[..k]) + {rows[k]}
  {
    assert rows[..k + 1] == rows[..k] + [rows[k]];
  }

  /** Cutting one reference and deleting its child, if that was the last one, keeps everything settled. */
  lemma ChildSettled(base: Db, cur: Db, cut: Db, post: Db, id: int, r: int, gone: set<int>, more: set<int>)
    requires base.Valid() && id !in gone
    requires Shrunk(base, cut, gone + {id}) && RowsKept(base, cut, gone + {id})
    requires r in cur.references && r in base.references && cur.references[r] == base.references[r]
    requires cut == DropReferences(cur, {r}) && cut.references.Keys <= base.references.Keys
    requires cut.artifacts.Keys == base.artifacts.Keys - gone
    requires Settled(base, cur, gone + {id}) && SurelyClosed(cut, more) && post == cut.Without(more)
    requires base.references[r].child in more || (more == {} && (cut.Tagged(base.references[r].child) || cut.HasParent(base.references[r].child)))
    ensures Settled(base, post, gone + more + {id})
  {
    var child := base.references[r].child;
    assert gone + more + {id} == (gone + {id}) + more;
    forall x | x in post.artifacts && x !in gone + more + {id} ensures SettledAt(base, post, gone + more + {id}, x) {
      assert SettledAt(base, cur, gone + {id}, x);
      if x != child {
        StillHasParent(cur, cut, r, x);
        SettledStep(base, cut, gone + {id}, more, x);
      } else if cut.HasParent(x) {
        WithoutNothing(cut);
      }
    }
  }

  lemma StillHasParent(cur: Db, cut: Db, r: int, x: int)
    requires cut == DropReferences(cur, {r}) && r in cur.references && cur.references[r].child != x
    ensures cur.HasParent(x) ==> cut.HasParent(x)
  {
    if cur.HasParent(x) {
      var q :| q in cur.references && cur.references[q].child == x;
      assert q in cut.references;
    }
  }

  /** The next child is about to lose one parent. */
  ghost predicate Cutting(base: Db, cur: Db, env: Env, id: int, busy: set<int>, rows: seq<int>, k: int, gone: set<int>) {
    && Removing(base, id, busy) && gone !! busy && 0 <= k < |rows|
    && LoadedReferences(base, env, id, rows) && ChildrenDone(base, cur, env, id, rows, k, gone)
  }

  /** The state right after the cut. */
  lemma CutState(base: Db, cur: Db, env: Env, id: int, busy: set<int>, rows: seq<int>, k: int, gone: set<int>)
    requires Cutting(base, cur, env, id, busy, rows, k, gone)
    ensures rows[k] in cur.references && rows[k] in base.references && cur.references[rows[k]] == base.references[rows[k]]
    ensures base.references[rows[k]].parent == id
    ensures DropReferences(cur, {rows[k]}) == Underway(base, Elems(rows[..k + 1]), gone)
    ensures forall r :: r in Elems(rows[..k + 1]) && r in base.references ==> base.references[r].parent == id
  {
    var r := rows[k];
    TakeOneMore(rows, k);
    UnderwayCut(base, Elems(rows[..k]), gone, r);
    assert forall i :: 0 <= i < k ==> rows[i] != r;
    assert r !in rows[..k];
  }

  lemma ChildStep(base: Db, cur: Db, post: Db, env: Env, id: int, busy: set<int>, rows: seq<int>, k: int, gone: set<int>)
    requires Cutting(base, cur, env, id, busy, rows, k, gone) && rows[k] in base.references
    requires Deleted(DropReferences(cur, {rows[k]}), post, env, base.references[rows[k]].child, false, busy)
    ensures ChildrenDone(base, post, env, id, rows, k + 1, gone + Gone(DropReferences(cur, {rows[k]}), post))
  {
    var r := rows[k];
    var c, cut, dropped := base.references[r].child, DropReferences(cur, {r}), Elems(rows[..k + 1]);
    var more := Gone(cut, post);
    CutState(base, cur, env, id, busy, rows, k, gone);
    UnderwayShrinks(base, dropped, gone, gone + {id});
    UnderwayMore(base, dropped, gone, more);
    hide ClashAt, Derived, NoImmutableTag;
    ChildJoins(base, dropped, cut, post, env, id, busy, c, gone);
    ChildSettles(base, cur, post, env, id, busy, rows, k, gone);
  }

  lemma ChildJoins(base: Db, dropped: set<int>, cut: Db, post: Db, env: Env, id: int, busy: set<int>, c: int, gone: set<int>)
    requires Removing(base, id, busy) && gone <= base.artifacts.Keys && id !in gone && cut == Underway(base, dropped, gone)
    requires forall r :: r in dropped && r in base.references ==> base.references[r].parent == id
    requires ChildOf(base, id, c) && Derived(base, id, gone) && NoImmutableTag(base, env.rules, gone)
    requires Regular(base, id) ==> forall s :: s in gone + {id} ==> !ClashAt(base, env.order, s)
    requires Deleted(cut, post, env, c, false, busy)
    ensures var more := Gone(cut, post);
      && Derived(base, id, gone + more) && NoImmutableTag(base, env.rules, gone + more)
      && (Regular(base, id) ==> forall s :: s in gone + more + {id} ==> !ClashAt(base, env.order, s))
      && (more != {} ==> Reached(base, dropped, gone, id, c))
  {
    var more := Gone(cut, post);
    if more == {} {
      assert gone + more == gone;
    } else {
      UntaggedBefore(base, dropped, gone, c);
      assert Reached(base, dropped, gone, id, c);
      JoinDerived(base, dropped, gone, more, id, c);
      JoinTags(base, dropped, gone, more, env.rules);
      if Regular(base, id) {
        JoinClash(base, dropped, gone, more, id, c, env.order);
      }
    }
  }

  lemma UntaggedBefore(base: Db, dropped: set<int>, gone: set<int>, c: int)
    requires c in Underway(base, dropped, gone).artifacts && !Underway(base, dropped, gone).Tagged(c)
    ensures c in base.artifacts && !base.Tagged(c)
  {
    var cur := Underway(base, dropped, gone);
    forall t | t in base.tags && base.tags[t].artifact == c ensures t in cur.tags {
    }
  }

  lemma ChildSettles(base: Db, cur: Db, post: Db, env: Env, id: int, busy: set<int>, rows: seq<int>, k: int, gone: set<int>)
    requires Cutting(base, cur, env, id, busy, rows, k, gone) && rows[k] in base.references
    requires Deleted(DropReferences(cur, {rows[k]}), post, env, base.references[rows[k]].child, false, busy)
    ensures Settled(base, post, gone + Gone(DropReferences(cur, {rows[k]}), post) + {id})
  {
    var r := rows[k];
    var c, cut := base.references[r].child, DropReferences(cur, {r});
    CutState(base, cur, env, id, busy, rows, k, gone);
    ChildEnds(cut, post, env, c, busy);
    hide Deleted, Cascade, Derived, NoImmutableTag, ClashAt, Underway, NoTaggedChildAccessory;
    UnderwayShrinks(base, Elems(rows[..k + 1]), gone, gone + {id});
    CutShape(base, Elems(rows[..k + 1]), gone);
    ChildSettled(base, cur, cut, post, id, r, gone, Gone(cut, post));
  }

  lemma CutShape(base: Db, dropped: set<int>, gone: set<int>)
    ensures var cut := Underway(base, dropped, gone);
      cut.artifacts.Keys == base.artifacts.Keys - gone && cut.references.Keys <= base.references.Keys
  {
  }

  lemma ChildEnds(cut: Db, post: Db, env: Env, c: int, busy: set<int>)
    requires Deleted(cut, post, env, c, false, busy)
    ensures post == cut.Without(Gone(cut, post)) && SurelyClosed(cut, Gone(cut, post))
    ensures c in cut.artifacts && c !in Gone(cut, post) ==> Gone(cut, post) == {} && (cut.Tagged(c) || cut.HasParent(c))
  {
  }

  /** The next child is not under removal further up. */
  lemma ChildIsFree(base: Db, cur: Db, env: Env, id: int, busy: set<int>, rows: seq<int>, k: int, gone: set<int>)
    requires Cutting(base, cur, env, id, busy, rows, k, gone)
    ensures rows[k] in cur.references && rows[k] in base.references && cur.references[rows[k]] == base.references[rows[k]]
    ensures base.references[rows[k]].child !in busy
    ensures DropReferences(cur, {rows[k]}).Valid() && Busy(DropReferences(cur, {rows[k]}), busy)
  {
    CutState(base, cur, env, id, busy, rows, k, gone);
    var cut, r := DropReferences(cur, {rows[k]}), rows[k];
    assert r in base.references;
    assert base.HasParent(base.references[r].child);
    forall b | b in busy ensures !cut.HasParent(b) && !cut.IsAccessory(b) {
      assert !base.HasParent(b) && !base.IsAccessory(b);
    }
  }

  lemma ChildFailure(base: Db, cur: Db, env: Env, id: int, busy: set<int>, rows: seq<int>, k: int, gone: set<int>, out: Outcome)
    requires Cutting(base, cur, env, id, busy, rows, k, gone) && rows[k] in base.references
    requires NotDeleted(DropReferences(cur, {rows[k]}), env, base.references[rows[k]].child, false, out)
    ensures Stuck(base, env, id, out)
  {
    var r := rows[k];
    var c, cut, dropped := base.references[r].child, DropReferences(cur, {r}), Elems(rows[..k + 1]);
    CutState(base, cur, env, id, busy, rows, k, gone);
    ChildIsFree(base, cur, env, id, busy, rows, k, gone);
    UntaggedBefore(base, dropped, gone, c);
    assert ChildOf(base, id, c);
    assert Reached(base, dropped, gone, id, c);
    forall y | y in cut.artifacts && y != c && !base.Tagged(y) && base.HasParent(y) ensures cut.HasParent(y) {
      assert y != id && y !in gone;
      assert SettledAt(base, cur, gone + {id}, y);
      StillHasParent(cur, cut, r, y);
    }
    JoinFailure(base, dropped, gone, id, c, env, out);
  }

  // The removal as a whole

  lemma DetachedIsDropped(pre: Db, id: int)
    requires pre.Valid() && id in pre.artifacts
    ensures DropAccessory(pre, id, pre.artifacts[id].digest) == Detached(pre, id)
    ensures !pre.IsAccessory(id) ==> pre == Detached(pre, id)
  {
    var l, r := DropAccessory(pre, id, pre.artifacts[id].digest).accessories, Detached(pre, id).accessories;
    forall a | a in pre.accessories ensures a in l <==> a in r {
      assert pre.accessories[a].artifact in pre.artifacts;
    }
    assert l == r;
    if !pre.IsAccessory(id) {
      forall a | a in pre.accessories ensures a in r {
        assert pre.accessories[a].artifact != id;
      }
      assert pre.accessories == r;
    }
  }

  lemma DetachedRows(pre: Db, env: Env, id: int)
    requires pre.Valid()
    ensures Detached(pre, id).artifacts == pre.artifacts && FewerRows(pre, Detached(pre, id))
    ensures forall rows :: LoadedReferences(pre, env, id, rows) ==> LoadedReferences(Detached(pre, id), env, id, rows)
    ensures forall rows :: LoadedAccessories(pre, env, id, rows) ==> LoadedAccessories(Detached(pre, id), env, id, rows)
  {
    var base := Detached(pre, id);
    forall rows | LoadedAccessories(pre, env, id, rows) ensures LoadedAccessories(base, env, id, rows) {
      forall i | 0 <= i < |rows| ensures rows[i] in base.accessories {
        var a := rows[i];
        assert a in pre.accessories && pre.accessories[a].subject == id;
        assert pre.accessories[a].artifact != pre.accessories[a].subject;
      }
    }
  }

  lemma DetachedLift(pre: Db, id: int, x: int)
    requires InEveryClosed(Detached(pre, id), id, x)
    ensures InEveryClosed(pre, id, x)
  {
    forall s: set<int> | id in s && Closed(pre, s) ensures x in s {
      ShrunkKeepsClosed(pre, Detached(pre, id), s);
    }
  }

  lemma DetachedCollected(pre: Db, id: int)
    ensures Collected(Detached(pre, id), id) <= Collected(pre, id)
    ensures NoTaggedChildAccessory(pre, Collected(pre, id)) ==> NoTaggedChildAccessory(Detached(pre, id), Collected(Detached(pre, id), id))
    ensures Regular(pre, id) ==> Regular(Detached(pre, id), id)
  {
    var base := Detached(pre, id);
    forall x | x in Collected(base, id) ensures x in Collected(pre, id) {
      DetachedLift(pre, id, x);
    }
    NoTaggedChildAccessoryStays(pre, base, Collected(pre, id), Collected(base, id));
  }

  lemma DetachedStuck(pre: Db, env: Env, id: int, out: Outcome)
    requires Stuck(Detached(pre, id), env, id, out)
    ensures Stuck(pre, env, id, out)
  {
    var base := Detached(pre, id);
    if out.ImmutableTag? {
      DetachedLift(pre, id, pre.tags[out.tag].artifact);
    } else {
      var s, p, q :| TangledAt(base, env.order, id, s, p, q);
      DetachedLift(pre, id, s);
      DetachedLift(pre, id, base.accessories[p].artifact);
      BelowStays(pre, base, base.accessories[p].artifact, base.accessories[q].artifact);
      DetachedCollected(pre, id);
      assert TangledAt(pre, env.order, id, s, p, q);
    }
  }

  lemma DetachedReady(pre: Db, id: int, busy: set<int>)
    requires pre.Valid() && Busy(pre, busy) && id in pre.artifacts && !pre.HasParent(id)
    ensures Detached(pre, id).Valid() && Busy(Detached(pre, id), busy + {id})
  {
    var base := Detached(pre, id);
    forall b | b in busy + {id} ensures !base.HasParent(b) && !base.IsAccessory(b) {
      if b in busy {
        assert !pre.HasParent(b) && !pre.IsAccessory(b);
      } else {
        assert !pre.HasParent(b);
      }
    }
  }

  lemma DetachedClosed(pre: Db, cur: Db, env: Env, id: int, rows: seq<int>, gone: set<int>)
    requires id in pre.artifacts && LoadedReferences(pre, env, id, rows)
    requires ChildrenDone(Detached(pre, id), cur, env, id, rows, |rows|, gone)
    ensures SurelyClosed(pre, gone + {id})
  {
    var base := Detached(pre, id);
    assert rows[..|rows|] == rows;
    forall r | r in cur.references
      ensures r in base.references && cur.references[r] == base.references[r] && cur.references[r].parent !in gone + {id}
    {
      assert base.references[r].parent == id ==> r in rows;
    }
    SettledIsClosed(base, cur, gone + {id});
    forall x | Collectable(pre, gone + {id}, x) && !TaggedChild(pre, x) ensures x in gone + {id} {
      if x != id {
        DetachedHard(pre, id, gone + {id}, x);
        assert Collectable(base, gone + {id}, x);
      }
    }
  }

  lemma DetachedHard(pre: Db, id: int, s: set<int>, x: int)
    requires x != id
    ensures HardAccessoryOf(pre, s, x) ==> HardAccessoryOf(Detached(pre, id), s, x)
  {
    if HardAccessoryOf(pre, s, x) {
      var a :| a in pre.accessories && pre.accessories[a].artifact == x
               && pre.accessories[a].kind.IsHard() && pre.accessories[a].subject in s;
      assert a in Detached(pre, id).accessories;
    }
  }

  /** The last writes: tags, reference rows, the artifact row, the trash record. */
  ghost function Erased(cur: Db, id: int): Db
    requires id in cur.artifacts
  {
    cur.(tags := map t | t in cur.tags && cur.tags[t].artifact != id :: cur.tags[t],
         references := map r | r in cur.references && cur.references[r].parent != id :: cur.references[r],
         artifacts := cur.artifacts - {id},
         trash := cur.trash + {(cur.artifacts[id].repository, cur.artifacts[id].digest)})
  }

  lemma ErasedState(pre: Db, id: int, rows: seq<int>, gone: set<int>)
    requires id in pre.artifacts && id !in gone
    requires forall i :: 0 <= i < |rows| ==> rows[i] in pre.references && pre.references[rows[i]].parent == id
    requires forall r :: r in pre.references && pre.references[r].parent == id ==> r in rows
    ensures Erased(Underway(Detached(pre, id), Elems(rows), gone), id) == pre.Without(gone + {id})
  {
    var fin := Erased(Underway(Detached(pre, id), Elems(rows), gone), id);
    var want := pre.Without(gone + {id});
    assert fin.artifacts == want.artifacts;
    forall r | r in pre.references ensures r in fin.references <==> r in want.references {
      assert r in Elems(rows) <==> pre.references[r].parent == id;
    }
    assert fin.references == want.references;
    assert fin.accessories == want.accessories;
    assert fin.tags == want.tags;
    assert fin.trash == want.trash;
  }

  lemma DetachedTags(pre: Db, rules: Rules, id: int, gone: set<int>)
    requires NoImmutableTag(Detached(pre, id), rules, gone) && NoImmutableTag(pre, rules, {id})
    ensures NoImmutableTag(pre, rules, gone + {id})
  {
    forall t | t in pre.tags && pre.tags[t].artifact in gone ensures !Immutable(pre, rules, pre.tags[t]) {
      assert !Immutable(Detached(pre, id), rules, pre.tags[t]);
    }
  }

  lemma ErasedValid(pre: Db, rows: set<int>, id: int, gone: set<int>)
    requires id in pre.artifacts && id !in gone && !pre.HasParent(id)
    requires Underway(Detached(pre, id), rows, gone).Valid()
    ensures Erased(Underway(Detached(pre, id), rows, gone), id).Valid()
  {
    var cur := Underway(Detached(pre, id), rows, gone);
    forall r | r in cur.references ensures cur.references[r].child != id {
      assert r in pre.references;
    }
  }

  lemma DetachedDerived(pre: Db, id: int, gone: set<int>)
    requires Derived(Detached(pre, id), id, gone)
    ensures Derived(pre, id, gone + {id})
  {
    var base := Detached(pre, id);
    forall s: set<int> | id in s && ClosedWithin(pre, s, gone + {id}) ensures gone + {id} <= s {
      forall x | x in gone && Collectable(base, s, x) ensures x in s {
        assert HardAccessoryOf(base, s, x) ==> HardAccessoryOf(pre, s, x);
        assert Collectable(pre, s, x);
      }
      assert ClosedWithin(base, s, gone);
    }
  }

  lemma Finish(pre: Db, cur: Db, env: Env, id: int, rows: seq<int>, gone: set<int>)
    requires pre.Valid() && id in pre.artifacts && !pre.HasParent(id) && LoadedReferences(pre, env, id, rows)
    requires ChildrenDone(Detached(pre, id), cur, env, id, rows, |rows|, gone)
    requires NoImmutableTag(pre, env.rules, {id})
    ensures Cascade(pre, Erased(cur, id), env, id, gone + {id})
  {
    hide Detached, Erased, Underway, NoImmutableTag, NoTaggedChildAccessory, SurelyClosed, ClashAt, Derived, Regular;
    assert rows[..|rows|] == rows;
    DetachedRows(pre, env, id);
    DetachedCollected(pre, id);
    ErasedState(pre, id, rows, gone);
    DetachedDerived(pre, id, gone);
    DetachedTags(pre, env.rules, id, gone);
    DetachedClosed(pre, cur, env, id, rows, gone);
    ErasedValid(pre, Elems(rows), id, gone);
  }

  /** Nothing but the tags of `id` needs it any more, and those are the ones loaded at the start. */
  lemma EraseReady(pre: Db, cur: Db, env: Env, id: int, isRoot: bool, tagRows: seq<int>, rows: seq<int>, gone: set<int>)
    requires pre.Valid() && Proceeds(pre, id, isRoot)
    requires ChildrenDone(Detached(pre, id), cur, env, id, rows, |rows|, gone)
    requires LoadedTags(pre, id, tagRows)
    ensures id in cur.artifacts && cur.artifacts[id] == pre.artifacts[id] && !cur.HasParent(id) && !cur.IsAccessory(id)
    ensures LoadedTags(cur, id, tagRows)
    ensures forall t :: t in cur.tags && cur.tags[t].artifact == id ==> cur.tags[t] == pre.tags[t]
    ensures isRoot || !cur.Tagged(id)
    ensures NoImmutableTag(cur, env.rules, {id}) ==> NoImmutableTag(pre, env.rules, {id})
  {
    forall r | r in cur.references ensures cur.references[r].child != id {
      assert r in pre.references;
    }
    forall t | t in pre.tags && pre.tags[t].artifact == id ensures t in cur.tags && cur.tags[t] == pre.tags[t] {
    }
    forall t | t in cur.tags ensures t in pre.tags && cur.tags[t] == pre.tags[t] {
    }
  }

  lemma RemovedFinally(pre: Db, post: Db, env: Env, id: int, isRoot: bool, busy: set<int>, gone: set<int>)
    requires Proceeds(pre, id, isRoot) && Busy(pre, busy) && id !in busy
    requires Cascade(pre, post, env, id, gone + {id}) && gone !! busy
    ensures Deleted(pre, post, env, id, isRoot, busy) && Busy(post, busy)
  {
    assert Gone(pre, post) == gone + {id};
    BusyStays(pre, gone + {id}, busy);
  }

  /** An in-toto attestation is only removed together with its subject. */
  predicate AttestationBlocks(db: Db, id: int) {
    exists a :: a in db.accessories && db.accessories[a].artifact == id
                && db.accessories[a].kind.InTotoAttestation? && db.accessories[a].subject in db.artifacts
  }

  ghost predicate Deletable(db: Db, rules: Rules, id: int) {
    && id in db.artifacts && !db.HasParent(id) && !AttestationBlocks(db, id)
    && NoImmutableTag(db, rules, Collected(db, id))
  }

  /** Every way a delete is refused; a foreign key violation is not among them. */
  ghost predicate DeleteRefused(db: Db, env: Env, id: int, out: Outcome) {
    match out
    case AttestationInUse => AttestationBlocks(db, id)
    case NotFound => id !in db.artifacts || Tangled(db, env.order, id)
    case Referenced => db.HasParent(id)
    case ImmutableTag(t) =>
      t in db.tags && Immutable(db, env.rules, db.tags[t]) && db.tags[t].artifact in Collected(db, id)
    case _ => false
  }

  /** Somewhere in what is collected for `id` the row of an accessory comes after another one that
      takes it away. */
  ghost predicate Clash(db: Db, order: Order, id: int) {
    exists s :: s in Collected(db, id) && ClashAt(Detached(db, id), order, s)
  }

  /** Two hard accessories of `s`, the first unlisted and the second below it. */
  ghost predicate BesideAndBelow(db: Db, id: int, s: int, p: int, q: int) {
    && s in Collected(db, id) && HardRow(db, p, s) && HardRow(db, q, s)
    && db.accessories[p].artifact != id && db.accessories[q].artifact != id
    && !db.HasParent(db.accessories[p].artifact)
    && Below(db, db.accessories[p].artifact, db.accessories[q].artifact)
  }

  /** Such an accessory is collected with the first: nothing else lists what lies between. */
  ghost predicate Separate(db: Db, id: int) {
    forall s, p, q :: BesideAndBelow(db, id, s, p, q) ==>
      db.accessories[q].artifact in Collected(Detached(Detached(db, id), s), db.accessories[p].artifact)
  }

  ghost predicate Strict(order: Order) {
    forall p, q :: p != q ==> order.accessories(p) != order.accessories(q)
  }

  /** Where nothing below an accessory is listed from elsewhere, the two conditions are one. */
  lemma TangledIsClash(db: Db, order: Order, id: int)
    requires db.Valid() && id in db.artifacts && Regular(db, id) && Separate(db, id) && Strict(order) && Tangled(db, order, id)
    ensures Clash(db, order, id)
  {
    hide Below, Collected, InEveryClosed, Detached;
    var s, p, q :| TangledAt(db, order, id, s, p, q);
    SubjectIsCollected(db, id, s);
    SubjectIsCollected(db, id, db.accessories[p].artifact);
    assert !db.HasParent(db.accessories[p].artifact);
    assert BesideAndBelow(db, id, s, p, q);
    assert order.accessories(p) != order.accessories(q);
    ClashInDetached(db, order, id, s, p, q);
  }

  lemma SubjectIsCollected(db: Db, id: int, s: int)
    requires id in db.artifacts && InEveryClosed(db, id, s)
    ensures s in Collected(db, id)
  {
    CollectedIsClosed(db, id);
  }

  lemma ClashInDetached(db: Db, order: Order, id: int, s: int, p: int, q: int)
    requires BesideAndBelow(db, id, s, p, q) && order.accessories(p) < order.accessories(q)
    requires db.accessories[q].artifact in Collected(Detached(Detached(db, id), s), db.accessories[p].artifact)
    ensures ClashOf(Detached(db, id), order, s, p, q)
  {
    hide Below, Collected;
  }

  lemma DeletedShrinks(cur: Db, post: Db, env: Env, c: int, isRoot: bool, busy: set<int>)
    requires Deleted(cur, post, env, c, isRoot, busy)
    ensures post.artifacts.Keys <= cur.artifacts.Keys && Gone(cur, post) !! busy
  {
  }

  lemma DeletedWhole(pre: Db, post: Db, env: Env, id: int)
    requires pre.Valid() && Deleted(pre, post, env, id, true, {}) && !AttestationBlocks(pre, id)
    ensures id in Gone(pre, post) && Surely(pre, id) <= Gone(pre, post) <= Collected(pre, id)
    ensures SurelyClosed(pre, Gone(pre, post)) && Justified(pre, id, Gone(pre, post))
    ensures NoTaggedChildAccessory(pre, Collected(pre, id)) ==> Gone(pre, post) == Collected(pre, id) && Deletable(pre, env.rules, id)
    ensures Regular(pre, id) ==> !Clash(pre, env.order, id)
    ensures Regular(pre, id) && Separate(pre, id) && Strict(env.order) ==> !Clash(pre, env.order, id)
  {
    var gone := Gone(pre, post);
    hide ClashAt;
    DerivedIsJustified(pre, id, gone);
    forall x | x in gone ensures x in Collected(pre, id) {
      DerivedIsCollected(pre, id, gone, x);
    }
    forall x | x in Surely(pre, id) ensures x in gone {
      assert InEverySurelyClosed(pre, id, x);
    }
    SurelyIsCollected(pre, id);
  }

  lemma RefusedWhole(pre: Db, env: Env, id: int, out: Outcome)
    requires pre.Valid() && NotDeleted(pre, env, id, true, out) && !AttestationBlocks(pre, id)
    ensures DeleteRefused(pre, env, id, out)
    ensures Deletable(pre, env.rules, id) ==> out.NotFound? && Tangled(pre, env.order, id)
    ensures Deletable(pre, env.rules, id) && Regular(pre, id) && Separate(pre, id) && Strict(env.order) ==> Clash(pre, env.order, id)
  {
    hide Tangled, Clash, Separate, Regular;
    if out.ImmutableTag? && Proceeds(pre, id, true) {
      assert pre.tags[out.tag].artifact in Collected(pre, id);
    }
    assert Deletable(pre, env.rules, id) ==> id in pre.artifacts;
    if Deletable(pre, env.rules, id) && Regular(pre, id) && Separate(pre, id) && Strict(env.order) {
      TangledIsClash(pre, env.order, id);
    }
  }
}
