/** The recursive delete as a function of the rows and of the order they are returned in. */
module Replay {
  import opened Registry
  import opened Removal
  import opened Sets

  datatype Kind = Missing | StillListed | Immutably

  datatype Sim = Done(db: Db) | Fails(kind: Kind)

  function KindOf(out: Outcome): Kind {
    match out
    case ImmutableTag(_) => Immutably
    case Referenced => StillListed
    case _ => Missing
  }

  ghost predicate Simulates(sim: Sim, out: Outcome, db: Db) {
    if out.Ok? then sim == Done(db) else sim == Fails(KindOf(out))
  }

  /** No two rows of a table are returned in the same place. */
  ghost predicate Total(order: Order) {
    Distinguishes(order.accessories) && Distinguishes(order.references)
  }

  ghost predicate Distinguishes(order: int -> int) {
    forall p, q :: p != q ==> order(p) != order(q)
  }

  ghost predicate IsRows(q: seq<int>, s: set<int>, order: int -> int) {
    (forall x :: x in s ==> x in q) && (forall i :: 0 <= i < |q| ==> q[i] in s) && Sorted(q, order)
  }

  /** The rows of `s` in the order they are returned. */
  ghost function RowsBy(s: set<int>, order: int -> int): seq<int> {
    if exists q :: IsRows(q, s, order) then var q :| IsRows(q, s, order); q else []
  }

  /** There is only one way to sort by an order that tells rows apart. */
  lemma RowsByIs(s: set<int>, order: int -> int, q: seq<int>)
    requires Distinguishes(order) && IsRows(q, s, order)
    ensures RowsBy(s, order) == q
  {
    hide IsRows;
    RowsUnique(s, order, q, RowsBy(s, order));
  }

  lemma {:induction false} RowsUnique(s: set<int>, order: int -> int, q: seq<int>, p: seq<int>)
    requires Distinguishes(order) && IsRows(q, s, order) && IsRows(p, s, order)
    ensures q == p
    decreases |q|
  {
    if q == [] {
      if p != [] {
        FirstBelow(q, s, order, p[0]);
      }
    } else {
      FirstBelow(p, s, order, q[0]);
      FirstBelow(q, s, order, p[0]);
      assert q[0] == p[0];
      RestOf(q, s, order);
      RestOf(p, s, order);
      RowsUnique(s - {q[0]}, order, q[1..], p[1..]);
      assert q == [q[0]] + q[1..] && p == [p[0]] + p[1..];
    }
  }

  lemma FirstBelow(q: seq<int>, s: set<int>, order: int -> int, x: int)
    requires IsRows(q, s, order) && x in s
    ensures q != [] && order(q[0]) <= order(x)
  {
    assert x in q;
    var i :| 0 <= i < |q| && q[i] == x;
  }

  lemma RestOf(q: seq<int>, s: set<int>, order: int -> int)
    requires IsRows(q, s, order) && q != []
    ensures IsRows(q[1..], s - {q[0]}, order)
  {
    forall y | y in s - {q[0]} ensures y in q[1..] {
      assert y in q;
      var j :| 0 <= j < |q| && q[j] == y;
      assert q[1..][j - 1] == y;
    }
    forall j | 0 <= j < |q[1..]| ensures q[1..][j] in s - {q[0]} {
      assert q[1..][j] == q[j + 1];
    }
  }

  function ReferenceRows(db: Db, id: int): set<int> {
    set r | r in db.references && db.references[r].parent == id
  }

  function AccessoryRows(db: Db, id: int): set<int> {
    set a | a in db.accessories && db.accessories[a].subject == id
  }

  ghost function Deep(db: Db, env: Env, id: int, isRoot: bool, isAccessory: bool, busy: set<int>): (r: Sim)
    ensures r.Done? ==> r.db.artifacts.Keys <= db.artifacts.Keys
    decreases |db.artifacts.Keys - busy|, 1, 0
  {
    if id !in db.artifacts then if isRoot then Fails(Missing) else Done(db)
    else if !isRoot && db.Tagged(id) then Done(db)
    else if db.HasParent(id) then if isRoot then Fails(StillListed) else Done(db)
    else if id in busy then Done(db)
    else
      FewerLeft(db.artifacts.Keys, busy, id);
      var base := if isAccessory then DropAccessory(db, id, db.artifacts[id].digest) else db;
      Rest(base, env, id, isRoot, RowsBy(AccessoryRows(db, id), env.order.accessories),
           RowsBy(ReferenceRows(db, id), env.order.references), busy + {id})
  }

  /** After the early exits: the accessories, the children, the rows of `id` itself. */
  ghost function Rest(base: Db, env: Env, id: int, isRoot: bool, accs: seq<int>, refs: seq<int>, busy: set<int>): (r: Sim)
    ensures r.Done? ==> r.db.artifacts.Keys <= base.artifacts.Keys
    decreases |base.artifacts.Keys - busy|, 3, 0
  {
    match Accs(base, env, base.accessories, accs, busy)
    case Fails(kind) => Fails(kind)
    case Done(mid) =>
      NotMore(mid.artifacts.Keys - busy, base.artifacts.Keys - busy);
      match Kids(mid, env, refs, busy)
      case Fails(kind) => Fails(kind)
      case Done(last) => Last(last, env, id, isRoot)
  }

  ghost function Last(db: Db, env: Env, id: int, isRoot: bool): (r: Sim)
    ensures r.Done? ==> r.db.artifacts.Keys <= db.artifacts.Keys
  {
    if isRoot && !NoImmutableTag(db, env.rules, {id}) then Fails(Immutably)
    else if id in db.artifacts then Done(Erased(db, id))
    else Done(db)
  }

  ghost function Accs(db: Db, env: Env, loaded: map<int, Accessory>, rows: seq<int>, busy: set<int>): (r: Sim)
    ensures r.Done? ==> r.db.artifacts.Keys <= db.artifacts.Keys
    decreases |db.artifacts.Keys - busy|, 2, |rows|
  {
    if rows == [] then Done(db)
    else if rows[0] !in loaded || !loaded[rows[0]].kind.IsHard() then Accs(db, env, loaded, rows[1..], busy)
    else
      var a := loaded[rows[0]].artifact;
      match Deep(db, env, a, !db.HasParent(a), true, busy)
      case Fails(kind) => Fails(kind)
      case Done(next) =>
        NotMore(next.artifacts.Keys - busy, db.artifacts.Keys - busy);
        Accs(next, env, loaded, rows[1..], busy)
  }

  ghost function Kids(db: Db, env: Env, rows: seq<int>, busy: set<int>): (r: Sim)
    ensures r.Done? ==> r.db.artifacts.Keys <= db.artifacts.Keys
    decreases |db.artifacts.Keys - busy|, 2, |rows|
  {
    if rows == [] then Done(db)
    else if rows[0] !in db.references then Kids(db, env, rows[1..], busy)
    else
      var child := db.references[rows[0]].child;
      var cut := DropReferences(db, {rows[0]});
      match Deep(cut, env, child, false, cut.IsAccessory(child), busy)
      case Fails(kind) => Fails(kind)
      case Done(next) =>
        NotMore(next.artifacts.Keys - busy, db.artifacts.Keys - busy);
        Kids(next, env, rows[1..], busy)
  }

  lemma KidsStep(db: Db, env: Env, rows: seq<int>, k: int, busy: set<int>)
    requires 0 <= k < |rows| && rows[k] in db.references
    ensures var child := db.references[rows[k]].child;
      var cut := DropReferences(db, {rows[k]});
      Kids(db, env, rows[k..], busy) ==
        match Deep(cut, env, child, false, cut.IsAccessory(child), busy)
        case Fails(kind) => Fails(kind)
        case Done(next) => Kids(next, env, rows[k + 1..], busy)
  {
    assert rows[k..][0] == rows[k] && rows[k..][1..] == rows[k + 1..];
    hide Deep;
  }

  lemma AccsStep(db: Db, env: Env, loaded: map<int, Accessory>, rows: seq<int>, k: int, busy: set<int>)
    requires 0 <= k < |rows| && rows[k] in loaded
    ensures var a := loaded[rows[k]];
      Accs(db, env, loaded, rows[k..], busy) ==
        if !a.kind.IsHard() then Accs(db, env, loaded, rows[k + 1..], busy)
        else match Deep(db, env, a.artifact, !db.HasParent(a.artifact), true, busy)
             case Fails(kind) => Fails(kind)
             case Done(next) => Accs(next, env, loaded, rows[k + 1..], busy)
  {
    assert rows[k..][0] == rows[k] && rows[k..][1..] == rows[k + 1..];
    hide Deep;
  }

  /** The rows that are loaded are the ones the replay goes through. */
  lemma RemoveReplays(pre: Db, base: Db, env: Env, id: int, isRoot: bool, isAccessory: bool, accs: seq<int>, refs: seq<int>, busy: set<int>)
    requires Proceeds(pre, id, isRoot) && id !in busy
    requires LoadedAccessories(pre, env, id, accs) && LoadedReferences(pre, env, id, refs)
    requires base == if isAccessory then DropAccessory(pre, id, pre.artifacts[id].digest) else pre
    ensures Total(env.order) ==> Deep(pre, env, id, isRoot, isAccessory, busy) == Rest(base, env, id, isRoot, accs, refs, busy + {id})
  {
    if Total(env.order) {
      hide Rest;
      assert IsRows(accs, AccessoryRows(pre, id), env.order.accessories);
      assert IsRows(refs, ReferenceRows(pre, id), env.order.references);
      RowsByIs(AccessoryRows(pre, id), env.order.accessories, accs);
      RowsByIs(ReferenceRows(pre, id), env.order.references, refs);
    }
  }

  lemma NoRowsLeft(db: Db, env: Env, loaded: map<int, Accessory>, rows: seq<int>, busy: set<int>)
    ensures Kids(db, env, rows[|rows|..], busy) == Done(db) && Accs(db, env, loaded, rows[|rows|..], busy) == Done(db)
  {
  }
}
