/** The queue walk over the tree below an artifact, with a callback that may skip or break. */
module ArtifactWalk {
  import opened Registry
  import ArtifactStore

  datatype Verdict = Continue | Skip | Break | Fail

  datatype End = Completed | Broken | Failed

  /** The callback, which sees one artifact at a time. */
  type Callback = int -> Verdict

  /** Listing the children leaves accessories out. */
  function Children(db: Db, a: int): set<int> {
    if a in db.artifacts && db.artifacts[a].index then
      set r | r in db.references && db.references[r].parent == a && !db.IsAccessory(db.references[r].child) :: db.references[r].child
    else {}
  }

  function Accessories(db: Db, a: int): set<int> {
    set k | k in db.accessories && db.accessories[k].subject == a :: db.accessories[k].artifact
  }

  /** Whether accessories were loaded: with the root, by the caller, and with everything listed
      during the walk, by its option. */
  datatype Load = Load(root: int, withRoot: bool, option: bool) {
    predicate Own(a: int) {
      if a == root then withRoot else option
    }
  }

  /** What visiting `a` may add to the queue: its children, its accessories if it was loaded
      with them, and those of its children if they were. */
  ghost function Successors(db: Db, load: Load, a: int): set<int> {
    Children(db, a)
    + (if load.Own(a) then Accessories(db, a) else {})
    + (if load.option then set c, x | c in Children(db, a) && x in Accessories(db, c) :: x else {})
  }

  ghost predicate Closed(db: Db, load: Load, fn: Callback, s: set<int>) {
    forall a, b :: a in s && fn(a).Continue? && b in Successors(db, load, a) ==> b in s
  }

  /** `x` lies in every set that holds `root` and all successors of its continued members. */
  ghost predicate Reached(db: Db, load: Load, fn: Callback, root: int, x: int) {
    forall s: set<int> :: root in s && Closed(db, load, fn, s) ==> x in s
  }

  /** One repository: accessories sit beside their subjects. */
  ghost predicate Local(db: Db) {
    forall k :: k in db.accessories && db.accessories[k].subject in db.artifacts && db.accessories[k].artifact in db.artifacts ==>
      db.artifacts[db.accessories[k].subject].repository == db.artifacts[db.accessories[k].artifact].repository
  }

  ghost predicate InRepo(db: Db, repo: int, x: int) {
    x in db.artifacts && db.artifacts[x].repository == repo
  }

  lemma SuccessorsStay(db: Db, load: Load, repo: int, a: int, b: int)
    requires db.Valid() && Local(db) && InRepo(db, repo, a) && b in Successors(db, load, a)
    ensures InRepo(db, repo, b)
  {
    ChildrenStay(db, repo, a);
    if b !in Children(db, a) && b !in Accessories(db, a) {
      var c :| c in Children(db, a) && b in Accessories(db, c);
      assert InRepo(db, repo, c);
    }
  }

  lemma ChildrenStay(db: Db, repo: int, a: int)
    requires db.Valid() && Local(db) && InRepo(db, repo, a)
    ensures forall c :: c in Children(db, a) ==> InRepo(db, repo, c)
    ensures forall c :: c in Accessories(db, a) ==> InRepo(db, repo, c)
  {
  }

  /** Pushes the members of `news` whose digest was not walked. */
  method Push(db: Db, news: set<int>, walked: set<string>, queue: seq<int>) returns (more: seq<int>)
    requires news <= db.artifacts.Keys
    ensures |queue| <= |more| && more[..|queue|] == queue
    ensures forall x :: x in more[|queue|..] <==> x in news && db.artifacts[x].digest !in walked
  {
    var rows := ArtifactStore.Enumerate(news);
    more := queue;
    for i := 0 to |rows|
      invariant |queue| <= |more| && more[..|queue|] == queue
      invariant forall x :: x in more[|queue|..] <==> x in rows[..i] && db.artifacts[x].digest !in walked
    {
      assert rows[i] in rows;
      assert rows[..i + 1] == rows[..i] + [rows[i]];
      if db.artifacts[rows[i]].digest !in walked {
        assert (more + [rows[i]])[|queue|..] == more[|queue|..] + [rows[i]];
        more := more + [rows[i]];
      }
    }
    assert rows[..|rows|] == rows;
  }

  /** Queues the successors of `a`, in the order children, each followed by its accessories,
      then the accessories of `a`. */
  method Expand(db: Db, load: Load, a: int, walked: set<string>, queue: seq<int>) returns (more: seq<int>)
    requires db.Valid() && a in db.artifacts
    ensures |queue| <= |more| && more[..|queue|] == queue
    ensures forall x :: x in more[|queue|..] ==> x in Successors(db, load, a) && x in db.artifacts && db.artifacts[x].digest !in walked
    ensures forall x :: x in Successors(db, load, a) && x in db.artifacts && db.artifacts[x].digest !in walked ==> x in more
    ensures forall i :: |queue| <= i < |more| ==> more[i] in db.artifacts && db.artifacts[more[i]].digest !in walked
  {
    var rows := ArtifactStore.Enumerate(Children(db, a));
    more := queue;
    for i := 0 to |rows|
      invariant Pushed(db, queue, more, walked, Below(db, load, rows[..i]))
    {
      assert rows[i] in rows;
      assert rows[..i + 1] == rows[..i] + [rows[i]];
      var next := Push(db, {rows[i]}, walked, more);
      PushedMore(db, queue, more, next, walked, Below(db, load, rows[..i]), {rows[i]});
      more := next;
      if load.option {
        next := Push(db, Accessories(db, rows[i]), walked, more);
        PushedMore(db, queue, more, next, walked, Below(db, load, rows[..i]) + {rows[i]}, Accessories(db, rows[i]));
        more := next;
      }
      BelowMore(db, load, rows, i);
    }
    assert rows[..|rows|] == rows;
    if load.Own(a) {
      var next := Push(db, Accessories(db, a), walked, more);
      PushedMore(db, queue, more, next, walked, Below(db, load, rows), Accessories(db, a));
      more := next;
    }
    ghost var tail := more[|queue|..];
    forall i | |queue| <= i < |more| ensures more[i] in db.artifacts && db.artifacts[more[i]].digest !in walked {
      assert more[i] == tail[i - |queue|];
      assert more[i] in tail;
    }
  }

  /** The given children and, when loaded, their accessories. */
  ghost function Below(db: Db, load: Load, children: seq<int>): set<int> {
    (set c | c in children) +
    if load.option then (set c, x | c in children && x in Accessories(db, c) :: x) else {}
  }

  lemma BelowMore(db: Db, load: Load, rows: seq<int>, i: int)
    requires 0 <= i < |rows|
    ensures Below(db, load, rows[..i + 1]) ==
            Below(db, load, rows[..i]) + {rows[i]} + if load.option then Accessories(db, rows[i]) else {}
  {
    assert rows[..i + 1] == rows[..i] + [rows[i]];
  }

  ghost predicate Pushed(db: Db, queue: seq<int>, more: seq<int>, walked: set<string>, news: set<int>) {
    && |queue| <= |more| && more[..|queue|] == queue
    && forall x :: x in more[|queue|..] <==> x in news && x in db.artifacts && db.artifacts[x].digest !in walked
  }

  lemma PushedMore(db: Db, queue: seq<int>, mid: seq<int>, more: seq<int>, walked: set<string>, news: set<int>, extra: set<int>)
    requires Pushed(db, queue, mid, walked, news) && Pushed(db, mid, more, walked, extra)
    ensures Pushed(db, queue, more, walked, news + extra)
  {
    assert more[|queue|..] == mid[|queue|..] + more[|mid|..];
    assert more[..|queue|] == mid[..|queue|];
  }

  /** Queue entries whose digest was walked already. */
  ghost function Stale(db: Db, queue: seq<int>, walked: set<string>): nat {
    if queue == [] then 0
    else Stale(db, queue[1..], walked) +
         if queue[0] in db.artifacts && db.artifacts[queue[0]].digest in walked then 1 else 0
  }

  lemma {:induction false} StaleAppend(db: Db, queue: seq<int>, more: seq<int>, walked: set<string>)
    requires forall i :: 0 <= i < |more| ==> more[i] in db.artifacts && db.artifacts[more[i]].digest !in walked
    ensures Stale(db, queue + more, walked) == Stale(db, queue, walked)
  {
    if queue == [] {
      assert queue + more == more;
      if more != [] {
        StaleAppend(db, queue, more[1..], walked);
        assert queue + more[1..] == more[1..];
        assert Stale(db, more, walked) == Stale(db, more[1..], walked);
      }
    } else {
      assert (queue + more)[1..] == queue[1..] + more;
      StaleAppend(db, queue[1..], more, walked);
    }
  }

  ghost predicate Visited(db: Db, load: Load, fn: Callback, root: int, repo: int,
                          visits: seq<int>, queue: seq<int>, walked: set<string>) {
    && (forall x :: x in visits + queue ==> InRepo(db, repo, x) && Reached(db, load, fn, root, x))
    && (forall x :: x in visits ==> fn(x).Continue? || fn(x).Skip?)
    && (root in visits || root in queue)
    && (forall d :: d in walked <==> exists x :: x in visits && x in db.artifacts && db.artifacts[x].digest == d)
    && (forall a, b :: a in visits && fn(a).Continue? && b in Successors(db, load, a) ==> b in visits || b in queue)
  }

  ghost function Digests(db: Db): set<string> {
    set x | x in db.artifacts :: db.artifacts[x].digest
  }

  /** Visiting the head of the queue, then dropping it and queueing the unwalked successors, if any. */
  lemma VisitStep(db: Db, load: Load, fn: Callback, root: int, repo: int,
                  visits: seq<int>, queue: seq<int>, walked: set<string>, more: seq<int>)
    requires db.Valid() && db.Unique() && Local(db) && queue != []
    requires Visited(db, load, fn, root, repo, visits, queue, walked)
    requires fn(queue[0]).Continue? || fn(queue[0]).Skip?
    requires queue[0] in db.artifacts && |queue| - 1 <= |more| && more[..|queue| - 1] == queue[1..]
    requires forall x :: x in more[|queue| - 1..] ==> fn(queue[0]).Continue? && x in Successors(db, load, queue[0])
    requires fn(queue[0]).Continue? ==>
      forall x :: x in Successors(db, load, queue[0]) && x in db.artifacts ==>
        x in more || db.artifacts[x].digest in walked + {db.artifacts[queue[0]].digest}
    ensures Visited(db, load, fn, root, repo, visits + [queue[0]], more, walked + {db.artifacts[queue[0]].digest})
  {
    var a := queue[0];
    assert queue == [a] + queue[1..];
    assert more == queue[1..] + more[|queue| - 1..];
    assert a in visits + queue;
    var visits', walked' := visits + [a], walked + {db.artifacts[a].digest};
    forall x | x in visits' + more ensures InRepo(db, repo, x) && Reached(db, load, fn, root, x) {
      if x in more[|queue| - 1..] {
        SuccessorsStay(db, load, repo, a, x);
        ReachedStep(db, load, fn, root, a, x);
      } else {
        assert x in visits + queue;
      }
    }
    forall d | d in walked' ensures exists x :: x in visits' && x in db.artifacts && db.artifacts[x].digest == d {
      if d in walked {
        var x :| x in visits && x in db.artifacts && db.artifacts[x].digest == d;
        assert x in visits';
      } else {
        assert a in visits';
      }
    }
    forall p, b | p in visits' && fn(p).Continue? && b in Successors(db, load, p) ensures b in visits' || b in more {
      if p == a {
        SuccessorsStay(db, load, repo, a, b);
        if db.artifacts[b].digest in walked' {
          var x :| x in visits' && x in db.artifacts && db.artifacts[x].digest == db.artifacts[b].digest;
          assert x in visits' + more;
        }
      } else {
        assert b in visits || b in queue;
      }
    }
  }

  lemma ReachedStays(db: Db, load: Load, fn: Callback, root: int, x: int)
    requires db.Valid() && Local(db) && root in db.artifacts && Reached(db, load, fn, root, x)
    ensures InRepo(db, db.artifacts[root].repository, x)
  {
    var repo := db.artifacts[root].repository;
    var s := set y | y in db.artifacts && InRepo(db, repo, y);
    forall a, b | a in s && fn(a).Continue? && b in Successors(db, load, a) ensures b in s {
      SuccessorsStay(db, load, repo, a, b);
    }
    assert Closed(db, load, fn, s);
  }

  lemma ReachedStep(db: Db, load: Load, fn: Callback, root: int, a: int, b: int)
    requires Reached(db, load, fn, root, a) && fn(a).Continue? && b in Successors(db, load, a)
    ensures Reached(db, load, fn, root, b)
  {
    forall s: set<int> | root in s && Closed(db, load, fn, s) ensures b in s {
      assert a in s;
    }
  }

  // The same in terms of paths over the rows

  /** A reference row of an index to something that is no accessory. */
  ghost predicate Lists(db: Db, a: int, b: int) {
    && a in db.artifacts && db.artifacts[a].index
    && (exists r :: r in db.references && db.references[r] == Reference(a, b))
    && (forall k :: k in db.accessories ==> db.accessories[k].artifact != b)
  }

  ghost predicate Accompanies(db: Db, a: int, b: int) {
    exists k :: k in db.accessories && db.accessories[k].subject == a && db.accessories[k].artifact == b
  }

  /** One step of the walk: to a child, to an accessory loaded with the artifact, or to an accessory
      of a child when the walk lists with accessories. */
  ghost predicate Edge(db: Db, load: Load, a: int, b: int) {
    || Lists(db, a, b)
    || ((if a == load.root then load.withRoot else load.option) && Accompanies(db, a, b))
    || (load.option && exists c :: Lists(db, a, c) && Accompanies(db, c, b))
  }

  lemma EdgeIsSuccessor(db: Db, load: Load, a: int, b: int)
    ensures Edge(db, load, a, b) <==> b in Successors(db, load, a)
  {
    forall c ensures Lists(db, a, c) <==> c in Children(db, a) {
      if c in Children(db, a) {
        var r :| r in db.references && db.references[r].parent == a && db.references[r].child == c;
        assert db.references[r] == Reference(a, c);
      }
    }
    forall c ensures Accompanies(db, c, b) <==> b in Accessories(db, c) {
    }
  }

  ghost predicate IsPath(db: Db, load: Load, path: seq<int>) {
    path != [] && path[0] == load.root && forall i :: 0 <= i < |path| - 1 ==> Edge(db, load, path[i], path[i + 1])
  }

  /** Every artifact of the path but the last is continued. */
  ghost predicate Continued(fn: Callback, path: seq<int>) {
    forall i :: 0 <= i < |path| - 1 ==> fn(path[i]).Continue?
  }

  ghost predicate ReachedBy(db: Db, load: Load, fn: Callback, path: seq<int>, x: int) {
    IsPath(db, load, path) && Continued(fn, path) && path[|path| - 1] == x
  }

  lemma {:induction false} PathIsReached(db: Db, load: Load, fn: Callback, path: seq<int>, n: nat)
    requires IsPath(db, load, path) && Continued(fn, path) && n < |path|
    ensures Reached(db, load, fn, load.root, path[n])
  {
    if n > 0 {
      PathIsReached(db, load, fn, path, n - 1);
      EdgeIsSuccessor(db, load, path[n - 1], path[n]);
      ReachedStep(db, load, fn, load.root, path[n - 1], path[n]);
    }
  }

  lemma PathGoesOn(db: Db, load: Load, fn: Callback, path: seq<int>, a: int, b: int)
    requires ReachedBy(db, load, fn, path, a) && fn(a).Continue? && Edge(db, load, a, b)
    ensures ReachedBy(db, load, fn, path + [b], b)
  {
    hide Edge;
    var more := path + [b];
    forall i | 0 <= i < |more| - 1 ensures fn(more[i]).Continue? && Edge(db, load, more[i], more[i + 1]) {
      assert more[i] == path[i];
      assert i < |path| - 1 ==> more[i + 1] == path[i + 1];
    }
  }

  /** What the walk reaches is what lies at the end of a path of rows along which the callback
      continued. */
  lemma ReachedIsPath(db: Db, load: Load, fn: Callback, x: int)
    requires db.Valid() && Local(db) && load.root in db.artifacts
    ensures Reached(db, load, fn, load.root, x) <==> exists path :: ReachedBy(db, load, fn, path, x)
  {
    hide Successors, Edge;
    if path :| ReachedBy(db, load, fn, path, x) {
      PathIsReached(db, load, fn, path, |path| - 1);
    }
    var repo := db.artifacts[load.root].repository;
    var s := set y | y in db.artifacts && InRepo(db, repo, y) && exists path :: ReachedBy(db, load, fn, path, y);
    assert ReachedBy(db, load, fn, [load.root], load.root);
    forall a, b | a in s && fn(a).Continue? && b in Successors(db, load, a) ensures b in s {
      var path :| ReachedBy(db, load, fn, path, a);
      EdgeIsSuccessor(db, load, a, b);
      PathGoesOn(db, load, fn, path, a, b);
      SuccessorsStay(db, load, repo, a, b);
    }
    assert Closed(db, load, fn, s);
  }

  lemma LastVisit(db: Db, load: Load, fn: Callback, root: int, repo: int,
                  visits: seq<int>, queue: seq<int>, walked: set<string>)
    requires queue != [] && Visited(db, load, fn, root, repo, visits, queue, walked)
    ensures queue[0] in db.artifacts && db.artifacts[queue[0]].digest in Digests(db)
    ensures forall x :: x in visits + [queue[0]] ==> x in db.artifacts && Reached(db, load, fn, root, x)
    ensures forall i :: 0 <= i < |visits| ==> fn(visits[i]).Continue? || fn(visits[i]).Skip?
  {
    forall x | x in visits + queue ensures InRepo(db, repo, x) {}
    forall x | x in visits ensures fn(x).Continue? || fn(x).Skip? {}
    var a := queue[0];
    assert queue[0] in queue;
    assert a in visits + queue;
    assert InRepo(db, repo, a);
    forall x | x in visits + [queue[0]] ensures x in db.artifacts && Reached(db, load, fn, root, x) {
      assert x in visits + queue;
    }
    forall i | 0 <= i < |visits| ensures fn(visits[i]).Continue? || fn(visits[i]).Skip? {
      assert visits[i] in visits;
    }
  }

  /** Either a new digest was walked, or the queue lost an entry that was walked before. */
  lemma CloserToEnd(db: Db, all: set<string>, queue: seq<int>, more: seq<int>, walked: set<string>, d: string)
    requires queue != [] && queue[0] in db.artifacts && d == db.artifacts[queue[0]].digest && d in all
    requires |queue| - 1 <= |more| && more[..|queue| - 1] == queue[1..]
    requires forall i :: |queue| - 1 <= i < |more| ==>
      more[i] in db.artifacts && db.artifacts[more[i]].digest !in walked + {d}
    ensures all - (walked + {d}) < all - walked
            || (walked + {d} == walked && Stale(db, more, walked) < Stale(db, queue, walked))
  {
    if d in walked {
      assert walked + {d} == walked;
      assert more == queue[1..] + more[|queue| - 1..];
      StaleAppend(db, queue[1..], more[|queue| - 1..], walked);
    } else {
      assert d in all - walked && d !in all - (walked + {d});
    }
  }

  lemma FirstVisit(db: Db, load: Load, fn: Callback, root: int)
    requires root in db.artifacts
    ensures Visited(db, load, fn, root, db.artifacts[root].repository, [], [root], {})
  {
  }

  lemma AllVisited(db: Db, load: Load, fn: Callback, root: int, repo: int,
                   visits: seq<int>, queue: seq<int>, walked: set<string>)
    requires queue == [] && Visited(db, load, fn, root, repo, visits, queue, walked)
    ensures forall x :: x in visits ==> x in db.artifacts && Reached(db, load, fn, root, x)
    ensures forall x :: Reached(db, load, fn, root, x) ==> x in visits
    ensures forall x :: x in visits ==> fn(x).Continue? || fn(x).Skip?
    ensures root in visits && forall i :: 0 <= i < |visits| ==> fn(visits[i]).Continue? || fn(visits[i]).Skip?
  {
    forall x | x in visits ensures fn(x).Continue? || fn(x).Skip? {}
    forall i | 0 <= i < |visits| ensures fn(visits[i]).Continue? || fn(visits[i]).Skip? {
      assert visits[i] in visits;
    }
    var s := set x | x in visits;
    forall x | x in visits ensures x in db.artifacts && Reached(db, load, fn, root, x) {
      assert x in visits + queue;
    }
    assert root in s && Closed(db, load, fn, s);
  }

  /** Visits exactly what is reached, unless the callback breaks or fails on something reached. */
  method Walk(db: Db, load: Load, fn: Callback, root: int) returns (visits: seq<int>, end: End)
    requires db.Valid() && db.Unique() && Local(db) && root in db.artifacts && load.root == root
    ensures visits != [] && visits[0] == root
    ensures forall x :: x in visits ==> x in db.artifacts && Reached(db, load, fn, root, x)
    ensures forall i :: 0 <= i < |visits| - 1 ==> fn(visits[i]).Continue? || fn(visits[i]).Skip?
    ensures end.Completed? ==> forall x :: x in visits ==> fn(x).Continue? || fn(x).Skip?
    ensures end.Completed? ==> forall x :: Reached(db, load, fn, root, x) ==> x in visits
    ensures end.Completed? <==>
      forall x :: Reached(db, load, fn, root, x) ==> fn(x).Continue? || fn(x).Skip?
    ensures end.Broken? ==> fn(visits[|visits| - 1]).Break?
    ensures end.Failed? ==> fn(visits[|visits| - 1]).Fail?
  {
    var queue := [root];
    var walked := {};
    visits := [];
    ghost var repo := db.artifacts[root].repository;
    hide Visited, Reached, Stale, Successors;
    FirstVisit(db, load, fn, root);
    while queue != []
      invariant Visited(db, load, fn, root, repo, visits, queue, walked)
      invariant if visits == [] then queue != [] && queue[0] == root else visits[0] == root
      decreases Digests(db) - walked, Stale(db, queue, walked)
    {
      var a := queue[0];
      LastVisit(db, load, fn, root, repo, visits, queue, walked);
      if fn(a).Break? || fn(a).Fail? {
        assert a in visits + [a];
        return visits + [a], if fn(a).Break? then Broken else Failed;
      }
      var more := queue[1..];
      if fn(a).Continue? {
        more := Expand(db, load, a, walked + {db.artifacts[a].digest}, more);
      }
      VisitStep(db, load, fn, root, repo, visits, queue, walked, more);
      CloserToEnd(db, Digests(db), queue, more, walked, db.artifacts[a].digest);
      walked := walked + {db.artifacts[a].digest};
      visits := visits + [a];
      queue := more;
    }
    AllVisited(db, load, fn, root, repo, visits, queue, walked);
    end := Completed;
  }
}
