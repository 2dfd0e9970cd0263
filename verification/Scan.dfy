/** Two walks that ask whether an artifact can be scanned: the collection of artifacts to
    scan, and the checker with its caches. */
module Scan {
  import opened Registry
  import opened ArtifactWalk
  import opened Wrappers

  /** What the scanner, the blob tables and the registrations say; unchanged while the checks run. */
  datatype Env = Env(
    unscannable: string -> bool,          // a layer of this manifest cannot be scanned
    image: int -> bool,                   // the artifact is of image type
    consumes: (int, int) -> bool,         // registration, artifact: its manifest type is consumed
    registration: int -> Option<int>)     // the scanner of a project

  predicate Capable(env: Env, reg: int, a: int) {
    env.image(a) && env.consumes(reg, a)
  }

  /** The callback of "collectScanningArtifacts". */
  function CollectVerdict(db: Db, env: Env, reg: int, a: int): Verdict {
    if db.IsAccessory(a) then Continue
    else if a in db.artifacts && env.unscannable(db.artifacts[a].digest) then Continue
    else if Capable(env, reg, a) then Skip
    else Continue
  }

  /** The callback of "IsScannable". */
  function CheckVerdict(db: Db, env: Env, reg: int, a: int): Verdict {
    if db.IsAccessory(a) then Continue
    else if Capable(env, reg, a) then Break
    else Continue
  }

  /** Both walks list without accessories; the caller may have loaded those of the root. */
  function Loaded(root: int, withAccessories: bool): Load {
    Load(root, withAccessories, false)
  }

  /** The whole tree below `root`, with the accessories the caller loaded. */
  ghost predicate InTree(db: Db, load: Load, x: int) {
    Reached(db, load, _ => Continue, load.root, x)
  }

  /** No accessory, of image type, and its manifest type is one the scanner consumes. */
  ghost predicate Supported(db: Db, env: Env, reg: int, x: int) {
    !db.IsAccessory(x) && env.image(x) && env.consumes(reg, x)
  }

  ghost predicate Scannable(db: Db, env: Env, reg: int, x: int) {
    Supported(db, env, reg, x) && x in db.artifacts && !env.unscannable(db.artifacts[x].digest)
  }

  lemma ReachedIsInTree(db: Db, load: Load, fn: Callback, x: int)
    requires Reached(db, load, fn, load.root, x)
    ensures InTree(db, load, x)
  {
    forall s: set<int> | load.root in s && Closed(db, load, _ => Continue, s) ensures x in s {
      assert Closed(db, load, fn, s);
    }
  }

  /** A walk that never stopped on anything walked the whole tree. */
  lemma AllContinued(db: Db, load: Load, fn: Callback, x: int)
    requires forall y :: Reached(db, load, fn, load.root, y) ==> fn(y).Continue?
    requires InTree(db, load, x)
    ensures Reached(db, load, fn, load.root, x)
  {
    forall s: set<int> | load.root in s && Closed(db, load, fn, s) ensures x in s {
      var t := set y | y in s && Reached(db, load, fn, load.root, y);
      assert Closed(db, load, _ => Continue, t) by {
        forall a, b | a in t && b in Successors(db, load, a) ensures b in t {
          ReachedStep(db, load, fn, load.root, a, b);
        }
      }
    }
  }

  /** The collection walk skips nothing scannable: it finds one exactly when the tree has one. */
  lemma CollectFinds(db: Db, env: Env, reg: int, load: Load, x: int)
    requires db.Valid() && Local(db) && load.root in db.artifacts
    requires InTree(db, load, x) && Scannable(db, env, reg, x)
    ensures exists y :: Reached(db, load, a => CollectVerdict(db, env, reg, a), load.root, y) && Scannable(db, env, reg, y)
  {
    var fn := a => CollectVerdict(db, env, reg, a);
    if forall y :: Reached(db, load, fn, load.root, y) ==> fn(y).Continue? {
      AllContinued(db, load, fn, x);
    } else {
      var y :| Reached(db, load, fn, load.root, y) && !fn(y).Continue?;
      ReachedStays(db, load, fn, load.root, y);
      assert Scannable(db, env, reg, y);
    }
  }

  /** An artifact the collection keeps for scanning. */
  ghost predicate Kept(db: Db, env: Env, reg: int, x: int) {
    && x in db.artifacts && !db.IsAccessory(x) && !env.unscannable(db.artifacts[x].digest)
    && ((env.image(x) && env.consumes(reg, x)) || !db.artifacts[x].index)
  }

  /** A path of rows from the root that passes through nothing scannable on its way to `x`. */
  ghost predicate ClearPath(db: Db, env: Env, reg: int, load: Load, path: seq<int>, x: int) {
    && IsPath(db, load, path) && path[|path| - 1] == x
    && forall i :: 0 <= i < |path| - 1 ==> !Scannable(db, env, reg, path[i])
  }

  ghost predicate OnClearPath(db: Db, env: Env, reg: int, load: Load, x: int) {
    exists path :: ClearPath(db, env, reg, load, path, x)
  }

  /** The tree holds what lies at the end of any path of rows from the root. */
  lemma TreeIsPaths(db: Db, load: Load, x: int)
    requires db.Valid() && Local(db) && load.root in db.artifacts
    ensures InTree(db, load, x) <==> exists path :: IsPath(db, load, path) && path[|path| - 1] == x
  {
    ReachedIsPath(db, load, _ => Continue, x);
    if path :| IsPath(db, load, path) && path[|path| - 1] == x {
      assert ReachedBy(db, load, _ => Continue, path, x);
    }
  }

  lemma {:induction false} PathStays(db: Db, load: Load, path: seq<int>, n: nat)
    requires db.Valid() && Local(db) && load.root in db.artifacts && IsPath(db, load, path) && n < |path|
    ensures InRepo(db, db.artifacts[load.root].repository, path[n])
  {
    if n > 0 {
      PathStays(db, load, path, n - 1);
      EdgeIsSuccessor(db, load, path[n - 1], path[n]);
      SuccessorsStay(db, load, db.artifacts[load.root].repository, path[n - 1], path[n]);
    }
  }

  /** The collection goes on below everything but what is scannable. */
  lemma CollectIsClear(db: Db, env: Env, reg: int, load: Load, x: int)
    requires db.Valid() && Local(db) && load.root in db.artifacts
    ensures Reached(db, load, a => CollectVerdict(db, env, reg, a), load.root, x) <==> OnClearPath(db, env, reg, load, x)
  {
    var fn := a => CollectVerdict(db, env, reg, a);
    ReachedIsPath(db, load, fn, x);
    forall path | IsPath(db, load, path) ensures ReachedBy(db, load, fn, path, x) <==> ClearPath(db, env, reg, load, path, x) {
      SameWay(db, env, reg, load, path, fn);
    }
  }

  lemma SameWay(db: Db, env: Env, reg: int, load: Load, path: seq<int>, fn: Callback)
    requires db.Valid() && Local(db) && load.root in db.artifacts && IsPath(db, load, path)
    requires forall a :: fn(a) == CollectVerdict(db, env, reg, a)
    ensures Continued(fn, path) <==> forall i :: 0 <= i < |path| - 1 ==> !Scannable(db, env, reg, path[i])
  {
    forall i | 0 <= i < |path| ensures fn(path[i]).Continue? <==> !Scannable(db, env, reg, path[i]) {
      PathStays(db, load, path, i);
    }
  }

  /** What the callback of the collection keeps of the visited artifacts. */
  method Sift(db: Db, env: Env, reg: int, visits: seq<int>) returns (artifacts: seq<int>, scannable: bool)
    requires forall x :: x in visits ==> x in db.artifacts
    ensures scannable <==> exists k :: 0 <= k < |visits| && Scannable(db, env, reg, visits[k])
    ensures forall x :: x in artifacts <==> x in visits && Kept(db, env, reg, x)
  {
    hide Scannable;
    artifacts, scannable := [], false;
    for i := 0 to |visits|
      invariant scannable <==> exists k :: 0 <= k < i && Scannable(db, env, reg, visits[k])
      invariant forall x :: x in artifacts <==> x in visits[..i] && Kept(db, env, reg, x)
    {
      var a := visits[i];
      assert a in visits;
      assert visits[..i + 1] == visits[..i] + [a];
      ScannableIs(db, env, reg, a);
      if !db.IsAccessory(a) && !env.unscannable(db.artifacts[a].digest) {
        var supported := Capable(env, reg, a);
        if supported || !db.artifacts[a].index {
          artifacts := artifacts + [a];
          scannable := scannable || supported;
        }
      }
    }
    assert visits[..|visits|] == visits;
  }

  lemma ScannableIs(db: Db, env: Env, reg: int, x: int)
    requires x in db.artifacts
    ensures Scannable(db, env, reg, x) <==> !db.IsAccessory(x) && !env.unscannable(db.artifacts[x].digest) && Capable(env, reg, x)
  {
  }

  /** "collectScanningArtifacts" */
  method Collect(db: Db, env: Env, reg: int, load: Load) returns (artifacts: seq<int>, scannable: bool)
    requires db.Valid() && db.Unique() && Local(db) && load.root in db.artifacts && !load.option
    ensures scannable <==> exists x :: InTree(db, load, x) && Scannable(db, env, reg, x)
    ensures forall x :: x in artifacts <==> Kept(db, env, reg, x) && OnClearPath(db, env, reg, load, x)
  {
    var fn := a => CollectVerdict(db, env, reg, a);
    var visits, end := Walk(db, load, fn, load.root);
    hide InTree, Reached, Scannable, OnClearPath, CollectVerdict, Kept;
    artifacts, scannable := Sift(db, env, reg, visits);
    CollectExact(db, env, reg, load, visits, end);
    forall x ensures x in visits <==> OnClearPath(db, env, reg, load, x) {
      CollectIsClear(db, env, reg, load, x);
    }
  }

  /** A walk with the callback of the collection visits something scannable exactly when the tree
      holds it. */
  lemma CollectExact(db: Db, env: Env, reg: int, load: Load, visits: seq<int>, end: End)
    requires db.Valid() && Local(db) && load.root in db.artifacts
    requires var fn := a => CollectVerdict(db, env, reg, a);
      && (forall x :: x in visits ==> Reached(db, load, fn, load.root, x))
      && (end.Completed? ==> forall x :: Reached(db, load, fn, load.root, x) ==> x in visits)
      && (end.Completed? <==> forall x :: Reached(db, load, fn, load.root, x) ==> fn(x).Continue? || fn(x).Skip?)
    ensures forall x :: x in visits <==> Reached(db, load, a => CollectVerdict(db, env, reg, a), load.root, x)
    ensures (exists k :: 0 <= k < |visits| && Scannable(db, env, reg, visits[k])) <==>
      exists x :: InTree(db, load, x) && Scannable(db, env, reg, x)
  {
    var fn := a => CollectVerdict(db, env, reg, a);
    assert forall x :: fn(x).Continue? || fn(x).Skip?;
    hide InTree, Reached, Scannable;
    if x :| InTree(db, load, x) && Scannable(db, env, reg, x) {
      CollectFinds(db, env, reg, load, x);
    }
    if k :| 0 <= k < |visits| && Scannable(db, env, reg, visits[k]) {
      assert visits[k] in visits;
      ReachedIsInTree(db, load, fn, visits[k]);
    }
  }

  /** What an uncached checker answers. */
  ghost predicate CheckedScannable(db: Db, env: Env, load: Load) {
    && load.root in db.artifacts
    && env.registration(db.artifacts[load.root].project).Some?
    && exists x :: InTree(db, load, x) && Supported(db, env, env.registration(db.artifacts[load.root].project).value, x)
  }

  class Checker {
    var registrations: map<int, int>
    var accessoryCache: map<int, bool>
    var layerCache: map<string, bool>

    /** Everything cached is what the lookup would answer. */
    ghost predicate Valid(db: Db, env: Env)
      reads this
    {
      && (forall p :: p in registrations ==> env.registration(p) == Some(registrations[p]))
      && (forall a :: a in accessoryCache ==> accessoryCache[a] == db.IsAccessory(a))
      && (forall d :: d in layerCache ==> layerCache[d] == env.unscannable(d))
    }

    constructor ()
      ensures forall db, env :: Valid(db, env)
    {
      registrations, accessoryCache, layerCache := map[], map[], map[];
    }

    method IsAccessory(db: Db, ghost env: Env, a: int) returns (r: bool)
      requires Valid(db, env)
      modifies this`accessoryCache
      ensures Valid(db, env) && r == db.IsAccessory(a)
    {
      if a in accessoryCache {
        return accessoryCache[a];
      }
      r := db.IsAccessory(a);
      accessoryCache := accessoryCache[a := r];
    }

    method HasUnscannableLayer(ghost db: Db, env: Env, digest: string) returns (r: bool)
      requires Valid(db, env)
      modifies this`layerCache
      ensures Valid(db, env) && r == env.unscannable(digest)
    {
      if digest in layerCache {
        return layerCache[digest];
      }
      r := env.unscannable(digest);
      layerCache := layerCache[digest := r];
    }

    /** The callback of "IsScannable", through the caches. */
    method Visit(db: Db, env: Env, reg: int, a: int) returns (v: Verdict)
      requires Valid(db, env) && a in db.artifacts
      modifies this`accessoryCache, this`layerCache
      ensures Valid(db, env) && v == CheckVerdict(db, env, reg, a)
    {
      var accessory := IsAccessory(db, env, a);
      if accessory {
        return Continue;
      }
      if Capable(env, reg, a) {
        return Break;
      }
      var _ := HasUnscannableLayer(db, env, db.artifacts[a].digest);
      return Continue;
    }

    /** "IsScannable": the answer does not depend on what earlier calls cached. */
    method IsScannable(db: Db, env: Env, load: Load) returns (scannable: bool)
      requires db.Valid() && db.Unique() && Local(db) && load.root in db.artifacts && !load.option && Valid(db, env)
      modifies this
      ensures Valid(db, env) && (scannable <==> CheckedScannable(db, env, load))
    {
      var project := db.artifacts[load.root].project;
      if project !in registrations {
        match env.registration(project) {
          case None => return false;
          case Some(r) => registrations := registrations[project := r];
        }
      }
      var reg := registrations[project];
      var fn := a => CheckVerdict(db, env, reg, a);
      var visits, end := Walk(db, load, fn, load.root);
      hide Reached, InTree, CheckVerdict;
      scannable := false;
      for i := 0 to |visits|
        invariant Valid(db, env)
        invariant scannable <==> exists k :: 0 <= k < i && fn(visits[k]).Break?
      {
        assert visits[i] in visits;
        var v := Visit(db, env, reg, visits[i]);
        if v.Break? {
          scannable := true;
        }
      }
      CheckExact(db, env, reg, load, visits, end, scannable);
    }
  }

  /** The check breaks exactly when the tree holds something supported. */
  lemma CheckExact(db: Db, env: Env, reg: int, load: Load, visits: seq<int>, end: End, scannable: bool)
    requires var fn := a => CheckVerdict(db, env, reg, a);
      && (forall x :: x in visits ==> Reached(db, load, fn, load.root, x))
      && (scannable <==> exists k :: 0 <= k < |visits| && fn(visits[k]).Break?)
      && (end.Completed? <==> forall x :: Reached(db, load, fn, load.root, x) ==> fn(x).Continue? || fn(x).Skip?)
      && (end.Broken? ==> visits != [] && fn(visits[|visits| - 1]).Break?)
      && (end.Failed? ==> visits != [] && fn(visits[|visits| - 1]).Fail?)
      && (end.Completed? ==> forall x :: x in visits ==> fn(x).Continue? || fn(x).Skip?)
    ensures scannable <==> exists x :: InTree(db, load, x) && Supported(db, env, reg, x)
  {
    var fn := a => CheckVerdict(db, env, reg, a);
    if scannable {
      var k :| 0 <= k < |visits| && fn(visits[k]).Break?;
      forall x | x in visits ensures InTree(db, load, x) { ReachedIsInTree(db, load, fn, x); }
      assert visits[k] in visits;
    } else if x :| InTree(db, load, x) && Supported(db, env, reg, x) {
      assert end.Completed?;
      AllContinued(db, load, fn, x);
      assert false;
    }
  }

  /** More accessories loaded with the root only add to the tree. */
  lemma TreeGrows(db: Db, root: int, x: int)
    requires InTree(db, Loaded(root, false), x)
    ensures InTree(db, Loaded(root, true), x)
  {
    forall s: set<int> | root in s && Closed(db, Loaded(root, true), _ => Continue, s) ensures x in s {
      assert Closed(db, Loaded(root, false), _ => Continue, s) by {
        forall a, b | a in s && b in Successors(db, Loaded(root, false), a) ensures b in s {
          assert b in Successors(db, Loaded(root, true), a);
        }
      }
    }
  }

  /** The two walks on one artifact and an unchanged store: what the collection finds scannable the
      checker accepts, unless only the collection's caller loaded accessories; with the same
      loading they differ exactly when everything supported has an unscannable layer. */
  method CollectAndCheck(checker: Checker, db: Db, env: Env, reg: int, root: int, forScan: bool, forCheck: bool)
    returns (collected: bool, checked: bool)
    requires db.Valid() && db.Unique() && Local(db) && checker.Valid(db, env)
    requires root in db.artifacts && env.registration(db.artifacts[root].project) == Some(reg)
    modifies checker
    ensures checker.Valid(db, env)
    ensures (forScan ==> forCheck) && collected ==> checked
    ensures forScan == forCheck ==>
      (checked && !collected <==>
        && (exists x :: InTree(db, Loaded(root, forCheck), x) && Supported(db, env, reg, x))
        && (forall x :: InTree(db, Loaded(root, forCheck), x) && Supported(db, env, reg, x) ==>
              x !in db.artifacts || env.unscannable(db.artifacts[x].digest)))
  {
    var artifacts;
    artifacts, collected := Collect(db, env, reg, Loaded(root, forScan));
    checked := checker.IsScannable(db, env, Loaded(root, forCheck));
    hide InTree;
    if collected {
      ghost var x :| InTree(db, Loaded(root, forScan), x) && Scannable(db, env, reg, x);
      if !forScan && forCheck {
        TreeGrows(db, root, x);
      }
    }
  }

  /** An image with an accessory that is an index of another image. */
  function SignedImage(): Db {
    Db(map[1 := Artifact(0, 0, "a", false), 2 := Artifact(0, 0, "b", true), 3 := Artifact(0, 0, "c", false)],
       map[4 := Reference(2, 3)], map[5 := Accessory(2, 1, "b", Subject)], map[], {}, 6)
  }

  lemma SignedImageRows()
    ensures var db := SignedImage();
      && Accessories(db, 1) == {2} && Children(db, 1) == {} && Children(db, 2) == {3}
      && !db.IsAccessory(1) && !db.IsAccessory(3)
  {
    var db := SignedImage();
    assert db.accessories[5].artifact in Accessories(db, 1);
    assert db.references[4].child in Children(db, 2);
  }

  /** Accessories loaded with the root can decide the answer: here only the image below the
      accessory is supported. */
  lemma LoadedRootDecides(env: Env, reg: int)
    requires env.registration(0) == Some(reg) && Capable(env, reg, 3) && !Capable(env, reg, 1)
    ensures SignedImage().Valid() && SignedImage().Unique() && Local(SignedImage())
    ensures CheckedScannable(SignedImage(), env, Loaded(1, true))
    ensures !CheckedScannable(SignedImage(), env, Loaded(1, false))
  {
    var db := SignedImage();
    SignedImageIsValid();
    SignedImageRows();
    SignedImageTree();
    assert db.artifacts[1].project == 0 && 3 in db.artifacts && db.artifacts[3].project == 0;
    hide SignedImage;
    forall x | InTree(db, Loaded(1, false), x) ensures x == 1 {
      assert x in {1};
    }
    assert Supported(db, env, reg, 3);
  }

  lemma SignedImageIsValid()
    ensures SignedImage().Valid() && SignedImage().Unique() && Local(SignedImage())
  {
  }

  lemma SignedImageTree()
    ensures InTree(SignedImage(), Loaded(1, true), 3)
    ensures Closed(SignedImage(), Loaded(1, false), _ => Continue, {1})
  {
    var db := SignedImage();
    var all := Loaded(1, true);
    SignedImageRows();
    hide SignedImage;
    assert 2 in Successors(db, all, 1) && 3 in Successors(db, all, 2);
  }

  /** Any sequence of checks answers each one as if nothing had been cached. */
  method CheckAll(checker: Checker, db: Db, env: Env, loads: seq<Load>) returns (answers: seq<bool>)
    requires db.Valid() && db.Unique() && Local(db) && checker.Valid(db, env)
    requires forall i :: 0 <= i < |loads| ==> loads[i].root in db.artifacts && !loads[i].option
    modifies checker
    ensures |answers| == |loads|
    ensures forall i :: 0 <= i < |loads| ==> (answers[i] <==> CheckedScannable(db, env, loads[i]))
  {
    answers := [];
    for i := 0 to |loads|
      invariant checker.Valid(db, env) && |answers| == i
      invariant forall k :: 0 <= k < i ==> (answers[k] <==> CheckedScannable(db, env, loads[k]))
    {
      var answer := checker.IsScannable(db, env, loads[i]);
      answers := answers + [answer];
    }
  }
}
