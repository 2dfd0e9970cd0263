/** Stores in which the outcome of a delete depends on the order of rows. */
module DeleteExamples {
  import opened Registry
  import opened Collection
  import opened Removal
  import opened Replay

  lemma DeepIs(db: Db, env: Env, id: int, isRoot: bool, isAccessory: bool, accs: seq<int>, refs: seq<int>, busy: set<int>)
    requires Total(env.order) && Proceeds(db, id, isRoot) && id !in busy
    requires IsRows(accs, AccessoryRows(db, id), env.order.accessories)
    requires IsRows(refs, ReferenceRows(db, id), env.order.references)
    ensures Deep(db, env, id, isRoot, isAccessory, busy) ==
      Rest(if isAccessory then DropAccessory(db, id, db.artifacts[id].digest) else db, env, id, isRoot, accs, refs, busy + {id})
  {
    hide Rest, IsRows;
    RowsByIs(AccessoryRows(db, id), env.order.accessories, accs);
    RowsByIs(ReferenceRows(db, id), env.order.references, refs);
  }

  /** An artifact with neither accessories nor children. */
  lemma Leaf(db: Db, env: Env, id: int, isRoot: bool, isAccessory: bool, busy: set<int>)
    requires Total(env.order) && Proceeds(db, id, isRoot) && id !in busy
    requires AccessoryRows(db, id) == {} && ReferenceRows(db, id) == {} && NoImmutableTag(db, env.rules, {id})
    ensures Deep(db, env, id, isRoot, isAccessory, busy) ==
      Done(Erased(if isAccessory then DropAccessory(db, id, db.artifacts[id].digest) else db, id))
  {
    DeepIs(db, env, id, isRoot, isAccessory, [], [], busy);
    var base := if isAccessory then DropAccessory(db, id, db.artifacts[id].digest) else db;
    NoRowsLeft(base, env, base.accessories, [], busy + {id});
    assert NoImmutableTag(base, env.rules, {id});
  }

  lemma OneKid(db: Db, env: Env, r: int, busy: set<int>)
    requires r in db.references
    ensures var child := db.references[r].child;
      var cut := DropReferences(db, {r});
      Kids(db, env, [r], busy) == Deep(cut, env, child, false, cut.IsAccessory(child), busy)
  {
    var rows := [r];
    KidsStep(db, env, rows, 0, busy);
    assert rows[0..] == rows && rows[1..] == [];
  }

  /** An index without accessories that lists one child. */
  lemma OneChild(db: Db, env: Env, id: int, isRoot: bool, isAccessory: bool, r: int, busy: set<int>)
    requires Total(env.order) && Proceeds(db, id, isRoot) && id !in busy
    requires AccessoryRows(db, id) == {} && ReferenceRows(db, id) == {r} && r in db.references
    ensures var base := if isAccessory then DropAccessory(db, id, db.artifacts[id].digest) else db;
      var child, cut := db.references[r].child, DropReferences(base, {r});
      var sub := Deep(cut, env, child, false, cut.IsAccessory(child), busy + {id});
      Deep(db, env, id, isRoot, isAccessory, busy) == if sub.Fails? then sub else Last(sub.db, env, id, isRoot)
  {
    hide Deep, Last;
    var base := if isAccessory then DropAccessory(db, id, db.artifacts[id].digest) else db;
    DeepIs(db, env, id, isRoot, isAccessory, [], [r], busy);
    NoRowsLeft(base, env, base.accessories, [], busy + {id});
    OneKid(base, env, r, busy + {id});
  }

  /** A root index without accessories that lists two children, the first of which leads to `mid`. */
  lemma TwoChildren(db: Db, env: Env, id: int, r: int, q: int, mid: Db)
    requires Total(env.order) && Proceeds(db, id, true) && env.order.references(r) < env.order.references(q)
    requires AccessoryRows(db, id) == {} && ReferenceRows(db, id) == {r, q} && r in db.references && q in mid.references
    requires var child, cut := db.references[r].child, DropReferences(db, {r});
      Deep(cut, env, child, false, cut.IsAccessory(child), {id}) == Done(mid)
    ensures var child, cut := mid.references[q].child, DropReferences(mid, {q});
      var sub := Deep(cut, env, child, false, cut.IsAccessory(child), {id});
      Deep(db, env, id, true, false, {}) == if sub.Fails? then sub else Last(sub.db, env, id, true)
  {
    hide Deep, Last;
    var rows := [r, q];
    DeepIs(db, env, id, true, false, [], rows, {});
    assert {} + {id} == {id};
    NoRowsLeft(db, env, db.accessories, [], {id});
    KidsStep(db, env, rows, 0, {id});
    KidsStep(mid, env, rows, 1, {id});
    assert rows[0..] == rows && rows[2..] == [];
  }

  /** An artifact that is no accessory and has one hard accessory and no children. */
  lemma OneAccessory(db: Db, env: Env, id: int, isRoot: bool, row: int, busy: set<int>)
    requires Total(env.order) && Proceeds(db, id, isRoot) && id !in busy
    requires AccessoryRows(db, id) == {row} && ReferenceRows(db, id) == {}
    requires row in db.accessories && db.accessories[row].kind.IsHard()
    ensures var a := db.accessories[row].artifact;
      var sub := Deep(db, env, a, !db.HasParent(a), true, busy + {id});
      Deep(db, env, id, isRoot, false, busy) == if sub.Fails? then sub else Last(sub.db, env, id, isRoot)
  {
    hide Deep, Last;
    var rows := [row];
    DeepIs(db, env, id, isRoot, false, rows, [], busy);
    AccsStep(db, env, db.accessories, rows, 0, busy + {id});
    assert rows[0..] == rows && rows[1..] == [];
    var a := db.accessories[row].artifact;
    var sub := Deep(db, env, a, !db.HasParent(a), true, busy + {id});
    if sub.Done? {
      NoRowsLeft(sub.db, env, db.accessories, [], busy + {id});
    }
  }

  /** An image with two signatures, of which the first is an index that lists the second. */
  function TwoSignatures(): Db {
    Db(map[1 := Artifact(0, 0, "a", false), 2 := Artifact(0, 0, "b", true), 3 := Artifact(0, 0, "c", false)],
       map[10 := Reference(2, 3)],
       map[20 := Accessory(2, 1, "b", Cosign), 21 := Accessory(3, 1, "c", Cosign)], map[], {}, 30)
  }

  lemma TwoSignaturesRows()
    ensures var db := TwoSignatures();
      && db.Valid() && AccessoryRows(db, 1) == {20, 21} && ReferenceRows(db, 1) == {}
      && AccessoryRows(db, 2) == {} && ReferenceRows(db, 2) == {10} && !db.HasParent(1) && !db.HasParent(2) && !db.IsAccessory(1)
  {
  }

  /** Deleting the index takes the second signature with it. */
  lemma FirstSignatureGoes(env: Env)
    requires Total(env.order)
    ensures var sim := Deep(TwoSignatures(), env, 2, true, true, {1});
      sim.Done? && sim.db.artifacts.Keys == {1} && sim.db.references == map[] && sim.db.tags == map[]
  {
    var db := TwoSignatures();
    TwoSignaturesRows();
    hide Deep, Accs, Kids;
    OneChild(db, env, 2, true, true, 10, {1});
    var busy := {1} + {2};
    var cut := DropReferences(DropAccessory(db, 2, "b"), {10});
    assert 21 in cut.accessories && cut.IsAccessory(3);
    assert cut.references == map[];
    assert AccessoryRows(cut, 3) == {} && ReferenceRows(cut, 3) == {};
    Leaf(cut, env, 3, false, true, busy);
    var next := Erased(DropAccessory(cut, 3, "c"), 3);
    assert next.artifacts.Keys == {1, 2};
    assert Deep(db, env, 2, true, true, {1}) == Done(Erased(next, 2));
  }

  /** In this order the second row finds its signature gone, and the whole delete fails. */
  lemma SecondSignatureIsMissing(env: Env)
    requires Total(env.order) && env.order.accessories(20) < env.order.accessories(21)
    ensures TwoSignatures().Valid() && Deletable(TwoSignatures(), env.rules, 1)
    ensures Deep(TwoSignatures(), env, 1, true, false, {}) == Fails(Missing)
  {
    var db := TwoSignatures();
    var rows := [20, 21];
    TwoSignaturesRows();
    DeepIs(db, env, 1, true, false, rows, [], {});
    FirstSignatureGoes(env);
    var busy := {} + {1};
    AccsStep(db, env, db.accessories, rows, 0, busy);
    assert rows[0..] == rows && rows[0] == 20 && rows[1] == 21;
    var next := Deep(db, env, 2, true, true, {1}).db;
    assert busy == {1};
    AccsStep(next, env, db.accessories, rows, 1, busy);
    assert !next.HasParent(3) && 3 !in next.artifacts;
  }

  /** In the other order the listed signature waits for the index, and everything goes. */
  lemma BothSignaturesGo(env: Env)
    requires Total(env.order) && env.order.accessories(21) < env.order.accessories(20)
    ensures var sim := Deep(TwoSignatures(), env, 1, true, false, {});
      sim.Done? && sim.db.artifacts.Keys == {}
  {
    var db := TwoSignatures();
    var rows := [21, 20];
    TwoSignaturesRows();
    DeepIs(db, env, 1, true, false, rows, [], {});
    FirstSignatureGoes(env);
    var busy := {} + {1};
    assert busy == {1};
    AccsStep(db, env, db.accessories, rows, 0, busy);
    assert rows[0..] == rows && rows[0] == 21 && rows[1] == 20;
    assert db.HasParent(3);
    AccsStep(db, env, db.accessories, rows, 1, busy);
    var next := Deep(db, env, 2, true, true, {1}).db;
    NoRowsLeft(next, env, db.accessories, rows, busy);
    NoRowsLeft(next, env, db.accessories, [], busy);
    assert Accs(db, env, db.accessories, rows, busy) == Done(next);
    assert NoImmutableTag(next, env.rules, {1});
    assert Deep(db, env, 1, true, false, {}) == Last(next, env, 1, true);
  }

  /** An index that lists an image and its tagged signature. */
  function TaggedSignature(): Db {
    Db(map[1 := Artifact(0, 0, "a", true), 2 := Artifact(0, 0, "b", false), 3 := Artifact(0, 0, "c", false)],
       map[10 := Reference(1, 2), 11 := Reference(1, 3)],
       map[20 := Accessory(3, 2, "c", Cosign)], map[25 := Tag(0, 3, "v1")], {}, 30)
  }

  lemma TaggedSignatureRows()
    ensures var db := TaggedSignature();
      && AccessoryRows(db, 1) == {} && ReferenceRows(db, 1) == {10, 11}
      && !db.HasParent(1) && !db.IsAccessory(2) && !db.IsAccessory(1)
  {
  }

  lemma TaggedSignatureIsValid()
    ensures TaggedSignature().Valid()
  {
  }

  /** With the reference to the image cut, and with both cut. */
  lemma CutRows(cut: Db, both: bool)
    requires cut == TaggedSignature().(references := if both then map[] else map[11 := Reference(1, 3)])
    ensures AccessoryRows(cut, 2) == {20} && ReferenceRows(cut, 2) == {} && AccessoryRows(cut, 3) == {} && ReferenceRows(cut, 3) == {}
    ensures Proceeds(cut, 2, false) && cut.Tagged(3) && (cut.HasParent(3) <==> !both) && !cut.IsAccessory(2)
  {
    assert 25 in cut.tags;
    assert !both ==> 11 in cut.references;
  }

  /** Image first: its signature is still listed when its row comes, and stays behind with its tag. */
  lemma TaggedSignatureStays(env: Env)
    requires Total(env.order) && env.order.references(10) < env.order.references(11)
    ensures TaggedSignature().Valid()
    ensures var sim := Deep(TaggedSignature(), env, 1, true, false, {});
      sim.Done? && sim.db.artifacts.Keys == {3}
  {
    var db := TaggedSignature();
    TaggedSignatureIsValid();
    TaggedSignatureRows();
    ImageGoesAlone(env);
    hide Deep, Accs, Kids;
    assert !DropReferences(db, {10}).IsAccessory(2);
    var mid := Deep(DropReferences(db, {10}), env, 2, false, false, {1}).db;
    TwoChildren(db, env, 1, 10, 11, mid);
    IndexGoesLast(env, mid);
  }

  lemma IndexGoesLast(env: Env, mid: Db)
    requires mid.artifacts.Keys == {1, 3} && mid.tags == map[25 := Tag(0, 3, "v1")]
    ensures var last := DropReferences(mid, {11});
      && Deep(last, env, 3, false, last.IsAccessory(3), {1}) == Done(last)
      && Last(last, env, 1, true).Done? && Last(last, env, 1, true).db.artifacts.Keys == {3}
  {
    var last := DropReferences(mid, {11});
    SignatureIsKept(env, last, {1});
    hide Deep;
    assert NoImmutableTag(last, env.rules, {1});
  }

  lemma SignatureIsKept(env: Env, last: Db, busy: set<int>)
    requires last.tags == map[25 := Tag(0, 3, "v1")]
    ensures Deep(last, env, 3, false, last.IsAccessory(3), busy) == Done(last)
  {
    assert 25 in last.tags && last.Tagged(3);
  }

  lemma ImageGoesAlone(env: Env)
    requires Total(env.order)
    ensures var sim := Deep(DropReferences(TaggedSignature(), {10}), env, 2, false, false, {1});
      && sim.Done? && sim.db.artifacts.Keys == {1, 3} && sim.db.tags == map[25 := Tag(0, 3, "v1")]
      && sim.db.references == map[11 := Reference(1, 3)]
  {
    var cut := DropReferences(TaggedSignature(), {10});
    assert cut.references == map[11 := Reference(1, 3)];
    CutRows(cut, false);
    OneAccessory(cut, env, 2, false, 20, {1});
    assert Deep(cut, env, 3, false, true, {1} + {2}) == Done(cut);
    assert Last(cut, env, 2, false) == Done(Erased(cut, 2));
    assert Erased(cut, 2).tags == map[25 := Tag(0, 3, "v1")];
  }

  /** Signature first: it is no longer listed when the image goes, and goes with it. */
  lemma TaggedSignatureGoes(env: Env)
    requires Total(env.order) && env.order.references(11) < env.order.references(10) && !env.rules(0, 0, "v1")
    ensures var sim := Deep(TaggedSignature(), env, 1, true, false, {});
      sim.Done? && sim.db.artifacts.Keys == {}
  {
    var db := TaggedSignature();
    TaggedSignatureRows();
    var cut := DropReferences(db, {11});
    SignatureIsKept(env, cut, {1});
    hide Deep, Accs, Kids;
    TwoChildren(db, env, 1, 11, 10, cut);
    ImageTakesSignature(env);
    assert !DropReferences(cut, {10}).IsAccessory(2);
    var last := Deep(DropReferences(cut, {10}), env, 2, false, false, {1}).db;
    assert NoImmutableTag(last, env.rules, {1});
  }

  lemma ImageTakesSignature(env: Env)
    requires Total(env.order) && !env.rules(0, 0, "v1")
    ensures var sim := Deep(DropReferences(DropReferences(TaggedSignature(), {11}), {10}), env, 2, false, false, {1});
      sim.Done? && sim.db.artifacts.Keys == {1} && sim.db.tags == map[]
  {
    var cut := DropReferences(DropReferences(TaggedSignature(), {11}), {10});
    assert cut.references == map[];
    CutRows(cut, true);
    FreeSignatureGoes(env, cut);
    hide Deep, Accs, Kids;
    OneAccessory(cut, env, 2, false, 20, {1});
    var next := Deep(cut, env, 3, true, true, {1} + {2}).db;
    assert Last(next, env, 2, false) == Done(Erased(next, 2));
  }

  lemma FreeSignatureGoes(env: Env, cut: Db)
    requires Total(env.order) && !env.rules(0, 0, "v1") && cut == TaggedSignature().(references := map[])
    ensures var sim := Deep(cut, env, 3, true, true, {1} + {2});
      sim.Done? && sim.db.artifacts.Keys == {1, 2} && sim.db.tags == map[]
  {
    CutRows(cut, true);
    hide Deep;
    Leaf(cut, env, 3, true, true, {1} + {2});
    var next := Erased(DropAccessory(cut, 3, "c"), 3);
    assert next.artifacts.Keys == {1, 2} && next.tags == map[];
  }

  /** An index lists an image and one of its two signatures; the other signature is an index that
      lists the first one too. */
  function SharedSignature(): Db {
    Db(map[1 := Artifact(0, 0, "a", true), 2 := Artifact(0, 0, "b", false), 3 := Artifact(0, 0, "c", true), 4 := Artifact(0, 0, "d", false)],
       map[10 := Reference(1, 2), 11 := Reference(1, 4), 12 := Reference(3, 4)],
       map[20 := Accessory(3, 2, "c", Cosign), 21 := Accessory(4, 2, "d", Cosign)], map[], {}, 30)
  }

  lemma SharedSignatureRows()
    ensures var db := SharedSignature();
      AccessoryRows(db, 1) == {} && ReferenceRows(db, 1) == {10, 11} && !db.HasParent(1) && !db.IsAccessory(1)
  {
  }

  lemma SharedSignatureIsValid()
    ensures SharedSignature().Valid()
  {
  }

  lemma ImageRows(cut: Db)
    requires cut == SharedSignature().(references := map[12 := Reference(3, 4)])
    ensures AccessoryRows(cut, 2) == {20, 21} && ReferenceRows(cut, 2) == {} && Proceeds(cut, 2, false) && !cut.IsAccessory(2)
    ensures AccessoryRows(cut, 3) == {} && ReferenceRows(cut, 3) == {12} && Proceeds(cut, 3, true)
  {
  }

  lemma IndexTakesShared(env: Env, cut: Db)
    requires Total(env.order) && cut == SharedSignature().(references := map[12 := Reference(3, 4)])
    ensures var sim := Deep(cut, env, 3, true, true, {1, 2});
      sim.Done? && 4 !in sim.db.artifacts && sim.db.references == map[]
  {
    ImageRows(cut);
    hide Deep, Accs, Kids;
    OneChild(cut, env, 3, true, true, 12, {1, 2});
    var busy := {1, 2} + {3};
    var last := DropReferences(DropAccessory(cut, 3, "c"), {12});
    assert last.references == map[];
    assert 21 in last.accessories && last.IsAccessory(4);
    assert AccessoryRows(last, 4) == {} && ReferenceRows(last, 4) == {};
    Leaf(last, env, 4, false, true, busy);
    var next := Erased(DropAccessory(last, 4, "d"), 4);
    assert Deep(cut, env, 3, true, true, {1, 2}) == Done(Erased(next, 3));
  }

  lemma ImageFails(env: Env, cut: Db)
    requires Total(env.order) && env.order.accessories(20) < env.order.accessories(21)
    requires cut == SharedSignature().(references := map[12 := Reference(3, 4)])
    ensures Deep(cut, env, 2, false, false, {1}) == Fails(Missing)
  {
    var rows, busy := [20, 21], {1} + {2};
    ImageRows(cut);
    DeepIs(cut, env, 2, false, false, rows, [], {1});
    IndexTakesShared(env, cut);
    assert busy == {1, 2};
    AccsStep(cut, env, cut.accessories, rows, 0, busy);
    assert rows[0..] == rows && rows[0] == 20 && rows[1] == 21;
    var next := Deep(cut, env, 3, true, true, {1, 2}).db;
    AccsStep(next, env, cut.accessories, rows, 1, busy);
    assert !next.HasParent(4);
  }

  /** The delete can fail although nothing is collected with the first signature as the store
      stands: the other index lets go of the second one only on the way. */
  lemma FailsWithoutClash(env: Env)
    requires Total(env.order) && env.order.accessories(20) < env.order.accessories(21)
    requires env.order.references(11) < env.order.references(10)
    ensures SharedSignature().Valid() && Deep(SharedSignature(), env, 1, true, false, {}) == Fails(Missing)
    ensures !Clash(SharedSignature(), env.order, 1)
  {
    var db := SharedSignature();
    SharedSignatureRows();
    var first := DropReferences(db, {11});
    SharedIsListed(env, first);
    hide Deep, Accs, Kids;
    TwoChildren(db, env, 1, 11, 10, first);
    var cut := DropReferences(first, {10});
    assert cut.references == map[12 := Reference(3, 4)];
    ImageRows(cut);
    ImageFails(env, cut);
    SharedSignatureIsValid();
    SharedHasNoClash(env.order);
  }

  lemma SharedIsListed(env: Env, first: Db)
    requires 12 in first.references && first.references[12].child == 4 && 4 in first.artifacts
    ensures Deep(first, env, 4, false, first.IsAccessory(4), {1}) == Done(first)
  {
    assert first.HasParent(4);
  }

  lemma SharedHasNoClash(order: Order)
    requires order.accessories(20) < order.accessories(21)
    ensures !Clash(SharedSignature(), order, 1)
  {
    var base := Detached(SharedSignature(), 1);
    var d := Detached(base, 2);
    assert base.references == SharedSignature().references && d.references == base.references;
    assert 11 in d.references && d.references[11].child == 4 && d.references[11].parent == 1;
    assert Closed(d, {3}) by {
      forall x | x in d.artifacts && x != 3 ensures !Collectable(d, {3}, x) {
        assert !HardAccessoryOf(d, {3}, x);
      }
    }
    assert !InEveryClosed(d, 3, 4);
    forall s, p, q | HardRow(base, p, s) && HardRow(base, q, s) && order.accessories(p) < order.accessories(q)
      ensures s == 2 && p == 20 && q == 21
    {
    }
  }
}
