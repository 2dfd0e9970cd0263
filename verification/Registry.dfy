/** The rows of the artifact database: artifacts, index-to-child references,
    accessories (signatures, SBOMs, ...), tags and the trash of removed artifacts. */
module Registry {

  datatype Artifact = Artifact(project: int, repository: int, digest: string, index: bool)

  datatype Reference = Reference(parent: int, child: int)

  datatype AccessoryType = Base | Cosign | Notation | Nydus | Subject | HarborSBOM | InTotoAttestation {
    predicate IsHard() { !Base? }
  }

  /** Signatures, accelerators, SBOMs, attestations and other manifests with a subject are bound to
      it; only the base kind is not. */
  lemma KindsThatBind(kind: AccessoryType)
    ensures kind.IsHard() <==> kind in {Cosign, Notation, Nydus, Subject, HarborSBOM, InTotoAttestation}
    ensures !kind.IsHard() <==> kind == Base
  {
  }

  datatype Accessory = Accessory(artifact: int, subject: int, digest: string, kind: AccessoryType)

  datatype Tag = Tag(repository: int, artifact: int, name: string)

  /** A snapshot of all tables. `serial` is above every ID handed out so far. */
  datatype Db = Db(
    artifacts: map<int, Artifact>,
    references: map<int, Reference>,
    accessories: map<int, Accessory>,
    tags: map<int, Tag>,
    trash: set<(int, string)>,
    serial: int)
  {
    predicate HasParent(id: int) {
      exists r :: r in references && references[r].child == id
    }

    predicate Tagged(id: int) {
      exists t :: t in tags && tags[t].artifact == id
    }

    predicate IsAccessory(id: int) {
      exists a :: a in accessories && accessories[a].artifact == id
    }

    /** The foreign keys of the schema, plus what row creation guarantees: only an index
        has references, they stay inside its repository, an accessory row repeats the
        digest of its artifact, and no manifest is its own subject. */
    ghost predicate Valid() {
      && (forall r :: r in references ==>
            && references[r].parent in artifacts
            && references[r].child in artifacts
            && artifacts[references[r].parent].index
            && artifacts[references[r].parent].repository == artifacts[references[r].child].repository)
      && (forall t :: t in tags ==> tags[t].artifact in artifacts)
      && (forall a :: a in accessories ==>
            && accessories[a].artifact in artifacts
            && accessories[a].digest == artifacts[accessories[a].artifact].digest
            && accessories[a].artifact != accessories[a].subject)
      && (forall x :: x in artifacts ==> x < serial)
      && (forall r :: r in references ==> r < serial)
      && (forall a :: a in accessories ==> a < serial)
      && (forall t :: t in tags ==> t < serial)
    }

    /** The unique keys of the schema: one artifact per repository and digest, one tag per
        repository and name. */
    ghost predicate Unique() {
      && (forall x, y :: x in artifacts && y in artifacts && x != y ==>
            artifacts[x].repository != artifacts[y].repository || artifacts[x].digest != artifacts[y].digest)
      && (forall t, u :: t in tags && u in tags && t != u ==>
            tags[t].repository != tags[u].repository || tags[t].name != tags[u].name)
    }

    /** Children are older than the index that lists them, so references form no cycle. */
    ghost predicate Ordered() {
      forall r :: r in references ==> references[r].child < references[r].parent
    }

    /** The database after the artifacts in `gone` were removed: their own reference,
        accessory and tag rows disappear with them and each leaves a trash record. */
    ghost function Without(gone: set<int>): Db {
      Db(artifacts - gone,
         map r | r in references && references[r].parent !in gone :: references[r],
         map a | a in accessories && accessories[a].artifact !in gone :: accessories[a],
         map t | t in tags && tags[t].artifact !in gone :: tags[t],
         trash + (set x | x in gone && x in artifacts :: (artifacts[x].repository, artifacts[x].digest)),
         serial)
    }
  }

  lemma WithoutNothing(db: Db)
    ensures db.Without({}) == db
  {
    var e := db.Without({});
    assert e.artifacts == db.artifacts;
    assert e.references == db.references;
    assert e.accessories == db.accessories;
    assert e.tags == db.tags;
    assert e.trash == db.trash;
  }

  lemma WithoutTwice(db: Db, a: set<int>, b: set<int>)
    ensures db.Without(a).Without(b) == db.Without(a + b)
  {
    var l, r := db.Without(a).Without(b), db.Without(a + b);
    assert l.artifacts == r.artifacts;
    assert l.references == r.references;
    assert l.accessories == r.accessories;
    assert l.tags == r.tags;
    forall p | p in r.trash ensures p in l.trash {
      if p !in db.trash {
        var x :| x in a + b && x in db.artifacts && p == (db.artifacts[x].repository, db.artifacts[x].digest);
        if x in a {
          assert p in db.Without(a).trash;
        } else {
          assert x in db.Without(a).artifacts;
        }
      }
    }
    assert l.trash == r.trash;
  }
}
