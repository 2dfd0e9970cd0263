/** Copying an artifact into another repository: children and accessories first. */
module Copy {

  datatype Outcome = Ok | NotFound | RegistryError | ImmutableTag
    | TooDeep               // the recursion went deeper than it was allowed to

  /** A source artifact: the digests it lists, its accessories, its tags. */
  datatype Source = Source(children: seq<string>, accessories: seq<string>, tags: seq<string>)

  /** Tags of the destination that may not move, and manifests the registry fails to copy. */
  datatype Env = Env(immutable: string -> bool, down: string -> bool)

  /** The destination repository: its artifacts, its tags, and the registry copies made so far. */
  datatype Dest = Dest(artifacts: set<string>, tags: map<string, string>, copies: seq<string>)

  ghost predicate Successor(src: map<string, Source>, d: string, c: string) {
    d in src && (c in src[d].children || c in src[d].accessories)
  }

  ghost predicate Complete(src: map<string, Source>) {
    forall d, c :: Successor(src, d, c) ==> c in src
  }

  /** In what `root` needs beside `there`, references and accessories form no cycle. */
  ghost predicate Ranked(src: map<string, Source>, rank: string -> nat, there: set<string>, root: string) {
    forall d, c :: Needed(src, there, root, d) && d !in there && Successor(src, d, c) && c !in there ==> rank(c) < rank(d)
  }

  ghost predicate ChildrenIn(src: map<string, Source>, d: string, s: set<string>) {
    d in src ==> forall i :: 0 <= i < |src[d].children| ==> src[d].children[i] in s
  }

  ghost predicate WellFormed(src: map<string, Source>, rank: string -> nat, there: set<string>, root: string) {
    Complete(src) && UniqueTags(src) && Ranked(src, rank, there, root)
  }

  lemma WellFormedBelow(src: map<string, Source>, rank: string -> nat, there: set<string>, d: string, c: string)
    requires WellFormed(src, rank, there, d) && Successor(src, d, c) && d !in there && c !in there
    ensures WellFormed(src, rank, there, c) && rank(c) < rank(d)
  {
    assert Needed(src, there, d, d);
    forall x | Needed(src, there, c, x) ensures Needed(src, there, d, x) {
      forall s: set<string> | d in s && Needs(src, there, s) ensures x in s {
        assert c in s;
      }
    }
  }

  /** A tag belongs to one source artifact. */
  ghost predicate UniqueTags(src: map<string, Source>) {
    forall d, e, n :: d in src && e in src && n in src[d].tags && n in src[e].tags ==> d == e
  }

  /** Tags already where the source has them stay there, and immutable tags stay wherever they are. */
  ghost predicate TagsStay(src: map<string, Source>, immutable: string -> bool, a: Dest, b: Dest) {
    && (forall d, n :: d in src && n in src[d].tags && n in a.tags && a.tags[n] == d ==> n in b.tags && b.tags[n] == d)
    && (forall n :: n in a.tags && immutable(n) ==> n in b.tags && b.tags[n] == a.tags[n])
  }

  /** A tag is where it was, or where the source has it. */
  ghost predicate TagsFrom(src: map<string, Source>, a: Dest, b: Dest) {
    forall n :: n in b.tags ==>
      (n in a.tags && a.tags[n] == b.tags[n]) || (b.tags[n] in src && n in src[b.tags[n]].tags)
  }

  /** An immutable tag of the destination names something else. */
  ghost predicate Stands(env: Env, a: Dest, n: string, d: string) {
    n in a.tags && a.tags[n] != d && env.immutable(n)
  }

  /** Why a copy of `d` fails: the registry refuses something it needs, or an immutable tag stands
      in the way of one below it. */
  ghost predicate Blocked(src: map<string, Source>, env: Env, a: Dest, d: string, out: Outcome) {
    match out
    case Ok => true
    case NotFound => d !in src
    case TooDeep => true
    case RegistryError => exists x :: x !in a.artifacts && env.down(x) && Needed(src, a.artifacts, d, x)
    case ImmutableTag =>
      exists x, n :: x in src && n in src[x].tags && Stands(env, a, n, x) && Needed(src, {}, d, x)
  }

  ghost predicate TagStands(src: map<string, Source>, env: Env, a: Dest, d: string)
    requires d in src
  {
    exists n :: n in src[d].tags && Stands(env, a, n, d)
  }

  /** Every tag that `d` has in the source names it in the destination. */
  ghost predicate HasItsTags(src: map<string, Source>, b: Dest, d: string) {
    d in src && forall n :: n in src[d].tags ==> n in b.tags && b.tags[n] == d
  }

  /** Everything new carries the tags it has in the source. */
  ghost predicate TagsServed(src: map<string, Source>, a: Dest, b: Dest) {
    forall d, n :: d in b.artifacts - a.artifacts && d in src && n in src[d].tags ==> n in b.tags && b.tags[n] == d
  }

  /** Every artifact of the destination that the source knows has its children there. */
  ghost predicate ClosedUnderReferences(src: map<string, Source>, s: set<string>) {
    forall d :: d in s ==> ChildrenIn(src, d, s)
  }

  /** `s` holds whatever its members need and `there` lacks. */
  ghost predicate Needs(src: map<string, Source>, there: set<string>, s: set<string>) {
    forall d, c :: d in s && Successor(src, d, c) && c !in there ==> c in s
  }

  ghost predicate Needed(src: map<string, Source>, there: set<string>, root: string, x: string) {
    forall s: set<string> :: root in s && Needs(src, there, s) ==> x in s
  }

  ghost function Elems(q: seq<string>): set<string> {
    set i | 0 <= i < |q| :: q[i]
  }

  ghost predicate AllIn(src: map<string, Source>, d: string, s: set<string>) {
    forall c :: Successor(src, d, c) ==> c in s
  }

  /** Since `start`, each logged copy was new, made once, and made after its children and
      accessories were there. */
  ghost predicate Sound(src: map<string, Source>, start: set<string>, s: Dest) {
    && s.artifacts == start + Elems(s.copies)
    && (forall i :: 0 <= i < |s.copies| ==>
          && s.copies[i] in src
          && s.copies[i] !in start + Elems(s.copies[..i])
          && AllIn(src, s.copies[i], start + Elems(s.copies[..i])))
    && ClosedUnderReferences(src, s.artifacts)
  }

  lemma ElemsAppend(q: seq<string>, d: string)
    ensures Elems(q + [d]) == Elems(q) + {d}
  {
    var r := q + [d];
    forall i | 0 <= i < |q| ensures q[i] in Elems(r) {
      assert r[i] == q[i];
    }
    assert r[|q|] == d;
    assert d in Elems(r);
  }

  lemma NotThere(src: map<string, Source>, start: set<string>, s: Dest, c: string, d: string)
    requires Sound(src, start, s) && c !in s.artifacts && d !in s.artifacts
    ensures c !in start && d !in start
  {
  }

  lemma CopyOne(src: map<string, Source>, start: set<string>, s: Dest, d: string)
    requires Sound(src, start, s) && d in src && d !in s.artifacts && AllIn(src, d, s.artifacts)
    ensures Sound(src, start, s.(artifacts := s.artifacts + {d}, copies := s.copies + [d]))
  {
    ElemsAppend(s.copies, d);
    var t := s.(artifacts := s.artifacts + {d}, copies := s.copies + [d]);
    forall i | 0 <= i < |t.copies|
      ensures t.copies[i] in src && t.copies[i] !in start + Elems(t.copies[..i])
      ensures AllIn(src, t.copies[i], start + Elems(t.copies[..i]))
    {
      if i < |s.copies| {
        assert t.copies[..i] == s.copies[..i] && t.copies[i] == s.copies[i];
      } else {
        assert t.copies[..i] == s.copies;
      }
    }
    forall x | x in t.artifacts ensures ChildrenIn(src, x, t.artifacts) {
      assert x != d ==> ChildrenIn(src, x, s.artifacts);
      assert x == d ==> forall i :: 0 <= i < |src[d].children| ==> Successor(src, d, src[d].children[i]);
    }
  }

  class Target {
    const env: Env
    var dest: Dest

    constructor (env: Env, dest: Dest)
      ensures this.env == env && this.dest == dest
    {
      this.env, this.dest := env, dest;
    }

    /** Creating the row looks every child up in the destination. */
    method EnsureArtifact(src: map<string, Source>, d: string) returns (out: Outcome)
      requires d in src
      modifies this
      ensures out == if d in old(dest).artifacts || ChildrenIn(src, d, old(dest).artifacts) then Ok else NotFound
      ensures dest == if out.Ok? then old(dest).(artifacts := old(dest).artifacts + {d}) else old(dest)
    {
      if d in dest.artifacts {
        assert old(dest).artifacts + {d} == old(dest).artifacts;
        return Ok;
      }
      for i := 0 to |src[d].children|
        invariant dest == old(dest)
        invariant forall k :: 0 <= k < i ==> src[d].children[k] in dest.artifacts
      {
        if src[d].children[i] !in dest.artifacts {
          return NotFound;
        }
      }
      dest := dest.(artifacts := dest.artifacts + {d});
      return Ok;
    }

    /** Ensures the tags of the source artifact, whichever level of the copy it is at. */
    method EnsureTags(names: seq<string>, d: string) returns (out: Outcome)
      modifies this
      ensures dest == old(dest).(tags := dest.tags)
      ensures out.Ok? || out.ImmutableTag?
      ensures out.Ok? ==> forall i :: 0 <= i < |names| ==> names[i] in dest.tags && dest.tags[names[i]] == d
      ensures out.ImmutableTag? ==> exists n :: n in names && Stands(env, old(dest), n, d)
      ensures forall n :: n in old(dest).tags ==> n in dest.tags
      ensures forall n :: n in dest.tags ==> (n in names && dest.tags[n] == d) || (n in old(dest).tags && dest.tags[n] == old(dest).tags[n])
      ensures forall n :: n in old(dest).tags && env.immutable(n) ==> dest.tags[n] == old(dest).tags[n]
    {
      for i := 0 to |names|
        invariant dest == old(dest).(tags := dest.tags)
        invariant forall k :: 0 <= k < i ==> names[k] in dest.tags && dest.tags[names[k]] == d
        invariant forall n :: n in old(dest).tags ==> n in dest.tags
        invariant forall n :: n in dest.tags ==> (n in names && dest.tags[n] == d) || (n in old(dest).tags && dest.tags[n] == old(dest).tags[n])
        invariant forall n :: n in old(dest).tags && env.immutable(n) ==> dest.tags[n] == old(dest).tags[n]
      {
        if names[i] in dest.tags && dest.tags[names[i]] != d && env.immutable(names[i]) {
          assert names[i] in names && Stands(env, old(dest), names[i], d);
          return ImmutableTag;
        }
        dest := dest.(tags := dest.tags[names[i] := d]);
      }
      return Ok;
    }

    /** "copyDeeply", at most `depth` calls deep. */
    method CopyDeeply(src: map<string, Source>, d: string, isRoot: bool, isAcc: bool, depth: nat,
                      ghost start: set<string>, ghost rank: string -> nat) returns (out: Outcome)
      requires Complete(src) && UniqueTags(src) && Sound(src, start, dest)
      requires isAcc ==> d in dest.artifacts || d !in src || src[d].accessories == []
      modifies this
      ensures Sound(src, start, dest) && Step(src, env, old(dest), dest, d)
      ensures d in old(dest).artifacts ==>
        dest.artifacts == old(dest).artifacts && dest.copies == old(dest).copies && !out.RegistryError?
      ensures out.Ok? ==> d in dest.artifacts && Served(src, old(dest), dest)
      ensures Blocked(src, env, old(dest), d, out) && (d !in src && depth > 0 ==> out.NotFound?)
      ensures out.Ok? && isRoot ==> HasItsTags(src, dest, d)
      ensures d in old(dest).artifacts && d in src && depth > 0 ==>
        out == if isRoot && TagStands(src, env, old(dest), d) then ImmutableTag else Ok
      ensures Enough(src, rank, start, old(dest).artifacts, d, depth) ==> !out.TooDeep?
      decreases depth, 1
    {
      hide Sound, Step, Served, Blocked;
      ghost var pre := dest;
      StepNothing(src, env, pre, d);
      BlockedHere(src, env, pre, pre, d);
      if depth == 0 {
        return TooDeep;
      }
      if d !in src {
        return NotFound;
      }
      if d in dest.artifacts {
        if !isRoot {
          return Ok;
        }
        out := EnsureArtifact(src, d);
        assert pre.artifacts + {d} == pre.artifacts;
        out := EnsureTags(src[d].tags, d);
        TagsOnly(src, env, start, pre, pre, dest, d);
        return;
      }
      out := CopyChildren(src, d, depth - 1, start, rank);
      if !out.Ok? {
        return;
      }
      ghost var mid := dest;
      if !isAcc {
        out := CopyAccessories(src, d, depth - 1, start, rank);
        BlockedLater(src, env, pre, mid, d, out);
        StepTwice(src, env, pre, mid, dest, d);
        if !out.Ok? {
          return;
        }
        ServedTwice(src, env, pre, mid, dest, d);
      }
      if env.down(d) {
        return RegistryError;
      }
      ghost var cur := dest;
      BlockedHere(src, env, pre, cur, d);
      dest := dest.(copies := dest.copies + [d]);
      out := EnsureArtifact(src, d);
      AllThere(src, d, cur.artifacts);
      CopyOne(src, start, cur, d);
      StepOne(src, env, pre, cur, d);
      mid := dest;
      out := EnsureTags(src[d].tags, d);
      TagsOnly(src, env, start, pre, mid, dest, d);
      if out.Ok? {
        ServedOne(src, env, pre, cur, dest, d);
      }
    }

    method CopyChildren(src: map<string, Source>, d: string, depth: nat, ghost start: set<string>, ghost rank: string -> nat)
      returns (out: Outcome)
      requires Complete(src) && UniqueTags(src) && Sound(src, start, dest) && d in src && d !in dest.artifacts
      modifies this
      ensures Sound(src, start, dest) && Step(src, env, old(dest), dest, d) && d !in dest.artifacts
      ensures out.Ok? ==> ChildrenIn(src, d, dest.artifacts) && Served(src, old(dest), dest)
      ensures !out.NotFound? && Blocked(src, env, old(dest), d, out)
      ensures WellFormed(src, rank, start, d) && rank(d) < depth ==> !out.TooDeep?
      decreases depth, 2
    {
      hide Sound, Step, Served, Blocked;
      StepNothing(src, env, dest, d);
      for i := 0 to |src[d].children|
        invariant Sound(src, start, dest) && Step(src, env, old(dest), dest, d) && Served(src, old(dest), dest)
        invariant forall k :: 0 <= k < i ==> src[d].children[k] in dest.artifacts
        invariant d !in dest.artifacts
      {
        ghost var mid := dest;
        var c := src[d].children[i];
        assert Successor(src, d, c);
        EnoughBelow(src, rank, start, dest, d, c, depth);
        out := CopyDeeply(src, c, false, false, depth, start, rank);
        BlockedBelow(src, env, old(dest), mid, d, c, out);
        StepBelow(src, env, start, old(dest), mid, dest, d, c);
        if !out.Ok? {
          return;
        }
        ServedTwice(src, env, old(dest), mid, dest, c);
      }
      out := Ok;
      NotBlocked(src, env, old(dest), d);
    }

    method CopyAccessories(src: map<string, Source>, d: string, depth: nat, ghost start: set<string>, ghost rank: string -> nat)
      returns (out: Outcome)
      requires Complete(src) && UniqueTags(src) && Sound(src, start, dest) && d in src && d !in dest.artifacts
      modifies this
      ensures Sound(src, start, dest) && Step(src, env, old(dest), dest, d) && d !in dest.artifacts
      ensures old(dest).artifacts <= dest.artifacts
      ensures out.Ok? ==> forall c :: c in src[d].accessories ==> c in dest.artifacts
      ensures out.Ok? ==> Served(src, old(dest), dest)
      ensures !out.NotFound? && Blocked(src, env, old(dest), d, out)
      ensures WellFormed(src, rank, start, d) && rank(d) < depth ==> !out.TooDeep?
      decreases depth, 2
    {
      hide Sound, Step, Served, Blocked;
      StepNothing(src, env, dest, d);
      for i := 0 to |src[d].accessories|
        invariant Sound(src, start, dest) && Step(src, env, old(dest), dest, d) && Served(src, old(dest), dest)
        invariant forall k :: 0 <= k < i ==> src[d].accessories[k] in dest.artifacts
        invariant d !in dest.artifacts && old(dest).artifacts <= dest.artifacts
      {
        var c := src[d].accessories[i];
        assert Successor(src, d, c);
        EnoughBelow(src, rank, start, dest, d, c, depth);
        if src[c].accessories != [] {
          ghost var mid := dest;
          out := CopyDeeply(src, c, true, false, depth, start, rank);
          BlockedBelow(src, env, old(dest), mid, d, c, out);
          StepBelow(src, env, start, old(dest), mid, dest, d, c);
          if !out.Ok? {
            return;
          }
          ServedTwice(src, env, old(dest), mid, dest, c);
        }
        ghost var mid := dest;
        EnoughBelow(src, rank, start, dest, d, c, depth);
        out := CopyDeeply(src, c, false, true, depth, start, rank);
        BlockedBelow(src, env, old(dest), mid, d, c, out);
        StepBelow(src, env, start, old(dest), mid, dest, d, c);
        if !out.Ok? {
          return;
        }
        ServedTwice(src, env, old(dest), mid, dest, c);
      }
      out := Ok;
      NotBlocked(src, env, old(dest), d);
    }

    /** "Copy": on success exactly what was missing below `d` was copied, each once, children
        first; on any failure the destination is still closed under references. On a cycle among
        what is missing no depth of recursion is enough; without one a depth above the number of
        missing artifacts is. */
    method Copy(src: map<string, Source>, d: string, depth: nat) returns (out: Outcome)
      requires Complete(src) && UniqueTags(src)
      requires ClosedUnderReferences(src, dest.artifacts) && dest.copies == []
      modifies this
      ensures Sound(src, old(dest).artifacts, dest)
      ensures out.Ok? ==> forall x :: x in dest.artifacts <==>
        x in old(dest).artifacts || (d !in old(dest).artifacts && Needed(src, old(dest).artifacts, d, x))
      ensures d in old(dest).artifacts ==> dest.copies == []
      ensures TagsStay(src, env.immutable, old(dest), dest)
      ensures out.Ok? ==> TagsServed(src, old(dest), dest) && HasItsTags(src, dest, d)
      ensures d in old(dest).artifacts && d in src && depth > 0 ==>
        out == if exists n :: n in src[d].tags && Stands(env, old(dest), n, d) then ImmutableTag else Ok
      ensures Blocked(src, env, old(dest), d, out) && (d !in src && depth > 0 ==> out.NotFound?)
      ensures forall x :: x in dest.artifacts - old(dest).artifacts ==> !env.down(x)
      ensures d !in old(dest).artifacts && Cyclic(src, old(dest).artifacts, d) ==> !out.Ok?
      ensures depth > |MissingBelow(src, old(dest).artifacts, d)| && (d in old(dest).artifacts || !Cyclic(src, old(dest).artifacts, d)) ==>
        !out.TooDeep?
    {
      ghost var pre := dest;
      assert Elems([]) == {};
      ghost var rank: string -> nat := _ => 0;
      if d in src && d !in dest.artifacts && !Cyclic(src, dest.artifacts, d) {
        rank := NoCycleHasRank(src, dest.artifacts, d);
        assert Needed(src, dest.artifacts, d, d);
      }
      out := CopyDeeply(src, d, true, false, depth, dest.artifacts, rank);
      if out.Ok? && d !in pre.artifacts {
        ghost var s := dest.artifacts - pre.artifacts;
        assert Needs(src, pre.artifacts, s);
        NotOnACycle(src, pre.artifacts, dest, d);
      }
    }
  }

  /** The depth is enough for the copy of `d`, as far as `rank` can tell. */
  ghost predicate Enough(src: map<string, Source>, rank: string -> nat, start: set<string>, there: set<string>, d: string, depth: nat) {
    depth > 0 && (d in there || d !in src || (WellFormed(src, rank, start, d) && rank(d) + 1 < depth))
  }

  lemma EnoughBelow(src: map<string, Source>, rank: string -> nat, start: set<string>, s: Dest, d: string, c: string, depth: nat)
    requires Sound(src, start, s) && Successor(src, d, c) && d !in s.artifacts
    ensures WellFormed(src, rank, start, d) && rank(d) < depth ==> Enough(src, rank, start, s.artifacts, c, depth)
  {
    if WellFormed(src, rank, start, d) && c !in s.artifacts {
      NotThere(src, start, s, c, d);
      WellFormedBelow(src, rank, start, d, c);
    }
  }

  lemma AllThere(src: map<string, Source>, d: string, s: set<string>)
    requires d in src && ChildrenIn(src, d, s) && forall c :: c in src[d].accessories ==> c in s
    ensures AllIn(src, d, s)
  {
  }

  /** Of a cycle that was missing at the start nothing is ever copied: the first copy would come
      before something it needs. */
  lemma CycleNeverCopied(src: map<string, Source>, start: set<string>, s: Dest, k: set<string>)
    requires Sound(src, start, s) && Cycle(src, k) && k !! start
    ensures k !! s.artifacts
  {
    hide LeadsInto, Successor;
    FirstOfCycle(src, start, s, k, |s.copies|);
    assert s.copies[..|s.copies|] == s.copies;
  }

  lemma {:induction false} FirstOfCycle(src: map<string, Source>, start: set<string>, s: Dest, k: set<string>, n: nat)
    requires Sound(src, start, s) && Cycle(src, k) && k !! start && n <= |s.copies|
    ensures k !! Elems(s.copies[..n])
  {
    hide LeadsInto, AllIn, ClosedUnderReferences, Elems;
    if n > 0 {
      var x, before := s.copies[n - 1], s.copies[..n - 1];
      FirstOfCycle(src, start, s, k, n - 1);
      assert s.copies[..n] == before + [x];
      ElemsAppend(before, x);
      assert AllIn(src, x, start + Elems(before));
      hide Sound;
      if x in k {
        LeadsThere(src, k, x, start + Elems(before));
      }
    } else {
      NoElems(s.copies[..0]);
    }
  }

  lemma NoElems(q: seq<string>)
    requires q == []
    ensures Elems(q) == {}
  {
  }

  lemma LeadsThere(src: map<string, Source>, k: set<string>, x: string, s: set<string>)
    requires LeadsInto(src, k, x) && AllIn(src, x, s)
    ensures k * s != {}
  {
    hide Successor;
    var c :| c in k && Successor(src, x, c);
    assert c in k * s;
  }

  /** A complete copy met no cycle. */
  lemma NotOnACycle(src: map<string, Source>, start: set<string>, s: Dest, d: string)
    requires Sound(src, start, s) && forall x :: Needed(src, start, d, x) ==> x in s.artifacts
    ensures !Cyclic(src, start, d)
  {
    hide Needed, Sound, LeadsInto;
    forall k: set<string> | Cycle(src, k) ensures !(k <= MissingBelow(src, start, d)) {
      var x :| x in k;
      if k !! start {
        CycleNeverCopied(src, start, s, k);
        assert x !in MissingBelow(src, start, d);
      }
    }
  }

  /** What needs itself is on a cycle. */
  lemma BackToItself(src: map<string, Source>, there: set<string>, d: string, c: string) returns (k: set<string>)
    requires Complete(src) && d in src && d !in there && c !in there && Successor(src, d, c) && Needed(src, there, c, d)
    ensures Cycle(src, k) && d in k && k !! there
  {
    k := set x | x in src && x !in there && Needed(src, there, x, d);
    assert Needed(src, there, d, d) && c in src && d in k && c in k && k !! there;
    hide Needed, Successor, LeadsInto;
    forall x | x in k ensures LeadsInto(src, k, x) {
      var y := c;
      if x != d {
        y := NextTowards(src, there, x, d);
      }
      Leads(src, k, x, y);
    }
  }

  lemma Leads(src: map<string, Source>, k: set<string>, x: string, y: string)
    requires y in k && Successor(src, x, y)
    ensures LeadsInto(src, k, x)
  {
  }

  lemma NextTowards(src: map<string, Source>, there: set<string>, x: string, d: string) returns (y: string)
    requires Complete(src) && x in src && x != d && Needed(src, there, x, d)
    ensures Successor(src, x, y) && y in src && y !in there && Needed(src, there, y, d)
  {
    var s := (set z | z in src && !Needed(src, there, z, d)) + {x};
    assert Needed(src, there, d, d);
    assert !Needs(src, there, s);
    var z, w :| z in s && Successor(src, z, w) && w !in there && w !in s;
    y := w;
    assert w in src;
    if z != x {
      forall t: set<string> | z in t && Needs(src, there, t) ensures d in t {
        assert w in t;
      }
    }
  }

  lemma NeededNext(src: map<string, Source>, there: set<string>, c: string, y: string, z: string)
    requires Needed(src, there, c, y) && Successor(src, y, z) && z !in there
    ensures Needed(src, there, c, z)
  {
    forall s: set<string> | c in s && Needs(src, there, s) ensures z in s {
      assert y in s;
    }
  }

  ghost function MissingBelow(src: map<string, Source>, there: set<string>, root: string): set<string> {
    set x | x in src && x !in there && Needed(src, there, root, x)
  }

  /** Each member of `k` has a child or an accessory in `k`. */
  ghost predicate Cycle(src: map<string, Source>, k: set<string>) {
    k != {} && forall x :: x in k ==> LeadsInto(src, k, x)
  }

  ghost predicate LeadsInto(src: map<string, Source>, k: set<string>, x: string) {
    exists c :: c in k && Successor(src, x, c)
  }

  /** Among what `root` needs and `there` lacks, references and accessories form a cycle. */
  ghost predicate Cyclic(src: map<string, Source>, there: set<string>, root: string) {
    exists k: set<string> :: k <= MissingBelow(src, there, root) && Cycle(src, k)
  }

  /** Where there is no cycle, a member without successors goes below the others. */
  lemma {:induction false} RankWithin(src: map<string, Source>, k: set<string>) returns (rank: map<string, nat>)
    requires forall j: set<string> :: j <= k ==> !Cycle(src, j)
    ensures rank.Keys == k && forall d :: d in k ==> rank[d] < |k|
    ensures forall d, c :: d in k && c in k && Successor(src, d, c) ==> rank[c] < rank[d]
    decreases |k|
  {
    rank := map[];
    if k != {} {
      assert !Cycle(src, k);
      var x :| x in k && forall c :: c in k ==> !Successor(src, x, c);
      var above := RankWithin(src, k - {x});
      rank := map y | y in k :: if y == x then 0 else above[y] + 1;
    }
  }

  /** The recursion has a measure if and only if there is no cycle. */
  lemma NoCycleHasRank(src: map<string, Source>, there: set<string>, root: string) returns (rank: string -> nat)
    requires Complete(src) && !Cyclic(src, there, root)
    ensures Ranked(src, rank, there, root)
    ensures forall x :: x in MissingBelow(src, there, root) ==> rank(x) < |MissingBelow(src, there, root)|
  {
    var m := RankWithin(src, MissingBelow(src, there, root));
    rank := x => if x in m then m[x] else 0;
    forall d, c | Needed(src, there, root, d) && d !in there && Successor(src, d, c) && c !in there ensures rank(c) < rank(d) {
      NeededNext(src, there, root, d, c);
    }
  }

  lemma CycleHasNoRank(src: map<string, Source>, there: set<string>, root: string, rank: string -> nat)
    requires Cyclic(src, there, root)
    ensures !Ranked(src, rank, there, root)
  {
    hide Cycle, Ranked, Needed, Successor;
    var k: set<string> :| k <= MissingBelow(src, there, root) && Cycle(src, k);
    var x, c := LowestStep(src, k, rank);
    RankedStep(src, rank, there, root, x, c);
  }

  lemma LowestStep(src: map<string, Source>, k: set<string>, rank: string -> nat) returns (x: string, c: string)
    requires Cycle(src, k)
    ensures x in k && c in k && Successor(src, x, c) && rank(x) <= rank(c)
  {
    hide Successor;
    x := Lowest(k, rank);
    assert LeadsInto(src, k, x);
    c :| c in k && Successor(src, x, c);
  }

  lemma RankedStep(src: map<string, Source>, rank: string -> nat, there: set<string>, root: string, x: string, c: string)
    requires x in MissingBelow(src, there, root) && c !in there && Successor(src, x, c)
    ensures Ranked(src, rank, there, root) ==> rank(c) < rank(x)
  {
    hide Needed, Successor;
  }

  lemma {:induction false} Lowest(k: set<string>, rank: string -> nat) returns (x: string)
    requires k != {}
    ensures x in k && forall y :: y in k ==> rank(x) <= rank(y)
  {
    x :| x in k;
    if k != {x} {
      var y := Lowest(k - {x}, rank);
      if rank(y) < rank(x) { x := y; }
    }
  }

  /** Nothing is lost, everything new was needed for `d`, and no tag moved that should not. */
  ghost predicate Step(src: map<string, Source>, env: Env, a: Dest, b: Dest, d: string) {
    && a.artifacts <= b.artifacts && a.copies <= b.copies
    && (forall x :: x in b.artifacts - a.artifacts ==> Needed(src, a.artifacts, d, x))
    && (forall x :: x in b.artifacts - a.artifacts ==> !env.down(x))
    && TagsStay(src, env.immutable, a, b) && TagsFrom(src, a, b)
  }

  /** Everything new has all it needs and its tags. */
  ghost predicate Served(src: map<string, Source>, a: Dest, b: Dest) {
    && (forall x, c :: x in b.artifacts - a.artifacts && Successor(src, x, c) ==> c in b.artifacts)
    && TagsServed(src, a, b)
  }

  lemma StepNothing(src: map<string, Source>, env: Env, a: Dest, d: string)
    ensures Step(src, env, a, a, d) && Served(src, a, a)
  {
  }

  lemma StepTwice(src: map<string, Source>, env: Env, a: Dest, m: Dest, b: Dest, d: string)
    requires Step(src, env, a, m, d) && Step(src, env, m, b, d)
    ensures Step(src, env, a, b, d) && m.artifacts <= b.artifacts
  {
    forall x | x in b.artifacts - a.artifacts ensures Needed(src, a.artifacts, d, x) {
      if x !in m.artifacts {
        NeededLess(src, a.artifacts, m.artifacts, d, x);
      }
    }
  }

  /** What one successor `c` of `d` needed, `d` needed; and it did not need `d`. */
  lemma StepBelow(src: map<string, Source>, env: Env, start: set<string>, a: Dest, m: Dest, b: Dest, d: string, c: string)
    requires Complete(src) && Sound(src, start, m) && Sound(src, start, b) && Step(src, env, a, m, d) && Step(src, env, m, b, c)
    requires Successor(src, d, c) && d !in m.artifacts && (c in m.artifacts ==> b.artifacts == m.artifacts)
    ensures Step(src, env, a, b, d) && d !in b.artifacts && a.artifacts <= m.artifacts <= b.artifacts
  {
    forall x | x in b.artifacts - a.artifacts ensures Needed(src, a.artifacts, d, x) {
      if x !in m.artifacts {
        NeededLess(src, a.artifacts, m.artifacts, c, x);
        forall s: set<string> | d in s && Needs(src, a.artifacts, s) ensures x in s {
          assert c in s;
        }
      }
    }
    NotNeededBack(src, env, start, m, b, d, c);
  }

  lemma NotNeededBack(src: map<string, Source>, env: Env, start: set<string>, m: Dest, b: Dest, d: string, c: string)
    requires Complete(src) && Sound(src, start, m) && Sound(src, start, b) && Step(src, env, m, b, c)
    requires Successor(src, d, c) && d !in m.artifacts && (c in m.artifacts ==> b.artifacts == m.artifacts)
    ensures d !in b.artifacts
  {
    if d in b.artifacts {
      NotThere(src, start, m, c, d);
      NeededLess(src, start, m.artifacts, c, d);
      var k := BackToItself(src, start, d, c);
      CycleNeverCopied(src, start, b, k);
    }
  }

  lemma StepOne(src: map<string, Source>, env: Env, a: Dest, m: Dest, d: string)
    requires Step(src, env, a, m, d) && !env.down(d)
    ensures Step(src, env, a, m.(artifacts := m.artifacts + {d}, copies := m.copies + [d]), d)
  {
  }

  lemma TagsOnly(src: map<string, Source>, env: Env, start: set<string>, a: Dest, m: Dest, b: Dest, d: string)
    requires UniqueTags(src) && Step(src, env, a, m, d) && Sound(src, start, m) && d in src
    requires b == m.(tags := b.tags) && forall n :: n in m.tags ==> n in b.tags
    requires forall n :: n in b.tags ==> (n in src[d].tags && b.tags[n] == d) || (n in m.tags && b.tags[n] == m.tags[n])
    requires forall n :: n in m.tags && env.immutable(n) ==> b.tags[n] == m.tags[n]
    ensures Step(src, env, a, b, d) && Sound(src, start, b)
    ensures TagsStay(src, env.immutable, m, b)
    ensures a.artifacts == m.artifacts ==> Served(src, a, b)
  {
  }

  lemma ServedTwice(src: map<string, Source>, env: Env, a: Dest, m: Dest, b: Dest, c: string)
    requires Served(src, a, m) && Served(src, m, b) && Step(src, env, m, b, c)
    ensures Served(src, a, b) && m.artifacts <= b.artifacts
  {
  }

  /** `d` itself, copied last, has its children, its accessories and its tags. */
  lemma ServedOne(src: map<string, Source>, env: Env, a: Dest, m: Dest, b: Dest, d: string)
    requires Served(src, a, m) && d in src && ChildrenIn(src, d, m.artifacts)
    requires forall c :: c in src[d].accessories ==> c in m.artifacts
    requires b.artifacts == m.artifacts + {d} && TagsStay(src, env.immutable, m, b)
    requires forall i :: 0 <= i < |src[d].tags| ==> src[d].tags[i] in b.tags && b.tags[src[d].tags[i]] == d
    ensures Served(src, a, b)
  {
  }

  lemma NeededLess(src: map<string, Source>, a: set<string>, m: set<string>, d: string, x: string)
    requires a <= m && Needed(src, m, d, x)
    ensures Needed(src, a, d, x)
  {
    forall s: set<string> | d in s && Needs(src, a, s) ensures x in s {
      assert Needs(src, m, s);
    }
  }

  lemma NotBlocked(src: map<string, Source>, env: Env, a: Dest, d: string)
    ensures Blocked(src, env, a, d, Ok)
  {
  }

  /** What stops the copy of `d` itself. */
  lemma BlockedHere(src: map<string, Source>, env: Env, a: Dest, m: Dest, d: string)
    requires UniqueTags(src) && Step(src, env, a, m, d)
    ensures Blocked(src, env, a, d, Ok) && Blocked(src, env, a, d, TooDeep) && (d !in src ==> Blocked(src, env, a, d, NotFound))
    ensures d !in a.artifacts && env.down(d) ==> Blocked(src, env, a, d, RegistryError)
    ensures forall n :: d in src && n in src[d].tags && Stands(env, m, n, d) ==> Blocked(src, env, a, d, ImmutableTag)
  {
    assert Needed(src, a.artifacts, d, d) && Needed(src, {}, d, d);
    forall n | d in src && n in src[d].tags && Stands(env, m, n, d) ensures Stands(env, a, n, d) {
    }
  }

  /** What stops a later part of the copy would have stopped it at the start. */
  lemma BlockedLater(src: map<string, Source>, env: Env, a: Dest, m: Dest, d: string, out: Outcome)
    requires UniqueTags(src) && Step(src, env, a, m, d) && Blocked(src, env, m, d, out)
    ensures Blocked(src, env, a, d, out)
  {
    if out.RegistryError? {
      var x :| x !in m.artifacts && env.down(x) && Needed(src, m.artifacts, d, x);
      NeededLess(src, a.artifacts, m.artifacts, d, x);
    } else if out.ImmutableTag? {
      var x, n :| x in src && n in src[x].tags && Stands(env, m, n, x) && Needed(src, {}, d, x);
      assert Stands(env, a, n, x);
    }
  }

  /** What stops a successor stops `d`. */
  lemma BlockedBelow(src: map<string, Source>, env: Env, a: Dest, m: Dest, d: string, c: string, out: Outcome)
    requires Complete(src) && UniqueTags(src) && Step(src, env, a, m, d) && Blocked(src, env, m, c, out) && Successor(src, d, c)
    requires c in m.artifacts ==> !out.RegistryError?
    ensures Blocked(src, env, a, d, out) && !out.NotFound?
  {
    if out.RegistryError? {
      var x :| x !in m.artifacts && env.down(x) && Needed(src, m.artifacts, c, x);
      NeededLess(src, a.artifacts, m.artifacts, c, x);
      forall s: set<string> | d in s && Needs(src, a.artifacts, s) ensures x in s {
        assert c in s;
      }
    } else if out.ImmutableTag? {
      var x, n :| x in src && n in src[x].tags && Stands(env, m, n, x) && Needed(src, {}, c, x);
      assert Stands(env, a, n, x);
      forall s: set<string> | d in s && Needs(src, {}, s) ensures x in s {
        assert c in s;
      }
    }
  }
}
