/** Concurrent calls that ensure one tag name in one repository, as interleaved steps. */
module TagRace {
  import opened Sets

  /** Fixed while the calls run: the stored artifacts, whether the immutability rules match
      the tag when it is attached to an artifact, whether the name is valid. */
  datatype Env = Env(artifacts: set<int>, immutable: int -> bool, validName: bool)

  datatype Call =
    | Listing(want: int)                           // about to list the tags of that name
    | Creating(want: int)                          // saw none, about to insert
    | Relisting(want: int)                         // insert hit the unique key
    | Holding(want: int, tag: int, artifact: int)  // saw this row
    | Updating(want: int, tag: int)                // about to repoint it
    | Returned(want: int, tag: int)
    | Failed(want: int)

  /** `rows` are the tags of that repository and name: ID to artifact. */
  datatype State = State(rows: map<int, int>, next: int, calls: map<int, Call>)

  ghost predicate ListStep(env: Env, s: State, t: State, c: int) {
    && c in s.calls && (s.calls[c].Listing? || s.calls[c].Relisting?)
    && var want := s.calls[c].want;
    if s.rows == map[] then
      t == s.(calls := s.calls[c := if s.calls[c].Listing? then Creating(want) else Failed(want)])
    else
      exists id :: id in s.rows && t == s.(calls := s.calls[c := Holding(want, id, s.rows[id])])
  }

  ghost predicate CreateStep(env: Env, s: State, t: State, c: int) {
    && c in s.calls && s.calls[c].Creating?
    && var want := s.calls[c].want;
    if !env.validName || (s.rows == map[] && want !in env.artifacts) then
      t == s.(calls := s.calls[c := Failed(want)])
    else if s.rows != map[] then
      t == s.(calls := s.calls[c := Relisting(want)])
    else
      t == State(s.rows[s.next := want], s.next + 1, s.calls[c := Returned(want, s.next)])
  }

  ghost predicate DecideStep(env: Env, s: State, t: State, c: int) {
    && c in s.calls && s.calls[c].Holding?
    && var Holding(want, tag, artifact) := s.calls[c];
    t == s.(calls := s.calls[c :=
      if artifact == want then Returned(want, tag)
      else if artifact in env.artifacts && env.immutable(artifact) then Failed(want)
      else Updating(want, tag)])
  }

  ghost predicate UpdateStep(env: Env, s: State, t: State, c: int) {
    && c in s.calls && s.calls[c].Updating?
    && var Updating(want, tag) := s.calls[c];
    if tag in s.rows && want in env.artifacts then
      t == s.(rows := s.rows[tag := want], calls := s.calls[c := Returned(want, tag)])
    else
      t == s.(calls := s.calls[c := Failed(want)])
  }

  /** A new call arrives. */
  ghost predicate CallStep(s: State, t: State, c: int, want: int) {
    c !in s.calls && t == s.(calls := s.calls[c := Listing(want)])
  }

  ghost predicate Next(env: Env, s: State, t: State) {
    || t == s
    || (exists c :: ListStep(env, s, t, c) || CreateStep(env, s, t, c) || DecideStep(env, s, t, c) || UpdateStep(env, s, t, c))
    || (exists c, want :: CallStep(s, t, c, want))
  }

  ghost predicate Start(env: Env, s: State) {
    && |s.rows| <= 1 && s.calls == map[]
    && (forall id :: id in s.rows ==> id < s.next && s.rows[id] in env.artifacts)
  }

  ghost predicate IsRun(env: Env, run: seq<State>) {
    && run != [] && Start(env, run[0])
    && forall i :: 0 <= i < |run| - 1 ==> Next(env, run[i], run[i + 1])
  }

  /** Some call so far asked for artifact `a`. */
  ghost predicate Asked(s: State, a: int) {
    exists c :: c in s.calls && s.calls[c].want == a
  }

  ghost predicate OneRow(s: State) {
    forall a, b :: a in s.rows && b in s.rows ==> a == b
  }

  ghost predicate Inv(env: Env, s0: State, s: State) {
    && OneRow(s)
    && (forall id :: id in s.rows ==>
          id < s.next && s.rows[id] in env.artifacts && ((id in s0.rows && s.rows[id] == s0.rows[id]) || Asked(s, s.rows[id])))
    && (forall id :: id in s0.rows ==> id in s.rows)
    && (forall c :: c in s.calls && (s.calls[c].Returned? || s.calls[c].Holding? || s.calls[c].Updating?) ==>
          s.calls[c].tag in s.rows)
    && (forall c :: c in s.calls && s.calls[c].Relisting? ==> s.rows != map[])
  }

  lemma AskedStays(s: State, t: State, a: int)
    requires Asked(s, a)
    requires forall c :: c in s.calls ==> c in t.calls && t.calls[c].want == s.calls[c].want
    ensures Asked(t, a)
  {
  }

  lemma StartInv(env: Env, s: State)
    requires Start(env, s)
    ensures Inv(env, s, s)
  {
    forall a, b | a in s.rows && b in s.rows ensures a == b {
      if a != b {
        assert {a, b} <= s.rows.Keys;
        assert |{a, b}| == 2;
        NotMore({a, b}, s.rows.Keys);
        assert false;
      }
    }
  }

  /** A step that only moves a call on, to a state whose tag is the one row, keeps the invariant. */
  lemma QuietInv(env: Env, s0: State, s: State, c: int, call: Call)
    requires Inv(env, s0, s) && c in s.calls && call.want == s.calls[c].want
    requires call.Returned? || call.Holding? || call.Updating? ==> call.tag in s.rows
    requires call.Relisting? ==> s.rows != map[]
    ensures Inv(env, s0, s.(calls := s.calls[c := call]))
  {
    var t := s.(calls := s.calls[c := call]);
    forall a | Asked(s, a) ensures Asked(t, a) { AskedStays(s, t, a); }
  }

  lemma CreateInv(env: Env, s0: State, s: State, t: State, c: int)
    requires Inv(env, s0, s) && CreateStep(env, s, t, c)
    ensures Inv(env, s0, t)
  {
    var want := s.calls[c].want;
    if s.rows == map[] && env.validName && want in env.artifacts {
      assert t.calls[c].want == want;
      assert Asked(t, want);
    } else {
      QuietInv(env, s0, s, c, t.calls[c]);
    }
  }

  lemma UpdateInv(env: Env, s0: State, s: State, t: State, c: int)
    requires Inv(env, s0, s) && UpdateStep(env, s, t, c)
    ensures Inv(env, s0, t)
  {
    assert t.calls[c].want == s.calls[c].want;
    assert Asked(t, s.calls[c].want);
    if !(s.calls[c].tag in s.rows && s.calls[c].want in env.artifacts) {
      QuietInv(env, s0, s, c, t.calls[c]);
    }
  }

  lemma CallInv(env: Env, s0: State, s: State, t: State, c: int, want: int)
    requires Inv(env, s0, s) && CallStep(s, t, c, want)
    ensures Inv(env, s0, t)
  {
    forall a | Asked(s, a) ensures Asked(t, a) { AskedStays(s, t, a); }
  }

  lemma NextInv(env: Env, s0: State, s: State, t: State)
    requires Inv(env, s0, s) && Next(env, s, t)
    ensures Inv(env, s0, t)
  {
    if c :| ListStep(env, s, t, c) {
      QuietInv(env, s0, s, c, t.calls[c]);
    } else if c :| CreateStep(env, s, t, c) {
      CreateInv(env, s0, s, t, c);
    } else if c :| DecideStep(env, s, t, c) {
      QuietInv(env, s0, s, c, t.calls[c]);
    } else if c :| UpdateStep(env, s, t, c) {
      UpdateInv(env, s0, s, t, c);
    } else if c, want :| CallStep(s, t, c, want) {
      CallInv(env, s0, s, t, c, want);
    }
  }

  /** In every state of every run: at most one row, holding its first artifact or one that
      was asked for, and every call that returned got the ID of that row. */
  lemma {:induction false} RunInv(env: Env, run: seq<State>, i: int)
    requires IsRun(env, run) && 0 <= i < |run|
    ensures Inv(env, run[0], run[i])
    decreases i
  {
    if i == 0 {
      StartInv(env, run[0]);
    } else {
      RunInv(env, run, i - 1);
      NextInv(env, run[0], run[i - 1], run[i]);
    }
  }

  /** Every call that was going to win the name has to want the artifact of the row. */
  ghost predicate Won(s: State) {
    && (forall c :: c in s.calls ==> !s.calls[c].Updating?)
    && (forall c :: c in s.calls && s.calls[c].Returned? ==> s.calls[c].tag in s.rows && s.rows[s.calls[c].tag] == s.calls[c].want)
    && (forall c :: c in s.calls && s.calls[c].Holding? ==>
          s.calls[c].tag in s.rows && s.rows[s.calls[c].tag] == s.calls[c].artifact)
  }

  lemma ImmutableCall(s: State, t: State, c: int, want: int)
    requires Won(s) && CallStep(s, t, c, want)
    ensures Won(t) && t.rows == s.rows
  {
  }

  lemma ImmutableMove(env: Env, s0: State, s: State, t: State, c: int)
    requires Inv(env, s0, s) && Won(s)
    requires ListStep(env, s, t, c) || CreateStep(env, s, t, c) || DecideStep(env, s, t, c) || UpdateStep(env, s, t, c)
    requires forall a :: a in env.artifacts ==> env.immutable(a)
    ensures Won(t) && forall id :: id in s.rows ==> id in t.rows && t.rows[id] == s.rows[id]
  {
    hide Asked;
  }

  lemma ImmutableStep(env: Env, s0: State, s: State, t: State)
    requires Inv(env, s0, s) && Won(s) && Next(env, s, t)
    requires forall a :: a in env.artifacts ==> env.immutable(a)
    ensures Won(t) && forall id :: id in s.rows ==> id in t.rows && t.rows[id] == s.rows[id]
  {
    hide OneRow, Asked, ListStep, CreateStep, DecideStep, UpdateStep, CallStep;
    if c, want :| CallStep(s, t, c, want) {
      ImmutableCall(s, t, c, want);
    } else if t != s {
      var c :| ListStep(env, s, t, c) || CreateStep(env, s, t, c) || DecideStep(env, s, t, c) || UpdateStep(env, s, t, c);
      ImmutableMove(env, s0, s, t, c);
    }
  }

  lemma {:induction false} ImmutableRun(env: Env, run: seq<State>, i: int, j: int)
    requires IsRun(env, run) && 0 <= i <= j < |run|
    requires forall a :: a in env.artifacts ==> env.immutable(a)
    ensures Won(run[j])
    ensures forall id :: id in run[i].rows ==> id in run[j].rows && run[j].rows[id] == run[i].rows[id]
    decreases j
  {
    hide Inv, Next, Won, Start;
    if j == 0 {
      StartWon(env, run[0]);
    } else {
      var k := j - 1;
      assert Next(env, run[k], run[k + 1]);
      ImmutableRun(env, run, if i == j then k else i, k);
      RunInv(env, run, k);
      ImmutableStep(env, run[0], run[k], run[k + 1]);
    }
  }

  lemma StartWon(env: Env, s: State)
    requires Start(env, s)
    ensures Won(s)
  {
  }

  lemma SameRow(a: map<int, int>, b: map<int, int>)
    requires a != map[] && forall id :: id in a ==> id in b && b[id] == a[id]
    requires forall x, y :: x in b && y in b ==> x == y
    ensures a == b
  {
    assert a.Keys == {} ==> a == map[];
    var k := Any(a.Keys);
    assert k in a && k in b;
    forall x | x in b ensures x in a {
      assert x == k;
    }
    forall x | x in a ensures x in b && b[x] == a[x] {
    }
    assert a == b;
  }

  /** For an immutable name the first row stays as it is for the rest of the run, and only
      calls for its artifact succeed. */
  lemma ImmutableNameHasOneWinner(env: Env, run: seq<State>, i: int, j: int)
    requires IsRun(env, run) && 0 <= i <= j < |run|
    requires forall a :: a in env.artifacts ==> env.immutable(a)
    ensures Won(run[j])
    ensures run[i].rows != map[] ==> run[j].rows == run[i].rows
  {
    ImmutableRun(env, run, i, j);
    RunInv(env, run, j);
    if run[i].rows != map[] {
      SameRow(run[i].rows, run[j].rows);
    }
  }

  // What the calls saw and did

  /** One step as seen by call `c`, which was there before: it moved by one of its own steps. */
  ghost predicate Moved(env: Env, s: State, t: State, c: int) {
    ListStep(env, s, t, c) || CreateStep(env, s, t, c) || DecideStep(env, s, t, c) || UpdateStep(env, s, t, c)
  }

  lemma CallMoves(env: Env, s: State, t: State, c: int)
    requires Next(env, s, t) && c in t.calls
    ensures c !in s.calls ==> t.calls[c].Listing?
    ensures c in s.calls ==> t.calls[c] == s.calls[c] || Moved(env, s, t, c)
  {
    hide ListStep, CreateStep, DecideStep, UpdateStep;
    if t != s && !(exists d, want :: CallStep(s, t, d, want)) {
      var d :| ListStep(env, s, t, d) || CreateStep(env, s, t, d) || DecideStep(env, s, t, d) || UpdateStep(env, s, t, d);
      OthersWait(env, s, t, d);
    }
  }

  lemma OthersWait(env: Env, s: State, t: State, d: int)
    requires Moved(env, s, t, d)
    ensures t.calls.Keys == s.calls.Keys && forall c :: c in s.calls && c != d ==> t.calls[c] == s.calls[c]
  {
  }

  /** The row `tag` named `artifact` at some time since call `c` arrived. */
  ghost predicate Named(run: seq<State>, j: nat, i: nat, c: int, tag: int, artifact: int) {
    j <= i < |run| && c in run[j].calls && tag in run[j].rows && run[j].rows[tag] == artifact
  }

  /** What a call saw was stored while it was there. */
  lemma {:induction false} SawStored(env: Env, run: seq<State>, i: nat, c: int) returns (j: nat)
    requires IsRun(env, run) && i < |run| && c in run[i].calls && run[i].calls[c].Holding?
    ensures Named(run, j, i, c, run[i].calls[c].tag, run[i].calls[c].artifact)
    decreases i
  {
    j := i - 1;
    assert Next(env, run[j], run[j + 1]);
    CallMoves(env, run[j], run[j + 1], c);
    hide Next, IsRun;
    if run[i].calls[c] == run[j].calls[c] {
      j := SawStored(env, run, j, c);
    }
  }

  /** A call that returned success saw, or made, the tag name its artifact while it was there. */
  lemma {:induction false} SuccessIsTrue(env: Env, run: seq<State>, i: nat, c: int) returns (j: nat)
    requires IsRun(env, run) && i < |run| && c in run[i].calls && run[i].calls[c].Returned?
    ensures Named(run, j, i, c, run[i].calls[c].tag, run[i].calls[c].want)
    decreases i
  {
    j := i - 1;
    assert Next(env, run[j], run[j + 1]);
    CallMoves(env, run[j], run[j + 1], c);
    hide Next, IsRun;
    if run[i].calls[c] == run[j].calls[c] {
      j := SuccessIsTrue(env, run, j, c);
    } else if run[j].calls[c].Holding? {
      j := SawStored(env, run, j, c);
    } else {
      j := i;
    }
  }

  /** A row appears or changes only to what a call that returns at that moment had asked for, it
      appears only under a valid name, and no row goes away. */
  lemma RowsAnswerCalls(env: Env, s: State, t: State, id: int)
    requires Next(env, s, t)
    ensures id in s.rows ==> id in t.rows
    ensures id in t.rows && id !in s.rows ==> env.validName && s.rows == map[]
    ensures id in t.rows && (id !in s.rows || s.rows[id] != t.rows[id]) ==>
      exists c :: c in s.calls && c in t.calls && !s.calls[c].Returned? && t.calls[c] == Returned(t.rows[id], id)
                  && s.calls[c].want == t.rows[id]
  {
    if t.rows != s.rows {
      var c :| CreateStep(env, s, t, c) || UpdateStep(env, s, t, c);
      assert c in s.calls && c in t.calls;
    }
  }

  /** Why a call fails: the name or the artifact is not valid, or the tag named another artifact
      with which it is immutable while the call was there. */
  ghost predicate FailureIsRight(env: Env, run: seq<State>, i: nat, c: int, want: int) {
    || !env.validName || want !in env.artifacts
    || exists j, tag, artifact :: Named(run, j, i, c, tag, artifact) && artifact != want && env.immutable(artifact)
  }

  lemma {:induction false} WhyFailed(env: Env, run: seq<State>, i: nat, c: int)
    requires IsRun(env, run) && i < |run| && c in run[i].calls && run[i].calls[c].Failed?
    ensures FailureIsRight(env, run, i, c, run[i].calls[c].want)
    decreases i
  {
    var k := i - 1;
    assert Next(env, run[k], run[k + 1]);
    CallMoves(env, run[k], run[k + 1], c);
    RunInv(env, run, k);
    var want := run[i].calls[c].want;
    hide Next, IsRun;
    if run[i].calls[c] == run[k].calls[c] {
      WhyFailed(env, run, k, c);
      if env.validName && want in env.artifacts {
        var j, tag, artifact :| Named(run, j, k, c, tag, artifact) && artifact != want && env.immutable(artifact);
        assert Named(run, j, i, c, tag, artifact);
      }
    } else if run[k].calls[c].Holding? {
      var j := SawStored(env, run, k, c);
      assert Named(run, j, i, c, run[k].calls[c].tag, run[k].calls[c].artifact);
    }
  }

  /** No call is stuck: whatever the others did, it has a next step until it returned or failed. */
  lemma CallGoesOn(env: Env, s: State, c: int)
    requires c in s.calls && !s.calls[c].Returned? && !s.calls[c].Failed?
    ensures exists t :: Moved(env, s, t, c) && t.calls[c] != s.calls[c]
  {
    var call := s.calls[c];
    var t := s;
    if call.Listing? || call.Relisting? {
      if s.rows == map[] {
        t := s.(calls := s.calls[c := if call.Listing? then Creating(call.want) else Failed(call.want)]);
      } else {
        assert s.rows.Keys != {};
        var id := Any(s.rows.Keys);
        t := s.(calls := s.calls[c := Holding(call.want, id, s.rows[id])]);
      }
      assert ListStep(env, s, t, c);
    } else if call.Creating? {
      t := if !env.validName || (s.rows == map[] && call.want !in env.artifacts) then s.(calls := s.calls[c := Failed(call.want)])
        else if s.rows != map[] then s.(calls := s.calls[c := Relisting(call.want)])
        else State(s.rows[s.next := call.want], s.next + 1, s.calls[c := Returned(call.want, s.next)]);
      assert CreateStep(env, s, t, c);
    } else if call.Holding? {
      t := s.(calls := s.calls[c :=
        if call.artifact == call.want then Returned(call.want, call.tag)
        else if call.artifact in env.artifacts && env.immutable(call.artifact) then Failed(call.want)
        else Updating(call.want, call.tag)]);
      assert DecideStep(env, s, t, c);
    } else {
      t := if call.tag in s.rows && call.want in env.artifacts
        then s.(rows := s.rows[call.tag := call.want], calls := s.calls[c := Returned(call.want, call.tag)])
        else s.(calls := s.calls[c := Failed(call.want)]);
      assert UpdateStep(env, s, t, c);
    }
    assert Moved(env, s, t, c);
  }
}
