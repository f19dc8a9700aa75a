/** Persisting the level lists of one partition. */
module Manifest {
  import opened Versions

  datatype Stage =
    | Changed
    | Snapped(v: nat)
    | Holding(v: nat)
    | Stale
    | Ready(v: nat)
    | Wrote
    | Finished
    | Failed

  /** A persister and the tables that its change of the levels took away. */
  datatype Persister = Persister(inputs: set<nat>, stage: Stage)

  /**
   * Every change of the levels starts a persister, which takes a snapshot, waits for the write mutex, takes another
   * snapshot if the levels have changed since, and overwrites the manifest page.  A compaction unlinks its inputs once
   * its own persister has finished.
   *
   * `history[v]` are the tables named by version `v` of the levels; persister `p` was started by the change to version
   * `p + 1`.  `file` is the version in the manifest, `written` all versions ever written to it, `used` all file ids
   * ever given out.
   */
  datatype State = State(history: seq<set<nat>>, ps: seq<Persister>, mutex: Option<nat>, file: nat, written: seq<nat>,
                         used: set<nat>, unlinked: set<nat>)

  datatype Step =
    | Change(removed: set<nat>, added: set<nat>)
    | Snap(p: nat)
    | Lock(p: nat)
    | Compare(p: nat)
    | Resnap(p: nat)
    | Write(p: nat)
    | WriteFails(p: nat)
    | Sync(p: nat)
    | SyncFails(p: nat)
    | Unlink(p: nat)

  predicate Enabled(s: State, a: Step)
    requires s.history != []
  {
    match a
    case Change(removed, added) => removed <= s.history[|s.history| - 1] && added !! s.used
    case Snap(p) => p < |s.ps| && s.ps[p].stage == Changed
    case Lock(p) => p < |s.ps| && s.ps[p].stage.Snapped? && s.mutex.None?
    case Compare(p) => p < |s.ps| && s.ps[p].stage.Holding?
    case Resnap(p) => p < |s.ps| && s.ps[p].stage == Stale
    case Write(p) => p < |s.ps| && s.ps[p].stage.Ready?
    case WriteFails(p) => p < |s.ps| && s.ps[p].stage.Ready?
    case Sync(p) => p < |s.ps| && s.ps[p].stage == Wrote
    case SyncFails(p) => p < |s.ps| && s.ps[p].stage == Wrote
    case Unlink(p) => p < |s.ps| && s.ps[p].stage == Finished
  }

  function At(s: State, p: nat, stage: Stage): State
    requires p < |s.ps|
  {
    s.(ps := s.ps[p := s.ps[p].(stage := stage)])
  }

  function Next(s: State, a: Step): State
    requires s.history != [] && Enabled(s, a)
  {
    var now := |s.history| - 1;
    match a
    case Change(removed, added) =>
      s.(history := s.history + [s.history[now] - removed + added], ps := s.ps + [Persister(removed, Changed)], used := s.used + added)
    case Snap(p) => At(s, p, Snapped(now))
    case Lock(p) => At(s, p, Holding(s.ps[p].stage.v)).(mutex := Some(p))
    case Compare(p) => At(s, p, if s.ps[p].stage.v == now then Ready(now) else Stale)
    case Resnap(p) => At(s, p, Ready(now))
    case Write(p) => At(s, p, Wrote).(mutex := None, file := s.ps[p].stage.v, written := s.written + [s.ps[p].stage.v])
    case WriteFails(p) => At(s, p, Failed).(mutex := None)
    case Sync(p) => At(s, p, Finished)
    case SyncFails(p) => At(s, p, Failed)
    case Unlink(p) => s.(unlinked := s.unlinked + s.ps[p].inputs)
  }

  /** A partition as it was created or loaded: the manifest names its tables. */
  function Init(tables: set<nat>): State {
    State([tables], [], None, 0, [], tables, {})
  }

  ghost predicate InMutex(st: Stage) {
    st.Holding? || st.Stale? || st.Ready?
  }

  /** Where a persister stands, in terms of versions. */
  ghost predicate PersisterOk(s: State, p: int)
    requires 0 <= p < |s.ps| == |s.history| - 1
  {
    var st := s.ps[p].stage;
    && (s.mutex == Some(p) <==> InMutex(st))
    && (st.Snapped? || st.Holding? || st.Ready? ==> p + 1 <= st.v < |s.history|)
    && (st.Ready? ==> s.file <= st.v)
    && (st.Wrote? || st.Finished? ==> p + 1 <= s.file)
    && s.ps[p].inputs <= s.used
    && forall v :: p + 1 <= v < |s.history| ==> s.ps[p].inputs !! s.history[v]
  }

  ghost predicate Rising(written: seq<nat>) {
    forall i, j :: 0 <= i <= j < |written| ==> written[i] <= written[j]
  }

  ghost predicate Inv(s: State) {
    && |s.history| == |s.ps| + 1
    && s.file < |s.history|
    && (s.mutex.Some? ==> s.mutex.value < |s.ps|)
    && (forall v :: 0 <= v < |s.history| ==> s.history[v] <= s.used)
    && (forall p :: 0 <= p < |s.ps| ==> PersisterOk(s, p))
    && Rising(s.written) && (forall i :: 0 <= i < |s.written| ==> s.written[i] <= s.file)
    && s.file == (if s.written == [] then 0 else s.written[|s.written| - 1])
    && s.unlinked <= s.used
    && forall v :: s.file <= v < |s.history| ==> s.history[v] !! s.unlinked
  }

  lemma {:induction false} InitInv(tables: set<nat>)
    ensures Inv(Init(tables))
  {
  }

  lemma {:induction false} StepKeepsPersister(s: State, a: Step, p: int)
    requires Inv(s) && Enabled(s, a) && 0 <= p < |Next(s, a).ps| == |Next(s, a).history| - 1
    ensures PersisterOk(Next(s, a), p)
  {
    if a.Change? {
      if p < |s.ps| {
        assert PersisterOk(s, p);
      }
    } else if p == a.p {
      OwnStep(s, a);
    } else {
      OthersStep(s, a, p);
    }
  }

  lemma {:induction false} OwnStep(s: State, a: Step)
    requires Inv(s) && Enabled(s, a) && !a.Change?
    ensures PersisterOk(Next(s, a), a.p)
  {
    assert PersisterOk(s, a.p);
  }

  lemma {:induction false} OthersStep(s: State, a: Step, p: int)
    requires Inv(s) && Enabled(s, a) && !a.Change? && 0 <= p < |s.ps| && p != a.p
    ensures PersisterOk(Next(s, a), p)
  {
    assert PersisterOk(s, p) && PersisterOk(s, a.p);
  }

  lemma {:induction false} StepKeepsInv(s: State, a: Step)
    requires Inv(s) && Enabled(s, a)
    ensures Inv(Next(s, a)) && s.file <= Next(s, a).file
  {
    if !a.Change? {
      assert PersisterOk(s, a.p);
    }
    hide PersisterOk;
    forall p | 0 <= p < |Next(s, a).ps|
      ensures PersisterOk(Next(s, a), p)
    {
      StepKeepsPersister(s, a, p);
    }
  }

  predicate Runs(s: State, run: seq<Step>)
    decreases run
  {
    s.history != [] && (run == [] || (Enabled(s, run[0]) && Runs(Next(s, run[0]), run[1..])))
  }

  function After(s: State, run: seq<Step>): State
    requires Runs(s, run)
    decreases run
  {
    if run == [] then s else After(Next(s, run[0]), run[1..])
  }

  lemma {:induction false} RunKeepsInv(s: State, run: seq<Step>)
    requires Inv(s) && Runs(s, run)
    ensures Inv(After(s, run)) && s.file <= After(s, run).file
    decreases run
  {
    hide Inv;
    if run != [] {
      StepKeepsInv(s, run[0]);
      RunKeepsInv(Next(s, run[0]), run[1..]);
    }
  }

  /**
   * Across every interleaving: the versions written never go backwards, a persister that has written leaves a version
   * at least as new as its own change, and the manifest names no table that has been unlinked.
   */
  lemma {:induction false} ManifestIsSafe(tables: set<nat>, run: seq<Step>)
    requires Runs(Init(tables), run)
    ensures var s := After(Init(tables), run);
            && Rising(s.written) && s.file == (if s.written == [] then 0 else s.written[|s.written| - 1])
            && (forall p :: 0 <= p < |s.ps| && (s.ps[p].stage == Wrote || s.ps[p].stage == Finished) ==> p + 1 <= s.file)
            && s.file < |s.history|
            && s.history[s.file] !! s.unlinked
  {
    InitInv(tables);
    RunKeepsInv(Init(tables), run);
    var s := After(Init(tables), run);
    forall p | 0 <= p < |s.ps| && (s.ps[p].stage == Wrote || s.ps[p].stage == Finished)
      ensures p + 1 <= s.file
    {
      assert PersisterOk(s, p);
    }
  }

  // ---- What the versions name

  /** The changes of a run, in order. */
  function Changes(run: seq<Step>): seq<Step>
    decreases run
  {
    if run == [] then [] else (if run[0].Change? then [run[0]] else []) + Changes(run[1..])
  }

  /** `x` came with version `u`: version 0 is what was there at first, version `u` the `u`-th change. */
  ghost predicate Came(tables: set<nat>, cs: seq<Step>, u: int, x: nat) {
    0 <= u <= |cs| && if u == 0 then x in tables else cs[u - 1].Change? && x in cs[u - 1].added
  }

  /** One of the changes behind version `u` and up to version `v` took `x` away. */
  ghost predicate Went(cs: seq<Step>, u: int, v: int, x: nat) {
    exists w :: u < w <= v && Takes(cs, w, x)
  }

  ghost predicate Takes(cs: seq<Step>, w: int, x: nat) {
    0 < w <= |cs| && cs[w - 1].Change? && x in cs[w - 1].removed
  }

  /** `x` is a table of version `v`. */
  ghost predicate Named(tables: set<nat>, cs: seq<Step>, v: int, x: nat) {
    exists u :: u <= v && Came(tables, cs, u, x) && !Went(cs, u, v, x)
  }

  /** The history and the persisters are what the changes `cs` say. */
  ghost predicate Told(s: State, tables: set<nat>, cs: seq<Step>) {
    && |s.history| == |cs| + 1 && |s.ps| == |cs|
    && (forall i :: 0 <= i < |cs| ==> cs[i].Change? && s.ps[i].inputs == cs[i].removed)
    && (forall v, x :: 0 <= v < |s.history| ==> (x in s.history[v] <==> Named(tables, cs, v, x)))
  }

  /** Later changes say nothing about earlier versions. */
  lemma {:induction false} NamedBefore(tables: set<nat>, cs: seq<Step>, c: Step, v: int, x: nat)
    requires 0 <= v <= |cs|
    ensures Named(tables, cs + [c], v, x) <==> Named(tables, cs, v, x)
  {
    var more := cs + [c];
    assert forall i :: 0 <= i < |cs| ==> more[i] == cs[i];
    assert forall u :: u <= v ==> (Came(tables, more, u, x) <==> Came(tables, cs, u, x));
    assert forall w :: w <= v ==> (Takes(more, w, x) <==> Takes(cs, w, x));
    forall u
      ensures Went(more, u, v, x) <==> Went(cs, u, v, x)
    {
      if Went(more, u, v, x) {
        var w :| u < w <= v && Takes(more, w, x);
        assert Takes(cs, w, x);
      }
      if Went(cs, u, v, x) {
        var w :| u < w <= v && Takes(cs, w, x);
        assert Takes(more, w, x);
      }
    }
    if Named(tables, more, v, x) {
      var u :| u <= v && Came(tables, more, u, x) && !Went(more, u, v, x);
      assert Came(tables, cs, u, x) && !Went(cs, u, v, x);
    }
    if Named(tables, cs, v, x) {
      var u :| u <= v && Came(tables, cs, u, x) && !Went(cs, u, v, x);
      assert Came(tables, more, u, x) && !Went(more, u, v, x);
    }
  }

  /** A change takes its tables away and brings its own. */
  lemma {:induction false} NamedNow(tables: set<nat>, cs: seq<Step>, c: Step, x: nat)
    requires c.Change?
    ensures Named(tables, cs + [c], |cs| + 1, x) <==> x in c.added || (Named(tables, cs, |cs|, x) && x !in c.removed)
  {
    var more, n := cs + [c], |cs|;
    assert more[n] == c && forall i :: 0 <= i < n ==> more[i] == cs[i];
    NamedBefore(tables, cs, c, n, x);
    assert Takes(more, n + 1, x) <==> x in c.removed;
    if Named(tables, more, n + 1, x) && x !in c.added {
      var u :| u <= n + 1 && Came(tables, more, u, x) && !Went(more, u, n + 1, x);
      assert u <= n && !Went(more, u, n, x);
    }
    if x in c.added {
      assert Came(tables, more, n + 1, x) && !Went(more, n + 1, n + 1, x);
    }
    if Named(tables, more, n, x) && x !in c.removed {
      var u :| u <= n && Came(tables, more, u, x) && !Went(more, u, n, x);
      assert !Went(more, u, n + 1, x);
    }
  }

  lemma {:induction false} InitTold(tables: set<nat>)
    ensures Told(Init(tables), tables, [])
  {
    forall x
      ensures Named(tables, [], 0, x) <==> x in tables
    {
      assert Came(tables, [], 0, x) <==> x in tables;
      assert !Went([], 0, 0, x);
    }
  }

  lemma {:induction false} StepKeepsTold(s: State, a: Step, tables: set<nat>, cs: seq<Step>)
    requires s.history != [] && Enabled(s, a) && Told(s, tables, cs)
    ensures Told(Next(s, a), tables, if a.Change? then cs + [a] else cs)
  {
    hide Named;
    if a.Change? {
      var t, n := Next(s, a), |cs|;
      forall v, x | 0 <= v < |t.history|
        ensures x in t.history[v] <==> Named(tables, cs + [a], v, x)
      {
        if v <= n {
          NamedBefore(tables, cs, a, v, x);
        } else {
          NamedNow(tables, cs, a, x);
        }
      }
    }
  }

  lemma {:induction false} RunKeepsTold(s: State, run: seq<Step>, tables: set<nat>, cs: seq<Step>)
    requires Runs(s, run) && Told(s, tables, cs)
    ensures Told(After(s, run), tables, cs + Changes(run))
    decreases run
  {
    hide Told, Enabled, Next;
    if run == [] {
      assert cs + Changes(run) == cs;
    } else {
      var a := run[0];
      StepKeepsTold(s, a, tables, cs);
      RunKeepsTold(Next(s, a), run[1..], tables, if a.Change? then cs + [a] else cs);
      assert (if a.Change? then cs + [a] else cs) + Changes(run[1..]) == cs + Changes(run);
    }
  }

  /**
   * In every run: version `v` of the levels names a table if and only if the table was there at first or came with a
   * change up to `v`, and no later change up to `v` took it away.
   */
  lemma {:induction false} VersionsAre(tables: set<nat>, run: seq<Step>, v: nat, x: nat)
    requires Runs(Init(tables), run) && v <= |Changes(run)|
    ensures |After(Init(tables), run).history| == |Changes(run)| + 1
    ensures x in After(Init(tables), run).history[v] <==> Named(tables, Changes(run), v, x)
  {
    hide Runs, After;
    InitTold(tables);
    RunKeepsTold(Init(tables), run, tables, []);
    assert [] + Changes(run) == Changes(run);
  }

  /**
   * Once a persister has finished, the manifest names every table that its change brought, unless a later change
   * that the manifest knows took it away; and none that its change took away.
   */
  lemma {:induction false} FinishedIsNamed(tables: set<nat>, run: seq<Step>, p: nat, x: nat)
    requires Runs(Init(tables), run) && p < |Changes(run)|
    ensures
      var s, cs := After(Init(tables), run), Changes(run);
      && |s.ps| == |cs| && s.file < |s.history| && cs[p].Change?
      && (s.ps[p].stage == Finished && x in cs[p].added ==> (x in s.history[s.file] || Went(cs, p + 1, s.file, x)))
      && (s.ps[p].stage == Finished && x in cs[p].removed ==> x !in s.history[s.file])
  {
    var s, cs := After(Init(tables), run), Changes(run);
    InitTold(tables);
    RunKeepsTold(Init(tables), run, tables, []);
    assert [] + cs == cs;
    InitInv(tables);
    RunKeepsInv(Init(tables), run);
    assert PersisterOk(s, p);
    if s.ps[p].stage == Finished && x in cs[p].added && !Went(cs, p + 1, s.file, x) {
      assert Came(tables, cs, p + 1, x);
      assert Named(tables, cs, s.file, x);
    }
  }

  /** When the persister of the last change has finished, the manifest names exactly the tables there are. */
  lemma {:induction false} LastFinished(tables: set<nat>, run: seq<Step>)
    requires Runs(Init(tables), run)
    ensures
      var s := After(Init(tables), run);
      && |s.history| == |s.ps| + 1 && s.file < |s.history|
      && (s.ps != [] && s.ps[|s.ps| - 1].stage == Finished ==> s.history[s.file] == s.history[|s.ps|])
  {
    InitInv(tables);
    RunKeepsInv(Init(tables), run);
    var s := After(Init(tables), run);
    if s.ps != [] {
      assert PersisterOk(s, |s.ps| - 1);
    }
  }

  /** A persister of the run was told to unlink `x`. */
  ghost predicate UnlinkedIn(ps: seq<Persister>, run: seq<Step>, x: nat) {
    exists i :: 0 <= i < |run| && Drops(ps, run[i], x)
  }

  ghost predicate Drops(ps: seq<Persister>, a: Step, x: nat) {
    a.Unlink? && a.p < |ps| && x in ps[a.p].inputs
  }

  lemma {:induction false} InputsStay(s: State, run: seq<Step>, p: nat)
    requires Runs(s, run) && p < |s.ps|
    ensures p < |After(s, run).ps| && After(s, run).ps[p].inputs == s.ps[p].inputs
    decreases run
  {
    if run != [] {
      InputsStay(Next(s, run[0]), run[1..], p);
    }
  }

  /** The files unlinked are exactly the inputs of the compactions that unlinked. */
  lemma {:induction false} UnlinkedAre(s: State, run: seq<Step>, x: nat)
    requires Runs(s, run)
    ensures x in After(s, run).unlinked <==> x in s.unlinked || UnlinkedIn(After(s, run).ps, run, x)
    decreases run
  {
    if run != [] {
      var a, t := run[0], Next(s, run[0]);
      UnlinkedAre(t, run[1..], x);
      var ps := After(s, run).ps;
      hide Enabled, Runs, After, Next;
      assert forall i :: 0 < i < |run| ==> run[i] == run[1..][i - 1];
      if UnlinkedIn(ps, run[1..], x) {
        var i :| 0 <= i < |run[1..]| && Drops(ps, run[1..][i], x);
        assert Drops(ps, run[i + 1], x);
      }
      if UnlinkedIn(ps, run, x) && !Drops(ps, a, x) {
        var i :| 0 <= i < |run| && Drops(ps, run[i], x);
        assert Drops(ps, run[1..][i - 1], x);
      }
      UnlinkStep(s, run, x);
    }
  }

  lemma {:induction false} UnlinkStep(s: State, run: seq<Step>, x: nat)
    requires Runs(s, run) && run != []
    ensures x in Next(s, run[0]).unlinked <==> x in s.unlinked || Drops(After(s, run).ps, run[0], x)
  {
    if run[0].Unlink? {
      InputsStay(s, run, run[0].p);
    }
  }

  /** An undisturbed persister writes the version it snapped. */
  lemma {:induction false} Undisturbed(s: State, p: nat)
    requires s.history != [] && p < |s.ps| && s.ps[p].stage == Changed && s.mutex.None?
    ensures
      var run := [Snap(p), Lock(p), Compare(p), Write(p), Sync(p)];
      && Runs(s, run) && After(s, run).file == |s.history| - 1 && After(s, run).mutex.None?
      && After(s, run).ps == s.ps[p := s.ps[p].(stage := Finished)]
  {
    var s1 := Next(s, Snap(p));
    var s2 := Next(s1, Lock(p));
    var s3 := Next(s2, Compare(p));
    var s4 := Next(s3, Write(p));
    var s5 := Next(s4, Sync(p));
    var run := [Snap(p), Lock(p), Compare(p), Write(p), Sync(p)];
    assert s5.ps == s.ps[p := s.ps[p].(stage := Finished)];
    hide Next, Enabled;
    assert Runs(s5, []) && After(s5, []) == s5;
    FirstStep(s4, [Sync(p)], []);
    FirstStep(s3, [Write(p), Sync(p)], [Sync(p)]);
    FirstStep(s2, [Compare(p), Write(p), Sync(p)], [Write(p), Sync(p)]);
    FirstStep(s1, [Lock(p), Compare(p), Write(p), Sync(p)], [Compare(p), Write(p), Sync(p)]);
    FirstStep(s, run, [Lock(p), Compare(p), Write(p), Sync(p)]);
  }

  lemma {:induction false} FirstStep(s: State, run: seq<Step>, rest: seq<Step>)
    requires s.history != [] && run != [] && run[1..] == rest && Enabled(s, run[0]) && Runs(Next(s, run[0]), rest)
    ensures Runs(s, run) && After(s, run) == After(Next(s, run[0]), rest)
  {
  }

  // ---- Persisters can always finish

  function Left(st: Stage): nat {
    match st
    case Changed => 6
    case Snapped(_) => 5
    case Holding(_) => 4
    case Stale => 3
    case Ready(_) => 2
    case Wrote => 1
    case Finished => 0
    case Failed => 0
  }

  function Work(ps: seq<Persister>): nat {
    if ps == [] then 0 else Work(ps[..|ps| - 1]) + Left(ps[|ps| - 1].stage)
  }

  lemma {:induction false} WorkUpdate(ps: seq<Persister>, p: nat, q: Persister)
    requires p < |ps|
    ensures Work(ps[p := q]) + Left(ps[p].stage) == Work(ps) + Left(q.stage)
  {
    var n := |ps| - 1;
    if p < n {
      WorkUpdate(ps[..n], p, q);
      assert ps[p := q][..n] == ps[..n][p := q];
    } else {
      assert ps[p := q][..n] == ps[..n];
    }
  }

  /** The next step of a persister when nothing fails. */
  function Onward(st: Stage, p: nat): Step
    requires Left(st) > 0
  {
    match st
    case Changed => Snap(p)
    case Snapped(_) => Lock(p)
    case Holding(_) => Compare(p)
    case Stale => Resnap(p)
    case Ready(_) => Write(p)
    case Wrote => Sync(p)
  }

  ghost predicate Settled(s: State) {
    forall p :: 0 <= p < |s.ps| ==> Left(s.ps[p].stage) == 0
  }

  /** The step that goes on: the holder of the mutex first, then anyone. */
  lemma {:induction false} SomeoneMoves(s: State) returns (p: nat)
    requires Inv(s) && !Settled(s)
    ensures p < |s.ps| && Left(s.ps[p].stage) > 0 && Enabled(s, Onward(s.ps[p].stage, p))
  {
    if s.mutex.Some? {
      p := s.mutex.value;
      assert PersisterOk(s, p);
    } else {
      p :| p < |s.ps| && Left(s.ps[p].stage) > 0;
      assert PersisterOk(s, p);
    }
  }

  /** From every reachable state the persisters can all finish, except those that have failed; no table comes or goes. */
  lemma {:induction false} CanSettle(s: State) returns (run: seq<Step>)
    requires Inv(s)
    ensures Runs(s, run) && Settled(After(s, run)) && After(s, run).history == s.history && |After(s, run).ps| == |s.ps|
    ensures forall p :: 0 <= p < |s.ps| ==> (After(s, run).ps[p].stage == Failed <==> s.ps[p].stage == Failed)
    decreases Work(s.ps)
  {
    run := [];
    if !Settled(s) {
      var p := SomeoneMoves(s);
      var a := Onward(s.ps[p].stage, p);
      OnwardStep(s, p);
      StepKeepsInv(s, a);
      hide Inv, Enabled, Next, Onward, Left, Work;
      var rest := CanSettle(Next(s, a));
      run := [a] + rest;
      assert run[1..] == rest;
    }
  }

  lemma {:induction false} OnwardStep(s: State, p: nat)
    requires s.history != [] && p < |s.ps| && Left(s.ps[p].stage) > 0 && Enabled(s, Onward(s.ps[p].stage, p))
    ensures
      var t := Next(s, Onward(s.ps[p].stage, p));
      && t.history == s.history && |t.ps| == |s.ps| && Work(t.ps) < Work(s.ps)
      && forall q :: 0 <= q < |s.ps| ==> (t.ps[q].stage == Failed <==> s.ps[q].stage == Failed)
  {
    var t := Next(s, Onward(s.ps[p].stage, p));
    WorkUpdate(s.ps, p, t.ps[p]);
    assert t.ps == s.ps[p := t.ps[p]];
  }

  /** After every run the manifest can catch up with the levels, unless the last change could not be persisted. */
  lemma {:induction false} ManifestCatchesUp(tables: set<nat>, run: seq<Step>) returns (more: seq<Step>)
    requires Runs(Init(tables), run)
    ensures
      var s := After(Init(tables), run);
      && Runs(s, more) && After(s, more).history == s.history && |s.history| == |s.ps| + 1
      && (s.ps != [] && s.ps[|s.ps| - 1].stage != Failed ==> After(s, more).file == |s.ps|)
  {
    InitInv(tables);
    RunKeepsInv(Init(tables), run);
    var s := After(Init(tables), run);
    hide After, Runs;
    more := CanSettle(s);
    RunKeepsInv(s, more);
    if s.ps != [] {
      assert PersisterOk(After(s, more), |s.ps| - 1);
    }
  }
}
