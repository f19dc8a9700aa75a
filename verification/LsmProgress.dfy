/** What the background steps of the LSM tree do, and what a failure stops. */
module LsmProgress {
  import opened Versions
  import opened Lsm
  import opened LsmSafety

  // ---- Single steps

  /** A swap freezes what was written and starts an empty table; another one has to wait for the bump, which changes nothing else. */
  lemma {:induction false} SwapThenBump(s: Db)
    requires Inv(s) && Enabled(s, Swap)
    ensures
      var t := Apply(s, Swap);
      && t == s.(current := map[], switching := true, nextId := s.nextId + 1,
                 pending := s.pending + [Table(s.nextId, s.nextId, s.nextId, s.current)])
      && Inv(t) && !Enabled(t, Swap) && Enabled(t, Bump)
      && Enabled(Apply(t, Bump), Swap) && Apply(t, Bump) == t.(switching := false)
  {
    StepKeepsInv(s, Swap);
  }

  /** Draining closes its own table to late writes, and no other. */
  lemma {:induction false} DrainCloses(s: Db, i: nat, j: nat, k: Key, v: Value)
    requires Inv(s) && Enabled(s, Drain(i))
    ensures Enabled(Apply(s, Drain(i)), LatePut(j, k, v)) <==> Enabled(s, LatePut(j, k, v)) && j != i
    ensures Apply(s, Drain(i)).pending == s.pending
  {
    PendingRise(s);
    hide LevelsOk, Chronicle, Swapping;
    if i < j < |s.pending| {
      assert s.pending[i].epoch < s.pending[j].epoch;
    }
    if j < i {
      assert s.pending[j].epoch < s.pending[i].epoch;
    }
  }

  /** What can be flushed can no longer be written. */
  lemma {:induction false} FlushedIsClosed(s: Db, k: Key, v: Value)
    requires Inv(s) && Enabled(s, FlushCommits)
    ensures !Enabled(s, LatePut(0, k, v))
  {
    hide LevelsOk, Chronicle, Swapping;
  }

  /** A flush commit takes the oldest frozen table from memory and makes it the newest on disk; an empty one vanishes. */
  lemma {:induction false} FlushMoves(s: Db)
    requires Inv(s) && Enabled(s, FlushCommits)
    ensures
      var t, u := s.pending[0], Apply(s, FlushCommits);
      && u.pending == s.pending[1..] && u.current == s.current
      && Flat(u.levels) == Flat(s.levels) + (if t.content == map[] then [] else [t])
  {
    hide LevelOk, Chronicle, Swapping;
    FlatPush(s.levels, s.pending[0]);
    assert Flat(s.levels) + [] == Flat(s.levels);
  }

  /** Launched merges wait behind those already waiting; their inputs can no longer be picked, and all that follow still can. */
  lemma {:induction false} LaunchQueues(s: Db, l: nat, buckets: seq<seq<Table>>)
    requires Inv(s) && Enabled(s, Launch(l, buckets))
    ensures
      var u, n := Apply(s, Launch(l, buckets)), |Inputs(s.tasks[l])| + |Concat(buckets)|;
      && Inputs(u.tasks[l]) == Inputs(s.tasks[l]) + Concat(buckets) && |u.tasks[l]| == |s.tasks[l]| + |buckets|
      && u.levels == s.levels && |u.progress[l]| == |s.levels[l]|
      && (forall i :: 0 <= i < |s.levels[l]| ==> (u.progress[l][i] == Pickable <==> n <= i))
      && (forall i :: 0 <= i < |buckets| ==>
            u.tasks[l][|s.tasks[l]| + i] == Task(buckets[i], i == 0 && l + 1 == |s.levels| - 1 && !s.created[l + 1], false))
      && (buckets != [] ==> u.created == s.created[l + 1 := true])
  {
    var u := Apply(s, Launch(l, buckets));
    LaunchKeepsInv(s, l, buckets);
    assert LevelOk(u.levels, u.progress, u.tasks, u.created, l);
    assert LevelOk(s.levels, s.progress, s.tasks, s.created, l);
    InputsOfTasks(buckets, MayDiscard(s, l));
    InputsConcat(s.tasks[l], TasksFor(buckets, MayDiscard(s, l)));
    if buckets == [] {
      assert Inputs(s.tasks[l]) + [] == Inputs(s.tasks[l]);
    }
  }

  // ---- Waiting in a chain

  /** After some were taken from its front, `b` continues the queue `a` of epochs. */
  ghost predicate Follows(a: seq<Table>, b: seq<Table>, d: int) {
    0 <= d <= |a| && |a| - d <= |b| && forall i :: 0 <= i < |a| - d ==> b[i].epoch == a[d + i].epoch
  }

  lemma {:induction false} PendingStep(s: Db, a: Action)
    requires Inv(s) && Enabled(s, a)
    ensures Follows(s.pending, Apply(s, a).pending, if a.FlushCommits? then 1 else 0) && s.stuck <= Apply(s, a).stuck
  {
    hide Inv, LevelsOk, LevelOk, Inputs, Flat, Concat, TasksFor, Merged, MayDiscard, Follows;
    var t := Apply(s, a);
    if a.FlushCommits? {
      FollowsRest(s.pending);
    } else {
      FollowsMore(s.pending, t.pending);
    }
  }

  lemma {:induction false} FollowsRest(a: seq<Table>)
    requires a != []
    ensures Follows(a, a[1..], 1)
  {
  }

  lemma {:induction false} FollowsMore(a: seq<Table>, b: seq<Table>)
    requires |a| <= |b| && forall i :: 0 <= i < |a| ==> b[i].epoch == a[i].epoch
    ensures Follows(a, b, 0)
  {
  }

  lemma {:induction false} FollowsOn(a: seq<Table>, b: seq<Table>, c: seq<Table>, d: int, e: int)
    requires Follows(a, b, d) && Follows(b, c, e) && d + e <= |a|
    ensures Follows(a, c, d + e)
  {
    forall i | 0 <= i < |a| - d - e
      ensures c[i].epoch == a[d + e + i].epoch
    {
      assert b[e + i].epoch == a[d + (e + i)].epoch;
    }
  }

  /** Over every run, a table whose flush failed stays in memory, and so does every table frozen after it. */
  lemma {:induction false} FailedFlushStays(s: Db, run: seq<Action>, i: nat) returns (d: nat)
    requires Inv(s) && Runs(s, run) && i < |s.pending| && s.pending[i].epoch in s.stuck
    ensures d <= i && Follows(s.pending, After(s, run).pending, d)
    decreases |run|
  {
    hide Inv, Apply, Enabled, Follows, Runs, After;
    d := 0;
    if run != [] {
      var a := run[0];
      FirstStep(s, run);
      StuckStep(s, a, i);
      var t, e := Apply(s, a), if a.FlushCommits? then 1 else 0;
      var f := FailedFlushStays(t, run[1..], i - e);
      FollowsOn(s.pending, t.pending, After(t, run[1..]).pending, e, f);
      d := e + f;
    } else {
      RunOfNone(s);
      FollowsMore(s.pending, s.pending);
    }
  }

  lemma {:induction false} StuckStep(s: Db, a: Action, i: nat)
    requires Inv(s) && Enabled(s, a) && i < |s.pending| && s.pending[i].epoch in s.stuck
    ensures
      var t, e := Apply(s, a), if a.FlushCommits? then 1 else 0;
      Follows(s.pending, t.pending, e) && e <= i && i - e < |t.pending| && t.pending[i - e].epoch in t.stuck
  {
    hide Inv, Apply, Follows;
    PendingStep(s, a);
    var t, e := Apply(s, a), if a.FlushCommits? then 1 else 0;
    assert e <= i;
    hide Enabled;
    StillThere(s.pending, t.pending, e, i);
  }

  lemma {:induction false} StillThere(a: seq<Table>, b: seq<Table>, e: nat, i: nat)
    requires Follows(a, b, e) && e <= i < |a|
    ensures i - e < |b| && b[i - e].epoch == a[i].epoch
  {
    assert b[i - e].epoch == a[e + (i - e)].epoch;
  }

  /** A failed flush marks its table, so that it does not commit. */
  lemma {:induction false} FlushFailureBlocks(s: Db, i: nat)
    requires Inv(s) && Enabled(s, FlushFails(i))
    ensures
      var t := Apply(s, FlushFails(i));
      t.pending == s.pending && s.pending[i].epoch in t.stuck && (i == 0 ==> !Enabled(t, FlushCommits))
  {
    hide LevelsOk, LevelOk, Chronicle, Swapping;
  }

  // ---- Everything in memory can reach the disk

  /** No flush of a frozen table has failed. */
  ghost predicate NoneStuck(s: Db) {
    forall i :: 0 <= i < |s.pending| ==> s.pending[i].epoch !in s.stuck
  }

  /** The tables that hold something. */
  function Filled(ts: seq<Table>): seq<Table> {
    if ts == [] then [] else (if ts[0].content == map[] then [] else [ts[0]]) + Filled(ts[1..])
  }

  lemma {:induction false} OneMore(s: Db, a: Action, rest: seq<Action>)
    requires Inv(s) && Enabled(s, a) && Inv(Apply(s, a)) && Runs(Apply(s, a), rest)
    ensures Runs(s, [a] + rest) && After(s, [a] + rest) == After(Apply(s, a), rest)
  {
    hide Inv, Enabled, Apply;
    assert ([a] + rest)[1..] == rest;
  }

  lemma {:induction false} FirstStep(s: Db, run: seq<Action>)
    requires Inv(s) && Runs(s, run) && run != []
    ensures Enabled(s, run[0]) && Inv(Apply(s, run[0])) && Runs(Apply(s, run[0]), run[1..])
    ensures After(s, run) == After(Apply(s, run[0]), run[1..])
  {
    hide Inv, Enabled, Apply;
    StepKeepsInv(s, run[0]);
  }

  lemma {:induction false} RunOfNone(s: Db)
    requires Inv(s)
    ensures Runs(s, []) && After(s, []) == s
  {
  }

  /** While no flush has failed, the frozen tables can all be flushed: they follow what is on disk, in the order they were frozen. */
  lemma {:induction false} CanFlush(s: Db) returns (run: seq<Action>)
    requires Inv(s) && NoneStuck(s)
    ensures Runs(s, run) && After(s, run).pending == [] && After(s, run).current == s.current
    ensures Flat(After(s, run).levels) == Flat(s.levels) + Filled(s.pending)
    decreases |s.pending|, s.switching
  {
    if s.switching {
      StepKeepsInv(s, Bump);
      var t := Apply(s, Bump);
      hide Inv, Enabled, Apply, Flat, Runs, After, Filled;
      var rest := CanFlush(t);
      OneMore(s, Bump, rest);
      run := [Bump] + rest;
    } else if s.pending == [] {
      run := [];
      RunOfNone(s);
      assert Flat(s.levels) + [] == Flat(s.levels);
    } else {
      var t, u := FlushOne(s);
      hide Inv, Enabled, Apply, Flat, Runs, After, Filled;
      var rest := CanFlush(u);
      OneMore(t, FlushCommits, rest);
      OneMore(s, Drain(0), [FlushCommits] + rest);
      run := [Drain(0)] + ([FlushCommits] + rest);
      FilledFirst(s, Flat(s.levels));
    }
  }

  lemma {:induction false} FilledFirst(s: Db, front: seq<Table>)
    requires s.pending != []
    ensures front + (if s.pending[0].content == map[] then [] else [s.pending[0]]) + Filled(s.pending[1..]) == front + Filled(s.pending)
  {
  }

  /** Wait for the writers of the oldest frozen table and flush it. */
  lemma {:induction false} FlushOne(s: Db) returns (t: Db, u: Db)
    requires Inv(s) && NoneStuck(s) && !s.switching && s.pending != []
    ensures Enabled(s, Drain(0)) && t == Apply(s, Drain(0)) && Inv(t)
    ensures Enabled(t, FlushCommits) && u == Apply(t, FlushCommits) && Inv(u) && NoneStuck(u) && !u.switching
    ensures u.pending == s.pending[1..] && u.current == s.current
    ensures Flat(u.levels) == Flat(s.levels) + (if s.pending[0].content == map[] then [] else [s.pending[0]])
  {
    t := Apply(s, Drain(0));
    StepKeepsInv(s, Drain(0));
    StepKeepsInv(t, FlushCommits);
    FlushMoves(t);
    u := Apply(t, FlushCommits);
    hide LevelsOk, Chronicle, Swapping, Flat;
    assert forall i :: 0 <= i < |u.pending| ==> u.pending[i] == s.pending[i + 1];
  }

  /** Some run leaves none of the tables frozen now in memory. */
  ghost predicate Flushable(s: Db)
    requires Inv(s)
  {
    exists run :: Runs(s, run) && NoneLeft(s.pending, After(s, run).pending)
  }

  ghost predicate NoneLeft(before: seq<Table>, after: seq<Table>) {
    forall i, j :: 0 <= i < |before| && 0 <= j < |after| ==> after[j].epoch != before[i].epoch
  }

  /** What is frozen can reach the disk if and only if no flush of it has failed. */
  lemma {:induction false} FlushableIff(s: Db)
    requires Inv(s)
    ensures Flushable(s) <==> NoneStuck(s)
  {
    if NoneStuck(s) {
      var run := CanFlush(s);
      assert Runs(s, run);
    } else {
      var i :| 0 <= i < |s.pending| && s.pending[i].epoch in s.stuck;
      forall run | Runs(s, run)
        ensures !NoneLeft(s.pending, After(s, run).pending)
      {
        var d := FailedFlushStays(s, run, i);
        var t := After(s, run);
        assert t.pending[i - d].epoch == s.pending[d + (i - d)].epoch;
      }
    }
  }

  // ---- Everything that waits to be merged can be merged

  /** After some were taken from its front, `b` continues the queue `a` of merges. */
  ghost predicate Continues(a: seq<Task>, b: seq<Task>, d: int) {
    && 0 <= d <= |a| && |a| - d <= |b|
    && forall i :: 0 <= i < |a| - d ==> b[i].inputs == a[d + i].inputs && (a[d + i].failed ==> b[i].failed)
  }

  /** How many merges of level `l` a step commits. */
  function Commits(a: Action, l: nat): nat {
    if a == MergeCommits(l) then 1 else 0
  }

  /** The merges waiting in level `l`. */
  function Waiting(s: Db, l: nat): seq<Task> {
    if l < |s.tasks| then s.tasks[l] else []
  }

  lemma {:induction false} TaskStep(s: Db, a: Action, l: nat)
    requires Inv(s) && Enabled(s, a)
    ensures Continues(Waiting(s, l), Waiting(Apply(s, a), l), Commits(a, l))
    ensures Commits(a, l) > 0 ==> !Waiting(s, l)[0].failed
  {
    hide LevelOk, Chronicle, Swapping, Inputs, Concat, Repeat, TasksFor, MayDiscard, Continues;
    ContinuesItself(Waiting(s, l));
    match a
    case Launch(m, buckets) =>
      if m == l && buckets != [] {
        MoreContinue(s.tasks[l], TasksFor(buckets, MayDiscard(s, l)));
      }
    case MergeFails(m, i) =>
      if m == l {
        FailContinues(s.tasks[l], i);
      }
    case MergeCommits(m) =>
      if m == l {
        RestContinues(s.tasks[l]);
      }
    case _ =>
  }

  lemma {:induction false} FailContinues(ts: seq<Task>, i: nat)
    requires i < |ts|
    ensures Continues(ts, ts[i := ts[i].(failed := true)], 0)
  {
  }

  lemma {:induction false} MoreContinue(ts: seq<Task>, more: seq<Task>)
    ensures Continues(ts, ts + more, 0)
  {
  }

  lemma {:induction false} RestContinues(ts: seq<Task>)
    requires ts != []
    ensures Continues(ts, ts[1..], 1)
  {
  }

  lemma {:induction false} ContinuesOn(a: seq<Task>, b: seq<Task>, c: seq<Task>, d: int, e: int)
    requires Continues(a, b, d) && Continues(b, c, e) && d + e <= |a|
    ensures Continues(a, c, d + e)
  {
    forall i | 0 <= i < |a| - d - e
      ensures c[i].inputs == a[d + e + i].inputs && (a[d + e + i].failed ==> c[i].failed)
    {
      assert b[e + i].inputs == a[d + (e + i)].inputs;
    }
  }

  /** Over every run, a failed merge stays in its chain, and so does every merge launched after it from the same level. */
  lemma {:induction false} FailedMergeStays(s: Db, run: seq<Action>, l: nat, i: nat) returns (d: nat)
    requires Inv(s) && Runs(s, run) && i < |Waiting(s, l)| && Waiting(s, l)[i].failed
    ensures d <= i && Continues(Waiting(s, l), Waiting(After(s, run), l), d)
    decreases |run|
  {
    hide Inv, Apply, Enabled, Commits, Continues, Waiting, Runs, After;
    d := 0;
    if run != [] {
      var a := run[0];
      FirstStep(s, run);
      TaskStep(s, a, l);
      var t := Apply(s, a);
      var e := CommitsNot(s, a, l, i);
      StaysFailed(Waiting(s, l), Waiting(t, l), e, i);
      var f := FailedMergeStays(t, run[1..], l, i - e);
      ContinuesOn(Waiting(s, l), Waiting(t, l), Waiting(After(t, run[1..]), l), e, f);
      d := e + f;
    } else {
      RunOfNone(s);
      ContinuesItself(Waiting(s, l));
    }
  }

  lemma {:induction false} CommitsNot(s: Db, a: Action, l: nat, i: nat) returns (e: nat)
    requires Inv(s) && Enabled(s, a) && i < |Waiting(s, l)| && Waiting(s, l)[i].failed
    ensures e == Commits(a, l) <= i
  {
    e := Commits(a, l);
    hide Inv;
  }

  lemma {:induction false} StaysFailed(a: seq<Task>, b: seq<Task>, e: nat, i: nat)
    requires Continues(a, b, e) && e <= i < |a| && a[i].failed
    ensures i - e < |b| && b[i - e].failed
  {
    assert a[e + (i - e)].failed ==> b[i - e].failed;
  }

  lemma {:induction false} ContinuesItself(a: seq<Task>)
    ensures Continues(a, a, 0)
  {
  }

  /** A failed merge is marked, so that it does not commit; its inputs stay where they are. */
  lemma {:induction false} MergeFailureBlocks(s: Db, l: nat, i: nat)
    requires Inv(s) && Enabled(s, MergeFails(l, i))
    ensures
      var t := Apply(s, MergeFails(l, i));
      && t.levels == s.levels && i < |Waiting(t, l)| == |Waiting(s, l)|
      && Waiting(t, l)[i] == Waiting(s, l)[i].(failed := true) && (i == 0 ==> !Enabled(t, MergeCommits(l)))
  {
    hide LevelOk, Chronicle, Swapping, Inputs, Repeat;
  }

  ghost predicate NoneFailed(ts: seq<Task>) {
    forall i :: 0 <= i < |ts| ==> !ts[i].failed
  }

  /** What the outputs of some merges hold. */
  function Outputs(ts: seq<Task>): seq<Content> {
    if ts == [] then [] else [Merged(ts[0].inputs, ts[0].discard)] + Outputs(ts[1..])
  }

  function Contents(ts: seq<Table>): (cs: seq<Content>)
    ensures |cs| == |ts| && forall i :: 0 <= i < |ts| ==> cs[i] == ts[i].content
  {
    seq(|ts|, i requires 0 <= i < |ts| => ts[i].content)
  }

  /** A commit takes the inputs from the front of its level and puts one table with their merge behind the next one. */
  lemma {:induction false} CommitMoves(s: Db, l: nat)
    requires Inv(s) && Enabled(s, MergeCommits(l))
    ensures
      var t, u := s.tasks[l][0], Apply(s, MergeCommits(l));
      && Inv(u) && u.tasks[l] == s.tasks[l][1..] && |u.levels| == |s.levels| == |u.tasks|
      && |t.inputs| <= |s.levels[l]| && s.levels[l][..|t.inputs|] == t.inputs && u.levels[l] == s.levels[l][|t.inputs|..]
      && |u.levels[l + 1]| == |s.levels[l + 1]| + 1 && u.levels[l + 1][..|s.levels[l + 1]|] == s.levels[l + 1]
      && u.levels[l + 1][|s.levels[l + 1]|].content == Merged(t.inputs, t.discard)
      && t.inputs != [] && u.levels[l + 1][|s.levels[l + 1]|].epoch == t.inputs[0].epoch
  {
    CommitKeepsInv(s, l);
    hide Flat, Chronicle, Swapping, Merged, Inputs;
    assert LevelOk(s.levels, s.progress, s.tasks, s.created, l);
    QueueCommit(s.levels[l], s.progress[l], s.tasks[l]);
  }

  /** While none of them has failed, the merges waiting in a level can all commit, in order. */
  lemma {:induction false} CanMerge(s: Db, l: nat) returns (run: seq<Action>)
    requires Inv(s) && l + 1 < |s.levels| && |s.tasks| == |s.levels| && NoneFailed(s.tasks[l])
    ensures Runs(s, run) && |After(s, run).levels| == |s.levels| == |After(s, run).tasks| && After(s, run).tasks[l] == []
    ensures Inputs(s.tasks[l]) <= s.levels[l] && After(s, run).levels[l] == s.levels[l][|Inputs(s.tasks[l])|..]
    ensures Contents(After(s, run).levels[l + 1]) == Contents(s.levels[l + 1]) + Outputs(s.tasks[l])
    decreases |s.tasks[l]|
  {
    WaitsInFront(s, l);
    if s.tasks[l] == [] {
      run := [];
      RunOfNone(s);
      assert Contents(s.levels[l + 1]) + [] == Contents(s.levels[l + 1]);
    } else {
      CommitMoves(s, l);
      var ts, u := s.tasks[l], Apply(s, MergeCommits(l));
      assert NoneFailed(ts[1..]);
      hide Inv, Enabled, Apply, Runs, After, Merged, Contents, Outputs, Inputs, NoneFailed;
      var rest := CanMerge(u, l);
      OneMore(s, MergeCommits(l), rest);
      run := [MergeCommits(l)] + rest;
      InputsBehind(ts, s.levels[l]);
      OutputsBehind(ts, s.levels[l + 1], u.levels[l + 1]);
    }
  }

  lemma {:induction false} InputsBehind(ts: seq<Task>, level: seq<Table>)
    requires ts != [] && Inputs(ts) <= level
    ensures |ts[0].inputs| + |Inputs(ts[1..])| == |Inputs(ts)| <= |level|
    ensures level[|ts[0].inputs|..][|Inputs(ts[1..])|..] == level[|Inputs(ts)|..]
  {
  }

  lemma {:induction false} OutputsBehind(ts: seq<Task>, before: seq<Table>, after: seq<Table>)
    requires ts != [] && |after| == |before| + 1 && after[..|before|] == before
    requires after[|before|].content == Merged(ts[0].inputs, ts[0].discard)
    ensures Contents(after) + Outputs(ts[1..]) == Contents(before) + Outputs(ts)
  {
    hide Merged;
    var out := [after[|before|].content];
    assert Contents(after) == Contents(before) + out;
    assert Contents(before) + out + Outputs(ts[1..]) == Contents(before) + (out + Outputs(ts[1..]));
  }

  lemma {:induction false} WaitsInFront(s: Db, l: nat)
    requires Inv(s) && l < |s.levels|
    ensures |s.tasks| == |s.levels| && Inputs(s.tasks[l]) <= s.levels[l]
    ensures forall i :: 0 <= i < |s.tasks[l]| ==> s.tasks[l][i].inputs != []
  {
    hide Flat, Chronicle, Swapping;
    assert LevelOk(s.levels, s.progress, s.tasks, s.created, l);
  }

  /** Some run leaves none of the tables that wait to be merged in level `l`. */
  ghost predicate Mergeable(s: Db, l: nat)
    requires Inv(s) && l < |s.tasks|
  {
    exists run :: Runs(s, run) && l < |After(s, run).levels| && NoFileLeft(Inputs(s.tasks[l]), After(s, run).levels[l])
  }

  ghost predicate NoFileLeft(before: seq<Table>, after: seq<Table>) {
    forall i, j :: 0 <= i < |before| && 0 <= j < |after| ==> after[j].id != before[i].id
  }

  lemma {:induction false} BehindOthers(s: Db, l: nat)
    requires Inv(s) && l < |s.levels| == |s.tasks| && Inputs(s.tasks[l]) <= s.levels[l]
    ensures NoFileLeft(Inputs(s.tasks[l]), s.levels[l][|Inputs(s.tasks[l])|..])
  {
    hide LevelsOk, Swapping, Inputs;
    FlatCut(s.levels, l);
    var a, level, b := Flat(s.levels[l + 1..]), s.levels[l], Flat(s.levels[..l]);
    hide Flat;
    assert Frozen(s) == a + level + (b + s.pending);
    LevelApart(a, level, b + s.pending, s.nextId);
  }

  lemma {:induction false} LevelApart(a: seq<Table>, level: seq<Table>, b: seq<Table>, next: nat)
    requires Chronicle(a + level + b, next)
    ensures forall i, j :: 0 <= i < j < |level| ==> level[i].id != level[j].id
  {
    var all, n := a + level + b, |a|;
    forall i, j | 0 <= i < j < |level|
      ensures level[i].id != level[j].id
    {
      assert all[n + i] == level[i] && all[n + j] == level[j];
    }
  }

  /** What waits to be merged in a level can leave it if and only if no merge of that chain has failed. */
  lemma {:induction false} MergeableIff(s: Db, l: nat)
    requires Inv(s) && l + 1 < |s.levels| && |s.tasks| == |s.levels|
    ensures Mergeable(s, l) <==> NoneFailed(s.tasks[l])
  {
    if NoneFailed(s.tasks[l]) {
      var run := CanMerge(s, l);
      BehindOthers(s, l);
      assert Runs(s, run);
    } else {
      var i :| 0 <= i < |s.tasks[l]| && s.tasks[l][i].failed;
      forall run | Runs(s, run) && l < |After(s, run).levels|
        ensures !NoFileLeft(Inputs(s.tasks[l]), After(s, run).levels[l])
      {
        FailedLeaves(s, run, l, i);
      }
    }
  }

  /** An input of a failed merge never leaves its level. */
  lemma {:induction false} FailedLeaves(s: Db, run: seq<Action>, l: nat, i: nat)
    requires Inv(s) && Runs(s, run) && l < |s.levels| && |s.tasks| == |s.levels| && l < |After(s, run).levels|
    requires i < |s.tasks[l]| && s.tasks[l][i].failed
    ensures !NoFileLeft(Inputs(s.tasks[l]), After(s, run).levels[l])
  {
    var d := FailedMergeStays(s, run, l, i);
    var t := After(s, run);
    hide Runs, After, Inv, Inputs;
    WaitsInFront(s, l);
    WaitsInFront(t, l);
    assert t.tasks[l][i - d].inputs == s.tasks[l][d + (i - d)].inputs;
    var x := s.tasks[l][i].inputs[0];
    var p := PlaceOf(s.tasks[l], i);
    var q := PlaceOf(t.tasks[l], i - d);
    assert Inputs(s.tasks[l])[p] == x && t.levels[l][q] == x;
  }

  lemma {:induction false} PlaceOf(ts: seq<Task>, i: nat) returns (p: nat)
    requires i < |ts| && ts[i].inputs != []
    ensures p < |Inputs(ts)| && Inputs(ts)[p] == ts[i].inputs[0]
  {
    InputsSplit(ts, i);
    p := |Inputs(ts[..i])|;
  }
}
