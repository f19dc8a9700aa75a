/** What every run of the LSM tree keeps. */
module LsmSafety {
  // Tables stay in order of age, background work is invisible to readers, and no deletion is undone by a merge that
  // drops its tombstone.

  import opened Versions
  import opened Lsm

  /** What a reader sees of `k`: current table, frozen tables newest first, then the levels. */
  function Lookup(s: Db, k: Key): Option<Value> {
    Observe(if k in s.current then Some(s.current[k]) else Search(Frozen(s), k))
  }

  lemma {:induction false} QueueLaunch(level: seq<Table>, progress: seq<Progress>, tasks: seq<Task>, buckets: seq<seq<Table>>, discard: bool)
    requires Queue(level, progress, tasks) && Inputs(tasks) + Concat(buckets) <= level
    requires forall b :: 0 <= b < |buckets| ==> buckets[b] != []
    ensures
      var from, n := |Inputs(tasks)|, |Concat(buckets)|;
      Queue(level, progress[..from] + Repeat(InCompaction, n) + progress[from + n..], tasks + TasksFor(buckets, discard))
  {
    InputsConcat(tasks, TasksFor(buckets, discard));
    InputsOfTasks(buckets, discard);
    hide Inputs, Concat, TasksFor, Repeat;
    var from, n, more := |Inputs(tasks)|, |Concat(buckets)|, tasks + TasksFor(buckets, discard);
    var marked := progress[..from] + Repeat(InCompaction, n) + progress[from + n..];
    assert Inputs(more) == Inputs(tasks) + Concat(buckets);
    forall i | 0 <= i < |level|
      ensures marked[i] == Pickable <==> |Inputs(more)| <= i
    {
      assert marked[i] == if i < from || from + n <= i then progress[i] else InCompaction;
    }
  }

  lemma {:induction false} QueueFail(level: seq<Table>, progress: seq<Progress>, tasks: seq<Task>, i: nat)
    requires Queue(level, progress, tasks) && i < |tasks|
    ensures |Inputs(tasks[..i])| + |tasks[i].inputs| <= |level|
    ensures
      var from, n := |Inputs(tasks[..i])|, |tasks[i].inputs|;
      Queue(level, progress[..from] + Repeat(CompactionError, n) + progress[from + n..], tasks[i := tasks[i].(failed := true)])
  {
    InputsSplit(tasks, i);
    var tasks2 := tasks[i := tasks[i].(failed := true)];
    InputsSplit(tasks2, i);
    assert tasks2[..i] == tasks[..i] && tasks2[i + 1..] == tasks[i + 1..];
  }

  lemma {:induction false} QueueCommit(level: seq<Table>, progress: seq<Progress>, tasks: seq<Task>)
    requires Queue(level, progress, tasks) && tasks != []
    ensures
      var m := |tasks[0].inputs|;
      m <= |level| && level[..m] == tasks[0].inputs && Queue(level[m..], progress[m..], tasks[1..])
  {
  }

  lemma {:induction false} QueuePush(level: seq<Table>, progress: seq<Progress>, tasks: seq<Task>, t: Table)
    requires Queue(level, progress, tasks)
    ensures Queue(level + [t], progress + [Pickable], tasks)
  {
  }

  /** Frozen epochs rise and are below the counter. */
  ghost predicate Rising(ts: seq<Table>, next: nat) {
    && (forall i :: 0 <= i < |ts| ==> ts[i].epoch < next)
    && forall i, j :: 0 <= i < j < |ts| ==> ts[i].epoch < ts[j].epoch
  }

  lemma {:induction false} PendingRise(s: Db)
    requires Inv(s)
    ensures Rising(s.pending, s.nextId)
  {
    hide Flat, LevelsOk, Swapping;
    BackRises(Flat(s.levels), s.pending, s.nextId);
  }

  lemma {:induction false} BackRises(front: seq<Table>, back: seq<Table>, next: nat)
    requires Chronicle(front + back, next)
    ensures Rising(back, next)
  {
    var all, n := front + back, |front|;
    forall i | 0 <= i < |back|
      ensures back[i].epoch < next
    {
      assert all[n + i] == back[i];
    }
    forall i, j | 0 <= i < j < |back|
      ensures back[i].epoch < back[j].epoch
    {
      assert all[n + i] == back[i] && all[n + j] == back[j];
    }
  }

  lemma {:induction false} DrainKeeps(switching: bool, ts: seq<Table>, drained: set<nat>, next: nat, i: nat)
    requires Rising(ts, next) && SwapOk(switching, ts, drained, next) && i < |ts| && (switching ==> i < |ts| - 1)
    ensures SwapOk(switching, ts, drained + {ts[i].epoch}, next)
  {
  }

  lemma {:induction false} FlushKeeps(switching: bool, ts: seq<Table>, drained: set<nat>, next: nat)
    requires SwapOk(switching, ts, drained, next) && ts != [] && ts[0].epoch in drained
    ensures SwapOk(switching, ts[1..], drained, next)
  {
  }

  lemma {:induction false} LatePutKeeps(switching: bool, ts: seq<Table>, drained: set<nat>, next: nat, i: nat, c: Content)
    requires SwapOk(switching, ts, drained, next) && i < |ts|
    ensures SwapOk(switching, ts[i := ts[i].(content := c)], drained, next)
  {
  }

  lemma {:induction false} SwapStarts(ts: seq<Table>, drained: set<nat>, next: nat, t: Table)
    requires SwapOk(false, ts, drained, next) && t.epoch == next
    ensures SwapOk(true, ts + [t], drained, next + 1)
  {
  }

  lemma {:induction false} SwapOkGrows(switching: bool, ts: seq<Table>, drained: set<nat>, next: nat)
    requires SwapOk(switching, ts, drained, next)
    ensures SwapOk(switching, ts, drained, next + 1) && SwapOk(false, ts, drained, next)
  {
  }

  lemma {:induction false} StepKeepsSwapping(s: Db, a: Action)
    requires Inv(s) && Enabled(s, a)
    ensures Swapping(Apply(s, a))
  {
    PendingRise(s);
    hide LevelsOk, Chronicle, SwapOk, Rising;
    match a
    case LatePut(i, k, v) => LatePutKeeps(s.switching, s.pending, s.drained, s.nextId, i, s.pending[i].content[k := v]);
    case Swap => SwapStarts(s.pending, s.drained, s.nextId, Table(s.nextId, s.nextId, s.nextId, s.current));
    case Bump => SwapOkGrows(s.switching, s.pending, s.drained, s.nextId);
    case Drain(i) => DrainKeeps(s.switching, s.pending, s.drained, s.nextId, i);
    case FlushCommits => FlushKeeps(s.switching, s.pending, s.drained, s.nextId);
    case MergeCommits(l) => SwapOkGrows(s.switching, s.pending, s.drained, s.nextId);
    case _ =>
  }

  lemma {:induction false} FreezeKeepsInv(s: Db)
    requires Inv(s)
    ensures Inv(Freeze(s))
  {
    hide Flat, LevelsOk;
    var t := Table(s.nextId, s.nextId, s.nextId, s.current);
    assert Frozen(Freeze(s)) == Frozen(s) + [t];
  }

  lemma {:induction false} SkipKeepsAge(ts: seq<Table>, n: nat, next: nat)
    requires Chronicle(ts, next) && n < |ts|
    ensures Chronicle(ts[..n] + ts[n + 1..], next)
  {
  }

  lemma {:induction false} FlushKeepsAge(s: Db)
    requires Inv(s) && s.pending != []
    ensures Chronicle(Frozen(CommitFlush(s)), s.nextId)
  {
    hide Chronicle, LevelOk, Swapping;
    var s2, t, n := CommitFlush(s), s.pending[0], |Flat(s.levels)|;
    if t.content == map[] {
      assert Frozen(s2) == Frozen(s)[..n] + Frozen(s)[n + 1..];
      SkipKeepsAge(Frozen(s), n, s.nextId);
    } else {
      FlatPush(s.levels, t);
      assert Frozen(s2) == Frozen(s);
    }
  }

  lemma {:induction false} FlushKeepsInv(s: Db)
    requires Inv(s) && Enabled(s, FlushCommits)
    ensures Inv(CommitFlush(s))
  {
    StepKeepsSwapping(s, FlushCommits);
    hide Swapping, Flat, Chronicle, Queue;
    var s2 := CommitFlush(s);
    FlushKeepsAge(s);
    forall l | 0 <= l < |s.levels|
      ensures LevelOk(s2.levels, s2.progress, s2.tasks, s2.created, l)
    {
      assert LevelOk(s.levels, s.progress, s.tasks, s.created, l);
      QueuePush(s.levels[l], s.progress[l], s.tasks[l], s.pending[0]);
    }
  }

  /** The launched merges join their queue; only the first may discard, and only into an untouched last level. */
  lemma {:induction false} LaunchKeepsOwn(s: Db, l: nat, buckets: seq<seq<Table>>, ts: seq<Task>, marked: seq<Progress>)
    requires Inv(s) && Enabled(s, Launch(l, buckets))
    requires ts == s.tasks[l] + TasksFor(buckets, MayDiscard(s, l))
    requires Queue(s.levels[l], marked, ts)
    ensures LevelOk(s.levels, s.progress[l := marked], s.tasks[l := ts], s.created[l + 1 := true], l)
  {
    assert LevelOk(s.levels, s.progress, s.tasks, s.created, l);
    assert LevelOk(s.levels, s.progress, s.tasks, s.created, l + 1);
    InputsOfTasks(buckets, MayDiscard(s, l));
  }

  lemma {:induction false} LaunchKeepsLevel(s: Db, l: nat, buckets: seq<seq<Table>>, j: nat)
    requires Inv(s) && Enabled(s, Launch(l, buckets)) && buckets != [] && j < |s.levels|
    ensures
      var s2 := Apply(s, Launch(l, buckets));
      LevelOk(s2.levels, s2.progress, s2.tasks, s2.created, j)
  {
    hide Flat, Chronicle, Inputs, Concat, TasksFor, Repeat;
    assert LevelOk(s.levels, s.progress, s.tasks, s.created, j);
    if j == l {
      var s2 := Apply(s, Launch(l, buckets));
      QueueLaunch(s.levels[l], s.progress[l], s.tasks[l], buckets, MayDiscard(s, l));
      LaunchKeepsOwn(s, l, buckets, s2.tasks[l], s2.progress[l]);
    }
  }

  lemma {:induction false} LaunchKeepsInv(s: Db, l: nat, buckets: seq<seq<Table>>)
    requires Inv(s) && Enabled(s, Launch(l, buckets))
    ensures Inv(Apply(s, Launch(l, buckets)))
  {
    var s2 := Apply(s, Launch(l, buckets));
    if buckets != [] {
      forall j | 0 <= j < |s.levels|
        ensures LevelOk(s2.levels, s2.progress, s2.tasks, s2.created, j)
      {
        LaunchKeepsLevel(s, l, buckets, j);
      }
    }
  }

  lemma {:induction false} FailKeepsInv(s: Db, l: nat, i: nat)
    requires Inv(s) && Enabled(s, MergeFails(l, i))
    ensures Inv(Apply(s, MergeFails(l, i)))
  {
    hide Flat, Chronicle, Inputs, Repeat;
    var s2 := Apply(s, MergeFails(l, i));
    forall j | 0 <= j < |s.levels|
      ensures LevelOk(s2.levels, s2.progress, s2.tasks, s2.created, j)
    {
      assert LevelOk(s.levels, s.progress, s.tasks, s.created, j);
      if j == l {
        QueueFail(s.levels[l], s.progress[l], s.tasks[l], i);
      }
    }
  }

  /** A commit replaces its inputs by their merge, at their place in time. */
  lemma {:induction false} CommitReplaces(s: Db, l: nat) returns (a: seq<Table>, b: seq<Table>)
    requires Inv(s) && Enabled(s, MergeCommits(l))
    ensures
      var t, s2 := s.tasks[l][0], Apply(s, MergeCommits(l));
      && t.inputs != [] && (t.discard ==> a == [])
      && Flat(s.levels) == a + t.inputs + b && Flat(s2.levels) == a + [Output(t, s.nextId)] + b
  {
    assert LevelOk(s.levels, s.progress, s.tasks, s.created, l);
    var m := |s.tasks[l][0].inputs|;
    QueueCommit(s.levels[l], s.progress[l], s.tasks[l]);
    FlatReplaces(s.levels, l, m, Output(s.tasks[l][0], s.nextId));
    a, b := Flat(s.levels[l + 2..]) + s.levels[l + 1], s.levels[l][m..] + Flat(s.levels[..l]);
  }

  lemma {:induction false} CommitKeepsLevel(s: Db, l: nat, j: nat)
    requires Inv(s) && Enabled(s, MergeCommits(l)) && j < |s.levels|
    ensures
      var s2 := Apply(s, MergeCommits(l));
      LevelOk(s2.levels, s2.progress, s2.tasks, s2.created, j)
  {
    hide Flat, Chronicle, Inputs, Merged;
    assert LevelOk(s.levels, s.progress, s.tasks, s.created, j);
    assert LevelOk(s.levels, s.progress, s.tasks, s.created, l);
    assert LevelOk(s.levels, s.progress, s.tasks, s.created, l + 1);
    QueueCommit(s.levels[l], s.progress[l], s.tasks[l]);
    if j == l + 1 {
      QueuePush(s.levels[j], s.progress[j], s.tasks[j], Output(s.tasks[l][0], s.nextId));
    }
  }

  lemma {:induction false} HeadHasInputs(s: Db, l: nat)
    requires Inv(s) && Enabled(s, MergeCommits(l))
    ensures s.tasks[l][0].inputs != [] && |s.tasks[l][0].inputs| <= |s.levels[l]| == |s.progress[l]|
  {
    hide Flat, Chronicle;
    assert LevelOk(s.levels, s.progress, s.tasks, s.created, l);
    QueueCommit(s.levels[l], s.progress[l], s.tasks[l]);
  }

  lemma {:induction false} CommitKeepsInv(s: Db, l: nat)
    requires Inv(s) && Enabled(s, MergeCommits(l))
    ensures Inv(Apply(s, MergeCommits(l)))
  {
    hide Flat, Chronicle, Inputs, Merged, LevelOk;
    HeadHasInputs(s, l);
    var s2, t := Apply(s, MergeCommits(l)), s.tasks[l][0];
    var a, b := CommitReplaces(s, l);
    assert Frozen(s) == a + t.inputs + (b + s.pending) && Frozen(s2) == a + [Output(t, s.nextId)] + (b + s.pending);
    ReplaceKeepsAge(a, t.inputs, b + s.pending, Output(t, s.nextId), s.nextId);
    forall j | 0 <= j < |s.levels|
      ensures LevelOk(s2.levels, s2.progress, s2.tasks, s2.created, j)
    {
      CommitKeepsLevel(s, l, j);
    }
  }

  lemma {:induction false} LatePutKeepsAge(ts: seq<Table>, i: nat, c: Content, next: nat)
    requires Chronicle(ts, next) && i < |ts|
    ensures Chronicle(ts[i := ts[i].(content := c)], next)
  {
  }

  /** Every step keeps the invariant. */
  lemma {:induction false} StepKeepsInv(s: Db, a: Action)
    requires Inv(s) && Enabled(s, a)
    ensures Inv(Apply(s, a))
  {
    hide Flat, Inputs, Concat, Merged;
    StepKeepsSwapping(s, a);
    hide Swapping;
    match a
    case LatePut(i, k, v) =>
      var c, n := s.pending[i].content[k := v], |Flat(s.levels)|;
      LatePutKeepsAge(Frozen(s), n + i, c, s.nextId);
      assert Frozen(Apply(s, a)) == Frozen(s)[n + i := s.pending[i].(content := c)];
    case Swap => FreezeKeepsInv(s);
    case FlushCommits => FlushKeepsInv(s);
    case Launch(l, buckets) => LaunchKeepsInv(s, l, buckets);
    case MergeFails(l, i) => FailKeepsInv(s, l, i);
    case MergeCommits(l) => CommitKeepsInv(s, l);
    case _ =>
  }

  // ---- What readers see

  predicate Background(a: Action) {
    !a.Put? && !a.LatePut?
  }

  /** A flush commit, seen by a search over everything frozen. */
  lemma {:induction false} FlushKeepsSearch(s: Db, k: Key)
    requires Inv(s) && s.pending != []
    ensures Search(Frozen(CommitFlush(s)), k) == Search(Frozen(s), k)
  {
    var s2, t, rest := CommitFlush(s), s.pending[0], s.pending[1..];
    if t.content == map[] {
      assert Frozen(s) == Flat(s.levels) + [t] + rest;
      SearchConcat(Flat(s.levels) + [t], rest, k);
      SearchConcat(Flat(s.levels), rest, k);
      assert (Flat(s.levels) + [t])[..|Flat(s.levels)|] == Flat(s.levels);
    } else {
      FlatPush(s.levels, t);
      assert Frozen(s2) == Frozen(s);
    }
  }

  /** A merge commit, seen by a search over the levels, and over everything frozen. */
  lemma {:induction false} CommitKeepsSearch(s: Db, l: nat, k: Key)
    requires Inv(s) && Enabled(s, MergeCommits(l))
    ensures
      var s2 := Apply(s, MergeCommits(l));
      && Observe(Search(Flat(s2.levels), k)) == Observe(Search(Flat(s.levels), k))
      && Observe(Search(Frozen(s2), k)) == Observe(Search(Frozen(s), k))
  {
    var a, b := CommitReplaces(s, l);
    MergeKeepsSearch(a, s.tasks[l][0].inputs, b, Output(s.tasks[l][0], s.nextId), s.tasks[l][0].discard, k);
    SearchConcat(Flat(s.levels), s.pending, k);
    SearchConcat(Flat(Apply(s, MergeCommits(l)).levels), s.pending, k);
  }

  /** Table swaps, flushes and merges change nothing a reader can see. */
  lemma {:induction false} BackgroundInvisible(s: Db, a: Action, k: Key)
    requires Inv(s) && Enabled(s, a) && Background(a)
    ensures Lookup(Apply(s, a), k) == Lookup(s, k)
  {
    match a
    case Swap =>
      var t := Table(s.nextId, s.nextId, s.nextId, s.current);
      assert Frozen(Freeze(s)) == Frozen(s) + [t];
      SearchConcat(Frozen(s), [t], k);
      assert [t][..0] == [];
    case FlushCommits => FlushKeepsSearch(s, k);
    case MergeCommits(l) => CommitKeepsSearch(s, l, k);
    case _ =>
  }

  /** A table behind the `i`-th holds `k`. */
  ghost predicate Newer(ts: seq<Table>, i: nat, k: Key) {
    exists j :: i < j < |ts| && k in ts[j].content
  }

  /** Writing into a frozen table shows only where nothing newer is stored. */
  lemma {:induction false} SearchUpdate(ts: seq<Table>, i: nat, k: Key, v: Value, j: Key)
    requires i < |ts|
    ensures
      var ts2 := ts[i := ts[i].(content := ts[i].content[k := v])];
      && (j != k ==> Search(ts2, j) == Search(ts, j))
      && Search(ts2, k) == if Newer(ts, i, k) then Search(ts, k) else Some(v)
  {
    var ts2 := ts[i := ts[i].(content := ts[i].content[k := v])];
    var n := |ts| - 1;
    if i == n {
      assert ts2[..n] == ts[..n];
    } else {
      SearchUpdate(ts[..n], i, k, v, j);
      assert ts2[..n] == ts[..n][i := ts[i].(content := ts[i].content[k := v])];
      assert Newer(ts, i, k) <==> k in ts[n].content || Newer(ts[..n], i, k);
    }
  }

  lemma {:induction false} NewerAmongFrozen(s: Db, i: nat, k: Key)
    ensures Newer(Frozen(s), |Flat(s.levels)| + i, k) <==> Newer(s.pending, i, k)
  {
    hide Flat;
    var n := |Flat(s.levels)|;
    if Newer(Frozen(s), n + i, k) {
      var j :| n + i < j < |Frozen(s)| && k in Frozen(s)[j].content;
      assert s.pending[j - n] == Frozen(s)[j];
    }
    if Newer(s.pending, i, k) {
      var j :| i < j < |s.pending| && k in s.pending[j].content;
      assert Frozen(s)[n + j] == s.pending[j];
    }
  }

  /** A write changes its own key only; a late write is seen or already overwritten. */
  lemma {:induction false} WriteVisible(s: Db, a: Action, k: Key)
    requires Inv(s) && Enabled(s, a) && !Background(a)
    ensures k != a.k ==> Lookup(Apply(s, a), k) == Lookup(s, k)
    ensures k == a.k && a.Put? ==> Lookup(Apply(s, a), k) == Observe(Some(a.v))
    ensures k == a.k && a.LatePut? ==>
              Lookup(Apply(s, a), k) == if k in s.current || Newer(s.pending, a.i, k) then Lookup(s, k) else Observe(Some(a.v))
  {
    hide Flat, LevelsOk, Chronicle, Swapping;
    if a.LatePut? {
      var n := |Flat(s.levels)| + a.i;
      NewerAmongFrozen(s, a.i, k);
      SearchUpdate(Frozen(s), n, a.k, a.v, k);
      assert Frozen(Apply(s, a)) == Frozen(s)[n := s.pending[a.i].(content := s.pending[a.i].content[a.k := a.v])];
    }
  }

  // ---- Whole runs

  /** Every action of the run is enabled when its turn comes. */
  ghost predicate Runs(s: Db, run: seq<Action>)
    requires Inv(s)
    decreases |run|
  {
    run != [] ==> Enabled(s, run[0]) && (StepKeepsInv(s, run[0]); Runs(Apply(s, run[0]), run[1..]))
  }

  ghost function After(s: Db, run: seq<Action>): (s2: Db)
    requires Inv(s) && Runs(s, run)
    ensures Inv(s2)
    decreases |run|
  {
    if run == [] then s else
    StepKeepsInv(s, run[0]);
    After(Apply(s, run[0]), run[1..])
  }

  /** What the writes of a run alone say about `k`. */
  function LastPut(run: seq<Action>, k: Key, before: Option<Value>): Option<Value>
    decreases |run|
  {
    if run == [] then before
    else LastPut(run[1..], k, if run[0].Put? && run[0].k == k then Observe(Some(run[0].v)) else before)
  }

  /** All values the run writes to `k`. */
  function Written(run: seq<Action>, k: Key): set<Option<Value>>
    decreases |run|
  {
    if run == [] then {}
    else (if !Background(run[0]) && run[0].k == k then {Observe(Some(run[0].v))} else {}) + Written(run[1..], k)
  }

  /**
   * Writes are ordered by the table they go to and then by time.  A put goes to the current table, which will
   * be frozen with an epoch of at least `nextId`; a late write goes to a table with an epoch of its own.
   */
  function StampOf(s: Db, a: Action): nat
    requires Enabled(s, a) && !Background(a)
  {
    if a.Put? then s.nextId else s.pending[a.i].epoch
  }

  /** The stamp under which `k` is stored. */
  function StoredStamp(s: Db, k: Key): nat {
    if k in s.current then s.nextId else NewestEpoch(s.pending, k)
  }

  function NewestEpoch(ts: seq<Table>, k: Key): nat {
    if ts == [] then 0
    else if k in ts[|ts| - 1].content then ts[|ts| - 1].epoch
    else NewestEpoch(ts[..|ts| - 1], k)
  }

  /** The value of the greatest of the writes to `k` in a run, or `value` if all of them are below `stamp`. */
  ghost function GreatestWrite(s: Db, run: seq<Action>, k: Key, stamp: nat, value: Option<Value>): Option<Value>
    requires Inv(s) && Runs(s, run)
    decreases |run|
  {
    if run == [] then value
    else
      var a := run[0];
      StepKeepsInv(s, a);
      if !Background(a) && a.k == k && stamp <= StampOf(s, a)
      then GreatestWrite(Apply(s, a), run[1..], k, StampOf(s, a), Observe(Some(a.v)))
      else GreatestWrite(Apply(s, a), run[1..], k, stamp, value)
  }

  /** The stamp tells which frozen tables hide a write to `k` and which are hidden by it. */
  ghost predicate StampedIn(current: Content, ts: seq<Table>, next: nat, k: Key, stamp: nat) {
    && stamp <= next
    && forall i :: 0 <= i < |ts| ==> (ts[i].epoch < stamp <==> k in current || Newer(ts, i, k))
  }

  ghost predicate Stamped(s: Db, k: Key, stamp: nat) {
    StampedIn(s.current, s.pending, s.nextId, k, stamp)
  }

  lemma {:induction false} NewestEpochIs(ts: seq<Table>, k: Key, next: nat)
    requires Rising(ts, next)
    ensures NewestEpoch(ts, k) <= next
    ensures forall i :: 0 <= i < |ts| ==> (ts[i].epoch < NewestEpoch(ts, k) <==> Newer(ts, i, k))
  {
    if ts != [] {
      var n := |ts| - 1;
      NewestEpochIs(ts[..n], k, next);
      forall i | 0 <= i < |ts|
        ensures ts[i].epoch < NewestEpoch(ts, k) <==> Newer(ts, i, k)
      {
        assert i < n ==> (Newer(ts, i, k) <==> k in ts[n].content || Newer(ts[..n], i, k));
        assert i < n ==> ts[..n][i] == ts[i];
        if i == n && k !in ts[n].content {
          NewestEpochBelow(ts[..n], k, ts[n].epoch);
        }
      }
    }
  }

  lemma {:induction false} NewestEpochBelow(ts: seq<Table>, k: Key, bound: nat)
    requires forall i :: 0 <= i < |ts| ==> ts[i].epoch < bound
    ensures NewestEpoch(ts, k) <= bound
  {
    if ts != [] {
      NewestEpochBelow(ts[..|ts| - 1], k, bound);
    }
  }

  lemma {:induction false} StartsStamped(s: Db, k: Key)
    requires Inv(s)
    ensures Stamped(s, k, StoredStamp(s, k))
  {
    PendingRise(s);
    hide Inv, Newer;
    NewestEpochIs(s.pending, k, s.nextId);
  }

  /** The write `a` goes to `k`, and is not below what is stored. */
  ghost predicate Overwrites(s: Db, a: Action, k: Key, stamp: nat)
    requires Enabled(s, a)
  {
    !Background(a) && a.k == k && stamp <= StampOf(s, a)
  }

  lemma {:induction false} LateStamped(c: Content, ts: seq<Table>, next: nat, i: nat, v: Value, k: Key, stamp: nat)
    requires i < |ts| && Rising(ts, next) && StampedIn(c, ts, next, k, stamp)
    ensures StampedIn(c, ts[i := ts[i].(content := ts[i].content[k := v])], next, k, if stamp <= ts[i].epoch then ts[i].epoch else stamp)
  {
    hide Newer;
    var ts2 := ts[i := ts[i].(content := ts[i].content[k := v])];
    forall x: nat | x < |ts2|
      ensures Newer(ts2, x, k) <==> x < i || Newer(ts, x, k)
    {
      NewerLate(ts, i, v, k, x);
    }
  }

  lemma {:induction false} NewerLate(ts: seq<Table>, i: nat, v: Value, k: Key, x: nat)
    requires i < |ts|
    ensures Newer(ts[i := ts[i].(content := ts[i].content[k := v])], x, k) <==> x < i || Newer(ts, x, k)
  {
    var ts2 := ts[i := ts[i].(content := ts[i].content[k := v])];
    if x < i {
      assert k in ts2[i].content;
    }
    if Newer(ts, x, k) {
      var j :| x < j < |ts| && k in ts[j].content;
      assert k in ts2[j].content;
    }
  }

  lemma {:induction false} OtherStamped(c: Content, ts: seq<Table>, next: nat, i: nat, j: Key, v: Value, k: Key, stamp: nat)
    requires i < |ts| && j != k && StampedIn(c, ts, next, k, stamp)
    ensures StampedIn(c, ts[i := ts[i].(content := ts[i].content[j := v])], next, k, stamp)
  {
    var ts2 := ts[i := ts[i].(content := ts[i].content[j := v])];
    assert forall x :: 0 <= x < |ts| ==> (k in ts2[x].content <==> k in ts[x].content);
  }

  lemma {:induction false} SwapStamped(c: Content, ts: seq<Table>, next: nat, t: Table, k: Key, stamp: nat)
    requires StampedIn(c, ts, next, k, stamp) && t.content == c && t.epoch == next
    ensures StampedIn(map[], ts + [t], next + 1, k, stamp)
  {
    var more, n := ts + [t], |ts|;
    assert more[n] == t;
    forall x: nat | x < n
      ensures Newer(more, x, k) <==> k in c || Newer(ts, x, k)
    {
      if Newer(ts, x, k) {
        var j :| x < j < |ts| && k in ts[j].content;
        assert more[j] == ts[j];
      }
    }
  }

  lemma {:induction false} FlushStamped(c: Content, ts: seq<Table>, next: nat, k: Key, stamp: nat)
    requires ts != [] && StampedIn(c, ts, next, k, stamp)
    ensures StampedIn(c, ts[1..], next, k, stamp)
  {
    forall x: nat | x < |ts| - 1
      ensures Newer(ts[1..], x, k) <==> Newer(ts, x + 1, k)
    {
      if Newer(ts, x + 1, k) {
        var j :| x + 1 < j < |ts| && k in ts[j].content;
        assert ts[1..][j - 1] == ts[j];
      }
    }
  }

  lemma {:induction false} PutStamped(c: Content, ts: seq<Table>, next: nat, k: Key, v: Value)
    requires Rising(ts, next)
    ensures StampedIn(c[k := v], ts, next, k, next)
  {
  }

  lemma {:induction false} CounterGrows(c: Content, c2: Content, ts: seq<Table>, next: nat, next2: nat, k: Key, stamp: nat)
    requires StampedIn(c, ts, next, k, stamp) && next <= next2 && (k in c2 <==> k in c)
    ensures StampedIn(c2, ts, next2, k, stamp)
  {
  }

  lemma {:induction false} StampedStep(s: Db, a: Action, k: Key, stamp: nat)
    requires Inv(s) && Enabled(s, a) && Stamped(s, k, stamp)
    ensures Stamped(Apply(s, a), k, if Overwrites(s, a, k, stamp) then StampOf(s, a) else stamp)
  {
    PendingRise(s);
    hide Flat, LevelsOk, LevelOk, Chronicle, Swapping, StampedIn, Rising;
    match a
    case Put(j, v) =>
      if j == k {
        PutStamped(s.current, s.pending, s.nextId, k, v);
        StampBelow(s.current, s.pending, s.nextId, k, stamp);
      } else {
        CounterGrows(s.current, s.current[j := v], s.pending, s.nextId, s.nextId, k, stamp);
      }
    case LatePut(i, j, v) =>
      if j == k {
        LateStamped(s.current, s.pending, s.nextId, i, v, k, stamp);
      } else {
        OtherStamped(s.current, s.pending, s.nextId, i, j, v, k, stamp);
      }
    case Swap => SwapStamped(s.current, s.pending, s.nextId, Table(s.nextId, s.nextId, s.nextId, s.current), k, stamp);
    case FlushCommits => FlushStamped(s.current, s.pending, s.nextId, k, stamp);
    case MergeCommits(l) => CounterGrows(s.current, s.current, s.pending, s.nextId, s.nextId + 1, k, stamp);
    case _ =>
  }

  lemma {:induction false} StampBelow(c: Content, ts: seq<Table>, next: nat, k: Key, stamp: nat)
    requires StampedIn(c, ts, next, k, stamp)
    ensures stamp <= next
  {
  }

  lemma {:induction false} ShownStep(s: Db, a: Action, k: Key, stamp: nat)
    requires Inv(s) && Enabled(s, a) && Stamped(s, k, stamp)
    ensures Lookup(Apply(s, a), k) == if Overwrites(s, a, k, stamp) then Observe(Some(a.v)) else Lookup(s, k)
  {
    if Background(a) {
      BackgroundInvisible(s, a, k);
    } else {
      hide Flat, LevelsOk, LevelOk, Chronicle, Swapping, Newer, Lookup, Apply;
      WriteVisible(s, a, k);
    }
  }

  lemma {:induction false} RunShowsGreatestWrite(s: Db, run: seq<Action>, k: Key, stamp: nat)
    requires Inv(s) && Runs(s, run) && Stamped(s, k, stamp)
    ensures Lookup(After(s, run), k) == GreatestWrite(s, run, k, stamp, Lookup(s, k))
    decreases |run|
  {
    hide Inv, Enabled, Stamped, Lookup;
    if run != [] {
      var a := run[0];
      StepKeepsInv(s, a);
      StampedStep(s, a, k, stamp);
      ShownStep(s, a, k, stamp);
      RunShowsGreatestWrite(Apply(s, a), run[1..], k, if Overwrites(s, a, k, stamp) then StampOf(s, a) else stamp);
    }
  }

  /**
   * Over every run the store is a map, whatever ran in the background: a reader sees the greatest write,
   * or what was stored before if no write of the run reaches it.
   */
  lemma {:induction false} RunRefinesMap(s: Db, run: seq<Action>, k: Key)
    requires Inv(s) && Runs(s, run)
    ensures Lookup(After(s, run), k) == GreatestWrite(s, run, k, StoredStamp(s, k), Lookup(s, k))
    ensures NoLatePut(run, k) ==> Lookup(After(s, run), k) == LastPut(run, k, Lookup(s, k))
  {
    StartsStamped(s, k);
    hide Runs, After, Inv, Lookup, GreatestWrite, LastPut;
    RunShowsGreatestWrite(s, run, k, StoredStamp(s, k));
    if NoLatePut(run, k) {
      GreatestIsLast(s, run, k, StoredStamp(s, k), Lookup(s, k));
    }
  }

  ghost predicate NoLatePut(run: seq<Action>, k: Key) {
    forall i :: 0 <= i < |run| ==> !(run[i].LatePut? && run[i].k == k)
  }

  /** Without late writes to `k` the greatest write is the last. */
  lemma {:induction false} GreatestIsLast(s: Db, run: seq<Action>, k: Key, stamp: nat, value: Option<Value>)
    requires Inv(s) && Runs(s, run) && stamp <= s.nextId && NoLatePut(run, k)
    ensures GreatestWrite(s, run, k, stamp, value) == LastPut(run, k, value)
    decreases |run|
  {
    hide Inv;
    if run != [] {
      var a := run[0];
      StepKeepsInv(s, a);
      CounterRises(s, a);
      if a.Put? && a.k == k {
        GreatestIsLast(Apply(s, a), run[1..], k, s.nextId, Observe(Some(a.v)));
      } else {
        GreatestIsLast(Apply(s, a), run[1..], k, stamp, value);
      }
    }
  }

  lemma {:induction false} CounterRises(s: Db, a: Action)
    requires Inv(s) && Enabled(s, a)
    ensures s.nextId <= Apply(s, a).nextId
  {
    hide LevelsOk, Chronicle, Swapping;
  }

  // ---- Where runs start, and tombstones

  /** The tree as the loader builds it from a manifest; with empty levels, the tree of a new database. */
  function Loaded(levels: seq<seq<Table>>, nextId: nat): Db {
    Db(map[], false, [], {}, {}, levels,
       seq(|levels|, l requires 0 <= l < |levels| => Repeat(Pickable, |levels[l]|)),
       seq(|levels|, l => []),
       seq(|levels|, l requires 0 <= l < |levels| => levels[l] != []),
       nextId)
  }

  lemma {:induction false} LoadedInv(levels: seq<seq<Table>>, nextId: nat)
    requires |levels| >= 2 && Chronicle(Flat(levels), nextId)
    ensures Inv(Loaded(levels, nextId))
  {
  }

  /** The tree that was loaded shows exactly what the tables on disk hold. */
  lemma {:induction false} LoadedShows(levels: seq<seq<Table>>, nextId: nat, k: Key)
    ensures Lookup(Loaded(levels, nextId), k) == Observe(Search(Flat(levels), k))
    ensures Loaded(levels, nextId).levels == levels && Frozen(Loaded(levels, nextId)) == Flat(levels)
  {
    assert Flat(levels) + [] == Flat(levels);
  }

  /** A newer table in memory has the key. */
  ghost predicate InMemory(s: Db, k: Key) {
    k in s.current || exists i :: 0 <= i < |s.pending| && k in s.pending[i].content
  }

  /** A restart keeps every key of which nothing was in memory; of any other it shows the newest version on disk. */
  lemma {:induction false} RestartShows(s: Db, nextId: nat, k: Key)
    ensures Lookup(Loaded(s.levels, nextId), k) == Observe(Search(Flat(s.levels), k))
    ensures !InMemory(s, k) ==> Lookup(Loaded(s.levels, nextId), k) == Lookup(s, k)
  {
    LoadedShows(s.levels, nextId, k);
    hide Flat;
    SearchConcat(Flat(s.levels), s.pending, k);
    SearchHit(s.pending, k);
  }

  /** Tables on disk, in any state that can be reached, are in order of age for every counter above their file ids. */
  lemma {:induction false} ReloadedInv(s: Db, nextId: nat)
    requires Inv(s) && forall i :: 0 <= i < |Flat(s.levels)| ==> Flat(s.levels)[i].id < nextId
    ensures Chronicle(Flat(s.levels), nextId) && Inv(Loaded(s.levels, nextId))
  {
    assert Chronicle(Flat(s.levels), nextId) by {
      hide Flat, LevelsOk, Swapping;
      var ts := Flat(s.levels);
      assert forall i :: 0 <= i < |ts| ==> Frozen(s)[i] == ts[i];
    }
    LoadedInv(s.levels, nextId);
  }

  /** A merge that drops tombstones takes the front of the order of age. */
  lemma {:induction false} OldestInputs(s: Db, l: nat, i: nat) returns (rest: seq<Table>)
    requires Inv(s) && l < |s.tasks| && i < |s.tasks[l]| && s.tasks[l][i].discard
    ensures Frozen(s) == s.tasks[l][i].inputs + rest
  {
    hide Inputs, Chronicle;
    assert LevelOk(s.levels, s.progress, s.tasks, s.created, l);
    var q := s.tasks[l][0].inputs;
    QueueCommit(s.levels[l], s.progress[l], s.tasks[l]);
    FlatCut(s.levels, l);
    assert s.levels[l + 1..] == [s.levels[l + 1]] && Flat(s.levels[l + 1..]) == [];
    rest := s.levels[l][|q|..] + Flat(s.levels[..l]) + s.pending;
    assert s.levels[l] == q + s.levels[l][|q|..];
  }

  /** Whenever a merge drops tombstones its inputs are the oldest tables there are. */
  lemma {:induction false} DiscardedTombstonesHideNothing(s: Db, l: nat, i: nat, t: Table)
    requires Inv(s) && l < |s.tasks| && i < |s.tasks[l]| && s.tasks[l][i].discard
    requires t in Frozen(s) && t !in s.tasks[l][i].inputs
    ensures forall input :: input in s.tasks[l][i].inputs ==> input in Frozen(s) && input.newest < t.epoch
  {
    hide Inputs;
    var q, all := s.tasks[l][i].inputs, Frozen(s);
    var rest := OldestInputs(s, l, i);
    hide Flat;
    var j :| 0 <= j < |rest| && rest[j] == t;
    forall input | input in q
      ensures input in all && input.newest < t.epoch
    {
      var m :| 0 <= m < |q| && q[m] == input;
      assert all[m] == input && all[|q| + j] == t;
    }
  }

  // ---- Merging the last level into itself

  /** The last level after a merge of its first `m` tables committed: the output goes to the back. */
  function CommitLast(level: seq<Table>, m: nat, out: Table): seq<Table>
    requires m <= |level|
  {
    level[m..] + [out]
  }

  /** A merge of the last level into itself keeps the order of age exactly when it takes the whole level. */
  lemma {:induction false} LastLevelCommitAge(level: seq<Table>, m: nat, out: Table, next: nat)
    requires Chronicle(level, next) && 0 < m <= |level|
    requires out.epoch == level[0].epoch && out.newest == level[m - 1].newest && out.id == next
    ensures Chronicle(CommitLast(level, m, out), next + 1) <==> m == |level|
  {
    var after := CommitLast(level, m, out);
    var n := |after| - 1;
    assert after[n] == out;
    if m < |level| {
      assert after[0] == level[m] && level[0].newest < level[m].epoch;
    } else {
      assert after == [out];
      if m > 1 {
        assert level[0].newest < level[m - 1].epoch;
      }
    }
  }

  /** The newest value of a key is lost when older tables are merged behind it. */
  lemma {:induction false} LastLevelCommitLosesWrite()
    ensures
      var level := [Table(0, 0, 0, map[1 := Data([1])]), Table(1, 1, 1, map[]), Table(2, 2, 2, map[1 := Data([2])])];
      var out := Table(3, 0, 1, Merged(level[..2], false));
      && Chronicle(level, 3) && Search(level, 1) == Some(Data([2]))
      && Search(CommitLast(level, 2, out), 1) == Some(Data([1]))
  {
    var level := [Table(0, 0, 0, map[1 := Data([1])]), Table(1, 1, 1, map[]), Table(2, 2, 2, map[1 := Data([2])])];
    var out := Table(3, 0, 1, Merged(level[..2], false));
    OverlayIsSearch(level[..2], 1);
    assert level[..2] == [level[0], level[1]] && [level[0], level[1]][..1] == [level[0]];
    assert Search([level[0]], 1) == Some(Data([1]));
    assert Search(level[..2], 1) == Search([level[0]], 1);
    hide Merged;
    assert CommitLast(level, 2, out) == [level[2], out];
  }

  /** Where level `l` begins in the order of age. */
  function Base(levels: seq<seq<Table>>, l: nat): nat
    requires l < |levels|
  {
    |Flat(levels[l + 1..])|
  }

  lemma {:induction false} AgeAt(levels: seq<seq<Table>>, l: nat, i: nat)
    requires l < |levels| && i < |levels[l]|
    ensures Base(levels, l) + i < |Flat(levels)| && Flat(levels)[Base(levels, l) + i] == levels[l][i]
  {
    hide Flat;
    FlatCut(levels, l);
  }

  lemma {:induction false} DeeperFirst(levels: seq<seq<Table>>, l: nat, m: nat)
    requires l < m < |levels|
    ensures Base(levels, m) + |levels[m]| <= Base(levels, l)
  {
    hide Flat;
    FlatCut(levels[l + 1..], m - l - 1);
    assert levels[l + 1..][m - l - 1] == levels[m] && levels[l + 1..][m - l..] == levels[m + 1..];
  }

  /** Of two tables, the one in the deeper level, or further in front of the same level, is older in its whole epoch interval. */
  lemma {:induction false} OlderIsDeeper(s: Db, m: nat, i: nat, l: nat, j: nat)
    requires Inv(s) && l <= m < |s.levels| && i < |s.levels[m]| && j < |s.levels[l]| && (l == m ==> i < j)
    ensures s.levels[m][i].epoch <= s.levels[m][i].newest < s.levels[l][j].epoch
  {
    hide Flat, LevelOk;
    AgeAt(s.levels, m, i);
    AgeAt(s.levels, l, j);
    if l < m {
      DeeperFirst(s.levels, l, m);
    }
    var x, y, all := Base(s.levels, m) + i, Base(s.levels, l) + j, Frozen(s);
    assert all[x] == s.levels[m][i] && all[y] == s.levels[l][j];
  }

  /**
   * In every reachable state, whatever merges have failed: reading levels from the deepest to the first and each from
   * front to back, epoch intervals are disjoint and rising, tables waiting to be flushed are newer still, and in each
   * level the tables picked for merging come before those that can be picked.
   */
  lemma {:induction false} AgeOrder(s: Db, run: seq<Action>, m: nat, i: nat, l: nat, j: nat)
    requires Inv(s) && Runs(s, run) && l <= m < |After(s, run).levels|
    requires i < |After(s, run).levels[m]| && j < |After(s, run).levels[l]| && (l == m ==> i < j)
    ensures var t := After(s, run);
            && t.levels[m][i].epoch <= t.levels[m][i].newest < t.levels[l][j].epoch
            && (forall x :: 0 <= x < |t.pending| ==> t.levels[l][j].newest < t.pending[x].epoch)
            && |t.progress| == |t.levels|
            && |t.progress[m]| == |t.levels[m]|
            && (l == m && t.progress[m][i] == Pickable ==> t.progress[m][j] == Pickable)
  {
    hide Flat, Runs, After;
    var t := After(s, run);
    OlderIsDeeper(t, m, i, l, j);
    AgeAt(t.levels, l, j);
    forall x | 0 <= x < |t.pending|
      ensures t.levels[l][j].newest < t.pending[x].epoch
    {
      var all, y := Frozen(t), Base(t.levels, l) + j;
      assert all[y] == t.levels[l][j] && all[|Flat(t.levels)| + x] == t.pending[x];
    }
    assert LevelOk(t.levels, t.progress, t.tasks, t.created, m);
  }

  // ---- Buckets chosen on a snapshot

  /** A commit in the same level takes its inputs off the front of the queue and of the level alike. */
  lemma {:induction false} LaunchStaysBehind(level: seq<Table>, tasks: seq<Task>, picked: seq<Table>)
    requires tasks != [] && Inputs(tasks) + picked <= level
    ensures |tasks[0].inputs| <= |level| && Inputs(tasks[1..]) + picked <= level[|tasks[0].inputs|..]
  {
    var q, rest := tasks[0].inputs, Inputs(tasks[1..]);
    assert Inputs(tasks) == q + rest;
    hide Inputs;
    Associates(q, rest, picked);
    DropFront(q, rest + picked, level);
  }

  lemma {:induction false} DropFront(a: seq<Table>, b: seq<Table>, c: seq<Table>)
    requires a + b <= c
    ensures |a| <= |c| && b <= c[|a|..]
  {
    var d := c[..|a| + |b|];
    assert d == a + b && d[|a|..] == b;
    assert c[|a|..][..|b|] == d[|a|..];
  }

  /** Buckets that could be launched can still be launched after any step but a launch from the same level. */
  lemma {:induction false} LaunchStays(s: Db, a: Action, l: nat, buckets: seq<seq<Table>>)
    requires Inv(s) && Enabled(s, a) && Enabled(s, Launch(l, buckets)) && !(a.Launch? && a.l == l)
    ensures Enabled(Apply(s, a), Launch(l, buckets))
  {
    hide Flat, Chronicle, Inputs, Concat, Merged, LevelOk, Repeat, TasksFor;
    match a
    case MergeCommits(m) =>
      HeadHasInputs(s, m);
      if m == l {
        LaunchStaysBehind(s.levels[l], s.tasks[l], Concat(buckets));
      }
    case MergeFails(m, i) =>
      if m == l {
        FailKeepsInputs(s.tasks[l], i);
      }
    case _ =>
  }

  lemma {:induction false} FailKeepsInputs(tasks: seq<Task>, i: nat)
    requires i < |tasks|
    ensures Inputs(tasks[i := tasks[i].(failed := true)]) == Inputs(tasks)
  {
    if i > 0 {
      FailKeepsInputs(tasks[1..], i - 1);
      assert tasks[i := tasks[i].(failed := true)][1..] == tasks[1..][i - 1 := tasks[i].(failed := true)];
    } else {
      assert tasks[0 := tasks[0].(failed := true)][1..] == tasks[1..];
    }
  }

  /** The scheduler picks buckets on a snapshot: whatever else runs until it launches them, they are still right. */
  lemma {:induction false} LaunchFromSnapshot(s: Db, run: seq<Action>, l: nat, buckets: seq<seq<Table>>)
    requires Inv(s) && Runs(s, run) && Enabled(s, Launch(l, buckets))
    requires forall i :: 0 <= i < |run| ==> !(run[i].Launch? && run[i].l == l)
    ensures Enabled(After(s, run), Launch(l, buckets))
    decreases |run|
  {
    hide Enabled, Apply;
    if run != [] {
      StepKeepsInv(s, run[0]);
      LaunchStays(s, run[0], l, buckets);
      LaunchFromSnapshot(Apply(s, run[0]), run[1..], l, buckets);
    }
  }
}
