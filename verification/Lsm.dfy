/** The LSM tree of one partition as a state machine. */
module Lsm {
  import opened Versions

  /** `compaction_progress_state`. */
  datatype Progress = Pickable | InCompaction | Compacted | CompactionError

  /** A launched merge, until it commits. */
  datatype Task = Task(inputs: seq<Table>, discard: bool, failed: bool)

  /**
   * Writers, the flusher, the compaction scheduler and the merge tasks run concurrently; every action
   * below is one critical section of theirs.  Order between them is what the source's semaphore chains
   * give: flushes commit in the order the memtables were frozen, and the merges of one level commit in
   * the order they were launched.  A failed flush or merge never passes its permission on, so everything
   * behind it in its chain waits forever.
   */
  datatype Db = Db(
    current: Content,             // the table writers insert into
    switching: bool,              // the table was swapped, the switch epoch not yet bumped
    pending: seq<Table>,          // frozen tables, oldest first
    drained: set<nat>,            // epochs of frozen tables that no writer can touch any more
    stuck: set<nat>,              // epochs of frozen tables whose flush failed
    levels: seq<seq<Table>>,      // level 0 first, each level oldest table first
    progress: seq<seq<Progress>>, // compaction state of every table in `levels`
    tasks: seq<seq<Task>>,        // per level, the merges waiting for their turn to commit
    created: seq<bool>,           // a level holds a table, or a launched merge will write one
    nextId: nat)                  // flush iteration: epochs and file ids come from it

  datatype Action =
    | Put(k: Key, v: Value)
    | LatePut(i: nat, k: Key, v: Value) // a writer that entered before the table was frozen
    | Swap
    | Bump
    | Drain(i: nat)
    | FlushFails(i: nat)
    | FlushCommits
    | Launch(l: nat, buckets: seq<seq<Table>>)
    | MergeFails(l: nat, i: nat)
    | MergeCommits(l: nat)

  /** All tables of the levels, oldest first: deepest level first, each level front to back. */
  function Flat(levels: seq<seq<Table>>): seq<Table> {
    if levels == [] then [] else Flat(levels[1..]) + levels[0]
  }

  function Concat(buckets: seq<seq<Table>>): seq<Table> {
    if buckets == [] then [] else buckets[0] + Concat(buckets[1..])
  }

  /** The inputs of all waiting merges of a level, in launch order. */
  function Inputs(tasks: seq<Task>): seq<Table> {
    if tasks == [] then [] else tasks[0].inputs + Inputs(tasks[1..])
  }

  /** The merges launched for `buckets`; only the first may discard tombstones. */
  function TasksFor(buckets: seq<seq<Table>>, discard: bool): (ts: seq<Task>)
    ensures |ts| == |buckets|
  {
    if buckets == [] then [] else [Task(buckets[0], discard, false)] + TasksFor(buckets[1..], false)
  }

  function Repeat(v: Progress, n: nat): (r: seq<Progress>)
    ensures |r| == n && forall i :: 0 <= i < n ==> r[i] == v
  {
    if n == 0 then [] else [v] + Repeat(v, n - 1)
  }

  /** The table a merge produces: the oldest epoch of its inputs, and a new file. */
  function Output(t: Task, id: nat): Table
    requires t.inputs != []
  {
    Table(id, t.inputs[0].epoch, t.inputs[|t.inputs| - 1].newest, Merged(t.inputs, t.discard))
  }

  /** Tombstones may go when the merge writes to the last level and nothing has ever been written there. */
  predicate MayDiscard(s: Db, l: nat)
    requires l + 1 < |s.created|
  {
    l + 1 == |s.created| - 1 && !s.created[l + 1]
  }

  ghost predicate Enabled(s: Db, a: Action) {
    match a
    case Put(_, _) => true
    case LatePut(i, _, _) => i < |s.pending| && s.pending[i].epoch !in s.drained
    case Swap => !s.switching
    case Bump => s.switching
    case Drain(i) => i < |s.pending| && (s.switching ==> i < |s.pending| - 1) // a flush starts after the bump
    case FlushFails(i) => i < |s.pending| && s.pending[i].epoch in s.drained
    case FlushCommits => s.pending != [] && s.pending[0].epoch in s.drained && s.pending[0].epoch !in s.stuck
    case Launch(l, buckets) =>
      && l + 1 < |s.levels| == |s.tasks|
      && (forall b :: 0 <= b < |buckets| ==> buckets[b] != [])
      && Inputs(s.tasks[l]) + Concat(buckets) <= s.levels[l]
    case MergeFails(l, i) => l < |s.tasks| && i < |s.tasks[l]|
    case MergeCommits(l) =>
      && l + 1 < |s.levels| == |s.tasks| && s.tasks[l] != [] && !s.tasks[l][0].failed
  }

  function Freeze(s: Db): Db {
    var t := Table(s.nextId, s.nextId, s.nextId, s.current);
    s.(current := map[], switching := true, pending := s.pending + [t], nextId := s.nextId + 1)
  }

  /** A memtable without keys in this partition gives no table. */
  function CommitFlush(s: Db): Db
    requires s.pending != [] && s.levels != [] && s.progress != []
  {
    var t := s.pending[0];
    var s1 := s.(pending := s.pending[1..]);
    if t.content == map[] then s1
    else s1.(levels := s.levels[0 := s.levels[0] + [t]], progress := s.progress[0 := s.progress[0] + [Pickable]])
  }

  function LaunchMerges(s: Db, l: nat, buckets: seq<seq<Table>>): Db
    requires l + 1 < |s.levels| == |s.progress| == |s.tasks| == |s.created|
    requires |Inputs(s.tasks[l])| + |Concat(buckets)| <= |s.progress[l]|
  {
    if buckets == [] then s else
    var from, n := |Inputs(s.tasks[l])|, |Concat(buckets)|;
    var marked := s.progress[l][..from] + Repeat(InCompaction, n) + s.progress[l][from + n..];
    s.(progress := s.progress[l := marked],
       tasks := s.tasks[l := s.tasks[l] + TasksFor(buckets, MayDiscard(s, l))],
       created := s.created[l + 1 := true])
  }

  function FailMerge(s: Db, l: nat, i: nat): Db
    requires l < |s.progress| == |s.tasks| && i < |s.tasks[l]|
    requires |Inputs(s.tasks[l][..i])| + |s.tasks[l][i].inputs| <= |s.progress[l]|
  {
    var from, n := |Inputs(s.tasks[l][..i])|, |s.tasks[l][i].inputs|;
    var marked := s.progress[l][..from] + Repeat(CompactionError, n) + s.progress[l][from + n..];
    s.(progress := s.progress[l := marked],
       tasks := s.tasks[l := s.tasks[l][i := s.tasks[l][i].(failed := true)]])
  }

  /** Take the inputs of the first waiting merge out of level `l` and append its output to level `l + 1`. */
  function CommitMerge(s: Db, l: nat): Db
    requires l + 1 < |s.levels| == |s.progress| == |s.tasks| && s.tasks[l] != [] && s.tasks[l][0].inputs != []
    requires |s.tasks[l][0].inputs| <= |s.levels[l]| == |s.progress[l]|
  {
    var t := s.tasks[l][0];
    var m := |t.inputs|;
    s.(levels := s.levels[l := s.levels[l][m..]][l + 1 := s.levels[l + 1] + [Output(t, s.nextId)]],
       progress := s.progress[l := s.progress[l][m..]][l + 1 := s.progress[l + 1] + [Pickable]],
       tasks := s.tasks[l := s.tasks[l][1..]],
       nextId := s.nextId + 1)
  }

  lemma {:induction false} InputsSplit(ts: seq<Task>, i: nat)
    requires i < |ts|
    ensures Inputs(ts) == Inputs(ts[..i]) + ts[i].inputs + Inputs(ts[i + 1..])
  {
    if i == 0 {
      assert ts[..0] == [];
    } else {
      InputsSplit(ts[1..], i - 1);
      assert ts[1..][..i - 1] == ts[..i][1..] && ts[1..][i..] == ts[i + 1..];
      Grouped(ts[0].inputs, Inputs(ts[..i][1..]), ts[i].inputs, Inputs(ts[i + 1..]));
    }
  }

  lemma {:induction false} Grouped(a: seq<Table>, b: seq<Table>, c: seq<Table>, d: seq<Table>)
    ensures a + (b + c + d) == a + b + c + d
  {
  }

  lemma {:induction false} Associates(a: seq<Table>, b: seq<Table>, c: seq<Table>)
    ensures a + (b + c) == a + b + c
  {
  }

  lemma {:induction false} InputsConcat(a: seq<Task>, b: seq<Task>)
    ensures Inputs(a + b) == Inputs(a) + Inputs(b)
  {
    if a == [] {
      assert a + b == b;
    } else {
      InputsConcat(a[1..], b);
      assert (a + b)[1..] == a[1..] + b;
      Associates(a[0].inputs, Inputs(a[1..]), Inputs(b));
    }
  }

  lemma {:induction false} InputsOfTasks(buckets: seq<seq<Table>>, discard: bool)
    ensures Inputs(TasksFor(buckets, discard)) == Concat(buckets)
    ensures forall i :: 0 <= i < |buckets| ==> TasksFor(buckets, discard)[i] == Task(buckets[i], discard && i == 0, false)
  {
    if buckets != [] {
      InputsOfTasks(buckets[1..], false);
      assert TasksFor(buckets, discard)[1..] == TasksFor(buckets[1..], false);
    }
  }

  /** Tables in order of age: epoch intervals disjoint and rising, files distinct, all known to the counter. */
  ghost predicate Chronicle(ts: seq<Table>, next: nat) {
    && (forall i :: 0 <= i < |ts| ==> ts[i].epoch <= ts[i].newest <= ts[i].id < next)
    && (forall i, j :: 0 <= i < j < |ts| ==> ts[i].newest < ts[j].epoch && ts[i].id != ts[j].id)
  }

  /** Waiting merges take a prefix of their level, and exactly the tables behind it can be picked. */
  ghost predicate Queue(level: seq<Table>, progress: seq<Progress>, tasks: seq<Task>) {
    && |progress| == |level| && Inputs(tasks) <= level
    && (forall i :: 0 <= i < |level| ==> (progress[i] == Pickable <==> |Inputs(tasks)| <= i))
    && (forall i :: 0 <= i < |tasks| ==> tasks[i].inputs != [])
  }

  /**
   * What level `l` keeps: its waiting merges queue in order; if it was never announced then it is empty
   * and no merge is on its way to it; and a merge that discards tombstones is the first ever to write to
   * the last level.
   */
  ghost predicate LevelOk(levels: seq<seq<Table>>, progress: seq<seq<Progress>>, tasks: seq<seq<Task>>, created: seq<bool>, l: nat)
    requires l < |levels| == |progress| == |tasks| == |created|
  {
    && Queue(levels[l], progress[l], tasks[l])
    && (l > 0 && !created[l] ==> levels[l] == [] && tasks[l - 1] == [])
    && (l == |levels| - 1 ==> tasks[l] == [])
    && (forall i :: 0 <= i < |tasks[l]| && tasks[l][i].discard ==> i == 0 && l == |levels| - 2 && levels[|levels| - 1] == [])
  }

  ghost predicate LevelsOk(levels: seq<seq<Table>>, progress: seq<seq<Progress>>, tasks: seq<seq<Task>>, created: seq<bool>) {
    && |progress| == |tasks| == |created| == |levels| >= 2
    && forall l :: 0 <= l < |levels| ==> LevelOk(levels, progress, tasks, created, l)
  }

  /** Everything on disk and everything waiting for disk, oldest first. */
  function Frozen(s: Db): seq<Table> {
    Flat(s.levels) + s.pending
  }

  ghost predicate Inv(s: Db) {
    && LevelsOk(s.levels, s.progress, s.tasks, s.created)
    && Chronicle(Frozen(s), s.nextId)
    && Swapping(s)
  }

  /** While the tables are being switched, the one swapped out is frozen last and may still be written. */
  ghost predicate Swapping(s: Db) {
    SwapOk(s.switching, s.pending, s.drained, s.nextId)
  }

  ghost predicate SwapOk(switching: bool, ts: seq<Table>, drained: set<nat>, next: nat) {
    && (forall e :: e in drained ==> e < next)
    && (switching ==> ts != [] && ts[|ts| - 1].epoch !in drained)
  }

  function Apply(s: Db, a: Action): Db
    requires Inv(s) && Enabled(s, a)
  {
    match a
    case Put(k, v) => s.(current := s.current[k := v])
    case LatePut(i, k, v) => s.(pending := s.pending[i := s.pending[i].(content := s.pending[i].content[k := v])])
    case Swap => Freeze(s)
    case Bump => s.(switching := false)
    case Drain(i) => s.(drained := s.drained + {s.pending[i].epoch})
    case FlushFails(i) => s.(stuck := s.stuck + {s.pending[i].epoch})
    case FlushCommits => CommitFlush(s)
    case Launch(l, buckets) =>
      assert LevelOk(s.levels, s.progress, s.tasks, s.created, l);
      LaunchMerges(s, l, buckets)
    case MergeFails(l, i) =>
      assert LevelOk(s.levels, s.progress, s.tasks, s.created, l);
      InputsSplit(s.tasks[l], i);
      FailMerge(s, l, i)
    case MergeCommits(l) =>
      assert LevelOk(s.levels, s.progress, s.tasks, s.created, l);
      CommitMerge(s, l)
  }

  // ---- Age order

  lemma {:induction false} FlatCut(levels: seq<seq<Table>>, l: nat)
    requires l < |levels|
    ensures Flat(levels) == Flat(levels[l + 1..]) + levels[l] + Flat(levels[..l])
  {
    if l == 0 {
      assert levels[..0] == [];
    } else {
      FlatCut(levels[1..], l - 1);
      assert levels[1..][..l - 1] == levels[..l][1..] && levels[1..][l..] == levels[l + 1..];
    }
  }

  /** Moving a merged prefix of level `l` to the back of level `l + 1` replaces it where it stands in time. */
  lemma {:induction false} FlatReplaces(levels: seq<seq<Table>>, l: nat, m: nat, out: Table)
    requires l + 1 < |levels| && m <= |levels[l]|
    ensures
      var levels2 := levels[l := levels[l][m..]][l + 1 := levels[l + 1] + [out]];
      var a := Flat(levels[l + 2..]) + levels[l + 1];
      var b := levels[l][m..] + Flat(levels[..l]);
      Flat(levels) == a + levels[l][..m] + b && Flat(levels2) == a + [out] + b
  {
    var levels2 := levels[l := levels[l][m..]][l + 1 := levels[l + 1] + [out]];
    FlatCut(levels, l);
    FlatCut(levels2, l);
    assert levels2[..l] == levels[..l] && levels2[l + 2..] == levels[l + 2..];
    assert levels[l + 1..][0] == levels[l + 1] && levels[l + 1..][1..] == levels[l + 2..];
    assert levels2[l + 1..][0] == levels2[l + 1] && levels2[l + 1..][1..] == levels2[l + 2..];
    assert levels[l] == levels[l][..m] + levels[l][m..];
    Regrouped(Flat(levels[l + 2..]), levels[l + 1], levels[l][..m], levels[l][m..], Flat(levels[..l]));
    Regrouped(Flat(levels[l + 2..]), levels[l + 1], [out], levels[l][m..], Flat(levels[..l]));
  }

  lemma {:induction false} Regrouped<T>(a: seq<T>, b: seq<T>, c: seq<T>, d: seq<T>, e: seq<T>)
    ensures a + b + (c + d) + e == a + b + c + (d + e)
    ensures a + (b + c) + d + e == a + b + c + (d + e)
  {
  }

  lemma {:induction false} FlatPush(levels: seq<seq<Table>>, t: Table)
    requires levels != []
    ensures Flat(levels[0 := levels[0] + [t]]) == Flat(levels) + [t]
  {
    assert levels[0 := levels[0] + [t]][1..] == levels[1..];
  }

  /** Replacing neighbours by their merge keeps the order of age. */
  lemma {:induction false} ReplaceKeepsAge(a: seq<Table>, inputs: seq<Table>, b: seq<Table>, out: Table, next: nat)
    requires inputs != [] && Chronicle(a + inputs + b, next)
    requires out.epoch == inputs[0].epoch && out.newest == inputs[|inputs| - 1].newest && out.id == next
    ensures Chronicle(a + [out] + b, next + 1)
  {
    var before, after, n, m := a + inputs + b, a + [out] + b, |a|, |inputs|;
    assert before[n] == inputs[0] && before[n + m - 1] == inputs[m - 1];
    assert out.epoch <= out.newest by {
      if m > 1 {
        assert before[n].newest < before[n + m - 1].epoch;
      }
    }
    forall i, j | 0 <= i < j < |after|
      ensures after[i].newest < after[j].epoch && after[i].id != after[j].id
    {
      var i2, j2 := if i < n then i else i + m - 1, if j <= n then j else j + m - 1;
      assert (i != n ==> after[i] == before[i2]) && (j != n ==> after[j] == before[j2]);
      assert before[i2].newest < before[j2].epoch && before[i2].id != before[j2].id;
    }
    forall i | 0 <= i < |after|
      ensures after[i].epoch <= after[i].newest <= after[i].id < next + 1
    {
      assert i != n ==> after[i] == before[if i < n then i else i + m - 1];
    }
  }
}
