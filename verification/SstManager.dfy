/** The tables of one partition, and the scheduler that merges them. */
module SstManager {
  import opened Versions
  import opened Lsm
  import opened LsmSafety
  import opened LsmProgress
  import opened Buckets

  /** `set_compaction_state`: the new state, or `None` where the source throws. */
  function Transition(curr: Progress, next: Progress): Option<Progress> {
    if curr == CompactionError then Some(CompactionError)
    else if next == CompactionError
         || (curr == Pickable && next == InCompaction)
         || (curr == InCompaction && next == Compacted) then Some(next)
    else None
  }

  /** `next` is one above every file id, and no greater than it has to be. */
  ghost predicate Counted(levels: seq<seq<Table>>, next: nat) {
    && (forall l, i :: 0 <= l < |levels| && 0 <= i < |levels[l]| ==> levels[l][i].id < next)
    && (next == 1 || exists l, i :: 0 <= l < |levels| && 0 <= i < |levels[l]| && levels[l][i].id == next - 1)
  }

  /** The counter that the loader restores from the file names. */
  method NextIteration(levels: seq<seq<Table>>) returns (next: nat)
    ensures Counted(levels, next)
  {
    var max := 0;
    ghost var at: Option<(nat, nat)> := None;
    for l := 0 to |levels|
      invariant forall m, i :: 0 <= m < l && 0 <= i < |levels[m]| ==> levels[m][i].id <= max
      invariant Reached(levels, max, at)
    {
      for j := 0 to |levels[l]|
        invariant forall m, i :: 0 <= m < l && 0 <= i < |levels[m]| ==> levels[m][i].id <= max
        invariant forall i :: 0 <= i < j ==> levels[l][i].id <= max
        invariant Reached(levels, max, at)
      {
        if levels[l][j].id > max {
          max, at := levels[l][j].id, Some((l, j));
        }
      }
    }
    return max + 1;
  }

  ghost predicate Reached(levels: seq<seq<Table>>, max: nat, at: Option<(nat, nat)>) {
    if at.None? then max == 0
    else at.value.0 < |levels| && at.value.1 < |levels[at.value.0]| && levels[at.value.0][at.value.1].id == max
  }

  lemma {:induction false} FlatCounted(levels: seq<seq<Table>>, next: nat, i: nat)
    requires (forall l, j :: 0 <= l < |levels| && 0 <= j < |levels[l]| ==> levels[l][j].id < next) && i < |Flat(levels)|
    ensures Flat(levels)[i].id < next
  {
    if i < |Flat(levels[1..])| {
      FlatCounted(levels[1..], next, i);
    }
  }

  /** Restart: the tables that the manifest names in any reachable state make a partition again. */
  method Reload(levels: seq<seq<Table>>, ghost s: Db) returns (p: Partition)
    requires Inv(s) && levels == s.levels
    ensures fresh(p) && p.Valid() && p.View() == Loaded(levels, p.nextId) && Counted(levels, p.nextId)
    ensures p.levels == levels && p.AtRest()
  {
    hide Flat;
    var next := NextIteration(levels);
    forall i | 0 <= i < |Flat(levels)|
      ensures Flat(levels)[i].id < next
    {
      FlatCounted(levels, next, i);
    }
    ReloadedInv(s, next);
    p := new Partition(levels, next);
  }

  /** Restart and look a key up: the newest version on disk is found. */
  method LookupAfterRestart(levels: seq<seq<Table>>, k: Key, ghost s: Db) returns (r: Option<Value>)
    requires Inv(s) && levels == s.levels
    ensures r == Search(Flat(levels), k)
    ensures !InMemory(s, k) ==> Observe(r) == LsmSafety.Lookup(s, k)
  {
    hide Inv, Flat;
    var p := Reload(levels, s);
    r := p.Lookup(k);
    RestartShows(s, p.nextId, k);
  }

  lemma {:induction false} TasksForNext(done: seq<Task>, buckets: seq<seq<Table>>, b: nat, first: bool)
    requires b < |buckets|
    ensures done + TasksFor(buckets[b..], first) == done + [Task(buckets[b], first, false)] + TasksFor(buckets[b + 1..], false)
  {
    assert buckets[b..][1..] == buckets[b + 1..];
  }

  lemma {:induction false} TasksForNone(done: seq<Task>, rest: seq<seq<Table>>)
    requires rest == []
    ensures done + TasksFor(rest, false) == done && done + TasksFor(rest, true) == done
  {
  }

  lemma {:induction false} NothingPicked(p: seq<Progress>)
    ensures forall i :: 0 <= i < |p| ==> PickedAt(p, p, [], i)
  {
  }

  /** The tables whose ids are not in `ids`, and their compaction states. */
  method Others(level: seq<Table>, progress: seq<Progress>, ids: set<nat>, ghost m: nat) returns (kept: seq<Table>, marks: seq<Progress>)
    requires |progress| == |level| && m <= |level|
    requires forall i :: 0 <= i < |level| ==> (level[i].id in ids <==> i < m)
    ensures kept == level[m..] && marks == progress[m..]
  {
    kept, marks := [], [];
    for i := 0 to |level|
      invariant i <= m ==> kept == [] && marks == []
      invariant m <= i ==> kept == level[m..i] && marks == progress[m..i]
    {
      if level[i].id !in ids {
        kept := kept + [level[i]];
        marks := marks + [progress[i]];
      }
    }
    assert level[m..] == level[m..|level|] && progress[m..] == progress[m..|level|];
  }

  /** The loops behind the `Launch`, `MergeFails` and `MergeCommits` steps of the state machine, and the lookup. */
  class Partition {
    var levels: seq<seq<Table>>
    var progress: seq<seq<Progress>>
    var tasks: seq<seq<Task>>
    var created: seq<bool>
    var nextId: nat

    /** The partition as a state of the machine, with nothing in memory. */
    ghost function View(): Db
      reads this
    {
      Db(map[], false, [], {}, {}, levels, progress, tasks, created, nextId)
    }

    ghost predicate Valid()
      reads this
    {
      Inv(View())
    }

    /** Every table can be picked, no merge is waiting, and exactly the levels with tables are announced. */
    ghost predicate AtRest()
      reads this
    {
      && |progress| == |tasks| == |created| == |levels|
      && (forall l :: 0 <= l < |levels| ==> |progress[l]| == |levels[l]| && tasks[l] == [] && (created[l] <==> levels[l] != []))
      && (forall l, i :: 0 <= l < |levels| && 0 <= i < |levels[l]| ==> progress[l][i] == Pickable)
    }

    /** A partition loaded from its manifest; all levels empty for a new database. */
    constructor (levels: seq<seq<Table>>, nextId: nat)
      requires |levels| >= 2 && Chronicle(Flat(levels), nextId)
      ensures Valid() && View() == Loaded(levels, nextId)
      ensures this.levels == levels && this.nextId == nextId && AtRest()
    {
      LoadedInv(levels, nextId);
      this.levels, this.nextId := levels, nextId;
      progress := seq(|levels|, l requires 0 <= l < |levels| => Repeat(Pickable, |levels[l]|));
      tasks := seq(|levels|, l => []);
      created := seq(|levels|, l requires 0 <= l < |levels| => levels[l] != []);
    }

    /** Search the levels from the top, each from its newest table down. */
    method Lookup(k: Key) returns (r: Option<Value>)
      ensures r == Search(Flat(levels), k)
    {
      var l := 0;
      while l < |levels|
        invariant l <= |levels|
        invariant Search(Flat(levels), k) == Search(Flat(levels[l..]), k)
      {
        var level := levels[l];
        SearchConcat(Flat(levels[l..][1..]), level, k);
        assert levels[l..][1..] == levels[l + 1..];
        var i := |level|;
        assert level[..i] == level;
        while i > 0
          invariant 0 <= i <= |level|
          invariant Search(level, k) == Search(level[..i], k)
        {
          i := i - 1;
          assert level[..i + 1][..i] == level[..i];
          if k in level[i].content {
            return Some(level[i].content[k]);
          }
        }
        l := l + 1;
      }
      return None;
    }

    /** Append a flushed table to level 0. */
    method PushToL0(t: Table)
      requires Valid() && Chronicle(Flat(levels) + [t], nextId)
      modifies this`levels, this`progress
      ensures Valid() && levels == old(levels)[0 := old(levels)[0] + [t]]
      ensures progress == old(progress)[0 := old(progress)[0] + [Pickable]]
      ensures Flat(levels) == old(Flat(levels)) + [t]
    {
      ghost var s := View();
      FlatPush(levels, t);
      levels := levels[0 := levels[0] + [t]];
      progress := progress[0 := progress[0] + [Pickable]];
      forall l | 0 <= l < |levels|
        ensures LevelOk(levels, progress, tasks, created, l)
      {
        assert LevelOk(s.levels, s.progress, s.tasks, s.created, l);
        QueuePush(s.levels[l], s.progress[l], s.tasks[l], t);
      }
      assert Frozen(View()) == Flat(s.levels) + [t];
    }

    /** Set the compaction state of the tables `from..to` of level `l`. */
    method Mark(l: nat, from: nat, to: nat, next: Progress)
      requires l < |progress| && from <= to <= |progress[l]|
      requires forall i :: from <= i < to ==> Transition(progress[l][i], next) == Some(next)
      modifies this`progress
      ensures |progress| == |old(progress)| && |progress[l]| == |old(progress)[l]|
      ensures forall j :: 0 <= j < |progress| && j != l ==> progress[j] == old(progress)[j]
      ensures progress[l] == old(progress)[l][..from] + Repeat(next, to - from) + old(progress)[l][to..]
    {
      var i := from;
      while i < to
        invariant from <= i <= to && |progress| == |old(progress)| && |progress[l]| == |old(progress)[l]|
        invariant forall j :: 0 <= j < |progress| && j != l ==> progress[j] == old(progress)[j]
        invariant forall j :: 0 <= j < |progress[l]| ==> progress[l][j] == if from <= j < i then next else old(progress)[l][j]
      {
        progress := progress[l := progress[l][i := Transition(progress[l][i], next).value]];
        i := i + 1;
      }
    }

    /** The first pickable table of level `l` from index `from` on. */
    method SkipNonPickable(l: nat, from: nat) returns (it: nat)
      requires l < |progress| && from <= |progress[l]|
      ensures from <= it <= |progress[l]| && (it < |progress[l]| ==> progress[l][it] == Pickable)
      ensures forall j :: from <= j < it ==> progress[l][j] != Pickable
    {
      it := from;
      while it < |progress[l]| && progress[l][it] != Pickable
        invariant from <= it <= |progress[l]|
        invariant forall j :: from <= j < it ==> progress[l][j] != Pickable
      {
        it := it + 1;
      }
    }

    /** Level `l` after the spans `ss` were picked from compaction states `p`. */
    ghost predicate Picked(l: nat, p: seq<Progress>, ss: seq<Span>)
      requires l < |progress|
      reads this
    {
      && |progress[l]| == |p|
      && forall i :: 0 <= i < |p| ==> PickedAt(progress[l], p, ss, i)
    }

    /** Emit the candidates `start..end` as a bucket if there are enough of them. */
    method TryEmit(l: nat, start: nat, end: nat, min: nat, buckets: seq<seq<Table>>, ghost p: seq<Progress>, ghost ss: seq<Span>)
      returns (buckets2: seq<seq<Table>>, ghost ss2: seq<Span>)
      requires l < |progress| == |levels| && Picked(l, p, ss) && |levels[l]| == |p| && Within(ss, start)
      requires start < end <= |p| && (forall j :: start <= j < end ==> p[j] == Pickable) && buckets == Slices(levels[l], ss)
      modifies this`progress
      ensures |progress| == |old(progress)| && forall j :: 0 <= j < |progress| && j != l ==> progress[j] == old(progress)[j]
      ensures ss2 == ss + (if end - start >= min then [Span(start, end)] else [])
      ensures Within(ss2, if end - start >= min then end else start) && buckets2 == Slices(levels[l], ss2)
      ensures Picked(l, p, ss2) && forall j :: (if end - start >= min then end else start) <= j < |p| ==> progress[l][j] == p[j]
    {
      buckets2, ss2 := buckets, ss;
      ghost var q := progress[l];
      forall j | start <= j < |p|
        ensures q[j] == p[j]
      {
        assert PickedAt(q, p, ss, j);
      }
      if end - start >= min {
        Mark(l, start, end, InCompaction);
        buckets2 := buckets + [levels[l][start..end]];
        ss2 := ss + [Span(start, end)];
        CoveredAppend(ss, Span(start, end));
        SlicesAppend(levels[l], ss, Span(start, end));
        forall j | 0 <= j < |p|
          ensures PickedAt(progress[l], p, ss2, j)
        {
          assert PickedAt(q, p, ss, j);
        }
      }
    }

    /** Close the candidate set `start..end` and find the next table to start one from, at or after `it`. */
    method CloseCandidates(l: nat, start: nat, end: nat, it: nat, min: nat, max: nat, buckets: seq<seq<Table>>,
                           ghost p: seq<Progress>, ghost ss: seq<Span>)
      returns (next: nat, buckets2: seq<seq<Table>>, ghost ss2: seq<Span>)
      requires l < |progress| == |levels| && Picked(l, p, ss) && |levels[l]| == |p| && 2 <= min < max
      requires start <= |p| && Within(ss, start) && buckets == Slices(levels[l], ss)
      requires Candidates(p, start, end, max) && (end == |p| || p[end] != Pickable || end - start == max)
      requires end == it || (end == it + 1 == |p|)
      modifies this`progress
      ensures |progress| == |old(progress)| && forall j :: 0 <= j < |progress| && j != l ==> progress[j] == old(progress)[j]
      ensures it <= next <= |p| && Within(ss2, next) && buckets2 == Slices(levels[l], ss2) && Picked(l, p, ss2)
      ensures ss2 + Spans(p, next, min, max) == ss + Spans(p, start, min, max)
      ensures (next < |p| ==> p[next] == Pickable) && forall j :: next <= j < |p| ==> progress[l][j] == p[j]
    {
      // Either a bucket, or too few tables in a row.
      RunDone(p, ss, start, end, min, max);
      buckets2, ss2 := TryEmit(l, start, end, min, buckets, p, ss);
      if end != it && end - start >= min {
        assert ss2[|ss|] == Span(start, end) && Covered(ss2, it) && PickedAt(progress[l], p, ss2, it);
      }
      next := SkipNonPickable(l, it);
      if end == it {
        SpansSkip(p, end, next, min, max);
      } else {
        LastAlone(p, min, max);
      }
    }

    /** `create_buckets_from_level`. */
    method PickBuckets(l: nat, min: nat, max: nat) returns (buckets: seq<seq<Table>>, ghost ss: seq<Span>)
      requires l < |progress| == |levels| && |progress[l]| == |levels[l]| && 2 <= min < max
      modifies this`progress
      ensures |progress| == |old(progress)| && forall j :: 0 <= j < |progress| && j != l ==> progress[j] == old(progress)[j]
      ensures ss == Spans(old(progress)[l], 0, min, max) && Within(ss, |levels[l]|)
      ensures buckets == Slices(levels[l], ss) && Picked(l, old(progress)[l], ss)
    {
      hide Slices, Spans, PickedAt;
      ghost var p := progress[l];
      NothingPicked(p);
      var n := |levels[l]|;
      buckets, ss := [], [];
      SlicesOfNone(levels[l]);
      if n < min {
        SpansOfShort(p, 0, min, max);
        return;
      }
      var it := SkipNonPickable(l, 0);
      SpansSkip(p, 0, it, min, max);
      ghost var all := Spans(p, 0, min, max);
      LastAlone(p, min, max);
      if it == n {
        return;
      }

      var start := it;
      it := it + 1;
      while it < n
        invariant Candidates(p, start, it, max) && (it == n ==> it - start == 1)
        invariant |progress| == |old(progress)| && forall j :: 0 <= j < |progress| && j != l ==> progress[j] == old(progress)[j]
        invariant ss + Spans(p, start, min, max) == all
        invariant Within(ss, start) && buckets == Slices(levels[l], ss) && Picked(l, p, ss)
        invariant forall j :: start <= j < n ==> progress[l][j] == p[j]
        decreases n - it
      {
        // Form candidate set
        var end := it;
        if progress[l][it] == Pickable && it - start < max {
          end := it + 1;
          if it + 1 != n {
            it := it + 1;
            continue;
          }
        }
        it, buckets, ss := CloseCandidates(l, start, end, it, min, max, buckets, p, ss);
        if it == n {
          return;
        }
        start := it;
        it := it + 1;
      }
    }

    /** Queue a merge for every bucket picked from level `l`, oldest bucket first. */
    method LaunchTasks(l: nat, buckets: seq<seq<Table>>)
      requires l + 1 < |created| == |tasks|
      modifies this`tasks, this`created
      ensures tasks == old(tasks)[l := old(tasks)[l] + TasksFor(buckets, l + 1 == |created| - 1 && !old(created)[l + 1])]
      ensures created == if buckets == [] then old(created) else old(created)[l + 1 := true]
    {
      hide TasksFor;
      ghost var discardFirst := l + 1 == |created| - 1 && !created[l + 1];
      var b := 0;
      assert buckets[b..] == buckets;
      while b < |buckets|
        invariant b <= |buckets| && |created| == |old(created)| && |tasks| == |old(tasks)|
        invariant created == if b == 0 then old(created) else old(created)[l + 1 := true]
        invariant tasks == old(tasks)[l := tasks[l]]
        invariant tasks[l] + TasksFor(buckets[b..], b == 0 && discardFirst) == old(tasks)[l] + TasksFor(buckets, discardFirst)
      {
        // Later buckets of the same round have older tables below them.
        var mergeToBottommost := l + 1 == |tasks| || l + 1 == |tasks| - 1;
        var canDiscard := b == 0 && mergeToBottommost && !created[l + 1];
        created := created[l + 1 := true];
        TasksForNext(tasks[l], buckets, b, canDiscard);
        tasks := tasks[l := tasks[l] + [Task(buckets[b], canDiscard, false)]];
        b := b + 1;
      }
      TasksForNone(tasks[l], buckets[b..]);
    }

    /** One scheduling round for level `l` is a `Launch` step of the machine. */
    method ScheduleLevel(l: nat, min: nat, max: nat) returns (buckets: seq<seq<Table>>)
      requires Valid() && l + 1 < |levels| && 2 <= min < max
      modifies this`progress, this`tasks, this`created
      ensures Valid() && Enabled(old(View()), Launch(l, buckets)) && View() == Apply(old(View()), Launch(l, buckets))
      ensures old(tasks)[l] == [] && |levels[l]| >= min ==> buckets != [] && buckets[0] <= levels[l]
      ensures |old(progress)| == |tasks| == |levels| && |old(progress)[l]| == |levels[l]|
      ensures Within(Spans(old(progress)[l], 0, min, max), |levels[l]|)
      ensures buckets == Slices(levels[l], Spans(old(progress)[l], 0, min, max))
      ensures Inputs(tasks[l]) == Inputs(old(tasks)[l]) + Concat(buckets)
    {
      hide Flat, Chronicle, Inputs, Concat, Spans, TasksFor, Repeat, Slices, Covered, Apply;
      ghost var s, p := View(), progress[l];
      ghost var from := |Inputs(tasks[l])|;
      assert LevelOk(levels, progress, tasks, created, l);
      ghost var end := SpansFollow(levels[l], p, from, from, min, max);
      SpansSkip(p, 0, from, min, max);
      ghost var ss;
      buckets, ss := PickBuckets(l, min, max);
      SlicesFilled(levels[l], ss);
      BucketsFollow(s, l, buckets, end);
      PickedIsMarked(progress[l], p, ss, from, end);
      FirstSlice(levels[l], p, tasks[l], min, max, ss, buckets);
      assert progress == s.progress[l := progress[l]];
      LaunchTasks(l, buckets);
      LaunchedIs(s, View(), l, buckets, from, end);
      LaunchKeepsInv(s, l, buckets);
      LaunchQueues(s, l, buckets);
    }

    /** Remove from level `l` the tables whose file ids are in `ids`. */
    method Erase(l: nat, ids: set<nat>, ghost m: nat)
      requires l < |levels| == |progress| && |progress[l]| == |levels[l]| && m <= |levels[l]|
      requires forall i :: 0 <= i < |levels[l]| ==> (levels[l][i].id in ids <==> i < m)
      modifies this`levels, this`progress
      ensures levels == old(levels)[l := old(levels)[l][m..]] && progress == old(progress)[l := old(progress)[l][m..]]
    {
      var kept, marks := Others(levels[l], progress[l], ids, m);
      levels := levels[l := kept];
      progress := progress[l := marks];
    }

    /** The critical section of a commit: erase the inputs, append the output, pass the permission on. */
    method Publish(l: nat, ids: set<nat>, out: Table, ghost m: nat)
      requires l + 1 < |levels| == |progress| == |tasks| && |progress[l]| == |levels[l]| && m <= |levels[l]| && tasks[l] != []
      requires forall i :: 0 <= i < |levels[l]| ==> (levels[l][i].id in ids <==> i < m)
      modifies this`levels, this`progress, this`tasks, this`nextId
      ensures levels == old(levels)[l := old(levels)[l][m..]][l + 1 := old(levels)[l + 1] + [out]]
      ensures progress == old(progress)[l := old(progress)[l][m..]][l + 1 := old(progress)[l + 1] + [Pickable]]
      ensures tasks == old(tasks)[l := old(tasks)[l][1..]] && nextId == old(nextId) + 1
    {
      Erase(l, ids, m);
      levels := levels[l + 1 := levels[l + 1] + [out]];
      progress := progress[l + 1 := progress[l + 1] + [Pickable]];
      tasks := tasks[l := tasks[l][1..]];
      nextId := nextId + 1;
    }

    /** Commit the first waiting merge of level `l`, which has written `content`. */
    method CommitTask(l: nat, content: Content)
      requires Valid() && Enabled(View(), MergeCommits(l)) && content == Merged(tasks[l][0].inputs, tasks[l][0].discard)
      modifies this`levels, this`progress, this`tasks, this`nextId
      ensures Valid() && View() == Apply(old(View()), MergeCommits(l))
      ensures |levels| == |tasks| == |old(levels)| && tasks[l] == old(tasks)[l][1..]
      ensures old(levels)[l] == old(tasks)[l][0].inputs + levels[l]
      ensures |levels[l + 1]| == |old(levels)[l + 1]| + 1 && old(levels)[l + 1] <= levels[l + 1]
      ensures levels[l + 1][|old(levels)[l + 1]|].content == content
    {
      ghost var s, m := View(), |tasks[l][0].inputs|;
      HeadIsPrefix(s, l);
      var t := tasks[l][0];
      var epoch := OldestEpoch(t.inputs);
      var out := Table(nextId, epoch, t.inputs[|t.inputs| - 1].newest, content);
      Publish(l, Ids(t.inputs), out, m);
      CommittedIs(s, View(), l, m, out);
      CommitMoves(s, l);
    }

    /** Set the tables of level `l` whose file ids are in `ids` to `COMPACTION_ERROR`. */
    method MarkFailed(l: nat, ids: set<nat>, ghost from: nat, ghost to: nat)
      requires l < |levels| == |progress| && |progress[l]| == |levels[l]| && from <= to <= |levels[l]|
      requires forall i :: 0 <= i < |levels[l]| ==> (levels[l][i].id in ids <==> from <= i < to)
      modifies this`progress
      ensures progress == old(progress)[l := old(progress)[l][..from] + Repeat(CompactionError, to - from) + old(progress)[l][to..]]
    {
      ghost var p := progress[l];
      var i := 0;
      while i < |levels[l]|
        invariant 0 <= i <= |p| && |progress| == |old(progress)| && progress == old(progress)[l := progress[l]]
        invariant |progress[l]| == |p|
        invariant forall j :: 0 <= j < |p| ==> progress[l][j] == if j < i && from <= j < to then CompactionError else p[j]
      {
        if levels[l][i].id in ids {
          progress := progress[l := progress[l][i := Transition(progress[l][i], CompactionError).value]];
        }
        i := i + 1;
      }
      assert progress[l] == p[..from] + Repeat(CompactionError, to - from) + p[to..];
    }

    /** A merge of level `l` failed: its inputs stay and are never picked again. */
    method FailTask(l: nat, n: nat)
      requires Valid() && Enabled(View(), MergeFails(l, n))
      modifies this`progress, this`tasks
      ensures Valid() && View() == Apply(old(View()), MergeFails(l, n))
      ensures levels == old(levels) && l < |tasks| == |old(tasks)| && |tasks[l]| == |old(tasks)[l]|
      ensures n < |tasks[l]| && tasks[l][n].failed && tasks[l][n].inputs == old(tasks)[l][n].inputs
    {
      ghost var s := View();
      ghost var from, to := WaitingStretch(s, l, n);
      StretchIds(levels[l], from, to, tasks[l][n].inputs, nextId);
      MarkFailed(l, Ids(tasks[l][n].inputs), from, to);
      tasks := tasks[l := tasks[l][n := tasks[l][n].(failed := true)]];
      FailedIs(s, View(), l, n, from, to);
    }
  }

  ghost predicate PickedAt(q: seq<Progress>, p: seq<Progress>, ss: seq<Span>, i: nat)
    requires i < |p| == |q|
  {
    q[i] == if Covered(ss, i) then InCompaction else p[i]
  }

  lemma {:induction false} SlicesFilled(level: seq<Table>, ss: seq<Span>)
    requires Within(ss, |level|)
    ensures |Slices(level, ss)| == |ss|
    ensures forall b :: 0 <= b < |ss| ==> Slices(level, ss)[b] == level[ss[b].lo..ss[b].hi] != []
  {
    if ss != [] {
      SlicesFilled(level, ss[1..]);
    }
  }

  /** With nothing in flight and enough tables, the first bucket is the front of the level. */
  lemma {:induction false} FirstSlice(level: seq<Table>, p: seq<Progress>, tasks: seq<Task>, min: nat, max: nat, ss: seq<Span>, buckets: seq<seq<Table>>)
    requires |p| == |level| && 0 < min <= max && Within(ss, |level|) && ss == Spans(p, 0, min, max) && buckets == Slices(level, ss)
    requires forall x :: 0 <= x < |p| ==> (p[x] == Pickable <==> |Inputs(tasks)| <= x)
    ensures tasks == [] && |level| >= min ==> buckets != [] && buckets[0] <= level
  {
  }

  lemma {:induction false} SlicesOfNone(level: seq<Table>)
    ensures Within([], |level|) && Slices(level, []) == []
  {
  }

  lemma {:induction false} BucketsFollow(s: Db, l: nat, buckets: seq<seq<Table>>, end: nat)
    requires Inv(s) && l + 1 < |s.levels|
    requires |Inputs(s.tasks[l])| <= end <= |s.levels[l]| && Concat(buckets) == s.levels[l][|Inputs(s.tasks[l])|..end]
    requires forall b :: 0 <= b < |buckets| ==> buckets[b] != []
    ensures Enabled(s, Launch(l, buckets))
  {
    hide Flat, Chronicle, Concat, Inputs;
    assert LevelOk(s.levels, s.progress, s.tasks, s.created, l);
    var q, level := Inputs(s.tasks[l]), s.levels[l];
    assert q == level[..|q|] && level[..end] == level[..|q|] + level[|q|..end];
  }

  /** Marking the picked tables is marking one stretch of the level. */
  lemma {:induction false} PickedIsMarked(q: seq<Progress>, p: seq<Progress>, ss: seq<Span>, from: nat, end: nat)
    requires |q| == |p| && from <= end <= |p| && forall i :: 0 <= i < |p| ==> PickedAt(q, p, ss, i)
    requires forall x: nat :: Covered(ss, x) <==> from <= x < end
    ensures q == p[..from] + Repeat(InCompaction, end - from) + p[end..]
  {
    var m := p[..from] + Repeat(InCompaction, end - from) + p[end..];
    forall i | 0 <= i < |p|
      ensures q[i] == m[i]
    {
      assert PickedAt(q, p, ss, i);
    }
  }

  lemma {:induction false} LaunchedIs(s: Db, s2: Db, l: nat, buckets: seq<seq<Table>>, from: nat, end: nat)
    requires Inv(s) && Enabled(s, Launch(l, buckets))
    requires from == |Inputs(s.tasks[l])| && end == from + |Concat(buckets)| && end <= |s.progress[l]|
    requires s2.progress == s.progress[l := s.progress[l][..from] + Repeat(InCompaction, end - from) + s.progress[l][end..]]
    requires s2.tasks == s.tasks[l := s.tasks[l] + TasksFor(buckets, MayDiscard(s, l))]
    requires s2.created == if buckets == [] then s.created else s.created[l + 1 := true]
    requires s2.(progress := s.progress, tasks := s.tasks, created := s.created) == s
    ensures s2 == Apply(s, Launch(l, buckets))
  {
    if buckets == [] {
      assert s.progress[l][..from] + Repeat(InCompaction, 0) + s.progress[l][end..] == s.progress[l];
      assert s.tasks[l] + TasksFor(buckets, MayDiscard(s, l)) == s.tasks[l];
    }
  }

  /** `max_element` under the reversed comparison: the smallest epoch of the inputs. */
  method OldestEpoch(inputs: seq<Table>) returns (epoch: nat)
    requires inputs != []
    ensures exists i :: 0 <= i < |inputs| && epoch == inputs[i].epoch
    ensures forall i :: 0 <= i < |inputs| ==> epoch <= inputs[i].epoch
  {
    epoch := inputs[0].epoch;
    var i := 1;
    while i < |inputs|
      invariant 1 <= i <= |inputs|
      invariant exists j :: 0 <= j < i && epoch == inputs[j].epoch
      invariant forall j :: 0 <= j < i ==> epoch <= inputs[j].epoch
    {
      if epoch > inputs[i].epoch {
        epoch := inputs[i].epoch;
      }
      i := i + 1;
    }
  }

  lemma {:induction false} LevelAged(s: Db, l: nat)
    requires Inv(s) && l < |s.levels|
    ensures Chronicle(s.levels[l], s.nextId)
    ensures Inputs(s.tasks[l]) <= s.levels[l]
  {
    assert LevelOk(s.levels, s.progress, s.tasks, s.created, l);
    FlatCut(s.levels, l);
    var all, n := Frozen(s), |Flat(s.levels[l + 1..])|;
    forall i | 0 <= i < |s.levels[l]|
      ensures s.levels[l][i] == all[n + i]
    {
    }
  }

  /** The files of some tables. */
  function Ids(ts: seq<Table>): (r: set<nat>)
    ensures forall i :: 0 <= i < |ts| ==> ts[i].id in r
    ensures forall id :: id in r ==> exists i :: 0 <= i < |ts| && ts[i].id == id
  {
    set t | t in ts :: t.id
  }

  /** Tables of a level have distinct files, so ids single out a stretch of it. */
  lemma {:induction false} StretchIds(level: seq<Table>, from: nat, to: nat, inputs: seq<Table>, next: nat)
    requires Chronicle(level, next) && from <= to <= |level| && inputs == level[from..to]
    ensures Chronicle(inputs, next)
    ensures forall i :: 0 <= i < |level| ==> (level[i].id in Ids(inputs) <==> from <= i < to)
  {
  }

  /** The inputs of a waiting merge are one stretch of their level. */
  lemma {:induction false} WaitingStretch(s: Db, l: nat, n: nat) returns (from: nat, to: nat)
    requires Inv(s) && l < |s.tasks| && n < |s.tasks[l]|
    ensures from == |Inputs(s.tasks[l][..n])| && from <= to <= |s.levels[l]| == |s.progress[l]|
    ensures s.levels[l][from..to] == s.tasks[l][n].inputs && Chronicle(s.levels[l], s.nextId)
  {
    LevelAged(s, l);
    assert LevelOk(s.levels, s.progress, s.tasks, s.created, l);
    InputsSplit(s.tasks[l], n);
    var level, q, inputs := s.levels[l], Inputs(s.tasks[l]), s.tasks[l][n].inputs;
    from := |Inputs(s.tasks[l][..n])|;
    to := from + |inputs|;
    assert to <= |q| && q[from..to] == inputs && q == level[..|q|];
    assert level[from..to] == q[from..to];
  }

  lemma {:induction false} CommittedIs(s: Db, s2: Db, l: nat, m: nat, out: Table)
    requires Inv(s) && Enabled(s, MergeCommits(l)) && m == |s.tasks[l][0].inputs| && 0 < m <= |s.levels[l]| == |s.progress[l]|
    requires out == Output(s.tasks[l][0], s.nextId)
    requires s2.levels == s.levels[l := s.levels[l][m..]][l + 1 := s.levels[l + 1] + [out]]
    requires s2.progress == s.progress[l := s.progress[l][m..]][l + 1 := s.progress[l + 1] + [Pickable]]
    requires s2.tasks == s.tasks[l := s.tasks[l][1..]] && s2.nextId == s.nextId + 1
    requires s2.(levels := s.levels, progress := s.progress, tasks := s.tasks, nextId := s.nextId) == s
    ensures s2 == Apply(s, MergeCommits(l)) && Inv(s2)
  {
    CommitKeepsInv(s, l);
  }

  lemma {:induction false} FailedIs(s: Db, s2: Db, l: nat, n: nat, from: nat, to: nat)
    requires Inv(s) && Enabled(s, MergeFails(l, n))
    requires from == |Inputs(s.tasks[l][..n])| && to == from + |s.tasks[l][n].inputs| <= |s.progress[l]|
    requires s2.progress == s.progress[l := s.progress[l][..from] + Repeat(CompactionError, to - from) + s.progress[l][to..]]
    requires s2.tasks == s.tasks[l := s.tasks[l][n := s.tasks[l][n].(failed := true)]]
    requires s2.(progress := s.progress, tasks := s.tasks) == s
    ensures s2 == Apply(s, MergeFails(l, n)) && Inv(s2)
  {
    FailKeepsInv(s, l, n);
  }

  /** The inputs of the merge that commits next are the oldest tables of their level. */
  lemma {:induction false} HeadIsPrefix(s: Db, l: nat)
    requires Inv(s) && Enabled(s, MergeCommits(l))
    ensures
      var t := s.tasks[l][0];
      && 0 < |t.inputs| <= |s.levels[l]| == |s.progress[l]| && |s.progress| == |s.levels|
      && (forall i :: 0 <= i < |t.inputs| ==> t.inputs[0].epoch <= t.inputs[i].epoch)
      && (forall i :: 0 <= i < |s.levels[l]| ==> (s.levels[l][i].id in Ids(t.inputs) <==> i < |t.inputs|))
  {
    var t := s.tasks[l][0];
    LevelAged(s, l);
    assert LevelOk(s.levels, s.progress, s.tasks, s.created, l);
    QueueCommit(s.levels[l], s.progress[l], s.tasks[l]);
    StretchIds(s.levels[l], 0, |t.inputs|, t.inputs, s.nextId);
  }
}
