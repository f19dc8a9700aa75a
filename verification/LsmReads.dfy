/** Reads that look at the tables at three different moments. */
module LsmReads {
  import opened Versions
  import opened Lsm
  import opened LsmSafety

  /** The value a read puts together from the current table, a copy of the frozen tables and a snapshot of the levels. */
  function ReadOf(current: Content, pending: seq<Table>, disk: seq<Table>, k: Key): Option<Value> {
    Observe(
      if k in current then Some(current[k])
      else if Search(pending, k).Some? then Search(pending, k)
      else Search(disk, k))
  }

  /** What is frozen shows something allowed. */
  ghost predicate FrozenAllowed(s: Db, k: Key, allowed: set<Option<Value>>) {
    Observe(Search(Frozen(s), k)) in allowed
  }

  /** The levels hold something allowed, and so does all that may still reach them from the frozen tables. */
  ghost predicate DiskAllowed(s: Db, k: Key, allowed: set<Option<Value>>) {
    && (forall i :: 0 <= i < |s.pending| && k in s.pending[i].content ==> Observe(Some(s.pending[i].content[k])) in allowed)
    && Observe(Search(Flat(s.levels), k)) in allowed
  }

  ghost predicate CurrentAllowed(s: Db, k: Key, allowed: set<Option<Value>>) {
    k in s.current ==> Observe(Some(s.current[k])) in allowed
  }

  /** After the first look missed: everything behind it, and everything written since, is allowed. */
  ghost predicate AllFrozenAllowed(s: Db, k: Key, allowed: set<Option<Value>>) {
    CurrentAllowed(s, k, allowed) && FrozenAllowed(s, k, allowed)
  }

  /** After the second look missed. */
  ghost predicate AllDiskAllowed(s: Db, k: Key, allowed: set<Option<Value>>) {
    CurrentAllowed(s, k, allowed) && DiskAllowed(s, k, allowed)
  }

  /** Only a swap brings the current table to what is frozen. */
  lemma {:induction false} FrozenStays(s: Db, a: Action, k: Key, allowed: set<Option<Value>>)
    requires Inv(s) && Enabled(s, a) && !a.Swap? && FrozenAllowed(s, k, allowed)
    requires a.LatePut? && a.k == k ==> Observe(Some(a.v)) in allowed
    ensures FrozenAllowed(Apply(s, a), k, allowed)
  {
    hide Flat, Inputs, Concat, Merged, Chronicle, LevelOk, Swapping;
    match a
    case LatePut(i, j, v) =>
      var n := |Flat(s.levels)| + i;
      SearchUpdate(Frozen(s), n, j, v, k);
      assert Frozen(Apply(s, a)) == Frozen(s)[n := s.pending[i].(content := s.pending[i].content[j := v])];
    case FlushCommits => FlushKeepsSearch(s, k);
    case MergeCommits(l) => CommitKeepsSearch(s, l, k);
    case _ =>
  }

  lemma {:induction false} FrozenStep(s: Db, a: Action, k: Key, allowed: set<Option<Value>>)
    requires Inv(s) && Enabled(s, a) && AllFrozenAllowed(s, k, allowed)
    requires !Background(a) && a.k == k ==> Observe(Some(a.v)) in allowed
    ensures AllFrozenAllowed(Apply(s, a), k, allowed)
  {
    hide Flat, LevelsOk, Chronicle, Swapping, LaunchMerges, FailMerge, CommitMerge;
    if a.Swap? {
      var t := Table(s.nextId, s.nextId, s.nextId, s.current);
      assert Frozen(Freeze(s)) == Frozen(s) + [t];
      SearchConcat(Frozen(s), [t], k);
      assert [t][..0] == [];
    } else {
      FrozenStays(s, a, k, allowed);
      CurrentStays(s, a, k, allowed);
    }
  }

  lemma {:induction false} CurrentStays(s: Db, a: Action, k: Key, allowed: set<Option<Value>>)
    requires Inv(s) && Enabled(s, a) && CurrentAllowed(s, k, allowed)
    requires a.Put? && a.k == k ==> Observe(Some(a.v)) in allowed
    ensures CurrentAllowed(Apply(s, a), k, allowed)
  {
    hide LevelsOk, Chronicle, Swapping;
  }

  lemma {:induction false} DiskStays(s: Db, a: Action, k: Key, allowed: set<Option<Value>>)
    requires Inv(s) && Enabled(s, a) && !a.Swap? && DiskAllowed(s, k, allowed)
    requires a.LatePut? && a.k == k ==> Observe(Some(a.v)) in allowed
    ensures DiskAllowed(Apply(s, a), k, allowed)
  {
    hide Flat, Inputs, Concat, Merged, Chronicle, LevelOk, Swapping;
    match a
    case FlushCommits =>
      FlatPush(s.levels, s.pending[0]);
      SearchConcat(Flat(s.levels), [s.pending[0]], k);
      assert [s.pending[0]][..0] == [];
    case MergeCommits(l) => CommitKeepsSearch(s, l, k);
    case _ =>
  }

  lemma {:induction false} DiskStep(s: Db, a: Action, k: Key, allowed: set<Option<Value>>)
    requires Inv(s) && Enabled(s, a) && AllDiskAllowed(s, k, allowed)
    requires !Background(a) && a.k == k ==> Observe(Some(a.v)) in allowed
    ensures AllDiskAllowed(Apply(s, a), k, allowed)
  {
    hide Flat, LevelsOk, Chronicle, Swapping, LaunchMerges, FailMerge, CommitMerge, CommitFlush;
    if !a.Swap? {
      DiskStays(s, a, k, allowed);
      CurrentStays(s, a, k, allowed);
    }
  }

  lemma {:induction false} FrozenRun(s: Db, run: seq<Action>, k: Key, allowed: set<Option<Value>>)
    requires Inv(s) && Runs(s, run) && AllFrozenAllowed(s, k, allowed) && Written(run, k) <= allowed
    ensures AllFrozenAllowed(After(s, run), k, allowed)
    decreases |run|
  {
    if run != [] {
      StepKeepsInv(s, run[0]);
      FrozenStep(s, run[0], k, allowed);
      FrozenRun(Apply(s, run[0]), run[1..], k, allowed);
    }
  }

  lemma {:induction false} DiskRun(s: Db, run: seq<Action>, k: Key, allowed: set<Option<Value>>)
    requires Inv(s) && Runs(s, run) && AllDiskAllowed(s, k, allowed) && Written(run, k) <= allowed
    ensures AllDiskAllowed(After(s, run), k, allowed)
    decreases |run|
  {
    if run != [] {
      StepKeepsInv(s, run[0]);
      DiskStep(s, run[0], k, allowed);
      DiskRun(Apply(s, run[0]), run[1..], k, allowed);
    }
  }

  /** At any time a key shows what it showed at the start, or something written since. */
  lemma {:induction false} LookupRun(s: Db, run: seq<Action>, k: Key)
    requires Inv(s) && Runs(s, run)
    ensures Lookup(After(s, run), k) in {Lookup(s, k)} + Written(run, k)
    decreases |run|
  {
    if run != [] {
      StepKeepsInv(s, run[0]);
      if Background(run[0]) {
        BackgroundInvisible(s, run[0], k);
      } else {
        WriteVisible(s, run[0], k);
      }
      LookupRun(Apply(s, run[0]), run[1..], k);
    }
  }

  /**
   * A read that begins in `s`, looks at the current table after `r0`, copies the frozen tables after `r1`
   * and takes its snapshot of the levels after `r2` returns what the key showed when the read began, or a
   * value written to it meanwhile.  Without such a write it returns exactly the former.
   */
  lemma {:induction false} ReadIsRegular(s: Db, r0: seq<Action>, r1: seq<Action>, r2: seq<Action>, k: Key)
    requires Inv(s) && Runs(s, r0) && Runs(After(s, r0), r1) && Runs(After(After(s, r0), r1), r2)
    ensures
      var s1 := After(s, r0);
      var s2 := After(s1, r1);
      var s3 := After(s2, r2);
      ReadOf(s1.current, s2.pending, Flat(s3.levels), k)
        in {Lookup(s, k)} + Written(r0, k) + Written(r1, k) + Written(r2, k)
  {
    var s1 := After(s, r0);
    var s2 := After(s1, r1);
    var s3 := After(s2, r2);
    var allowed := {Lookup(s, k)} + Written(r0, k) + Written(r1, k) + Written(r2, k);
    LookupRun(s, r0, k);
    hide After, Runs, Inv, Written, Flat;
    if k !in s1.current {
      FrozenRun(s1, r1, k, allowed);
      LaterLooks(s2, r2, k, allowed);
    }
  }

  // ---- Reads between the swap of the tables and the bump of the switch epoch

  ghost predicate NoBump(run: seq<Action>) {
    forall i :: 0 <= i < |run| ==> !run[i].Bump?
  }

  ghost predicate NoPut(run: seq<Action>, k: Key) {
    forall i :: 0 <= i < |run| ==> !(run[i].Put? && run[i].k == k)
  }

  /** The values the run writes to `k` in tables that are frozen already. */
  function LateWritten(run: seq<Action>, k: Key): set<Option<Value>>
    decreases |run|
  {
    if run == [] then {}
    else (if run[0].LatePut? && run[0].k == k then {Observe(Some(run[0].v))} else {}) + LateWritten(run[1..], k)
  }

  /** The content of the frozen table with epoch `e`; `c` when it is no longer there. */
  function FrozenContent(ts: seq<Table>, e: nat, c: Content): Content {
    if ts == [] then c else if ts[|ts| - 1].epoch == e then ts[|ts| - 1].content else FrozenContent(ts[..|ts| - 1], e, c)
  }

  /** What a reader that holds on to the table with epoch `e` finds in it after a run; a flushed table stays as it was flushed. */
  ghost function HeldTable(s: Db, run: seq<Action>, e: nat, c: Content): Content
    requires Inv(s) && Runs(s, run)
    decreases |run|
  {
    var now := FrozenContent(s.pending, e, c);
    if run == [] then now
    else
      StepKeepsInv(s, run[0]);
      HeldTable(Apply(s, run[0]), run[1..], e, now)
  }
  ghost predicate ContentAllowed(c: Content, k: Key, allowed: set<Option<Value>>) {
    k in c ==> Observe(Some(c[k])) in allowed
  }

  lemma {:induction false} ContentOfSame(ts: seq<Table>, e: nat, c: Content)
    ensures FrozenContent(ts, e, FrozenContent(ts, e, c)) == FrozenContent(ts, e, c)
  {
    if ts != [] {
      ContentOfSame(ts[..|ts| - 1], e, c);
    }
  }

  lemma {:induction false} ContentOfRest(ts: seq<Table>, e: nat, c: Content)
    requires ts != []
    ensures FrozenContent(ts[1..], e, FrozenContent(ts, e, c)) == FrozenContent(ts, e, c)
  {
    var n := |ts| - 1;
    if n == 0 {
      assert ts[1..] == [];
    } else {
      ContentOfRest(ts[..n], e, c);
      assert ts[1..][..n - 1] == ts[..n][1..];
    }
  }

  lemma {:induction false} ContentOfUpdate(ts: seq<Table>, i: nat, k: Key, v: Value, e: nat, c: Content)
    requires i < |ts|
    ensures
      var now, after := FrozenContent(ts, e, c), FrozenContent(ts[i := ts[i].(content := ts[i].content[k := v])], e, FrozenContent(ts, e, c));
      after == now || after == now[k := v]
  {
    var n, ts2 := |ts| - 1, ts[i := ts[i].(content := ts[i].content[k := v])];
    if ts[n].epoch != e {
      if i < n {
        ContentOfUpdate(ts[..n], i, k, v, e, c);
        assert ts2[..n] == ts[..n][i := ts[i].(content := ts[i].content[k := v])];
      } else {
        ContentOfSame(ts[..n], e, c);
        assert ts2[..n] == ts[..n];
      }
    }
  }

  /** A held table changes only by late writes. */
  lemma {:induction false} HeldStep(s: Db, a: Action, e: nat, c: Content, k: Key, allowed: set<Option<Value>>)
    requires Inv(s) && Enabled(s, a) && e < s.nextId && ContentAllowed(FrozenContent(s.pending, e, c), k, allowed)
    requires a.LatePut? && a.k == k ==> Observe(Some(a.v)) in allowed
    ensures e < Apply(s, a).nextId
    ensures ContentAllowed(FrozenContent(Apply(s, a).pending, e, FrozenContent(s.pending, e, c)), k, allowed)
  {
    hide LevelsOk, LevelOk, Chronicle, Swapping;
    ContentOfSame(s.pending, e, c);
    match a
    case LatePut(i, j, v) => ContentOfUpdate(s.pending, i, j, v, e, c);
    case Swap => assert Apply(s, a).pending[..|s.pending|] == s.pending;
    case FlushCommits => ContentOfRest(s.pending, e, c);
    case _ =>
  }

  lemma {:induction false} HeldRun(s: Db, run: seq<Action>, e: nat, c: Content, k: Key, allowed: set<Option<Value>>)
    requires Inv(s) && Runs(s, run) && e < s.nextId && ContentAllowed(FrozenContent(s.pending, e, c), k, allowed)
    requires LateWritten(run, k) <= allowed
    ensures ContentAllowed(HeldTable(s, run, e, c), k, allowed)
    decreases |run|
  {
    hide Enabled, ContentAllowed, FrozenContent, Inv;
    if run != [] {
      StepKeepsInv(s, run[0]);
      HeldStep(s, run[0], e, c, k, allowed);
      HeldRun(Apply(s, run[0]), run[1..], e, FrozenContent(s.pending, e, c), k, allowed);
    }
  }

  /** The table with epoch `e` was swapped out, and the switch epoch has not been bumped since. */
  ghost predicate SwappedOut(s: Db, e: nat) {
    s.switching && s.pending != [] && s.pending[|s.pending| - 1].epoch == e < s.nextId
  }

  lemma {:induction false} SwappedOutStep(s: Db, a: Action, e: nat)
    requires Inv(s) && Enabled(s, a) && !a.Bump? && SwappedOut(s, e)
    ensures !a.Swap? && SwappedOut(Apply(s, a), e)
  {
    hide LevelsOk, LevelOk, Chronicle;
  }

  /** Until the bump nothing written to `k` reaches the frozen tables, except late. */
  lemma {:induction false} SwappedOutRun(s: Db, run: seq<Action>, e: nat, k: Key, allowed: set<Option<Value>>)
    requires Inv(s) && Runs(s, run) && NoBump(run) && SwappedOut(s, e) && LateWritten(run, k) <= allowed
    ensures SwappedOut(After(s, run), e)
    ensures FrozenAllowed(s, k, allowed) ==> FrozenAllowed(After(s, run), k, allowed)
    ensures DiskAllowed(s, k, allowed) ==> DiskAllowed(After(s, run), k, allowed)
    ensures NoPut(run, k) && k !in s.current ==> k !in After(s, run).current
    decreases |run|
  {
    hide SwappedOut, FrozenAllowed, DiskAllowed, Inv;
    if run != [] {
      var a := run[0];
      StepKeepsInv(s, a);
      SwappedOutStep(s, a, e);
      if FrozenAllowed(s, k, allowed) {
        FrozenStays(s, a, k, allowed);
      }
      if DiskAllowed(s, k, allowed) {
        DiskStays(s, a, k, allowed);
      }
      CurrentMisses(s, a, k);
      SwappedOutRun(Apply(s, a), run[1..], e, k, allowed);
    }
  }

  lemma {:induction false} CurrentMisses(s: Db, a: Action, k: Key)
    requires Inv(s) && Enabled(s, a)
    ensures k !in s.current && !(a.Put? && a.k == k) ==> k !in Apply(s, a).current
  {
    hide LevelsOk, LevelOk, Chronicle, Swapping;
  }

  /** The state after a swap and a run without a bump. */
  lemma {:induction false} AfterSwap(s: Db, run: seq<Action>, k: Key, allowed: set<Option<Value>>)
    requires Inv(s) && Runs(s, [Swap] + run) && NoBump(run) && LateWritten(run, k) <= allowed
    ensures
      var s1 := After(s, [Swap] + run);
      && SwappedOut(s1, s.nextId)
      && (NoPut(run, k) ==> k !in s1.current)
      && (Lookup(s, k) in allowed ==> FrozenAllowed(s1, k, allowed) && ContentAllowed(s1.pending[|s1.pending| - 1].content, k, allowed))
  {
    var s0 := Apply(s, Swap);
    StepKeepsInv(s, Swap);
    BackgroundInvisible(s, Swap, k);
    assert ([Swap] + run)[1..] == run;
    assert s0.pending[..|s.pending|] == s.pending;
    SwappedOutRun(s0, run, s.nextId, k, allowed);
    if Lookup(s, k) in allowed {
      HeldRun(s0, run, s.nextId, map[], k, allowed);
      HeldIsLast(s0, run, s.nextId, map[]);
    }
  }

  /** While the switch lasts the held table is the last one frozen. */
  lemma {:induction false} HeldIsLast(s: Db, run: seq<Action>, e: nat, c: Content)
    requires Inv(s) && Runs(s, run) && NoBump(run) && SwappedOut(s, e)
    ensures SwappedOut(After(s, run), e) && HeldTable(s, run, e, c) == After(s, run).pending[|After(s, run).pending| - 1].content
    decreases |run|
  {
    hide Inv, Enabled;
    if run != [] {
      StepKeepsInv(s, run[0]);
      SwappedOutStep(s, run[0], e);
      HeldIsLast(Apply(s, run[0]), run[1..], e, FrozenContent(s.pending, e, c));
    }
  }

  /**
   * Between the swap of the tables and the bump of the switch epoch a reader still takes the table that was
   * swapped out.  If nothing was put to `k` between the swap and the beginning of the read, the read is as
   * good as any other, however long it takes.
   */
  lemma {:induction false} StaleReadRegular(s: Db, r0: seq<Action>, r1: seq<Action>, r2: seq<Action>, r3: seq<Action>, k: Key)
    requires Inv(s) && Runs(s, [Swap] + r0) && NoBump(r0) && NoPut(r0, k)
    requires Runs(After(s, [Swap] + r0), r1) && Runs(After(After(s, [Swap] + r0), r1), r2)
    requires Runs(After(After(After(s, [Swap] + r0), r1), r2), r3)
    ensures
      var s1 := After(s, [Swap] + r0);
      var s2 := After(s1, r1);
      var s3 := After(s2, r2);
      var s4 := After(s3, r3);
      ReadOf(HeldTable(s1, r1, s.nextId, map[]), s3.pending, Flat(s4.levels), k)
        in {Lookup(s1, k)} + Written(r1, k) + Written(r2, k) + Written(r3, k)
  {
    var s1 := After(s, [Swap] + r0);
    var s2 := After(s1, r1);
    var s3 := After(s2, r2);
    var allowed := {Lookup(s1, k)} + Written(r1, k) + Written(r2, k) + Written(r3, k);
    AfterSwap(s, r0, k, LateWritten(r0, k));
    hide After, Runs, Inv, HeldTable, Written, LateWritten, Lookup, Flat, ReadOf, AllFrozenAllowed, ContentAllowed, FrozenContent;
    StaleBegins(s1, s.nextId, k, allowed);
    LateIsWritten(r1, k);
    HeldRun(s1, r1, s.nextId, map[], k, allowed);
    FrozenRun(s1, r1, k, allowed);
    FrozenRun(s2, r2, k, allowed);
    LaterLooks(s3, r3, k, allowed);
    FirstLook(HeldTable(s1, r1, s.nextId, map[]), s3.pending, Flat(After(s3, r3).levels), k, allowed);
  }

  /** The last frozen table is what a search over everything frozen finds first. */
  lemma {:induction false} StaleBegins(s: Db, e: nat, k: Key, allowed: set<Option<Value>>)
    requires SwappedOut(s, e) && k !in s.current && Lookup(s, k) in allowed
    ensures AllFrozenAllowed(s, k, allowed) && ContentAllowed(FrozenContent(s.pending, e, map[]), k, allowed)
  {
    hide Flat;
    SearchConcat(Flat(s.levels), s.pending, k);
  }

  lemma {:induction false} FirstLook(c: Content, pending: seq<Table>, disk: seq<Table>, k: Key, allowed: set<Option<Value>>)
    requires ContentAllowed(c, k, allowed) && ReadOf(map[], pending, disk, k) in allowed
    ensures ReadOf(c, pending, disk, k) in allowed
  {
  }

  lemma {:induction false} LateIsWritten(run: seq<Action>, k: Key)
    ensures LateWritten(run, k) <= Written(run, k)
    decreases |run|
  {
    if run != [] {
      LateIsWritten(run[1..], k);
    }
  }

  /** The second and the third look of a read. */
  lemma {:induction false} LaterLooks(s: Db, run: seq<Action>, k: Key, allowed: set<Option<Value>>)
    requires Inv(s) && Runs(s, run) && AllFrozenAllowed(s, k, allowed) && Written(run, k) <= allowed
    ensures ReadOf(map[], s.pending, Flat(After(s, run).levels), k) in allowed
  {
    hide Flat, Inv;
    SearchConcat(Flat(s.levels), s.pending, k);
    if Search(s.pending, k).None? {
      SearchHit(s.pending, k);
      DiskRun(s, run, k, allowed);
    }
  }

  /**
   * A read that ends before the bump returns what the key showed before the swap or a late write: whatever
   * was put to `k` since the swap is missed.
   */
  lemma {:induction false} StaleReadIsOld(s: Db, r0: seq<Action>, r1: seq<Action>, r2: seq<Action>, r3: seq<Action>, k: Key)
    requires Inv(s) && Runs(s, [Swap] + r0) && NoBump(r0) && NoBump(r1) && NoBump(r2) && NoBump(r3)
    requires Runs(After(s, [Swap] + r0), r1) && Runs(After(After(s, [Swap] + r0), r1), r2)
    requires Runs(After(After(After(s, [Swap] + r0), r1), r2), r3)
    ensures
      var s1 := After(s, [Swap] + r0);
      var s2 := After(s1, r1);
      var s3 := After(s2, r2);
      var s4 := After(s3, r3);
      ReadOf(HeldTable(s1, r1, s.nextId, map[]), s3.pending, Flat(s4.levels), k)
        in {Lookup(s, k)} + LateWritten(r0, k) + LateWritten(r1, k) + LateWritten(r2, k) + LateWritten(r3, k)
  {
    var s1 := After(s, [Swap] + r0);
    var s2 := After(s1, r1);
    var s3 := After(s2, r2);
    var e, allowed := s.nextId, {Lookup(s, k)} + LateWritten(r0, k) + LateWritten(r1, k) + LateWritten(r2, k) + LateWritten(r3, k);
    AfterSwap(s, r0, k, allowed);
    hide After, Runs, Inv, HeldTable, LateWritten, Lookup, Flat, ReadOf, FrozenAllowed, DiskAllowed, ContentAllowed;
    HeldRun(s1, r1, e, map[], k, allowed);
    SwappedOutRun(s1, r1, e, k, allowed);
    SwappedOutRun(s2, r2, e, k, allowed);
    LaterStaleLooks(s3, r3, e, k, allowed);
    FirstLook(HeldTable(s1, r1, e, map[]), s3.pending, Flat(After(s3, r3).levels), k, allowed);
  }

  lemma {:induction false} LaterStaleLooks(s: Db, run: seq<Action>, e: nat, k: Key, allowed: set<Option<Value>>)
    requires Inv(s) && Runs(s, run) && NoBump(run) && SwappedOut(s, e) && FrozenAllowed(s, k, allowed) && LateWritten(run, k) <= allowed
    ensures ReadOf(map[], s.pending, Flat(After(s, run).levels), k) in allowed
  {
    hide Flat, Inv;
    SearchConcat(Flat(s.levels), s.pending, k);
    if Search(s.pending, k).None? {
      SearchHit(s.pending, k);
      SwappedOutRun(s, run, e, k, allowed);
    }
  }

  /** A write that completed into the new table is missed by a reader that still holds the old one. */
  lemma {:induction false} StaleReadMissesWrite(s: Db, k: Key, v: seq<nat>)
    requires Inv(s) && !s.switching
    ensures Runs(s, [Swap] + [Put(k, Data(v))])
    ensures
      var s1 := After(s, [Swap] + [Put(k, Data(v))]);
      && Lookup(s1, k) == Some(Data(v))
      && ReadOf(HeldTable(s1, [], s.nextId, map[]), s1.pending, Flat(s1.levels), k) == Lookup(s, k)
  {
    var put := Put(k, Data(v));
    TwoSteps(s, Swap, put);
    var s1 := After(s, [Swap] + [put]);
    hide After, Runs, Inv;
    StaleReadIsOld(s, [put], [], [], [], k);
  }

  lemma {:induction false} TwoSteps(s: Db, a: Action, b: Action)
    requires Inv(s) && Enabled(s, a) && (Inv(Apply(s, a)) ==> Enabled(Apply(s, a), b))
    ensures Inv(Apply(s, a)) && Runs(s, [a] + [b]) && After(s, [a] + [b]) == Apply(Apply(s, a), b)
    ensures Runs(After(s, [a] + [b]), []) && After(After(s, [a] + [b]), []) == After(s, [a] + [b])
  {
    hide Inv, Enabled, Apply;
    StepKeepsInv(s, a);
    var s1 := Apply(s, a);
    StepKeepsInv(s1, b);
    assert [b][1..] == [] && ([a] + [b])[1..] == [b];
    assert Runs(Apply(s1, b), []) && After(Apply(s1, b), []) == Apply(s1, b);
    assert Runs(s1, [b]) && After(s1, [b]) == After(Apply(s1, b), []);
  }
}
