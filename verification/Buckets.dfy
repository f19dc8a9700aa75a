/** Which tables of a level the scheduler groups into merges: runs of neighbours that can be picked, oldest
    first, none of them too short or too long. */
module Buckets {
  import opened Versions
  import opened Lsm

  /** The tables `lo..hi` of a level. */
  datatype Span = Span(lo: nat, hi: nat)

  /** How far the run of pickable tables that began at `i` and reached `j` goes, up to `max` tables. */
  function RunEnd(p: seq<Progress>, i: nat, j: nat, max: nat): (e: nat)
    requires i <= j <= |p|
    ensures j <= e <= |p| && (j <= i + max ==> e <= i + max)
    ensures forall x :: j <= x < e ==> p[x] == Pickable
    ensures e < |p| && p[e] == Pickable ==> e >= i + max
    decreases |p| - j
  {
    if j < |p| && p[j] == Pickable && j - i < max then RunEnd(p, i, j + 1, max) else j
  }

  /**
   * The spans of a level, from index `i` on, that become merges: pickable tables are cut into runs of at
   * most `max` neighbours, and runs of fewer than `min` are left alone.
   */
  function Spans(p: seq<Progress>, i: nat, min: nat, max: nat): seq<Span>
    requires i <= |p| && max > 0
    decreases |p| - i
  {
    if i == |p| then []
    else if p[i] != Pickable then Spans(p, i + 1, min, max)
    else
      var e := RunEnd(p, i, i + 1, max);
      (if e - i >= min then [Span(i, e)] else []) + Spans(p, e, min, max)
  }

  ghost predicate GoodSpan(p: seq<Progress>, s: Span, min: nat, max: nat) {
    && s.lo < s.hi <= |p| && min <= s.hi - s.lo <= max
    && forall x :: s.lo <= x < s.hi ==> p[x] == Pickable
  }

  ghost predicate GoodSpans(p: seq<Progress>, ss: seq<Span>, i: nat, min: nat, max: nat) {
    && (forall n :: 0 <= n < |ss| ==> GoodSpan(p, ss[n], min, max) && i <= ss[n].lo)
    && (forall m, n :: 0 <= m < n < |ss| ==> ss[m].hi <= ss[n].lo)
  }

  /** Spans are runs of pickable tables of the allowed size, and follow each other without overlap. */
  lemma {:induction false} SpansGood(p: seq<Progress>, i: nat, min: nat, max: nat)
    requires i <= |p| && 0 < min <= max
    ensures GoodSpans(p, Spans(p, i, min, max), i, min, max)
    decreases |p| - i
  {
    if i < |p| {
      if p[i] != Pickable {
        SpansGood(p, i + 1, min, max);
        assert GoodSpans(p, Spans(p, i + 1, min, max), i, min, max);
      } else {
        var e := RunEnd(p, i, i + 1, max);
        SpansGood(p, e, min, max);
        assert e - i >= min ==> GoodSpan(p, Span(i, e), min, max);
      }
    }
  }

  /** No pickable run of `min` tables is overlooked: whatever is left between spans is shorter. */
  lemma {:induction false} SpansMaximal(p: seq<Progress>, i: nat, min: nat, max: nat, a: nat)
    requires i <= |p| && 0 < min <= max && i <= a && a + min <= |p|
    requires forall x :: a <= x < a + min ==> p[x] == Pickable
    ensures exists s :: s in Spans(p, i, min, max) && s.lo < a + min && a < s.hi
    decreases |p| - i
  {
    if p[i] != Pickable {
      SpansMaximal(p, i + 1, min, max, a);
      assert Spans(p, i, min, max) == Spans(p, i + 1, min, max);
    } else {
      var e := RunEnd(p, i, i + 1, max);
      if a < e {
        assert e - i >= min by {
          if e < a + min {
            assert p[e] == Pickable;
          }
        }
        assert Span(i, e) in Spans(p, i, min, max);
      } else {
        SpansMaximal(p, e, min, max, a);
      }
    }
  }

  lemma {:induction false} SpansOfShort(p: seq<Progress>, i: nat, min: nat, max: nat)
    requires i <= |p| < min && 0 < max
    ensures Spans(p, i, min, max) == []
    decreases |p| - i
  {
    if i < |p| {
      SpansOfShort(p, if p[i] != Pickable then i + 1 else RunEnd(p, i, i + 1, max), min, max);
    }
  }

  ghost predicate Within(ss: seq<Span>, n: nat) {
    forall i :: 0 <= i < |ss| ==> ss[i].lo < ss[i].hi <= n
  }

  ghost function Slices(level: seq<Table>, ss: seq<Span>): seq<seq<Table>>
    requires Within(ss, |level|)
  {
    if ss == [] then [] else [level[ss[0].lo..ss[0].hi]] + Slices(level, ss[1..])
  }

  lemma {:induction false} SlicesAppend(level: seq<Table>, ss: seq<Span>, s: Span)
    requires Within(ss, |level|) && s.lo < s.hi <= |level|
    ensures Slices(level, ss + [s]) == Slices(level, ss) + [level[s.lo..s.hi]]
  {
    if ss == [] {
      assert ss + [s] == [s] && [s][1..] == [];
    } else {
      SlicesAppend(level, ss[1..], s);
      assert (ss + [s])[1..] == ss[1..] + [s];
    }
  }

  lemma {:induction false} SlicesFirst(level: seq<Table>, s: Span, rest: seq<Span>)
    requires Within(rest, |level|) && s.lo < s.hi <= |level|
    ensures Within([s] + rest, |level|)
    ensures Concat(Slices(level, [s] + rest)) == level[s.lo..s.hi] + Concat(Slices(level, rest))
  {
  }

  ghost predicate Covered(ss: seq<Span>, i: nat) {
    exists n :: 0 <= n < |ss| && ss[n].lo <= i < ss[n].hi
  }

  lemma {:induction false} CoveredAppend(ss: seq<Span>, s: Span)
    ensures forall i: nat :: Covered(ss + [s], i) <==> Covered(ss, i) || s.lo <= i < s.hi
  {
    forall i: nat
      ensures Covered(ss + [s], i) <==> Covered(ss, i) || s.lo <= i < s.hi
    {
      if Covered(ss, i) {
        var n :| 0 <= n < |ss| && ss[n].lo <= i < ss[n].hi;
        assert (ss + [s])[n] == ss[n];
      }
      assert (ss + [s])[|ss|] == s;
    }
  }

  lemma {:induction false} CoveredFirst(ss: seq<Span>, s: Span)
    ensures forall i: nat :: Covered([s] + ss, i) <==> Covered(ss, i) || s.lo <= i < s.hi
  {
    forall i: nat
      ensures Covered([s] + ss, i) <==> Covered(ss, i) || s.lo <= i < s.hi
    {
      if Covered(ss, i) {
        var n :| 0 <= n < |ss| && ss[n].lo <= i < ss[n].hi;
        assert ([s] + ss)[n + 1] == ss[n];
      }
      assert ([s] + ss)[0] == s;
    }
  }

  lemma {:induction false} NothingFollows(level: seq<Table>)
    ensures Within([], |level|) && Concat(Slices(level, [])) == [] && forall x: nat :: !Covered([], x)
  {
  }

  /** When exactly the tables from `f` on can be picked, the merges take them in order, without a gap. */
  lemma {:induction false} SpansFollow(level: seq<Table>, p: seq<Progress>, f: nat, i: nat, min: nat, max: nat)
    returns (end: nat)
    requires |p| == |level| && 0 < min <= max && f <= i <= |p|
    requires forall x :: 0 <= x < |p| ==> (p[x] == Pickable <==> f <= x)
    ensures i <= end <= |level| && Within(Spans(p, i, min, max), |level|)
    ensures Concat(Slices(level, Spans(p, i, min, max))) == level[i..end]
    ensures forall x: nat :: Covered(Spans(p, i, min, max), x) <==> i <= x < end
    decreases |p| - i
  {
    hide Concat, Slices, Covered;
    NothingFollows(level);
    assert level[i..i] == [];
    end := i;
    if i < |p| {
      var e := RunEnd(p, i, i + 1, max);
      var rest := Spans(p, e, min, max);
      var end2 := SpansFollow(level, p, f, e, min, max);
      if e - i >= min {
        end := end2;
        SlicesFirst(level, Span(i, e), rest);
        CoveredFirst(rest, Span(i, e));
        assert level[i..end] == level[i..e] + level[e..end];
      } else {
        assert e == |p| && rest == [];
      }
    }
  }

  /** The tables that cannot be picked come first, and are skipped. */
  lemma {:induction false} SpansSkip(p: seq<Progress>, i: nat, f: nat, min: nat, max: nat)
    requires i <= f <= |p| && max > 0
    requires forall x :: i <= x < f ==> p[x] != Pickable
    ensures Spans(p, i, min, max) == Spans(p, f, min, max)
    decreases f - i
  {
    if i < f {
      SpansSkip(p, i + 1, f, min, max);
    }
  }

  /** The candidates `start..it` are the beginning of the run that starts at `start`. */
  ghost predicate Candidates(p: seq<Progress>, start: nat, it: nat, max: nat) {
    && start < it <= |p| && it - start <= max
    && (forall j :: start <= j < it ==> p[j] == Pickable)
  }

  /** What a finished run of candidates contributes to the spans `ss` found so far. */
  lemma {:induction false} RunDone(p: seq<Progress>, ss: seq<Span>, start: nat, e: nat, min: nat, max: nat)
    requires Candidates(p, start, e, max)
    requires e == |p| || p[e] != Pickable || e - start == max
    ensures ss + (if e - start >= min then [Span(start, e)] else []) + Spans(p, e, min, max) == ss + Spans(p, start, min, max)
  {
  }

  /** A last table on its own is no bucket. */
  lemma {:induction false} LastAlone(p: seq<Progress>, min: nat, max: nat)
    requires p != [] && min >= 2 && max > 0
    ensures Spans(p, |p| - 1, min, max) == [] && Spans(p, |p|, min, max) == []
  {
  }

  /** When enough tables can be picked, the first bucket starts with the oldest of them. */
  lemma {:induction false} FirstBucket(p: seq<Progress>, f: nat, min: nat, max: nat)
    requires f <= |p| && 0 < min <= max
    requires forall x :: 0 <= x < |p| ==> (p[x] == Pickable <==> f <= x)
    ensures |p| - f >= min ==> Spans(p, 0, min, max) != [] && Spans(p, 0, min, max)[0].lo == f
  {
    SpansSkip(p, 0, f, min, max);
  }
}
