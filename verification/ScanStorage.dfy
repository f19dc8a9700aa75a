/** The sources of a scan as they are stored, pages of tables and slices of memtables, and why the merge may
    read a part of them instead of the whole. */
module ScanStorage {
  import opened Bytes
  import opened Versions
  import opened Block
  import opened BlockReader
  import opened MetaIndex
  import opened Table
  import opened TableLookup
  import opened Memtable
  import Merge
  import RangeScan
  import opened ScanSources

  /** A stored pair as the merge sees it: keys by rank, values by their type byte. */
  function Ranked(p: Pair, decode: Bytes -> Value): Merge.KV
    requires |p.key| <= MAX_KEY
  {
    Merge.KV(Rank(p.key, MAX_KEY), decode(p.value))
  }

  ghost predicate ShortKeys(ps: seq<Pair>) {
    forall i :: 0 <= i < |ps| ==> |ps[i].key| <= MAX_KEY
  }

  function RankedAll(ps: seq<Pair>, decode: Bytes -> Value): (s: seq<Merge.KV>)
    requires ShortKeys(ps)
    ensures |s| == |ps| && forall i :: 0 <= i < |ps| ==> s[i] == Ranked(ps[i], decode)
  {
    if ps == [] then [] else RankedAll(ps[..|ps| - 1], decode) + [Ranked(ps[|ps| - 1], decode)]
  }

  predicate ShortBound(b: Option<Bytes>) {
    b.Some? ==> |b.value| <= MAX_KEY
  }

  function RankedBound(b: Option<Bytes>): Option<Key>
    requires ShortBound(b)
  {
    if b.Some? then Some(Rank(b.value, MAX_KEY)) else None
  }

  lemma {:induction false} RankedSorted(ps: seq<Pair>, decode: Bytes -> Value)
    requires ShortKeys(ps) && BlockReader.Sorted(ps)
    ensures Merge.Sorted(RankedAll(ps, decode))
  {
    hide Less, Rank, RankedAll;
    forall i, j | 0 <= i < j < |ps|
      ensures RankedAll(ps, decode)[i].key < RankedAll(ps, decode)[j].key
    {
      RankIsOrder(ps[i].key, ps[j].key, MAX_KEY);
    }
  }

  lemma {:induction false} RangeByRank(lower: Option<Bytes>, upper: Option<Bytes>, k: Bytes)
    requires |k| <= MAX_KEY && ShortBound(lower) && ShortBound(upper)
    ensures RangeScan.InRange(RankedBound(lower), RankedBound(upper), Rank(k, MAX_KEY)) <==> InRange(lower, upper, k)
  {
    hide Less, Rank;
    if lower.Some? {
      RankIsOrder(k, lower.value, MAX_KEY);
    }
    if upper.Some? {
      RankIsOrder(upper.value, k, MAX_KEY);
    }
  }

  /** `cut` is taken from `full` and misses nothing of the range, in terms of byte keys. */
  ghost predicate CutOf(full: seq<Pair>, cut: seq<Pair>, lower: Option<Bytes>, upper: Option<Bytes>) {
    && BlockReader.Sorted(cut)
    && (forall p :: p in cut ==> p in full)
    && (forall p :: p in full && InRange(lower, upper, p.key) ==> p in cut)
  }

  /** The merge may read the cut instead of the whole. */
  lemma {:induction false} CutCovers(full: seq<Pair>, cut: seq<Pair>, lower: Option<Bytes>, upper: Option<Bytes>, decode: Bytes -> Value)
    requires CutOf(full, cut, lower, upper) && ShortKeys(full) && ShortBound(lower) && ShortBound(upper)
    ensures ShortKeys(cut)
    ensures Covers(RankedAll(full, decode), RankedAll(cut, decode), RankedBound(lower), RankedBound(upper))
  {
    hide Less, Rank, RankedAll, RankedBound, InRange, RangeScan.InRange;
    forall i | 0 <= i < |cut|
      ensures |cut[i].key| <= MAX_KEY
    {
      assert cut[i] in full;
    }
    RankedSorted(cut, decode);
    var a, b := RankedAll(full, decode), RankedAll(cut, decode);
    forall kv | kv in b
      ensures kv in a
    {
      var i :| 0 <= i < |b| && b[i] == kv;
      assert cut[i] in full;
      var j :| 0 <= j < |full| && full[j] == cut[i];
      assert a[j] == kv;
    }
    forall kv | kv in a && RangeScan.InRange(RankedBound(lower), RankedBound(upper), kv.key)
      ensures kv in b
    {
      var i :| 0 <= i < |a| && a[i] == kv;
      RangeByRank(lower, upper, full[i].key);
      assert full[i] in cut;
      var j :| 0 <= j < |cut| && cut[j] == full[i];
      assert b[j] == kv;
    }
  }

  lemma {:induction false} PartInside(groups: seq<seq<Pair>>, first: nat, end: nat, p: Pair)
    requires first <= end <= |groups| && p in Flat(groups[first..end])
    ensures p in Flat(groups)
  {
    hide Flat;
    var a, x := InFlat(groups[first..end], p);
    FlatAt(groups, first + a, x);
  }

  lemma {:induction false} InPart(groups: seq<seq<Pair>>, first: nat, end: nat, a: nat, x: nat)
    requires first <= a < end <= |groups| && x < |groups[a]|
    ensures groups[a][x] in Flat(groups[first..end])
  {
    hide Flat;
    assert groups[first..end][a - first] == groups[a];
    FlatAt(groups[first..end], a - first, x);
  }

  lemma {:induction false} RangeInPart(pages: seq<Bytes>, meta: seq<Bytes>, groups: seq<seq<Pair>>, sum: Bytes -> nat,
                    lower: Option<Bytes>, upper: Option<Bytes>, first: nat, end: nat, p: Pair)
    requires TableOf(pages, meta, groups, sum) && BlockReader.Sorted(Flat(groups)) && first <= end <= |groups|
    requires AllBelow(meta, first, lower)
    requires end < |meta| ==> 0 < end && upper.Some? && !Less(meta[end - 1], upper.value)
    requires p in Flat(groups) && InRange(lower, upper, p.key)
    ensures p in Flat(groups[first..end])
  {
    hide Less, Flat, PageOf, BlockReader.Sorted, IsBlock;
    var a, x := InFlat(groups, p);
    PageInRange(pages, meta, groups, sum, lower, upper, first, end, a, x);
    InPart(groups, first, end, a, x);
  }

  /** The pages that `find_range` names hold every pair of the range. */
  lemma {:induction false} PagesCover(pages: seq<Bytes>, meta: seq<Bytes>, groups: seq<seq<Pair>>, sum: Bytes -> nat,
                   lower: Option<Bytes>, upper: Option<Bytes>, first: nat, end: nat)
    requires TableOf(pages, meta, groups, sum) && BlockReader.Sorted(Flat(groups)) && first <= end <= |groups|
    requires AllBelow(meta, first, lower)
    requires end < |meta| ==> 0 < end && upper.Some? && !Less(meta[end - 1], upper.value)
    ensures CutOf(Flat(groups), Flat(groups[first..end]), lower, upper)
  {
    hide Less, Flat, BlockReader.Sorted, InRange, TableOf, AllBelow;
    var part := Flat(groups[first..end]);
    SliceSorted(groups, first, end);
    forall p
      ensures p in part ==> p in Flat(groups)
      ensures p in Flat(groups) && InRange(lower, upper, p.key) ==> p in part
    {
      if p in part {
        PartInside(groups, first, end, p);
      }
      if p in Flat(groups) && InRange(lower, upper, p.key) {
        RangeInPart(pages, meta, groups, sum, lower, upper, first, end, p);
      }
    }
  }

  lemma {:induction false} PageInRange(pages: seq<Bytes>, meta: seq<Bytes>, groups: seq<seq<Pair>>, sum: Bytes -> nat,
                    lower: Option<Bytes>, upper: Option<Bytes>, first: nat, end: nat, a: nat, x: nat)
    requires TableOf(pages, meta, groups, sum) && BlockReader.Sorted(Flat(groups)) && first <= end <= |groups|
    requires AllBelow(meta, first, lower)
    requires end < |meta| ==> 0 < end && upper.Some? && !Less(meta[end - 1], upper.value)
    requires a < |groups| && x < |groups[a]| && InRange(lower, upper, groups[a][x].key)
    ensures first <= a < end
  {
    hide Less, Flat, IsBlock, BlockReader.Sorted;
    var key := groups[a][x].key;
    assert PageOf(pages[a], groups[a], meta[a], sum);
    if a < first {
      if x < |groups[a]| - 1 {
        GroupsSorted(groups, a, x, a, |groups[a]| - 1);
        LessTransitive(key, meta[a], lower.value);
      }
    } else if end <= a {
      assert PageOf(pages[end - 1], groups[end - 1], meta[end - 1], sum);
      GroupsSorted(groups, end - 1, |groups[end - 1]| - 1, a, x);
      BoundsCross(meta[end - 1], key, upper.value);
    }
  }

  lemma {:induction false} SliceSorted(groups: seq<seq<Pair>>, first: nat, end: nat)
    requires BlockReader.Sorted(Flat(groups)) && first <= end <= |groups|
    ensures BlockReader.Sorted(Flat(groups[first..end]))
  {
    hide Less, Flat;
    var part := groups[first..end];
    forall i, j | 0 <= i < j < |Flat(part)|
      ensures Less(Flat(part)[i].key, Flat(part)[j].key)
    {
      FlatSlice(groups, first, end, i);
      FlatSlice(groups, first, end, j);
    }
  }

  lemma {:induction false} FlatSlice(groups: seq<seq<Pair>>, first: nat, end: nat, i: nat)
    requires first <= end <= |groups| && i < |Flat(groups[first..end])|
    ensures Start(groups, first) + i < |Flat(groups)| && Flat(groups)[Start(groups, first) + i] == Flat(groups[first..end])[i]
    decreases end
  {
    var part := groups[first..end];
    var n := |part| - 1;
    assert part[..n] == groups[first..end - 1] && part[n] == groups[end - 1];
    if i < |Flat(part[..n])| {
      FlatSlice(groups, first, end - 1, i);
    } else {
      FlatAt(groups, end - 1, i - |Flat(part[..n])|);
      StartOfSlice(groups, first, end - 1);
    }
  }

  lemma {:induction false} StartOfSlice(groups: seq<seq<Pair>>, first: nat, end: nat)
    requires first <= end <= |groups|
    ensures Start(groups, end) == Start(groups, first) + |Flat(groups[first..end])|
  {
    if first < end {
      StartOfSlice(groups, first, end - 1);
      assert groups[..end][..end - 1] == groups[..end - 1];
      assert groups[first..end][..end - 1 - first] == groups[first..end - 1];
    }
  }

  /** What a memtable cursor yields is a cut of the memtable's newest versions. */
  lemma {:induction false} CursorCuts(c: Cursor, lower: Option<Bytes>, upper: Option<Bytes>)
    requires c.Valid() && c.IsEof() && Ordered(c.vs) && c.start == First(c.vs, lower) && c.end == End(c.vs, upper)
    ensures CutOf(Distinct(c.vs), c.popped, lower, upper)
  {
    hide Less, Distinct, Newest, InRange;
    var slice := c.vs[c.start..c.end];
    assert Ordered(slice);
    DistinctSorted(slice);
    forall p
      ensures p in c.popped ==> p in Distinct(c.vs)
      ensures p in Distinct(c.vs) && InRange(lower, upper, p.key) ==> p in c.popped
    {
      c.AllPopped(lower, upper, p);
      DistinctIsNewest(c.vs, p);
    }
  }
}
