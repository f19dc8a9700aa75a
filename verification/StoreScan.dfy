/** A whole scan over files of pages and memtables, in byte keys. */
module StoreScan {
  import opened Bytes
  import opened Versions
  import opened Block
  import opened BlockReader
  import opened MetaIndex
  import opened Table
  import opened TableLookup
  import opened TableReader
  import opened M = Memtable
  import Merge
  import RangeScan
  import opened ScanSources
  import opened ScanStorage

  datatype File = File(pages: seq<Bytes>, meta: seq<Bytes>, super: Option<seq<Bytes>>, epoch: nat)

  datatype Mem = Mem(vs: seq<Version>, epoch: nat)

  /** What a file or a memtable holds, and its age. */
  datatype Source = Source(pairs: seq<Pair>, epoch: nat)

  datatype Item = Item(key: Bytes, value: Value)

  /** A file whose pages hold `groups` in key order. */
  ghost predicate GoodFile(t: File, groups: seq<seq<Pair>>, sum: Bytes -> nat) {
    && Legible(t.pages, t.meta, groups, sum) && BlockReader.Sorted(Flat(groups))
    && (t.super.Some? ==> IsSuper(t.meta, t.super.value))
  }

  predicate Reversed(lower: Option<Bytes>, upper: Option<Bytes>) {
    lower.Some? && upper.Some? && Less(upper.value, lower.value)
  }

  lemma {:induction false} NothingInside(lower: Option<Bytes>, upper: Option<Bytes>, k: Bytes)
    requires Reversed(lower, upper)
    ensures !InRange(lower, upper, k)
  {
    hide Less;
    LessTotal(k, lower.value);
    if !Less(k, lower.value) && Less(lower.value, k) {
      LessTransitive(upper.value, lower.value, k);
    }
  }

  lemma {:induction false} LegiblePart(pages: seq<Bytes>, meta: seq<Bytes>, groups: seq<seq<Pair>>, sum: Bytes -> nat, first: nat, end: nat)
    requires Legible(pages, meta, groups, sum) && first <= end <= |groups|
    ensures |pages| == |meta| == |groups| && Legible(pages[first..end], meta[first..end], groups[first..end], sum)
    ensures Flat(groups[first..end]) == [] <==> first == end
  {
    hide AllClean, PageOf;
    var part := groups[first..end];
    if first < end {
      var n := |part| - 1;
      assert PageOf(pages[end - 1], groups[end - 1], meta[end - 1], sum) && part[n] == groups[end - 1];
      PageHolds(pages[end - 1], groups[end - 1], meta[end - 1], sum);
    }
  }

  lemma {:induction false} PageHolds(page: Bytes, ps: seq<Pair>, last: Bytes, sum: Bytes -> nat)
    requires PageOf(page, ps, last, sum)
    ensures ps != [] && ShortKeys(ps)
  {
    hide Chunked, Laid, Sealed;
    var chunks :| IsBlock(page, ps, chunks, GROUP, sum);
  }

  lemma {:induction false} ReversedCut(full: seq<Pair>, lower: Option<Bytes>, upper: Option<Bytes>)
    requires Reversed(lower, upper)
    ensures CutOf(full, [], lower, upper)
  {
    hide Less, InRange, Reversed;
    forall p | p in full && InRange(lower, upper, p.key)
      ensures false
    {
      NothingInside(lower, upper, p.key);
    }
  }

  lemma {:induction false} AllBelowCut(t: File, groups: seq<seq<Pair>>, sum: Bytes -> nat, lower: Option<Bytes>, upper: Option<Bytes>)
    requires GoodFile(t, groups, sum) && !Reached(t.meta, lower)
    ensures CutOf(Flat(groups), [], lower, upper)
  {
    hide Less, BlockReader.Sorted, CutOf, PageOf;
    var n := |groups|;
    PagesCover(t.pages, t.meta, groups, sum, lower, upper, n, n);
    assert groups[n..n] == [];
  }

  /** Read the pages of a file that `find_range` names; a file without any is not opened. */
  method CutFile(t: File, ghost groups: seq<seq<Pair>>, ghost sum: Bytes -> nat, lower: Option<Bytes>, upper: Option<Bytes>)
    returns (open: bool, cut: seq<Pair>)
    requires GoodFile(t, groups, sum)
    ensures open <==> Reached(t.meta, lower)
    ensures CutOf(Flat(groups), cut, lower, upper)
    ensures cut != [] <==> exists i :: Reads(t.meta, i, lower, upper)
  {
    hide Less, Flat, BlockReader.Sorted, IsSuper, Reached, Reads, AllBelow, CutOf, PageOf, AllClean, InRange;
    MetaAscends(t.pages, t.meta, groups, sum);
    var range := FindRange(t.meta, t.super, lower, upper);
    if range.None? {
      AllBelowCut(t, groups, sum, lower, upper);
      return false, [];
    }
    var first, end := range.value.0, range.value.1;
    if end < first {
      ReversedCut(Flat(groups), lower, upper);
      return true, [];
    }
    LegiblePart(t.pages, t.meta, groups, sum, first, end);
    cut := ReadTable(t.pages[first..end], t.meta[first..end], groups[first..end], sum);
    PagesCover(t.pages, t.meta, groups, sum, lower, upper, first, end);
    if first < end {
      assert Reads(t.meta, first, lower, upper);
    }
    return true, cut;
  }

  /** The keys of a memtable's versions. */
  function Keys(vs: seq<Version>): (ks: seq<Bytes>)
    ensures |ks| == |vs| && forall i :: 0 <= i < |vs| ==> ks[i] == vs[i].key
  {
    seq(|vs|, i requires 0 <= i < |vs| => vs[i].key)
  }

  lemma {:induction false} SliceRead(vs: seq<Version>, lower: Option<Bytes>, upper: Option<Bytes>, i: int)
    requires Ordered(vs)
    ensures Reads(Keys(vs), i, lower, upper) <==> First(vs, lower) <= i < End(vs, upper)
  {
    hide Less, M.LowerBound, Ordered, Keys;
    if 0 <= i < |vs| {
      if lower.Some? && First(vs, lower) <= i {
        NotBelow(vs, lower.value, i);
      }
      if upper.Some? && i > 0 && M.LowerBound(vs, upper.value) < i {
        NotBelow(vs, upper.value, i - 1);
      }
    }
  }

  /** Take everything out of a cursor. */
  method CutMem(vs: seq<Version>, lower: Option<Bytes>, upper: Option<Bytes>) returns (cut: seq<Pair>)
    requires Ordered(vs) && First(vs, lower) <= End(vs, upper)
    ensures CutOf(Distinct(vs), cut, lower, upper)
    ensures cut != [] <==> exists i :: Reads(Keys(vs), i, lower, upper)
  {
    hide Distinct, Reads, CutOf, Ordered, Keys, First, End;
    var c := new Cursor(vs, lower, upper);
    cut := [];
    while !c.IsEof()
      invariant c.Valid() && fresh(c) && cut == c.popped
      invariant cut != [] <==> c.start < c.it
      decreases c.end - c.it
    {
      cut := cut + [c.Front()];
      c.PopFront();
    }
    CursorCuts(c, lower, upper);
    if cut != [] {
      SliceRead(vs, lower, upper, c.start);
    }
    forall i | Reads(Keys(vs), i, lower, upper)
      ensures cut != []
    {
      SliceRead(vs, lower, upper, i);
    }
  }

  /** The merge reads `src` for what the sources in `whole` hold. */
  ghost predicate ReadFor(src: seq<seq<Merge.KV>>, epochs: seq<nat>, whole: seq<Source>, lower: Option<Bytes>, upper: Option<Bytes>, decode: Bytes -> Value) {
    && |src| == |epochs| == |whole| && ShortBound(lower) && ShortBound(upper)
    && (forall x :: 0 <= x < |src| ==> epochs[x] == whole[x].epoch && ShortKeys(whole[x].pairs))
    && (forall x :: 0 <= x < |src| ==> Covers(RankedAll(whole[x].pairs, decode), src[x], RankedBound(lower), RankedBound(upper)))
    && forall x, y :: 0 <= x < y < |src| ==> epochs[x] != epochs[y]
  }

  lemma {:induction false} ReadMore(src: seq<seq<Merge.KV>>, epochs: seq<nat>, whole: seq<Source>, lower: Option<Bytes>, upper: Option<Bytes>,
                                    decode: Bytes -> Value, s: Source, cut: seq<Pair>)
    requires ReadFor(src, epochs, whole, lower, upper, decode) && ShortKeys(s.pairs) && CutOf(s.pairs, cut, lower, upper)
    requires forall x :: 0 <= x < |whole| ==> whole[x].epoch != s.epoch
    ensures ShortKeys(cut) && ReadFor(src + [RankedAll(cut, decode)], epochs + [s.epoch], whole + [s], lower, upper, decode)
  {
    hide RankedAll, RankedBound, CutOf, Covers, ShortKeys;
    CutCovers(s.pairs, cut, lower, upper, decode);
  }

  function FileSource(files: seq<File>, groups: seq<seq<seq<Pair>>>, i: nat): Source
    requires i < |files| == |groups|
  {
    Source(Flat(groups[i]), files[i].epoch)
  }

  function MemSource(m: Mem): Source {
    Source(Distinct(m.vs), m.epoch)
  }

  ghost predicate GoodFiles(files: seq<File>, groups: seq<seq<seq<Pair>>>, sum: Bytes -> nat) {
    && |files| == |groups|
    && (forall i :: 0 <= i < |files| ==> GoodFile(files[i], groups[i], sum))
    && forall i, j :: 0 <= i < j < |files| ==> files[i].epoch != files[j].epoch
  }

  /** The cursor can be built and walked. */
  ghost predicate GoodMem(m: Mem, lower: Option<Bytes>, upper: Option<Bytes>) {
    && Ordered(m.vs) && First(m.vs, lower) <= End(m.vs, upper)
    && forall i :: 0 <= i < |m.vs| ==> |m.vs[i].key| <= MAX_KEY
  }

  ghost predicate GoodMems(mems: seq<Mem>, lower: Option<Bytes>, upper: Option<Bytes>) {
    && (forall j :: 0 <= j < |mems| ==> GoodMem(mems[j], lower, upper))
    && forall i, j :: 0 <= i < j < |mems| ==> mems[i].epoch != mems[j].epoch
  }

  lemma {:induction false} FileShort(t: File, groups: seq<seq<Pair>>, sum: Bytes -> nat)
    requires GoodFile(t, groups, sum)
    ensures ShortKeys(Flat(groups))
  {
    hide BlockReader.Sorted, Flat, PageOf;
    forall x | 0 <= x < |Flat(groups)|
      ensures |Flat(groups)[x].key| <= MAX_KEY
    {
      var a, y := InFlat(groups, Flat(groups)[x]);
      PageHolds(t.pages[a], groups[a], t.meta[a], sum);
    }
  }

  lemma {:induction false} MemShort(m: Mem, lower: Option<Bytes>, upper: Option<Bytes>)
    requires GoodMem(m, lower, upper)
    ensures ShortKeys(Distinct(m.vs))
  {
    hide Distinct, Ordered, First, End;
    forall x | 0 <= x < |Distinct(m.vs)|
      ensures |Distinct(m.vs)[x].key| <= MAX_KEY
    {
      DistinctFrom(m.vs, Distinct(m.vs)[x]);
    }
  }

  /** The scan opens the file with this epoch. */
  ghost predicate OpensFile(files: seq<File>, lower: Option<Bytes>, epoch: nat) {
    exists i :: 0 <= i < |files| && files[i].epoch == epoch && Reached(files[i].meta, lower)
  }

  /** A scan opens the files with pages to read. */
  ghost predicate FileOpened(files: seq<File>, groups: seq<seq<seq<Pair>>>, lower: Option<Bytes>, n: nat, s: Source)
    requires n <= |files| == |groups|
  {
    exists i :: 0 <= i < n && Reached(files[i].meta, lower) && s == FileSource(files, groups, i)
  }

  ghost predicate MemOpened(files: seq<File>, mems: seq<Mem>, lower: Option<Bytes>, n: nat, s: Source)
    requires n <= |mems|
  {
    exists j :: 0 <= j < n && !OpensFile(files, lower, mems[j].epoch) && s == MemSource(mems[j])
  }

  ghost predicate ReadsAny(keys: seq<Bytes>, lower: Option<Bytes>, upper: Option<Bytes>) {
    exists i :: Reads(keys, i, lower, upper)
  }

  ghost predicate NoFileRead(files: seq<File>, n: nat, lower: Option<Bytes>, upper: Option<Bytes>)
    requires n <= |files|
  {
    forall i :: 0 <= i < n ==> !ReadsAny(files[i].meta, lower, upper)
  }

  ghost predicate NoMemRead(files: seq<File>, mems: seq<Mem>, n: nat, lower: Option<Bytes>, upper: Option<Bytes>)
    requires n <= |mems|
  {
    forall j :: 0 <= j < n && !OpensFile(files, lower, mems[j].epoch) ==> !ReadsAny(Keys(mems[j].vs), lower, upper)
  }

  lemma {:induction false} EmptyMore(src: seq<seq<Merge.KV>>, s: seq<Merge.KV>)
    ensures RangeScan.NoneHasEntries(src + [s]) <==> RangeScan.NoneHasEntries(src) && s == []
  {
    var more := src + [s];
    assert more[|src|] == s && forall i :: 0 <= i < |src| ==> more[i] == src[i];
  }

  lemma {:induction false} NextFile(files: seq<File>, groups: seq<seq<seq<Pair>>>, lower: Option<Bytes>, upper: Option<Bytes>, n: nat, s: Source)
    requires n < |files| == |groups|
    ensures FileOpened(files, groups, lower, n + 1, s) <==>
            FileOpened(files, groups, lower, n, s) || (Reached(files[n].meta, lower) && s == FileSource(files, groups, n))
    ensures NoFileRead(files, n + 1, lower, upper) <==> NoFileRead(files, n, lower, upper) && !ReadsAny(files[n].meta, lower, upper)
  {
  }

  /** Open the files that a scan has to read. */
  method OpenFiles(files: seq<File>, ghost groups: seq<seq<seq<Pair>>>, ghost sum: Bytes -> nat, decode: Bytes -> Value,
                   lower: Option<Bytes>, upper: Option<Bytes>)
    returns (src: seq<seq<Merge.KV>>, epochs: seq<nat>, ghost whole: seq<Source>)
    requires GoodFiles(files, groups, sum) && ShortBound(lower) && ShortBound(upper)
    ensures ReadFor(src, epochs, whole, lower, upper, decode)
    ensures forall s :: s in whole <==> FileOpened(files, groups, lower, |files|, s)
    ensures RangeScan.NoneHasEntries(src) <==> NoFileRead(files, |files|, lower, upper)
  {
    hide GoodFile, ReadFor, Flat, CutOf, RankedAll, Reached, FileOpened, RangeScan.NoneHasEntries, NoFileRead, ShortKeys;
    src, epochs, whole := [], [], [];
    OpenNothing(files, groups, lower, upper, decode);
    for i := 0 to |files|
      invariant ReadFor(src, epochs, whole, lower, upper, decode)
      invariant forall s :: s in whole <==> FileOpened(files, groups, lower, i, s)
      invariant RangeScan.NoneHasEntries(src) <==> NoFileRead(files, i, lower, upper)
    {
      var open, cut := CutFile(files[i], groups[i], sum, lower, upper);
      ghost var s := FileSource(files, groups, i);
      FileShort(files[i], groups[i], sum);
      forall s2
        ensures FileOpened(files, groups, lower, i + 1, s2) <==>
                FileOpened(files, groups, lower, i, s2) || (Reached(files[i].meta, lower) && s2 == s)
      {
        NextFile(files, groups, lower, upper, i, s2);
      }
      NextFile(files, groups, lower, upper, i, s);
      if open {
        NewEpoch(files, groups, sum, lower, i, whole);
        ReadMore(src, epochs, whole, lower, upper, decode, s, cut);
        EmptyMore(src, RankedAll(cut, decode));
        src, epochs, whole := src + [RankedAll(cut, decode)], epochs + [files[i].epoch], whole + [s];
      } else {
        NotReached(files[i].meta, lower, upper);
      }
    }
  }

  lemma {:induction false} NotReached(keys: seq<Bytes>, lower: Option<Bytes>, upper: Option<Bytes>)
    requires !Reached(keys, lower)
    ensures !ReadsAny(keys, lower, upper)
  {
    hide Less;
  }

  lemma {:induction false} OpenNothing(files: seq<File>, groups: seq<seq<seq<Pair>>>, lower: Option<Bytes>, upper: Option<Bytes>, decode: Bytes -> Value)
    requires |files| == |groups| && ShortBound(lower) && ShortBound(upper)
    ensures ReadFor([], [], [], lower, upper, decode) && RangeScan.NoneHasEntries([]) && NoFileRead(files, 0, lower, upper)
    ensures forall s :: !FileOpened(files, groups, lower, 0, s)
  {
  }

  lemma {:induction false} NewEpoch(files: seq<File>, groups: seq<seq<seq<Pair>>>, sum: Bytes -> nat, lower: Option<Bytes>, i: nat, whole: seq<Source>)
    requires GoodFiles(files, groups, sum) && i < |files|
    requires forall s :: s in whole <==> FileOpened(files, groups, lower, i, s)
    ensures forall x :: 0 <= x < |whole| ==> whole[x].epoch != files[i].epoch
  {
    hide GoodFile, Reached;
    forall x | 0 <= x < |whole|
      ensures whole[x].epoch != files[i].epoch
    {
      assert FileOpened(files, groups, lower, i, whole[x]);
    }
  }

  lemma {:induction false} NextMem(files: seq<File>, mems: seq<Mem>, lower: Option<Bytes>, upper: Option<Bytes>, n: nat, s: Source)
    requires n < |mems|
    ensures MemOpened(files, mems, lower, n + 1, s) <==>
            MemOpened(files, mems, lower, n, s) || (!OpensFile(files, lower, mems[n].epoch) && s == MemSource(mems[n]))
    ensures NoMemRead(files, mems, n + 1, lower, upper) <==>
            NoMemRead(files, mems, n, lower, upper)
            && (!OpensFile(files, lower, mems[n].epoch) ==> !ReadsAny(Keys(mems[n].vs), lower, upper))
  {
  }

  /** The files opened, and the first `n` memtables. */
  ghost predicate Opened(files: seq<File>, groups: seq<seq<seq<Pair>>>, mems: seq<Mem>, lower: Option<Bytes>, n: nat, s: Source)
    requires n <= |mems| && |files| == |groups|
  {
    FileOpened(files, groups, lower, |files|, s) || MemOpened(files, mems, lower, n, s)
  }

  lemma {:induction false} NewMem(files: seq<File>, groups: seq<seq<seq<Pair>>>, mems: seq<Mem>, lower: Option<Bytes>, upper: Option<Bytes>, n: nat, s: Source)
    requires n < |mems| && |files| == |groups| && GoodMems(mems, lower, upper) && !OpensFile(files, lower, mems[n].epoch)
    requires Opened(files, groups, mems, lower, n, s)
    ensures s.epoch != mems[n].epoch
  {
    hide GoodMem, Reached;
    if FileOpened(files, groups, lower, |files|, s) {
      assert OpensFile(files, lower, s.epoch);
    } else {
      var j :| 0 <= j < n && s == MemSource(mems[j]);
    }
  }

  /** Open the memtables; one that a file replaces is dropped. */
  method OpenMems(files: seq<File>, ghost groups: seq<seq<seq<Pair>>>, mems: seq<Mem>, decode: Bytes -> Value, lower: Option<Bytes>, upper: Option<Bytes>,
                  src0: seq<seq<Merge.KV>>, epochs0: seq<nat>, ghost whole0: seq<Source>)
    returns (src: seq<seq<Merge.KV>>, epochs: seq<nat>, ghost whole: seq<Source>)
    requires |files| == |groups| && GoodMems(mems, lower, upper) && ReadFor(src0, epochs0, whole0, lower, upper, decode)
    requires forall s :: s in whole0 <==> FileOpened(files, groups, lower, |files|, s)
    ensures ReadFor(src, epochs, whole, lower, upper, decode)
    ensures forall s :: s in whole <==> Opened(files, groups, mems, lower, |mems|, s)
    ensures RangeScan.NoneHasEntries(src) <==> RangeScan.NoneHasEntries(src0) && NoMemRead(files, mems, |mems|, lower, upper)
  {
    hide GoodMem, ReadFor, Flat, Distinct, CutOf, RankedAll, OpensFile, FileOpened, MemOpened, RangeScan.NoneHasEntries, NoMemRead, ShortKeys;
    src, epochs, whole := src0, epochs0, whole0;
    EpochsOpened(files, groups, lower, upper, decode, src0, epochs0, whole0);
    NoMems(files, mems, lower, upper);
    for j := 0 to |mems|
      invariant ReadFor(src, epochs, whole, lower, upper, decode)
      invariant forall s :: s in whole <==> Opened(files, groups, mems, lower, j, s)
      invariant RangeScan.NoneHasEntries(src) <==> RangeScan.NoneHasEntries(src0) && NoMemRead(files, mems, j, lower, upper)
    {
      ghost var s := MemSource(mems[j]);
      forall s2
        ensures MemOpened(files, mems, lower, j + 1, s2) <==>
                MemOpened(files, mems, lower, j, s2) || (!OpensFile(files, lower, mems[j].epoch) && s2 == s)
      {
        NextMem(files, mems, lower, upper, j, s2);
      }
      NextMem(files, mems, lower, upper, j, s);
      if mems[j].epoch !in epochs0 {
        MemShort(mems[j], lower, upper);
        var cut := CutOneMem(mems[j], lower, upper);
        forall x | 0 <= x < |whole|
          ensures whole[x].epoch != s.epoch
        {
          assert whole[x] in whole;
          NewMem(files, groups, mems, lower, upper, j, whole[x]);
        }
        ReadMore(src, epochs, whole, lower, upper, decode, s, cut);
        EmptyMore(src, RankedAll(cut, decode));
        src, epochs, whole := src + [RankedAll(cut, decode)], epochs + [mems[j].epoch], whole + [s];
      }
    }
  }

  method CutOneMem(m: Mem, lower: Option<Bytes>, upper: Option<Bytes>) returns (cut: seq<Pair>)
    requires GoodMem(m, lower, upper)
    ensures CutOf(Distinct(m.vs), cut, lower, upper)
    ensures cut != [] <==> ReadsAny(Keys(m.vs), lower, upper)
  {
    cut := CutMem(m.vs, lower, upper);
  }

  lemma {:induction false} NoMems(files: seq<File>, mems: seq<Mem>, lower: Option<Bytes>, upper: Option<Bytes>)
    ensures NoMemRead(files, mems, 0, lower, upper) && forall s :: !MemOpened(files, mems, lower, 0, s)
  {
  }

  /** The epochs of the opened files, which decide what is dropped. */
  lemma {:induction false} EpochsOpened(files: seq<File>, groups: seq<seq<seq<Pair>>>, lower: Option<Bytes>, upper: Option<Bytes>, decode: Bytes -> Value,
                                        src: seq<seq<Merge.KV>>, epochs: seq<nat>, whole: seq<Source>)
    requires |files| == |groups| && ReadFor(src, epochs, whole, lower, upper, decode)
    requires forall s :: s in whole <==> FileOpened(files, groups, lower, |files|, s)
    ensures forall e :: e in epochs <==> OpensFile(files, lower, e)
  {
    hide Reached, Covers, RankedAll, Flat;
    forall e
      ensures e in epochs <==> OpensFile(files, lower, e)
    {
      if e in epochs {
        var x :| 0 <= x < |epochs| && epochs[x] == e;
        assert whole[x] in whole && FileOpened(files, groups, lower, |files|, whole[x]);
      }
      if OpensFile(files, lower, e) {
        var i :| 0 <= i < |files| && files[i].epoch == e && Reached(files[i].meta, lower);
        assert FileOpened(files, groups, lower, |files|, FileSource(files, groups, i));
        var x :| 0 <= x < |whole| && whole[x] == FileSource(files, groups, i);
        assert epochs[x] == e;
      }
    }
  }

  ghost predicate HasKey(s: Source, k: Bytes) {
    exists x :: 0 <= x < |s.pairs| && s.pairs[x].key == k
  }

  ghost predicate HasItem(s: Source, k: Bytes, v: Value, decode: Bytes -> Value) {
    exists x :: 0 <= x < |s.pairs| && s.pairs[x].key == k && decode(s.pairs[x].value) == v
  }

  /** Source `s` holds `v` for `k`, and no source that holds `k` is newer. */
  ghost predicate NewestFrom(S: set<Source>, s: Source, k: Bytes, v: Value, decode: Bytes -> Value) {
    s in S && HasItem(s, k, v, decode) && forall s2 :: s2 in S && HasKey(s2, k) ==> s2.epoch <= s.epoch
  }

  ghost predicate NewestIn(S: set<Source>, k: Bytes, v: Value, decode: Bytes -> Value) {
    exists s :: NewestFrom(S, s, k, v, decode)
  }

  /** Everything stored: all files, and the memtables that no opened file replaces. */
  ghost function Store(files: seq<File>, groups: seq<seq<seq<Pair>>>, mems: seq<Mem>, lower: Option<Bytes>): set<Source>
    requires |files| == |groups|
  {
    (set i | 0 <= i < |files| :: FileSource(files, groups, i))
    + set j | 0 <= j < |mems| && !OpensFile(files, lower, mems[j].epoch) :: MemSource(mems[j])
  }

  /** Sources without `k` do not matter. */
  lemma {:induction false} OthersIgnored(S: set<Source>, T: set<Source>, k: Bytes, v: Value, decode: Bytes -> Value)
    requires T <= S && forall s :: s in S && s !in T ==> !HasKey(s, k)
    ensures NewestIn(S, k, v, decode) <==> NewestIn(T, k, v, decode)
  {
    if NewestIn(S, k, v, decode) {
      var s :| NewestFrom(S, s, k, v, decode);
      assert HasKey(s, k) && NewestFrom(T, s, k, v, decode);
    }
    if NewestIn(T, k, v, decode) {
      var s :| NewestFrom(T, s, k, v, decode);
      assert NewestFrom(S, s, k, v, decode);
    }
  }

  ghost function AsSet(whole: seq<Source>): set<Source> {
    set s | s in whole
  }

  /** A file that is not opened holds no key of the range. */
  lemma {:induction false} OpenedEnough(files: seq<File>, groups: seq<seq<seq<Pair>>>, sum: Bytes -> nat, mems: seq<Mem>, whole: seq<Source>,
                                        lower: Option<Bytes>, upper: Option<Bytes>, k: Bytes, v: Value, decode: Bytes -> Value)
    requires GoodFiles(files, groups, sum) && InRange(lower, upper, k)
    requires forall s :: s in whole <==> Opened(files, groups, mems, lower, |mems|, s)
    ensures NewestIn(Store(files, groups, mems, lower), k, v, decode) <==> NewestIn(AsSet(whole), k, v, decode)
  {
    hide NewestIn, InRange, Reached, GoodFile, Flat, Distinct, OpensFile;
    var S, T := Store(files, groups, mems, lower), AsSet(whole);
    forall s | s in T
      ensures s in S
    {
      assert Opened(files, groups, mems, lower, |mems|, s);
    }
    forall s | s in S && s !in T
      ensures !HasKey(s, k)
    {
      assert !Opened(files, groups, mems, lower, |mems|, s);
      var i :| 0 <= i < |files| && s == FileSource(files, groups, i);
      SkippedFile(files[i], groups[i], sum, lower, upper, k);
    }
    OthersIgnored(S, T, k, v, decode);
  }

  lemma {:induction false} SkippedFile(t: File, groups: seq<seq<Pair>>, sum: Bytes -> nat, lower: Option<Bytes>, upper: Option<Bytes>, k: Bytes)
    requires GoodFile(t, groups, sum) && !Reached(t.meta, lower) && InRange(lower, upper, k)
    ensures !HasKey(Source(Flat(groups), t.epoch), k)
  {
    hide GoodFile, Reached, InRange, Flat;
    AllBelowCut(t, groups, sum, lower, upper);
    var full := Flat(groups);
    forall x | 0 <= x < |full|
      ensures full[x].key != k
    {
      assert full[x] in full;
    }
  }

  /** The whole sources as the merge sees them. */
  function RankedSources(whole: seq<Source>, decode: Bytes -> Value): (src: seq<seq<Merge.KV>>)
    requires forall x :: 0 <= x < |whole| ==> ShortKeys(whole[x].pairs)
    ensures |src| == |whole| && forall x :: 0 <= x < |whole| ==> src[x] == RankedAll(whole[x].pairs, decode)
  {
    seq(|whole|, x requires 0 <= x < |whole| => RankedAll(whole[x].pairs, decode))
  }

  /** The newest version in terms of ranks is the newest version in terms of byte keys. */
  lemma {:induction false} NewestByRank(whole: seq<Source>, epochs: seq<nat>, src: seq<seq<Merge.KV>>, decode: Bytes -> Value, k: Bytes, v: Value)
    requires forall x :: 0 <= x < |whole| ==> ShortKeys(whole[x].pairs)
    requires |epochs| == |whole| && forall x :: 0 <= x < |whole| ==> epochs[x] == whole[x].epoch
    requires src == RankedSources(whole, decode) && |k| <= MAX_KEY
    ensures Merge.Newest(src, epochs, Merge.KV(Rank(k, MAX_KEY), v)) <==> NewestIn(AsSet(whole), k, v, decode)
  {
    hide Rank, RankedAll, RankedSources, HasItem, HasKey;
    var S, r := AsSet(whole), Rank(k, MAX_KEY);
    if Merge.Newest(src, epochs, Merge.KV(r, v)) {
      var i, j :| Merge.NewestAt(src, epochs, i, j, r) && src[i][j].value == v;
      ItemAt(whole, src, decode, k, i, j);
      forall s2 | s2 in S && HasKey(s2, k)
        ensures s2.epoch <= whole[i].epoch
      {
        var x, y := KeyAt(whole, src, decode, k, s2);
        assert Merge.Has(src, x, y, r);
      }
      assert NewestFrom(S, whole[i], k, v, decode);
    }
    if NewestIn(S, k, v, decode) {
      var s :| NewestFrom(S, s, k, v, decode);
      var i, j := PlaceOf(whole, src, decode, k, v, s);
      forall i2, j2 | Merge.Has(src, i2, j2, r)
        ensures epochs[i2] <= epochs[i]
      {
        ItemAt(whole, src, decode, k, i2, j2);
        assert whole[i2] in S;
      }
      assert Merge.NewestAt(src, epochs, i, j, r);
    }
  }

  lemma {:induction false} ItemAt(whole: seq<Source>, src: seq<seq<Merge.KV>>, decode: Bytes -> Value, k: Bytes, i: int, j: int)
    requires forall x :: 0 <= x < |whole| ==> ShortKeys(whole[x].pairs)
    requires src == RankedSources(whole, decode) && |k| <= MAX_KEY && Merge.Has(src, i, j, Rank(k, MAX_KEY))
    ensures 0 <= i < |whole| && HasKey(whole[i], k) && HasItem(whole[i], k, src[i][j].value, decode)
  {
    hide Rank, RankedAll, RankedSources;
    var p := whole[i].pairs[j];
    assert src[i][j] == Ranked(p, decode);
    RankIsOrder(p.key, k, MAX_KEY);
  }

  lemma {:induction false} KeyAt(whole: seq<Source>, src: seq<seq<Merge.KV>>, decode: Bytes -> Value, k: Bytes, s: Source) returns (x: nat, y: nat)
    requires forall x :: 0 <= x < |whole| ==> ShortKeys(whole[x].pairs)
    requires src == RankedSources(whole, decode) && |k| <= MAX_KEY && s in whole && HasKey(s, k)
    ensures Merge.Has(src, x, y, Rank(k, MAX_KEY)) && whole[x] == s
  {
    hide Rank, RankedAll, RankedSources;
    x :| x < |whole| && whole[x] == s;
    y :| y < |s.pairs| && s.pairs[y].key == k;
    assert src[x][y] == Ranked(s.pairs[y], decode);
  }

  lemma {:induction false} PlaceOf(whole: seq<Source>, src: seq<seq<Merge.KV>>, decode: Bytes -> Value, k: Bytes, v: Value, s: Source) returns (x: nat, y: nat)
    requires forall x :: 0 <= x < |whole| ==> ShortKeys(whole[x].pairs)
    requires src == RankedSources(whole, decode) && |k| <= MAX_KEY && s in whole && HasItem(s, k, v, decode)
    ensures Merge.Has(src, x, y, Rank(k, MAX_KEY)) && src[x][y].value == v && whole[x] == s
  {
    hide Rank, RankedAll, RankedSources;
    x :| x < |whole| && whole[x] == s;
    y :| y < |s.pairs| && s.pairs[y].key == k && decode(s.pairs[y].value) == v;
    assert src[x][y] == Ranked(s.pairs[y], decode);
  }

  ghost predicate ItemsAscend(out: seq<Item>) {
    forall i, j :: 0 <= i < j < |out| ==> Less(out[i].key, out[j].key)
  }

  /** Ascending, each key once, and exactly the keys of the range whose newest version is not a tombstone. */
  ghost predicate IsAnswer(S: set<Source>, decode: Bytes -> Value, lower: Option<Bytes>, upper: Option<Bytes>, out: seq<Item>) {
    && ItemsAscend(out)
    && forall k, v :: Item(k, v) in out <==> InRange(lower, upper, k) && v.Data? && NewestIn(S, k, v, decode)
  }

  /** Items with their byte keys. */
  function Items(kvs: seq<Merge.KV>): (out: seq<Item>)
    requires forall i :: 0 <= i < |kvs| ==> kvs[i].key >= 0
    ensures |out| == |kvs| && forall i :: 0 <= i < |kvs| ==> out[i] == Item(Unrank(kvs[i].key, MAX_KEY), kvs[i].value)
  {
    seq(|kvs|, i requires 0 <= i < |kvs| => Item(Unrank(kvs[i].key, MAX_KEY), kvs[i].value))
  }

  /** Every item of a scan of ranked sources has the rank of a stored key. */
  lemma {:induction false} KeyOfItem(whole: seq<Source>, epochs: seq<nat>, src: seq<seq<Merge.KV>>, decode: Bytes -> Value, kv: Merge.KV) returns (k: Bytes)
    requires forall x :: 0 <= x < |whole| ==> ShortKeys(whole[x].pairs)
    requires src == RankedSources(whole, decode) && Merge.Newest(src, epochs, kv)
    ensures |k| <= MAX_KEY && kv.key == Rank(k, MAX_KEY) && Unrank(kv.key, MAX_KEY) == k
  {
    hide Rank, Unrank, RankedAll, RankedSources;
    var i, j :| Merge.NewestAt(src, epochs, i, j, kv.key) && src[i][j].value == kv.value;
    assert src[i][j] == Ranked(whole[i].pairs[j], decode);
    k := whole[i].pairs[j].key;
    UnrankBack(k, MAX_KEY);
  }

  lemma {:induction false} ItemsSorted(whole: seq<Source>, epochs: seq<nat>, src: seq<seq<Merge.KV>>, decode: Bytes -> Value,
                                       lower: Option<Key>, upper: Option<Key>, kvs: seq<Merge.KV>)
    requires forall x :: 0 <= x < |whole| ==> ShortKeys(whole[x].pairs)
    requires src == RankedSources(whole, decode) && RangeScan.IsScan(src, epochs, lower, upper, kvs)
    ensures (forall i :: 0 <= i < |kvs| ==> kvs[i].key >= 0) && ItemsAscend(Items(kvs))
  {
    hide Rank, Unrank, RankedAll, RankedSources, Less, Merge.Newest;
    forall i | 0 <= i < |kvs|
      ensures kvs[i].key >= 0
    {
      var _ := KeyOfItem(whole, epochs, src, decode, kvs[i]);
    }
    forall i, j | 0 <= i < j < |kvs|
      ensures Less(Items(kvs)[i].key, Items(kvs)[j].key)
    {
      var a := KeyOfItem(whole, epochs, src, decode, kvs[i]);
      var b := KeyOfItem(whole, epochs, src, decode, kvs[j]);
      RankIsOrder(a, b, MAX_KEY);
    }
  }

  /** A scan by ranks, read back in byte keys. */
  lemma {:induction false} ItemIff(whole: seq<Source>, epochs: seq<nat>, src: seq<seq<Merge.KV>>, decode: Bytes -> Value,
                                   lower: Option<Bytes>, upper: Option<Bytes>, kvs: seq<Merge.KV>, k: Bytes, v: Value)
    requires forall x :: 0 <= x < |whole| ==> ShortKeys(whole[x].pairs)
    requires |epochs| == |whole| && forall x :: 0 <= x < |whole| ==> epochs[x] == whole[x].epoch
    requires ShortBound(lower) && ShortBound(upper) && src == RankedSources(whole, decode)
    requires RangeScan.IsScan(src, epochs, RankedBound(lower), RankedBound(upper), kvs)
    requires forall i :: 0 <= i < |kvs| ==> kvs[i].key >= 0
    ensures Item(k, v) in Items(kvs) <==> InRange(lower, upper, k) && v.Data? && NewestIn(AsSet(whole), k, v, decode)
  {
    hide Rank, Unrank, RankedAll, RankedSources, Items, InRange, RangeScan.InRange, Merge.Newest, NewestIn, RankedBound;
    var out, S := Items(kvs), AsSet(whole);
    if Item(k, v) in out {
      var i :| 0 <= i < |out| && out[i] == Item(k, v);
      assert kvs[i] in kvs;
      var k2 := KeyOfItem(whole, epochs, src, decode, kvs[i]);
      RangeByRank(lower, upper, k);
      NewestByRank(whole, epochs, src, decode, k, v);
    }
    if InRange(lower, upper, k) && v.Data? && NewestIn(S, k, v, decode) {
      StoredShort(whole, k, v, decode);
      var kv := Merge.KV(Rank(k, MAX_KEY), v);
      RangeByRank(lower, upper, k);
      NewestByRank(whole, epochs, src, decode, k, v);
      assert kv in kvs;
      var i :| 0 <= i < |kvs| && kvs[i] == kv;
      UnrankBack(k, MAX_KEY);
      assert out[i] == Item(k, v);
    }
  }

  lemma {:induction false} StoredShort(whole: seq<Source>, k: Bytes, v: Value, decode: Bytes -> Value)
    requires forall x :: 0 <= x < |whole| ==> ShortKeys(whole[x].pairs)
    requires NewestIn(AsSet(whole), k, v, decode)
    ensures |k| <= MAX_KEY
  {
    var s :| NewestFrom(AsSet(whole), s, k, v, decode);
    var x :| 0 <= x < |whole| && whole[x] == s;
  }

  /** The scan of the opened sources answers for everything stored. */
  lemma {:induction false} AnswerIs(files: seq<File>, groups: seq<seq<seq<Pair>>>, sum: Bytes -> nat, mems: seq<Mem>, decode: Bytes -> Value,
                                    lower: Option<Bytes>, upper: Option<Bytes>, src: seq<seq<Merge.KV>>, epochs: seq<nat>, whole: seq<Source>, kvs: seq<Merge.KV>)
    requires GoodFiles(files, groups, sum) && ReadFor(src, epochs, whole, lower, upper, decode)
    requires forall s :: s in whole <==> Opened(files, groups, mems, lower, |mems|, s)
    requires RangeScan.IsScan(src, epochs, RankedBound(lower), RankedBound(upper), kvs)
    ensures forall i :: 0 <= i < |kvs| ==> kvs[i].key >= 0
    ensures IsAnswer(Store(files, groups, mems, lower), decode, lower, upper, Items(kvs))
  {
    assert |files| == |groups|;
    hide GoodFiles, RankedAll, RankedBound, RangeScan.IsScan, Opened, Covers, ItemsAscend, NewestIn, InRange, Items, Store;
    var full := RankedSources(whole, decode);
    ScanOfCut(full, src, epochs, RankedBound(lower), RankedBound(upper), kvs);
    ItemsSorted(whole, epochs, full, decode, RankedBound(lower), RankedBound(upper), kvs);
    forall k, v
      ensures Item(k, v) in Items(kvs) <==> InRange(lower, upper, k) && v.Data? && NewestIn(Store(files, groups, mems, lower), k, v, decode)
    {
      ItemIff(whole, epochs, full, decode, lower, upper, kvs, k, v);
      if InRange(lower, upper, k) {
        OpenedEnough(files, groups, sum, mems, whole, lower, upper, k, v, decode);
      }
    }
  }

  /**
   * A scan, from opening the sources to the last item: exactly the stored keys of the range whose
   * newest version is not a tombstone.  It throws exactly when nothing at all is read.
   */
  method ScanStore(files: seq<File>, ghost groups: seq<seq<seq<Pair>>>, ghost sum: Bytes -> nat, mems: seq<Mem>, decode: Bytes -> Value,
                   lower: Option<Bytes>, upper: Option<Bytes>) returns (thrown: bool, out: seq<Item>)
    requires GoodFiles(files, groups, sum) && GoodMems(mems, lower, upper) && ShortBound(lower) && ShortBound(upper)
    ensures thrown <==> NoFileRead(files, |files|, lower, upper) && NoMemRead(files, mems, |mems|, lower, upper)
    ensures !thrown ==> IsAnswer(Store(files, groups, mems, lower), decode, lower, upper, out)
  {
    hide GoodFile, GoodMems, ReadFor, Opened, FileOpened, RankedBound, RangeScan.IsScan, RangeScan.NoneHasEntries, NoFileRead, NoMemRead,
         IsAnswer, Items, Store, Merge.Sources;
    var src, epochs; ghost var whole;
    src, epochs, whole := OpenFiles(files, groups, sum, decode, lower, upper);
    src, epochs, whole := OpenMems(files, groups, mems, decode, lower, upper, src, epochs, whole);
    ReadsSources(src, epochs, whole, lower, upper, decode);
    var kvs;
    thrown, kvs := Scan(src, epochs, RankedBound(lower), RankedBound(upper));
    if thrown {
      return true, [];
    }
    AnswerIs(files, groups, sum, mems, decode, lower, upper, src, epochs, whole, kvs);
    return false, Items(kvs);
  }

  lemma {:induction false} ReadsSources(src: seq<seq<Merge.KV>>, epochs: seq<nat>, whole: seq<Source>, lower: Option<Bytes>, upper: Option<Bytes>, decode: Bytes -> Value)
    requires ReadFor(src, epochs, whole, lower, upper, decode)
    ensures Merge.Sources(src, epochs)
  {
    hide RankedAll;
  }

  predicate Under(k: Bytes, lower: Option<Bytes>) {
    lower.Some? && Less(k, lower.value)
  }

  /** Every key of the source is below the lower bound. */
  ghost predicate Below(s: Source, lower: Option<Bytes>) {
    forall x :: 0 <= x < |s.pairs| ==> Under(s.pairs[x].key, lower)
  }

  lemma {:induction false} LastKeyIn(t: File, groups: seq<seq<Pair>>, sum: Bytes -> nat, i: nat) returns (x: nat)
    requires GoodFile(t, groups, sum) && i < |t.meta|
    ensures x < |Flat(groups)| && Flat(groups)[x].key == t.meta[i]
  {
    hide Flat, BlockReader.Sorted, AllClean, IsBlock;
    assert PageOf(t.pages[i], groups[i], t.meta[i], sum);
    FlatAt(groups, i, |groups[i]| - 1);
    x := Start(groups, i) + |groups[i]| - 1;
  }

  lemma {:induction false} FileReadIff(t: File, groups: seq<seq<Pair>>, sum: Bytes -> nat, lower: Option<Bytes>, upper: Option<Bytes>)
    requires GoodFile(t, groups, sum) && !Reversed(lower, upper)
    ensures ReadsAny(t.meta, lower, upper) <==> !Below(Source(Flat(groups), t.epoch), lower)
  {
    MetaAscends(t.pages, t.meta, groups, sum);
    NeverFalls(t.meta);
    ReadsSomething(t.meta, lower, upper);
    hide Flat, Less, GoodFile;
    var full := Flat(groups);
    if t.meta != [] && Reached(t.meta, lower) {
      var i := 0;
      if lower.Some? {
        i :| 0 <= i < |t.meta| && !Less(t.meta[i], lower.value);
      }
      var x := LastKeyIn(t, groups, sum, i);
    } else {
      FileBelow(t, groups, sum, lower);
    }
  }

  lemma {:induction false} NeverFalls(keys: seq<Bytes>)
    requires Ascending(keys)
    ensures forall i, j :: 0 <= i < j < |keys| ==> !Less(keys[j], keys[i])
  {
    hide Less;
    forall i, j | 0 <= i < j < |keys|
      ensures !Less(keys[j], keys[i])
    {
      LessTotal(keys[i], keys[j]);
    }
  }

  lemma {:induction false} FileBelow(t: File, groups: seq<seq<Pair>>, sum: Bytes -> nat, lower: Option<Bytes>)
    requires GoodFile(t, groups, sum) && (t.meta == [] || !Reached(t.meta, lower))
    ensures Below(Source(Flat(groups), t.epoch), lower)
  {
    hide Less, BlockReader.Sorted, PageOf, Flat;
    if t.meta == [] {
      LegiblePart(t.pages, t.meta, groups, sum, 0, 0);
      assert groups[0..0] == groups;
    } else {
      AllBelowCut(t, groups, sum, lower, None);
      var full := Flat(groups);
      forall x | 0 <= x < |full|
        ensures Under(full[x].key, lower)
      {
        assert full[x] in full;
      }
    }
  }

  lemma {:induction false} MemReadIff(m: Mem, lower: Option<Bytes>, upper: Option<Bytes>)
    requires GoodMem(m, lower, upper) && !Reversed(lower, upper)
    ensures ReadsAny(Keys(m.vs), lower, upper) <==> !Below(MemSource(m), lower)
  {
    hide Less, Distinct, First, End, Ordered, Keys;
    var vs, ks := m.vs, Keys(m.vs);
    VersionsAscend(vs);
    ReadsSomething(ks, lower, upper);
    assert ReadsAny(ks, lower, upper) <==> ks != [] && Reached(ks, lower);
    if ks != [] && Reached(ks, lower) {
      MemAbove(m, lower);
    } else {
      MemBelow(m, lower);
    }
  }

  lemma {:induction false} MemAbove(m: Mem, lower: Option<Bytes>)
    requires m.vs != [] && Reached(Keys(m.vs), lower)
    ensures !Below(MemSource(m), lower)
  {
    hide Less, Distinct, Keys;
    var i: nat := 0;
    if lower.Some? {
      i :| i < |m.vs| && !Less(Keys(m.vs)[i], lower.value);
    }
    var v := EveryKeyKept(m.vs, i);
    var ps := Distinct(m.vs);
    var x :| 0 <= x < |ps| && ps[x] == Pair(m.vs[i].key, v);
    assert MemSource(m).pairs[x].key == m.vs[i].key;
  }

  lemma {:induction false} MemBelow(m: Mem, lower: Option<Bytes>)
    requires m.vs == [] || !Reached(Keys(m.vs), lower)
    ensures Below(MemSource(m), lower)
  {
    hide Less, Distinct, Keys;
    var s := MemSource(m);
    forall x | 0 <= x < |s.pairs|
      ensures Under(s.pairs[x].key, lower)
    {
      assert s.pairs[x] in Distinct(m.vs);
      DistinctFrom(m.vs, s.pairs[x]);
      var j :| 0 <= j < |m.vs| && m.vs[j].key == s.pairs[x].key;
      assert Keys(m.vs)[j] == s.pairs[x].key;
    }
  }

  lemma {:induction false} VersionsAscend(vs: seq<Version>)
    requires Ordered(vs)
    ensures forall i, j :: 0 <= i < j < |vs| ==> !Less(Keys(vs)[j], Keys(vs)[i])
  {
    hide Less, Keys;
    forall i, j | 0 <= i < j < |vs|
      ensures !Less(vs[j].key, vs[i].key)
    {
      assert Before(vs[i], vs[j]);
      LessTotal(vs[i].key, vs[j].key);
      LessIrreflexive(vs[i].key);
    }
  }

  /** When the bounds are not reversed, a scan throws exactly when no source has a key at or above the lower bound. */
  lemma {:induction false} ThrowsIff(files: seq<File>, groups: seq<seq<seq<Pair>>>, sum: Bytes -> nat, mems: seq<Mem>, lower: Option<Bytes>, upper: Option<Bytes>)
    requires GoodFiles(files, groups, sum) && GoodMems(mems, lower, upper) && !Reversed(lower, upper)
    ensures NoFileRead(files, |files|, lower, upper) && NoMemRead(files, mems, |mems|, lower, upper) <==>
            forall s :: s in Store(files, groups, mems, lower) ==> Below(s, lower)
  {
    hide GoodFile, GoodMem, Below, Flat, Distinct, ReadsAny, Reversed, OpensFile, Keys;
    var S := Store(files, groups, mems, lower);
    forall i | 0 <= i < |files|
      ensures FileSource(files, groups, i) in S
      ensures ReadsAny(files[i].meta, lower, upper) <==> !Below(FileSource(files, groups, i), lower)
    {
      FileReadIff(files[i], groups[i], sum, lower, upper);
    }
    forall j | 0 <= j < |mems|
      ensures !OpensFile(files, lower, mems[j].epoch) ==> MemSource(mems[j]) in S
      ensures ReadsAny(Keys(mems[j].vs), lower, upper) <==> !Below(MemSource(mems[j]), lower)
    {
      MemReadIff(mems[j], lower, upper);
    }
  }

  /** A live key that is a bound of the range is returned. */
  lemma {:induction false} BoundsIncluded(S: set<Source>, decode: Bytes -> Value, lower: Option<Bytes>, upper: Option<Bytes>, out: seq<Item>, k: Bytes, v: Value)
    requires IsAnswer(S, decode, lower, upper, out) && !Reversed(lower, upper) && v.Data? && NewestIn(S, k, v, decode)
    ensures lower == Some(k) || upper == Some(k) ==> Item(k, v) in out
  {
    hide Less, NewestIn, InRange;
    InRangeIs(lower, upper, k);
    if lower == Some(k) && upper.Some? {
      LessTotal(k, upper.value);
    }
    if upper == Some(k) && lower.Some? {
      LessTotal(lower.value, k);
    }
  }

  /** Dropping a memtable whose file holds the same pairs loses nothing. */
  lemma {:induction false} DropLosesNothing(files: seq<File>, groups: seq<seq<seq<Pair>>>, mems: seq<Mem>, lower: Option<Bytes>)
    requires |files| == |groups|
    requires forall i, j :: 0 <= i < |files| && 0 <= j < |mems| && files[i].epoch == mems[j].epoch ==> Flat(groups[i]) == Distinct(mems[j].vs)
    ensures Store(files, groups, mems, lower) ==
            (set i | 0 <= i < |files| :: FileSource(files, groups, i)) + set j | 0 <= j < |mems| :: MemSource(mems[j])
  {
    hide Flat, Distinct, Reached;
    var S := Store(files, groups, mems, lower);
    forall j | 0 <= j < |mems|
      ensures MemSource(mems[j]) in S
    {
      if OpensFile(files, lower, mems[j].epoch) {
        var i :| 0 <= i < |files| && files[i].epoch == mems[j].epoch;
        assert FileSource(files, groups, i) == MemSource(mems[j]);
      }
    }
  }
}
