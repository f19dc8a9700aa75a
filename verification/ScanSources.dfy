/** A scan reads a part of its sources and answers for the whole. */
module ScanSources {
  import opened Versions
  import opened Merge
  import opened RangeScan

  /** `cut` is taken from `full` and misses nothing of the range. */
  ghost predicate Covers(full: seq<KV>, cut: seq<KV>, lower: Option<Key>, upper: Option<Key>) {
    && Sorted(cut)
    && (forall kv :: kv in cut ==> kv in full)
    && (forall kv :: kv in full && InRange(lower, upper, kv.key) ==> kv in cut)
  }

  ghost predicate CoversAll(src: seq<seq<KV>>, cut: seq<seq<KV>>, lower: Option<Key>, upper: Option<Key>) {
    |src| == |cut| && forall i :: 0 <= i < |src| ==> Covers(src[i], cut[i], lower, upper)
  }

  lemma {:induction false} FromCut(src: seq<seq<KV>>, cut: seq<seq<KV>>, lower: Option<Key>, upper: Option<Key>, i: int, j: int, k: Key) returns (x: int)
    requires CoversAll(src, cut, lower, upper) && Has(cut, i, j, k)
    ensures Has(src, i, x, k) && src[i][x] == cut[i][j]
  {
    assert Covers(src[i], cut[i], lower, upper) && cut[i][j] in cut[i];
    x :| 0 <= x < |src[i]| && src[i][x] == cut[i][j];
  }

  lemma {:induction false} IntoCut(src: seq<seq<KV>>, cut: seq<seq<KV>>, lower: Option<Key>, upper: Option<Key>, i: int, j: int, k: Key) returns (x: int)
    requires CoversAll(src, cut, lower, upper) && Has(src, i, j, k) && InRange(lower, upper, k)
    ensures Has(cut, i, x, k) && cut[i][x] == src[i][j]
  {
    assert Covers(src[i], cut[i], lower, upper) && src[i][j] in src[i];
    x :| 0 <= x < |cut[i]| && cut[i][x] == src[i][j];
  }

  lemma {:induction false} CutKeepsNewest(src: seq<seq<KV>>, cut: seq<seq<KV>>, epochs: seq<nat>, lower: Option<Key>, upper: Option<Key>, kv: KV)
    requires CoversAll(src, cut, lower, upper) && InRange(lower, upper, kv.key)
    ensures Newest(cut, epochs, kv) <==> Newest(src, epochs, kv)
  {
    hide CoversAll;
    var k := kv.key;
    SameCount(src, cut, lower, upper);
    if Newest(cut, epochs, kv) {
      var i, j :| NewestAt(cut, epochs, i, j, k) && cut[i][j].value == kv.value;
      var x := FromCut(src, cut, lower, upper, i, j, k);
      forall i2, j2 | Has(src, i2, j2, k)
        ensures epochs[i2] <= epochs[i]
      {
        var _ := IntoCut(src, cut, lower, upper, i2, j2, k);
      }
      assert NewestAt(src, epochs, i, x, k);
    }
    if Newest(src, epochs, kv) {
      var i, j :| NewestAt(src, epochs, i, j, k) && src[i][j].value == kv.value;
      var x := IntoCut(src, cut, lower, upper, i, j, k);
      forall i2, j2 | Has(cut, i2, j2, k)
        ensures epochs[i2] <= epochs[i]
      {
        var _ := FromCut(src, cut, lower, upper, i2, j2, k);
      }
      assert NewestAt(cut, epochs, i, x, k);
    }
  }

  lemma {:induction false} SameCount(src: seq<seq<KV>>, cut: seq<seq<KV>>, lower: Option<Key>, upper: Option<Key>)
    requires CoversAll(src, cut, lower, upper)
    ensures |src| == |cut|
  {
  }

  /** The scan of the cut sources is the scan of the sources. */
  lemma {:induction false} ScanOfCut(src: seq<seq<KV>>, cut: seq<seq<KV>>, epochs: seq<nat>, lower: Option<Key>, upper: Option<Key>, out: seq<KV>)
    requires CoversAll(src, cut, lower, upper) && IsScan(cut, epochs, lower, upper, out)
    ensures IsScan(src, epochs, lower, upper, out)
  {
    hide CoversAll, Newest;
    forall kv
      ensures kv in out <==> Newest(src, epochs, kv) && Shows(lower, upper, kv)
    {
      if InRange(lower, upper, kv.key) {
        CutKeepsNewest(src, cut, epochs, lower, upper, kv);
      }
    }
  }

  /** A scan shows exactly what point lookups show: the keys of the range whose newest version is not a tombstone. */
  lemma {:induction false} ScanIsLookup(ts: seq<Table>, src: seq<seq<KV>>, epochs: seq<nat>, lower: Option<Key>, upper: Option<Key>, out: seq<KV>, kv: KV)
    requires ReadsTables(ts, src, epochs) && IsScan(src, epochs, lower, upper, out)
    ensures kv in out <==> InRange(lower, upper, kv.key) && Observe(Search(ts, kv.key)) == Some(kv.value)
  {
    NewestIsSearch(ts, src, epochs, kv);
  }

  /** Calling `next()` until the end returns the whole scan. */
  method Scan(src: seq<seq<KV>>, epochs: seq<nat>, lower: Option<Key>, upper: Option<Key>) returns (thrown: bool, out: seq<KV>)
    requires Sources(src, epochs)
    ensures thrown <==> NoneHasEntries(src)
    ensures !thrown ==> IsScan(src, epochs, lower, upper, out)
  {
    hide IsScan, NoneHasEntries, Sources, Shown;
    var it := new RangeIterator(src, epochs, lower, upper);
    out := [];
    var r := it.Next();
    while r.Item?
      invariant it.Valid() && fresh(it) && fresh(it.merger) && fresh(it.merger.dedup) && it.merger.src == src && it.merger.epochs == epochs
      invariant it.lower == lower && it.upper == upper && it.returned == Returned(out, r)
      invariant r.EndOfScan? ==> it.exhausted
      invariant !r.Item? ==> (r.Thrown? <==> NoneHasEntries(src))
      decreases r.Item?, !it.exhausted, Sum(Lengths(src)) - Sum(it.merger.pos)
    {
      out := out + [r.kv];
      r := it.Next();
    }
    thrown := r.Thrown?;
  }
}
