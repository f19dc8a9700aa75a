/** The range iterator: the merge, cut to an inclusive key range and without tombstones. */
module RangeScan {
  import opened Versions
  import opened Merge

  predicate InRange(lower: Option<Key>, upper: Option<Key>, k: Key) {
    (lower.Some? ==> lower.value <= k) && (upper.Some? ==> k <= upper.value)
  }

  predicate Shows(lower: Option<Key>, upper: Option<Key>, kv: KV) {
    InRange(lower, upper, kv.key) && kv.value.Data?
  }

  /** The items of `s` that a scan returns. */
  function Shown(s: seq<KV>, lower: Option<Key>, upper: Option<Key>): seq<KV> {
    if s == [] then []
    else Shown(s[..|s| - 1], lower, upper) + if Shows(lower, upper, s[|s| - 1]) then [s[|s| - 1]] else []
  }

  lemma {:induction false} ShownAppend(s: seq<KV>, kv: KV, lower: Option<Key>, upper: Option<Key>)
    ensures Shown(s + [kv], lower, upper) == if Shows(lower, upper, kv) then Shown(s, lower, upper) + [kv] else Shown(s, lower, upper)
  {
  }

  lemma {:induction false} ShownIs(s: seq<KV>, lower: Option<Key>, upper: Option<Key>)
    requires Sorted(s)
    ensures Sorted(Shown(s, lower, upper))
    ensures forall kv :: kv in Shown(s, lower, upper) <==> kv in s && Shows(lower, upper, kv)
  {
    if s != [] {
      var n := |s| - 1;
      var front := s[..n];
      ShownIs(front, lower, upper);
      assert s == front + [s[n]];
      forall i | 0 <= i < |Shown(front, lower, upper)|
        ensures Shown(front, lower, upper)[i].key < s[n].key
      {
        assert Shown(front, lower, upper)[i] in front;
      }
    }
  }

  /** `out` is the scan: ascending, each key once, exactly the live keys of the range with their newest values. */
  ghost predicate IsScan(src: seq<seq<KV>>, epochs: seq<nat>, lower: Option<Key>, upper: Option<Key>, out: seq<KV>) {
    && Sorted(out)
    && forall kv :: kv in out <==> Newest(src, epochs, kv) && Shows(lower, upper, kv)
  }

  /** Everything the merge still holds lies behind the upper bound. */
  lemma {:induction false} BeyondUpper(src: seq<seq<KV>>, epochs: seq<nat>, out: seq<KV>, last: Entry, lower: Option<Key>, upper: Option<Key>, shown: seq<KV>)
    requires Sources(src, epochs) && Final(src, epochs, out, last.key) && upper.Some? && upper.value < last.key
    requires shown == Shown(out, lower, upper)
    ensures IsScan(src, epochs, lower, upper, shown)
  {
    ShownIs(out, lower, upper);
    forall kv | Newest(src, epochs, kv) && Shows(lower, upper, kv)
      ensures kv in out
    {
      var i, j :| NewestAt(src, epochs, i, j, kv.key) && src[i][j].value == kv.value;
      assert Has(src, i, j, kv.key) && Listed(out, src[i][j].key);
      var n :| 0 <= n < |out| && out[n].key == kv.key;
      NewestUnique(src, epochs, kv, out[n]);
    }
  }

  lemma {:induction false} AllShown(src: seq<seq<KV>>, epochs: seq<nat>, all: seq<KV>, lower: Option<Key>, upper: Option<Key>, shown: seq<KV>)
    requires Sorted(all) && IsMerge(src, epochs, false, Kept(all, false)) && shown == Shown(all, lower, upper)
    ensures IsScan(src, epochs, lower, upper, shown)
  {
    ShownIs(all, lower, upper);
    KeptIs(all, false);
  }

  lemma {:induction false} SomeEntry(src: seq<seq<KV>>, epochs: seq<nat>, kv: KV)
    requires Newest(src, epochs, kv)
    ensures !NoneHasEntries(src)
  {
  }

  datatype ScanResult =
    | Item(kv: KV)
    | EndOfScan
    | Thrown // no source has an entry: the source forces an item out of an empty deduplicator

  datatype Emitted = Skip | End | Value

  /** `_emit`: what becomes of an item that left the merge. */
  function Emit(lower: Option<Key>, upper: Option<Key>, kv: KV): (e: Emitted)
    ensures e == Value <==> Shows(lower, upper, kv)
    ensures e == End ==> !InRange(None, upper, kv.key)
  {
    if !InRange(lower, None, kv.key) then Skip
    else if !InRange(None, upper, kv.key) then End
    else if kv.value.Tombstone? then Skip
    else Value
  }

  ghost predicate NoneHasEntries(src: seq<seq<KV>>) {
    forall i :: 0 <= i < |src| ==> src[i] == []
  }

  /** One iteration of the scan loop. */
  method Turn(m: Merger, lower: Option<Key>, upper: Option<Key>) returns (e: Emitted, kv: Option<KV>)
    requires m.Valid() && m.heap != []
    modifies m, m.dedup
    ensures m.Valid() && m.dedup.toBeChecked.Some? && !NoneHasEntries(m.src)
    ensures Sum(m.pos) == old(Sum(m.pos)) + 1 <= Sum(Lengths(m.src))
    ensures e == Value ==> kv.Some? && Shown(m.emitted, lower, upper) == old(Shown(m.emitted, lower, upper)) + [kv.value]
    ensures e != Value ==> Shown(m.emitted, lower, upper) == old(Shown(m.emitted, lower, upper))
    ensures e == End ==> IsScan(m.src, m.epochs, lower, upper, Shown(m.emitted, lower, upper))
  {
    hide IsScan, NoneHasEntries, Sum, Lengths, Shown;
    ghost var before := m.emitted;
    kv := m.Next();
    e := Skip;
    ghost var last := m.dedup.toBeChecked.value;
    SomeEntry(m.src, m.epochs, KV(last.key, last.value));
    if kv.Some? {
      ShownAppend(before, kv.value, lower, upper);
      assert m.emitted == before + [kv.value] && m.emitted[|before|] == kv.value;
      e := Emit(lower, upper, kv.value);
      if e == End {
        BeyondUpper(m.src, m.epochs, m.emitted, last, lower, upper, Shown(m.emitted, lower, upper));
      }
    }
  }

  /** `_next_inner`: advance the merge to the next item to return; `Skip` when the heap is empty. */
  method NextInner(m: Merger, lower: Option<Key>, upper: Option<Key>) returns (e: Emitted, kv: Option<KV>)
    requires m.Valid() && (NoneHasEntries(m.src) ==> m.heap == [])
    modifies m, m.dedup
    ensures m.Valid() && (NoneHasEntries(m.src) ==> e == Skip && m.dedup.toBeChecked == old(m.dedup.toBeChecked))
    ensures e == Value ==> kv.Some? && Shown(m.emitted, lower, upper) == old(Shown(m.emitted, lower, upper)) + [kv.value]
    ensures e == Value ==> old(Sum(m.pos)) < Sum(m.pos) <= Sum(Lengths(m.src))
    ensures e != Value ==> Shown(m.emitted, lower, upper) == old(Shown(m.emitted, lower, upper))
    ensures e == End ==> IsScan(m.src, m.epochs, lower, upper, Shown(m.emitted, lower, upper))
    ensures if e == Skip then m.heap == [] else m.dedup.toBeChecked.Some?
    ensures old(m.dedup.toBeChecked).Some? ==> m.dedup.toBeChecked.Some?
    ensures old(m.heap) != [] ==> m.dedup.toBeChecked.Some?
  {
    e, kv := Skip, None;
    while m.heap != []
      invariant m.Valid() && Shown(m.emitted, lower, upper) == old(Shown(m.emitted, lower, upper))
      invariant NoneHasEntries(m.src) ==> m.heap == [] && m.dedup.toBeChecked == old(m.dedup.toBeChecked)
      invariant old(m.dedup.toBeChecked).Some? ==> m.dedup.toBeChecked.Some?
      invariant m.heap == old(m.heap) || m.dedup.toBeChecked.Some?
      invariant old(Sum(m.pos)) <= Sum(m.pos)
      decreases Sum(Lengths(m.src)) - Sum(m.pos)
    {
      e, kv := Turn(m, lower, upper);
      if e != Skip {
        return;
      }
    }
    e := Skip;
  }

  /** The heap is empty: force the last item out of the deduplicator. */
  method Finish(m: Merger, lower: Option<Key>, upper: Option<Key>) returns (e: Emitted, kv: KV)
    requires m.Valid() && m.heap == [] && m.dedup.toBeChecked.Some?
    modifies m.dedup
    ensures IsScan(m.src, m.epochs, lower, upper,
                   if e == Value then Shown(m.emitted, lower, upper) + [kv] else Shown(m.emitted, lower, upper))
  {
    kv := m.Last(false);
    ShownAppend(m.emitted, kv, lower, upper);
    AllShown(m.src, m.epochs, m.emitted + [kv], lower, upper, Shown(m.emitted + [kv], lower, upper));
    e := Emit(lower, upper, kv);
  }

  /** Before the first step, the heap is empty exactly when there is nothing to scan. */
  ghost predicate Fresh(m: Merger)
    reads m, m.dedup
  {
    m.heap == [] && m.dedup.toBeChecked.None? <==> NoneHasEntries(m.src)
  }

  /** One call of `next()`, up to remembering that the scan is over (`done`). */
  method Pull(m: Merger, lower: Option<Key>, upper: Option<Key>) returns (r: ScanResult, done: bool)
    requires m.Valid() && Fresh(m)
    modifies m, m.dedup
    ensures r.Thrown? <==> NoneHasEntries(m.src)
    ensures !done ==> m.Valid() && Fresh(m) && !r.EndOfScan?
    ensures !done ==> Shown(m.emitted, lower, upper) == Returned(old(Shown(m.emitted, lower, upper)), r)
    ensures r.Item? && !done ==> old(Sum(m.pos)) < Sum(m.pos) <= Sum(Lengths(m.src))
    ensures done ==> !r.Thrown? && IsScan(m.src, m.epochs, lower, upper, Returned(old(Shown(m.emitted, lower, upper)), r))
  {
    hide IsScan, NoneHasEntries, Shown;
    var e, kv := NextInner(m, lower, upper);
    if e == Value {
      return Item(kv.value), false;
    }
    if e == End {
      // The item still buffered lies behind the range as well.
      return EndOfScan, true;
    }
    if m.dedup.toBeChecked.None? {
      return Thrown, false;
    }
    var last;
    e, last := Finish(m, lower, upper);
    return if e == Value then Item(last) else EndOfScan, true;
  }

  /** The items returned so far, after one more call gave `r`. */
  function Returned(s: seq<KV>, r: ScanResult): seq<KV> {
    if r.Item? then s + [r.kv] else s
  }

  class RangeIterator {
    const lower: Option<Key>
    const upper: Option<Key>
    const merger: Merger
    var exhausted: bool
    ghost var returned: seq<KV>

    ghost predicate Valid()
      reads this, merger, merger.dedup
    {
      if exhausted then IsScan(merger.src, merger.epochs, lower, upper, returned)
      else merger.Valid() && Fresh(merger) && returned == Shown(merger.emitted, lower, upper)
    }

    constructor (src: seq<seq<KV>>, epochs: seq<nat>, lower: Option<Key>, upper: Option<Key>)
      requires Sources(src, epochs)
      ensures Valid() && fresh(merger) && fresh(merger.dedup) && merger.src == src && merger.epochs == epochs
      ensures this.lower == lower && this.upper == upper && !exhausted && returned == []
    {
      this.lower, this.upper, exhausted, returned := lower, upper, false, [];
      merger := new Merger(src, epochs);
    }

    /** The next live key of the range, or the end of the scan, from then on forever. */
    method Next() returns (r: ScanResult)
      requires Valid()
      modifies this`exhausted, this`returned, merger, merger.dedup
      ensures Valid() && returned == Returned(old(returned), r)
      ensures old(exhausted) ==> r.EndOfScan?
      ensures r.EndOfScan? ==> exhausted
      ensures r.Thrown? <==> !old(exhausted) && NoneHasEntries(merger.src)
      ensures r.Item? && !exhausted ==> old(Sum(merger.pos)) < Sum(merger.pos) <= Sum(Lengths(merger.src))
    {
      hide IsScan, NoneHasEntries, Shown;
      if exhausted {
        return EndOfScan;
      }
      var done;
      r, done := Pull(merger, lower, upper);
      returned := Returned(returned, r);
      exhausted := done;
    }
  }
}
