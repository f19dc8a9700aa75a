/** The per-page index of a table, holding the last key of each page, the super-index over it, and the pages that
    a range of keys needs. */
module MetaIndex {
  import opened Bytes
  import opened Versions

  /** Keys of the meta-index that share a page of memory. */
  const KEYS := 128

  const SUPER_THRESHOLD := 16

  /** `i` is the first position whose key is not below `key`. */
  ghost predicate IsLowerBound(keys: seq<Bytes>, key: Bytes, i: nat) {
    && i <= |keys|
    && (forall j :: 0 <= j < i ==> Less(keys[j], key))
    && (forall j :: i <= j < |keys| ==> !Less(keys[j], key))
  }

  /** In ascending keys the neighbours decide. */
  lemma {:induction false} LowerBoundHere(keys: seq<Bytes>, key: Bytes, i: nat)
    requires Ascending(keys) && i <= |keys|
    requires 0 < i ==> Less(keys[i - 1], key)
    requires i < |keys| ==> !Less(keys[i], key)
    ensures IsLowerBound(keys, key, i)
  {
    forall j | 0 <= j < i
      ensures Less(keys[j], key)
    {
      if j < i - 1 {
        LessTransitive(keys[j], keys[i - 1], key);
      }
    }
    forall j | i <= j < |keys|
      ensures !Less(keys[j], key)
    {
      if i < j && Less(keys[j], key) {
        LessTransitive(keys[i], keys[j], key);
      }
    }
  }

  /** Binary search in `keys[from..to]`. */
  method LowerBound(keys: seq<Bytes>, from: nat, to: nat, key: Bytes) returns (i: nat)
    requires from <= to <= |keys|
    ensures from <= i <= to
    ensures from < i ==> Less(keys[i - 1], key)
    ensures i < to ==> !Less(keys[i], key)
  {
    hide Less;
    i := from;
    var hi := to;
    while i < hi
      invariant from <= i <= hi <= to
      invariant from < i ==> Less(keys[i - 1], key)
      invariant hi < to ==> !Less(keys[hi], key)
    {
      var mid := i + (hi - i) / 2;
      if Less(keys[mid], key) {
        i := mid + 1;
      } else {
        hi := mid;
      }
    }
  }

  function Min(a: int, b: int): int {
    if a < b then a else b
  }

  /** Entry `i` is the last key of the `i`-th page of the meta-index. */
  ghost predicate IsSuper(meta: seq<Bytes>, super: seq<Bytes>) {
    && |super| == (|meta| + KEYS - 1) / KEYS
    && forall i :: 0 <= i < |super| ==> super[i] == meta[Min((i + 1) * KEYS - 1, |meta| - 1)]
  }

  method CreateSuper(meta: seq<Bytes>) returns (super: Option<seq<Bytes>>)
    ensures super.Some? <==> |meta| > KEYS * SUPER_THRESHOLD
    ensures super.Some? ==> IsSuper(meta, super.value)
  {
    if |meta| <= KEYS * SUPER_THRESHOLD {
      return None;
    }
    var size := (|meta| + KEYS - 1) / KEYS;
    var si: seq<Bytes> := [];
    for i := 0 to size
      invariant |si| == i
      invariant forall j :: 0 <= j < i ==> si[j] == meta[Min((j + 1) * KEYS - 1, |meta| - 1)]
    {
      si := si + [meta[Min((i + 1) * KEYS - 1, |meta| - 1)]];
    }
    return Some(si);
  }

  /** A step through the super-index lands in the same place as a search of the whole meta-index. */
  method FindPageId(meta: seq<Bytes>, super: Option<seq<Bytes>>, key: Bytes) returns (id: Option<nat>)
    requires Ascending(meta) && (super.Some? ==> IsSuper(meta, super.value))
    ensures id.Some? ==> id.value < |meta| && IsLowerBound(meta, key, id.value)
    ensures id.None? ==> IsLowerBound(meta, key, |meta|)
  {
    hide Less, Ascending, IsLowerBound;
    var from, to := 0, |meta|;
    if super.Some? {
      var si := super.value;
      var page := LowerBound(si, 0, |si|, key);
      if page == |si| {
        if |si| > 0 {
          assert si[|si| - 1] == meta[|meta| - 1];
        }
        LowerBoundHere(meta, key, |meta|);
        return None;
      }
      from, to := page * KEYS, page * KEYS + KEYS;
      if page == |si| - 1 {
        var lastSize := |meta| % KEYS;
        if lastSize != 0 {
          to := from + lastSize;
        }
      }
      assert page > 0 ==> si[page - 1] == meta[from - 1];
      assert si[page] == meta[to - 1];
    }
    var it := LowerBound(meta, from, to, key);
    LowerBoundHere(meta, key, it);
    if it == |meta| {
      return None;
    }
    return Some(it);
  }

  lemma {:induction false} BoundsCross(m: Bytes, lower: Bytes, upper: Bytes)
    requires Less(m, lower) && !Less(m, upper)
    ensures Less(upper, lower)
  {
    LessTotal(m, upper);
    if m != upper {
      LessTransitive(upper, m, lower);
    }
  }

  /** The last keys of the first `n` pages are below the lower bound. */
  ghost predicate AllBelow(meta: seq<Bytes>, n: nat, lower: Option<Bytes>) {
    n <= |meta| && forall i :: 0 <= i < n ==> lower.Some? && Less(meta[i], lower.value)
  }

  /** Position `i` of ascending keys is read by a scan: not below the lower bound, and nothing at or above the upper bound precedes it. */
  ghost predicate Reads(keys: seq<Bytes>, i: int, lower: Option<Bytes>, upper: Option<Bytes>) {
    && 0 <= i < |keys|
    && (lower.Some? ==> !Less(keys[i], lower.value))
    && (upper.Some? && i > 0 ==> Less(keys[i - 1], upper.value))
  }

  /** A search for a lower bound finds the first position to read. */
  ghost predicate Reached(keys: seq<Bytes>, lower: Option<Bytes>) {
    lower.None? || exists i :: 0 <= i < |keys| && !Less(keys[i], lower.value)
  }

  /** Unless the bounds are reversed, a scan reads something exactly when some key is not below the lower bound. */
  lemma {:induction false} ReadsSomething(keys: seq<Bytes>, lower: Option<Bytes>, upper: Option<Bytes>)
    requires forall i, j :: 0 <= i < j < |keys| ==> !Less(keys[j], keys[i])
    requires lower.Some? && upper.Some? ==> !Less(upper.value, lower.value)
    ensures (exists i :: Reads(keys, i, lower, upper)) <==> keys != [] && Reached(keys, lower)
  {
    hide Less;
    if keys != [] && Reached(keys, lower) {
      var i := 0;
      while lower.Some? && Less(keys[i], lower.value)
        invariant i < |keys| && (i > 0 ==> lower.Some? && Less(keys[i - 1], lower.value))
        invariant lower.Some? ==> exists j :: i <= j < |keys| && !Less(keys[j], lower.value)
        decreases |keys| - i
      {
        i := i + 1;
      }
      if upper.Some? && i > 0 && !Less(keys[i - 1], upper.value) {
        BoundsCross(keys[i - 1], lower.value, upper.value);
      }
      assert Reads(keys, i, lower, upper);
    }
  }

  /** The pages `from..to` that can hold keys of a range; either bound may be absent. */
  method FindRange(meta: seq<Bytes>, super: Option<seq<Bytes>>, lower: Option<Bytes>, upper: Option<Bytes>) returns (pages: Option<(nat, nat)>)
    requires Ascending(meta) && (super.Some? ==> IsSuper(meta, super.value))
    ensures pages.None? <==> !Reached(meta, lower)
    ensures forall i :: Reads(meta, i, lower, upper) <==> pages.Some? && pages.value.0 <= i < pages.value.1
    ensures pages.Some? ==> pages.value.0 <= |meta| && pages.value.1 <= |meta|
    ensures pages.Some? ==> AllBelow(meta, pages.value.0, lower)
    ensures pages.Some? ==> pages.value.1 < |meta| ==> 0 < pages.value.1 && upper.Some? && !Less(meta[pages.value.1 - 1], upper.value)
    ensures pages.Some? && meta != [] && (lower.Some? && upper.Some? ==> !Less(upper.value, lower.value)) ==> pages.value.0 < pages.value.1
  {
    hide Less, Ascending;
    var first := 0;
    if lower.Some? {
      var id := FindPageId(meta, super, lower.value);
      if id.None? {
        return None;
      }
      first := id.value;
      assert !Less(meta[first], lower.value);
    }
    // The last page, kept as the end of the range; a table without pages has an empty range.
    var end := |meta|;
    if upper.Some? {
      var id := FindPageId(meta, super, upper.value);
      if id.Some? {
        end := id.value + 1;
        if lower.Some? && id.value < first {
          BoundsCross(meta[id.value], lower.value, upper.value);
        }
      }
    }
    return Some((first, end));
  }
}
