/** Looking a key up in a table: filter, super-index, meta-index, page; and writing a table that can be looked up. */
module TableLookup {
  import opened Arith
  import opened Bytes
  import opened Versions
  import opened Block
  import opened BlockReader
  import opened MetaIndex
  import opened Table
  import opened PackedSlots
  import opened QuotientFilter

  /** Where group `a` begins. */
  function Start(groups: seq<seq<Pair>>, a: nat): nat
    requires a <= |groups|
  {
    |Flat(groups[..a])|
  }

  lemma {:induction false} FlatAt(groups: seq<seq<Pair>>, a: nat, x: nat)
    requires a < |groups| && x < |groups[a]|
    ensures Start(groups, a) + x < |Flat(groups)| && Flat(groups)[Start(groups, a) + x] == groups[a][x]
  {
    var n := |groups| - 1;
    if a < n {
      FlatAt(groups[..n], a, x);
      assert groups[..n][..a] == groups[..a];
    } else {
      assert groups[..a] == groups[..n];
    }
  }

  lemma {:induction false} StartsGrow(groups: seq<seq<Pair>>, a: nat, b: nat)
    requires a < b <= |groups|
    ensures Start(groups, a) + |groups[a]| <= Start(groups, b)
  {
    assert groups[..b][..b - 1] == groups[..b - 1];
    if a < b - 1 {
      StartsGrow(groups, a, b - 1);
    }
  }

  /** In a sorted table, groups are sorted and follow each other. */
  lemma {:induction false} GroupsSorted(groups: seq<seq<Pair>>, a: nat, x: nat, b: nat, y: nat)
    requires BlockReader.Sorted(Flat(groups)) && a < |groups| && b < |groups| && x < |groups[a]| && y < |groups[b]|
    requires a < b || (a == b && x < y)
    ensures Less(groups[a][x].key, groups[b][y].key)
  {
    hide Less, Flat;
    FlatAt(groups, a, x);
    FlatAt(groups, b, y);
    if a < b {
      StartsGrow(groups, a, b);
    }
  }

  lemma {:induction false} MetaAscends(pages: seq<Bytes>, meta: seq<Bytes>, groups: seq<seq<Pair>>, sum: Bytes -> nat)
    requires TableOf(pages, meta, groups, sum) && BlockReader.Sorted(Flat(groups))
    ensures Ascending(meta)
  {
    hide Less, Flat, IsBlock;
    forall i, j | 0 <= i < j < |meta|
      ensures Less(meta[i], meta[j])
    {
      assert PageOf(pages[i], groups[i], meta[i], sum) && PageOf(pages[j], groups[j], meta[j], sum);
      GroupsSorted(groups, i, |groups[i]| - 1, j, |groups[j]| - 1);
    }
  }

  /** Only the page at the lower bound of the meta-index can hold `key`. */
  lemma {:induction false} OnlyPage(pages: seq<Bytes>, meta: seq<Bytes>, groups: seq<seq<Pair>>, sum: Bytes -> nat, key: Bytes, i: nat, a: nat, x: nat)
    requires TableOf(pages, meta, groups, sum) && BlockReader.Sorted(Flat(groups)) && IsLowerBound(meta, key, i)
    requires a < |groups| && x < |groups[a]| && groups[a][x].key == key
    ensures a == i
  {
    hide Less, Flat, IsBlock, BlockReader.Sorted;
    assert PageOf(pages[a], groups[a], meta[a], sum);
    var last := |groups[a]| - 1;
    if x < last {
      GroupsSorted(groups, a, x, a, last);
    }
    LessTotal(key, meta[a]);
    if i < a {
      assert PageOf(pages[i], groups[i], meta[i], sum);
      GroupsSorted(groups, i, |groups[i]| - 1, a, x);
    }
  }

  /** The value of `key`, if there is one. */
  ghost predicate Answers(ps: seq<Pair>, key: Bytes, r: Option<Bytes>) {
    match r
    case Some(v) => Pair(key, v) in ps
    case None => forall v :: Pair(key, v) !in ps
  }

  lemma {:induction false} InFlat(groups: seq<seq<Pair>>, p: Pair) returns (a: nat, x: nat)
    requires p in Flat(groups)
    ensures a < |groups| && x < |groups[a]| && groups[a][x] == p
  {
    var n := |groups| - 1;
    if p in groups[n] {
      x :| 0 <= x < |groups[n]| && groups[n][x] == p;
      a := n;
    } else {
      a, x := InFlat(groups[..n], p);
    }
  }

  lemma {:induction false} LookupAnswers(ps: seq<Pair>, key: Bytes)
    requires forall i :: 0 <= i < |ps| ==> ps[i].value != []
    ensures Answers(ps, key, if Lookup(ps, key) == [] then None else Some(Lookup(ps, key)))
  {
    if ps != [] {
      var n := |ps| - 1;
      LookupAnswers(ps[..n], key);
      assert ps == ps[..n] + [ps[n]];
    }
  }

  /** A group answers for the whole table when no other group has the key. */
  lemma {:induction false} GroupAnswers(groups: seq<seq<Pair>>, key: Bytes, i: nat, r: Option<Bytes>)
    requires i < |groups| && Answers(groups[i], key, r)
    requires forall a, x :: 0 <= a < |groups| && 0 <= x < |groups[a]| && groups[a][x].key == key ==> a == i
    ensures Answers(Flat(groups), key, r)
  {
    hide Flat;
    if r.Some? {
      var x :| 0 <= x < |groups[i]| && groups[i][x] == Pair(key, r.value);
      FlatAt(groups, i, x);
    } else {
      forall v
        ensures Pair(key, v) !in Flat(groups)
      {
        if Pair(key, v) in Flat(groups) {
          var a, x := InFlat(groups, Pair(key, v));
        }
      }
    }
  }

  /** Search in the page that the meta-index names. */
  method FindInTable(pages: seq<Bytes>, meta: seq<Bytes>, super: Option<seq<Bytes>>, key: Bytes, sum: Bytes -> nat, ghost groups: seq<seq<Pair>>)
    returns (r: Option<Bytes>)
    requires TableOf(pages, meta, groups, sum) && BlockReader.Sorted(Flat(groups)) && (super.Some? ==> IsSuper(meta, super.value))
    requires forall i :: 0 <= i < |groups| ==> AllClean(groups[i], GROUP) && HasValues(groups[i])
    ensures Answers(Flat(groups), key, r)
  {
    hide Less, Flat, IsBlock, BlockReader.Sorted, AllClean, HasValues, IsSuper, Ascending, IsLowerBound, Answers, Lookup;
    MetaAscends(pages, meta, groups, sum);
    var id := FindPageId(meta, super, key);
    ghost var bound := if id.Some? then id.value else |meta|;
    forall a, x | 0 <= a < |groups| && 0 <= x < |groups[a]| && groups[a][x].key == key
      ensures a == bound
    {
      OnlyPage(pages, meta, groups, sum, key, bound, a, x);
    }
    if id.None? {
      NowhereAnswers(groups, key);
      return None;
    }
    ghost var ps := groups[id.value];
    assert PageOf(pages[id.value], ps, meta[id.value], sum);
    GroupSorted(groups, id.value);
    r := FindInPage(pages[id.value], key, sum, ps);
    GroupAnswers(groups, key, id.value, r);
  }

  ghost predicate HasValues(ps: seq<Pair>) {
    forall i :: 0 <= i < |ps| ==> ps[i].value != []
  }

  lemma {:induction false} GroupSorted(groups: seq<seq<Pair>>, a: nat)
    requires BlockReader.Sorted(Flat(groups)) && a < |groups|
    ensures BlockReader.Sorted(groups[a])
  {
    hide Less, Flat;
    forall x, y | 0 <= x < y < |groups[a]|
      ensures Less(groups[a][x].key, groups[a][y].key)
    {
      GroupsSorted(groups, a, x, a, y);
    }
  }

  lemma {:induction false} NowhereAnswers(groups: seq<seq<Pair>>, key: Bytes)
    requires forall a, x :: 0 <= a < |groups| && 0 <= x < |groups[a]| ==> groups[a][x].key != key
    ensures Answers(Flat(groups), key, None)
  {
    hide Flat;
    forall v
      ensures Pair(key, v) !in Flat(groups)
    {
      if Pair(key, v) in Flat(groups) {
        var a, x := InFlat(groups, Pair(key, v));
      }
    }
  }

  method FindInPage(page: Bytes, key: Bytes, sum: Bytes -> nat, ghost ps: seq<Pair>) returns (r: Option<Bytes>)
    requires (exists chunks :: IsBlock(page, ps, chunks, GROUP, sum)) && AllClean(ps, GROUP) && HasValues(ps) && BlockReader.Sorted(ps)
    ensures Answers(ps, key, r)
  {
    hide IsBlock, AllClean, BlockReader.Sorted, Answers, Lookup;
    ghost var chunks :| IsBlock(page, ps, chunks, GROUP, sum);
    BlockIsSane(page, ps, chunks, GROUP, sum);
    if !SanityCheck(page, sum) {
      assert false;
    }
    var value := Find(page, key, GROUP, ps, chunks, sum);
    LookupAnswers(ps, key);
    return if value == [] then None else Some(value);
  }

  const REMAINDER_BITS := 10

  /** The smallest power of two with room for the keys at a load of three quarters. */
  method QuotientBits(keys: nat) returns (q: nat)
    ensures (keys * 4 + 2) / 3 <= Pow2(q)
    ensures q > 0 ==> Pow2(q - 1) < (keys * 4 + 2) / 3
  {
    var slots := (keys * 4 + 2) / 3;
    var s := 1;
    q := 0;
    while s < slots
      invariant s == Pow2(q) && (q > 0 ==> Pow2(q - 1) < slots)
      decreases slots - s
    {
      s := 2 * s;
      q := q + 1;
    }
  }

  /** The hashes of some keys. */
  ghost function Hashes(ps: seq<Pair>, hash: Bytes -> nat): set<nat> {
    set i | 0 <= i < |ps| :: hash(ps[i].key)
  }

  /** A filter for `count` keys; none for an empty table or one beyond what a 64-bit hash can address. */
  method CreateFilter(count: nat) returns (f: Filter?)
    ensures f == null <==> count == 0 || Pow2(WORD_BITS - REMAINDER_BITS) < (count * 4 + 2) / 3
    ensures f != null ==> fresh(f) && fresh(f.table) && fresh(f.table.words) && f.Valid() && f.hashes == {} && f.prints == {} && count < f.table.size
  {
    hide Pow2;
    var q := QuotientBits(count);
    var limit := WORD_BITS - REMAINDER_BITS;
    if q <= limit {
      Pow2Grows(q, limit);
    } else {
      Pow2Grows(limit, q - 1);
    }
    PowOfNone(q);
    if q == 0 || q + REMAINDER_BITS > WORD_BITS {
      return null;
    }
    f := new Filter(q, REMAINDER_BITS);
  }

  lemma {:induction false} PowOfNone(q: nat)
    ensures q == 0 ==> Pow2(q) == 1
  {
  }

  /** Insert every key; there is room for all of them. */
  method FillFilter(f: Filter, keys: seq<Pair>, hash: Bytes -> nat)
    requires f.Valid() && f.hashes == {} && f.prints == {} && |keys| < f.table.size
    modifies f, f.table.words, f.table`slots
    ensures f.Valid() && f.hashes == Hashes(keys, hash)
    ensures f.entries == |Lows(Hashes(keys, hash), f.qbits + f.rbits)| % UINT32
  {
    hide Pow2, Filter.Valid, Lows;
    HashesOfNone(keys[..0], hash);
    EntriesAre(f);
    for i := 0 to |keys|
      invariant f.Valid() && |f.prints| <= i && f.hashes == Hashes(keys[..i], hash)
      invariant f.entries == |Lows(f.hashes, f.qbits + f.rbits)| % UINT32
    {
      var r := f.Insert(hash(keys[i].key));
      assert r == Accepted;
      HashesMore(keys[..i], keys[i], hash);
      assert keys[..i + 1] == keys[..i] + [keys[i]];
    }
    assert keys[..|keys|] == keys;
  }

  lemma {:induction false} HashesOfNone(ps: seq<Pair>, hash: Bytes -> nat)
    requires ps == []
    ensures Hashes(ps, hash) == {}
  {
  }

  lemma {:induction false} HashesMore(ps: seq<Pair>, p: Pair, hash: Bytes -> nat)
    ensures Hashes(ps + [p], hash) == Hashes(ps, hash) + {hash(p.key)}
  {
    var more := ps + [p];
    assert more[|ps|] == p && forall i :: 0 <= i < |ps| ==> more[i] == ps[i];
    forall h | h in Hashes(ps, hash)
      ensures h in Hashes(more, hash)
    {
      var i :| 0 <= i < |ps| && h == hash(ps[i].key);
      assert more[i] == ps[i];
    }
  }

  lemma {:induction false} EntriesAre(f: Filter)
    requires f.Valid()
    ensures f.entries == |Lows(f.hashes, f.qbits + f.rbits)| % UINT32
  {
    PrintsCount(f.prints, f.hashes, f.qbits, f.rbits);
  }

  /** What a caller of `Lookup` must get: the newest version, or nothing if the key was never written. */
  ghost predicate AnswersNewest(vs: seq<Version>, key: Bytes, r: Option<Bytes>) {
    match r
    case Some(v) => Newest(vs, Pair(key, v))
    case None => forall i :: 0 <= i < |vs| ==> vs[i].key != key
  }

  lemma {:induction false} AnswersDistinct(vs: seq<Version>, key: Bytes, r: Option<Bytes>)
    requires Ordered(vs) && Answers(Distinct(vs), key, r)
    ensures AnswersNewest(vs, key, r)
  {
    hide Distinct, Ordered, Newest;
    if r.Some? {
      DistinctIsNewest(vs, Pair(key, r.value));
    } else {
      forall i | 0 <= i < |vs|
        ensures vs[i].key != key
      {
        var v := EveryKeyKept(vs, i);
      }
    }
  }

  /** The hashes of two keys agree on their lowest `n` bits. */
  ghost predicate Alike(a: Bytes, b: Bytes, hash: Bytes -> nat, n: nat) {
    Low(hash(a), n) == Low(hash(b), n)
  }

  lemma {:induction false} SomeAlike(ps: seq<Pair>, key: Bytes, hash: Bytes -> nat, n: nat)
    ensures (exists h :: h in Hashes(ps, hash) && Low(h, n) == Low(hash(key), n)) <==> exists p :: p in ps && Alike(p.key, key, hash, n)
  {
    hide Low;
    if h :| h in Hashes(ps, hash) && Low(h, n) == Low(hash(key), n) {
      var i :| 0 <= i < |ps| && h == hash(ps[i].key);
      assert ps[i] in ps && Alike(ps[i].key, key, hash, n);
    }
    if p :| p in ps && Alike(p.key, key, hash, n) {
      KeyIsHashed(ps, p, hash);
    }
  }

  /** A table that was written and loaded. */
  class Sst {
    const pages: seq<Bytes>
    const meta: seq<Bytes>
    const super: Option<seq<Bytes>>
    const filter: Filter
    const hash: Bytes -> nat
    const sum: Bytes -> nat
    ghost const groups: seq<seq<Pair>>
    ghost const vs: seq<Version>

    ghost predicate Valid()
      reads filter, filter.table, filter.table.words
    {
      && Ordered(vs) && Flat(groups) == Distinct(vs) && BlockReader.Sorted(Flat(groups))
      && TableOf(pages, meta, groups, sum) && (super.Some? ==> IsSuper(meta, super.value))
      && (forall i :: 0 <= i < |groups| ==> AllClean(groups[i], GROUP) && HasValues(groups[i]))
      && filter.Valid() && filter.hashes == Hashes(Flat(groups), hash)
    }

    constructor (vs: seq<Version>, pages: seq<Bytes>, meta: seq<Bytes>, super: Option<seq<Bytes>>, filter: Filter,
                 hash: Bytes -> nat, sum: Bytes -> nat, ghost groups: seq<seq<Pair>>)
      ensures this.pages == pages && this.meta == meta && this.super == super && this.filter == filter
      ensures this.hash == hash && this.sum == sum && this.groups == groups && this.vs == vs
    {
      this.pages, this.meta, this.super, this.filter, this.hash, this.sum := pages, meta, super, filter, hash, sum;
      this.groups, this.vs := groups, vs;
    }

    /** The filter lets a key through exactly when some key of the table agrees with it on the low bits of the hash. */
    method Probe(key: Bytes) returns (b: bool)
      requires Valid()
      ensures b <==> exists p :: p in Distinct(vs) && Alike(p.key, key, hash, filter.qbits + filter.rbits)
    {
      hide Ordered, Flat, Distinct, BlockReader.Sorted, TableOf, IsSuper, AllClean, HasValues, Filter.Valid, Low;
      b := filter.MayContain(hash(key));
      SomeAlike(Distinct(vs), key, hash, filter.qbits + filter.rbits);
    }

    /** Probe the filter, then search the page: exactly the newest version of the key, or nothing. */
    method Lookup(key: Bytes) returns (r: Option<Bytes>)
      requires Valid()
      ensures AnswersNewest(vs, key, r)
    {
      hide Ordered, Flat, Distinct, BlockReader.Sorted, TableOf, IsSuper, AllClean, HasValues;
      var probe := filter.MayContain(hash(key));
      if !probe {
        r := None;
        forall v
          ensures Pair(key, v) !in Flat(groups)
        {
          KeyIsHashed(Flat(groups), Pair(key, v), hash);
        }
      } else {
        r := FindInTable(pages, meta, super, key, sum, groups);
      }
      AnswersDistinct(vs, key, r);
    }
  }

  lemma {:induction false} KeyIsHashed(ps: seq<Pair>, p: Pair, hash: Bytes -> nat)
    ensures p in ps ==> hash(p.key) in Hashes(ps, hash)
  {
  }

  /** A version that the write path takes: values carry a type byte. */
  predicate Acceptable(v: Version) {
    GoodKey(v.key) && v.value != []
  }

  /** A key of 256 bytes must share its first byte with the key before it, or its delta length may overflow. */
  predicate Follows(a: Bytes, b: Bytes) {
    a == b || |b| < MAX_KEY || (a != [] && b != [] && a[0] == b[0])
  }

  ghost predicate Linked(vs: seq<Version>) {
    forall i :: 0 < i < |vs| ==> Follows(vs[i - 1].key, vs[i].key)
  }

  /** Only a key of 256 bytes that comes after a key with another first byte is a break. */
  lemma {:induction false} LinkedIff(vs: seq<Version>)
    requires forall i :: 0 <= i < |vs| ==> GoodKey(vs[i].key)
    ensures Linked(vs) <==> !exists i :: 0 < i < |vs| && Breaks(vs[i - 1].key, vs[i].key)
  {
    if !Linked(vs) {
      var i :| 0 < i < |vs| && !Follows(vs[i - 1].key, vs[i].key);
      assert Breaks(vs[i - 1].key, vs[i].key);
    }
    if i :| 0 < i < |vs| && Breaks(vs[i - 1].key, vs[i].key) {
      assert !Follows(vs[i - 1].key, vs[i].key);
    }
  }

  predicate Breaks(a: Bytes, b: Bytes) {
    |a| > 0 && |b| == 256 && a[0] != b[0]
  }

  lemma {:induction false} DistinctLinked(vs: seq<Version>, i: nat)
    requires Linked(vs) && 0 < i < |Distinct(vs)|
    ensures Follows(Distinct(vs)[i - 1].key, Distinct(vs)[i].key)
  {
    var n := |vs| - 1;
    var front := vs[..n];
    assert Linked(front);
    if i < |Distinct(front)| {
      DistinctLinked(front, i);
    } else {
      LastDistinct(front);
    }
  }

  lemma {:induction false} LastDistinct(vs: seq<Version>)
    requires Distinct(vs) != []
    ensures vs != [] && Distinct(vs)[|Distinct(vs)| - 1].key == vs[|vs| - 1].key
  {
    var n := |vs| - 1;
    if n > 0 && vs[n - 1].key == vs[n].key {
      SomeDistinct(vs[..n]);
      LastDistinct(vs[..n]);
    }
  }

  lemma {:induction false} SomeDistinct(vs: seq<Version>)
    requires vs != []
    ensures Distinct(vs) != []
  {
    var n := |vs| - 1;
    if n > 0 {
      SomeDistinct(vs[..n]);
    }
  }

  lemma {:induction false} PairInherits(vs: seq<Version>, groups: seq<seq<Pair>>, i: nat, x: nat)
    requires Flat(groups) == Distinct(vs) && i < |groups| && x < |groups[i]| && forall j :: 0 <= j < |vs| ==> Acceptable(vs[j])
    ensures GoodKey(groups[i][x].key) && groups[i][x].value != []
  {
    hide Flat, Distinct, Cost;
    FlatAt(groups, i, x);
    DistinctFrom(vs, groups[i][x]);
  }

  lemma {:induction false} PairFollows(vs: seq<Version>, groups: seq<seq<Pair>>, i: nat, x: nat)
    requires Flat(groups) == Distinct(vs) && BlockReader.Sorted(Flat(groups)) && Linked(vs) && i < |groups| && 0 < x < |groups[i]|
    ensures Less(groups[i][x - 1].key, groups[i][x].key) && Follows(groups[i][x - 1].key, groups[i][x].key)
    ensures groups[i][x - 1].key != groups[i][x].key
  {
    hide Flat, Distinct, Less, Follows;
    FlatAt(groups, i, x);
    FlatAt(groups, i, x - 1);
    DistinctLinked(vs, Start(groups, i) + x);
    LessIrreflexive(groups[i][x].key);
  }

  /** The pairs of a page can be read back. */
  lemma {:induction false} GroupsInherit(vs: seq<Version>, groups: seq<seq<Pair>>, i: nat)
    requires Flat(groups) == Distinct(vs) && BlockReader.Sorted(Flat(groups)) && i < |groups| && Linked(vs)
    requires forall j :: 0 <= j < |vs| ==> Acceptable(vs[j])
    ensures AllClean(groups[i], GROUP) && HasValues(groups[i])
  {
    hide Flat, Distinct, Cost, Less, BlockReader.Sorted, CleanAt, Linked, Acceptable, Opens;
    var ps := groups[i];
    forall x | 0 <= x < |ps|
      ensures GoodKey(ps[x].key) && ps[x].value != []
    {
      PairInherits(vs, groups, i, x);
    }
    FirstOpens(GROUP);
    forall x | 0 <= x < |ps|
      ensures CleanAt(ps, x, GROUP)
    {
      if x > 0 {
        PairFollows(vs, groups, i, x);
      }
      CleanIff(ps, GROUP, x);
    }
  }

  lemma {:induction false} FirstOpens(g: nat)
    requires g > 0
    ensures Opens(0, g)
  {
  }

  /** Write a part of a memtable as a table and load it. */
  method Export(vs: seq<Version>, capacity: nat, hash: Bytes -> nat, sum: Bytes -> nat) returns (t: Sst?)
    requires capacity > 0 && Ordered(vs) && forall j :: 0 <= j < |vs| ==> Acceptable(vs[j])
    ensures t == null <==> vs == [] || Pow2(WORD_BITS - REMAINDER_BITS) < (|vs| * 4 + 2) / 3 || !AllFit(Distinct(vs))
    ensures t != null ==> t.vs == vs
    ensures t != null && Linked(vs) ==> t.Valid()
  {
    hide Ordered, Linked, Flat, Distinct, BlockReader.Sorted, TableOf, IsSuper, AllClean, HasValues, Pow2, Cost;
    var f := CreateFilter(|vs|);
    if f == null {
      return null;
    }
    var ok, pages, meta; ghost var groups;
    ok, pages, meta, groups := WriteIndex(vs, capacity, sum);
    if !ok {
      return null;
    }
    DistinctFew(vs);
    FillFilter(f, Distinct(vs), hash);
    var super := CreateSuper(meta);
    DistinctSorted(vs);
    if Linked(vs) {
      forall i | 0 <= i < |groups|
        ensures AllClean(groups[i], GROUP) && HasValues(groups[i])
      {
        GroupsInherit(vs, groups, i);
      }
    }
    t := new Sst(vs, pages, meta, super, f, hash, sum, groups);
  }
}
