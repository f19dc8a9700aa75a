/** Writing a sorted multi-version input as a table of pages: the first version of every key, page after page, and
    the index of last keys. */
module Table {
  import opened Bytes
  import opened Versions
  import opened Block
  import opened BlockReader

  const PAGE := 4096
  const GROUP := 4

  /** One version of a key in a memtable. */
  datatype Version = Version(key: Bytes, seqNr: nat, value: Bytes)

  /** The order of a memtable: by key, newer versions of a key first. */
  predicate Before(a: Version, b: Version) {
    Less(a.key, b.key) || (a.key == b.key && a.seqNr > b.seqNr)
  }

  ghost predicate Ordered(vs: seq<Version>) {
    forall i, j :: 0 <= i < j < |vs| ==> Before(vs[i], vs[j])
  }

  /** The pairs that are written: of each key only the first version. */
  function Distinct(vs: seq<Version>): seq<Pair> {
    if vs == [] then []
    else
      var n := |vs| - 1;
      if n > 0 && vs[n - 1].key == vs[n].key then Distinct(vs[..n]) else Distinct(vs[..n]) + [Pair(vs[n].key, vs[n].value)]
  }

  /** `vs[i]` is the newest version of its key, and reads as `p`. */
  ghost predicate NewestAt(vs: seq<Version>, i: int, p: Pair) {
    && 0 <= i < |vs| && vs[i].key == p.key && vs[i].value == p.value
    && forall j :: 0 <= j < |vs| && vs[j].key == p.key ==> vs[j].seqNr <= vs[i].seqNr
  }

  ghost predicate Newest(vs: seq<Version>, p: Pair) {
    exists i :: NewestAt(vs, i, p)
  }

  lemma {:induction false} OlderVersion(vs: seq<Version>, i: nat)
    requires Ordered(vs) && i < |vs| - 1 && vs[i].key == vs[|vs| - 1].key
    ensures vs[i].seqNr > vs[|vs| - 1].seqNr
  {
    assert Before(vs[i], vs[|vs| - 1]);
    LessIrreflexive(vs[i].key);
  }

  lemma {:induction false} FreshKey(vs: seq<Version>, i: nat)
    requires Ordered(vs) && i < |vs| - 1 && vs[|vs| - 2].key != vs[|vs| - 1].key
    ensures Less(vs[i].key, vs[|vs| - 1].key) && vs[i].key != vs[|vs| - 1].key
  {
    var n := |vs| - 1;
    assert Before(vs[n - 1], vs[n]);
    LessIrreflexive(vs[n].key);
    if i < n - 1 {
      assert Before(vs[i], vs[n - 1]);
      if vs[i].key != vs[n - 1].key {
        LessTransitive(vs[i].key, vs[n - 1].key, vs[n].key);
      }
    }
  }

  /** One more version matters exactly if its key is new. */
  lemma {:induction false} NewestStep(vs: seq<Version>, p: Pair)
    requires Ordered(vs) && vs != []
    ensures Newest(vs, p) <==>
            (Newest(vs[..|vs| - 1], p)
             || ((|vs| > 1 ==> vs[|vs| - 2].key != vs[|vs| - 1].key) && p == Pair(vs[|vs| - 1].key, vs[|vs| - 1].value)))
  {
    hide Less, Ordered;
    var n := |vs| - 1;
    var front := vs[..n];
    forall i: nat | i < n
      ensures vs[i].key == vs[n].key ==> vs[n - 1].key == vs[n].key && vs[i].seqNr > vs[n].seqNr
    {
      if vs[i].key == vs[n].key {
        OlderVersion(vs, i);
      }
      if vs[n - 1].key != vs[n].key {
        FreshKey(vs, i);
      }
    }
    if Newest(front, p) {
      var i :| NewestAt(front, i, p);
      assert NewestAt(vs, i, p);
    }
    if Newest(vs, p) {
      var i :| NewestAt(vs, i, p);
      assert i < n ==> NewestAt(front, i, p);
    }
    if (n > 0 ==> vs[n - 1].key != vs[n].key) && p == Pair(vs[n].key, vs[n].value) {
      assert NewestAt(vs, n, p);
    }
  }

  /** Skipping repeated keys keeps exactly the newest version of every key. */
  lemma {:induction false} DistinctIsNewest(vs: seq<Version>, p: Pair)
    requires Ordered(vs)
    ensures p in Distinct(vs) <==> Newest(vs, p)
  {
    hide Less, Newest;
    if vs != [] {
      NewestStep(vs, p);
      DistinctIsNewest(vs[..|vs| - 1], p);
    } else {
      NewestOfNothing(vs, p);
    }
  }

  lemma {:induction false} NewestOfNothing(vs: seq<Version>, p: Pair)
    requires vs == []
    ensures !Newest(vs, p)
  {
  }

  lemma {:induction false} EveryKeyKept(vs: seq<Version>, i: nat) returns (v: Bytes)
    requires i < |vs|
    ensures Pair(vs[i].key, v) in Distinct(vs)
  {
    var n := |vs| - 1;
    if n > 0 && vs[n - 1].key == vs[n].key {
      v := EveryKeyKept(vs[..n], if i == n then n - 1 else i);
    } else if i < n {
      v := EveryKeyKept(vs[..n], i);
    } else {
      v := vs[n].value;
    }
  }

  lemma {:induction false} DistinctFrom(vs: seq<Version>, p: Pair)
    requires p in Distinct(vs)
    ensures exists j :: 0 <= j < |vs| && vs[j].key == p.key && vs[j].value == p.value
  {
    if vs != [] {
      var n := |vs| - 1;
      if p in Distinct(vs[..n]) {
        DistinctFrom(vs[..n], p);
      } else {
        assert p == Pair(vs[n].key, vs[n].value);
      }
    }
  }

  lemma {:induction false} DistinctFew(vs: seq<Version>)
    ensures |Distinct(vs)| <= |vs|
  {
    if vs != [] {
      DistinctFew(vs[..|vs| - 1]);
    }
  }

  lemma {:induction false} DistinctSorted(vs: seq<Version>)
    requires Ordered(vs)
    ensures BlockReader.Sorted(Distinct(vs))
    ensures forall i :: 0 <= i < |Distinct(vs)| ==> exists j :: 0 <= j < |vs| && Distinct(vs)[i].key == vs[j].key
  {
    hide Less;
    if vs != [] {
      var n := |vs| - 1;
      var front := vs[..n];
      DistinctSorted(front);
      if n == 0 || vs[n - 1].key != vs[n].key {
        forall i | 0 <= i < |Distinct(front)|
          ensures Less(Distinct(front)[i].key, vs[n].key)
        {
          var j :| 0 <= j < |front| && Distinct(front)[i].key == front[j].key;
          FreshKey(vs, j);
        }
      }
    }
  }

  /** A committed page of `ps`, not empty, whose last key is `last`. */
  ghost predicate PageOf(page: Bytes, ps: seq<Pair>, last: Bytes, sum: Bytes -> nat) {
    |page| == PAGE && ps != [] && last == LastKey(ps) && exists chunks :: IsBlock(page, ps, chunks, GROUP, sum)
  }

  /** The pages hold `groups`, and the meta-index their last keys. */
  ghost predicate TableOf(pages: seq<Bytes>, meta: seq<Bytes>, groups: seq<seq<Pair>>, sum: Bytes -> nat) {
    && |pages| == |meta| == |groups|
    && forall i :: 0 <= i < |groups| ==> PageOf(pages[i], groups[i], meta[i], sum)
  }

  function Flat(groups: seq<seq<Pair>>): seq<Pair> {
    if groups == [] then [] else Flat(groups[..|groups| - 1]) + groups[|groups| - 1]
  }

  lemma {:induction false} TableMore(pages: seq<Bytes>, meta: seq<Bytes>, groups: seq<seq<Pair>>, sum: Bytes -> nat, page: Bytes, last: Bytes, ps: seq<Pair>)
    requires TableOf(pages, meta, groups, sum) && PageOf(page, ps, last, sum)
    ensures TableOf(pages + [page], meta + [last], groups + [ps], sum) && Flat(groups + [ps]) == Flat(groups) + ps
  {
    assert (groups + [ps])[..|groups|] == groups;
  }

  /** The entry fits a page of its own. */
  predicate Fits(p: Pair) {
    GoodKey(p.key) && 10 + Cost([], p, GROUP) <= PAGE
  }

  /** The write buffer with the pages of the table that are complete. */
  class Writer {
    const capacity: nat
    const encoder: Encoder
    var buffered: seq<Bytes>
    var file: seq<Bytes>
    var meta: seq<Bytes>
    ghost var groups: seq<seq<Pair>>

    ghost predicate Valid()
      reads this, encoder, encoder.page
    {
      && encoder.Valid() && encoder.group == GROUP && encoder.size == PAGE && !encoder.f.committed
      && TableOf(file + buffered, meta, groups, encoder.sum)
      && |buffered| < capacity
      && (groups != [] ==> encoder.pairs != [])
    }

    /** All pairs written so far. */
    ghost function Pairs(): seq<Pair>
      reads this, encoder
    {
      Flat(groups) + encoder.pairs
    }

    constructor (capacity: nat, sum: Bytes -> nat)
      requires capacity > 0
      ensures Valid() && Pairs() == [] && fresh(encoder) && fresh(encoder.page) && encoder.sum == sum
    {
      this.capacity := capacity;
      var page := new Byte[PAGE](i => 0);
      encoder := new Encoder(page, GROUP, sum);
      buffered, file, meta, groups := [], [], [], [];
    }

    /** A page is full: index it, hand it over, and flush the buffer when it was the last in it. */
    method EndOfBlock()
      requires encoder.Valid() && encoder.group == GROUP && encoder.size == PAGE && encoder.f.committed && encoder.pairs != []
      requires TableOf(file + buffered, meta, groups, encoder.sum) && |buffered| < capacity
      modifies this, encoder
      ensures encoder.Valid() && encoder.pairs == [] && !encoder.f.committed && encoder.page == old(encoder.page)
      ensures TableOf(file + buffered, meta, groups, encoder.sum) && |buffered| < capacity
      ensures Flat(groups) == old(Pairs()) && groups != []
    {
      hide Holds, TableOf, PageOf, Flat;
      var page := encoder.page[..];
      BlockIs(encoder, page);
      TableMore(file + buffered, meta, groups, encoder.sum, page, encoder.f.lastKey, encoder.pairs);
      assert file + buffered + [page] == file + (buffered + [page]);
      meta, groups := meta + [encoder.f.lastKey], groups + [encoder.pairs];
      buffered := buffered + [page];
      if |buffered| == capacity {
        file, buffered := file + buffered, [];
        assert file + buffered == file;
      }
      encoder.Reset(encoder.page);
    }

    /** Write a pair to this page or the next; an entry too large for a page of its own is an error. */
    method WriteItem(key: Bytes, value: Bytes) returns (ok: bool)
      requires Valid() && GoodKey(key)
      modifies this, encoder, encoder.page
      ensures ok <==> Fits(Pair(key, value))
      ensures encoder.page == old(encoder.page)
      ensures ok ==> Valid() && Pairs() == old(Pairs()) + [Pair(key, value)]
    {
      hide Holds, TableOf, Cost, Ledger;
      FitsAlone(encoder.pairs, Pair(key, value));
      var s := encoder.Push(key, value);
      if s == BufferFull {
        if encoder.f.count == 0 {
          CountIs(encoder);
          return false;
        }
        CountIs(encoder);
        EndOfBlock();
        FitsAlone(encoder.pairs, Pair(key, value));
        s := encoder.Push(key, value);
      }
      return s == Ok;
    }
  }

  /** An entry that fits where entries are already fits an empty page as well. */
  lemma {:induction false} FitsAlone(ps: seq<Pair>, p: Pair)
    ensures GoodKey(p.key) && Ledger(ps, GROUP) + Cost(ps, p, GROUP) <= PAGE ==> Fits(p)
    ensures ps == [] ==> Ledger(ps, GROUP) == 10
  {
    hide Cost, LastKey, Tail;
    EntryCosts(ps, p, GROUP);
    if ps != [] {
      EntriesCoverKey(ps, GROUP);
    }
  }

  /** What a pair costs in an empty page, and in a page with entries. */
  lemma {:induction false} EntryCosts(ps: seq<Pair>, p: Pair, g: nat)
    requires g > 0
    ensures Cost([], p, g) == 3 + |p.key| + |Tail(p.value)|
    ensures Cost(ps, p, g) >= 2 + |p.key| - |LastKey(ps)|
    ensures ps != [] ==> Cost(ps, p, g) >= 2 + |p.key| - |LastKey(ps)| + |Tail(p.value)|
  {
    hide Tail;
  }

  /** The entries of a page take more room than the last of its keys. */
  lemma {:induction false} EntriesCoverKey(ps: seq<Pair>, g: nat)
    requires g > 0 && ps != []
    ensures Ledger(ps, g) >= |LastKey(ps)| + 12
  {
    var n := |ps| - 1;
    EntryCosts(ps[..n], ps[n], g);
    hide Cost;
    if n > 0 {
      EntriesCoverKey(ps[..n], g);
    }
  }

  /** A committed encoder holds a page of the table. */
  lemma {:induction false} BlockIs(e: Encoder, page: Bytes)
    requires e.Valid() && e.group == GROUP && e.size == PAGE && e.f.committed && e.pairs != [] && page == e.page[..]
    ensures PageOf(page, e.pairs, e.f.lastKey, e.sum)
  {
    assert IsBlock(page, e.pairs, e.chunks, GROUP, e.sum);
  }

  lemma {:induction false} TableSizes(pages: seq<Bytes>, meta: seq<Bytes>, groups: seq<seq<Pair>>, sum: Bytes -> nat)
    requires TableOf(pages, meta, groups, sum)
    ensures |pages| == |meta| == |groups|
  {
  }

  lemma {:induction false} CountIs(e: Encoder)
    requires e.Valid()
    ensures e.f.count == |e.pairs|
  {
  }

  ghost predicate AllFit(ps: seq<Pair>) {
    forall i :: 0 <= i < |ps| ==> Fits(ps[i])
  }

  lemma {:induction false} DistinctGrows(vs: seq<Version>, i: nat)
    requires i <= |vs|
    ensures Distinct(vs[..i]) <= Distinct(vs)
  {
    if i == |vs| {
      assert vs[..i] == vs;
    } else {
      var front := vs[..|vs| - 1];
      DistinctGrows(front, i);
      assert front[..i] == vs[..i];
    }
  }

  /** Write the first version of every key; `pages` is the data part of the file. */
  method WriteIndex(vs: seq<Version>, capacity: nat, sum: Bytes -> nat)
    returns (ok: bool, pages: seq<Bytes>, meta: seq<Bytes>, ghost groups: seq<seq<Pair>>)
    requires capacity > 0 && forall i :: 0 <= i < |vs| ==> GoodKey(vs[i].key)
    ensures ok <==> AllFit(Distinct(vs))
    ensures ok ==> TableOf(pages, meta, groups, sum) && Flat(groups) == Distinct(vs)
  {
    hide Holds, TableOf, PageOf, Cost, Flat, Fits;
    var w := new Writer(capacity, sum);
    var prevKey: Option<Bytes> := None;
    for i := 0 to |vs|
      invariant w.Valid() && fresh(w) && fresh(w.encoder) && fresh(w.encoder.page) && w.encoder.sum == sum
      invariant w.Pairs() == Distinct(vs[..i]) && AllFit(Distinct(vs[..i]))
      invariant prevKey == if i == 0 then None else Some(vs[i - 1].key)
    {
      assert vs[..i + 1][..i] == vs[..i];
      if prevKey == Some(vs[i].key) {
        continue;
      }
      prevKey := Some(vs[i].key);
      ok := w.WriteItem(vs[i].key, vs[i].value);
      if !ok {
        DistinctGrows(vs, i + 1);
        assert Distinct(vs[..i + 1])[|Distinct(vs[..i])|] == Pair(vs[i].key, vs[i].value);
        return false, [], [], [];
      }
    }
    assert vs[..|vs|] == vs;
    ok := true;
    pages, meta, groups := Finish(w);
  }

  /** Flush what is left in the buffer. */
  method Finish(w: Writer) returns (pages: seq<Bytes>, meta: seq<Bytes>, ghost groups: seq<seq<Pair>>)
    requires w.Valid()
    modifies w.encoder, w.encoder.page
    ensures TableOf(pages, meta, groups, w.encoder.sum) && Flat(groups) == old(w.Pairs())
  {
    hide Holds, TableOf, PageOf, Flat;
    CountIs(w.encoder);
    TableSizes(w.file + w.buffered, w.meta, w.groups, w.encoder.sum);
    pages, meta, groups := w.file + w.buffered, w.meta, w.groups;
    if w.buffered != [] || w.encoder.f.count != 0 {
      w.encoder.Commit();
      var page := w.encoder.page[..];
      BlockIs(w.encoder, page);
      TableMore(pages, meta, groups, w.encoder.sum, page, w.encoder.f.lastKey, w.encoder.pairs);
      pages, meta, groups := pages + [page], meta + [w.encoder.f.lastKey], groups + [w.encoder.pairs];
    }
  }
}
