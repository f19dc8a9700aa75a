/** Point lookups through pages, as lookups in the contents of the state machine. */
module StoreLookup {
  import opened Bytes
  import opened Versions
  import opened Block
  import opened BlockReader
  import opened Table
  import opened TableLookup
  import Merge
  import opened ScanStorage
  import opened StoreScan
  import M = Memtable
  import opened MetaIndex
  import opened QuotientFilter

  /** The content of stored pairs: keys by rank, values by their type byte. */
  function ContentOf(ps: seq<Pair>, decode: Bytes -> Value): Content
    requires ShortKeys(ps)
  {
    if ps == [] then map[]
    else ContentOf(ps[..|ps| - 1], decode)[Rank(ps[|ps| - 1].key, MAX_KEY) := decode(ps[|ps| - 1].value)]
  }

  /** Every pair of a sorted table is in its content, and nothing else is. */
  lemma {:induction false} ContentLists(ps: seq<Pair>, decode: Bytes -> Value)
    requires ShortKeys(ps) && BlockReader.Sorted(ps)
    ensures Merge.Lists(RankedAll(ps, decode), ContentOf(ps, decode))
  {
    hide Less, Rank;
    RankedSorted(ps, decode);
    if ps != [] {
      var n := |ps| - 1;
      ContentLists(ps[..n], decode);
      var s, m := RankedAll(ps[..n], decode), ContentOf(ps[..n], decode);
      var last := Ranked(ps[n], decode);
      assert RankedAll(ps, decode) == s + [last];
    }
  }

  /** An answer for byte keys is a lookup in the content. */
  lemma {:induction false} AnswerIsGet(ps: seq<Pair>, decode: Bytes -> Value, key: Bytes, r: Option<Bytes>)
    requires ShortKeys(ps) && BlockReader.Sorted(ps) && |key| <= MAX_KEY && Answers(ps, key, r)
    ensures Get(ContentOf(ps, decode), Rank(key, MAX_KEY)) == if r.Some? then Some(decode(r.value)) else None
  {
    hide Less, Rank, ContentOf, RankedAll, BlockReader.Sorted;
    ContentLists(ps, decode);
    var s, c, k := RankedAll(ps, decode), ContentOf(ps, decode), Rank(key, MAX_KEY);
    if r.Some? {
      var i :| 0 <= i < |ps| && ps[i] == Pair(key, r.value);
      assert s[i] in s;
    } else if k in c {
      assert Merge.KV(k, c[k]) in s;
      var i :| 0 <= i < |s| && s[i] == Merge.KV(k, c[k]);
      RankIsOrder(ps[i].key, key, MAX_KEY);
    }
  }

  /** The tables of the state machine hold what the files hold. */
  ghost predicate Stands(ts: seq<Versions.Table>, ssts: seq<Sst>, decode: Bytes -> Value)
  {
    && |ts| == |ssts|
    && (forall i :: 0 <= i < |ssts| ==> ShortKeys(Distinct(ssts[i].vs)))
    && forall i :: 0 <= i < |ssts| ==> ts[i].content == ContentOf(Distinct(ssts[i].vs), decode)
  }

  /** One file answers as its content does. */
  method FindInFile(t: Sst, key: Bytes, decode: Bytes -> Value) returns (r: Option<Value>)
    requires t.Valid() && ShortKeys(Distinct(t.vs)) && |key| <= MAX_KEY
    ensures r == Get(ContentOf(Distinct(t.vs), decode), Rank(key, MAX_KEY))
  {
    assert Ordered(t.vs);
    hide Rank, ContentOf, Distinct, ShortKeys, Sst.Valid, AnswersNewest, Answers, Ordered, BlockReader.Sorted;
    var raw := t.Lookup(key);
    NewestAnswers(t.vs, key, raw);
    DistinctSorted(t.vs);
    AnswerIsGet(Distinct(t.vs), decode, key, raw);
    return if raw.Some? then Some(decode(raw.value)) else None;
  }

  /** Probing filters and pages from the newest file down finds what the search over the tables finds. */
  method FindInFiles(ssts: seq<Sst>, key: Bytes, decode: Bytes -> Value, ghost ts: seq<Versions.Table>) returns (r: Option<Value>)
    requires (forall i :: 0 <= i < |ssts| ==> ssts[i].Valid()) && Stands(ts, ssts, decode) && |key| <= MAX_KEY
    ensures r == Search(ts, Rank(key, MAX_KEY))
  {
    hide Rank, ContentOf, Distinct, ShortKeys, Sst.Valid;
    var n := |ssts|;
    assert ts[..n] == ts;
    while n > 0
      invariant 0 <= n <= |ssts|
      invariant Search(ts, Rank(key, MAX_KEY)) == Search(ts[..n], Rank(key, MAX_KEY))
    {
      n := n - 1;
      assert ts[..n + 1][..n] == ts[..n];
      r := FindInFile(ssts[n], key, decode);
      if r.Some? {
        return;
      }
    }
    return None;
  }

  lemma {:induction false} NewestAnswers(vs: seq<Version>, key: Bytes, r: Option<Bytes>)
    requires Ordered(vs) && AnswersNewest(vs, key, r)
    ensures Answers(Distinct(vs), key, r)
  {
    hide Distinct, Ordered;
    match r
    case Some(v) => DistinctIsNewest(vs, Pair(key, v));
    case None =>
      forall v
        ensures Pair(key, v) !in Distinct(vs)
      {
        DistinctIsNewest(vs, Pair(key, v));
      }
  }

  /** What a scan returns for a key is what a point lookup finds. */
  lemma {:induction false} ScanAgreesWithLookup(whole: seq<Source>, ts: seq<Versions.Table>, decode: Bytes -> Value, k: Bytes, v: Value)
    requires |whole| == |ts| && |k| <= MAX_KEY
    requires forall i :: 0 <= i < |ts| ==> ShortKeys(whole[i].pairs) && BlockReader.Sorted(whole[i].pairs)
    requires forall i :: 0 <= i < |ts| ==> ts[i].content == ContentOf(whole[i].pairs, decode) && ts[i].epoch == whole[i].epoch
    requires forall i, j :: 0 <= i < j < |ts| ==> ts[i].epoch < ts[j].epoch
    ensures NewestIn(AsSet(whole), k, v, decode) <==> Search(ts, Rank(k, MAX_KEY)) == Some(v)
  {
    hide Rank, ContentOf, RankedAll, RankedSources, ShortKeys, BlockReader.Sorted, NewestIn, Search, Merge.Newest;
    var src, epochs := RankedSources(whole, decode), seq(|whole|, i requires 0 <= i < |whole| => whole[i].epoch);
    forall i | 0 <= i < |ts|
      ensures Merge.Lists(src[i], ts[i].content)
    {
      ContentLists(whole[i].pairs, decode);
    }
    NewestByRank(whole, epochs, src, decode, k, v);
    Merge.NewestIsSearch(ts, src, epochs, Merge.KV(Rank(k, MAX_KEY), v));
  }

  /** A table that was written and loaded is a file that a scan can read. */
  lemma {:induction false} SstIsGoodFile(t: Sst, epoch: nat)
    requires t.Valid()
    ensures GoodFile(File(t.pages, t.meta, t.super, epoch), t.groups, t.sum) && Flat(t.groups) == Distinct(t.vs)
  {
    hide Ordered, Flat, Distinct, BlockReader.Sorted, TableOf, IsSuper, AllClean, HasValues, Filter.Valid, Hashes;
  }

  /** A memtable can be read by a scan, unless its bounds are reversed. */
  lemma {:induction false} MemtableIsGood(t: M.Memtable, epoch: nat, lower: Option<Bytes>, upper: Option<Bytes>)
    requires t.Valid() && !Reversed(lower, upper) && forall i :: 0 <= i < |t.vs| ==> |t.vs[i].key| <= MAX_KEY
    ensures GoodMem(Mem(t.vs, epoch), lower, upper)
    ensures forall p :: p in MemSource(Mem(t.vs, epoch)).pairs <==> p.key in t.view && t.view[p.key] == p.value
  {
    hide Less, Newest, Distinct, M.First, M.End;
    M.BoundsInOrder(t.vs, lower, upper);
    forall p
      ensures p in Distinct(t.vs) <==> p.key in t.view && t.view[p.key] == p.value
    {
      DistinctIsNewest(t.vs, p);
    }
  }
}
