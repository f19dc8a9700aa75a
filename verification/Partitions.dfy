/** Splitting the key space: partition ids, and cutting a sorted memtable into one range for each partition,
    so that the ranges put together again are the memtable. */
module Partitions {
  import opened Arith
  import opened Bytes
  import opened Table

  /** The first two bytes of a key. */
  function Prefix(k: Bytes): (r: nat)
    requires 2 <= |k|
    ensures r < 65536
  {
    k[1] as int + k[0] as int * 256
  }

  /** The id of the partition that holds `k`: the greatest prefix in it. */
  function PartitionId(k: Bytes, size: nat): nat
    requires 2 <= |k| && size > 0
  {
    var p := Prefix(k);
    PosMul((p + size) / size, size);
    (p + size) / size * size - 1
  }

  lemma {:induction false} PosMul(q: nat, size: nat)
    requires size > 0
    ensures q > 0 ==> q * size >= 1
  {
  }

  /** How many prefixes share a partition. */
  function PartitionSize(exponent: nat): (size: nat)
    requires exponent <= 16
    ensures size > 0
  {
    Divides(exponent);
    65536 / Pow2(exponent)
  }

  lemma {:induction false} Divides(exponent: nat)
    requires exponent <= 16
    ensures Pow2(exponent) * Pow2(16 - exponent) == 65536 && 65536 / Pow2(exponent) == Pow2(16 - exponent)
  {
    hide Pow2;
    Pow2Adds(exponent, 16 - exponent);
    Pow16(16);
    DivModUnique(65536, Pow2(exponent), Pow2(16 - exponent), 0);
  }

  lemma {:induction false} Pow16(n: nat)
    requires n == 16
    ensures Pow2(n) == 65536
  {
    assert Pow2(8) == 256;
    Pow2Adds(8, 8);
  }

  lemma {:induction false} PrefixMonotone(a: Bytes, b: Bytes)
    requires 2 <= |a| && 2 <= |b| && !Less(b, a)
    ensures Prefix(a) <= Prefix(b)
  {
  }

  /** Both bytes count: the prefix determines them. */
  lemma {:induction false} PrefixIs(k: Bytes)
    requires 2 <= |k|
    ensures Prefix(k) / 256 == k[0] && Prefix(k) % 256 == k[1]
  {
    DivModUnique(Prefix(k), 256, k[0] as int, k[1] as int);
  }

  /** `id` is the greatest prefix of a partition. */
  predicate EndsPartition(id: nat, size: nat)
    requires size > 0
  {
    (id + 1) % size == 0
  }

  /** The id is the first number from the prefix on that is one below a multiple of the size. */
  lemma {:induction false} IdIs(k: Bytes, size: nat)
    requires 2 <= |k| && size > 0
    ensures Prefix(k) <= PartitionId(k, size) < Prefix(k) + size
    ensures EndsPartition(PartitionId(k, size), size)
    ensures forall id: nat :: Prefix(k) <= id < PartitionId(k, size) ==> !EndsPartition(id, size)
  {
    hide Prefix;
    var p, id := Prefix(k), PartitionId(k, size);
    var q := (p + size) / size;
    assert p + size == size * q + (p + size) % size;
    assert id + 1 == size * q by {
      assert q * size == size * q;
    }
    DivModUnique(id + 1, size, q, 0);
    forall x: nat | p <= x < id
      ensures !EndsPartition(x, size)
    {
      NoMultipleBetween(size, q, x + 1);
    }
  }

  lemma {:induction false} NoMultipleBetween(size: nat, q: nat, x: nat)
    requires size > 0 && x < size * q < x + size
    ensures x % size != 0
  {
    var y := x / size;
    assert x == size * y + x % size;
    if x % size == 0 {
      if q <= y {
        MulOrder(size, q, y);
      } else {
        MulGap(size, y, q);
      }
    }
  }

  /** Two keys share a partition exactly when their prefixes lie between the same multiples of the size. */
  lemma {:induction false} IdSharedIff(a: Bytes, b: Bytes, size: nat)
    requires 2 <= |a| && 2 <= |b| && size > 0
    ensures PartitionId(a, size) == PartitionId(b, size) <==> Prefix(a) / size == Prefix(b) / size
  {
    hide Prefix;
    var x, y := Prefix(a) / size, Prefix(b) / size;
    OneMoreSize(Prefix(a), size);
    OneMoreSize(Prefix(b), size);
    MulOrder(size, x + 1, y + 1);
    MulOrder(size, y + 1, x + 1);
    assert (x + 1) * size == size * (x + 1) && (y + 1) * size == size * (y + 1);
  }

  lemma {:induction false} OneMoreSize(p: nat, size: nat)
    requires size > 0
    ensures (p + size) / size == p / size + 1
  {
    assert p == size * (p / size) + p % size;
    assert size * (p / size + 1) == size * (p / size) + size;
    DivModUnique(p + size, size, p / size + 1, p % size);
  }

  /** The id is monotone in key order. */
  lemma {:induction false} IdMonotone(a: Bytes, b: Bytes, size: nat)
    requires 2 <= |a| && 2 <= |b| && size > 0 && !Less(b, a)
    ensures PartitionId(a, size) <= PartitionId(b, size)
  {
    hide Less, Prefix;
    PrefixMonotone(a, b);
    DivMonotone(Prefix(a) + size, Prefix(b) + size, size);
    MulOrder(size, (Prefix(a) + size) / size, (Prefix(b) + size) / size);
  }

  lemma {:induction false} DivMonotone(p: nat, q: nat, size: nat)
    requires size > 0 && p <= q
    ensures p / size <= q / size
  {
    var x, y := p / size, q / size;
    assert p == size * x + p % size && q == size * y + q % size;
    if y < x {
      MulGap(size, y, x);
    }
  }

  /** The greatest prefix in the `i`-th partition. */
  function NthId(i: nat, size: nat): nat
    requires size > 0
  {
    PosMul(i + 1, size);
    (i + 1) * size - 1
  }

  lemma {:induction false} IdFits(i: nat, n: nat, size: nat)
    requires i < n && n * size == 65536 && size > 0
    ensures NthId(i, size) < 65536 && NthId(i, size) % 65536 == NthId(i, size)
  {
    MulOrder(size, i + 1, n);
  }

  /** The last partition ends where the prefixes end. */
  lemma {:induction false} LastId(n: nat, size: nat)
    requires n * size == 65536
    ensures n > 0 && size > 0 && NthId(n - 1, size) == 65535
  {
  }

  lemma {:induction false} SizeIs(exponent: nat)
    requires exponent <= 16
    ensures Pow2(exponent) * PartitionSize(exponent) == 65536
  {
    hide Pow2;
    Divides(exponent);
  }

  /** The partitions are created with these ids, which fit sixteen bits. */
  method CreatePartitions(exponent: nat) returns (ids: seq<nat>)
    requires exponent <= 16
    ensures |ids| == Pow2(exponent)
    ensures forall i :: 0 <= i < |ids| ==> ids[i] == NthId(i, PartitionSize(exponent)) < 65536
    ensures ids != [] && ids[|ids| - 1] == 65535
  {
    hide Pow2, PartitionSize, NthId;
    var n, size := Pow2(exponent), PartitionSize(exponent);
    SizeIs(exponent);
    ids := [];
    for i := 0 to n
      invariant |ids| == i
      invariant forall j :: 0 <= j < i ==> ids[j] == NthId(j, size) < 65536
    {
      IdFits(i, n, size);
      ids := ids + [NthId(i, size) % 65536];
    }
    LastId(n, size);
  }

  /** Every key belongs to one of the partitions that were created: the first whose id is not below its prefix. */
  lemma {:induction false} IdIsCreated(k: Bytes, exponent: nat, ids: seq<nat>)
    requires 2 <= |k| && exponent <= 16 && |ids| == Pow2(exponent)
    requires forall i :: 0 <= i < |ids| ==> ids[i] == NthId(i, PartitionSize(exponent))
    ensures PartitionId(k, PartitionSize(exponent)) in ids
    ensures Prefix(k) <= PartitionId(k, PartitionSize(exponent))
    ensures forall i :: 0 <= i < |ids| && Prefix(k) <= ids[i] ==> PartitionId(k, PartitionSize(exponent)) <= ids[i]
  {
    hide Pow2;
    var size, p := PartitionSize(exponent), Prefix(k);
    Divides(exponent);
    var i := p / size;
    QuotientBelow(p, size, |ids|);
    assert ids[i] == PartitionId(k, size);
    IdIs(k, size);
    hide PartitionId, PartitionSize, Prefix;
    forall j | 0 <= j < |ids| && p <= ids[j]
      ensures PartitionId(k, size) <= ids[j]
    {
      NthIsMultiple(j, size);
      assert ids[j] == NthId(j, size);
    }
  }

  lemma {:induction false} NthIsMultiple(j: nat, size: nat)
    requires size > 0
    ensures EndsPartition(NthId(j, size), size)
  {
    assert (j + 1) * size == size * (j + 1);
    DivModUnique(NthId(j, size) + 1, size, j + 1, 0);
  }

  lemma {:induction false} QuotientBelow(p: nat, size: nat, n: nat)
    requires size > 0 && p < n * size
    ensures p / size < n && (p + size) / size == p / size + 1
  {
    var i := p / size;
    DivModUnique(p + size, size, i + 1, p % size);
    assert p == size * i + p % size;
    MulOrder(size, n, i);
  }

  lemma {:induction false} MulOrder(m: nat, i: nat, j: nat)
    requires m > 0
    ensures m * i <= m * j <==> i <= j
  {
  }

  datatype Range = Range(id: nat, begin: nat, end: nat, count: nat, sumLengths: nat)

  function SumLengths(vs: seq<Version>, a: nat, b: nat): nat
    requires a <= b <= |vs|
  {
    if a == b then 0 else SumLengths(vs, a, b - 1) + |vs[b - 1].key| + |vs[b - 1].value|
  }

  /** All keys and values of some versions, one after the other. */
  function Text(vs: seq<Version>): Bytes {
    if vs == [] then [] else Text(vs[..|vs| - 1]) + vs[|vs| - 1].key + vs[|vs| - 1].value
  }

  /** The lengths of a range add up to the bytes in it. */
  lemma {:induction false} SumLengthsIs(vs: seq<Version>, a: nat, b: nat)
    requires a <= b <= |vs|
    ensures SumLengths(vs, a, b) == |Text(vs[a..b])|
  {
    if a < b {
      SumLengthsIs(vs, a, b - 1);
      assert vs[a..b][..b - 1 - a] == vs[a..b - 1];
    }
  }

  ghost predicate RangeOk(vs: seq<Version>, size: nat, r: Range)
    requires size > 0 && forall j :: 0 <= j < |vs| ==> 2 <= |vs[j].key|
  {
    && r.begin < r.end <= |vs| && r.count == r.end - r.begin && r.sumLengths == SumLengths(vs, r.begin, r.end)
    && forall j :: r.begin <= j < r.end ==> PartitionId(vs[j].key, size) == r.id
  }

  /** A range begins where the one before it ends. */
  ghost predicate Joined(rs: seq<Range>, i: int) {
    0 <= i < |rs| && rs[i].begin == if i == 0 then 0 else rs[i - 1].end
  }

  /** The ranges cut `vs[..n]` without gaps, in order of their ids. */
  ghost predicate Splits(vs: seq<Version>, size: nat, rs: seq<Range>, n: nat)
    requires size > 0 && forall j :: 0 <= j < |vs| ==> 2 <= |vs[j].key|
  {
    && (forall i :: 0 <= i < |rs| ==> RangeOk(vs, size, rs[i]))
    && (forall i :: 0 <= i < |rs| ==> Joined(rs, i))
    && n == (if rs == [] then 0 else rs[|rs| - 1].end)
    && forall i, j :: 0 <= i < j < |rs| ==> rs[i].id < rs[j].id
  }

  method PartitionRanges(vs: seq<Version>, exponent: nat) returns (rs: seq<Range>)
    requires exponent <= 16 && Ordered(vs) && forall j :: 0 <= j < |vs| ==> 2 <= |vs[j].key|
    ensures Splits(vs, PartitionSize(exponent), rs, |vs|)
  {
    hide PartitionId, Ordered, RangeOk, PartitionSize, Splits;
    SplitsNothing(vs, PartitionSize(exponent));
    var size := PartitionSize(exponent);
    rs := [];
    if vs == [] {
      return;
    }
    var current, begin, count, sum := PartitionId(vs[0].key, size), 0, 0, 0;
    for i := 0 to |vs|
      invariant begin <= i && (i > 0 ==> begin < i) && count == i - begin && sum == SumLengths(vs, begin, i)
      invariant current == PartitionId(vs[begin].key, size) && forall j :: begin <= j < i ==> PartitionId(vs[j].key, size) == current
      invariant Splits(vs, size, rs, begin)
      invariant forall j :: 0 <= j < |rs| ==> rs[j].id < current
    {
      var id := PartitionId(vs[i].key, size);
      if id != current {
        RangeIs(vs, size, Range(current, begin, i, count, sum));
        Later(vs, begin, i, size);
        SplitsMore(vs, size, rs, begin, Range(current, begin, i, count, sum));
        rs := rs + [Range(current, begin, i, count, sum)];
        current, begin, count, sum := id, i, 0, 0;
      }
      count := count + 1;
      sum := sum + |vs[i].key| + |vs[i].value|;
    }
    RangeIs(vs, size, Range(current, begin, |vs|, count, sum));
    SplitsMore(vs, size, rs, begin, Range(current, begin, |vs|, count, sum));
    rs := rs + [Range(current, begin, |vs|, count, sum)];
  }

  lemma {:induction false} SplitsNothing(vs: seq<Version>, size: nat)
    requires size > 0 && forall j :: 0 <= j < |vs| ==> 2 <= |vs[j].key|
    ensures Splits(vs, size, [], 0)
  {
  }

  lemma {:induction false} SplitsMore(vs: seq<Version>, size: nat, rs: seq<Range>, n: nat, r: Range)
    requires size > 0 && (forall j :: 0 <= j < |vs| ==> 2 <= |vs[j].key|) && Splits(vs, size, rs, n)
    requires RangeOk(vs, size, r) && r.begin == n && forall i :: 0 <= i < |rs| ==> rs[i].id < r.id
    ensures Splits(vs, size, rs + [r], r.end)
  {
    hide PartitionId, RangeOk;
    var qs := rs + [r];
    forall i | 0 <= i < |qs|
      ensures RangeOk(vs, size, qs[i]) && Joined(qs, i)
    {
      if i < |rs| {
        assert RangeOk(vs, size, rs[i]) && Joined(rs, i);
      }
    }
  }

  lemma {:induction false} SplitsFewer(vs: seq<Version>, size: nat, rs: seq<Range>, n: nat)
    requires size > 0 && (forall j :: 0 <= j < |vs| ==> 2 <= |vs[j].key|) && Splits(vs, size, rs, n) && rs != []
    ensures Splits(vs, size, rs[..|rs| - 1], rs[|rs| - 1].begin) && RangeOk(vs, size, rs[|rs| - 1])
  {
    hide PartitionId, RangeOk;
    var m := |rs| - 1;
    assert RangeOk(vs, size, rs[m]) && Joined(rs, m);
    forall i | 0 <= i < m
      ensures RangeOk(vs, size, rs[..m][i]) && Joined(rs[..m], i)
    {
      assert RangeOk(vs, size, rs[i]) && Joined(rs, i);
    }
  }

  lemma {:induction false} RangeIs(vs: seq<Version>, size: nat, r: Range)
    requires size > 0 && forall j :: 0 <= j < |vs| ==> 2 <= |vs[j].key|
    requires r.begin < r.end <= |vs| && r.count == r.end - r.begin && r.sumLengths == SumLengths(vs, r.begin, r.end)
    requires forall j :: r.begin <= j < r.end ==> PartitionId(vs[j].key, size) == r.id
    ensures RangeOk(vs, size, r)
  {
  }

  lemma {:induction false} Later(vs: seq<Version>, i: nat, j: nat, size: nat)
    requires size > 0 && Ordered(vs) && i <= j < |vs| && 2 <= |vs[i].key| && 2 <= |vs[j].key|
    ensures PartitionId(vs[i].key, size) <= PartitionId(vs[j].key, size)
  {
    hide PartitionId, Less;
    if i < j {
      assert Before(vs[i], vs[j]);
      LessTotal(vs[i].key, vs[j].key);
      IdMonotone(vs[i].key, vs[j].key, size);
    }
  }

  function Pieces(vs: seq<Version>, rs: seq<Range>): seq<Version>
    requires forall i :: 0 <= i < |rs| ==> rs[i].begin <= rs[i].end <= |vs|
  {
    if rs == [] then [] else Pieces(vs, rs[..|rs| - 1]) + vs[rs[|rs| - 1].begin..rs[|rs| - 1].end]
  }

  /** The ranges put together again are the memtable. */
  lemma {:induction false} PiecesConcat(vs: seq<Version>, size: nat, rs: seq<Range>, n: nat)
    requires size > 0 && (forall j :: 0 <= j < |vs| ==> 2 <= |vs[j].key|) && Splits(vs, size, rs, n)
    ensures forall i :: 0 <= i < |rs| ==> rs[i].begin <= rs[i].end <= |vs|
    ensures n <= |vs| && Pieces(vs, rs) == vs[..n]
  {
    hide PartitionId;
    if rs != [] {
      var m := |rs| - 1;
      SplitsFewer(vs, size, rs, n);
      PiecesConcat(vs, size, rs[..m], rs[m].begin);
      assert vs[..rs[m].begin] + vs[rs[m].begin..rs[m].end] == vs[..rs[m].end];
    }
  }

  /** A key is found in the range of its own id and in no other; that range is for the prefixes from its own up to the id. */
  lemma {:induction false} RoutesToRange(vs: seq<Version>, size: nat, rs: seq<Range>, n: nat, j: nat) returns (i: nat)
    requires size > 0 && (forall x :: 0 <= x < |vs| ==> 2 <= |vs[x].key|) && Splits(vs, size, rs, n) && j < n
    ensures j < |vs| && i < |rs| && rs[i].id == PartitionId(vs[j].key, size) && rs[i].begin <= j < rs[i].end
    ensures forall x :: 0 <= x < |rs| && rs[x].id == PartitionId(vs[j].key, size) ==> x == i
    ensures Prefix(vs[j].key) <= rs[i].id < Prefix(vs[j].key) + size && EndsPartition(rs[i].id, size)
  {
    IdIs(vs[j].key, size);
    hide PartitionId, Prefix, EndsPartition;
    SplitsFewer(vs, size, rs, n);
    var m := |rs| - 1;
    if rs[m].begin <= j {
      i := m;
    } else {
      i := RoutesToRange(vs, size, rs[..m], rs[m].begin, j);
    }
  }
}
