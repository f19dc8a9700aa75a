/** A memtable: versions ordered by key, newer first, with lookups, insertions and cursors over the newest versions
    of a range of keys. */
module Memtable {
  import opened Bytes
  import opened Versions
  import opened Block
  import opened Table

  /** The first version whose key is not below `key`: the lower bound of `key` with the largest sequence number. */
  function LowerBound(vs: seq<Version>, key: Bytes): (i: nat)
    ensures i <= |vs|
    ensures forall j :: 0 <= j < i ==> Less(vs[j].key, key)
    ensures i < |vs| ==> !Less(vs[i].key, key)
  {
    if vs == [] || !Less(vs[0].key, key) then 0 else 1 + LowerBound(vs[1..], key)
  }

  /** Behind the lower bound no key is below. */
  lemma {:induction false} NotBelow(vs: seq<Version>, key: Bytes, j: nat)
    requires Ordered(vs) && LowerBound(vs, key) <= j < |vs|
    ensures !Less(vs[j].key, key)
  {
    hide Less, LowerBound;
    var i := LowerBound(vs, key);
    if i < j {
      assert Before(vs[i], vs[j]);
      if Less(vs[j].key, key) && vs[i].key != vs[j].key {
        LessTransitive(vs[i].key, vs[j].key, key);
      }
    }
  }

  /** Where a new version belongs. */
  function Place(vs: seq<Version>, v: Version): (i: nat)
    ensures i <= |vs|
    ensures forall j :: 0 <= j < i ==> Before(vs[j], v)
    ensures i < |vs| ==> !Before(vs[i], v)
  {
    if vs == [] || !Before(vs[0], v) then 0 else 1 + Place(vs[1..], v)
  }

  lemma {:induction false} BeforeTotal(a: Version, b: Version)
    ensures Before(a, b) || Before(b, a) || (a.key == b.key && a.seqNr == b.seqNr)
  {
    LessTotal(a.key, b.key);
  }

  lemma {:induction false} BeforeTransitive(a: Version, b: Version, c: Version)
    requires Before(a, b) && Before(b, c)
    ensures Before(a, c)
  {
    hide Less;
    if Less(a.key, b.key) && Less(b.key, c.key) {
      LessTransitive(a.key, b.key, c.key);
    }
  }

  function Inserted(vs: seq<Version>, v: Version): seq<Version> {
    vs[..Place(vs, v)] + [v] + vs[Place(vs, v)..]
  }

  lemma {:induction false} InsertedOrdered(vs: seq<Version>, v: Version)
    requires Ordered(vs) && forall i :: 0 <= i < |vs| ==> vs[i].seqNr != v.seqNr
    ensures Ordered(Inserted(vs, v))
  {
    hide Before, Place;
    var p, s := Place(vs, v), Inserted(vs, v);
    forall j | p <= j < |vs|
      ensures Before(v, vs[j])
    {
      BeforeTotal(v, vs[p]);
      if p < j {
        BeforeTransitive(v, vs[p], vs[j]);
      }
    }
    forall i, j | 0 <= i < j < |s|
      ensures Before(s[i], s[j])
    {
      var a, b := if i <= p then i else i - 1, if j <= p then j else j - 1;
      assert s[i] == (if i == p then v else vs[a]) && s[j] == (if j == p then v else vs[b]);
    }
  }

  lemma {:induction false} InsertedAt(vs: seq<Version>, v: Version, i: nat)
    requires i < |Inserted(vs, v)|
    ensures Inserted(vs, v)[i] == if i < Place(vs, v) then vs[i] else if i == Place(vs, v) then v else vs[i - 1]
  {
  }

  lemma {:induction false} StaysNewest(vs: seq<Version>, v: Version, q: Pair, i: nat)
    requires q.key != v.key && NewestAt(vs, i, q)
    ensures Newest(Inserted(vs, v), q)
  {
    hide Place, Inserted, Newest;
    var s, k := Inserted(vs, v), if i < Place(vs, v) then i else i + 1;
    InsertedSize(vs, v);
    InsertedAt(vs, v, k);
    forall j | 0 <= j < |s| && s[j].key == q.key
      ensures s[j].seqNr <= s[k].seqNr
    {
      InsertedAt(vs, v, j);
    }
    assert NewestAt(s, k, q);
    NewestHere(s, k, q);
  }

  lemma {:induction false} WasNewest(vs: seq<Version>, v: Version, q: Pair, i: nat)
    requires q.key != v.key && NewestAt(Inserted(vs, v), i, q)
    ensures Newest(vs, q)
  {
    hide Place, Inserted, Newest;
    var s, p := Inserted(vs, v), Place(vs, v);
    InsertedSize(vs, v);
    InsertedAt(vs, v, i);
    var k := if i < p then i else i - 1;
    forall j | 0 <= j < |vs| && vs[j].key == q.key
      ensures vs[j].seqNr <= vs[k].seqNr
    {
      InsertedAt(vs, v, if j < p then j else j + 1);
    }
    assert NewestAt(vs, k, q);
    NewestHere(vs, k, q);
  }

  lemma {:induction false} InsertedSize(vs: seq<Version>, v: Version)
    ensures |Inserted(vs, v)| == |vs| + 1
  {
  }

  lemma {:induction false} NewestHere(vs: seq<Version>, i: int, q: Pair)
    requires NewestAt(vs, i, q)
    ensures Newest(vs, q)
  {
  }

  /** The version with the key's largest sequence number decides. */
  lemma {:induction false} InsertedNewest(vs: seq<Version>, v: Version, q: Pair)
    requires forall i :: 0 <= i < |vs| ==> vs[i].seqNr < v.seqNr
    ensures Newest(Inserted(vs, v), q) <==> if q.key == v.key then q.value == v.value else Newest(vs, q)
  {
    hide Place, Inserted;
    var p, s := Place(vs, v), Inserted(vs, v);
    InsertedSize(vs, v);
    InsertedAt(vs, v, p);
    InsertedBounds(vs, v);
    if q.key != v.key {
      if Newest(vs, q) {
        var i :| NewestAt(vs, i, q);
        StaysNewest(vs, v, q, i);
      }
      if Newest(s, q) {
        var i :| NewestAt(s, i, q);
        WasNewest(vs, v, q, i);
      }
    } else if q.value == v.value {
      assert NewestAt(s, p, q);
    } else if Newest(s, q) {
      var i :| NewestAt(s, i, q);
      InsertedAt(vs, v, i);
    }
  }

  /** Of a key's versions the first is the newest. */
  lemma {:induction false} FirstIsNewest(vs: seq<Version>, i: nat)
    requires Ordered(vs) && i < |vs| && (0 < i ==> vs[i - 1].key != vs[i].key)
    ensures NewestAt(vs, i, Pair(vs[i].key, vs[i].value))
  {
    hide Less;
    forall j | 0 <= j < |vs| && vs[j].key == vs[i].key
      ensures vs[j].seqNr <= vs[i].seqNr
    {
      LessIrreflexive(vs[i].key);
      if j < i {
        FreshKey(vs[..i + 1], j);
      } else if i < j {
        assert Before(vs[i], vs[j]);
      }
    }
  }

  class Memtable {
    var vs: seq<Version>
    var seqNr: nat
    ghost var view: map<Bytes, Bytes>

    /** The newest versions are the map `view`. */
    ghost predicate Shows()
      reads this
    {
      && Ordered(vs)
      && forall q :: Newest(vs, q) <==> q.key in view && view[q.key] == q.value
    }

    /** And the next version will be newer than all of them. */
    ghost predicate Valid()
      reads this
    {
      Shows() && forall i :: 0 <= i < |vs| ==> vs[i].seqNr < seqNr
    }

    constructor ()
      ensures Valid() && view == map[] && vs == [] && seqNr == 0
    {
      vs, seqNr, view := [], 0, map[];
      new;
      forall q
        ensures !Newest(vs, q)
      {
        NewestOfNothing(vs, q);
      }
    }

    method Insert(key: Bytes, value: Bytes) returns (seq_: nat)
      requires Valid()
      modifies this
      ensures Valid() && view == old(view)[key := value] && seq_ == old(seqNr) && seqNr == seq_ + 1
    {
      hide Before, Inserted, Newest, Ordered;
      seq_ := seqNr;
      var v := Version(key, seq_, value);
      InsertedOrdered(vs, v);
      InsertedBounds(vs, v);
      forall q
        ensures Newest(Inserted(vs, v), q) <==> if q.key == key then q.value == value else Newest(vs, q)
      {
        InsertedNewest(vs, v, q);
      }
      vs, seqNr, view := Inserted(vs, v), seqNr + 1, view[key := value];
    }

    /** Later insertions take sequence numbers from `next` on. */
    method Restart(next: nat)
      requires Valid()
      modifies this`seqNr
      ensures Shows() && seqNr == next && (old(seqNr) <= next ==> Valid())
    {
      hide Newest, Ordered;
      seqNr := next;
    }

    method Get(key: Bytes) returns (r: Option<Bytes>)
      requires Valid()
      ensures r == if key in view then Some(view[key]) else None
    {
      hide Less;
      var i := LowerBound(vs, key);
      if i < |vs| && vs[i].key == key {
        LessIrreflexive(key);
        FirstIsNewest(vs, i);
        assert Newest(vs, Pair(key, vs[i].value));
        return Some(vs[i].value);
      }
      if key in view {
        assert Newest(vs, Pair(key, view[key]));
        var j :| NewestAt(vs, j, Pair(key, view[key]));
        Absent(vs, key, j);
      }
      return None;
    }
  }

  /** A key that is not at its lower bound is nowhere. */
  lemma {:induction false} Absent(vs: seq<Version>, key: Bytes, j: nat)
    requires Ordered(vs) && j < |vs| && vs[j].key == key
    ensures LowerBound(vs, key) < |vs| && vs[LowerBound(vs, key)].key == key
  {
    hide Less;
    var i := LowerBound(vs, key);
    LessIrreflexive(key);
    if i < j {
      assert Before(vs[i], vs[j]);
    }
  }

  lemma {:induction false} InsertedBounds(vs: seq<Version>, v: Version)
    requires forall i :: 0 <= i < |vs| ==> vs[i].seqNr < v.seqNr
    ensures forall i :: 0 <= i < |Inserted(vs, v)| ==> Inserted(vs, v)[i].seqNr <= v.seqNr
  {
  }

  predicate InRange(lower: Option<Bytes>, upper: Option<Bytes>, key: Bytes) {
    (lower.Some? ==> !Less(key, lower.value)) && (upper.Some? ==> !Less(upper.value, key))
  }

  /** Both bounds belong to the range, and an absent bound excludes nothing. */
  lemma {:induction false} InRangeIs(lower: Option<Bytes>, upper: Option<Bytes>, key: Bytes)
    ensures InRange(lower, upper, key) <==>
            && (lower.None? || lower.value == key || Less(lower.value, key))
            && (upper.None? || key == upper.value || Less(key, upper.value))
  {
    hide Less;
    if lower.Some? {
      LessTotal(lower.value, key);
    }
    if upper.Some? {
      LessTotal(key, upper.value);
    }
  }

  /** Where a cursor begins. */
  function First(vs: seq<Version>, lower: Option<Bytes>): (i: nat)
    ensures i <= |vs|
  {
    if lower.Some? then LowerBound(vs, lower.value) else 0
  }

  /** Where it ends: one version behind the lower bound of the upper key, so that the newest version of that key is included. */
  function End(vs: seq<Version>, upper: Option<Bytes>): (i: nat)
    ensures i <= |vs|
  {
    if upper.Some? && LowerBound(vs, upper.value) < |vs| then LowerBound(vs, upper.value) + 1 else |vs|
  }

  /** The bounds are in order unless two versions or more lie between an upper bound and a lower bound above it. */
  lemma {:induction false} BoundsInOrder(vs: seq<Version>, lower: Option<Bytes>, upper: Option<Bytes>)
    requires Ordered(vs)
    ensures lower.None? || upper.None? || !Less(upper.value, lower.value) ==> First(vs, lower) <= End(vs, upper)
    ensures First(vs, lower) <= End(vs, upper) <==>
            !exists i, j :: 0 <= i < j < |vs| && Between(vs, i, lower, upper) && Between(vs, j, lower, upper)
  {
    hide Less, LowerBound, Ordered;
    if lower.Some? && upper.Some? {
      var a, b := LowerBound(vs, lower.value), LowerBound(vs, upper.value);
      if b + 1 < a {
        NotBelow(vs, upper.value, b);
        NotBelow(vs, upper.value, b + 1);
        assert Between(vs, b, lower, upper) && Between(vs, b + 1, lower, upper);
        if !Less(upper.value, lower.value) {
          Squeezed(upper.value, vs[b].key, lower.value);
        }
      } else {
        forall i, j | 0 <= i < j < |vs| && Between(vs, i, lower, upper) && Between(vs, j, lower, upper)
          ensures false
        {
          if a <= j {
            NotBelow(vs, lower.value, j);
          }
        }
      }
    }
  }

  /** Two keys between reversed bounds: the cursor would start behind its end, and never meet it. */
  lemma {:induction false} ReversedBounds(vs: seq<Version>)
    requires vs == [Version([1], 0, []), Version([2], 1, [])]
    ensures Ordered(vs) && Less([0], [3])
    ensures First(vs, Some([3])) == 2 && End(vs, Some([0])) == 1
  {
    assert LowerBound(vs, [3]) == 2;
    assert LowerBound(vs, [0]) == 0;
  }

  /** The `i`-th key lies at or above the upper and below the lower bound. */
  predicate Between(vs: seq<Version>, i: int, lower: Option<Bytes>, upper: Option<Bytes>) {
    0 <= i < |vs| && lower.Some? && upper.Some? && !Less(vs[i].key, upper.value) && Less(vs[i].key, lower.value)
  }

  lemma {:induction false} Squeezed(a: Bytes, b: Bytes, c: Bytes)
    requires !Less(b, a) && Less(b, c)
    ensures Less(a, c)
  {
    LessTotal(a, b);
    if a != b {
      LessTransitive(a, b, c);
    }
  }

  /** The first versions of the keys in a slice are the newest of all. */
  lemma {:induction false} SliceNewest(vs: seq<Version>, lower: Option<Bytes>, start: nat, end: nat, p: Pair)
    requires Ordered(vs) && start == First(vs, lower) <= end <= |vs| && p in Distinct(vs[start..end])
    ensures Newest(vs, p)
  {
    hide Less, Distinct, LowerBound;
    var slice := vs[start..end];
    assert Ordered(slice);
    DistinctIsNewest(slice, p);
    var i :| NewestAt(slice, i, p);
    var a := start + i;
    LessIrreflexive(p.key);
    forall j | 0 <= j < |vs| && vs[j].key == p.key
      ensures vs[j].seqNr <= vs[a].seqNr
    {
      if j < start {
        NotBelow(vs, lower.value, a);
      } else if j < end {
        assert slice[j - start] == vs[j];
      } else {
        assert Before(vs[a], vs[j]);
      }
    }
    assert NewestAt(vs, a, p);
  }

  /** Every newest version of the range lies in the slice. */
  lemma {:induction false} SliceCovers(vs: seq<Version>, lower: Option<Bytes>, upper: Option<Bytes>, start: nat, end: nat, p: Pair)
    requires Ordered(vs) && start == First(vs, lower) <= end == End(vs, upper) && Newest(vs, p) && InRange(lower, upper, p.key)
    ensures p in Distinct(vs[start..end])
  {
    hide Less, Distinct, LowerBound;
    var slice := vs[start..end];
    assert Ordered(slice);
    var a :| NewestAt(vs, a, p);
    LessIrreflexive(p.key);
    assert start <= a;
    assert a < end by {
      if upper.Some? {
        var b := LowerBound(vs, upper.value);
        if b < a {
          NotBelow(vs, upper.value, b);
          assert Before(vs[b], vs[a]);
          Pinched(upper.value, vs[b].key, p.key);
        }
      }
    }
    assert slice[a - start] == vs[a];
    assert NewestAt(slice, a - start, p);
    DistinctIsNewest(slice, p);
  }

  lemma {:induction false} Pinched(u: Bytes, b: Bytes, k: Bytes)
    requires !Less(b, u) && !Less(u, k) && (Less(b, k) || b == k)
    ensures b == k
  {
    LessTotal(b, u);
    LessTotal(u, k);
    if Less(b, k) {
      if Less(u, b) {
        LessTransitive(u, b, k);
      }
    }
  }

  /** A cursor over the newest versions of a range. */
  class Cursor {
    const vs: seq<Version>
    const end: nat
    var it: nat
    ghost const start: nat
    ghost var popped: seq<Pair>

    ghost predicate Valid()
      reads this
    {
      && start <= it <= end <= |vs|
      && popped == Distinct(vs[start..it])
      && (start < it < end ==> vs[it - 1].key != vs[it].key)
    }

    constructor (vs: seq<Version>, lower: Option<Bytes>, upper: Option<Bytes>)
      requires First(vs, lower) <= End(vs, upper)
      ensures Valid() && this.vs == vs && it == start == First(vs, lower) && end == End(vs, upper) && popped == []
    {
      hide First, End;
      this.vs, it, start, end, popped := vs, First(vs, lower), First(vs, lower), End(vs, upper), [];
    }

    predicate IsEof()
      reads this
    {
      it == end
    }

    function Front(): Pair
      requires Valid() && !IsEof()
      reads this
    {
      Pair(vs[it].key, vs[it].value)
    }

    /** Move to the next key. */
    method PopFront()
      requires Valid() && !IsEof()
      modifies this`it, this`popped
      ensures Valid() && popped == old(popped) + [old(Front())] && old(it) < it
    {
      hide Distinct;
      var key := vs[it].key;
      ghost var from, more := it, popped + [Front()];
      SliceGrows(vs, start, it + 1);
      it := it + 1;
      while it != end && vs[it].key == key
        invariant from < it <= end && vs[it - 1].key == key && more == Distinct(vs[start..it])
        decreases end - it
      {
        SliceGrows(vs, start, it + 1);
        it := it + 1;
      }
      popped := more;
    }

    /** When the cursor is at its end it has yielded the newest version of every key in the range. */
    lemma {:induction false} AllPopped(lower: Option<Bytes>, upper: Option<Bytes>, p: Pair)
      requires Valid() && IsEof() && Ordered(vs) && start == First(vs, lower) && end == End(vs, upper)
      ensures p in popped ==> Newest(vs, p)
      ensures Newest(vs, p) && InRange(lower, upper, p.key) ==> p in popped
    {
      if p in popped {
        SliceNewest(vs, lower, start, end, p);
      }
      if Newest(vs, p) && InRange(lower, upper, p.key) {
        SliceCovers(vs, lower, upper, start, end, p);
      }
    }
  }

  lemma {:induction false} SliceGrows(vs: seq<Version>, start: nat, it: nat)
    requires start < it <= |vs|
    ensures Distinct(vs[start..it]) ==
            if start < it - 1 && vs[it - 2].key == vs[it - 1].key then Distinct(vs[start..it - 1])
            else Distinct(vs[start..it - 1]) + [Pair(vs[it - 1].key, vs[it - 1].value)]
  {
    assert vs[start..it][..it - 1 - start] == vs[start..it - 1];
  }
}
