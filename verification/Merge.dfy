/** The newest-wins k-way merge: a heap of source fronts and a lagging deduplicator. */
module Merge {
  import opened Versions

  datatype KV = KV(key: Key, value: Value)

  /** An entry on its way through the merge. */
  datatype Entry = Entry(key: Key, value: Value, epoch: nat)

  ghost predicate Sorted(s: seq<KV>) {
    forall i, j :: 0 <= i < j < |s| ==> s[i].key < s[j].key
  }

  /** Sources are strictly sorted and come from different epochs. */
  ghost predicate Sources(src: seq<seq<KV>>, epochs: seq<nat>) {
    && |epochs| == |src|
    && (forall i :: 0 <= i < |src| ==> Sorted(src[i]))
    && (forall i, j :: 0 <= i < j < |src| ==> epochs[i] != epochs[j])
  }

  ghost predicate Has(src: seq<seq<KV>>, i: int, j: int, k: Key) {
    0 <= i < |src| && 0 <= j < |src[i]| && src[i][j].key == k
  }

  /** Among all sources that hold `k`, source `i` is the newest. */
  ghost predicate NewestAt(src: seq<seq<KV>>, epochs: seq<nat>, i: int, j: int, k: Key) {
    && |epochs| == |src| && Has(src, i, j, k)
    && forall i2, j2 :: Has(src, i2, j2, k) ==> epochs[i2] <= epochs[i]
  }

  /** `kv` is the version of its key that the newest source holding the key has. */
  ghost predicate Newest(src: seq<seq<KV>>, epochs: seq<nat>, kv: KV) {
    exists i, j :: NewestAt(src, epochs, i, j, kv.key) && src[i][j].value == kv.value
  }

  /**
   * `deduplicator`: keeps the first of equal keys, one item behind what was pushed because it must see the
   * next key before it can let the last one go.
   */
  class Deduplicator {
    var toBeChecked: Option<Entry>
    var ready: Option<Entry>
    var duplicates: nat

    constructor ()
      ensures toBeChecked.None? && ready.None? && duplicates == 0
    {
      toBeChecked, ready, duplicates := None, None, 0;
    }

    method Push(e: Entry)
      modifies this
      ensures toBeChecked == if old(toBeChecked).Some? && old(toBeChecked).value.key == e.key then old(toBeChecked) else Some(e)
      ensures ready == if old(toBeChecked).Some? && old(toBeChecked).value.key != e.key then old(toBeChecked) else old(ready)
      ensures duplicates == old(duplicates) + if old(toBeChecked).Some? && old(toBeChecked).value.key == e.key then 1 else 0
    {
      if toBeChecked.None? {
        toBeChecked := Some(e);
      } else if toBeChecked.value.key != e.key {
        ready := toBeChecked;
        toBeChecked := Some(e);
      } else {
        duplicates := duplicates + 1;
      }
    }

    /** Take the finished item; the source throws when there is none. */
    method Pop() returns (e: Entry)
      requires ready.Some?
      modifies this`ready
      ensures e == old(ready).value && ready.None?
    {
      e := ready.value;
      ready := None;
    }

    /** Take the item still waiting for its successor; the source throws in the other cases. */
    method ForcePop() returns (e: Entry)
      requires ready.None? && toBeChecked.Some?
      modifies this`toBeChecked
      ensures e == old(toBeChecked).value && toBeChecked.None?
    {
      e := toBeChecked.value;
      toBeChecked := None;
    }
  }

  /** `Front` of a live source. */
  predicate Live(src: seq<seq<KV>>, pos: seq<nat>, i: int) {
    0 <= i < |src| == |pos| && pos[i] < |src[i]|
  }

  /** The heap's order: smaller keys first, and of equal keys the newer epoch. */
  predicate Before(src: seq<seq<KV>>, epochs: seq<nat>, pos: seq<nat>, i: nat, j: nat)
    requires |epochs| == |src| && Live(src, pos, i) && Live(src, pos, j)
  {
    var a, b := src[i][pos[i]].key, src[j][pos[j]].key;
    a < b || (a == b && epochs[i] >= epochs[j])
  }

  ghost predicate Distinct(heap: seq<nat>) {
    forall g, h :: 0 <= g < h < |heap| ==> heap[g] != heap[h]
  }

  /** The heap holds every live source once. */
  ghost predicate Heap(src: seq<seq<KV>>, pos: seq<nat>, heap: seq<nat>) {
    && |pos| == |src|
    && (forall i :: 0 <= i < |src| ==> pos[i] <= |src[i]|)
    && Distinct(heap)
    && (forall i: nat :: i in heap <==> Live(src, pos, i))
  }

  /** Advancing source `h` and putting it back while it has entries left. */
  lemma {:induction false} HeapRefill(src: seq<seq<KV>>, pos: seq<nat>, heap: seq<nat>, rest: seq<nat>, h: nat)
    requires Heap(src, pos, heap) && Live(src, pos, h) && Distinct(rest)
    requires forall i: nat :: i in rest <==> i in heap && i != h
    ensures
      var pos2 := pos[h := pos[h] + 1];
      Heap(src, pos2, if pos2[h] < |src[h]| then rest + [h] else rest)
  {
  }

  /** Everything consumed is at or before `last`; everything else comes after it, or is an older version of its key. */
  ghost predicate Split(src: seq<seq<KV>>, epochs: seq<nat>, pos: seq<nat>, last: Entry)
    requires |pos| == |epochs| == |src|
  {
    forall i, j :: 0 <= i < |src| && 0 <= j < |src[i]| ==> SplitAt(src, epochs, pos, last, i, j)
  }

  ghost predicate SplitAt(src: seq<seq<KV>>, epochs: seq<nat>, pos: seq<nat>, last: Entry, i: nat, j: nat)
    requires |pos| == |epochs| == |src| && i < |src| && j < |src[i]|
  {
    if j < pos[i] then src[i][j].key <= last.key
    else src[i][j].key > last.key || (src[i][j].key == last.key && epochs[i] < last.epoch)
  }

  /** `out` is everything final before key `k`: sorted, newest versions only, nothing missing. */
  ghost predicate Final(src: seq<seq<KV>>, epochs: seq<nat>, out: seq<KV>, k: Key) {
    && Sorted(out)
    && (forall n :: 0 <= n < |out| ==> out[n].key < k && Newest(src, epochs, out[n]))
    && (forall i, j :: 0 <= i < |src| && 0 <= j < |src[i]| && src[i][j].key < k ==> Listed(out, src[i][j].key))
  }

  ghost predicate Listed(out: seq<KV>, k: Key) {
    exists n :: 0 <= n < |out| && out[n].key == k
  }

  /** The front that the heap gives out first is the newest version of the smallest unread key. */
  lemma {:induction false} FrontIsNewest(src: seq<seq<KV>>, epochs: seq<nat>, pos: seq<nat>, h: nat, i: nat, j: nat)
    requires Sources(src, epochs) && |pos| == |src| && Live(src, pos, h)
    requires forall x :: Live(src, pos, x) ==> Before(src, epochs, pos, h, x)
    requires i < |src| && pos[i] <= j < |src[i]|
    ensures src[i][j].key > src[h][pos[h]].key || (src[i][j].key == src[h][pos[h]].key && epochs[i] <= epochs[h] && j == pos[i])
  {
    assert Live(src, pos, i);
    assert Before(src, epochs, pos, h, i);
    assert Sorted(src[i]);
  }

  ghost predicate IsFront(src: seq<seq<KV>>, epochs: seq<nat>, pos: seq<nat>, h: nat)
    requires |epochs| == |src|
  {
    && Live(src, pos, h)
    && forall x :: Live(src, pos, x) ==> Before(src, epochs, pos, h, x)
  }

  function EntryOf(src: seq<seq<KV>>, epochs: seq<nat>, pos: seq<nat>, h: nat): Entry
    requires |epochs| == |src| && Live(src, pos, h)
  {
    Entry(src[h][pos[h]].key, src[h][pos[h]].value, epochs[h])
  }

  /** The first item through the merge. */
  lemma {:induction false} FirstStep(src: seq<seq<KV>>, epochs: seq<nat>, pos: seq<nat>, h: nat)
    requires Sources(src, epochs) && |pos| == |src| && IsFront(src, epochs, pos, h)
    requires forall i :: 0 <= i < |src| ==> pos[i] == 0
    ensures
      var e := EntryOf(src, epochs, pos, h);
      && Split(src, epochs, pos[h := pos[h] + 1], e) && Newest(src, epochs, KV(e.key, e.value))
      && Final(src, epochs, [], e.key)
  {
    var e := EntryOf(src, epochs, pos, h);
    forall i, j | 0 <= i < |src| && 0 <= j < |src[i]|
      ensures SplitAt(src, epochs, pos[h := pos[h] + 1], e, i, j) && src[i][j].key >= e.key
      ensures src[i][j].key == e.key ==> epochs[i] <= e.epoch
    {
      FrontIsNewest(src, epochs, pos, h, i, j);
    }
    assert NewestAt(src, epochs, h, pos[h], e.key);
  }

  /** A later version of the last key is dropped. */
  lemma {:induction false} DuplicateStep(src: seq<seq<KV>>, epochs: seq<nat>, pos: seq<nat>, h: nat, last: Entry)
    requires Sources(src, epochs) && |pos| == |src| && IsFront(src, epochs, pos, h)
    requires Split(src, epochs, pos, last) && src[h][pos[h]].key == last.key
    ensures Split(src, epochs, pos[h := pos[h] + 1], last)
  {
    var pos2 := pos[h := pos[h] + 1];
    forall i, j | 0 <= i < |src| && 0 <= j < |src[i]|
      ensures SplitAt(src, epochs, pos2, last, i, j)
    {
      assert SplitAt(src, epochs, pos, last, i, j);
      if pos[i] <= j {
        FrontIsNewest(src, epochs, pos, h, i, j);
      }
    }
  }

  /** A new key finishes the last one. */
  lemma {:induction false} NewKeyStep(src: seq<seq<KV>>, epochs: seq<nat>, pos: seq<nat>, h: nat, last: Entry, out: seq<KV>)
    requires Sources(src, epochs) && |pos| == |src| && IsFront(src, epochs, pos, h)
    requires Split(src, epochs, pos, last) && src[h][pos[h]].key != last.key
    requires Newest(src, epochs, KV(last.key, last.value)) && Final(src, epochs, out, last.key)
    ensures
      var e := EntryOf(src, epochs, pos, h);
      && last.key < e.key && Split(src, epochs, pos[h := pos[h] + 1], e) && Newest(src, epochs, KV(e.key, e.value))
      && Final(src, epochs, out + [KV(last.key, last.value)], e.key)
  {
    var e := EntryOf(src, epochs, pos, h);
    var out2 := out + [KV(last.key, last.value)];
    assert SplitAt(src, epochs, pos, last, h, pos[h]);
    forall i, j | 0 <= i < |src| && 0 <= j < |src[i]|
      ensures SplitAt(src, epochs, pos[h := pos[h] + 1], e, i, j)
      ensures (src[i][j].key == e.key ==> epochs[i] <= e.epoch) && (src[i][j].key < e.key ==> src[i][j].key <= last.key)
    {
      assert SplitAt(src, epochs, pos, last, i, j);
      if pos[i] <= j {
        FrontIsNewest(src, epochs, pos, h, i, j);
      }
    }
    assert NewestAt(src, epochs, h, pos[h], e.key);
    AppendFinal(src, epochs, out, last, e.key);
  }

  lemma {:induction false} AppendFinal(src: seq<seq<KV>>, epochs: seq<nat>, out: seq<KV>, last: Entry, k: Key)
    requires Final(src, epochs, out, last.key) && Newest(src, epochs, KV(last.key, last.value)) && last.key < k
    requires forall i, j :: 0 <= i < |src| && 0 <= j < |src[i]| && src[i][j].key < k ==> src[i][j].key <= last.key
    ensures Final(src, epochs, out + [KV(last.key, last.value)], k)
  {
    var out2 := out + [KV(last.key, last.value)];
    forall i, j | 0 <= i < |src| && 0 <= j < |src[i]| && src[i][j].key < k
      ensures Listed(out2, src[i][j].key)
    {
      if src[i][j].key < last.key {
        assert Listed(out, src[i][j].key);
        var n :| 0 <= n < |out| && out[n].key == src[i][j].key;
        assert out2[n] == out[n];
      } else {
        assert out2[|out|].key == src[i][j].key;
      }
    }
    forall n | 0 <= n < |out2|
      ensures out2[n].key < k && Newest(src, epochs, out2[n])
    {
      if n < |out| {
        assert out2[n] == out[n];
      }
    }
  }

  function Sum(a: seq<nat>): nat {
    if a == [] then 0 else a[0] + Sum(a[1..])
  }

  lemma {:induction false} SumUpdate(a: seq<nat>, i: nat)
    requires i < |a|
    ensures Sum(a[i := a[i] + 1]) == Sum(a) + 1
  {
    if i == 0 {
      assert a[0 := a[0] + 1][1..] == a[1..];
    } else {
      SumUpdate(a[1..], i - 1);
      assert a[i := a[i] + 1][1..] == a[1..][i - 1 := a[1..][i - 1] + 1];
    }
  }

  lemma {:induction false} SumZero(a: seq<nat>)
    requires forall i :: 0 <= i < |a| ==> a[i] == 0
    ensures Sum(a) == 0
  {
    if a != [] {
      SumZero(a[1..]);
    }
  }

  function Lengths(src: seq<seq<KV>>): (a: seq<nat>)
    ensures |a| == |src| && forall i :: 0 <= i < |src| ==> a[i] == |src[i]|
  {
    if src == [] then [] else [|src[0]|] + Lengths(src[1..])
  }

  lemma {:induction false} SumBounded(a: seq<nat>, b: seq<nat>)
    requires |a| == |b| && forall i :: 0 <= i < |a| ==> a[i] <= b[i]
    ensures Sum(a) <= Sum(b)
    ensures (exists i :: 0 <= i < |a| && a[i] < b[i]) ==> Sum(a) < Sum(b)
  {
    if a != [] {
      SumBounded(a[1..], b[1..]);
      if i :| 0 <= i < |a| && a[i] < b[i] {
        assert i > 0 ==> a[1..][i - 1] < b[1..][i - 1];
      }
    }
  }

  /** The moving parts of a merge: read positions, heap and deduplicator. */
  class Merger {
    const src: seq<seq<KV>>
    const epochs: seq<nat>
    const dedup: Deduplicator
    var pos: seq<nat>
    var heap: seq<nat>
    ghost var emitted: seq<KV> // everything that has left the deduplicator

    ghost predicate Valid()
      reads this, dedup
    {
      && Sources(src, epochs) && Heap(src, pos, heap) && dedup.ready.None?
      && match dedup.toBeChecked
         case None =>
           emitted == [] && dedup.duplicates == 0 && Sum(pos) == 0 && forall i :: 0 <= i < |src| ==> pos[i] == 0
         case Some(last) =>
           && Split(src, epochs, pos, last) && Newest(src, epochs, KV(last.key, last.value))
           && Final(src, epochs, emitted, last.key)
           && Sum(pos) == |emitted| + 1 + dedup.duplicates
    }

    constructor (src: seq<seq<KV>>, epochs: seq<nat>)
      requires Sources(src, epochs)
      ensures Valid() && fresh(dedup) && this.src == src && this.epochs == epochs && dedup.toBeChecked.None?
      ensures heap == [] <==> forall i :: 0 <= i < |src| ==> src[i] == []
    {
      this.src, this.epochs := src, epochs;
      dedup := new Deduplicator();
      pos := seq(|src|, i => 0);
      heap, emitted := [], [];
      new;
      // Put the first entry of every source that has one into the heap.
      var i := 0;
      while i < |src|
        invariant 0 <= i <= |src| && |pos| == |src| && (forall j :: 0 <= j < |src| ==> pos[j] == 0)
        invariant dedup.toBeChecked.None? && dedup.ready.None? && dedup.duplicates == 0 && emitted == [] && fresh(dedup)
        invariant Distinct(heap) && forall j: nat :: j in heap <==> j < i && Live(src, pos, j)
      {
        if src[i] != [] {
          assert i !in heap;
          heap := heap + [i];
        }
        i := i + 1;
      }
      if heap == [] {
        forall j | 0 <= j < |src|
          ensures src[j] == []
        {
          assert !Live(src, pos, j);
        }
      } else {
        assert heap[0] in heap;
      }
      SumZero(pos);
    }

    /** Take the front that comes first out of the heap. */
    method PopHeap() returns (h: nat)
      requires Sources(src, epochs) && Heap(src, pos, heap) && heap != []
      modifies this`heap
      ensures IsFront(src, epochs, pos, h)
      ensures Distinct(heap) && forall i: nat :: i in heap <==> i in old(heap) && i != h
    {
      var best, g := 0, 1;
      while g < |heap|
        invariant 0 <= best < g <= |heap|
        invariant forall x :: 0 <= x < |heap| ==> Live(src, pos, heap[x])
        invariant forall x :: 0 <= x < g ==> Before(src, epochs, pos, heap[best], heap[x])
      {
        if !Before(src, epochs, pos, heap[best], heap[g]) {
          best := g;
        }
        g := g + 1;
      }
      h := heap[best];
      forall x | Live(src, pos, x)
        ensures Before(src, epochs, pos, h, x)
      {
        assert x in heap;
      }
      heap := heap[..best] + heap[best + 1..];
    }

    /** Consume the front that comes first, and refill the heap from its source. */
    method Advance() returns (e: Entry, ghost h: nat)
      requires Sources(src, epochs) && Heap(src, pos, heap) && heap != []
      modifies this`pos, this`heap
      ensures IsFront(src, epochs, old(pos), h) && e == EntryOf(src, epochs, old(pos), h)
      ensures Heap(src, pos, heap) && pos == old(pos)[h := old(pos)[h] + 1]
    {
      ghost var pos0, heap0 := pos, heap;
      var s := PopHeap();
      h := s;
      HeapRefill(src, pos0, heap0, heap, s);
      e := EntryOf(src, epochs, pos, s);
      pos := pos[s := pos[s] + 1];
      if pos[s] < |src[s]| {
        heap := heap + [s];
      }
    }

    /** The state between pushing an entry and taking the finished item, if there is one. */
    ghost predicate Pushed()
      reads this, dedup
    {
      && Sources(src, epochs) && Heap(src, pos, heap) && dedup.toBeChecked.Some?
      && var last := dedup.toBeChecked.value;
         && Split(src, epochs, pos, last) && Newest(src, epochs, KV(last.key, last.value))
         && match dedup.ready
            case None => Final(src, epochs, emitted, last.key) && Sum(pos) == |emitted| + 1 + dedup.duplicates
            case Some(e) => && Final(src, epochs, emitted + [KV(e.key, e.value)], last.key)
                            && Sum(pos) == |emitted| + 2 + dedup.duplicates
    }

    /** One iteration of the merge loop, up to the check for a finished item. */
    method Step()
      requires Valid() && heap != []
      modifies this`pos, this`heap, dedup
      ensures Pushed() && Sum(pos) == old(Sum(pos)) + 1
    {
      hide Sources, Heap, Split, Newest, Final, Sum;
      ghost var pos0, before := pos, dedup.toBeChecked;
      var e;
      ghost var h;
      e, h := Advance();
      dedup.Push(e);
      SumUpdate(pos0, h);
      if before.None? {
        FirstStep(src, epochs, pos0, h);
      } else if before.value.key == e.key {
        DuplicateStep(src, epochs, pos0, h, before.value);
      } else {
        NewKeyStep(src, epochs, pos0, h, before.value, emitted);
      }
    }

    /** One whole iteration: push the next entry, then take the item it finished, if any. */
    method Next() returns (r: Option<KV>)
      requires Valid() && heap != []
      modifies this, dedup
      ensures Valid() && dedup.toBeChecked.Some? && Sum(pos) == old(Sum(pos)) + 1 && Sum(pos) <= Sum(Lengths(src))
      ensures emitted == if r.Some? then old(emitted) + [r.value] else old(emitted)
    {
      Step();
      SumBounded(pos, Lengths(src));
      if dedup.ready.None? {
        return None;
      }
      var e := dedup.Pop();
      emitted := emitted + [KV(e.key, e.value)];
      return Some(KV(e.key, e.value));
    }

    /** When the heap is empty the last item can only be forced out. */
    method Last(ghost discard: bool) returns (kv: KV)
      requires Valid() && heap == [] && dedup.toBeChecked.Some?
      modifies dedup
      ensures IsMerge(src, epochs, discard, Kept(emitted + [kv], discard))
      ensures IsMerge(src, epochs, false, emitted + [kv]) && AllListed(src, emitted + [kv])
      ensures forall n :: 0 <= n < |emitted| ==> emitted[n].key < kv.key
      ensures Sum(Lengths(src)) == |emitted| + 1 + dedup.duplicates
    {
      ghost var last := dedup.toBeChecked.value;
      forall i | 0 <= i < |src|
        ensures pos[i] == |src[i]|
      {
        assert !Live(src, pos, i);
      }
      assert pos == Lengths(src);
      AllRead(src, epochs, pos, last, emitted, discard);
      hide Sources, Split, Newest, Final, Kept, IsMerge, AllListed;
      var e := dedup.ForcePop();
      kv := KV(e.key, e.value);
    }
  }

  /** A key has one newest version. */
  lemma {:induction false} NewestUnique(src: seq<seq<KV>>, epochs: seq<nat>, a: KV, b: KV)
    requires Sources(src, epochs) && Newest(src, epochs, a) && Newest(src, epochs, b) && a.key == b.key
    ensures a == b
  {
  }

  predicate Drops(discard: bool, kv: KV) {
    discard && kv.value.Tombstone?
  }

  /** The items that are written, out of all that left the deduplicator. */
  function Kept(s: seq<KV>, discard: bool): seq<KV> {
    if s == [] then []
    else Kept(s[..|s| - 1], discard) + if Drops(discard, s[|s| - 1]) then [] else [s[|s| - 1]]
  }

  lemma {:induction false} KeptAppend(s: seq<KV>, kv: KV, discard: bool)
    ensures Kept(s + [kv], discard) == if Drops(discard, kv) then Kept(s, discard) else Kept(s, discard) + [kv]
  {
  }

  lemma {:induction false} KeptIs(s: seq<KV>, discard: bool)
    requires Sorted(s)
    ensures Sorted(Kept(s, discard)) && |Kept(s, discard)| <= |s|
    ensures forall kv :: kv in Kept(s, discard) <==> kv in s && !Drops(discard, kv)
  {
    if s != [] {
      var n := |s| - 1;
      var front := s[..n];
      KeptIs(front, discard);
      assert s == front + [s[n]];
      forall i | 0 <= i < |Kept(front, discard)|
        ensures Kept(front, discard)[i].key < s[n].key
      {
        assert Kept(front, discard)[i] in front;
      }
    }
  }

  /**
   * What a merge has to produce: strictly increasing keys, and for each key exactly the version of the
   * newest source that holds it, unless that is a tombstone to be discarded.
   */
  ghost predicate IsMerge(src: seq<seq<KV>>, epochs: seq<nat>, discard: bool, out: seq<KV>) {
    && Sorted(out)
    && forall kv :: kv in out <==> Newest(src, epochs, kv) && !Drops(discard, kv)
  }

  /** Once every source is read, what was emitted and the last item are the whole merge. */
  lemma {:induction false} AllRead(src: seq<seq<KV>>, epochs: seq<nat>, pos: seq<nat>, last: Entry, out: seq<KV>, discard: bool)
    requires Sources(src, epochs) && |pos| == |src| && Split(src, epochs, pos, last)
    requires forall i :: 0 <= i < |src| ==> pos[i] == |src[i]|
    requires Newest(src, epochs, KV(last.key, last.value)) && Final(src, epochs, out, last.key)
    ensures IsMerge(src, epochs, discard, Kept(out + [KV(last.key, last.value)], discard))
    ensures |Kept(out + [KV(last.key, last.value)], discard)| <= |out| + 1
    ensures IsMerge(src, epochs, false, out + [KV(last.key, last.value)]) && AllListed(src, out + [KV(last.key, last.value)])
  {
    var all := out + [KV(last.key, last.value)];
    forall i, j | 0 <= i < |src| && 0 <= j < |src[i]| && src[i][j].key < last.key + 1
      ensures src[i][j].key <= last.key
    {
      assert SplitAt(src, epochs, pos, last, i, j);
    }
    AppendFinal(src, epochs, out, last, last.key + 1);
    forall kv | Newest(src, epochs, kv)
      ensures kv in all
    {
      var i, j :| NewestAt(src, epochs, i, j, kv.key) && src[i][j].value == kv.value;
      assert Has(src, i, j, kv.key) && SplitAt(src, epochs, pos, last, i, j);
      assert Listed(all, src[i][j].key);
      var n :| 0 <= n < |all| && all[n].key == kv.key;
      NewestUnique(src, epochs, kv, all[n]);
    }
    KeptIs(all, discard);
    forall i, j | 0 <= i < |src| && 0 <= j < |src[i]|
      ensures Listed(all, src[i][j].key)
    {
      assert SplitAt(src, epochs, pos, last, i, j);
    }
  }

  datatype MergeResult =
    | Output(items: seq<KV>, written: nat, deduplicated: nat, filtered: nat)
    | NothingToMerge // the source throws: there is no item to force out of the deduplicator

  lemma {:induction false} KeptNothing(discard: bool)
    ensures Kept([], discard) == []
  {
  }

  // ---- What was counted

  /** All keys of the sources. */
  ghost function KeysOf(src: seq<seq<KV>>): set<Key> {
    set i, j | 0 <= i < |src| && 0 <= j < |src[i]| :: src[i][j].key
  }

  /** The keys whose newest version is a tombstone that the merge may discard. */
  ghost function Discarded(src: seq<seq<KV>>, epochs: seq<nat>, discard: bool): set<Key> {
    set k | k in KeysOf(src) && discard && Newest(src, epochs, KV(k, Tombstone))
  }

  /** The keys of a list, and those of its items that are dropped. */
  ghost function KeySet(s: seq<KV>): set<Key> {
    set n | 0 <= n < |s| :: s[n].key
  }

  ghost function DropSet(s: seq<KV>, discard: bool): set<Key> {
    set n | 0 <= n < |s| && Drops(discard, s[n]) :: s[n].key
  }

  lemma {:induction false} CountKeys(s: seq<KV>, discard: bool)
    requires Sorted(s)
    ensures |KeySet(s)| == |s| && |DropSet(s, discard)| + |Kept(s, discard)| == |s|
  {
    if s == [] {
      assert KeySet(s) == {} && DropSet(s, discard) == {};
    } else {
      var n := |s| - 1;
      var front, last := s[..n], s[n];
      CountKeys(front, discard);
      assert s == front + [last];
      NotBefore(s, discard);
      hide KeySet, DropSet, Kept, Sorted;
      KeysMore(front, last, discard);
      KeptAppend(front, last, discard);
    }
  }

  lemma {:induction false} NotBefore(s: seq<KV>, discard: bool)
    requires Sorted(s) && s != []
    ensures s[|s| - 1].key !in KeySet(s[..|s| - 1]) && s[|s| - 1].key !in DropSet(s[..|s| - 1], discard)
  {
    var front := s[..|s| - 1];
    assert forall i :: 0 <= i < |front| ==> front[i] == s[i];
  }

  lemma {:induction false} KeysMore(s: seq<KV>, kv: KV, discard: bool)
    ensures KeySet(s + [kv]) == KeySet(s) + {kv.key}
    ensures DropSet(s + [kv], discard) == DropSet(s, discard) + if Drops(discard, kv) then {kv.key} else {}
  {
    var more := s + [kv];
    assert more[|s|] == kv && forall i :: 0 <= i < |s| ==> more[i] == s[i];
    forall k
      ensures k in KeySet(s) ==> k in KeySet(more)
      ensures k in DropSet(s, discard) ==> k in DropSet(more, discard)
    {
      if k in KeySet(s) {
        var i :| 0 <= i < |s| && k == s[i].key;
        assert more[i] == s[i];
      }
      if k in DropSet(s, discard) {
        var i :| 0 <= i < |s| && Drops(discard, s[i]) && k == s[i].key;
        assert more[i] == s[i];
      }
    }
  }

  /** A list of all newest versions has the keys of the sources. */
  lemma {:induction false} KeysAre(src: seq<seq<KV>>, epochs: seq<nat>, all: seq<KV>, discard: bool)
    requires IsMerge(src, epochs, false, all) && AllListed(src, all)
    ensures KeySet(all) == KeysOf(src) && DropSet(all, discard) == Discarded(src, epochs, discard)
  {
    hide Newest;
    forall k
      ensures k in KeySet(all) <==> k in KeysOf(src)
      ensures k in DropSet(all, discard) <==> k in Discarded(src, epochs, discard)
    {
      if k in KeySet(all) {
        var n :| 0 <= n < |all| && all[n].key == k;
        assert all[n] in all;
        KeyOfNewest(src, epochs, all[n]);
      }
      if k in KeysOf(src) {
        var i, j :| 0 <= i < |src| && 0 <= j < |src[i]| && src[i][j].key == k;
        assert Listed(all, src[i][j].key);
      }
      if k in DropSet(all, discard) {
        var n :| 0 <= n < |all| && Drops(discard, all[n]) && all[n].key == k;
        assert all[n] in all && all[n] == KV(k, Tombstone);
        KeyOfNewest(src, epochs, all[n]);
      }
      if k in Discarded(src, epochs, discard) {
        assert KV(k, Tombstone) in all;
        var n :| 0 <= n < |all| && all[n] == KV(k, Tombstone);
      }
    }
  }

  lemma {:induction false} KeyOfNewest(src: seq<seq<KV>>, epochs: seq<nat>, kv: KV)
    requires Newest(src, epochs, kv)
    ensures kv.key in KeysOf(src)
  {
    var i, j :| NewestAt(src, epochs, i, j, kv.key) && src[i][j].value == kv.value;
  }

  ghost predicate AllListed(src: seq<seq<KV>>, all: seq<KV>) {
    forall i, j :: 0 <= i < |src| && 0 <= j < |src[i]| ==> Listed(all, src[i][j].key)
  }

  /** What the two counters must say at the end. */
  lemma {:induction false} CountersAre(src: seq<seq<KV>>, epochs: seq<nat>, all: seq<KV>, discard: bool)
    requires IsMerge(src, epochs, false, all) && AllListed(src, all)
    ensures |all| == |KeysOf(src)| && |all| - |Kept(all, discard)| == |Discarded(src, epochs, discard)|
  {
    hide KeySet, DropSet, KeysOf, Discarded, Kept, Newest, AllListed;
    KeysAre(src, epochs, all, discard);
    CountKeys(all, discard);
  }

  /** `k_way_merge_async2`, without its pages. */
  method KWayMerge(src: seq<seq<KV>>, epochs: seq<nat>, discard: bool) returns (r: MergeResult)
    requires Sources(src, epochs)
    ensures r.NothingToMerge? <==> forall i :: 0 <= i < |src| ==> src[i] == []
    ensures r.Output? ==> IsMerge(src, epochs, discard, r.items) && r.written == |r.items|
    ensures r.Output? ==> Sum(Lengths(src)) == r.written + r.deduplicated + r.filtered
    ensures r.Output? ==> r.deduplicated == Sum(Lengths(src)) - |KeysOf(src)| && r.filtered == |Discarded(src, epochs, discard)|
  {
    hide Sources, Split, Newest, Final, Kept, IsMerge, KeysOf, Discarded, AllListed;
    KeptNothing(discard);
    var m := new Merger(src, epochs);
    if m.heap == [] {
      return NothingToMerge;
    }
    var items: seq<KV>, filtered := [], 0;
    while m.heap != []
      invariant m.Valid() && m.src == src && m.epochs == epochs && fresh(m) && fresh(m.dedup)
      invariant items == Kept(m.emitted, discard) && filtered + |items| == |m.emitted|
      invariant m.heap == [] ==> m.dedup.toBeChecked.Some?
      decreases Sum(Lengths(src)) - Sum(m.pos)
    {
      ghost var before := m.emitted;
      var ready := m.Next();
      if ready.Some? {
        KeptAppend(before, ready.value, discard);
        if Drops(discard, ready.value) {
          filtered := filtered + 1;
        } else {
          items := items + [ready.value];
        }
      }
    }
    var last := m.Last(discard);
    KeptAppend(m.emitted, last, discard);
    CountersAre(src, epochs, m.emitted + [last], discard);
    if Drops(discard, last) {
      filtered := filtered + 1;
    } else {
      items := items + [last];
    }
    return Output(items, |items|, m.dedup.duplicates, filtered);
  }

  // ---- The merge of tables

  /** `s` lists the content `m` in key order. */
  ghost predicate Lists(s: seq<KV>, m: Content) {
    && Sorted(s)
    && forall kv :: kv in s <==> Get(m, kv.key) == Some(kv.value)
  }

  /** Tables from oldest to newest and the sources that read them. */
  ghost predicate ReadsTables(ts: seq<Table>, src: seq<seq<KV>>, epochs: seq<nat>) {
    && |ts| == |src| == |epochs|
    && (forall i :: 0 <= i < |ts| ==> Lists(src[i], ts[i].content) && epochs[i] == ts[i].epoch)
    && (forall i, j :: 0 <= i < j < |ts| ==> ts[i].epoch < ts[j].epoch)
  }

  lemma {:induction false} SearchIndex(ts: seq<Table>, k: Key) returns (i: int)
    ensures Search(ts, k).None? ==> forall j :: 0 <= j < |ts| ==> k !in ts[j].content
    ensures Search(ts, k).Some? ==> 0 <= i < |ts| && Get(ts[i].content, k) == Search(ts, k)
    ensures Search(ts, k).Some? ==> forall j :: i < j < |ts| ==> k !in ts[j].content
  {
    i := |ts| - 1;
    if ts != [] && k !in ts[|ts| - 1].content {
      i := SearchIndex(ts[..|ts| - 1], k);
    }
  }

  lemma {:induction false} HasIsIn(ts: seq<Table>, src: seq<seq<KV>>, epochs: seq<nat>, i: int, j: int, k: Key)
    requires ReadsTables(ts, src, epochs) && Has(src, i, j, k)
    ensures Get(ts[i].content, k) == Some(src[i][j].value)
  {
  }

  /** Newest by epoch is newest by place. */
  lemma {:induction false} NewestIsSearch(ts: seq<Table>, src: seq<seq<KV>>, epochs: seq<nat>, kv: KV)
    requires ReadsTables(ts, src, epochs)
    ensures Newest(src, epochs, kv) <==> Search(ts, kv.key) == Some(kv.value)
  {
    var n := SearchIndex(ts, kv.key);
    forall i, j | Has(src, i, j, kv.key)
      ensures Search(ts, kv.key).Some? && i <= n && epochs[i] <= epochs[n]
    {
      HasIsIn(ts, src, epochs, i, j, kv.key);
    }
    if Search(ts, kv.key).Some? {
      var top := KV(kv.key, Search(ts, kv.key).value);
      assert Lists(src[n], ts[n].content) && top in src[n];
      var m :| 0 <= m < |src[n]| && src[n][m] == top;
      assert NewestAt(src, epochs, n, m, kv.key);
      forall i, j | NewestAt(src, epochs, i, j, kv.key)
        ensures src[i][j].value == top.value
      {
        assert Has(src, i, j, kv.key) && Has(src, n, m, kv.key);
        assert i == n;
        HasIsIn(ts, src, epochs, i, j, kv.key);
      }
    }
  }

  /** The heap merge of some tables, oldest first, lists exactly what one merged table has to hold. */
  lemma {:induction false} MergeRefinesOverlay(ts: seq<Table>, src: seq<seq<KV>>, epochs: seq<nat>, discard: bool, out: seq<KV>)
    requires ReadsTables(ts, src, epochs) && IsMerge(src, epochs, discard, out)
    ensures Lists(out, Merged(ts, discard))
  {
    forall kv
      ensures kv in out <==> Get(Merged(ts, discard), kv.key) == Some(kv.value)
    {
      NewestIsSearch(ts, src, epochs, kv);
      OverlayIsSearch(ts, kv.key);
    }
  }
}
