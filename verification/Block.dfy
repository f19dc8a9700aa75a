/** One page of sorted entries: prefix-compressed keys with restart points and a trailer. */
module Block {
  import opened Arith
  import opened Bytes
  import opened Varint

  const MAX_KEY := 256

  datatype Pair = Pair(key: Bytes, value: Bytes)

  /** The length of the longest common prefix. */
  function Shared(a: Bytes, b: Bytes): (n: nat)
    ensures n <= |a| && n <= |b| && a[..n] == b[..n]
    ensures n < |a| && n < |b| ==> a[n] != b[n]
  {
    if a == [] || b == [] || a[0] != b[0] then 0
    else
      var n := Shared(a[1..], b[1..]);
      assert a[..n + 1] == [a[0]] + a[1..][..n] && b[..n + 1] == [b[0]] + b[1..][..n];
      n + 1
  }

  lemma {:induction false} SharedIs(a: Bytes, b: Bytes, n: nat)
    requires n <= |a| && n <= |b| && a[..n] == b[..n]
    requires n < |a| && n < |b| ==> a[n] != b[n]
    ensures n == Shared(a, b)
  {
  }

  method SharedPrefixLength(prev: Bytes, curr: Bytes) returns (n: nat)
    ensures n == Shared(prev, curr)
  {
    n := 0;
    while n < |prev| && n < |curr| && prev[n] == curr[n]
      invariant n <= |prev| && n <= |curr| && prev[..n] == curr[..n]
    {
      n := n + 1;
    }
    SharedIs(prev, curr, n);
  }

  /** The byte that stands for the size of a whole key. */
  function KeySize(n: nat): (b: Byte)
    ensures 1 <= n <= 256 ==> b == n - 1
  {
    (n + 255) % 256
  }

  /** Length and key of an entry; lengths are cut to one byte. */
  function Head(restart: bool, prev: Bytes, key: Bytes): Bytes {
    if restart then [KeySize(|key|)] + key
    else
      var n := Shared(prev, key);
      [LowByte(n), LowByte(|key| - n)] + key[n..]
  }

  function Tail(value: Bytes): Bytes {
    Base128(|value|) + value
  }

  function Entry(restart: bool, prev: Bytes, p: Pair): Bytes {
    Head(restart, prev, p.key) + Tail(p.value)
  }

  function LastKey(ps: seq<Pair>): Bytes {
    if ps == [] then [] else ps[|ps| - 1].key
  }

  predicate GoodKey(k: Bytes) {
    1 <= |k| <= MAX_KEY
  }

  ghost predicate Good(ps: seq<Pair>) {
    forall i :: 0 <= i < |ps| ==> GoodKey(ps[i].key)
  }

  /** Every `g`-th entry, from the first on, is a restart point. */
  predicate Opens(n: nat, g: nat) {
    g > 0 && (n == 0 || (g <= n && Opens(n - g, g)))
  }

  lemma {:induction false} OpensIsMultiple(n: nat, g: nat)
    requires g > 0
    ensures Opens(n, g) <==> n % g == 0
  {
    if g <= n {
      OpensIsMultiple(n - g, g);
      assert (n - g) % g == n % g by {
        DivModUnique(n, g, (n - g) / g + 1, (n - g) % g);
      }
    }
  }

  /** The `i`-th entry as it is written. */
  function EntryAt(ps: seq<Pair>, i: nat, g: nat): Bytes
    requires i < |ps|
  {
    Entry(Opens(i, g), LastKey(ps[..i]), ps[i])
  }

  /** `chunks` are the entries of `ps` as they are written. */
  ghost predicate Chunked(ps: seq<Pair>, chunks: seq<Bytes>, g: nat) {
    |chunks| == |ps| && forall i :: 0 <= i < |chunks| ==> chunks[i] == EntryAt(ps, i, g)
  }

  function Concat(chunks: seq<Bytes>): Bytes {
    if chunks == [] then [] else Concat(chunks[..|chunks| - 1]) + chunks[|chunks| - 1]
  }

  /** Where the restart points are. */
  function Starts(chunks: seq<Bytes>, g: nat): seq<nat> {
    if chunks == [] then []
    else
      var n := |chunks| - 1;
      if Opens(n, g) then Starts(chunks[..n], g) + [|Concat(chunks[..n])|] else Starts(chunks[..n], g)
  }

  function Words(s: seq<nat>): (r: Bytes)
    ensures |r| == 2 * |s|
  {
    if s == [] then [] else Words(s[..|s| - 1]) + LittleEndian(s[|s| - 1], 2)
  }

  /** Restart offsets, their count, and the footer up to the checksum: the entry count and an unused type. */
  function Trailer(offsets: seq<nat>, count: nat): (r: Bytes)
    ensures |r| == 2 * |offsets| + 6
  {
    Words(offsets) + LittleEndian(|offsets|, 2) + LittleEndian(count, 2) + LittleEndian(0, 2)
  }

  /** A trailer and the checksum of all before it stand at the end of the page. */
  ghost predicate Sealed(page: Bytes, trailer: Bytes, sum: Bytes -> nat) {
    && |trailer| + 4 <= |page|
    && At(page, |page| - 4 - |trailer|, trailer)
    && At(page, |page| - 4, LittleEndian(sum(page[..|page| - 4]), 4))
  }

  /** The entries stand at the front, and the ledger `n` is exact: entries, two bytes a restart point, ten bytes of counts and footer. */
  ghost predicate Laid(page: Bytes, chunks: seq<Bytes>, g: nat, offsets: seq<nat>, n: nat) {
    && g > 0
    && offsets == Starts(chunks, g)
    && n == |Concat(chunks)| + 2 * |offsets| + 10 <= |page| <= 65536
    && At(page, 0, Concat(chunks))
  }

  /** A committed block. */
  ghost predicate IsBlock(page: Bytes, ps: seq<Pair>, chunks: seq<Bytes>, g: nat, sum: Bytes -> nat) {
    && Good(ps)
    && Chunked(ps, chunks, g)
    && Laid(page, chunks, g, Starts(chunks, g), |Concat(chunks)| + 2 * |Starts(chunks, g)| + 10)
    && Sealed(page, Trailer(Starts(chunks, g), |ps|), sum)
  }

  datatype Status = Ok | InvalidKey | BufferFull

  method Copy(s: Bytes, a: array<Byte>, at: nat) returns (next: nat)
    requires at + |s| <= a.Length
    modifies a
    ensures next == at + |s| && Patched(old(a[..]), a[..], at, s)
  {
    for i := 0 to |s|
      invariant forall j :: 0 <= j < a.Length ==> a[j] == if at <= j < at + i then s[j - at] else old(a[j])
    {
      a[at + i] := s[i];
    }
    next := at + |s|;
  }

  method WriteEntry(a: array<Byte>, at: nat, head: Bytes, value: Bytes) returns (next: nat)
    requires at + |head| + |Tail(value)| <= a.Length
    modifies a
    ensures next == at + |head| + |Tail(value)| && Patched(old(a[..]), a[..], at, head + Tail(value))
  {
    ghost var s0 := a[..];
    next := Copy(head, a, at);
    ghost var s1 := a[..];
    next := Encode(|value|, a, next);
    ghost var s2 := a[..];
    next := Copy(value, a, next);
    PatchTwice(s1, s2, a[..], at + |head|, Base128(|value|), value);
    PatchTwice(s0, s1, a[..], at, head, Tail(value));
  }

  /** One more chunk behind the others. */
  lemma {:induction false} LaidMore(x: Bytes, y: Bytes, chunks: seq<Bytes>, g: nat, offsets: seq<nat>, n: nat, head: nat, e: Bytes,
                 more: seq<Bytes>, offsets2: seq<nat>, n2: nat)
    requires Laid(x, chunks, g, offsets, n) && head == |Concat(chunks)| && Patched(x, y, head, e) && more == chunks + [e]
    requires offsets2 == if Opens(|chunks|, g) then offsets + [head] else offsets
    requires n2 == n + |e| + 2 * (|offsets2| - |offsets|) <= |x|
    ensures Laid(y, more, g, offsets2, n2) && |Concat(more)| == head + |e|
  {
  }

  lemma {:induction false} ChunkedMore(ps: seq<Pair>, chunks: seq<Bytes>, g: nat, p: Pair, e: Bytes)
    requires Chunked(ps, chunks, g) && e == Entry(Opens(|ps|, g), LastKey(ps), p)
    ensures Chunked(ps + [p], chunks + [e], g)
  {
    var qs := ps + [p];
    forall i | 0 <= i < |qs|
      ensures (chunks + [e])[i] == EntryAt(qs, i, g)
    {
      assert qs[..i] == if i < |ps| then ps[..i] else ps;
    }
  }

  /** A patch behind a text leaves it. */
  lemma {:induction false} PatchBehind(x: Bytes, y: Bytes, at: nat, s: Bytes, h: nat, t: Bytes)
    requires Patched(x, y, at, s)
    ensures At(y, at, s)
    ensures At(x, h, t) && h + |t| <= at ==> At(y, h, t)
  {
    PatchStays(x, y, at, s);
  }

  /** The commit writes only behind the entries. */
  lemma {:induction false} CommitKeeps(x: Bytes, y: Bytes, z: Bytes, chunks: seq<Bytes>, g: nat, sum: Bytes -> nat, offsets: seq<nat>, n: nat, t: Bytes, c: Bytes)
    requires Laid(x, chunks, g, offsets, n)
    requires |t| == 2 * |offsets| + 6 && Patched(x, y, |x| - 10 - 2 * |offsets|, t)
    requires c == LittleEndian(sum(y[..|y| - 4]), 4) && Patched(y, z, |y| - 4, c)
    ensures Laid(z, chunks, g, offsets, n) && Sealed(z, t, sum)
  {
    hide At, Concat, Starts, LittleEndian;
    var at := |x| - 10 - 2 * |offsets|;
    PatchBehind(x, y, at, t, 0, Concat(chunks));
    PatchBehind(y, z, at + |t|, c, 0, Concat(chunks));
    PatchBehind(y, z, at + |t|, c, at, t);
    assert y[..|y| - 4] == z[..|z| - 4];
  }

  /** What an entry adds to the ledger. */
  function Cost(ps: seq<Pair>, p: Pair, g: nat): nat {
    |Entry(Opens(|ps|, g), LastKey(ps), p)| + if Opens(|ps|, g) then 2 else 0
  }

  /** What the entries of a block take, with ten bytes of counts and footer. */
  function Ledger(ps: seq<Pair>, g: nat): nat {
    if ps == [] then 10 else Ledger(ps[..|ps| - 1], g) + Cost(ps[..|ps| - 1], ps[|ps| - 1], g)
  }

  lemma {:induction false} LedgerIs(ps: seq<Pair>, chunks: seq<Bytes>, g: nat)
    requires Chunked(ps, chunks, g)
    ensures |Concat(chunks)| + 2 * |Starts(chunks, g)| + 10 == Ledger(ps, g)
  {
    hide Entry, Opens;
    if ps != [] {
      var n := |ps| - 1;
      var front := ps[..n];
      forall i | 0 <= i < n
        ensures chunks[..n][i] == EntryAt(front, i, g)
      {
        assert front[..i] == ps[..i] && chunks[i] == EntryAt(ps, i, g);
      }
      LedgerIs(front, chunks[..n], g);
      assert chunks[n] == EntryAt(ps, n, g);
    }
  }

  /** The encoder's fields beside the page. */
  datatype Progress = Progress(head: nat, lastKey: Bytes, offsets: seq<nat>, bytesWritten: nat, count: nat, committed: bool)

  const BLANK := Progress(0, [], [], 10, 0, false)

  /** The fields and the page describe the entries `ps`. */
  ghost predicate Holds(page: Bytes, f: Progress, ps: seq<Pair>, chunks: seq<Bytes>, g: nat, sum: Bytes -> nat) {
    && Laid(page, chunks, g, f.offsets, f.bytesWritten)
    && Chunked(ps, chunks, g) && Good(ps)
    && f.lastKey == LastKey(ps) && f.count == |ps|
    && (if f.committed then Sealed(page, Trailer(f.offsets, f.count), sum) else f.head == |Concat(chunks)|)
  }

  lemma {:induction false} HoldsNothing(page: Bytes, g: nat, sum: Bytes -> nat)
    requires g > 0 && 10 <= |page| <= 65536
    ensures Holds(page, BLANK, [], [], g, sum)
  {
  }

  /** The fields after one more entry. */
  function Advanced(f: Progress, ps: seq<Pair>, p: Pair, g: nat): Progress {
    var e := Entry(Opens(|ps|, g), LastKey(ps), p);
    Progress(f.head + |e|, p.key, if Opens(|ps|, g) then f.offsets + [f.head] else f.offsets,
             f.bytesWritten + Cost(ps, p, g), f.count + 1, false)
  }

  lemma {:induction false} HoldsMore(x: Bytes, y: Bytes, f: Progress, ps: seq<Pair>, chunks: seq<Bytes>, g: nat, sum: Bytes -> nat, p: Pair, e: Bytes)
    requires Holds(x, f, ps, chunks, g, sum) && !f.committed && GoodKey(p.key)
    requires e == Entry(Opens(|ps|, g), f.lastKey, p) && Patched(x, y, f.head, e)
    requires f.bytesWritten + Cost(ps, p, g) <= |x|
    ensures Holds(y, Advanced(f, ps, p, g), ps + [p], chunks + [e], g, sum)
  {
    ChunkedMore(ps, chunks, g, p, e);
    var f2 := Advanced(f, ps, p, g);
    LaidMore(x, y, chunks, g, f.offsets, f.bytesWritten, f.head, e, chunks + [e], f2.offsets, f2.bytesWritten);
  }

  lemma {:induction false} HoldsCommitted(x: Bytes, y: Bytes, z: Bytes, f: Progress, ps: seq<Pair>, chunks: seq<Bytes>, g: nat, sum: Bytes -> nat, head: nat, c: Bytes)
    requires Holds(x, f, ps, chunks, g, sum)
    requires Patched(x, y, |x| - 10 - 2 * |f.offsets|, Trailer(f.offsets, f.count))
    requires c == LittleEndian(sum(y[..|y| - 4]), 4) && Patched(y, z, |y| - 4, c)
    ensures Holds(z, f.(head := head, committed := true), ps, chunks, g, sum)
  {
    CommitKeeps(x, y, z, chunks, g, sum, f.offsets, f.bytesWritten, Trailer(f.offsets, f.count), c);
  }

  lemma {:induction false} Room(page: Bytes, f: Progress, ps: seq<Pair>, chunks: seq<Bytes>, g: nat, sum: Bytes -> nat, p: Pair)
    requires Holds(page, f, ps, chunks, g, sum)
    ensures 2 * |f.offsets| + 10 <= |page| && f.bytesWritten == Ledger(ps, g)
    ensures f.count == |ps| && f.lastKey == LastKey(ps)
    ensures !f.committed && f.bytesWritten + Cost(ps, p, g) <= |page| ==>
              f.head + |Head(Opens(|ps|, g), f.lastKey, p.key)| + |Tail(p.value)| <= |page|
  {
    hide Head, Tail, At, Starts, Concat, Chunked, Good, Sealed, Opens, Trailer, LastKey, Ledger;
    LedgerIs(ps, chunks, g);
  }

  /** Write a trailer and the checksum at the end of the page. */
  method Seal(a: array<Byte>, trailer: Bytes, sum: Bytes -> nat) returns (head: nat, ghost y: Bytes, ghost c: Bytes)
    requires |trailer| + 4 <= a.Length
    modifies a
    ensures Patched(old(a[..]), y, a.Length - 4 - |trailer|, trailer) && |y| == a.Length
    ensures c == LittleEndian(sum(y[..|y| - 4]), 4) && Patched(y, a[..], |y| - 4, c)
    ensures head == a.Length
  {
    head := Copy(trailer, a, a.Length - 4 - |trailer|);
    y := a[..];
    var checksum := LittleEndian(sum(a[..a.Length - 4]), 4);
    c := checksum;
    assert a[..a.Length - 4] == y[..|y| - 4];
    head := Copy(checksum, a, head);
  }

  /** The predicted space is the space an entry takes. */
  lemma {:induction false} RestartSpace(f: Progress, ps: seq<Pair>, key: Bytes, value: Bytes, g: nat, space: nat)
    requires GoodKey(key) && Opens(|ps|, g) && f.head < 65536 && space == 1 + |key| + Length(|value|) + |value|
    ensures Cost(ps, Pair(key, value), g) == space + 2 && Head(true, LastKey(ps), key) == [|key| - 1] + key
    ensures Progress(f.head + space, key, f.offsets + [f.head % 65536], f.bytesWritten + space + 2, f.count + 1, false)
         == Advanced(f, ps, Pair(key, value), g)
  {
    hide Opens, Base128;
    LengthIsExact(|value|);
  }

  lemma {:induction false} DeltaSpace(f: Progress, ps: seq<Pair>, key: Bytes, value: Bytes, g: nat, space: nat)
    requires !Opens(|ps|, g) && space == 1 + 1 + |key| - Shared(LastKey(ps), key) + Length(|value|) + |value|
    ensures Cost(ps, Pair(key, value), g) == space
    ensures Progress(f.head + space, key, f.offsets, f.bytesWritten + space, f.count + 1, false)
         == Advanced(f, ps, Pair(key, value), g)
  {
    LengthIsExact(|value|);
  }

  class Encoder {
    const size: nat
    const group: nat
    const sum: Bytes -> nat
    var page: array<Byte>
    var f: Progress
    ghost var pairs: seq<Pair>
    ghost var chunks: seq<Bytes>

    ghost predicate Valid()
      reads this, page
    {
      page.Length == size && Holds(page[..], f, pairs, chunks, group, sum)
    }

    constructor (base: array<Byte>, group: nat, sum: Bytes -> nat)
      requires group > 0 && 10 <= base.Length <= 65536
      ensures Valid() && page == base && pairs == [] && !f.committed
      ensures this.group == group && this.sum == sum
    {
      this.size, this.group, this.sum := base.Length, group, sum;
      page, f, pairs, chunks := base, BLANK, [], [];
      new;
      HoldsNothing(page[..], group, sum);
    }

    method Reset(base: array<Byte>)
      requires Valid() && base.Length == size
      modifies this
      ensures Valid() && page == base && pairs == [] && !f.committed
    {
      page, f, pairs, chunks := base, BLANK, [], [];
      HoldsNothing(page[..], group, sum);
    }

    /** Write restart offsets, counts and checksum into the space reserved for them. */
    method Commit()
      requires Valid()
      modifies this`f, page
      ensures Valid() && f.committed
    {
      hide Holds, Trailer, Ledger, Cost, Head, Tail, Opens, LastKey, Patched, LittleEndian;
      ghost var x := page[..];
      Room(x, f, pairs, chunks, group, sum, Pair([], []));
      var head; ghost var y, c;
      head, y, c := Seal(page, Trailer(f.offsets, f.count), sum);
      HoldsCommitted(x, y, page[..], f, pairs, chunks, group, sum, head, c);
      f := f.(head := head, committed := true);
    }

    /** Append an entry, or commit the block when the entry does not fit. */
    method Push(key: Bytes, value: Bytes) returns (r: Status)
      requires Valid() && !f.committed
      modifies this, page
      ensures Valid() && page == old(page)
      ensures r == InvalidKey <==> !GoodKey(key)
      ensures r == BufferFull <==> GoodKey(key) && size < Ledger(old(pairs), group) + Cost(old(pairs), Pair(key, value), group)
      ensures f.committed <==> r == BufferFull
      ensures pairs == if r == Ok then old(pairs) + [Pair(key, value)] else old(pairs)
    {
      if |key| > MAX_KEY || |key| == 0 {
        return InvalidKey;
      }
      hide Ledger;
      Room(page[..], f, pairs, chunks, group, sum, Pair(key, value));
      OpensIsMultiple(f.count, group);
      if f.count % group != 0 {
        r := PushDelta(key, value);
      } else {
        r := PushRestart(key, value);
      }
    }

    method PushRestart(key: Bytes, value: Bytes) returns (r: Status)
      requires Valid() && !f.committed && GoodKey(key) && Opens(|pairs|, group)
      modifies this, page
      ensures Valid() && page == old(page)
      ensures r == if size < old(f).bytesWritten + Cost(old(pairs), Pair(key, value), group) then BufferFull else Ok
      ensures f.committed <==> r == BufferFull
      ensures pairs == if r == Ok then old(pairs) + [Pair(key, value)] else old(pairs)
    {
      hide Base128, At, Concat, Starts, Chunked, Good, Sealed, Trailer, Head, LastKey;
      var spaceNeeded := 1 + |key| + Length(|value|) + |value|;
      RestartSpace(f, pairs, key, value, group, spaceNeeded);
      if f.bytesWritten + spaceNeeded + 2 > size {
        Commit();
        return BufferFull;
      }
      var next := Progress(f.head + spaceNeeded, key, f.offsets + [f.head % 65536], f.bytesWritten + spaceNeeded + 2, f.count + 1, false);
      Append(key, value, [|key| - 1] + key, next);
      return Ok;
    }

    method PushDelta(key: Bytes, value: Bytes) returns (r: Status)
      requires Valid() && !f.committed && GoodKey(key) && !Opens(|pairs|, group)
      modifies this, page
      ensures Valid() && page == old(page)
      ensures r == if size < old(f).bytesWritten + Cost(old(pairs), Pair(key, value), group) then BufferFull else Ok
      ensures f.committed <==> r == BufferFull
      ensures pairs == if r == Ok then old(pairs) + [Pair(key, value)] else old(pairs)
    {
      hide Holds, Tail, Opens, Shared;
      Room(page[..], f, pairs, chunks, group, sum, Pair(key, value));
      var shared := SharedPrefixLength(f.lastKey, key);
      var spaceNeeded := 1 + 1 + |key| - shared + Length(|value|) + |value|;
      DeltaSpace(f, pairs, key, value, group, spaceNeeded);
      if f.bytesWritten + spaceNeeded > size {
        Commit();
        return BufferFull;
      }
      Append(key, value, [LowByte(shared), LowByte(|key| - shared)] + key[shared..],
             Progress(f.head + spaceNeeded, key, f.offsets, f.bytesWritten + spaceNeeded, f.count + 1, false));
      return Ok;
    }

    /** Write an entry that fits. */
    method Append(key: Bytes, value: Bytes, prefix: Bytes, next: Progress)
      requires Valid() && !f.committed && GoodKey(key)
      requires prefix == Head(Opens(|pairs|, group), f.lastKey, key)
      requires next == Advanced(f, pairs, Pair(key, value), group) && next.bytesWritten <= size
      modifies this`f, this`pairs, this`chunks, page
      ensures Valid() && f == next && pairs == old(pairs) + [Pair(key, value)]
    {
      hide Holds, Head, Tail, Opens, LastKey;
      ghost var p, e, x := Pair(key, value), prefix + Tail(value), page[..];
      Room(x, f, pairs, chunks, group, sum, p);
      var _ := WriteEntry(page, f.head, prefix, value);
      HoldsMore(x, page[..], f, pairs, chunks, group, sum, p, e);
      f, pairs, chunks := next, pairs + [p], chunks + [e];
    }
  }
}
