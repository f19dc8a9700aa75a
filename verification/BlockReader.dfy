/** Reading a block back: the iterator and the search. */
module BlockReader {
  import opened Arith
  import opened Bytes
  import opened Varint
  import opened Versions
  import opened Block

  datatype Parsed = Parsed(pair: Pair, next: nat)

  function Filled(b: Byte, n: nat): (r: Bytes)
    ensures |r| == n && forall i :: 0 <= i < n ==> r[i] == b
  {
    if n == 0 then [] else Filled(b, n - 1) + [b]
  }

  /** A vector cut or padded to `n` bytes. */
  function Resize(k: Bytes, n: nat): Bytes {
    if n <= |k| then k[..n] else k + Filled(0, n - |k|)
  }

  /** The value behind a key; `None` when the iterator would leave the page. */
  function ReadValue(page: Bytes, h: nat, key: Bytes): Option<Parsed> {
    if h + 5 > |page| then None
    else
      match Read(page[h..h + 5])
      case Number(v, n) =>
        if h + n + v > |page| then None else Some(Parsed(Pair(key, page[h + n..h + n + v]), h + n + v))
      case TooFew => None
      case TooMany => None
  }

  /** The entry at `h`; `prev` is the key before it. */
  function ReadEntry(page: Bytes, h: nat, restart: bool, prev: Bytes): Option<Parsed> {
    if restart then
      if h + 1 > |page| || h + 1 + (page[h] as int + 1) > |page| then None
      else
        var next: nat := h + 1 + (page[h] as int + 1);
        ReadValue(page, next, page[h + 1..next])
    else if h + 2 > |page| || h + 2 + page[h + 1] as int > |page| then None
    else
      var next: nat := h + 2 + page[h + 1] as int;
      ReadValue(page, next, Resize(prev, page[h]) + page[h + 2..next])
  }

  /** Both length bytes of a delta entry hold their lengths. */
  predicate Clean(restart: bool, prev: Bytes, key: Bytes) {
    restart || (Shared(prev, key) < 256 && |key| - Shared(prev, key) < 256)
  }

  lemma {:induction false} ReadsValue(page: Bytes, h: nat, p: Pair, next: nat)
    requires At(page, h, Tail(p.value)) && next == h + |Tail(p.value)| && next + 4 <= |page| <= 65536
    ensures ReadValue(page, h, p.key) == Some(Parsed(p, next))
  {
    var value := p.value;
    var n := |Base128(|value|)|;
    AtSplits(page, h, Base128(|value|), value);
    assert Pow(128, 3) == 128 * (128 * (128 * Pow(128, 0)));
    LengthBound(|value|, 3);
    var data := page[h..h + 5];
    assert data == Base128(|value|) + data[n..] by {
      assert data[..n] == page[h..h + n];
    }
    RoundTrip(|value|, data[n..]);
  }

  lemma {:induction false} AtIs(page: Bytes, h: nat, s: Bytes)
    requires At(page, h, s)
    ensures h + |s| <= |page| && page[h..h + |s|] == s && (s != [] ==> page[h] == s[0])
  {
    assert s != [] ==> page[h] == page[h..h + |s|][0];
  }

  lemma {:induction false} RestartForm(prev: Bytes, p: Pair)
    ensures Entry(true, prev, p) == ([KeySize(|p.key|)] + p.key) + Tail(p.value)
  {
    hide Tail, KeySize;
  }

  /** The parts of a restart entry, where they stand. */
  lemma {:induction false} RestartParts(page: Bytes, h: nat, prev: Bytes, p: Pair)
    requires At(page, h, Entry(true, prev, p)) && GoodKey(p.key)
    ensures h + 1 + |p.key| + |Tail(p.value)| == h + |Entry(true, prev, p)| <= |page|
    ensures page[h] == |p.key| - 1 && page[h + 1..h + 1 + |p.key|] == p.key
    ensures At(page, h + 1 + |p.key|, Tail(p.value))
  {
    hide Tail, KeySize, Entry, At;
    var size, tail := [KeySize(|p.key|)], Tail(p.value);
    RestartForm(prev, p);
    AtSplits(page, h, size + p.key, tail);
    AtSplits(page, h, size, p.key);
    AtIs(page, h, size);
    AtIs(page, h + 1, p.key);
    AtIs(page, h + 1 + |p.key|, tail);
  }

  lemma {:induction false} ReadsRestart(page: Bytes, h: nat, prev: Bytes, p: Pair, next: nat)
    requires At(page, h, Entry(true, prev, p)) && GoodKey(p.key) && next == h + |Entry(true, prev, p)| && next + 4 <= |page| <= 65536
    ensures ReadEntry(page, h, true, prev) == Some(Parsed(p, next))
  {
    hide ReadValue, Entry, Tail, At;
    RestartParts(page, h, prev, p);
    ReadsValue(page, h + 1 + |p.key|, p, next);
  }

  lemma {:induction false} DeltaHead(page: Bytes, h: nat, prev: Bytes, p: Pair, n: nat)
    requires At(page, h, Entry(false, prev, p)) && n == Shared(prev, p.key)
    ensures h + 2 + |p.key| - n + |Tail(p.value)| == h + |Entry(false, prev, p)| <= |page|
    ensures page[h] == LowByte(n) && page[h + 1] == LowByte(|p.key| - n)
    ensures At(page, h + 2, p.key[n..]) && At(page, h + 2 + |p.key| - n, Tail(p.value))
  {
    hide Tail, LowByte, Shared, Entry, At;
    var sizes: Bytes, tail := [LowByte(n), LowByte(|p.key| - n)], Tail(p.value);
    DeltaForm(prev, p, n);
    AtSplits(page, h, sizes + p.key[n..], tail);
    AtSplits(page, h, sizes, p.key[n..]);
    AtSplits(page, h, [sizes[0]], [sizes[1]]);
    assert [sizes[0]] + [sizes[1]] == sizes;
    AtIs(page, h, [sizes[0]]);
    AtIs(page, h + 1, [sizes[1]]);
    AtIs(page, h + 2 + |p.key| - n, tail);
  }

  lemma {:induction false} DeltaForm(prev: Bytes, p: Pair, n: nat)
    requires n == Shared(prev, p.key)
    ensures Entry(false, prev, p) == ([LowByte(n), LowByte(|p.key| - n)] + p.key[n..]) + Tail(p.value)
  {
    hide Tail, LowByte, Shared;
  }

  lemma {:induction false} ReadsDelta(page: Bytes, h: nat, prev: Bytes, p: Pair, next: nat)
    requires At(page, h, Entry(false, prev, p)) && next == h + |Entry(false, prev, p)| && next + 4 <= |page| <= 65536
    requires Clean(false, prev, p.key)
    ensures ReadEntry(page, h, false, prev) == Some(Parsed(p, next))
  {
    hide ReadValue, Tail, Shared, LowByte, Entry;
    var n := Shared(prev, p.key);
    DeltaHead(page, h, prev, p, n);
    assert Resize(prev, n) + p.key[n..] == p.key;
    ReadsValue(page, h + 2 + |p.key| - n, p, next);
  }

  lemma {:induction false} KeyOfValue(page: Bytes, h: nat, key: Bytes)
    ensures ReadValue(page, h, key).Some? ==> ReadValue(page, h, key).value.pair.key == key
  {
    hide Read;
  }

  /** A length of 256 is written as 0, and the key is lost. */
  lemma {:induction false} LosesKey(page: Bytes, h: nat, prev: Bytes, p: Pair)
    requires At(page, h, Entry(false, prev, p)) && |p.key| <= MAX_KEY && !Clean(false, prev, p.key)
    ensures ReadEntry(page, h, false, prev).None? || ReadEntry(page, h, false, prev).value.pair.key == []
  {
    hide ReadValue, Tail, Shared, LowByte, Entry, At;
    DeltaHead(page, h, prev, p, Shared(prev, p.key));
    KeyOfValue(page, h + 2, []);
    assert Resize(prev, 0) + page[h + 2..h + 2] == [];
  }

  /** The entry at `h` reads as `p`, exactly when its lengths fit their bytes. */
  ghost predicate Back(page: Bytes, h: nat, restart: bool, prev: Bytes, p: Pair, next: nat) {
    var r := ReadEntry(page, h, restart, prev);
    if Clean(restart, prev, p.key) then r == Some(Parsed(p, next)) else r.None? || r.value.pair.key != p.key
  }

  lemma {:induction false} ReadsBack(page: Bytes, h: nat, restart: bool, prev: Bytes, p: Pair, next: nat)
    requires At(page, h, Entry(restart, prev, p)) && GoodKey(p.key) && next == h + |Entry(restart, prev, p)| && next + 4 <= |page| <= 65536
    ensures Back(page, h, restart, prev, p, next)
  {
    if restart {
      ReadsRestart(page, h, prev, p, next);
    } else if Clean(restart, prev, p.key) {
      ReadsDelta(page, h, prev, p, next);
    } else {
      LosesKey(page, h, prev, p);
    }
  }

  /** Where the `i`-th entry begins. */
  function Offset(chunks: seq<Bytes>, i: nat): nat
    requires i <= |chunks|
  {
    |Concat(chunks[..i])|
  }

  lemma {:induction false} ChunkAt(page: Bytes, chunks: seq<Bytes>, i: nat)
    requires At(page, 0, Concat(chunks)) && i < |chunks|
    ensures At(page, Offset(chunks, i), chunks[i])
    ensures Offset(chunks, i + 1) == Offset(chunks, i) + |chunks[i]| <= |Concat(chunks)|
  {
    var n := |chunks| - 1;
    AtSplits(page, 0, Concat(chunks[..n]), chunks[n]);
    assert chunks[..i + 1][..i] == chunks[..i];
    if i < n {
      ChunkAt(page, chunks[..n], i);
      assert chunks[..n][..i] == chunks[..i] && chunks[..n][..i + 1] == chunks[..i + 1];
    } else {
      assert chunks[..i + 1] == chunks;
    }
  }

  predicate CleanAt(ps: seq<Pair>, i: nat, g: nat)
    requires i < |ps|
  {
    Clean(Opens(i, g), LastKey(ps[..i]), ps[i].key)
  }

  ghost predicate AllClean(ps: seq<Pair>, g: nat) {
    forall i :: 0 <= i < |ps| ==> CleanAt(ps, i, g)
  }

  /** Keys of at most 255 bytes are always clean. */
  lemma {:induction false} ShortKeysClean(ps: seq<Pair>, g: nat)
    requires forall i :: 0 <= i < |ps| ==> |ps[i].key| < 256
    ensures AllClean(ps, g)
  {
  }

  /** The part of a block that the iterator reads, with room behind it. */
  ghost predicate Readable(page: Bytes, ps: seq<Pair>, chunks: seq<Bytes>, g: nat) {
    Good(ps) && Chunked(ps, chunks, g) && At(page, 0, Concat(chunks)) && |Concat(chunks)| + 10 <= |page| <= 65536
  }

  lemma {:induction false} EntryBack(page: Bytes, ps: seq<Pair>, chunks: seq<Bytes>, g: nat, i: nat, h: nat, prev: Bytes, next: nat)
    requires Readable(page, ps, chunks, g) && i < |ps|
    requires h == Offset(chunks, i) && next == Offset(chunks, i + 1) && (Opens(i, g) || prev == LastKey(ps[..i]))
    ensures Back(page, h, Opens(i, g), prev, ps[i], next)
  {
    ChunkAt(page, chunks, i);
    assert chunks[i] == Entry(Opens(i, g), prev, ps[i]) && GoodKey(ps[i].key);
    ReadsBack(page, h, Opens(i, g), prev, ps[i], next);
  }

  function Prepend(p: Pair, rest: Option<seq<Pair>>): Option<seq<Pair>> {
    if rest.Some? then Some([p] + rest.value) else None
  }

  /** What the iterator yields from the `i`-th of `n` entries on. */
  function Decode(page: Bytes, h: nat, i: nat, n: nat, g: nat, prev: Bytes): Option<seq<Pair>>
    decreases n - i
  {
    if i >= n then Some([])
    else
      match ReadEntry(page, h, Opens(i, g), prev)
      case None => None
      case Some(e) =>
        Prepend(e.pair, Decode(page, e.next, i + 1, n, g, e.pair.key))
  }

  lemma {:induction false} Uncons<T>(s: seq<T>, i: nat)
    requires i < |s|
    ensures s[i..] == [s[i]] + s[i + 1..] && s[..i + 1] == s[..i] + [s[i]]
  {
  }

  lemma {:induction false} PrependIff(p: Pair, rest: Option<seq<Pair>>, q: Pair, tail: seq<Pair>)
    ensures Prepend(p, rest) == Some([q] + tail) <==> p == q && rest == Some(tail)
  {
    assert ([q] + tail)[0] == q && ([q] + tail)[1..] == tail;
    if rest.Some? {
      assert ([p] + rest.value)[0] == p && ([p] + rest.value)[1..] == rest.value;
    }
  }

  lemma {:induction false} DecodeStep(page: Bytes, h: nat, i: nat, n: nat, g: nat, prev: Bytes, p: Pair, next: nat, tail: seq<Pair>)
    requires i < n && Back(page, h, Opens(i, g), prev, p, next)
    ensures Decode(page, h, i, n, g, prev) == Some([p] + tail)
       <==> Clean(Opens(i, g), prev, p.key) && Decode(page, next, i + 1, n, g, p.key) == Some(tail)
  {
    var r := ReadEntry(page, h, Opens(i, g), prev);
    if r.Some? {
      PrependIff(r.value.pair, Decode(page, r.value.next, i + 1, n, g, r.value.pair.key), p, tail);
    }
  }

  ghost predicate CleanFrom(ps: seq<Pair>, i: nat, g: nat) {
    forall j :: i <= j < |ps| ==> CleanAt(ps, j, g)
  }

  lemma {:induction false} CleanFromNext(ps: seq<Pair>, i: nat, g: nat)
    requires i <= |ps|
    ensures CleanFrom(ps, i, g) <==> i == |ps| || (CleanAt(ps, i, g) && CleanFrom(ps, i + 1, g))
  {
  }

  lemma {:induction false} LastKeyNext(ps: seq<Pair>, i: nat)
    requires i < |ps|
    ensures LastKey(ps[..i + 1]) == ps[i].key
  {
  }

  lemma {:induction false} DecodeBack(page: Bytes, ps: seq<Pair>, chunks: seq<Bytes>, g: nat, i: nat, h: nat, prev: Bytes)
    requires Readable(page, ps, chunks, g) && i <= |ps| && h == Offset(chunks, i) && prev == LastKey(ps[..i])
    ensures Decode(page, h, i, |ps|, g, prev) == Some(ps[i..]) <==> CleanFrom(ps, i, g)
    decreases |ps| - i
  {
    assert |chunks| == |ps|;
    hide Readable, Back, Clean, Opens, LastKey, ReadEntry, CleanFrom;
    CleanFromNext(ps, i, g);
    if i < |ps| {
      var next := Offset(chunks, i + 1);
      Uncons(ps, i);
      EntryBack(page, ps, chunks, g, i, h, prev, next);
      DecodeStep(page, h, i, |ps|, g, prev, ps[i], next, ps[i + 1..]);
      LastKeyNext(ps, i);
      DecodeBack(page, ps, chunks, g, i + 1, next, ps[i].key);
    } else {
      assert ps[i..] == [];
    }
  }

  /** Iterating a committed block yields the pushed pairs in order if and only if every length fits its byte. */
  lemma {:induction false} RoundTripIff(page: Bytes, ps: seq<Pair>, chunks: seq<Bytes>, g: nat, sum: Bytes -> nat)
    requires IsBlock(page, ps, chunks, g, sum)
    ensures Decode(page, 0, 0, |ps|, g, []) == Some(ps) <==> AllClean(ps, g)
  {
    DecodeBack(page, ps, chunks, g, 0, 0, []);
    assert ps[0..] == ps;
  }

  /** With ascending keys a length overflows only for a 256-byte delta key that shares nothing with the key before it. */
  lemma {:induction false} CleanIff(ps: seq<Pair>, g: nat, i: nat)
    requires g > 0 && Good(ps) && i < |ps| && (0 < i ==> Less(ps[i - 1].key, ps[i].key))
    ensures CleanAt(ps, i, g) <==> Opens(i, g) || |ps[i].key| < 256 || ps[i - 1].key[0] == ps[i].key[0]
  {
    if !Opens(i, g) {
      var prev, key := ps[i - 1].key, ps[i].key;
      assert LastKey(ps[..i]) == prev && GoodKey(prev) && GoodKey(key);
      if Shared(prev, key) == 256 {
        assert prev == prev[..256] == key[..256] == key;
        LessIrreflexive(key);
      }
    }
  }

  /** Such a block: two ascending keys, the second of 256 bytes, of which iteration does not return the second. */
  lemma {:induction false} LongKeyLost(ps: seq<Pair>, page: Bytes, chunks: seq<Bytes>, sum: Bytes -> nat, n: nat)
    requires n == 256 && ps == [Pair([0], [7]), Pair(Filled(1, n), [7])] && IsBlock(page, ps, chunks, 4, sum)
    ensures Less(ps[0].key, ps[1].key) && Decode(page, 0, 0, |ps|, 4, []) != Some(ps)
  {
    RoundTripIff(page, ps, chunks, 4, sum);
    CleanIff(ps, 4, 1);
  }

  lemma {:induction false} TwoFit(p: Pair, q: Pair)
    requires p == Pair([0], [7]) && |q.key| == 256 && q.value == [7]
    ensures Ledger([], 4) + Cost([], p, 4) <= 600 && Ledger([p], 4) + Cost([p], q, 4) <= 600
  {
    hide Shared;
    assert [p][..0] == [];
    assert Base128(1) == [1];
  }

  /** The encoder takes both keys, and the second is lost. */
  method LoseLongKey(sum: Bytes -> nat, n: nat) returns (ps: seq<Pair>, first: Status, second: Status, page: Bytes)
    requires n == 256
    ensures ps == [Pair([0], [7]), Pair(Filled(1, n), [7])] && Less(ps[0].key, ps[1].key)
    ensures first == Ok && second == Ok
    ensures Decode(page, 0, 0, |ps|, 4, []) != Some(ps)
  {
    hide Ledger, Cost, Filled, Holds, Decode, Less, IsBlock, Encoder.Valid;
    var p, q := Pair([0], [7]), Pair(Filled(1, n), [7]);
    ps := [p, q];
    TwoFit(p, q);
    var a := new Byte[600](i => 0);
    var e := new Encoder(a, 4, sum);
    first := e.Push(p.key, p.value);
    assert e.pairs == [p];
    second := e.Push(q.key, q.value);
    assert e.pairs == ps;
    e.Commit();
    page := e.page[..];
    CommittedIsBlock(e, page);
    LongKeyLost(ps, page, e.chunks, sum, n);
  }

  lemma {:induction false} CommittedIsBlock(e: Encoder, page: Bytes)
    requires e.Valid() && e.f.committed && page == e.page[..]
    ensures IsBlock(page, e.pairs, e.chunks, e.group, e.sum)
  {
  }

  /** A two-byte integer. */
  function Word(page: Bytes, h: nat): nat
    requires h + 2 <= |page|
  {
    page[h] as int + 256 * page[h + 1] as int
  }

  lemma {:induction false} WordReads(page: Bytes, h: nat, n: nat)
    requires At(page, h, LittleEndian(n, 2)) && n < 65536
    ensures h + 2 <= |page| && Word(page, h) == n
  {
    hide LowByte, HighPart;
    var s, high := LittleEndian(n, 2), HighPart(n);
    assert s == [LowByte(n)] + LittleEndian(high, 1);
    assert LittleEndian(high, 1) == [LowByte(high)] + LittleEndian(HighPart(high), 0);
    assert page[h] == page[h..h + 2][0] == s[0] && page[h + 1] == page[h..h + 2][1] == s[1];
  }

  lemma {:induction false} WordsRead(page: Bytes, h: nat, s: seq<nat>, j: nat)
    requires At(page, h, Words(s)) && j < |s| && s[j] < 65536
    ensures h + 2 * j + 2 <= |page| && Word(page, h + 2 * j) == s[j]
  {
    var n := |s| - 1;
    AtSplits(page, h, Words(s[..n]), LittleEndian(s[n], 2));
    if j < n {
      WordsRead(page, h, s[..n], j);
    } else {
      WordReads(page, h + 2 * n, s[n]);
    }
  }

  /** The trailer tells the counts and the restart offsets. */
  lemma {:induction false} TrailerReads(page: Bytes, offsets: seq<nat>, count: nat, base: nat, mid: nat, j: nat, at: nat)
    requires At(page, base, Trailer(offsets, count)) && |offsets| < 65536 && count < 65536
    requires mid == base + 2 * |offsets| && at == base + 2 * j && (j < |offsets| ==> offsets[j] < 65536)
    ensures mid + 6 <= |page| && Word(page, mid) == |offsets| && Word(page, mid + 2) == count
    ensures j < |offsets| ==> Word(page, at) == offsets[j]
  {
    hide LittleEndian, Words;
    var a, b, c, d := Words(offsets), LittleEndian(|offsets|, 2), LittleEndian(count, 2), LittleEndian(0, 2);
    AtSplits(page, base, a + b + c, d);
    AtSplits(page, base, a + b, c);
    AtSplits(page, base, a, b);
    WordReads(page, mid, |offsets|);
    WordReads(page, mid + 2, count);
    if j < |offsets| {
      WordsRead(page, base, offsets, j);
    }
  }

  lemma {:induction false} MultipleIs(n: nat, m: nat, g: nat)
    requires g > 0 && n <= m * g < n + g
    ensures n % g == 0 <==> n == m * g
    ensures (m + 1) * g == m * g + g
  {
    if n < m * g {
      assert (m - 1) * g == m * g - g;
      DivModUnique(n, g, m - 1, n - (m - 1) * g);
    } else {
      DivModUnique(n, g, m, 0);
    }
  }

  /** The `j`-th restart point is entry `j * g`, and every entry is in a restart group. */
  lemma {:induction false} StartsAre(chunks: seq<Bytes>, g: nat)
    requires g > 0
    ensures |chunks| <= |Starts(chunks, g)| * g < |chunks| + g
    ensures forall j :: 0 <= j < |Starts(chunks, g)| ==> StartIs(chunks, g, j)
  {
    if chunks != [] {
      var n := |chunks| - 1;
      var front := chunks[..n];
      StartsAre(front, g);
      var m := |Starts(front, g)|;
      OpensIsMultiple(n, g);
      MultipleIs(n, m, g);
      forall j | 0 <= j < |Starts(chunks, g)|
        ensures StartIs(chunks, g, j)
      {
        if j < m {
          assert StartIs(front, g, j);
          assert front[..j * g] == chunks[..j * g];
        }
      }
    }
  }

  ghost predicate StartIs(chunks: seq<Bytes>, g: nat, j: nat) {
    j < |Starts(chunks, g)| && j * g < |chunks| && Starts(chunks, g)[j] == Offset(chunks, j * g)
  }

  lemma {:induction false} StepBack(page: Bytes, ps: seq<Pair>, chunks: seq<Bytes>, g: nat, i: nat, h: nat, prev: Bytes)
    requires g > 0 && Readable(page, ps, chunks, g) && AllClean(ps, g) && i < |ps|
    requires h == Offset(chunks, i) && (Opens(i, g) || prev == LastKey(ps[..i]))
    ensures ReadEntry(page, h, i % g == 0, prev) == Some(Parsed(ps[i], Offset(chunks, i + 1)))
  {
    OpensIsMultiple(i, g);
    var next := Offset(chunks, i + 1);
    EntryBack(page, ps, chunks, g, i, h, prev, next);
    assert CleanAt(ps, i, g);
    assert Clean(Opens(i, g), prev, ps[i].key);
  }

  /** Walks the entries of a page from a restart point on. */
  class Iterator {
    const page: Bytes
    const start: nat
    const count: nat
    const group: nat
    var head: nat
    var kvIdx: nat
    var key: Bytes
    var value: Bytes
    ghost const ps: seq<Pair>
    ghost const chunks: seq<Bytes>

    ghost predicate Valid()
      reads this
    {
      && group > 0 && count == |ps| && Readable(page, ps, chunks, group) && AllClean(ps, group)
      && start <= kvIdx
      && (kvIdx <= count ==> head == Offset(chunks, kvIdx))
      && (kvIdx == start ==> Opens(start, group))
      && (start < kvIdx <= count ==> Pair(key, value) == ps[kvIdx - 1])
    }

    constructor (page: Bytes, base: nat, start: nat, count: nat, group: nat, ghost ps: seq<Pair>, ghost chunks: seq<Bytes>)
      requires group > 0 && count == |ps| && Readable(page, ps, chunks, group) && AllClean(ps, group)
      requires Opens(start, group) && start <= count && base == Offset(chunks, start)
      ensures Valid() && kvIdx == start + 1
      ensures this.page == page && this.start == start && this.count == count && this.group == group && this.ps == ps
    {
      this.page, this.start, this.count, this.group := page, start, count, group;
      this.ps, this.chunks := ps, chunks;
      head, kvIdx, key, value := base, start, [], [];
      new;
      ReadNext();
    }

    /** Move to the next entry; no byte outside the page is read. */
    method ReadNext()
      requires Valid()
      modifies this
      ensures Valid() && kvIdx == old(kvIdx) + 1
    {
      hide ReadEntry, AllClean, Concat, At, EntryAt, Good;
      var idx := kvIdx;
      kvIdx := kvIdx + 1;
      if idx >= count {
        return;
      }
      StepBack(page, ps, chunks, group, idx, head, key);
      var e := ReadEntry(page, head, idx % group == 0, key).value;
      ghost var next := Offset(chunks, idx + 1);
      assert e.pair == ps[idx] && e.next == next;
      key, value, head := e.pair.key, e.pair.value, e.next;
    }

    predicate AtEnd()
      reads this
    {
      kvIdx > count
    }

    predicate AtGroupEnd()
      reads this
    {
      kvIdx > start + group || kvIdx > count
    }
  }

  /** The value of `key` by a scan of all pairs; empty when there is none. */
  function Lookup(ps: seq<Pair>, key: Bytes): Bytes {
    if ps == [] then []
    else if ps[|ps| - 1].key == key then ps[|ps| - 1].value
    else Lookup(ps[..|ps| - 1], key)
  }

  ghost predicate Sorted(ps: seq<Pair>) {
    forall i, j :: 0 <= i < j < |ps| ==> Less(ps[i].key, ps[j].key)
  }

  lemma {:induction false} LookupHit(ps: seq<Pair>, i: nat)
    requires Sorted(ps) && i < |ps|
    ensures Lookup(ps, ps[i].key) == ps[i].value
  {
    var n := |ps| - 1;
    if i < n {
      LessIrreflexive(ps[n].key);
      LookupHit(ps[..n], i);
    }
  }

  lemma {:induction false} LookupMiss(ps: seq<Pair>, key: Bytes)
    requires forall i :: 0 <= i < |ps| ==> ps[i].key != key
    ensures Lookup(ps, key) == []
  {
    if ps != [] {
      LookupMiss(ps[..|ps| - 1], key);
    }
  }

  /** The offset of the `j`-th of `m` restart points. */
  function RestartOffset(page: Bytes, m: nat, j: nat): nat
    requires j < m && 2 * m + 10 <= |page|
  {
    Word(page, |page| - 10 - 2 * (m - j))
  }

  /** The key of the restart entry at `offset`. */
  function KeyAt(page: Bytes, offset: nat): Bytes {
    if offset >= |page| || offset + 2 + page[offset] as int > |page| then []
    else page[offset + 1..offset + 2 + page[offset] as int]
  }

  lemma {:induction false} StartsBound(chunks: seq<Bytes>, g: nat, j: nat)
    requires j < |Starts(chunks, g)|
    ensures Starts(chunks, g)[j] <= |Concat(chunks)|
  {
    var n := |chunks| - 1;
    if j < |Starts(chunks[..n], g)| {
      StartsBound(chunks[..n], g, j);
    }
  }

  /** A committed block tells its restart points. */
  lemma {:induction false} BlockReads(page: Bytes, ps: seq<Pair>, chunks: seq<Bytes>, g: nat, sum: Bytes -> nat, m: nat, j: nat)
    requires IsBlock(page, ps, chunks, g, sum) && m == |Starts(chunks, g)|
    ensures 2 * m + 10 <= |page| && Word(page, |page| - 10) == m && Word(page, |page| - 8) == |ps|
    ensures j < m ==> RestartOffset(page, m, j) == Starts(chunks, g)[j]
  {
    hide LittleEndian, Words, Trailer, Starts, Concat, EntryAt, Word;
    if j < m {
      StartsBound(chunks, g, j);
    }
    EachHasBytes(ps, chunks, g);
    if j < m {
      TrailerReads(page, Starts(chunks, g), |ps|, |page| - 10 - 2 * m, |page| - 10, j, |page| - 10 - 2 * (m - j));
    } else {
      TrailerReads(page, Starts(chunks, g), |ps|, |page| - 10 - 2 * m, |page| - 10, m, |page| - 10);
    }
  }

  lemma {:induction false} EntryHasBytes(restart: bool, prev: Bytes, p: Pair)
    ensures |Entry(restart, prev, p)| > 0
  {
    hide Base128, Shared;
  }

  lemma {:induction false} EachHasBytes(ps: seq<Pair>, chunks: seq<Bytes>, g: nat)
    requires Chunked(ps, chunks, g)
    ensures |ps| <= |Concat(chunks)|
  {
    hide Entry, Opens;
    if ps != [] {
      var n := |ps| - 1;
      forall i | 0 <= i < n
        ensures chunks[..n][i] == EntryAt(ps[..n], i, g)
      {
        assert chunks[i] == EntryAt(ps, i, g) && ps[..n][..i] == ps[..i];
      }
      EachHasBytes(ps[..n], chunks[..n], g);
      assert chunks[n] == EntryAt(ps, n, g);
      EntryHasBytes(Opens(n, g), LastKey(ps[..n]), ps[n]);
    }
  }

  /** The `j`-th restart key. */
  lemma {:induction false} RestartKey(page: Bytes, ps: seq<Pair>, chunks: seq<Bytes>, g: nat, i: nat)
    requires Readable(page, ps, chunks, g) && i < |ps| && Opens(i, g)
    ensures KeyAt(page, Offset(chunks, i)) == ps[i].key
  {
    var h, p := Offset(chunks, i), ps[i];
    ChunkAt(page, chunks, i);
    assert chunks[i] == Entry(true, LastKey(ps[..i]), p) && GoodKey(p.key);
    RestartHead(page, h, LastKey(ps[..i]), p);
  }

  lemma {:induction false} RestartHead(page: Bytes, h: nat, prev: Bytes, p: Pair)
    requires At(page, h, Entry(true, prev, p)) && GoodKey(p.key)
    ensures KeyAt(page, h) == p.key
  {
    hide Entry, Tail, At;
    RestartParts(page, h, prev, p);
  }

  /** The restart key that the binary search compares with. */
  lemma {:induction false} SearchKey(page: Bytes, ps: seq<Pair>, chunks: seq<Bytes>, g: nat, sum: Bytes -> nat, m: nat, j: nat, at: nat)
    requires IsBlock(page, ps, chunks, g, sum) && m == |Starts(chunks, g)| && j < m && at == j * g
    ensures 2 * m + 10 <= |page| && at < |ps| && Opens(at, g)
    ensures RestartOffset(page, m, j) == Offset(chunks, at)
    ensures KeyAt(page, RestartOffset(page, m, j)) == ps[at].key
  {
    hide Starts, Concat, KeyAt, RestartOffset, Trailer, EntryAt, At, LittleEndian;
    BlockReads(page, ps, chunks, g, sum, m, j);
    StartsAre(chunks, g);
    assert StartIs(chunks, g, j);
    OpensIsMultiple(at, g);
    assert at % g == 0 by {
      DivModUnique(at, g, j, 0);
    }
    RestartKey(page, ps, chunks, g, at);
  }

  /** Outside the chosen restart group no key equals the one sought. */
  lemma {:induction false} OnlyGroup(ps: seq<Pair>, g: nat, m: nat, lo: nat, key: Bytes, i: nat)
    requires g > 0 && Sorted(ps) && |ps| <= m * g && lo <= m && i < |ps|
    requires lo < m ==> lo * g < |ps| && Less(key, ps[lo * g].key)
    requires 0 < lo ==> (lo - 1) * g < |ps| && !Less(key, ps[(lo - 1) * g].key)
    requires ps[i].key == key
    ensures 0 < lo && (lo - 1) * g <= i < (lo - 1) * g + g
  {
    if lo < m {
      LessTotal(key, ps[lo * g].key);
      assert i < lo * g;
    }
    if 0 < lo {
      LessTotal(key, ps[(lo - 1) * g].key);
      assert (lo - 1) * g + g == lo * g;
    }
  }

  /** Binary search over the restart keys: the first one greater than `key`. */
  method UpperBound(page: Bytes, m: nat, key: Bytes) returns (lo: nat)
    requires 2 * m + 10 <= |page|
    ensures lo <= m
    ensures lo < m ==> Less(key, KeyAt(page, RestartOffset(page, m, lo)))
    ensures 0 < lo ==> !Less(key, KeyAt(page, RestartOffset(page, m, lo - 1)))
  {
    hide Less, KeyAt, RestartOffset;
    lo := 0;
    var hi := m;
    while lo < hi
      invariant lo <= hi <= m
      invariant hi < m ==> Less(key, KeyAt(page, RestartOffset(page, m, hi)))
      invariant 0 < lo ==> !Less(key, KeyAt(page, RestartOffset(page, m, lo - 1)))
    {
      var mid := lo + (hi - lo) / 2;
      if Less(key, KeyAt(page, RestartOffset(page, m, mid))) {
        hi := mid;
      } else {
        lo := mid + 1;
      }
    }
  }

  /** The search picks the only restart group that can hold `key`. */
  lemma {:induction false} InGroup(page: Bytes, ps: seq<Pair>, chunks: seq<Bytes>, g: nat, sum: Bytes -> nat, m: nat, lo: nat, key: Bytes) returns (at: nat)
    requires IsBlock(page, ps, chunks, g, sum) && Sorted(ps) && m == |Starts(chunks, g)| && lo <= m && 2 * m + 10 <= |page|
    requires lo < m ==> Less(key, KeyAt(page, RestartOffset(page, m, lo)))
    requires 0 < lo ==> !Less(key, KeyAt(page, RestartOffset(page, m, lo - 1)))
    ensures lo == 0 ==> forall i :: 0 <= i < |ps| ==> ps[i].key != key
    ensures 0 < lo ==> at == (lo - 1) * g < |ps| && Opens(at, g) && RestartOffset(page, m, lo - 1) == Offset(chunks, at)
    ensures 0 < lo ==> forall i :: 0 <= i < |ps| && ps[i].key == key ==> at <= i < at + g
  {
    hide Starts, Concat, KeyAt, RestartOffset, Less, Trailer, At, Sorted;
    StartsAre(chunks, g);
    at := 0;
    if lo < m {
      SearchKey(page, ps, chunks, g, sum, m, lo, lo * g);
    }
    if 0 < lo {
      at := (lo - 1) * g;
      SearchKey(page, ps, chunks, g, sum, m, lo - 1, at);
    }
    forall i | 0 <= i < |ps| && ps[i].key == key
      ensures 0 < lo && (lo - 1) * g <= i < (lo - 1) * g + g
    {
      OnlyGroup(ps, g, m, lo, key, i);
    }
  }

  /** Search the restart points, then scan one restart group. */
  method Find(page: Bytes, key: Bytes, g: nat, ghost ps: seq<Pair>, ghost chunks: seq<Bytes>, ghost sum: Bytes -> nat)
    returns (value: Bytes)
    requires IsBlock(page, ps, chunks, g, sum) && AllClean(ps, g) && Sorted(ps)
    ensures value == Lookup(ps, key)
  {
    hide Starts, Concat, KeyAt, RestartOffset, Less, Trailer, At, Sorted, AllClean, Lookup;
    ghost var starts := |Starts(chunks, g)|;
    BlockReads(page, ps, chunks, g, sum, starts, starts);
    var m, count := Word(page, |page| - 10), Word(page, |page| - 8);
    var lo := UpperBound(page, m, key);
    ghost var at := InGroup(page, ps, chunks, g, sum, m, lo, key);
    if lo == 0 {
      LookupMiss(ps, key);
      return [];
    }
    OpensIsMultiple(at, g);
    value := ScanGroup(page, RestartOffset(page, m, lo - 1), (lo - 1) * g, count, g, key, ps, chunks);
  }

  /** Scan the restart group that begins at entry `start`. */
  method ScanGroup(page: Bytes, base: nat, start: nat, count: nat, g: nat, key: Bytes, ghost ps: seq<Pair>, ghost chunks: seq<Bytes>)
    returns (value: Bytes)
    requires g > 0 && Readable(page, ps, chunks, g) && AllClean(ps, g) && Sorted(ps)
    requires Opens(start, g) && count == |ps| && start <= count && base == Offset(chunks, start)
    requires forall i :: 0 <= i < |ps| && ps[i].key == key ==> start <= i < start + g
    ensures value == Lookup(ps, key)
  {
    hide Readable, AllClean, Sorted, Concat, Lookup, Opens;
    var it := new Iterator(page, base, start, count, g, ps, chunks);
    while !it.AtGroupEnd()
      invariant it.Valid() && start < it.kvIdx && it.ps == ps && it.start == start && it.group == g && it.count == count
      invariant forall i :: start <= i < it.kvIdx - 1 && i < count ==> ps[i].key != key
      decreases count + 1 - it.kvIdx
    {
      if it.key == key {
        LookupHit(ps, it.kvIdx - 1);
        return it.value;
      }
      it.ReadNext();
    }
    LookupMiss(ps, key);
    return [];
  }

  /** Compare the stored checksum, the low 32 bits of the hash, with the page. */
  predicate SanityCheck(page: Bytes, sum: Bytes -> nat)
    requires 4 <= |page|
  {
    FromLittleEndian(page[|page| - 4..]) == sum(page[..|page| - 4]) % 0x1_0000_0000
  }

  /** A page passes exactly when it ends in the checksum that a commit would write. */
  lemma {:induction false} SaneIff(page: Bytes, sum: Bytes -> nat)
    requires 4 <= |page|
    ensures SanityCheck(page, sum) <==> At(page, |page| - 4, LittleEndian(sum(page[..|page| - 4]), 4))
  {
    hide LittleEndian, FromLittleEndian;
    FourBytes(page[|page| - 4..], sum(page[..|page| - 4]));
  }

  /** Damage to a committed page that leaves the stored checksum passes unnoticed exactly when the low 32 bits of the sums agree. */
  lemma {:induction false} DamageNoticed(page: Bytes, damaged: Bytes, sum: Bytes -> nat)
    requires 4 <= |page| == |damaged| && SanityCheck(page, sum) && damaged[|page| - 4..] == page[|page| - 4..]
    ensures SanityCheck(damaged, sum) <==>
            sum(damaged[..|page| - 4]) % 0x1_0000_0000 == sum(page[..|page| - 4]) % 0x1_0000_0000
  {
  }

  lemma {:induction false} BlockIsSane(page: Bytes, ps: seq<Pair>, chunks: seq<Bytes>, g: nat, sum: Bytes -> nat)
    requires IsBlock(page, ps, chunks, g, sum)
    ensures 4 <= |page| && SanityCheck(page, sum)
  {
    hide LittleEndian, FromLittleEndian, Trailer, Starts, Concat, Chunked;
    var c := sum(page[..|page| - 4]);
    assert page[|page| - 4..] == LittleEndian(c, 4);
    LittleEndianReads(c, 4);
    assert Pow(256, 4) == 256 * (256 * (256 * (256 * Pow(256, 0))));
  }
}
