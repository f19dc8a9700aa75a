/** The quotient filter: a class over packed slots. */
module QuotientFilter {
  import opened Arith
  import opened PackedSlots
  import opened QuotientFilterOrder

  const UINT32 := 0x1_0000_0000

  /** A quotient and a remainder: what the filter remembers of a hash. */
  type Fingerprint = (nat, nat)

  /** `i & index_mask` for an index that passed the end of the table at most once. */
  function Wrap(i: nat, n: nat): (r: nat)
    requires i < 2 * n
    ensures r < n
  {
    if i < n then i else i - n
  }

  function Incr(i: nat, n: nat): nat
    requires i < n
  {
    Wrap(i + 1, n)
  }

  function Decr(i: nat, n: nat): nat
    requires i < n
  {
    Wrap(i + n - 1, n)
  }

  /**
   * Two hashes have the same fingerprint exactly when they agree on their lowest `q + r` bits:
   * everything else about a hash is forgotten.
   */
  lemma {:induction false} FingerprintIsLowBits(h: nat, h2: nat, q: nat, r: nat)
    ensures (h / Pow2(r) % Pow2(q) == h2 / Pow2(r) % Pow2(q) && h % Pow2(r) == h2 % Pow2(r))
       <==> h % Pow2(r + q) == h2 % Pow2(r + q)
  {
    var a, b := Pow2(r), Pow2(q);
    Pow2Adds(r, q);
    ModSplits(h, a, b);
    ModSplits(h2, a, b);
    if h % (a * b) == h2 % (a * b) {
      var x, y := h / a % b, h2 / a % b;
      DivModUnique(h % (a * b), a, x, h % a);
      DivModUnique(h % (a * b), a, y, h2 % a);
    }
  }

  /** What is stored of a hash. */
  function Print(h: nat, q: nat, r: nat): Fingerprint {
    (h / Pow2(r) % Pow2(q), h % Pow2(r))
  }

  /** The lowest `n` bits of a hash. */
  function Low(h: nat, n: nat): nat {
    h % Pow2(n)
  }

  lemma {:induction false} PrintIsLow(h: nat, h2: nat, q: nat, r: nat)
    ensures Print(h, q, r) == Print(h2, q, r) <==> Low(h, q + r) == Low(h2, q + r)
  {
    FingerprintIsLowBits(h, h2, q, r);
    assert q + r == r + q;
  }

  /** The fingerprints `P` are those of the hashes `H`. */
  ghost predicate PrintsOf(P: set<Fingerprint>, H: set<nat>, q: nat, r: nat) {
    && (forall h :: h in H ==> Print(h, q, r) in P)
    && (forall f :: f in P ==> exists h :: h in H && f == Print(h, q, r))
  }

  lemma {:induction false} PrintsMore(P: set<Fingerprint>, H: set<nat>, q: nat, r: nat, h: nat)
    requires PrintsOf(P, H, q, r)
    ensures PrintsOf(P + {Print(h, q, r)}, H + {h}, q, r)
  {
    hide Print;
    forall f | f in P + {Print(h, q, r)}
      ensures exists x :: x in H + {h} && f == Print(x, q, r)
    {
      if f in P {
        var x :| x in H && f == Print(x, q, r);
        assert x in H + {h};
      } else {
        assert h in H + {h};
      }
    }
  }

  /** The low parts of some hashes. */
  ghost function Lows(H: set<nat>, n: nat): set<nat> {
    set h | h in H :: Low(h, n)
  }

  /** As many fingerprints as low parts. */
  lemma {:induction false} PrintsCount(P: set<Fingerprint>, H: set<nat>, q: nat, r: nat)
    requires PrintsOf(P, H, q, r)
    ensures |P| == |Lows(H, q + r)|
  {
    if P == {} {
      assert Lows(H, q + r) == {};
    } else {
      var f :| f in P;
      var g := set h | h in H && Print(h, q, r) == f;
      var x :| x in H && f == Print(x, q, r);
      WithoutPrint(P, H, q, r, f, g);
      PrintsCount(P - {f}, H - g, q, r);
      LowsWithout(H, q, r, x, g);
    }
  }

  lemma {:induction false} WithoutPrint(P: set<Fingerprint>, H: set<nat>, q: nat, r: nat, f: Fingerprint, g: set<nat>)
    requires PrintsOf(P, H, q, r) && g == set h | h in H && Print(h, q, r) == f
    ensures PrintsOf(P - {f}, H - g, q, r)
  {
    hide Print;
    forall x | x in P - {f}
      ensures exists h :: h in H - g && x == Print(h, q, r)
    {
      var h :| h in H && x == Print(h, q, r);
      assert h in H - g;
    }
  }

  /** The hashes with one fingerprint have one low part. */
  lemma {:induction false} LowsWithout(H: set<nat>, q: nat, r: nat, x: nat, g: set<nat>)
    requires x in H && g == set h | h in H && Print(h, q, r) == Print(x, q, r)
    ensures |Lows(H, q + r)| == |Lows(H - g, q + r)| + 1
  {
    hide Print, Low;
    var n := q + r;
    forall h | h in H
      ensures h in g <==> Low(h, n) == Low(x, n)
    {
      PrintIsLow(h, x, q, r);
    }
    var rest, low := Lows(H - g, n), Low(x, n);
    assert low !in rest;
    forall y
      ensures y in Lows(H, n) <==> y in rest + {low}
    {
      if y in Lows(H, n) {
        var h :| h in H && y == Low(h, n);
        assert h in g || h in H - g;
      }
    }
    assert Lows(H, n) == rest + {low};
  }

  /** The wrapped counter reports a table full if and only if it is full and has fewer than 2^32 slots. */
  lemma {:induction false} CounterTells(n: nat, q: nat)
    requires n <= Pow2(q)
    ensures n % UINT32 >= Pow2(q) <==> n == Pow2(q) && q < 32
  {
    CounterWidth(q);
  }

  /** The counter tells a full table from any other, for every number of entries, if and only if the table has fewer than 2^32 slots. */
  lemma {:induction false} CounterTellsIff(q: nat)
    ensures (forall n: nat :: n <= Pow2(q) ==> (n % UINT32 >= Pow2(q) <==> n == Pow2(q))) <==> q < 32
  {
    forall n: nat | n <= Pow2(q)
      ensures n % UINT32 >= Pow2(q) <==> n == Pow2(q) && q < 32
    {
      CounterTells(n, q);
    }
    var full := Pow2(q);
    assert full <= Pow2(q) && (full % UINT32 >= Pow2(q) <==> q < 32);
  }

  lemma {:induction false} CounterSteps(n: nat)
    ensures (n % UINT32 + 1) % UINT32 == (n + 1) % UINT32
  {
  }

  lemma {:induction false} CounterWidth(q: nat)
    ensures q < 32 ==> Pow2(q) < UINT32
    ensures q >= 32 ==> Pow2(q) >= UINT32
  {
    assert Pow2(8) == 256;
    Pow2Adds(8, 8);
    Pow2Adds(16, 16);
    assert Pow2(31) * 2 == Pow2(32) == UINT32;
    if q < 32 {
      Pow2Grows(q, 31);
    } else {
      Pow2Grows(32, q);
    }
  }

  /** Read from `z` on, the slots are the line `L`. */
  ghost predicate ReadFrom(slots: seq<Slot>, z: nat, L: seq<Slot>) {
    && |slots| == |L| && z < |L|
    && forall p :: 0 <= p < |L| ==> slots[Wrap(z + p, |L|)] == L[p]
  }

  /** `P` is the set of fingerprints stored in the line that starts at slot `z`. */
  ghost predicate Matches(P: set<Fingerprint>, z: nat, L: seq<Slot>, D: seq<nat>) {
    && |L| == |D| && z < |L|
    && (forall x, r: nat :: 0 <= x < |L| ==> ((Wrap(z + x, |L|), r) in P <==> Holds(L, D, x, r)))
    && (forall f :: f in P ==> f.0 < |L|)
  }

  lemma {:induction false} TurnKeepsRead(slots: seq<Slot>, z: nat, L: seq<Slot>, D: seq<nat>, e: nat, L2: seq<Slot>, D2: seq<nat>)
    requires ReadFrom(slots, z, L) && Turned(L, D, e, L2, D2)
    ensures ReadFrom(slots, Wrap(z + e + 1, |L|), L2)
  {
    var n, z2 := |L|, Wrap(z + e + 1, |L|);
    forall j | 0 <= j < n
      ensures slots[Wrap(z2 + j, n)] == L2[j]
    {
      var i := TurnFrom(n, e, j);
      assert L2[TurnTo(n, e, i)] == L[i] && Wrap(z + i, n) == Wrap(z2 + j, n);
    }
  }

  lemma {:induction false} TurnKeepsMatch(P: set<Fingerprint>, z: nat, L: seq<Slot>, D: seq<nat>, e: nat, L2: seq<Slot>, D2: seq<nat>)
    requires Matches(P, z, L, D) && Turned(L, D, e, L2, D2)
    requires forall y, s :: 0 <= y < |L| ==> (Holds(L, D, y, s) <==> Holds(L2, D2, TurnTo(|L|, e, y), s))
    ensures Matches(P, Wrap(z + e + 1, |L|), L2, D2)
  {
    var n, z2 := |L|, Wrap(z + e + 1, |L|);
    forall x, r: nat | 0 <= x < n
      ensures (Wrap(z2 + x, n), r) in P <==> Holds(L2, D2, x, r)
    {
      var y := TurnFrom(n, e, x);
      assert Wrap(z + y, n) == Wrap(z2 + x, n) && TurnTo(n, e, y) == x;
      assert (Wrap(z + y, n), r) in P <==> Holds(L, D, y, r);
    }
  }

  /** The table read from behind its empty slot `i`. */
  lemma {:induction false} ReadBehind(slots: seq<Slot>, z: nat, L: seq<Slot>, D: seq<nat>, P: set<Fingerprint>, bound: nat, e: nat)
    returns (z2: nat, L2: seq<Slot>, D2: seq<nat>)
    requires Ordered(L, D) && ReadFrom(slots, z, L) && Matches(P, z, L, D) && e < |L| && IsEmpty(L[e])
    requires forall p :: 0 <= p < |L| ==> L[p].rem < bound
    ensures Ordered(L2, D2) && ReadFrom(slots, z2, L2) && Matches(P, z2, L2, D2) && IsEmpty(L2[|L2| - 1])
    ensures forall p :: 0 <= p < |L2| ==> L2[p].rem < bound
  {
    L2, D2 := Turn(L, D, e);
    z2 := Wrap(z + e + 1, |L|);
    TurnKeepsOrder(L, D, e, L2, D2);
    TurnKeepsRead(slots, z, L, D, e, L2, D2);
    TurnKeepsMatch(P, z, L, D, e, L2, D2);
    assert L2[TurnTo(|L|, e, e)] == L[e];
    forall p | 0 <= p < |L2|
      ensures L2[p].rem < bound
    {
      var i := TurnFrom(|L|, e, p);
      assert L2[TurnTo(|L|, e, i)] == L[i];
    }
  }

  lemma {:induction false} InsertKeepsMatch(P: set<Fingerprint>, z: nat, L: seq<Slot>, D: seq<nat>, x: nat, r: nat, L2: seq<Slot>, D2: seq<nat>)
    requires Matches(P, z, L, D) && |L2| == |D2| == |L| && x < |L|
    requires Adds(L, D, x, r, L2, D2)
    ensures Matches(P + {(Wrap(z + x, |L|), r)}, z, L2, D2)
    ensures (Wrap(z + x, |L|), r) in P <==> Holds(L, D, x, r)
  {
  }

  /** The line filled position `e` and no other; so did the table. */
  ghost predicate Fills(slots: seq<Slot>, slots2: seq<Slot>, i: nat) {
    && |slots| == |slots2| && i < |slots| && IsEmpty(slots[i])
    && forall j :: 0 <= j < |slots| ==> (IsEmpty(slots2[j]) <==> IsEmpty(slots[j]) && j != i)
  }

  /** `u` are the slots in use. */
  ghost predicate InUse(u: set<nat>, slots: seq<Slot>) {
    forall i: nat :: i in u <==> i < |slots| && !IsEmpty(slots[i])
  }

  lemma {:induction false} UseFilled(u: set<nat>, slots: seq<Slot>, slots2: seq<Slot>, i: nat)
    requires InUse(u, slots) && Fills(slots, slots2, i)
    ensures InUse(u + {i}, slots2) && |u + {i}| == |u| + 1
  {
  }

  /** The insertion seen from the line as it was before the occupied bit was set. */
  lemma {:induction false} InsertedFrom(line: seq<Slot>, L: seq<Slot>, D: seq<nat>, x: nat, r: nat, p: nat, e: nat, L2: seq<Slot>, D2: seq<nat>)
    requires Chain(L, D) && RunsBut(L, D, x) && InsertPoint(L, D, x, r, p, e) && L[x].occupied
    requires Inserted(L, D, x, r, p, e, L2, D2) && SameStored(line, L, D)
    ensures Ordered(L2, D2) && Adds(line, D, x, r, L2, D2) && Fills(line, L2, e) && |L2| == |D2| == |line| && e < |line|
  {
    assert |L| == |D|;
    hide Chain, RunsBut, Ordered, Holds;
    InsertKeepsOrder(L, D, x, r, p, e, L2, D2);
    forall j | 0 <= j < |L|
      ensures IsEmpty(L2[j]) <==> IsEmpty(L[j]) && j != e
    {
      InsertedFills(L, D, x, r, p, e, L2, D2, j);
    }
  }

  lemma {:induction false} LineFills(slots: seq<Slot>, slots2: seq<Slot>, z: nat, L: seq<Slot>, L2: seq<Slot>, e: nat)
    requires ReadFrom(slots, z, L) && ReadFrom(slots2, z, L2) && Fills(L, L2, e)
    ensures Fills(slots, slots2, Wrap(z + e, |L|))
  {
    var n := |L|;
    forall j | 0 <= j < n
      ensures IsEmpty(slots2[j]) <==> IsEmpty(slots[j]) && j != Wrap(z + e, n)
    {
      var p := if j >= z then j - z else j + n - z;
      assert Wrap(z + p, n) == j && slots[Wrap(z + p, n)] == L[p] && slots2[Wrap(z + p, n)] == L2[p];
    }
  }

  /** A set of fewer than `n` indices misses one of them. */
  lemma {:induction false} MissingIndex(u: set<nat>, n: nat) returns (i: nat)
    requires |u| < n
    ensures i < n && i !in u
  {
    if n - 1 !in u {
      i := n - 1;
    } else {
      assert u == u - {n - 1} + {n - 1};
      i := MissingIndex(u - {n - 1}, n - 1);
    }
  }

  /** A set of `n` indices below `n` misses none of them. */
  lemma {:induction false} FullSet(u: set<nat>, n: nat, i: nat)
    requires (forall j :: j in u ==> j < n) && |u| == n && i < n
    ensures i in u
  {
    if i !in u {
      RangeBounds(u + {i}, n);
    }
  }

  /** The loop of `insert_into` at the start of a round: the table, the cursor, the element to put there. */
  datatype Shifting = Shifting(slots: seq<Slot>, s: nat, curr: Slot)

  /** One round on a slot in use: the elements change places, and the occupied bit stays with the slot. */
  function ShiftOnce(t: Shifting): Shifting
    requires t.s < |t.slots|
  {
    var prev := t.slots[t.s];
    Shifting(t.slots[t.s := if prev.occupied then t.curr.(occupied := true) else t.curr],
             Incr(t.s, |t.slots|),
             prev.(shifted := true, occupied := false))
  }

  function ShiftRounds(t: Shifting, k: nat): (u: Shifting)
    requires t.s < |t.slots|
    ensures |u.slots| == |t.slots| && u.s < |u.slots|
  {
    if k == 0 then t else ShiftOnce(ShiftRounds(t, k - 1))
  }

  ghost predicate NoneFree(slots: seq<Slot>) {
    forall i :: 0 <= i < |slots| ==> !IsEmpty(slots[i])
  }

  /** Without a free slot no round is the last one: the loop ends when it meets a free slot, and never does. */
  lemma {:induction false} ShiftNeverEnds(t: Shifting, k: nat)
    requires t.s < |t.slots| && NoneFree(t.slots) && (!IsEmpty(t.curr) || t.slots[t.s].occupied)
    ensures NoneFree(ShiftRounds(t, k).slots) && !IsEmpty(ShiftRounds(t, k).slots[ShiftRounds(t, k).s])
    ensures !IsEmpty(ShiftRounds(t, k).curr) || ShiftRounds(t, k).slots[ShiftRounds(t, k).s].occupied
  {
    if k > 0 {
      ShiftNeverEnds(t, k - 1);
    }
  }

  /**
   * What becomes of an insertion.  `Endless` is the case in which the source does not return: the counter
   * has wrapped, so the full table is not refused, and the shifting loop looks for a free slot.
   */
  datatype Outcome = Accepted | Refused | Endless

  /** Its loops walk to a run, scan it, and shift a cluster to make room. */
  class Filter {
    const qbits: nat
    const rbits: nat
    const table: SlotTable
    var entries: nat

    // The table read from an unshifted slot `anchor` on, and what is stored in it.
    ghost var anchor: nat
    ghost var line: seq<Slot>
    ghost var disp: seq<nat>
    ghost var used: set<nat>
    ghost var prints: set<Fingerprint>
    ghost var hashes: set<nat> // the hashes inserted

    ghost predicate Shape()
      reads table, table.words
    {
      && table.Valid() && table.rbits == rbits && 0 < qbits && table.size == Pow2(qbits)
    }

    /** Read from `z` on, the table is `L`. */
    ghost predicate Seen(z: nat, L: seq<Slot>)
      requires Shape()
      reads table, table.words
    {
      && ReadFrom(table.slots, z, L)
      && forall p :: 0 <= p < |L| ==> L[p].rem < Pow2(rbits)
    }

    /** The ghost fields say truthfully what is stored. */
    ghost predicate Told()
      reads this`anchor, this`line, this`disp, this`used, this`prints, table, table.words
    {
      && Shape() && Seen(anchor, line) && Ordered(line, disp)
      && Matches(prints, anchor, line, disp)
      && InUse(used, table.slots)
      && |used| == |prints|
    }

    /** And the counter counts it. */
    ghost predicate Counts()
      reads this`entries, this`anchor, this`line, this`disp, this`used, this`prints, table, table.words
    {
      Told() && entries == |prints| % UINT32
    }

    ghost predicate Valid()
      reads this, table, table.words
    {
      Counts() && PrintsOf(prints, hashes, qbits, rbits)
    }

    /** `qf_init` on parameters it accepts: every slot is empty. */
    constructor (q: nat, r: nat)
      requires 0 < q && 0 < r && q + r <= WORD_BITS && r + 3 < WORD_BITS
      ensures Valid() && fresh(table) && fresh(table.words)
      ensures qbits == q && rbits == r && entries == 0 && prints == {} && hashes == {}
    {
      qbits, rbits, entries := q, r, 0;
      table := new SlotTable(r, Pow2(q));
      anchor, used, prints, hashes := 0, {}, {}, {};
      line := seq(Pow2(q), i => NOTHING);
      disp := seq(Pow2(q), i => 0);
      new;
      forall p | 0 <= p < |line|
        ensures Placed(line, disp, p)
      {
      }
    }

    function Quotient(hash: nat): nat {
      hash / Pow2(rbits) % Pow2(qbits)
    }

    function Remainder(hash: nat): nat {
      hash % Pow2(rbits)
    }

    /** A hash and one that was inserted agree on their low bits. */
    ghost predicate Known(hash: nat)
      reads this`hashes
    {
      exists h :: h in hashes && Low(h, qbits + rbits) == Low(hash, qbits + rbits)
    }

    /** The fingerprint of a hash is stored exactly when a hash with the same low bits was inserted. */
    lemma {:induction false} StoredIffKnown(hash: nat)
      requires PrintsOf(prints, hashes, qbits, rbits)
      ensures (Quotient(hash), Remainder(hash)) in prints <==> Known(hash)
    {
      var f := (Quotient(hash), Remainder(hash));
      if f in prints {
        var h :| h in hashes && f == Print(h, qbits, rbits);
        PrintIsLow(h, hash, qbits, rbits);
      }
      if Known(hash) {
        var h :| h in hashes && Low(h, qbits + rbits) == Low(hash, qbits + rbits);
        PrintIsLow(h, hash, qbits, rbits);
      }
    }

    method Look(s: nat, ghost z: nat, ghost L: seq<Slot>, ghost k: nat) returns (elt: Slot)
      requires Shape() && Seen(z, L) && k < |L| && s == Wrap(z + k, |L|)
      ensures elt == L[k] && elt.rem < Pow2(rbits) && |L| == table.size
    {
      elt := table.Get(s);
    }

    /** `table.Set`, seen from the anchor. */
    method Put(s: nat, v: Slot, ghost z: nat, ghost L: seq<Slot>, ghost k: nat)
      requires Shape() && Seen(z, L) && k < |L| && s == Wrap(z + k, |L|) && v.rem < Pow2(rbits)
      modifies table.words, table`slots
      ensures Shape() && Seen(z, L[k := v])
    {
      table.Set(s, v);
    }

    /** Walk back from `fq` to the start of its cluster. */
    method FindClusterStart(fq: nat, ghost z: nat, ghost L: seq<Slot>, ghost D: seq<nat>, ghost x: nat)
      returns (b: nat, ghost pb: nat)
      requires Shape() && Seen(z, L) && Chain(L, D) && x < |L| && fq == Wrap(z + x, |L|)
      ensures pb <= x && b == Wrap(z + pb, |L|) && StartsAt(L, D, pb, pb) && (pb < x ==> L[pb].occupied)
      ensures forall j :: pb < j <= x ==> !IsEmpty(L[j])
    {
      b, pb := fq, x;
      var elt := table.Get(b);
      while elt.shifted
        invariant pb <= x && b == Wrap(z + pb, |L|) && elt == L[pb] && (pb < x ==> !IsEmpty(L[pb]))
        invariant forall j :: pb < j <= x ==> !IsEmpty(L[j])
        decreases pb
      {
        assert Placed(L, D, pb);
        b := Decr(b, table.size);
        pb := pb - 1;
        elt := table.Get(b);
      }
      assert Placed(L, D, pb);
    }

    /** Move from the first slot of a run to the slot after its last. */
    method SkipRun(s0: nat, ghost z: nat, ghost L: seq<Slot>, ghost D: seq<nat>, ghost q: nat, ghost p0: nat, ghost t: nat)
      returns (s: nat, ghost p: nat)
      requires Shape() && Seen(z, L) && Chain(L, D) && HoldsAt(L, D, q, p0) && s0 == Wrap(z + p0, |L|)
      requires p0 < t < |L| && !L[t].continuation
      ensures p0 < p <= t && s == Wrap(z + p, |L|) && !L[p].continuation
      ensures forall j :: p0 <= j < p ==> HoldsAt(L, D, q, j)
    {
      s, p := Incr(s0, table.size), p0 + 1;
      var elt := table.Get(s);
      while elt.continuation
        invariant p0 < p <= t && s == Wrap(z + p, |L|) && elt == L[p]
        invariant forall j :: p0 <= j < p ==> HoldsAt(L, D, q, j)
        decreases t - p
      {
        assert Placed(L, D, p) && HoldsAt(L, D, q, p - 1);
        s := Incr(s, table.size);
        p := p + 1;
        elt := table.Get(s);
      }
    }

    /** Move to the next quotient that has a run. */
    method NextOccupied(b0: nat, ghost z: nat, ghost L: seq<Slot>, ghost p0: nat, ghost x: nat)
      returns (b: nat, ghost p: nat)
      requires Shape() && Seen(z, L) && p0 < x < |L| && L[x].occupied && b0 == Wrap(z + p0, |L|)
      ensures p0 < p <= x && b == Wrap(z + p, |L|) && L[p].occupied
      ensures forall j :: p0 < j < p ==> !L[j].occupied
    {
      b, p := Incr(b0, table.size), p0 + 1;
      var elt := table.Get(b);
      while !elt.occupied
        invariant p0 < p <= x && b == Wrap(z + p, |L|) && elt == L[p]
        invariant forall j :: p0 < j < p ==> !L[j].occupied
        decreases x - p
      {
        b := Incr(b, table.size);
        p := p + 1;
        elt := table.Get(b);
      }
    }

    /** Find the start index of the run for `fq`. */
    method FindRunIndex(fq: nat, ghost z: nat, ghost L: seq<Slot>, ghost D: seq<nat>, ghost x: nat, ghost t: nat)
      returns (s: nat)
      requires Shape() && Seen(z, L) && Chain(L, D) && RunsBut(L, D, x)
      requires x < |L| && fq == Wrap(z + x, |L|) && L[x].occupied
      requires t < |L| && StartsAt(L, D, x, t)
      ensures s == Wrap(z + t, |L|)
    {
      var b: nat;
      ghost var pb: nat, ps: nat;
      b, pb := FindClusterStart(fq, z, L, D, x);
      s := b;
      ps := pb;
      while b != fq
        invariant pb <= x && b == Wrap(z + pb, |L|) && ps < |L| && s == Wrap(z + ps, |L|)
        invariant StartsAt(L, D, pb, ps) && L[pb].occupied
        invariant forall j :: pb < j <= x ==> !IsEmpty(L[j])
        decreases x - pb
      {
        RunBefore(L, D, pb, ps, x, t);
        ghost var p0, b0 := ps, pb;
        s, ps := SkipRun(s, z, L, D, pb, ps, t);
        b, pb := NextOccupied(b, z, L, pb, x);
        NextRun(L, D, x, b0, p0, pb, ps);
      }
      StartsAscend(L, D, x, ps, x, t);
      StartsAscend(L, D, x, t, x, ps);
    }

    /** Insert `elt` into slot `s0`, shifting over elements as necessary. */
    method InsertInto(s0: nat, elt: Slot, ghost z: nat, ghost L: seq<Slot>, ghost p: nat, ghost e: nat)
      returns (ghost L2: seq<Slot>)
      requires Shape() && Seen(z, L) && p <= e < |L| && s0 == Wrap(z + p, |L|)
      requires IsEmpty(L[e]) && forall j :: p <= j < e ==> !IsEmpty(L[j])
      requires !elt.occupied && elt.rem < Pow2(rbits)
      modifies table.words, table`slots
      ensures Shape() && Seen(z, L2)
      ensures forall j :: 0 <= j < |L| && (j < p || e < j) ==> L2[j] == L[j]
      ensures L2[p] == elt.(occupied := L[p].occupied)
      ensures forall j :: p < j <= e ==> L2[j] == L[j - 1].(shifted := true, occupied := L[j].occupied)
    {
      assert z < |L|;
      hide Pow2, Shape, Seen;
      var s, curr := s0, elt;
      L2 := L;
      ghost var k := p;
      var empty := false;
      while !empty
        invariant p <= k <= e + 1 && (k <= e ==> s == Wrap(z + k, |L|)) && (empty <==> k == e + 1)
        invariant Shape() && |L2| == |L| && Seen(z, L2)
        invariant forall j :: 0 <= j < |L| && (j < p || k <= j) ==> L2[j] == L[j]
        invariant p < k ==> L2[p] == elt.(occupied := L[p].occupied)
        invariant forall j :: p < j < k ==> L2[j] == L[j - 1].(shifted := true, occupied := L[j].occupied)
        invariant curr.rem < Pow2(rbits)
        invariant k <= e ==> curr == if k == p then elt else L[k - 1].(shifted := true, occupied := false)
        decreases e + 1 - k
      {
        var prev := Look(s, z, L2, k);
        assert prev == L[k];
        empty := IsEmpty(prev);
        if !empty {
          // Fix up the shifted and occupied bits.
          prev := prev.(shifted := true);
          if prev.occupied {
            curr := curr.(occupied := true);
            prev := prev.(occupied := false);
          }
        }
        Put(s, curr, z, L2, k);
        L2 := L2[k := curr];
        curr := prev;
        s := Incr(s, table.size);
        k := k + 1;
      }
    }

    /** Where `fq` lies when the table is read from `z` on. */
    ghost function FromAnchor(z: nat, fq: nat): (x: nat)
      requires Shape() && z < table.size && fq < table.size
      reads table, table.words
      ensures x < table.size && Wrap(z + x, table.size) == fq
    {
      if fq >= z then fq - z else fq + table.size - z
    }

    /** Scan the sorted run that starts at slot `s0` for the remainder `fr`. */
    method ScanRun(s0: nat, fr: nat, ghost z: nat, ghost L: seq<Slot>, ghost D: seq<nat>, ghost x: nat, ghost t: nat)
      returns (found: bool)
      requires Shape() && Seen(z, L) && Chain(L, D) && t < |L| && s0 == Wrap(z + t, |L|)
      requires StartsAt(L, D, x, t) && HoldsAt(L, D, x, t)
      ensures found <==> Holds(L, D, x, fr)
    {
      var s := s0;
      ghost var p: nat := t;
      while true
        invariant t <= p < |L| && s == Wrap(z + p, |L|) && HoldsAt(L, D, x, p)
        invariant forall j :: x <= j < p && HoldsAt(L, D, x, j) ==> L[j].rem < fr
        decreases |L| - p
      {
        var elt := table.Get(s);
        if elt.rem == fr {
          return true;
        } else if elt.rem > fr {
          ScanProvesAbsent(L, D, x, fr, p);
          return false;
        }
        s := Incr(s, table.size);
        p := p + 1;
        elt := table.Get(s);
        assert Placed(L, D, if p < |L| then p else 0);
        if !elt.continuation {
          if p < |L| {
            AfterRun(L, D, x, p);
          }
          ScanProvesAbsent(L, D, x, fr, p);
          return false;
        }
      }
    }

    /** Whether some hash with these low bits was inserted. */
    method MayContain(hash: nat) returns (b: bool)
      requires Valid()
      ensures b <==> (Quotient(hash), Remainder(hash)) in prints
      ensures b <==> exists h :: h in hashes && Low(h, qbits + rbits) == Low(hash, qbits + rbits)
    {
      hide Told, PrintsOf, Low;
      StoredIffKnown(hash);
      PrintFits(hash);
      b := Contains(Quotient(hash), Remainder(hash));
    }

    lemma {:induction false} PrintFits(hash: nat)
      requires Told()
      ensures Quotient(hash) < table.size == Pow2(qbits) && Remainder(hash) < Pow2(rbits)
    {
      hide Pow2, Seen, Ordered, Matches, InUse;
    }

    method Contains(fq: nat, fr: nat) returns (b: bool)
      requires Told() && fq < table.size
      ensures b <==> (fq, fr) in prints
    {
      ghost var L, D, x := line, disp, FromAnchor(anchor, fq);
      assert (fq, fr) in prints <==> Holds(L, D, x, fr);
      var elt := table.Get(fq);

      // Without a run there is nothing to scan.
      if !elt.occupied {
        UnoccupiedAbsent(L, D, x);
        return false;
      }
      ghost var t := OccupiedStart(L, D, x);
      var s := FindRunIndex(fq, anchor, L, D, x, t);
      b := ScanRun(s, fr, anchor, L, D, x, t);
    }

    /** While a slot is free, the table can be read so that its last slot is free. */
    ghost method Reanchor()
      requires Told() && |prints| < table.size
      modifies this`anchor, this`line, this`disp
      ensures Told() && IsEmpty(line[|line| - 1])
    {
      var i := MissingIndex(used, table.size);
      var e := FromAnchor(anchor, i);
      anchor, line, disp := ReadBehind(table.slots, anchor, line, disp, prints, Pow2(rbits), e);
    }

    /** Take note that the fingerprint of quotient `x` and remainder `r` filled slot `e`. */
    ghost method Record(f: Fingerprint, L2: seq<Slot>, D2: seq<nat>, x: nat, r: nat, e: nat, slots0: seq<Slot>)
      requires Shape() && Seen(anchor, L2) && Ordered(L2, D2) && |L2| == |D2| == |line| && x < |L2| && e < |L2|
      requires f == (Wrap(anchor + x, |L2|), r)
      requires |used| == |prints| && Matches(prints, anchor, line, disp) && InUse(used, slots0)
      requires Fills(slots0, table.slots, Wrap(anchor + e, |L2|))
      requires Adds(line, disp, x, r, L2, D2) && !Holds(line, disp, x, r)
      modifies this`line, this`disp, this`used, this`prints
      ensures Told() && prints == old(prints) + {f} && |prints| == |old(prints)| + 1
    {
      assert anchor < |line|;
      hide Holds, Adds, Matches, Fills, InUse, Seen, Shape, Ordered, Pow2;
      InsertKeepsMatch(prints, anchor, line, disp, x, r, L2, D2);
      UseFilled(used, slots0, table.slots, Wrap(anchor + e, |L2|));
      prints := prints + {f};
      used := used + {Wrap(anchor + e, |L2|)};
      line, disp := L2, D2;
    }

    /** Move the cursor to the insert position of `fr` in the run that starts at slot `s0`. */
    method FindPlace(s0: nat, fr: nat, ghost z: nat, ghost L: seq<Slot>, ghost D: seq<nat>, ghost x: nat, ghost t: nat)
      returns (present: bool, s: nat, ghost p: nat)
      requires Shape() && Seen(z, L) && Chain(L, D) && t < |L| && s0 == Wrap(z + t, |L|)
      requires IsEmpty(L[|L| - 1]) && HoldsAt(L, D, x, t)
      ensures t <= p < |L| && s == Wrap(z + p, |L|)
      ensures present ==> Holds(L, D, x, fr)
      ensures !present ==> forall j :: t <= j < p ==> HoldsAt(L, D, x, j) && L[j].rem < fr
      ensures !present && !IsEmpty(L[p]) ==> p - D[p] >= x && (p - D[p] == x ==> L[p].rem > fr)
    {
      assert z < |L|;
      hide Pow2, Shape, Seen;
      present, s, p := false, s0, t;
      while true
        invariant t <= p < |L| && s == Wrap(z + p, |L|) && HoldsAt(L, D, x, p) && !present
        invariant forall j :: t <= j < p ==> HoldsAt(L, D, x, j) && L[j].rem < fr
        decreases |L| - p
      {
        var elt := Look(s, z, L, p);
        if elt.rem == fr {
          present := true;
          return;
        } else if elt.rem > fr {
          return;
        }
        s := Incr(s, table.size);
        p := p + 1;
        elt := Look(s, z, L, p);
        if !elt.continuation {
          AfterRun(L, D, x, p);
          return;
        }
        assert Placed(L, D, p);
      }
    }

    /** Put `fr` at slot `s`, next to or before the run of `x`, and make room for it. */
    method InsertAt(s: nat, fq: nat, fr: nat, joins: bool, heads: bool,
                    ghost z: nat, ghost L: seq<Slot>, ghost D: seq<nat>, ghost x: nat, ghost p: nat, ghost e: nat)
      returns (ghost L2: seq<Slot>, ghost D2: seq<nat>)
      requires Shape() && Seen(z, L) && |L| == |D| && InsertPoint(L, D, x, fr, p, e) && fr < Pow2(rbits)
      requires s == Wrap(z + p, |L|) && fq == Wrap(z + x, |L|)
      requires joins == Joins(D, x, p) && heads == Heads(D, x, p, e)
      modifies table.words, table`slots
      ensures Shape() && Seen(z, L2) && Inserted(L, D, x, fr, p, e, L2, D2)
    {
      ghost var L1 := L;
      if heads {
        // The new element takes over as head of the run.
        var oldHead := table.Get(s);
        Put(s, oldHead.(continuation := true), z, L, p);
        L1 := L[p := L[p].(continuation := true)];
      }
      // A later element of a run is a continuation, an element outside its canonical slot is shifted.
      var entry := Slot(false, joins, s != fq, fr);
      L2 := InsertInto(s, entry, z, L1, p, e);
      D2 := InsertedDisp(D, x, p, e);
      ShiftInserts(L, D, x, fr, p, e, L1, L2, D2);
    }

    /** Mark quotient `fq` as occupied and find where its run starts, or has to start. */
    method LocateRun(fq: nat, ghost x: nat) returns (hasRun: bool, start: nat, ghost L: seq<Slot>, ghost t: nat)
      requires Told() && x < |line| && fq == Wrap(anchor + x, |line|)
      requires IsEmpty(line[|line| - 1]) && !IsEmpty(line[x])
      modifies table.words, table`slots
      ensures Shape() && Seen(anchor, L) && Chain(L, disp) && RunsBut(L, disp, x) && L[x].occupied
      ensures t < |L| && StartsAt(L, disp, x, t) && start == Wrap(anchor + t, |L|)
      ensures hasRun <==> HoldsAt(L, disp, x, t)
      ensures hasRun ==> L == line && table.slots == old(table.slots)
      ensures SameStored(line, L, disp)
    {
      var elt := table.Get(fq);
      hasRun, L := elt.occupied, line;
      if hasRun {
        t := OccupiedStart(L, disp, x);
      } else {
        L := line[x := elt.(occupied := true)];
        Put(fq, elt.(occupied := true), anchor, line, x);
        OccupyKeepsChain(line, disp, x, L);
        assert IsEmpty(L[|L| - 1]);
        t := StartExists(L, disp, x, x);
      }
      start := FindRunIndex(fq, anchor, L, disp, x, t);
    }

    /** Insert the fingerprint `(fq, fr)` when slot `fq` is already in use. */
    method InsertInCluster(fq: nat, fr: nat, ghost x: nat) returns (present: bool)
      requires Told() && x < |line| && fq == Wrap(anchor + x, |line|) && fr < Pow2(rbits)
      requires IsEmpty(line[|line| - 1]) && !IsEmpty(line[x])
      modifies this`line, this`disp, this`used, this`prints, table.words, table`slots
      ensures Told() && (present <==> (fq, fr) in old(prints))
      ensures if present then prints == old(prints) else prints == old(prints) + {(fq, fr)} && |prints| == |old(prints)| + 1
    {
      ghost var slots0, D := table.slots, disp;
      assert (fq, fr) in prints <==> Holds(line, D, x, fr);
      var hasRun, start;
      ghost var L, t;
      hasRun, start, L, t := LocateRun(fq, x);
      var s := start;
      ghost var p := t;
      if hasRun {
        present, s, p := FindPlace(s, fr, anchor, L, D, x, t);
        if present {
          assert (fq, fr) in prints;
          return;
        }
      }
      present := false;
      MakeRoom(s, start, fq, fr, hasRun, L, x, t, p, slots0);
    }

    /** Put a missing fingerprint at slot `s`, where the scan of its run stopped. */
    method MakeRoom(s: nat, start: nat, fq: nat, fr: nat, hasRun: bool,
                    ghost L: seq<Slot>, ghost x: nat, ghost t: nat, ghost p: nat, ghost slots0: seq<Slot>)
      requires Shape() && ReadFrom(slots0, anchor, line) && Seen(anchor, L) && |used| == |prints| && fr < Pow2(rbits)
      requires Matches(prints, anchor, line, disp) && |L| == |line| && IsEmpty(L[|L| - 1])
      requires Chain(L, disp) && x < |L| && RunsBut(L, disp, x) && L[x].occupied && fq == Wrap(anchor + x, |L|)
      requires SameStored(line, L, disp) && InUse(used, slots0)
      requires t <= p < |L| && StartsAt(L, disp, x, t) && start == Wrap(anchor + t, |L|) && s == Wrap(anchor + p, |L|)
      requires hasRun <==> HoldsAt(L, disp, x, t)
      requires if hasRun then forall j :: t <= j < p ==> HoldsAt(L, disp, x, j) && L[j].rem < fr else p == t
      requires !IsEmpty(L[p]) ==> p - disp[p] >= x && (p - disp[p] == x ==> L[p].rem > fr)
      modifies this`line, this`disp, this`used, this`prints, table.words, table`slots
      ensures Told() && (fq, fr) !in old(prints)
      ensures prints == old(prints) + {(fq, fr)} && |prints| == |old(prints)| + 1
    {
      hide Pow2, ReadFrom, Chain, RunsBut, InsertPoint, Inserted;
      ghost var e := FirstFree(L, p);
      PlaceFound(L, disp, x, fr, t, p, e, hasRun);
      assert (fq, fr) !in prints;
      ghost var L2, D2 := InsertAt(s, fq, fr, hasRun && s != start, hasRun && s == start, anchor, L, disp, x, p, e);
      Settle((fq, fr), L, L2, D2, x, fr, p, e, slots0);
    }

    /** After the cluster has been shifted, the table stores one more fingerprint. */
    ghost method Settle(f: Fingerprint, L: seq<Slot>, L2: seq<Slot>, D2: seq<nat>, x: nat, r: nat, p: nat, e: nat, slots0: seq<Slot>)
      requires Shape() && ReadFrom(slots0, anchor, line) && Seen(anchor, L2) && |used| == |prints|
      requires Matches(prints, anchor, line, disp) && |L| == |line| && x < |L| && f == (Wrap(anchor + x, |L|), r)
      requires Chain(L, disp) && RunsBut(L, disp, x) && InsertPoint(L, disp, x, r, p, e) && L[x].occupied
      requires Inserted(L, disp, x, r, p, e, L2, D2) && !Holds(line, disp, x, r)
      requires SameStored(line, L, disp) && InUse(used, slots0)
      modifies this`line, this`disp, this`used, this`prints
      ensures Told() && prints == old(prints) + {f} && |prints| == |old(prints)| + 1
    {
      hide Chain, RunsBut, InsertPoint, Inserted, Holds, SameStored, InUse, Matches, Ordered, ReadFrom, Adds, Fills, Told;
      InsertedFrom(line, L, disp, x, r, p, e, L2, D2);
      LineFills(slots0, table.slots, anchor, line, L2, e);
      Record(f, L2, D2, x, r, e, slots0);
    }

    /** Insert a hash. */
    method Insert(hash: nat) returns (r: Outcome)
      requires Valid()
      modifies this, table.words, table`slots
      ensures Valid()
      ensures r == Refused <==> |old(prints)| == table.size && qbits < 32
      ensures r == Endless <==> |old(prints)| == table.size && qbits >= 32 && (Quotient(hash), Remainder(hash)) !in old(prints)
      ensures prints == if r == Accepted then old(prints) + {(Quotient(hash), Remainder(hash))} else old(prints)
      ensures hashes == if r == Accepted then old(hashes) + {hash} else old(hashes)
      ensures r == Refused <==> |Lows(old(hashes), qbits + rbits)| == Pow2(qbits) && qbits < 32
      ensures r == Endless <==> |Lows(old(hashes), qbits + rbits)| == Pow2(qbits) && qbits >= 32 && !old(Known(hash))
      ensures entries == |Lows(hashes, qbits + rbits)| % UINT32
    {
      hide Told, PrintsOf, Lows, Known, Low, Pow2;
      PrintsCount(prints, hashes, qbits, rbits);
      StoredIffKnown(hash);
      PrintFits(hash);
      PrintsMore(prints, hashes, qbits, rbits, hash);
      r := InsertPrint(Quotient(hash), Remainder(hash));
      if r == Accepted {
        hashes := hashes + {hash};
        PrintsCount(prints, hashes, qbits, rbits);
      }
    }

    method InsertPrint(fq: nat, fr: nat) returns (r: Outcome)
      requires Counts() && fq < table.size && fr < Pow2(rbits)
      modifies this`entries, this`anchor, this`line, this`disp, this`used, this`prints, table.words, table`slots
      ensures Counts()
      ensures r == Refused <==> |old(prints)| == table.size && qbits < 32
      ensures r == Endless <==> |old(prints)| == table.size && qbits >= 32 && (fq, fr) !in old(prints)
      ensures prints == if r == Accepted then old(prints) + {(fq, fr)} else old(prints)
    {
      hide Ordered, Matches, InUse, Seen, Pow2;
      UsedFits();
      CounterTells(|prints|, qbits);
      CounterSteps(|prints|);
      if entries >= table.size {
        return Refused;
      }
      var free := AnyFree();
      if !free {
        // The scan of the run still finds what is present; anything else is shifted without end.
        var present := Contains(fq, fr);
        if present {
          assert prints == old(prints) + {(fq, fr)};
          return Accepted;
        }
        return Endless;
      }
      var added := Store(fq, fr);
      if added {
        entries := (entries + 1) % UINT32;
      }
      return Accepted;
    }

    /** Whether the shifting loop, which has no bound of its own, can end. */
    method AnyFree() returns (free: bool)
      requires Told()
      ensures free <==> |prints| < table.size
    {
      UsedFits();
      for i := 0 to table.size
        invariant forall j :: 0 <= j < i ==> !IsEmpty(table.slots[j])
      {
        var elt := table.Get(i);
        if IsEmpty(elt) {
          if |prints| == table.size {
            FullHasNoFree();
          }
          return true;
        }
      }
      if |prints| < table.size {
        var i := MissingIndex(used, table.size);
      }
      return false;
    }

    /** A full table has no free slot. */
    lemma {:induction false} FullHasNoFree()
      requires Told() && |prints| == table.size
      ensures NoneFree(table.slots)
    {
      forall i | 0 <= i < table.size
        ensures !IsEmpty(table.slots[i])
      {
        FullSet(used, table.size, i);
      }
    }

    /**
     * In a full table the loop of `insert_into` never ends, wherever the insertion starts: `fq` is marked as
     * occupied, the head of the run at `start` may have become a continuation, and the element is shifted unless
     * it starts in its canonical slot.
     */
    lemma {:induction false} FullInsertNeverEnds(fq: nat, start: nat, heads: bool, s: nat, joins: bool, fr: nat, k: nat)
      requires Valid() && |prints| == table.size && fq < table.size && start < table.size && s < table.size
      ensures
        var marked := table.slots[fq := table.slots[fq].(occupied := true)];
        var slots := if heads then marked[start := marked[start].(continuation := true)] else marked;
        var t := ShiftRounds(Shifting(slots, s, Slot(false, joins, s != fq, fr)), k);
        !IsEmpty(t.slots[t.s])
    {
      FullHasNoFree();
      var marked := table.slots[fq := table.slots[fq].(occupied := true)];
      var slots := if heads then marked[start := marked[start].(continuation := true)] else marked;
      ShiftNeverEnds(Shifting(slots, s, Slot(false, joins, s != fq, fr)), k);
    }

    /** Store a fingerprint in a table that has a free slot; `added` unless it was there already. */
    method Store(fq: nat, fr: nat) returns (added: bool)
      requires Told() && |prints| < table.size && fq < table.size && fr < Pow2(rbits)
      modifies this`anchor, this`line, this`disp, this`used, this`prints, table.words, table`slots
      ensures Told() && prints == old(prints) + {(fq, fr)}
      ensures |prints| == |old(prints)| + if added then 1 else 0
    {
      Reanchor();
      ghost var x := FromAnchor(anchor, fq);
      var elt := table.Get(fq);

      // A free canonical slot needs no search.
      if IsEmpty(elt) {
        InsertCanonical(fq, fr, x);
        return true;
      }
      var present := InsertInCluster(fq, fr, x);
      if present {
        assert prints == old(prints) + {(fq, fr)};
      }
      return !present;
    }

    method InsertCanonical(fq: nat, fr: nat, ghost x: nat)
      requires Told() && x < |line| && fq == Wrap(anchor + x, |line|) && IsEmpty(line[x]) && fr < Pow2(rbits)
      modifies this`line, this`disp, this`used, this`prints, table.words, table`slots
      ensures Told() && prints == old(prints) + {(fq, fr)} && |prints| == |old(prints)| + 1
    {
      ghost var slots0, v := table.slots, Slot(true, false, false, fr);
      Put(fq, Slot(true, false, false, fr), anchor, line, x);
      assert !Holds(line, disp, x, fr) by {
        assert Placed(line, disp, x);
        ScanProvesAbsent(line, disp, x, fr, x);
      }
      CanonicalKeepsOrder(line, disp, x, fr, line[x := v]);
      assert Fills(line, line[x := v], x);
      LineFills(slots0, table.slots, anchor, line, line[x := v], x);
      Record((fq, fr), line[x := v], disp, x, fr, x, slots0);
    }

    /** No more fingerprints than slots. */
    lemma {:induction false} UsedFits()
      requires Told()
      ensures |prints| <= table.size
    {
      if table.size < |prints| {
        RangeBounds(used, table.size);
      }
    }
  }

  lemma {:induction false} RangeBounds(u: set<nat>, n: nat)
    requires forall i :: i in u ==> i < n
    ensures |u| <= n
  {
    if n > 0 {
      assert |u| <= |u - {n - 1}| + 1 by {
        if n - 1 in u {
          assert u == u - {n - 1} + {n - 1};
        }
      }
      RangeBounds(u - {n - 1}, n - 1);
    }
  }
}
