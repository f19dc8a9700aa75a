/** The order kept inside the slot table of a quotient filter. */
module QuotientFilterOrder {

  /** One slot: the three metadata bits and the remainder. */
  datatype Slot = Slot(occupied: bool, continuation: bool, shifted: bool, rem: nat)

  const NOTHING := Slot(false, false, false, 0)

  predicate IsEmpty(s: Slot) {
    !s.occupied && !s.continuation && !s.shifted
  }

  /**
   * A quotient filter is circular, but some slot always holds nothing or holds an element in its own
   * canonical place.  Read from such an anchor onwards the table is a plain line `L`: no element has been
   * pushed past the anchor.  `D[p]` is how far the element at position `p` sits from its quotient, so
   * `p - D[p]` is its quotient (counted from the anchor).
   *
   * What the metadata bits of position `p` say about its neighbours.
   */
  ghost predicate Placed(L: seq<Slot>, D: seq<nat>, p: nat)
    requires |L| == |D| && p < |L|
  {
    && D[p] <= p
    && (IsEmpty(L[p]) ==> D[p] == 0)
    && (L[p].shifted <==> D[p] > 0)
    && (D[p] > 0 ==> !IsEmpty(L[p - 1]) && D[p] <= D[p - 1] + 1)
    && (L[p].continuation <==> p > 0 && D[p] == D[p - 1] + 1)
    && (L[p].continuation ==> L[p - 1].rem < L[p].rem)
    && (!IsEmpty(L[p]) ==> L[p - D[p]].occupied)
  }

  /** Every position is placed: quotients never decrease and runs are sorted. */
  ghost predicate Chain(L: seq<Slot>, D: seq<nat>) {
    && |L| == |D|
    && forall p :: 0 <= p < |L| ==> Placed(L, D, p)
  }

  /** Position `p` holds an element whose quotient is `x`. */
  ghost predicate HoldsAt(L: seq<Slot>, D: seq<nat>, x: int, p: int) {
    |L| == |D| && 0 <= p < |L| && !IsEmpty(L[p]) && p - D[p] == x
  }

  /** The fingerprint with quotient `x` and remainder `r` is stored. */
  ghost predicate Holds(L: seq<Slot>, D: seq<nat>, x: int, r: nat) {
    exists p :: HoldsAt(L, D, x, p) && L[p].rem == r
  }

  /** `L2` stores what `L` stores and the fingerprint `(x, r)`. */
  ghost predicate Adds(L: seq<Slot>, D: seq<nat>, x: int, r: nat, L2: seq<Slot>, D2: seq<nat>) {
    forall y, s :: Holds(L2, D2, y, s) <==> Holds(L, D, y, s) || (y == x && s == r)
  }

  /** `L2` stores what `L` stores, in the same slots. */
  ghost predicate SameStored(L: seq<Slot>, L2: seq<Slot>, D: seq<nat>) {
    && |L| == |L2|
    && (forall y, s :: Holds(L2, D, y, s) <==> Holds(L, D, y, s))
    && forall j :: 0 <= j < |L| ==> (IsEmpty(L2[j]) <==> IsEmpty(L[j]))
  }

  /** If the occupied bit of `x` is set then `x` has a run. */
  ghost predicate Truthful(L: seq<Slot>, D: seq<nat>, x: nat)
    requires x < |L|
  {
    L[x].occupied ==> exists p :: HoldsAt(L, D, x, p)
  }

  /** Every occupied bit, except perhaps the one at `but`, has a run. */
  ghost predicate RunsBut(L: seq<Slot>, D: seq<nat>, but: int) {
    forall x :: 0 <= x < |L| && x != but ==> Truthful(L, D, x)
  }

  ghost predicate Ordered(L: seq<Slot>, D: seq<nat>) {
    Chain(L, D) && RunsBut(L, D, -1)
  }

  /** `t` is where the run of quotient `x` starts, or would start. */
  ghost predicate StartsAt(L: seq<Slot>, D: seq<nat>, x: nat, t: nat)
    requires |L| == |D|
  {
    && x <= t <= |L|
    && (forall j :: x <= j < t ==> !IsEmpty(L[j]) && j - D[j] < x)
    && (t < |L| && !IsEmpty(L[t]) ==> t - D[t] >= x)
  }

  /** Quotients never decrease along a line of positions. */
  lemma {:induction false} QuotientsAscend(L: seq<Slot>, D: seq<nat>, i: nat, j: nat)
    requires Chain(L, D) && i <= j < |L| && !IsEmpty(L[i])
    ensures i - D[i] <= j - D[j]
    decreases j - i
  {
    if i < j {
      assert Placed(L, D, j);
      if D[j] > 0 {
        QuotientsAscend(L, D, i, j - 1);
      }
    }
  }

  /** Nothing behind an empty slot has a quotient at or before it. */
  lemma {:induction false} EmptyCuts(L: seq<Slot>, D: seq<nat>, e: nat, j: nat)
    requires Chain(L, D) && e < j < |L| && IsEmpty(L[e])
    ensures D[j] <= j - e - 1
    decreases j
  {
    assert Placed(L, D, j);
    if D[j] > 0 && j - 1 > e {
      EmptyCuts(L, D, e, j - 1);
    }
  }

  /** Every slot between an element's quotient and the element is in use. */
  lemma {:induction false} NoGap(L: seq<Slot>, D: seq<nat>, p: nat, j: nat)
    requires Chain(L, D) && p < |L| && !IsEmpty(L[p]) && p - D[p] <= j <= p
    ensures !IsEmpty(L[j])
    decreases p - j
  {
    if j < p {
      assert Placed(L, D, p);
      NoGap(L, D, p - 1, j);
    }
  }

  /** When the table has a last free slot, every quotient has a place to start. */
  lemma {:induction false} StartExists(L: seq<Slot>, D: seq<nat>, x: nat, j: nat) returns (t: nat)
    requires Chain(L, D) && x <= j < |L|
    requires exists e :: x <= e < |L| && (IsEmpty(L[e]) || e - D[e] >= x)
    requires forall i :: x <= i < j ==> !IsEmpty(L[i]) && i - D[i] < x
    ensures t < |L| && StartsAt(L, D, x, t)
    decreases |L| - j
  {
    if IsEmpty(L[j]) || j - D[j] >= x {
      t := j;
    } else {
      var e :| x <= e < |L| && (IsEmpty(L[e]) || e - D[e] >= x);
      t := StartExists(L, D, x, j + 1);
    }
  }

  /** A run that exists begins exactly where `StartsAt` says. */
  lemma {:induction false} StartHolds(L: seq<Slot>, D: seq<nat>, x: nat, t: nat, p: nat)
    requires Chain(L, D) && StartsAt(L, D, x, t) && HoldsAt(L, D, x, p)
    ensures t <= p && HoldsAt(L, D, x, t) && !L[t].continuation
  {
    assert Placed(L, D, p);
    if p >= t {
      NoGap(L, D, p, t);
      QuotientsAscend(L, D, t, p);
      assert Placed(L, D, t);
      if t > x {
        assert t - 1 - D[t - 1] < x;
      }
    }
  }

  /** Starts move forward with their quotients. */
  lemma {:induction false} StartsAscend(L: seq<Slot>, D: seq<nat>, x: nat, s: nat, y: nat, t: nat)
    requires Chain(L, D) && StartsAt(L, D, x, s) && StartsAt(L, D, y, t) && x <= y
    ensures s <= t
  {
  }

  /** An occupied quotient before `x` has its run strictly before the start of `x`. */
  lemma {:induction false} RunBefore(L: seq<Slot>, D: seq<nat>, b: nat, s: nat, x: nat, t: nat)
    requires Chain(L, D) && RunsBut(L, D, x) && b < x < |L| && L[b].occupied
    requires StartsAt(L, D, b, s) && StartsAt(L, D, x, t) && t < |L|
    ensures s < t && HoldsAt(L, D, b, s) && !L[t].continuation
  {
    assert Truthful(L, D, b);
    var run :| HoldsAt(L, D, b, run);
    StartHolds(L, D, b, s, run);
    StartsAscend(L, D, b, s, x, t);
    assert Placed(L, D, t);
  }

  /** One step of the forward walk: skip the run of `b`, go to the next occupied quotient `c`. */
  lemma {:induction false} NextRun(L: seq<Slot>, D: seq<nat>, x: nat, b: nat, s: nat, c: nat, t: nat)
    requires Chain(L, D) && x < |L| && StartsAt(L, D, b, s)
    requires b < c <= x && s < t < |L| && !L[t].continuation
    requires forall j :: s <= j < t ==> HoldsAt(L, D, b, j)
    requires forall j :: b < j < c ==> !L[j].occupied
    requires forall j :: b < j <= x ==> !IsEmpty(L[j])
    ensures StartsAt(L, D, c, t)
  {
    assert HoldsAt(L, D, b, t - 1);
    assert Placed(L, D, t);
    if !IsEmpty(L[t]) {
      QuotientsAscend(L, D, t - 1, t);
    }
    forall j | c <= j < t
      ensures !IsEmpty(L[j]) && j - D[j] < c
    {
      assert j >= s ==> HoldsAt(L, D, b, j);
    }
  }

  /** Remainders rise along a run. */
  lemma {:induction false} RunSorted(L: seq<Slot>, D: seq<nat>, x: int, i: nat, j: nat)
    requires Chain(L, D) && HoldsAt(L, D, x, i) && HoldsAt(L, D, x, j) && i < j
    ensures L[i].rem < L[j].rem
    decreases j - i
  {
    assert Placed(L, D, j);
    if i < j - 1 {
      QuotientsAscend(L, D, i, j - 1);
      RunSorted(L, D, x, i, j - 1);
    }
  }

  /** Nothing at or behind a start that is free, or taken by a later quotient, belongs to `x`. */
  lemma {:induction false} PastRun(L: seq<Slot>, D: seq<nat>, x: nat, p: nat, i: nat)
    requires Chain(L, D) && x <= p <= i < |L| && !HoldsAt(L, D, x, p)
    requires !IsEmpty(L[p]) ==> p - D[p] >= x
    ensures !HoldsAt(L, D, x, i)
  {
    if IsEmpty(L[p]) {
      if i > p {
        EmptyCuts(L, D, p, i);
      }
    } else {
      QuotientsAscend(L, D, p, i);
    }
  }

  /** Marking a used slot's quotient as occupied, before its run is built. */
  lemma {:induction false} OccupyKeepsChain(L: seq<Slot>, D: seq<nat>, x: nat, L2: seq<Slot>)
    requires Ordered(L, D) && x < |L| && !IsEmpty(L[x]) && !L[x].occupied
    requires L2 == L[x := L[x].(occupied := true)]
    ensures Chain(L2, D) && RunsBut(L2, D, x)
    ensures forall y, i :: HoldsAt(L2, D, y, i) <==> HoldsAt(L, D, y, i)
    ensures forall i :: !HoldsAt(L2, D, x, i)
    ensures forall y, s :: Holds(L2, D, y, s) <==> Holds(L, D, y, s)
  {
    forall j | 0 <= j < |L|
      ensures Placed(L2, D, j) && !HoldsAt(L, D, x, j)
    {
      assert Placed(L, D, j);
    }
    forall y | 0 <= y < |L2| && y != x
      ensures Truthful(L2, D, y)
    {
      assert Truthful(L, D, y);
      if L[y].occupied {
        var i :| HoldsAt(L, D, y, i);
        assert HoldsAt(L2, D, y, i);
      }
    }
    forall y, s
      ensures Holds(L2, D, y, s) <==> Holds(L, D, y, s)
    {
      if Holds(L, D, y, s) {
        var i :| HoldsAt(L, D, y, i) && L[i].rem == s;
        assert HoldsAt(L2, D, y, i);
      }
    }
  }

  /** `p` is where remainder `r` of quotient `x` belongs, and `e` the first free slot from there. */
  ghost predicate InsertPoint(L: seq<Slot>, D: seq<nat>, x: nat, r: nat, p: nat, e: nat)
    requires |L| == |D|
  {
    && x <= p <= e < |L|
    && (forall j :: x <= j < p ==> !IsEmpty(L[j]) && j - D[j] <= x && (j - D[j] == x ==> L[j].rem < r))
    && (forall j :: p <= j < e ==> !IsEmpty(L[j]))
    && IsEmpty(L[e])
    && (p < e ==> p - D[p] >= x && (p - D[p] == x ==> L[p].rem > r))
  }

  /** A scan of the run of `x` that stopped at `p` without meeting `r` has proved `r` absent. */
  lemma {:induction false} ScanProvesAbsent(L: seq<Slot>, D: seq<nat>, x: nat, r: nat, p: nat)
    requires Chain(L, D) && x <= p <= |L|
    requires forall j :: x <= j < p && HoldsAt(L, D, x, j) ==> L[j].rem < r
    requires p < |L| && HoldsAt(L, D, x, p) ==> L[p].rem > r
    requires p < |L| && !IsEmpty(L[p]) ==> p - D[p] >= x
    ensures !Holds(L, D, x, r)
  {
    forall i | HoldsAt(L, D, x, i)
      ensures L[i].rem != r
    {
      if p <= i {
        if HoldsAt(L, D, x, p) {
          if p < i {
            RunSorted(L, D, x, p, i);
          }
        } else {
          PastRun(L, D, x, p, i);
        }
      }
    }
  }

  /** The slot after a run belongs to a later quotient or to nobody. */
  lemma {:induction false} AfterRun(L: seq<Slot>, D: seq<nat>, x: nat, p: nat)
    requires Chain(L, D) && 0 < p < |L| && HoldsAt(L, D, x, p - 1) && !L[p].continuation
    ensures !HoldsAt(L, D, x, p) && (!IsEmpty(L[p]) ==> p - D[p] >= x)
  {
    assert Placed(L, D, p);
    QuotientsAscend(L, D, p - 1, p);
  }

  /** A set occupied bit leads to a run, and to where it starts. */
  lemma {:induction false} OccupiedStart(L: seq<Slot>, D: seq<nat>, x: nat) returns (t: nat)
    requires Ordered(L, D) && x < |L| && L[x].occupied
    ensures t < |L| && StartsAt(L, D, x, t) && HoldsAt(L, D, x, t)
  {
    assert Truthful(L, D, x);
    var run :| HoldsAt(L, D, x, run);
    assert Placed(L, D, run);
    t := StartExists(L, D, x, x);
    StartHolds(L, D, x, t, run);
  }

  /** A clear occupied bit means that no fingerprint has this quotient. */
  lemma {:induction false} UnoccupiedAbsent(L: seq<Slot>, D: seq<nat>, x: nat)
    requires Chain(L, D) && x < |L| && !L[x].occupied
    ensures forall i :: !HoldsAt(L, D, x, i)
  {
    forall i | 0 <= i < |L|
      ensures !HoldsAt(L, D, x, i)
    {
      assert Placed(L, D, i);
    }
  }

  /** The first free slot from `p` on. */
  lemma {:induction false} FirstFree(L: seq<Slot>, p: nat) returns (e: nat)
    requires p < |L| && IsEmpty(L[|L| - 1])
    ensures p <= e < |L| && IsEmpty(L[e]) && forall j :: p <= j < e ==> !IsEmpty(L[j])
    decreases |L| - p
  {
    if IsEmpty(L[p]) {
      e := p;
    } else {
      e := FirstFree(L, p + 1);
    }
  }

  /** The new element joins a run whose earlier part lies just before `p`. */
  ghost predicate Joins(D: seq<nat>, x: nat, p: nat)
    requires p <= |D|
  {
    p > x && p - 1 - D[p - 1] == x
  }

  /** The new element goes before the whole run of `x`. */
  ghost predicate Heads(D: seq<nat>, x: nat, p: nat, e: nat)
    requires p <= e < |D|
  {
    p < e && p - D[p] == x && !Joins(D, x, p)
  }

  /**
   * `L2`, `D2` are `L`, `D` after inserting remainder `r` of quotient `x` at `p`: the rest of the
   * cluster moves up to the free slot `e`, and an old head of the run becomes a continuation.
   * Occupied bits belong to positions, not to elements, and stay where they are.
   */
  ghost predicate Inserted(L: seq<Slot>, D: seq<nat>, x: nat, r: nat, p: nat, e: nat, L2: seq<Slot>, D2: seq<nat>)
    requires |L| == |D| && x <= p <= e < |L|
  {
    && |L2| == |D2| == |L|
    && (forall j :: 0 <= j < |L| ==> L2[j].occupied == L[j].occupied)
    && (forall j :: 0 <= j < |L| && (j < p || e < j) ==> L2[j] == L[j] && D2[j] == D[j])
    && L2[p] == Slot(L[p].occupied, Joins(D, x, p), p != x, r) && D2[p] == p - x
    && (forall j :: p < j <= e ==> Moved(L[j - 1], L2[j], j == p + 1 && Heads(D, x, p, e)) && D2[j] == D[j - 1] + 1)
  }

  /** The displacements after an insertion. */
  lemma {:induction false} InsertedDisp(D: seq<nat>, x: nat, p: nat, e: nat) returns (D2: seq<nat>)
    requires x <= p <= e < |D|
    ensures |D2| == |D| && D2[p] == p - x
    ensures forall j :: 0 <= j < |D| && (j < p || e < j) ==> D2[j] == D[j]
    ensures forall j :: p < j <= e ==> D2[j] == D[j - 1] + 1
  {
    D2 := seq(|D|, j requires 0 <= j < |D| => if j < p || e < j then D[j] else if j == p then p - x else D[j - 1] + 1);
  }

  predicate Moved(s: Slot, s2: Slot, demoted: bool) {
    s2.shifted && s2.rem == s.rem && s2.continuation == (s.continuation || demoted)
  }

  /** Where a scan of the run of `x` stopped is where `r` belongs. */
  lemma {:induction false} PlaceFound(L: seq<Slot>, D: seq<nat>, x: nat, r: nat, t: nat, p: nat, e: nat, hasRun: bool)
    requires Chain(L, D) && StartsAt(L, D, x, t) && t <= p <= e < |L|
    requires IsEmpty(L[e]) && forall j :: p <= j < e ==> !IsEmpty(L[j])
    requires hasRun ==> HoldsAt(L, D, x, t) && forall j :: t <= j < p ==> HoldsAt(L, D, x, j) && L[j].rem < r
    requires !hasRun ==> p == t && !HoldsAt(L, D, x, t)
    requires !IsEmpty(L[p]) ==> p - D[p] >= x && (p - D[p] == x ==> L[p].rem > r)
    ensures InsertPoint(L, D, x, r, p, e) && !Holds(L, D, x, r)
    ensures Joins(D, x, p) <==> hasRun && p != t
    ensures Heads(D, x, p, e) <==> hasRun && p == t
  {
    forall j | x <= j < p
      ensures !IsEmpty(L[j]) && j - D[j] <= x && (j - D[j] == x ==> L[j].rem < r)
    {
      if t <= j {
        assert HoldsAt(L, D, x, j);
      }
    }
    if t < p {
      assert HoldsAt(L, D, x, p - 1);
    }
    ScanProvesAbsent(L, D, x, r, p);
  }

  lemma {:induction false} InsertedFills(L: seq<Slot>, D: seq<nat>, x: nat, r: nat, p: nat, e: nat, L2: seq<Slot>, D2: seq<nat>, j: nat)
    requires |L| == |D| && InsertPoint(L, D, x, r, p, e) && L[x].occupied && Inserted(L, D, x, r, p, e, L2, D2) && j < |L|
    ensures IsEmpty(L2[j]) <==> IsEmpty(L[j]) && j != e
  {
  }

  /** Demoting an old head and shifting the cluster up is an insertion. */
  lemma {:induction false} ShiftInserts(L: seq<Slot>, D: seq<nat>, x: nat, r: nat, p: nat, e: nat, L1: seq<Slot>, L2: seq<Slot>, D2: seq<nat>)
    requires |L| == |D| == |L1| == |L2| == |D2| && x <= p <= e < |L|
    requires L1 == if Heads(D, x, p, e) then L[p := L[p].(continuation := true)] else L
    requires forall j :: 0 <= j < |L| && (j < p || e < j) ==> L2[j] == L1[j] && D2[j] == D[j]
    requires L2[p] == Slot(L1[p].occupied, Joins(D, x, p), p != x, r) && D2[p] == p - x
    requires forall j :: p < j <= e ==> L2[j] == L1[j - 1].(shifted := true, occupied := L1[j].occupied) && D2[j] == D[j - 1] + 1
    ensures Inserted(L, D, x, r, p, e, L2, D2)
  {
    forall j | 0 <= j < |L|
      ensures L2[j].occupied == L[j].occupied
    {
      assert L1[j].occupied == L[j].occupied;
      if p < j <= e {
        assert L2[j] == L1[j - 1].(shifted := true, occupied := L1[j].occupied);
      }
    }
    forall j | p < j <= e
      ensures Moved(L[j - 1], L2[j], j == p + 1 && Heads(D, x, p, e))
    {
      assert L1[j - 1].rem == L[j - 1].rem;
    }
  }

  lemma {:induction false} PlacedOutside(L: seq<Slot>, D: seq<nat>, x: nat, r: nat, p: nat, e: nat, L2: seq<Slot>, D2: seq<nat>, j: nat)
    requires Chain(L, D) && InsertPoint(L, D, x, r, p, e)
    requires Inserted(L, D, x, r, p, e, L2, D2) && j < |L| && (j < p || e < j)
    ensures Placed(L2, D2, j)
  {
    assert Placed(L, D, j);
    if e < j {
      EmptyCuts(L, D, e, j);
    }
  }

  lemma {:induction false} PlacedInside(L: seq<Slot>, D: seq<nat>, x: nat, r: nat, p: nat, e: nat, L2: seq<Slot>, D2: seq<nat>, j: nat)
    requires Chain(L, D) && InsertPoint(L, D, x, r, p, e) && L[x].occupied
    requires Inserted(L, D, x, r, p, e, L2, D2) && p <= j <= e
    ensures Placed(L2, D2, j)
  {
    if j == p {
      PlacedNew(L, D, x, r, p, e, L2, D2);
    } else {
      PlacedMoved(L, D, x, r, p, e, L2, D2, j);
    }
  }

  lemma {:induction false} PlacedNew(L: seq<Slot>, D: seq<nat>, x: nat, r: nat, p: nat, e: nat, L2: seq<Slot>, D2: seq<nat>)
    requires Chain(L, D) && InsertPoint(L, D, x, r, p, e) && L[x].occupied && Inserted(L, D, x, r, p, e, L2, D2)
    ensures Placed(L2, D2, p)
  {
    if p > 0 {
      assert Placed(L, D, p - 1) && L2[p - 1] == L[p - 1] && D2[p - 1] == D[p - 1];
    }
  }

  lemma {:induction false} PlacedMoved(L: seq<Slot>, D: seq<nat>, x: nat, r: nat, p: nat, e: nat, L2: seq<Slot>, D2: seq<nat>, j: nat)
    requires Chain(L, D) && InsertPoint(L, D, x, r, p, e) && Inserted(L, D, x, r, p, e, L2, D2) && p < j <= e
    ensures Placed(L2, D2, j)
  {
    assert Placed(L, D, j - 1) && !IsEmpty(L[j - 1]) && p - D[p] >= x && (p - D[p] == x ==> L[p].rem > r);
    assert D2[j] == D[j - 1] + 1 && L2[j - D2[j]].occupied == L[j - D2[j]].occupied;
    if j > p + 1 {
      assert Moved(L[j - 1], L2[j], false);
      assert Moved(L[j - 2], L2[j - 1], j - 1 == p + 1 && Heads(D, x, p, e)) && D2[j - 1] == D[j - 2] + 1;
      hide Chain, InsertPoint, Inserted;
      NextMoved(L, D, L2, D2, j, j - 1 == p + 1 && Heads(D, x, p, e));
    } else {
      assert x < p ==> p - 1 - D[p - 1] <= x;
      hide Chain, InsertPoint;
      FirstMoved(L, D, x, r, p, e, L2, D2);
    }
  }

  /** The element that stood where the new one is now. */
  lemma {:induction false} FirstMoved(L: seq<Slot>, D: seq<nat>, x: nat, r: nat, p: nat, e: nat, L2: seq<Slot>, D2: seq<nat>)
    requires |L| == |D| && x <= p < e < |L| && Placed(L, D, p) && !IsEmpty(L[p]) && Inserted(L, D, x, r, p, e, L2, D2)
    requires p - D[p] >= x && (p - D[p] == x ==> L[p].rem > r) && (x < p ==> p - 1 - D[p - 1] <= x)
    ensures Placed(L2, D2, p + 1)
  {
    assert Moved(L[p], L2[p + 1], Heads(D, x, p, e)) && D2[p + 1] == D[p] + 1;
  }

  /** An element further back, with its neighbour before it. */
  lemma {:induction false} NextMoved(L: seq<Slot>, D: seq<nat>, L2: seq<Slot>, D2: seq<nat>, j: nat, demoted: bool)
    requires |L| == |D| == |L2| == |D2| && 2 <= j < |L| && Placed(L, D, j - 1) && !IsEmpty(L[j - 1])
    requires Moved(L[j - 1], L2[j], false) && D2[j] == D[j - 1] + 1 && L2[j - D2[j]].occupied == L[j - D2[j]].occupied
    requires Moved(L[j - 2], L2[j - 1], demoted) && D2[j - 1] == D[j - 2] + 1
    ensures Placed(L2, D2, j)
  {
  }

  /** An element of the old line, and where it is in the new one. */
  lemma {:induction false} HoldsMoves(L: seq<Slot>, D: seq<nat>, x: nat, r: nat, p: nat, e: nat, L2: seq<Slot>, D2: seq<nat>, y: int, i: int)
    requires |L| == |D| && InsertPoint(L, D, x, r, p, e) && Inserted(L, D, x, r, p, e, L2, D2)
    requires HoldsAt(L, D, y, i)
    ensures
      var i2 := if p <= i <= e then i + 1 else i;
      HoldsAt(L2, D2, y, i2) && L2[i2].rem == L[i].rem
  {
    assert i != e;
    hide InsertPoint, Inserted, HoldsAt;
    if p <= i < e {
      HoldsShifted(L, D, x, r, p, e, L2, D2, y, i);
    } else {
      HoldsOutside(L, D, x, r, p, e, L2, D2, y, i);
    }
  }

  lemma {:induction false} HoldsShifted(L: seq<Slot>, D: seq<nat>, x: nat, r: nat, p: nat, e: nat, L2: seq<Slot>, D2: seq<nat>, y: int, i: int)
    requires |L| == |D| && x <= p <= i < e < |L| && Inserted(L, D, x, r, p, e, L2, D2) && HoldsAt(L, D, y, i)
    ensures HoldsAt(L2, D2, y, i + 1) && L2[i + 1].rem == L[i].rem
  {
    assert Moved(L[i], L2[i + 1], i == p && Heads(D, x, p, e)) && D2[i + 1] == D[i] + 1;
  }

  lemma {:induction false} HoldsOutside(L: seq<Slot>, D: seq<nat>, x: nat, r: nat, p: nat, e: nat, L2: seq<Slot>, D2: seq<nat>, y: int, i: int)
    requires |L| == |D| && x <= p <= e < |L| && (i < p || e < i) && Inserted(L, D, x, r, p, e, L2, D2) && HoldsAt(L, D, y, i)
    ensures HoldsAt(L2, D2, y, i) && L2[i].rem == L[i].rem
  {
  }

  lemma {:induction false} HoldsCameFrom(L: seq<Slot>, D: seq<nat>, x: nat, r: nat, p: nat, e: nat, L2: seq<Slot>, D2: seq<nat>, y: int, i2: int)
    requires |L| == |D| && InsertPoint(L, D, x, r, p, e) && Inserted(L, D, x, r, p, e, L2, D2)
    requires HoldsAt(L2, D2, y, i2) && i2 != p
    ensures
      var i := if p < i2 <= e then i2 - 1 else i2;
      HoldsAt(L, D, y, i) && L2[i2].rem == L[i].rem
  {
  }

  /** Inserting at an insert point keeps the whole order and adds exactly one fingerprint. */
  lemma {:induction false} InsertKeepsOrder(L: seq<Slot>, D: seq<nat>, x: nat, r: nat, p: nat, e: nat, L2: seq<Slot>, D2: seq<nat>)
    requires Chain(L, D) && RunsBut(L, D, x) && InsertPoint(L, D, x, r, p, e) && L[x].occupied
    requires Inserted(L, D, x, r, p, e, L2, D2)
    ensures Ordered(L2, D2) && Adds(L, D, x, r, L2, D2)
  {
    forall j | 0 <= j < |L|
      ensures Placed(L2, D2, j)
    {
      if j < p || e < j {
        PlacedOutside(L, D, x, r, p, e, L2, D2, j);
      } else {
        PlacedInside(L, D, x, r, p, e, L2, D2, j);
      }
    }
    assert HoldsAt(L2, D2, x, p) && L2[p].rem == r;
    forall y | 0 <= y < |L2|
      ensures Truthful(L2, D2, y)
    {
      if y != x && L[y].occupied {
        assert Truthful(L, D, y);
        var i :| HoldsAt(L, D, y, i);
        HoldsMoves(L, D, x, r, p, e, L2, D2, y, i);
      }
    }
    forall y, s | Holds(L, D, y, s)
      ensures Holds(L2, D2, y, s)
    {
      var i :| HoldsAt(L, D, y, i) && L[i].rem == s;
      HoldsMoves(L, D, x, r, p, e, L2, D2, y, i);
    }
    forall y, s | Holds(L2, D2, y, s)
      ensures Holds(L, D, y, s) || (y == x && s == r)
    {
      var i2 :| HoldsAt(L2, D2, y, i2) && L2[i2].rem == s;
      if i2 != p {
        HoldsCameFrom(L, D, x, r, p, e, L2, D2, y, i2);
      }
    }
  }

  /** An element alone in its canonical slot. */
  lemma {:induction false} CanonicalKeepsOrder(L: seq<Slot>, D: seq<nat>, x: nat, r: nat, L2: seq<Slot>)
    requires Ordered(L, D) && x < |L| && IsEmpty(L[x])
    requires L2 == L[x := Slot(true, false, false, r)]
    ensures Ordered(L2, D)
    ensures Adds(L, D, x, r, L2, D)
  {
    forall j | 0 <= j < |L|
      ensures Placed(L2, D, j)
    {
      assert Placed(L, D, j);
    }
    assert Placed(L, D, x) && HoldsAt(L2, D, x, x);
    forall y, i | i != x && HoldsAt(L, D, y, i)
      ensures HoldsAt(L2, D, y, i) && L2[i].rem == L[i].rem
    {
    }
    forall y | 0 <= y < |L2|
      ensures Truthful(L2, D, y)
    {
      if y != x && L[y].occupied {
        assert Truthful(L, D, y);
        var i :| HoldsAt(L, D, y, i);
        assert HoldsAt(L2, D, y, i);
      }
    }
    forall y, s | Holds(L, D, y, s)
      ensures Holds(L2, D, y, s)
    {
      var i :| HoldsAt(L, D, y, i) && L[i].rem == s;
      assert HoldsAt(L2, D, y, i);
    }
    forall y, s | Holds(L2, D, y, s)
      ensures Holds(L, D, y, s) || (y == x && s == r)
    {
      var i :| HoldsAt(L2, D, y, i) && L2[i].rem == s;
      assert i != x ==> HoldsAt(L, D, y, i);
    }
  }

  /** `L2`, `D2` are `L`, `D` read from the slot after `e` onwards. */
  ghost predicate Turned(L: seq<Slot>, D: seq<nat>, e: nat, L2: seq<Slot>, D2: seq<nat>) {
    && |L| == |D| == |L2| == |D2| && e < |L|
    && (forall i :: 0 <= i < |L| ==> L2[TurnTo(|L|, e, i)] == L[i] && D2[TurnTo(|L|, e, i)] == D[i])
  }

  /** Where position `i` of a line of `n` goes when the line is read from after `e`. */
  function TurnTo(n: nat, e: nat, i: int): int {
    if i <= e then i + n - e - 1 else i - e - 1
  }

  function TurnFrom(n: nat, e: nat, j: int): int {
    if j < n - e - 1 then j + e + 1 else j - (n - e - 1)
  }

  lemma {:induction false} Turn(L: seq<Slot>, D: seq<nat>, e: nat) returns (L2: seq<Slot>, D2: seq<nat>)
    requires |L| == |D| && e < |L|
    ensures Turned(L, D, e, L2, D2)
  {
    L2, D2 := L[e + 1..] + L[..e + 1], D[e + 1..] + D[..e + 1];
  }

  lemma {:induction false} TurnKeepsPlaced(L: seq<Slot>, D: seq<nat>, e: nat, L2: seq<Slot>, D2: seq<nat>, i: nat)
    requires Chain(L, D) && Turned(L, D, e, L2, D2) && IsEmpty(L[e]) && i < |L|
    ensures Placed(L2, D2, TurnTo(|L|, e, i))
  {
    assert Placed(L, D, i);
    if i > e {
      EmptyCuts(L, D, e, i);
    }
    if i > 0 {
      assert L2[TurnTo(|L|, e, i - 1)] == L[i - 1];
    }
    var q := i - D[i];
    assert L2[TurnTo(|L|, e, q)] == L[q];
  }

  lemma {:induction false} TurnKeepsHolds(L: seq<Slot>, D: seq<nat>, e: nat, L2: seq<Slot>, D2: seq<nat>, y: nat, i: nat)
    requires Chain(L, D) && Turned(L, D, e, L2, D2) && IsEmpty(L[e]) && i < |L| && y < |L|
    ensures HoldsAt(L, D, y, i) <==> HoldsAt(L2, D2, TurnTo(|L|, e, y), TurnTo(|L|, e, i))
    ensures L[i].rem == L2[TurnTo(|L|, e, i)].rem
  {
    assert Placed(L, D, i);
    if i > e {
      EmptyCuts(L, D, e, i);
    }
  }

  /** Reading the table from behind another empty slot changes nothing that is stored. */
  lemma {:induction false} TurnKeepsOrder(L: seq<Slot>, D: seq<nat>, e: nat, L2: seq<Slot>, D2: seq<nat>)
    requires Ordered(L, D) && Turned(L, D, e, L2, D2) && IsEmpty(L[e])
    ensures Ordered(L2, D2)
    ensures forall y, s :: 0 <= y < |L| ==> (Holds(L, D, y, s) <==> Holds(L2, D2, TurnTo(|L|, e, y), s))
  {
    forall j | 0 <= j < |L|
      ensures Placed(L2, D2, j)
    {
      TurnKeepsPlaced(L, D, e, L2, D2, TurnFrom(|L|, e, j));
    }
    forall y, s | 0 <= y < |L|
      ensures Holds(L, D, y, s) <==> Holds(L2, D2, TurnTo(|L|, e, y), s)
    {
      if Holds(L, D, y, s) {
        var i :| HoldsAt(L, D, y, i) && L[i].rem == s;
        TurnKeepsHolds(L, D, e, L2, D2, y, i);
      }
      if Holds(L2, D2, TurnTo(|L|, e, y), s) {
        var i2 :| HoldsAt(L2, D2, TurnTo(|L|, e, y), i2) && L2[i2].rem == s;
        TurnKeepsHolds(L, D, e, L2, D2, y, TurnFrom(|L|, e, i2));
      }
    }
    forall y2 | 0 <= y2 < |L|
      ensures Truthful(L2, D2, y2)
    {
      var y := TurnFrom(|L|, e, y2);
      assert L2[TurnTo(|L|, e, y)] == L[y] && Truthful(L, D, y);
      if L[y].occupied {
        var i :| HoldsAt(L, D, y, i);
        TurnKeepsHolds(L, D, e, L2, D2, y, i);
      }
    }
  }
}
