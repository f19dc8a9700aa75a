/** The slots of the quotient filter, packed one after the other into 64-bit words. */
module PackedSlots {
  import opened Arith
  import opened QuotientFilterOrder

  const WORD_BITS := 64
  const PAGE_BYTES := 4096

  /** A 64-bit word, least significant bit first. */
  type Word = w: seq<bool> | |w| == WORD_BITS witness Zero()

  function Zero(): seq<bool> {
    seq(WORD_BITS, i => false)
  }

  function And(a: Word, b: Word): (r: Word)
    ensures forall i :: 0 <= i < WORD_BITS ==> r[i] == (a[i] && b[i])
  {
    seq(WORD_BITS, i requires 0 <= i < WORD_BITS => a[i] && b[i])
  }

  function Or(a: Word, b: Word): (r: Word)
    ensures forall i :: 0 <= i < WORD_BITS ==> r[i] == (a[i] || b[i])
  {
    seq(WORD_BITS, i requires 0 <= i < WORD_BITS => a[i] || b[i])
  }

  function Not(a: Word): (r: Word)
    ensures forall i :: 0 <= i < WORD_BITS ==> r[i] == !a[i]
  {
    seq(WORD_BITS, i requires 0 <= i < WORD_BITS => !a[i])
  }

  function Shl(a: Word, k: nat): (r: Word)
    requires k < WORD_BITS
    ensures forall i :: 0 <= i < WORD_BITS ==> r[i] == (i >= k && a[i - k])
  {
    seq(WORD_BITS, i requires 0 <= i < WORD_BITS => i >= k && a[i - k])
  }

  function Shr(a: Word, k: nat): (r: Word)
    requires k < WORD_BITS
    ensures forall i :: 0 <= i < WORD_BITS ==> r[i] == (i + k < WORD_BITS && a[i + k])
  {
    seq(WORD_BITS, i requires 0 <= i < WORD_BITS => i + k < WORD_BITS && a[i + k])
  }

  /** `(1 << n) - 1`. */
  function LowMask(n: nat): (r: Word)
    requires n < WORD_BITS
    ensures forall i :: 0 <= i < WORD_BITS ==> r[i] == (i < n)
  {
    seq(WORD_BITS, i requires 0 <= i < WORD_BITS => i < n)
  }

  /** Bit `k` of the table as a whole. */
  function BitAt(ws: seq<Word>, k: nat): bool
    requires k < WORD_BITS * |ws|
  {
    ws[k / WORD_BITS][k % WORD_BITS]
  }

  method GetElem(words: array<Word>, bits: nat, idx: nat) returns (elt: Word)
    requires 0 < bits < WORD_BITS && bits * idx + bits <= WORD_BITS * words.Length
    ensures forall j :: 0 <= j < WORD_BITS ==> elt[j] == (j < bits && BitAt(words[..], bits * idx + j))
  {
    hide And, Or, Shl, Shr, LowMask;
    var bitpos := bits * idx;
    var tabpos := bitpos / WORD_BITS;
    var slotpos := bitpos % WORD_BITS;
    var spillbits: int := slotpos + bits - WORD_BITS;
    elt := And(Shr(words[tabpos], slotpos), LowMask(bits));
    if spillbits > 0 {
      tabpos := tabpos + 1;
      var x := And(words[tabpos], LowMask(spillbits));
      elt := Or(elt, Shl(x, bits - spillbits));
    }
  }

  method SetElem(words: array<Word>, bits: nat, idx: nat, elem: Word)
    requires 0 < bits < WORD_BITS && bits * idx + bits <= WORD_BITS * words.Length
    modifies words
    ensures forall k :: 0 <= k < WORD_BITS * words.Length ==>
      BitAt(words[..], k) == if bits * idx <= k < bits * idx + bits then elem[k - bits * idx] else old(BitAt(words[..], k))
  {
    hide And, Or, Not, Shl, Shr, LowMask;
    var bitpos := bits * idx;
    var tabpos := bitpos / WORD_BITS;
    var slotpos := bitpos % WORD_BITS;
    var spillbits: int := slotpos + bits - WORD_BITS;
    var elt := And(elem, LowMask(bits));
    words[tabpos] := And(words[tabpos], Not(Shl(LowMask(bits), slotpos)));
    words[tabpos] := Or(words[tabpos], Shl(elt, slotpos));
    if spillbits > 0 {
      tabpos := tabpos + 1;
      words[tabpos] := And(words[tabpos], Not(LowMask(spillbits)));
      words[tabpos] := Or(words[tabpos], Shr(elt, bits - spillbits));
    }
  }

  /** The number whose bits are `bs`, least significant first. */
  function Number(bs: seq<bool>): nat {
    if bs == [] then 0 else (if bs[0] then 1 else 0) + 2 * Number(bs[1..])
  }

  /** The lowest `n` bits of `v`. */
  function Bits(v: nat, n: nat): (bs: seq<bool>)
    ensures |bs| == n
  {
    if n == 0 then [] else [v % 2 == 1] + Bits(v / 2, n - 1)
  }

  lemma {:induction false} BitsRoundTrip(v: nat, n: nat)
    requires v < Pow2(n)
    ensures Number(Bits(v, n)) == v
  {
    if n > 0 {
      BitsRoundTrip(v / 2, n - 1);
    }
  }

  lemma {:induction false} HighBitsClear(v: nat, r: nat, n: nat, j: nat)
    requires v < Pow2(r) && r <= j < n
    ensures !Bits(v, n)[j]
  {
    if r > 0 {
      HighBitsClear(v / 2, r - 1, n - 1, j - 1);
    } else if j > 0 {
      HighBitsClear(0, 0, n - 1, j - 1);
    }
  }

  /** `(rem << 3)` with the three flags in the lowest bits. */
  function Pack(s: Slot): Word {
    [s.occupied, s.continuation, s.shifted] + Bits(s.rem, WORD_BITS - 3)
  }

  function Unpack(w: Word): Slot {
    Slot(w[0], w[1], w[2], Number(w[3..]))
  }

  lemma {:induction false} PackRoundTrip(s: Slot)
    requires s.rem < Pow2(WORD_BITS - 3)
    ensures Unpack(Pack(s)) == s
  {
    BitsRoundTrip(s.rem, WORD_BITS - 3);
    assert Pack(s)[3..] == Bits(s.rem, WORD_BITS - 3);
  }

  /** Element `i` of a table of `bits`-wide elements packed one after the other; it may straddle two words. */
  function ElemAt(ws: seq<Word>, bits: nat, i: nat): (w: Word)
    requires bits * i + bits <= WORD_BITS * |ws|
    ensures forall j :: 0 <= j < WORD_BITS ==> w[j] == (j < bits && BitAt(ws, bits * i + j))
  {
    seq(WORD_BITS, j requires 0 <= j < WORD_BITS => j < bits && BitAt(ws, bits * i + j))
  }

  /** An element written with `Pack` reads back as the slot it was written from. */
  lemma {:induction false} StoredSlot(ws: seq<Word>, rbits: nat, i: nat, s: Slot)
    requires rbits < WORD_BITS - 3 && (rbits + 3) * i + rbits + 3 <= WORD_BITS * |ws| && s.rem < Pow2(rbits)
    requires forall j :: 0 <= j < rbits + 3 ==> BitAt(ws, (rbits + 3) * i + j) == Pack(s)[j]
    ensures Unpack(ElemAt(ws, rbits + 3, i)) == s
  {
    var w := ElemAt(ws, rbits + 3, i);
    forall j | 0 <= j < WORD_BITS
      ensures w[j] == Pack(s)[j]
    {
      if j >= rbits + 3 {
        HighBitsClear(s.rem, rbits, WORD_BITS - 3, j - 3);
      }
    }
    assert w == Pack(s);
    Pow2Grows(rbits, WORD_BITS - 3);
    PackRoundTrip(s);
  }

  /** Writing the bits of element `i` leaves element `j` as it was. */
  lemma {:induction false} KeptElem(before: seq<Word>, after: seq<Word>, bits: nat, i: nat, j: nat)
    requires |before| == |after| && i != j
    requires bits * i + bits <= WORD_BITS * |after| && bits * j + bits <= WORD_BITS * |after|
    requires forall k :: 0 <= k < WORD_BITS * |after| && !(bits * i <= k < bits * i + bits) ==> BitAt(after, k) == BitAt(before, k)
    ensures ElemAt(after, bits, j) == ElemAt(before, bits, j)
  {
    if i < j {
      MulGap(bits, i, j);
    } else {
      MulGap(bits, j, i);
    }
  }

  lemma {:induction false} ClearedSlot(ws: seq<Word>, rbits: nat, i: nat)
    requires 0 < rbits < WORD_BITS - 3 && (rbits + 3) * i + rbits + 3 <= WORD_BITS * |ws|
    requires forall k :: 0 <= k < |ws| ==> ws[k] == Zero()
    ensures Unpack(ElemAt(ws, rbits + 3, i)) == NOTHING
  {
    forall j | 0 <= j < rbits + 3
      ensures !Pack(NOTHING)[j]
    {
      if j >= 3 {
        HighBitsClear(0, 0, WORD_BITS - 3, j - 3);
      }
    }
    StoredSlot(ws, rbits, i, NOTHING);
  }

  /** A table of `size` slots with `rbits` remainder bits each; `slots` is what it holds. */
  class SlotTable {
    const rbits: nat
    const size: nat
    const words: array<Word>
    ghost var slots: seq<Slot>

    ghost predicate Fits() {
      && 0 < rbits < WORD_BITS - 3
      && (rbits + 3) * size <= WORD_BITS * words.Length
    }

    ghost predicate Stored(i: nat)
      requires Fits() && i < size && |slots| == size
      reads this, words
    {
      MulGap(rbits + 3, i, size);
      slots[i] == Unpack(ElemAt(words[..], rbits + 3, i))
    }

    ghost predicate Valid()
      reads this, words
    {
      && Fits() && |slots| == size
      && forall i :: 0 <= i < size ==> Stored(i)
    }

    constructor (rbits: nat, size: nat)
      requires 0 < rbits < WORD_BITS - 3
      ensures Valid() && fresh(words) && this.rbits == rbits && this.size == size
      ensures forall i :: 0 <= i < size ==> slots[i] == NOTHING
    {
      hide Unpack, ElemAt, Pow2;
      this.rbits := rbits;
      this.size := size;
      slots := seq(size, i => NOTHING);
      var bytes := ((rbits + 3) * size + 7) / 8;
      var pages := (bytes + PAGE_BYTES - 1) / PAGE_BYTES;
      words := new Word[pages * (PAGE_BYTES / 8)](i => Zero());
      new;
      forall i | 0 <= i < size
        ensures Stored(i)
      {
        MulGap(rbits + 3, i, size);
        ClearedSlot(words[..], rbits, i);
      }
    }

    method Get(i: nat) returns (s: Slot)
      requires Valid() && i < size
      ensures s == slots[i]
    {
      MulGap(rbits + 3, i, size);
      var w := GetElem(words, rbits + 3, i);
      assert Stored(i) && w == ElemAt(words[..], rbits + 3, i);
      s := Unpack(w);
    }

    method Set(i: nat, s: Slot)
      requires Valid() && i < size && s.rem < Pow2(rbits)
      modifies words, this`slots
      ensures Valid() && slots == old(slots)[i := s]
    {
      hide Pack, Unpack, ElemAt, Pow2;
      ghost var before, bits := words[..], rbits + 3;
      MulGap(bits, i, size);
      SetElem(words, rbits + 3, i, Pack(s));
      slots := slots[i := s];
      forall j | 0 <= j < size
        ensures Stored(j)
      {
        MulGap(bits, j, size);
        if j == i {
          StoredSlot(words[..], rbits, i, s);
        } else {
          assert old(Stored(j));
          KeptElem(before, words[..], bits, i, j);
        }
      }
    }
  }
}
