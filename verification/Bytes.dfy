/** Byte strings: their lexicographic order, their ranks among the integers, little-endian integers, and what
    a patch in the middle of a page changes and leaves alone. */
module Bytes {
  import opened Arith

  type Byte = x: int | 0 <= x < 256

  type Bytes = seq<Byte>

  /** The order of keys. */
  predicate Less(a: Bytes, b: Bytes) {
    b != [] && (a == [] || a[0] < b[0] || (a[0] == b[0] && Less(a[1..], b[1..])))
  }

  /** `a` ends before `b`, or has the smaller byte, where they first differ. */
  ghost predicate FirstBelow(a: Bytes, b: Bytes, n: int) {
    0 <= n <= |a| && n < |b| && a[..n] == b[..n] && (n == |a| || a[n] < b[n])
  }

  /** The order of keys is decided by the first byte in which they differ; a proper prefix comes first. */
  lemma {:induction false} LessIff(a: Bytes, b: Bytes)
    ensures Less(a, b) <==> exists n :: FirstBelow(a, b, n)
  {
    if b != [] && (a == [] || a[0] < b[0]) {
      assert FirstBelow(a, b, 0);
    } else if b != [] && a[0] == b[0] {
      LessIff(a[1..], b[1..]);
      if n :| FirstBelow(a[1..], b[1..], n) {
        assert a[..n + 1] == [a[0]] + a[1..][..n] && b[..n + 1] == [b[0]] + b[1..][..n];
        assert FirstBelow(a, b, n + 1);
      }
      if n :| FirstBelow(a, b, n) {
        assert n > 0;
        assert a[1..][..n - 1] == a[..n][1..] && b[1..][..n - 1] == b[..n][1..];
        assert FirstBelow(a[1..], b[1..], n - 1);
      }
    } else {
      forall n
        ensures !FirstBelow(a, b, n)
      {
        if 0 < n <= |a| && n < |b| {
          assert a[..n][0] == a[0] && b[..n][0] == b[0];
        }
      }
    }
  }

  lemma {:induction false} LessTotal(a: Bytes, b: Bytes)
    ensures Less(a, b) || Less(b, a) || a == b
    ensures !(Less(a, b) && Less(b, a)) && !Less(a, a) && !Less(b, b)
  {
    LessIrreflexive(a);
    LessIrreflexive(b);
    if a != [] && b != [] && a[0] == b[0] {
      LessTotal(a[1..], b[1..]);
      if a[1..] == b[1..] {
        assert a == [a[0]] + a[1..] && b == [b[0]] + b[1..];
      }
    }
  }

  lemma {:induction false} LessIrreflexive(a: Bytes)
    ensures !Less(a, a)
  {
    if a != [] {
      LessIrreflexive(a[1..]);
    }
  }

  lemma {:induction false} LessTransitive(a: Bytes, b: Bytes, c: Bytes)
    requires Less(a, b) && Less(b, c)
    ensures Less(a, c)
  {
    if a != [] && a[0] == b[0] && b[0] == c[0] {
      LessTransitive(a[1..], b[1..], c[1..]);
    }
  }

  /** Strictly ascending keys. */
  ghost predicate Ascending(keys: seq<Bytes>) {
    forall i, j :: 0 <= i < j < |keys| ==> Less(keys[i], keys[j])
  }

  /** `after` is `before` with `s` written over it at `at`. */
  ghost predicate Patched(before: Bytes, after: Bytes, at: nat, s: Bytes) {
    && |before| == |after|
    && at + |s| <= |after|
    && forall i :: 0 <= i < |after| ==> after[i] == if at <= i < at + |s| then s[i - at] else before[i]
  }

  lemma {:induction false} PatchTwice(x: Bytes, y: Bytes, z: Bytes, at: nat, s: Bytes, t: Bytes)
    requires Patched(x, y, at, s) && Patched(y, z, at + |s|, t)
    ensures Patched(x, z, at, s + t)
  {
  }

  lemma {:induction false} PatchNothing(x: Bytes, at: nat)
    requires at <= |x|
    ensures Patched(x, x, at, [])
  {
  }

  lemma {:induction false} PatchByte(x: Bytes, y: Bytes, z: Bytes, at: nat, s: Bytes, b: Byte)
    requires Patched(x, y, at, s) && at + |s| < |y| && z == y[at + |s| := b]
    ensures Patched(x, z, at, s + [b])
  {
  }

  /** `s` stands in `page` at `h`. */
  predicate At(page: Bytes, h: nat, s: Bytes) {
    h + |s| <= |page| && page[h..h + |s|] == s
  }

  lemma {:induction false} AtSplits(page: Bytes, h: nat, s: Bytes, t: Bytes)
    ensures At(page, h, s + t) <==> At(page, h, s) && At(page, h + |s|, t)
  {
    if h + |s| + |t| <= |page| {
      var both := page[h..h + |s| + |t|];
      assert both[..|s|] == page[h..h + |s|] && both[|s|..] == page[h + |s|..h + |s| + |t|];
      assert both == both[..|s|] + both[|s|..];
      assert (s + t)[..|s|] == s && (s + t)[|s|..] == t;
    }
  }

  lemma {:induction false} PatchStays(x: Bytes, y: Bytes, at: nat, s: Bytes)
    requires Patched(x, y, at, s)
    ensures At(y, at, s)
    ensures forall h: nat, t :: At(x, h, t) && (h + |t| <= at || at + |s| <= h) ==> At(y, h, t)
  {
  }

  /** The low byte of a number: what is left when it is stored in one byte. */
  function LowByte(n: nat): (b: Byte)
    ensures n < 256 ==> b == n
    ensures n == 256 ==> b == 0
  {
    n % 256
  }

  function HighPart(n: nat): (r: nat)
    ensures n == LowByte(n) + 256 * r
  {
    n / 256
  }

  /** `n` in `width` bytes, least significant first; what does not fit is cut off. */
  function LittleEndian(n: nat, width: nat): (r: Bytes)
    ensures |r| == width
  {
    if width == 0 then [] else [LowByte(n)] + LittleEndian(HighPart(n), width - 1)
  }

  function FromLittleEndian(s: Bytes): nat {
    if s == [] then 0 else s[0] + 256 * FromLittleEndian(s[1..])
  }

  lemma {:induction false} LittleEndianReads(n: nat, width: nat)
    ensures FromLittleEndian(LittleEndian(n, width)) == n % Pow(256, width)
  {
    if width > 0 {
      LittleEndianReads(HighPart(n), width - 1);
      ModSplits(n, 256, Pow(256, width - 1));
    }
  }

  /** Bytes are the little-endian form of the integer that they stand for. */
  lemma {:induction false} LittleEndianBack(s: Bytes, width: nat)
    requires |s| == width
    ensures LittleEndian(FromLittleEndian(s), width) == s && FromLittleEndian(s) < Pow(256, width)
  {
    if width > 0 {
      var rest := FromLittleEndian(s[1..]);
      LittleEndianBack(s[1..], width - 1);
      DivModUnique(FromLittleEndian(s), 256, rest, s[0] as int);
      assert [s[0]] + s[1..] == s;
      MulGap(256, rest, Pow(256, width - 1));
    }
  }

  /** Four bytes stand for the low 32 bits of a number exactly when they are its little-endian form. */
  lemma {:induction false} FourBytes(s: Bytes, n: nat)
    requires |s| == 4
    ensures FromLittleEndian(s) == n % 0x1_0000_0000 <==> s == LittleEndian(n, 4)
  {
    hide LittleEndian, FromLittleEndian;
    LittleEndianReads(n, 4);
    assert Pow(256, 4) == 256 * (256 * (256 * (256 * Pow(256, 0))));
    LittleEndianBack(s, 4);
    LittleEndianBack(LittleEndian(n, 4), 4);
  }

  /** The integer that stands for a key of at most `n` bytes: its digits in base 257, an absent byte counting as zero. */
  function Rank(k: Bytes, n: nat): (r: nat)
    requires |k| <= n
    ensures r < Pow(257, n)
  {
    if k == [] then 0
    else
      var digit: nat := k[0] as int + 1;
      MulGap(Pow(257, n - 1), digit, 257);
      Pow(257, n - 1) * digit + Rank(k[1..], n - 1)
  }

  /** A leading digit outweighs all that follow. */
  lemma {:induction false} RankLeads(p: nat, x: nat, y: nat, r: nat, s: nat)
    requires r < p && s < p
    ensures x < y ==> p * x + r < p * y + s
  {
    if x < y {
      MulGap(p, x, y);
    }
  }

  lemma {:induction false} RankOfNone(k: Bytes, n: nat)
    requires |k| <= n
    ensures k == [] <==> Rank(k, n) == 0
  {
  }

  /** Ranks are ordered as the keys are, so reasoning about integer keys covers byte keys. */
  lemma {:induction false} RankIsOrder(a: Bytes, b: Bytes, n: nat)
    requires |a| <= n && |b| <= n
    ensures Less(a, b) <==> Rank(a, n) < Rank(b, n)
    ensures a == b <==> Rank(a, n) == Rank(b, n)
  {
    if a == [] || b == [] {
      RankOfNone(a, n);
      RankOfNone(b, n);
    } else {
      var x, y: nat := a[0] as int + 1, b[0] as int + 1;
      var r, s := Rank(a[1..], n - 1), Rank(b[1..], n - 1);
      var p := Pow(257, n - 1);
      RankIsOrder(a[1..], b[1..], n - 1);
      RankLeads(p, x, y, r, s);
      RankLeads(p, y, x, s, r);
      assert a == [a[0]] + a[1..] && b == [b[0]] + b[1..];
    }
  }

  /** The key that a rank stands for. */
  function Unrank(r: nat, n: nat): Bytes {
    if n == 0 then []
    else
      var p := Pow(257, n - 1);
      var digit := r / p;
      if 1 <= digit <= 256 then [digit - 1] + Unrank(r % p, n - 1) else []
  }

  lemma {:induction false} UnrankBack(k: Bytes, n: nat)
    requires |k| <= n
    ensures Unrank(Rank(k, n), n) == k
  {
    if k == [] {
      RankOfNone(k, n);
      if n > 0 {
        DivModUnique(0, Pow(257, n - 1), 0, 0);
      }
    } else {
      var p, digit: nat := Pow(257, n - 1), k[0] as int + 1;
      DivModUnique(Rank(k, n), p, digit, Rank(k[1..], n - 1));
      UnrankBack(k[1..], n - 1);
      assert [k[0]] + k[1..] == k;
    }
  }
}
