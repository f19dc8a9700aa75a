/** Variable-length integers: seven bits a byte, least significant group first.  The unrolled decoder and the
    loop are both proved against one meaning of the bytes. */
module Varint {
  import opened Arith
  import opened Bytes

  /** The seven bits that a byte carries. */
  function Payload(b: Byte): (r: nat)
    ensures r < 128
  {
    if b < 128 then b else b - 128
  }

  /** The lowest group of a number, and the rest. */
  function Low(n: nat): (r: nat)
    ensures r < 128
  {
    n % 128
  }

  function Rest(n: nat): (r: nat)
    ensures n == Low(n) + 128 * r && (n >= 128 ==> r < n)
  {
    n / 128
  }

  function Base128(n: nat): (r: Bytes)
    ensures r != [] && r[|r| - 1] < 128
    ensures forall i :: 0 <= i < |r| - 1 ==> 128 <= r[i]
  {
    if n < 128 then [n] else [Low(n) + 128] + Base128(Rest(n))
  }

  function BitWidth(n: nat): nat {
    if n == 0 then 0 else 1 + BitWidth(n / 2)
  }

  /** The predicted length, from the bit width. */
  function Length(n: nat): nat {
    if n == 0 then 1 else (BitWidth(n) + 6) / 7
  }

  lemma {:induction false} SevenBits(n: nat)
    requires 128 <= n
    ensures BitWidth(n) == BitWidth(n / 128) + 7
  {
    var n2, n3, n4, n5, n6 := n / 2, n / 4, n / 8, n / 16, n / 32;
    assert n2 / 2 == n3 && n3 / 2 == n4 && n4 / 2 == n5 && n5 / 2 == n6;
    assert n6 / 2 == n / 64 && n / 64 / 2 == n / 128;
    assert BitWidth(n) == 2 + BitWidth(n3);
    assert BitWidth(n3) == 2 + BitWidth(n5);
    assert BitWidth(n5) == 2 + BitWidth(n / 64);
  }

  lemma {:induction false} SmallWidth(n: nat)
    requires 0 < n < 128
    ensures 1 <= BitWidth(n) <= 7
  {
    var n3, n5 := n / 4, n / 16;
    assert n / 2 / 2 == n3 && n3 / 2 / 2 == n5 && n5 / 2 / 2 == n / 64;
    assert n3 > 0 ==> BitWidth(n) == 2 + BitWidth(n3);
    assert n5 > 0 ==> BitWidth(n3) == 2 + BitWidth(n5);
    assert n / 64 > 0 ==> BitWidth(n5) == 2 + BitWidth(n / 64);
  }

  /** Every predicted length is the length written. */
  lemma {:induction false} LengthIsExact(n: nat)
    ensures |Base128(n)| == Length(n)
  {
    if n >= 128 {
      SevenBits(n);
      LengthIsExact(n / 128);
    } else if n > 0 {
      SmallWidth(n);
    }
  }

  lemma {:induction false} LengthBound(n: nat, k: nat)
    requires n < Pow(128, k) && k > 0
    ensures |Base128(n)| <= k
  {
    if n >= 128 {
      assert k > 1 by {
        assert Pow(128, 1) == 128 * Pow(128, 0);
      }
      LengthBound(n / 128, k - 1);
    }
  }

  /** The next byte of an encoding, and what is left of it. */
  lemma {:induction false} EncodesOn(enc: Bytes, i: nat, v: nat)
    requires i < |enc| && enc[i..] == Base128(v)
    ensures v >= 128 ==> enc[i] == Low(v) + 128 && i + 1 < |enc| && enc[i + 1..] == Base128(Rest(v))
    ensures v < 128 ==> enc[i] == v && i + 1 == |enc|
  {
    hide Low, Rest;
    assert enc[i] == Base128(v)[0] && enc[i + 1..] == Base128(v)[1..];
  }

  /** Encode in place; the bytes around the integer are untouched. */
  method Encode(value: nat, a: array<Byte>, at: nat) returns (next: nat)
    requires at + |Base128(value)| <= a.Length
    modifies a
    ensures next == at + |Base128(value)| && Patched(old(a[..]), a[..], at, Base128(value))
  {
    hide Patched, Low, Rest, Base128;
    ghost var before, enc := a[..], Base128(value);
    var v := value;
    next := at;
    PatchNothing(before, at);
    while v >= 128
      invariant at <= next < at + |enc| && enc[next - at..] == Base128(v)
      invariant Patched(before, a[..], at, enc[..next - at])
      decreases v
    {
      EncodesOn(enc, next - at, v);
      next := PutByte(a, next, Low(v) + 128, before, at, enc);
      v := Rest(v);
    }
    EncodesOn(enc, next - at, v);
    next := PutByte(a, next, v, before, at, enc);
    assert enc[..next - at] == enc;
  }

  method PutByte(a: array<Byte>, at: nat, b: Byte, ghost before: Bytes, ghost start: nat, ghost enc: Bytes) returns (next: nat)
    requires start <= at < start + |enc| && at < a.Length && enc[at - start] == b && Patched(before, a[..], start, enc[..at - start])
    modifies a
    ensures next == at + 1 && Patched(before, a[..], start, enc[..next - start])
  {
    ghost var y := a[..];
    a[at] := b;
    next := at + 1;
    PatchByte(before, y, a[..], start, enc[..at - start], b);
    assert enc[..next - start] == enc[..at - start] + [b];
  }

  /** The number that the first `n` groups of `data` stand for. */
  function Value(data: Bytes, n: nat): nat
    requires n <= |data|
  {
    if n == 0 then 0 else Payload(data[0]) + 128 * Value(data[1..], n - 1)
  }

  function Shl(c: nat, k: nat): nat {
    c * Pow2(k)
  }

  lemma {:induction false} ShlSeven(c: nat, k: nat)
    ensures Shl(c, k + 7) == 128 * Shl(c, k) && Shl(c, 0) == c
  {
    Pow2Adds(7, k);
    assert Pow2(7) == 128;
    assert c * (128 * Pow2(k)) == 128 * (c * Pow2(k));
  }

  /** Adding the next group, shifted behind those before it. */
  lemma {:induction false} NextGroup(data: Bytes, n: nat)
    requires n < |data|
    ensures Value(data, n + 1) == Value(data, n) + Shl(Payload(data[n]), 7 * n)
  {
    hide Shl, Payload;
    if n == 0 {
      assert Value(data[1..], 0) == 0;
      ShlSeven(Payload(data[0]), 0);
    } else {
      NextGroup(data[1..], n - 1);
      ShlSeven(Payload(data[n]), 7 * (n - 1));
    }
  }

  /** The first byte without continuation bit is the `n`-th. */
  predicate Ends(data: Bytes, n: nat) {
    && 0 < n <= |data|
    && data[n - 1] < 128
    && forall i :: 0 <= i < n - 1 ==> 128 <= data[i]
  }

  datatype Decoded = Number(value: nat, size: nat) | TooFew | TooMany

  /** The number of groups up to the first byte without continuation bit, 0 if there is none. */
  function Groups(data: Bytes): (n: nat)
    ensures n > 0 ==> Ends(data, n)
    ensures n == 0 ==> forall i :: 0 <= i < |data| ==> 128 <= data[i]
  {
    if data == [] then 0
    else if data[0] < 128 then 1
    else
      var n := Groups(data[1..]);
      assert n > 0 ==> forall i :: 1 <= i < n ==> data[i] == data[1..][i - 1];
      if n == 0 then 0 else n + 1
  }

  /** What a decoder reads from the front of `data`: the first ten groups at most, cut to 64 bits. */
  function Read(data: Bytes): Decoded {
    var n := Groups(data);
    if 0 < n <= 10 then Number(Value(data, n) % TWO_64, n)
    else if |data| < 10 then TooFew
    else TooMany
  }

  lemma {:induction false} EndsHere(data: Bytes, n: nat)
    requires Ends(data, n)
    ensures Groups(data) == n
  {
  }

  lemma {:induction false} NoEnd(data: Bytes, n: nat)
    requires n <= |data| && forall i :: 0 <= i < n ==> 128 <= data[i]
    ensures Groups(data) == 0 || n < Groups(data)
  {
  }

  lemma {:induction false} GroupBound(data: Bytes, n: nat)
    requires n <= |data|
    ensures Value(data, n) < Pow2(7 * n)
  {
    if n > 0 {
      GroupBound(data[1..], n - 1);
      Pow2Adds(7, 7 * (n - 1));
      assert Pow2(7) == 128;
    }
  }

  lemma {:induction false} Fits64(data: Bytes, n: nat)
    requires n <= |data| && n <= 9
    ensures Value(data, n) < TWO_63
    ensures Value(data, n) % TWO_64 == Value(data, n)
  {
    GroupBound(data, n);
    WordSizes(63, 64);
    Pow2Grows(7 * n, 63);
  }

  /** The tenth group has room for one bit. */
  lemma {:induction false} TenthBit(v: nat, c: nat, q: nat, r: nat)
    requires v < TWO_63 && c == 2 * q + r && r < 2
    ensures (v + c * TWO_63) % TWO_64 == v + r * TWO_63
  {
    DivModUnique(v + c * TWO_63, TWO_64, q, v + r * TWO_63);
  }

  /** All ten groups, cut to 64 bits. */
  lemma {:induction false} TenGroups(data: Bytes)
    requires 10 <= |data|
    ensures Value(data, 10) % TWO_64 == Value(data, 9) + data[9] % 2 * TWO_63
  {
    hide Pow2, Value, Payload;
    var c := Payload(data[9]);
    NextGroup(data, 9);
    Fits64(data, 9);
    WordSizes(63, 64);
    LowBit(data[9]);
    TenthBit(Value(data, 9), c, c / 2, c % 2);
  }

  lemma {:induction false} LowBit(b: Byte)
    ensures Payload(b) % 2 == b % 2
  {
  }

  /** Ten or more bytes: the unrolled groups, the last of which contributes only bit 63. */
  method DecodeFast(data: Bytes) returns (r: Decoded)
    requires 10 <= |data|
    ensures r == Read(data)
  {
    hide Shl, Payload, Value, Groups;
    ValueOfNone(data);
    var val, p := 0, 0;
    while p < 9
      invariant p <= 9 && val == Value(data, p)
      invariant forall i :: 0 <= i < p ==> 128 <= data[i]
    {
      var b := data[p];
      NextGroup(data, p);
      val := val + Shl(Payload(b), 7 * p);
      p := p + 1;
      if b < 128 {
        Fits64(data, p);
        EndsHere(data, p);
        return Number(val, p);
      }
    }
    TenGroups(data);
    val := val + data[9] % 2 * TWO_63;
    NoEnd(data, if data[9] < 128 then 9 else 10);
    if data[9] < 128 {
      EndsHere(data, 10);
      return Number(val, 10);
    }
    return TooMany;
  }

  lemma {:induction false} ValueOfNone(data: Bytes)
    ensures Value(data, 0) == 0
  {
  }

  /** Fewer bytes: a bounded loop. */
  method DecodeSlow(data: Bytes) returns (r: Decoded)
    requires |data| < 10
    ensures r == Read(data)
  {
    hide Shl, Value, Groups;
    ValueOfNone(data);
    var val, p, shift := 0, 0, 0;
    while p < |data| && 128 <= data[p]
      invariant p <= |data| && val == Value(data, p) && shift == 7 * p
      invariant forall i :: 0 <= i < p ==> 128 <= data[i]
    {
      NextGroup(data, p);
      val := val + Shl(Payload(data[p]), shift);
      p := p + 1;
      shift := shift + 7;
    }
    NoEnd(data, p);
    if p == |data| {
      return TooFew;
    }
    NextGroup(data, p);
    val := val + Shl(data[p], shift);
    Fits64(data, p + 1);
    EndsHere(data, p + 1);
    return Number(val, p + 1);
  }

  method TryDecode(data: Bytes) returns (r: Decoded)
    ensures r == Read(data)
  {
    if 10 <= |data| {
      r := DecodeFast(data);
    } else {
      r := DecodeSlow(data);
    }
  }

  lemma {:induction false} ValueOfVarint(n: nat, rest: Bytes)
    ensures Ends(Base128(n) + rest, |Base128(n)|)
    ensures Value(Base128(n) + rest, |Base128(n)|) == n
  {
    hide Low, Rest;
    var data := Base128(n) + rest;
    if n >= 128 {
      ValueOfVarint(Rest(n), rest);
      assert data[1..] == Base128(Rest(n)) + rest;
      EndsLater(data, |Base128(Rest(n))|);
    } else {
      assert Value(data[1..], 0) == 0;
    }
  }

  lemma {:induction false} EndsLater(data: Bytes, n: nat)
    requires data != [] && 128 <= data[0] && Ends(data[1..], n)
    ensures Ends(data, n + 1)
  {
    assert forall i :: 1 <= i < |data| ==> data[i] == data[1..][i - 1];
  }

  /** Whatever follows an encoded integer, and whichever path decodes it, the integer comes back. */
  lemma {:induction false} RoundTrip(n: nat, rest: Bytes)
    requires n < TWO_64
    ensures Read(Base128(n) + rest) == Number(n, |Base128(n)|)
  {
    var data, k := Base128(n) + rest, |Base128(n)|;
    ValueOfVarint(n, rest);
    EndsHere(data, k);
    TenBytes(n);
    assert Value(data, k) == n;
    DivModUnique(n, TWO_64, 0, n);
  }

  lemma {:induction false} TenBytes(n: nat)
    requires n < TWO_64
    ensures |Base128(n)| <= 10
  {
    WordSizes(63, 64);
    Pow2Grows(64, 70);
    Pow7(10);
    LengthBound(n, 10);
  }

  lemma {:induction false} Pow7(k: nat)
    ensures Pow2(7 * k) == Pow(128, k)
  {
    if k > 0 {
      Pow7(k - 1);
      Pow2Adds(7, 7 * (k - 1));
      assert Pow2(7) == 128;
    }
  }
}
