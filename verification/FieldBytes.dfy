// The verifier's byte arithmetic: numbers as big-endian bytes, worked on in
// place with carries and borrows.
module FieldBytes {
  import opened Encoding
  import opened Text

  /** The carry's step, weighed by its place. */
  lemma PlaceCarry(old_: Byte, new_: Byte, carryIn: nat, carryOut: nat, p: nat, low: nat, was: nat, d: nat)
    requires new_ + 256 * carryOut == old_ * 10 + carryIn && low + carryIn * p == was * 10 + d
    ensures (new_ * p + low) + carryOut * (256 * p) == (old_ * p + was) * 10 + d
  {
    assert (new_ + 256 * carryOut) * p == (old_ * 10 + carryIn) * p;
    assert (new_ + 256 * carryOut) * p == new_ * p + carryOut * (256 * p);
    assert (old_ * 10 + carryIn) * p == old_ * p * 10 + carryIn * p;
  }

  /** Multiply the number in `out` by ten and add a digit; what does not fit comes back. */
  method TimesTenPlus(out: array<Byte>, d: nat) returns (carry: nat)
    requires d < 10
    modifies out
    ensures FromBE(out[..]) + carry * Pow256(out.Length) == old(FromBE(out[..])) * 10 + d
  {
    carry := d;
    var j := out.Length;
    ghost var before := out[..];
    while j > 0
      invariant 0 <= j <= out.Length && carry < 10
      invariant out[..j] == before[..j]
      invariant FromBE(out[j..]) + carry * Pow256(out.Length - j) == FromBE(before[j..]) * 10 + d
    {
      ghost var tail, c := out[j..], carry;
      j := j - 1;
      var v := out[j] * 10 + carry;
      out[j] := v % 256;
      carry := v / 256;
      assert out[j..] == [out[j]] + tail && before[j..] == [before[j]] + before[j + 1..];
      FirstByte(out[j], tail);
      FirstByte(before[j], before[j + 1..]);
      PlaceCarry(before[j], out[j], c, carry, Pow256(|tail|), FromBE(tail), FromBE(before[j + 1..]), d);
    }
    assert out[0..] == out[..] && before[0..] == before;
  }

  predicate AllDigits(s: string) { forall c :: c in s ==> IsDigit(c) }

  lemma {:induction false} ZerosValue(b: Bytes)
    requires forall i :: 0 <= i < |b| ==> b[i] == 0
    ensures FromBE(b) == 0
  {
    if b != [] { ZerosValue(b[..|b| - 1]); }
  }

  lemma Overflowed(v: nat, k: nat, p: nat, n: nat, w: nat, carry: nat, d: nat)
    requires v + k * p == n && w + carry * p == v * 10 + d
    ensures w + (k * 10 + carry) * p == n * 10 + d
  {
    assert (k * 10 + carry) * p == k * p * 10 + carry * p;
  }

  lemma NothingLost(v: nat, k: nat, p: nat, n: nat)
    requires v + k * p == n < p
    ensures v == n
  {
    assert k > 0 ==> k * p >= p;
  }

  /** A decimal number as `n` big-endian bytes: exactly, whenever it fits. */
  method Dec(s: string, n: nat) returns (out: array<Byte>)
    requires AllDigits(s)
    ensures out.Length == n && fresh(out)
    ensures exists k: nat :: FromBE(out[..]) + k * Pow256(n) == Decimal(s)
    ensures Decimal(s) < Pow256(n) ==> FromBE(out[..]) == Decimal(s)
  {
    out := new Byte[n](_ => 0);
    ZerosValue(out[..]);
    ghost var k: nat := 0;
    for i := 0 to |s|
      invariant FromBE(out[..]) + k * Pow256(n) == Decimal(s[..i])
    {
      assert s[..i + 1][..i] == s[..i] && IsDigit(s[i]);
      ghost var was := FromBE(out[..]);
      var carry := TimesTenPlus(out, s[i] as int - '0' as int);
      Overflowed(was, k, Pow256(n), Decimal(s[..i]), FromBE(out[..]), carry, s[i] as int - '0' as int);
      k := k * 10 + carry;
    }
    assert s[..|s|] == s;
    if Decimal(s) < Pow256(n) { NothingLost(FromBE(out[..]), k, Pow256(n), Decimal(s)); }
  }

  lemma PlaceBorrow(q: Byte, y: Byte, o: Byte, borrowIn: nat, borrowOut: nat, p: nat, low: nat, lowY: nat, lowQ: nat)
    requires o + y + borrowIn == q + 256 * borrowOut && low + lowY == lowQ + borrowIn * p
    ensures (o * p + low) + (y * p + lowY) == (q * p + lowQ) + borrowOut * (256 * p)
  {
    assert (o + y + borrowIn) * p == (q + 256 * borrowOut) * p;
    assert (o + y + borrowIn) * p == o * p + y * p + borrowIn * p;
    assert (q + 256 * borrowOut) * p == q * p + borrowOut * (256 * p);
  }

  /** From byte `i` on, `tail` is the difference, with `borrow` owed to the bytes before. */
  ghost predicate SoFar(q: Bytes, y: Bytes, i: nat, tail: Bytes, borrow: nat)
    requires |q| == |y| == i + |tail|
  {
    FromBE(tail) + FromBE(y[i..]) == FromBE(q[i..]) + borrow * Pow256(|tail|)
  }

  /** Subtract byte by byte from the last, borrowing; say whether the whole had to borrow. */
  method Subtract(q: Bytes, y: Bytes) returns (out: Bytes, borrow: nat)
    requires |q| == |y|
    ensures |out| == |q| && borrow <= 1
    ensures FromBE(out) + FromBE(y) == FromBE(q) + borrow * Pow256(|q|)
  {
    var a := new Byte[|q|](_ => 0);
    borrow := 0;
    var i := |q|;
    while i > 0
      invariant 0 <= i <= |q| && 0 <= borrow <= 1
      invariant SoFar(q, y, i, a[i..], borrow)
    {
      ghost var tail, b := a[i..], borrow;
      i := i - 1;
      var v := q[i] - y[i] - borrow;
      if v < 0 {
        v := v + 256;
        borrow := 1;
      } else {
        borrow := 0;
      }
      a[i] := v;
      BorrowOn(q, y, i, a[i], tail, b, borrow);
      assert a[i..] == [a[i]] + tail;
    }
    assert a[0..] == a[..] && y[0..] == y && q[0..] == q;
    out := a[..];
  }

  lemma FirstOf(s: Bytes, i: nat)
    requires i < |s|
    ensures FromBE(s[i..]) == s[i] * Pow256(|s| - i - 1) + FromBE(s[i + 1..])
  {
    assert s[i..] == [s[i]] + s[i + 1..];
    FirstByte(s[i], s[i + 1..]);
  }

  /** One byte more of the subtraction. */
  lemma BorrowOn(q: Bytes, y: Bytes, i: nat, o: Byte, tail: Bytes, before: nat, after: nat)
    requires |q| == |y| == i + 1 + |tail| && o + y[i] + before == q[i] + 256 * after
    requires SoFar(q, y, i + 1, tail, before)
    ensures SoFar(q, y, i, [o] + tail, after)
  {
    FirstByte(o, tail);
    FirstOf(q, i);
    FirstOf(y, i);
    assert Pow256(|[o] + tail|) == 256 * Pow256(|tail|);
    PlaceBorrow(q[i], y[i], o, before, after, Pow256(|tail|), FromBE(tail), FromBE(y[i + 1..]), FromBE(q[i + 1..]));
  }

  lemma BorrowedIff(o: nat, y: nat, q: nat, borrow: nat, p: nat)
    requires o < p && y < p && borrow <= 1 && o + y == q + borrow * p
    ensures borrow == if y > q then 1 else 0
  {
  }

  /** `q - y` as the verifier takes it; zero stays zero. */
  method SubMod(q: Bytes, y: Bytes) returns (out: Bytes)
    requires |q| == |y|
    ensures |out| == |q|
    ensures FromBE(y) == 0 ==> FromBE(out) == 0
    ensures FromBE(y) > 0 ==> FromBE(out) + FromBE(y) == FromBE(q) + if FromBE(y) > FromBE(q) then Pow256(|q|) else 0
  {
    if forall i :: 0 <= i < |y| ==> y[i] == 0 {
      ZerosValue(y);
      return y;
    }
    NonZero(y);
    var borrow;
    out, borrow := Subtract(q, y);
    BorrowedIff(FromBE(out), FromBE(y), FromBE(q), borrow, Pow256(|q|));
  }

  lemma {:induction false} NonZero(y: Bytes)
    requires exists i :: 0 <= i < |y| && y[i] != 0
    ensures FromBE(y) > 0
  {
    if y[|y| - 1] == 0 {
      var i :| 0 <= i < |y| && y[i] != 0;
      var init := y[..|y| - 1];
      assert init[i] == y[i];
      NonZero(init);
    }
  }

  /** The negative of `y` modulo `q`. */
  predicate IsNegation(q: nat, y: nat, o: nat)
    requires q > 0
  {
    o < q && (o + y) % q == 0
  }

  lemma NegatesNumberIff(q: nat, y: nat, o: nat, p: nat)
    requires 0 < q && y < p && (y == 0 ==> o == 0) && (y > 0 ==> o + y == q + if y > q then p else 0)
    ensures IsNegation(q, y, o) <==> y <= q
  {
    if y <= q {
      assert o + y == 0 || o + y == q;
      assert q % q == 0 && 0 % q == 0;
    } else {
      assert o > q;
    }
  }

  /** The result negates `y` modulo `q` just when `y` is no larger than `q`. */
  lemma NegatesIff(q: Bytes, y: Bytes, out: Bytes)
    requires |q| == |y| && FromBE(q) > 0
    requires FromBE(y) == 0 ==> FromBE(out) == 0
    requires FromBE(y) > 0 ==> FromBE(out) + FromBE(y) == FromBE(q) + if FromBE(y) > FromBE(q) then Pow256(|q|) else 0
    ensures IsNegation(FromBE(q), FromBE(y), FromBE(out)) <==> FromBE(y) <= FromBE(q)
  {
    NegatesNumberIff(FromBE(q), FromBE(y), FromBE(out), Pow256(|q|));
  }

  // ---- A digest as public inputs ----

  function Reversed(b: Bytes): (r: Bytes)
    ensures |r| == |b|
  {
    if b == [] then [] else Reversed(b[1..]) + [b[0]]
  }

  /** A digest as two scalars, the low and the high half of the number it is backwards. */
  function Split(d: Word): (Word, Word) {
    var r := Reversed(d);
    (Zeros(16) + r[16..], Zeros(16) + r[..16])
  }

  lemma {:induction false} ReversedValue(b: Bytes)
    ensures FromBE(Reversed(b)) == FromLE(b)
  {
    if b != [] {
      ReversedValue(b[1..]);
      assert Reversed(b)[..|b| - 1] == Reversed(b[1..]);
    }
  }

  lemma {:induction false} Halves(a: Bytes, b: Bytes)
    ensures FromBE(a + b) == FromBE(a) * Pow256(|b|) + FromBE(b)
  {
    if b == [] {
      assert a + b == a;
    } else {
      var init, last := b[..|b| - 1], b[|b| - 1];
      Halves(a, init);
      assert (a + b)[..|a + b| - 1] == a + init;
      Distribute(FromBE(a), Pow256(|init|), FromBE(init), last);
    }
  }

  lemma PaddedValue(n: nat, b: Bytes)
    ensures FromBE(Zeros(n) + b) == FromBE(b)
  {
    Halves(Zeros(n), b);
    ZerosValue(Zeros(n));
  }

  /** The two scalars are the digest read as a little-endian number. */
  lemma SplitValue(d: Word)
    ensures FromBE(Split(d).0) < U128 && FromBE(Split(d).1) < U128
    ensures FromBE(Split(d).1) * U128 + FromBE(Split(d).0) == FromLE(d)
  {
    Widths();
    var r := Reversed(d);
    PaddedValue(16, r[16..]);
    PaddedValue(16, r[..16]);
    Halves(r[..16], r[16..]);
    assert r[..16] + r[16..] == r;
    ReversedValue(d);
  }
}
