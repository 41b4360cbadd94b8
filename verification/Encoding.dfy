// Bytes, 32-byte words and fixed-width integers: the vocabulary every
// contract of the repository reads and writes.
module Encoding {
  type Byte = x: int | 0 <= x < 256

  type Bytes = seq<Byte>

  /** A 32-byte word. */
  type Word = w: Bytes | |w| == 32 witness seq(32, _ => 0)

  /** The all-zero word: an empty subtree, an unset root, no payload hash. */
  const ZERO: Word := Zeros(WORD_LEN)

  const WORD_LEN: nat := 32

  function Zeros(n: nat): (b: Bytes)
    ensures |b| == n && forall i :: 0 <= i < n ==> b[i] == 0
  {
    if n == 0 then [] else Zeros(n - 1) + [0]
  }

  datatype Option<+T> = None | Some(value: T)

  datatype Result<+T, +E> = Ok(value: T) | Err(error: E)

  const U32: nat := 0x1_0000_0000
  const U64: nat := 0x1_0000_0000_0000_0000
  const U128: nat := 0x1_0000_0000_0000_0000_0000_0000_0000_0000

  /** 256 to the power `n`: the number of values `n` bytes can carry. */
  function Pow256(n: nat): (p: nat)
    ensures p > 0
  {
    if n == 0 then 1 else 256 * Pow256(n - 1)
  }

  /** `v` as `n` big-endian bytes (its low `n` bytes, as a truncating cast keeps). */
  function BE(n: nat, v: nat): (b: Bytes)
    ensures |b| == n
  {
    if n == 0 then [] else BE(n - 1, v / 256) + [v % 256]
  }

  function FromBE(b: Bytes): (v: nat)
    ensures v < Pow256(|b|)
  {
    if b == [] then 0 else FromBE(b[..|b| - 1]) * 256 + b[|b| - 1]
  }

  /** The first byte of a number weighs most. */
  lemma {:induction false} FirstByte(x: Byte, s: Bytes)
    ensures FromBE([x] + s) == x * Pow256(|s|) + FromBE(s)
  {
    if s == [] {
      assert ([x] + s)[..0] == [];
    } else {
      var init, last := s[..|s| - 1], s[|s| - 1];
      assert ([x] + s)[..|s|] == [x] + init;
      FirstByte(x, init);
      Distribute(x, Pow256(|init|), FromBE(init), last);
    }
  }

  lemma Distribute(x: int, p: int, v: int, last: int)
    ensures (x * p + v) * 256 + last == x * (256 * p) + (v * 256 + last)
  {
  }

  /** `v` as `n` little-endian bytes. */
  function LE(n: nat, v: nat): (b: Bytes)
    ensures |b| == n
  {
    if n == 0 then [] else [v % 256] + LE(n - 1, v / 256)
  }

  function FromLE(b: Bytes): (v: nat)
    ensures v < Pow256(|b|)
  {
    if b == [] then 0 else b[0] + 256 * FromLE(b[1..])
  }

  /** Reading back what was written loses exactly the bits that do not fit. */
  lemma {:induction false} BERoundTrip(n: nat, v: nat)
    requires v < Pow256(n)
    ensures FromBE(BE(n, v)) == v
  {
    if n > 0 {
      BERoundTrip(n - 1, v / 256);
      assert BE(n, v)[..n - 1] == BE(n - 1, v / 256);
    }
  }

  lemma {:induction false} FromBERoundTrip(b: Bytes)
    ensures BE(|b|, FromBE(b)) == b
  {
    if b != [] {
      FromBERoundTrip(b[..|b| - 1]);
    }
  }

  lemma {:induction false} LERoundTrip(n: nat, v: nat)
    requires v < Pow256(n)
    ensures FromLE(LE(n, v)) == v
  {
    if n > 0 {
      LERoundTrip(n - 1, v / 256);
    }
  }

  /** Distinct values that fit have distinct encodings. */
  lemma BEInjective(n: nat, v: nat, w: nat)
    requires v < Pow256(n) && w < Pow256(n)
    requires BE(n, v) == BE(n, w)
    ensures v == w
  {
    BERoundTrip(n, v);
    BERoundTrip(n, w);
  }

  lemma Widths()
    ensures Pow256(1) == 256
    ensures Pow256(2) == 0x1_0000
    ensures Pow256(4) == U32
    ensures Pow256(8) == U64
    ensures Pow256(16) == U128
  {
    assert Pow256(3) == 256 * Pow256(2);
    assert Pow256(5) == 256 * Pow256(4);
    assert Pow256(6) == 256 * Pow256(5);
    assert Pow256(7) == 256 * Pow256(6);
    assert Pow256(9) == 256 * Pow256(8);
    assert Pow256(10) == 256 * Pow256(9);
    assert Pow256(11) == 256 * Pow256(10);
    assert Pow256(12) == 256 * Pow256(11);
    assert Pow256(13) == 256 * Pow256(12);
    assert Pow256(14) == 256 * Pow256(13);
    assert Pow256(15) == 256 * Pow256(14);
  }

  /** A length-prefixed string is told apart from what follows it. */
  lemma PrefixedSplit(k: nat, n: nat, x: Bytes, r: Bytes, n': nat, x': Bytes, r': Bytes)
    requires n == |x| < Pow256(k) && n' == |x'| < Pow256(k)
    requires BE(k, n) + (x + r) == BE(k, n') + (x' + r')
    ensures x == x' && r == r'
  {
    SplitEqual(BE(k, n), x + r, BE(k, n'), x' + r');
    BEInjective(k, n, n');
    SplitEqual(x, r, x', r');
  }

  lemma Cut(b: Bytes, i: nat, j: nat)
    requires i <= j <= |b|
    ensures b == b[..i] + b[i..j] + b[j..]
  {
  }

  /** The bytes of a text. */
  function Ascii(s: string): (b: Bytes)
    ensures |b| == |s|
  {
    if s == "" then [] else Ascii(s[..|s| - 1]) + [s[|s| - 1] as int % 256]
  }

  lemma {:induction false} AsciiAt(s: string, i: nat)
    requires i < |s|
    ensures Ascii(s)[i] == s[i] as int % 256
    decreases |s|
  {
    if i < |s| - 1 {
      AsciiAt(s[..|s| - 1], i);
    }
  }

  /** A lower-case hexadecimal digit. */
  function HexDigit(n: nat): Byte
    requires n < 16
  {
    if n < 10 then 48 + n else 87 + n
  }

  /** `b` in lower-case hexadecimal. */
  function Hex(b: Bytes): (s: Bytes)
    ensures |s| == 2 * |b|
  {
    if b == [] then [] else [HexDigit(b[0] / 16), HexDigit(b[0] % 16)] + Hex(b[1..])
  }

  lemma {:induction false} HexInjective(a: Bytes, b: Bytes)
    requires Hex(a) == Hex(b)
    ensures a == b
  {
    assert |a| == |b|;
    if a != [] {
      var x, y := Hex(a), Hex(b);
      assert x[0] == y[0] && x[1] == y[1];
      assert x[2..] == Hex(a[1..]) && y[2..] == Hex(b[1..]);
      HexInjective(a[1..], b[1..]);
      assert a == [a[0]] + a[1..] && b == [b[0]] + b[1..];
    }
  }

  /** Equal concatenations whose first parts are equally long have equal parts. */
  lemma SplitEqual<T>(a: seq<T>, b: seq<T>, c: seq<T>, d: seq<T>)
    requires |a| == |c| && a + b == c + d
    ensures a == c && b == d
  {
    assert (a + b)[..|a|] == a && (c + d)[..|a|] == c;
    assert (a + b)[|a|..] == b && (c + d)[|a|..] == d;
  }
}

// Hash functions as the contracts use them: an arbitrary function into words.
// Nothing is assumed about it. A result that needs it to be collision free
// says instead which byte strings, all of them hashed by the runs in
// question, would witness the failure.
module Hashing {
  import opened Encoding

  type Hash = Bytes -> Word

  ghost predicate Collides(h: Hash, xs: set<Bytes>) {
    exists a, b :: a in xs && b in xs && a != b && h(a) == h(b)
  }

  ghost predicate HitsZero(h: Hash, xs: set<Bytes>) {
    exists a :: a in xs && h(a) == ZERO
  }

  /** Two of the strings `xs` collide, or one hashes to the empty word. */
  ghost predicate Broken(h: Hash, xs: set<Bytes>) {
    Collides(h, xs) || HitsZero(h, xs)
  }

  /** Two strings of `xs` with one hash are one string, unless `xs` collides. */
  lemma SameHash(h: Hash, xs: set<Bytes>, a: Bytes, b: Bytes)
    requires a in xs && b in xs && h(a) == h(b)
    ensures a == b || Collides(h, xs)
  {
  }
}
