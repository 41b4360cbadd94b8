// The key and target roots of a grant: binary trees of leaves whose pairs are
// hashed in sorted order, so a proof is only the sibling hashes.
module Merkle {
  import opened Encoding
  import opened Hashing

  /** A tree over the leaf contents a root commits to. */
  datatype Tree = Leaf(content: Bytes) | Branch(left: Tree, right: Tree)

  /** Lexicographic order of byte strings of one length. */
  predicate Le(a: Bytes, b: Bytes) {
    a == [] || b == [] || a[0] < b[0] || (a[0] == b[0] && Le(a[1..], b[1..]))
  }

  lemma {:induction false} LeTotal(a: Bytes, b: Bytes)
    requires |a| == |b|
    ensures Le(a, b) || Le(b, a)
    ensures Le(a, b) && Le(b, a) ==> a == b
  {
    if a != [] {
      LeTotal(a[1..], b[1..]);
      assert a == [a[0]] + a[1..] && b == [b[0]] + b[1..];
    }
  }

  /** The order of the bytes is the order of the numbers they write. */
  lemma {:induction false} LeIsOrder(a: Bytes, b: Bytes)
    requires |a| == |b|
    ensures Le(a, b) <==> FromBE(a) <= FromBE(b)
  {
    if a != [] {
      var x, y, p := FromBE(a[1..]), FromBE(b[1..]), Pow256(|a| - 1);
      assert a == [a[0]] + a[1..] && b == [b[0]] + b[1..];
      FirstByte(a[0], a[1..]);
      FirstByte(b[0], b[1..]);
      LeIsOrder(a[1..], b[1..]);
      Leading(a[0], x, b[0], y, p);
    }
  }

  lemma Leading(a: nat, x: nat, b: nat, y: nat, p: nat)
    requires x < p && y < p
    ensures a < b ==> a * p + x < b * p + y
    ensures a > b ==> a * p + x > b * p + y
  {
    if a < b { Outweighs(a, b, p); }
    if a > b { Outweighs(b, a, p); }
  }

  lemma {:induction false} Outweighs(a: nat, b: nat, p: nat)
    requires a < b
    ensures a * p + p <= b * p
    decreases b
  {
    assert b * p == (b - 1) * p + p;
    if a < b - 1 { Outweighs(a, b - 1, p); }
  }

  function LeafBytes(content: Bytes): Bytes { [0] + content }

  function PairBytes(a: Word, b: Word): Bytes {
    if Le(a, b) then [1] + a + b else [1] + b + a
  }

  lemma PairBytesSymmetric(a: Word, b: Word)
    ensures PairBytes(a, b) == PairBytes(b, a)
  {
    LeTotal(a, b);
  }

  /** Sorted pairs with equal bytes join the same two hashes. */
  lemma PairBytesParts(a: Word, b: Word, c: Word, d: Word)
    requires PairBytes(a, b) == PairBytes(c, d)
    ensures (a == c && b == d) || (a == d && b == c)
  {
    var (x, y) := if Le(a, b) then (a, b) else (b, a);
    var (z, w) := if Le(c, d) then (c, d) else (d, c);
    SplitEqual([1] + x, y, [1] + z, w);
    SplitEqual([1], x, [1], z);
  }

  function Root(h: Hash, t: Tree): Word {
    match t
    case Leaf(c) => h(LeafBytes(c))
    case Branch(l, r) => h(PairBytes(Root(h, l), Root(h, r)))
  }

  predicate IsLeaf(t: Tree, content: Bytes) {
    match t
    case Leaf(c) => c == content
    case Branch(l, r) => IsLeaf(l, content) || IsLeaf(r, content)
  }

  /** The hash `leaf` and its siblings give, nearest the leaf first. */
  function Fold(h: Hash, leaf: Word, proof: seq<Word>): Word {
    if proof == [] then leaf
    else h(PairBytes(Fold(h, leaf, proof[..|proof| - 1]), proof[|proof| - 1]))
  }

  method MerkleVerify(h: Hash, root: Word, leaf: Word, proof: seq<Word>) returns (ok: bool)
    ensures ok <==> Fold(h, leaf, proof) == root
  {
    var acc := leaf;
    for i := 0 to |proof|
      invariant acc == Fold(h, leaf, proof[..i])
    {
      assert proof[..i + 1][..i] == proof[..i];
      acc := if Le(acc, proof[i]) then h([1] + acc + proof[i]) else h([1] + proof[i] + acc);
    }
    assert proof[..|proof|] == proof;
    ok := acc == root;
  }

  /** `xs` holds what computing the root hashes. */
  ghost predicate TreeIn(h: Hash, t: Tree, xs: set<Bytes>) {
    match t
    case Leaf(c) => LeafBytes(c) in xs
    case Branch(l, r) => TreeIn(h, l, xs) && TreeIn(h, r, xs) && PairBytes(Root(h, l), Root(h, r)) in xs
  }

  /** `xs` holds what checking a proof hashes. */
  ghost predicate FoldIn(h: Hash, leaf: Word, proof: seq<Word>, xs: set<Bytes>) {
    proof != [] ==>
      && FoldIn(h, leaf, proof[..|proof| - 1], xs)
      && PairBytes(Fold(h, leaf, proof[..|proof| - 1]), proof[|proof| - 1]) in xs
  }

  /** An accepted proof is of a leaf of the tree, unless the hashed strings collide. */
  lemma {:induction false} AcceptedIsLeaf(h: Hash, t: Tree, content: Bytes, proof: seq<Word>, xs: set<Bytes>)
    requires Fold(h, h(LeafBytes(content)), proof) == Root(h, t)
    requires TreeIn(h, t, xs) && FoldIn(h, h(LeafBytes(content)), proof, xs) && LeafBytes(content) in xs
    ensures IsLeaf(t, content) || Collides(h, xs)
    decreases t
  {
    var leaf := h(LeafBytes(content));
    if !Collides(h, xs) {
      match t
      case Leaf(c) =>
        if proof == [] {
          SameHash(h, xs, LeafBytes(content), LeafBytes(c));
          SplitEqual([0], content, [0], c);
        } else {
          NotLeaf(Fold(h, leaf, proof[..|proof| - 1]), proof[|proof| - 1], c);
        }
      case Branch(l, r) =>
        if proof == [] {
          NotLeaf(Root(h, l), Root(h, r), content);
        } else {
          var below, last := proof[..|proof| - 1], proof[|proof| - 1];
          var acc := Fold(h, leaf, below);
          SameHash(h, xs, PairBytes(acc, last), PairBytes(Root(h, l), Root(h, r)));
          PairBytesParts(acc, last, Root(h, l), Root(h, r));
          if acc == Root(h, l) {
            AcceptedIsLeaf(h, l, content, below, xs);
          } else {
            AcceptedIsLeaf(h, r, content, below, xs);
          }
        }
    }
  }

  /** Leaves and pairs are hashed under different first bytes. */
  lemma NotLeaf(a: Word, b: Word, content: Bytes)
    ensures PairBytes(a, b) != LeafBytes(content)
  {
    assert PairBytes(a, b)[0] == 1 && LeafBytes(content)[0] == 0;
  }

  /** The sibling hashes of one of `content`'s leaves. */
  function ProofOf(h: Hash, t: Tree, content: Bytes): seq<Word>
    requires IsLeaf(t, content)
  {
    match t
    case Leaf(_) => []
    case Branch(l, r) =>
      if IsLeaf(l, content) then ProofOf(h, l, content) + [Root(h, r)] else ProofOf(h, r, content) + [Root(h, l)]
  }

  /** Every leaf has an accepted proof. */
  lemma {:induction false} LeafIsAccepted(h: Hash, t: Tree, content: Bytes)
    requires IsLeaf(t, content)
    ensures Fold(h, h(LeafBytes(content)), ProofOf(h, t, content)) == Root(h, t)
    decreases t
  {
    if t.Branch? {
      var proof := ProofOf(h, t, content);
      var below := proof[..|proof| - 1];
      if IsLeaf(t.left, content) {
        assert below == ProofOf(h, t.left, content);
        LeafIsAccepted(h, t.left, content);
      } else {
        assert below == ProofOf(h, t.right, content);
        LeafIsAccepted(h, t.right, content);
        PairBytesSymmetric(Root(h, t.left), Root(h, t.right));
      }
    }
  }

  // ---- The two kinds of leaf ----

  type PublicKey = k: Bytes | |k| == 65 witness seq(65, _ => 0)

  /** What the leaf of a key hashes: the key, then the operator it belongs to. */
  function KeyContent(key: PublicKey, operator: Bytes): Bytes { key + operator }

  lemma KeyContentInjective(k: PublicKey, o: Bytes, k': PublicKey, o': Bytes)
    requires KeyContent(k, o) == KeyContent(k', o')
    ensures k == k' && o == o'
  {
    SplitEqual(k, o, k', o');
  }

  /** A target leaf: target and function, each after its length as a u16 (a truncating cast). */
  function TargetContent(target: Bytes, selector: Bytes): Bytes {
    BE(2, |target| % 0x1_0000) + (target + (BE(2, |selector| % 0x1_0000) + selector))
  }

  /** Targets of representable length have distinct leaves. */
  lemma TargetContentInjective(t: Bytes, s: Bytes, t': Bytes, s': Bytes)
    requires |t| < 0x1_0000 && |t'| < 0x1_0000
    requires TargetContent(t, s) == TargetContent(t', s')
    ensures t == t' && s == s'
  {
    Widths();
    var a, a' := BE(2, |s| % 0x1_0000) + s, BE(2, |s'| % 0x1_0000) + s';
    PrefixedSplit(2, |t| % 0x1_0000, t, a, |t'| % 0x1_0000, t', a');
    SplitEqual(BE(2, |s| % 0x1_0000), s, BE(2, |s'| % 0x1_0000), s');
  }

  /** A target and function whose lengths fit share their leaf with no others, of whatever length. */
  lemma TargetContentPinned(t: Bytes, s: Bytes, t': Bytes, s': Bytes)
    requires |t| < 0x1_0000 && |s| < 0x1_0000 && TargetContent(t, s) == TargetContent(t', s')
    ensures t == t' && s == s'
  {
    ContentLength(t, s);
    ContentLength(t', s');
    SameTargetLength(t, s, t', s');
    SameLength(|t|, |s|, |t'|, |s'|);
    TargetContentInjective(t, s, t', s');
  }

  lemma SameTargetLength(t: Bytes, s: Bytes, t': Bytes, s': Bytes)
    requires TargetContent(t, s) == TargetContent(t', s')
    ensures |t| % 0x1_0000 == |t'| % 0x1_0000
  {
    Widths();
    var n, n' := |t| % 0x1_0000, |t'| % 0x1_0000;
    SplitEqual(BE(2, n), t + (BE(2, |s| % 0x1_0000) + s), BE(2, n'), t' + (BE(2, |s'| % 0x1_0000) + s'));
    BEInjective(2, n, n');
  }

  lemma ContentLength(t: Bytes, s: Bytes)
    ensures |TargetContent(t, s)| == 4 + |t| + |s|
  {
  }

  /** A target a multiple of 65536 bytes longer leaves too little for its function. */
  lemma SameLength(t: nat, s: nat, t': nat, s': nat)
    requires t < 0x1_0000 && s < 0x1_0000 && t == t' % 0x1_0000 && t + s == t' + s'
    ensures t == t'
  {
  }

  /** Targets of at most `n` bytes, with whatever functions, have distinct leaves. */
  ghost predicate TargetsApart(n: nat) {
    forall t, s, t', s' :: |t| <= n && |t'| <= n && TargetContent(t, s) == TargetContent(t', s') ==> t == t' && s == s'
  }

  /** One byte past that length the cast truncates, and a target shares its leaf with another. */
  lemma LongTargetsShareLeaf()
    ensures var long := Zeros(0x1_0000); TargetContent(long, []) == TargetContent([], long)
  {
    var n := 0x1_0000;
    var long := Zeros(n);
    assert n % 0x1_0000 == 0;
    var a, b := TargetContent(long, []), TargetContent([], long);
    assert BE(2, 0) == [0, 0] by { assert BE(1, 0) == [0]; }
    assert forall i :: 0 <= i < |a| ==> a[i] == 0;
    assert forall i :: 0 <= i < |b| ==> b[i] == 0;
    assert a == b;
  }

  /** So leaves tell targets apart exactly as long as their lengths fit 16 bits. */
  lemma TargetsApartIff(n: nat)
    ensures TargetsApart(n) <==> n < 0x1_0000
  {
    if n < 0x1_0000 {
      forall t, s, t', s' | |t| <= n && |t'| <= n && TargetContent(t, s) == TargetContent(t', s')
        ensures t == t' && s == s'
      {
        TargetContentInjective(t, s, t', s');
      }
    } else {
      LongTargetsShareLeaf();
      var long := Zeros(0x1_0000);
      assert |long| <= n && |long| > 0 && TargetContent(long, []) == TargetContent([], long);
    }
  }

  /** A target and the function on it. */
  datatype Target = Target(target: Bytes, selector: Bytes)

  /** The tree commits to these targets: each of its leaves is the leaf of one of them. */
  ghost predicate Commits(t: Tree, targets: set<Target>) {
    match t
    case Leaf(c) => exists x :: x in targets && c == TargetContent(x.target, x.selector)
    case Branch(l, r) => Commits(l, targets) && Commits(r, targets)
  }

  /** A target and function whose lengths fit, and whose leaf is in the tree, are a pair the tree commits to. */
  lemma {:induction false} LeafIsCommitted(t: Tree, targets: set<Target>, x: Target)
    requires Commits(t, targets) && IsLeaf(t, TargetContent(x.target, x.selector))
    requires |x.target| < 0x1_0000 && |x.selector| < 0x1_0000
    ensures x in targets
    decreases t
  {
    match t
    case Leaf(c) =>
      var y :| y in targets && c == TargetContent(y.target, y.selector);
      TargetContentPinned(x.target, x.selector, y.target, y.selector);
    case Branch(l, r) =>
      if IsLeaf(l, TargetContent(x.target, x.selector)) {
        LeafIsCommitted(l, targets, x);
      } else {
        LeafIsCommitted(r, targets, x);
      }
  }

  /** An accepted key proof is of exactly that key and operator. */
  lemma AcceptedKey(h: Hash, t: Tree, key: PublicKey, operator: Bytes, proof: seq<Word>, xs: set<Bytes>)
    requires Fold(h, h(LeafBytes(KeyContent(key, operator))), proof) == Root(h, t)
    requires TreeIn(h, t, xs) && FoldIn(h, h(LeafBytes(KeyContent(key, operator))), proof, xs)
    requires LeafBytes(KeyContent(key, operator)) in xs
    ensures Collides(h, xs) || (IsLeaf(t, KeyContent(key, operator))
      && forall k, o :: KeyContent(k, o) == KeyContent(key, operator) ==> k == key && o == operator)
  {
    AcceptedIsLeaf(h, t, KeyContent(key, operator), proof, xs);
    forall k: PublicKey, o: Bytes | KeyContent(k, o) == KeyContent(key, operator)
      ensures k == key && o == operator
    {
      KeyContentInjective(k, o, key, operator);
    }
  }
}
