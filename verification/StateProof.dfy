// The checker of state proofs that every contract trusting a Tenzro state
// root goes through. A tree key names a stem of 31 bytes, read as 248 turns left
// or right, and a slot under it; a proof gives the hashes to the side of that
// path, and what is found at its end.
module StateProof {
  import opened Encoding
  import opened Hashing

  const STEM_LEN: nat := 31
  const STEM_BITS: nat := 248
  const SLOT_LEVELS: nat := 8

  type Stem = s: Bytes | |s| == STEM_LEN witness seq(31, _ => 0)

  /** Where a proof's path ends. */
  datatype Terminal =
    | EmptySubtree
    | OtherStem(stem: Stem, slotsRoot: Word)
    | OwnStem(slotSiblings: seq<Word>)

  datatype Proof = Proof(siblings: seq<Word>, terminal: Terminal)

  /** The proofs the binary form can carry. */
  predicate Encodable(p: Proof) {
    |p.siblings| <= STEM_BITS && (p.terminal.OwnStem? ==> |p.terminal.slotSiblings| == SLOT_LEVELS)
  }

  // ---- The binary form ----

  function Flatten(ws: seq<Word>): (b: Bytes)
    ensures |b| == 32 * |ws|
  {
    if ws == [] then [] else ws[0] + Flatten(ws[1..])
  }

  /** The whole words of `b`. */
  function WordsOf(b: Bytes): (ws: seq<Word>)
    ensures 32 * |ws| <= |b| < 32 * |ws| + 32
  {
    if |b| < 32 then [] else [b[..32]] + WordsOf(b[32..])
  }

  lemma {:induction false} WordsFlatten(ws: seq<Word>)
    ensures WordsOf(Flatten(ws)) == ws
  {
    if ws != [] {
      WordsFlatten(ws[1..]);
      assert Flatten(ws)[..32] == ws[0] && Flatten(ws)[32..] == Flatten(ws[1..]);
    }
  }

  lemma {:induction false} FlattenWords(b: Bytes)
    requires |b| == 32 * |WordsOf(b)|
    ensures Flatten(WordsOf(b)) == b
  {
    if b != [] {
      FlattenWords(b[32..]);
      assert WordsOf(b)[1..] == WordsOf(b[32..]);
    }
  }

  function EncodeTerminal(t: Terminal): Bytes {
    match t
    case EmptySubtree => [0]
    case OtherStem(stem, slotsRoot) => [1] + stem + slotsRoot
    case OwnStem(sibs) => [2] + Flatten(sibs)
  }

  function Encode(p: Proof): Bytes {
    BE(2, |p.siblings|) + Flatten(p.siblings) + EncodeTerminal(p.terminal)
  }

  function DecodeTerminal(b: Bytes): Option<Terminal> {
    if b == [] then None
    else if b[0] == 0 && |b| == 1 then Some(EmptySubtree)
    else if b[0] == 1 && |b| == 1 + STEM_LEN + 32 then Some(OtherStem(b[1..32], b[32..]))
    else if b[0] == 2 && |b| == 1 + 32 * SLOT_LEVELS then Some(OwnStem(WordsOf(b[1..])))
    else None
  }

  function Decode(b: Bytes): (r: Option<Proof>)
    ensures r.Some? ==> Encodable(r.value)
  {
    if |b| < 2 then None else
    var depth := FromBE(b[..2]);
    if depth > STEM_BITS || |b| < 2 + 32 * depth then None else
    match DecodeTerminal(b[2 + 32 * depth..])
    case None => None
    case Some(t) => Some(Proof(WordsOf(b[2..2 + 32 * depth]), t))
  }

  lemma TerminalRoundTrip(t: Terminal)
    requires t.OwnStem? ==> |t.slotSiblings| == SLOT_LEVELS
    ensures DecodeTerminal(EncodeTerminal(t)) == Some(t)
  {
    match t
    case EmptySubtree =>
    case OtherStem(stem, slotsRoot) =>
      var b := [1] + stem + slotsRoot;
      assert b[1..32] == stem && b[32..] == slotsRoot;
    case OwnStem(sibs) =>
      WordsFlatten(sibs);
      assert ([2] + Flatten(sibs))[1..] == Flatten(sibs);
  }

  /** Every proof is read back from its binary form. */
  lemma DecodeEncode(p: Proof)
    requires Encodable(p)
    ensures Decode(Encode(p)) == Some(p)
  {
    var n, t := |p.siblings|, EncodeTerminal(p.terminal);
    var head, body := BE(2, n), Flatten(p.siblings);
    Widths();
    BERoundTrip(2, n);
    WordsFlatten(p.siblings);
    TerminalRoundTrip(p.terminal);
    Sections(head, body, t);
  }

  lemma Sections(a: Bytes, b: Bytes, c: Bytes)
    ensures (a + b + c)[..|a|] == a && (a + b + c)[|a|..|a| + |b|] == b && (a + b + c)[|a| + |b|..] == c
  {
  }

  /** An accepted byte string is the one encoding of what it decodes to. */
  lemma EncodeDecode(b: Bytes)
    requires Decode(b).Some?
    ensures Encode(Decode(b).value) == b
  {
    var depth := FromBE(b[..2]);
    var rest := b[2 + 32 * depth..];
    FromBERoundTrip(b[..2]);
    FlattenWords(b[2..2 + 32 * depth]);
    TerminalCanonical(rest);
    Cut(b, 2, 2 + 32 * depth);
  }

  lemma TerminalCanonical(b: Bytes)
    requires DecodeTerminal(b).Some?
    ensures EncodeTerminal(DecodeTerminal(b).value) == b
  {
    if b[0] == 1 {
      assert b == [1] + b[1..32] + b[32..];
    } else if b[0] == 2 {
      FlattenWords(b[1..]);
    }
  }

  // ---- What an accepted proof computes ----

  /** `x` shifted right by `k` bits: also the index of a slot's ancestor `k` levels up. */
  function Up(x: nat, k: nat): nat {
    if k == 0 then x else Up(x, k - 1) / 2
  }

  /** Bit `d` of a stem, most significant first. */
  function Bit(stem: Stem, d: nat): (r: nat)
    requires d < STEM_BITS
    ensures r < 2
  {
    Up(stem[d / 8], 7 - d % 8) % 2
  }

  function LeafHash(h: Hash, value: Option<Bytes>): Word {
    match value
    case None => ZERO
    case Some(v) => h([0] + v)
  }

  function NodeBytes(l: Word, r: Word): Bytes { [1] + l + r }

  function StemBytes(stem: Stem, slotsRoot: Word): Bytes { [2] + stem + slotsRoot }

  function PairBytes(l: Word, r: Word): Bytes { [3] + l + r }

  function SlotPair(h: Hash, l: Word, r: Word): Word {
    if l == ZERO && r == ZERO then ZERO else h(PairBytes(l, r))
  }

  /** One step up from level `k`: the ancestor's index says which child `acc` is. */
  function SlotJoin(h: Hash, slot: nat, k: nat, acc: Word, sib: Word): Word {
    if Up(slot, k) % 2 == 0 then SlotPair(h, acc, sib) else SlotPair(h, sib, acc)
  }

  /** The slots hash `k` levels above `slot`. */
  function SlotAcc(h: Hash, slot: nat, leaf: Word, sibs: seq<Word>, k: nat): Word
    requires k <= |sibs|
  {
    if k == 0 then leaf else SlotJoin(h, slot, k - 1, SlotAcc(h, slot, leaf, sibs, k - 1), sibs[k - 1])
  }

  /** What the path's node at depth `d` hashes: the stem's bit says which child `acc` is. */
  function PathNode(stem: Stem, d: nat, acc: Word, sib: Word): Bytes
    requires d < STEM_BITS
  {
    if Bit(stem, d) == 0 then NodeBytes(acc, sib) else NodeBytes(sib, acc)
  }

  /** The hash a path ending in `end` gives its ancestor at depth `d`. */
  function PathAcc(h: Hash, stem: Stem, sibs: seq<Word>, end: Word, d: nat): Word
    requires d <= |sibs| <= STEM_BITS
    decreases |sibs| - d
  {
    if d == |sibs| then end else h(PathNode(stem, d, PathAcc(h, stem, sibs, end, d + 1), sibs[d]))
  }

  predicate SharePrefix(a: Stem, b: Stem, d: nat)
    requires d <= STEM_BITS
  {
    forall i :: 0 <= i < d ==> Bit(a, i) == Bit(b, i)
  }

  const TREE_KEY_DOMAIN: Bytes := Ascii("tenzro.state-trie.key")

  /** Where an entry of a namespace is in the trie. */
  function TreeKey(h: Hash, namespace: Bytes, key: Bytes): Word {
    h(TREE_KEY_DOMAIN + LE(2, |namespace| % 0x1_0000) + namespace + key)
  }

  function StemOf(tk: Word): Stem { tk[..STEM_LEN] }

  function SlotOf(tk: Word): Byte { tk[STEM_LEN] }

  /** The hash a terminal stands for, if it can end the path of `tk` with `value`. */
  function EndHash(h: Hash, tk: Word, value: Option<Bytes>, depth: nat, t: Terminal): Option<Word>
    requires depth <= STEM_BITS && (t.OwnStem? ==> |t.slotSiblings| == SLOT_LEVELS)
  {
    match t
    case EmptySubtree => if value.Some? then None else Some(ZERO)
    case OtherStem(other, slotsRoot) =>
      if value.Some? || other == StemOf(tk) || !SharePrefix(other, StemOf(tk), depth) then None
      else Some(h(StemBytes(other, slotsRoot)))
    case OwnStem(sibs) =>
      var s := SlotAcc(h, SlotOf(tk), LeafHash(h, value), sibs, |sibs|);
      if s == ZERO then None else Some(h(StemBytes(StemOf(tk), s)))
  }

  function TerminalHash(h: Hash, tk: Word, value: Option<Bytes>, p: Proof): Option<Word>
    requires Encodable(p)
  {
    EndHash(h, tk, value, |p.siblings|, p.terminal)
  }

  predicate Accepts(h: Hash, root: Word, tk: Word, value: Option<Bytes>, p: Proof)
    requires Encodable(p)
  {
    var end := TerminalHash(h, tk, value, p);
    end.Some? && PathAcc(h, StemOf(tk), p.siblings, end.value, 0) == root
  }

  /** The bytes `proof` prove `value` (or absence) of `tk` under `root`. */
  predicate Proves(h: Hash, root: Word, tk: Word, value: Option<Bytes>, proof: Bytes) {
    var p := Decode(proof);
    p.Some? && Accepts(h, root, tk, value, p.value)
  }

  /** The slot loop: from the leaf up its siblings. */
  method FoldSlots(h: Hash, slot: Byte, leaf: Word, sibs: seq<Word>) returns (s: Word)
    ensures s == SlotAcc(h, slot, leaf, sibs, |sibs|)
  {
    s := leaf;
    var index: nat := slot;
    for i := 0 to |sibs|
      invariant index == Up(slot, i)
      invariant s == SlotAcc(h, slot, leaf, sibs, i)
    {
      s := if index % 2 == 0 then SlotPair(h, s, sibs[i]) else SlotPair(h, sibs[i], s);
      index := index / 2;
    }
  }

  /** The path loop: from the terminal's hash up to the root. */
  method FoldPath(h: Hash, stem: Stem, sibs: seq<Word>, end: Word) returns (acc: Word)
    requires |sibs| <= STEM_BITS
    ensures acc == PathAcc(h, stem, sibs, end, 0)
  {
    acc := end;
    var d := |sibs|;
    while d > 0
      invariant 0 <= d <= |sibs|
      invariant acc == PathAcc(h, stem, sibs, end, d)
    {
      d := d - 1;
      acc := if Bit(stem, d) == 0 then h([1] + acc + sibs[d]) else h([1] + sibs[d] + acc);
    }
  }

  /** The terminal's hash, from its tag and body. */
  method ReadTerminal(h: Hash, tk: Word, value: Option<Bytes>, depth: nat, tag: Byte, body: Bytes)
    returns (end: Option<Word>)
    requires depth <= STEM_BITS
    ensures var t := DecodeTerminal([tag] + body);
      end == if t.None? then None else EndHash(h, tk, value, depth, t.value)
  {
    TerminalOf(tag, body);
    var stem: Stem := tk[..STEM_LEN];
    if tag == 0 && body == [] {
      return if value.Some? then None else Some(ZERO);
    } else if tag == 1 && |body| == STEM_LEN + 32 {
      var other: Stem, slotsRoot: Word := body[..STEM_LEN], body[STEM_LEN..];
      if value.Some? || other == stem || !SharePrefix(other, stem, depth) { return None; }
      return Some(h([2] + other + slotsRoot));
    } else if tag == 2 && |body| == 32 * SLOT_LEVELS {
      var s := FoldSlots(h, tk[STEM_LEN], LeafHash(h, value), WordsOf(body));
      if s == ZERO { return None; }
      return Some(h([2] + stem + s));
    }
    return None;
  }

  lemma TerminalOf(tag: Byte, body: Bytes)
    ensures tag == 0 && body == [] ==> DecodeTerminal([tag] + body) == Some(EmptySubtree)
    ensures tag == 1 && |body| == STEM_LEN + 32 ==>
      DecodeTerminal([tag] + body) == Some(OtherStem(body[..STEM_LEN], body[STEM_LEN..]))
    ensures tag == 2 && |body| == 32 * SLOT_LEVELS ==>
      DecodeTerminal([tag] + body) == Some(OwnStem(WordsOf(body)))
    ensures
      && !(tag == 0 && body == []) && !(tag == 1 && |body| == STEM_LEN + 32)
      && !(tag == 2 && |body| == 32 * SLOT_LEVELS)
      ==> DecodeTerminal([tag] + body) == None
  {
    var b := [tag] + body;
    assert b[0] == tag && |b| == 1 + |body|;
    if tag == 1 && |body| == STEM_LEN + 32 {
      assert b[1..32] == body[..STEM_LEN] && b[32..] == body[STEM_LEN..];
    } else if tag == 2 && |body| == 32 * SLOT_LEVELS {
      assert b[1..] == body;
    }
  }

  /** The checker itself: read the terminal, then fold up to the root. */
  method VerifyAt(h: Hash, root: Word, tk: Word, value: Option<Bytes>, proof: Bytes) returns (ok: bool)
    ensures ok <==> Proves(h, root, tk, value, proof)
  {
    if |proof| < 2 { return false; }
    var depth: nat := proof[0] as int * 256 + proof[1] as int;
    TwoBytes(proof);
    if depth > STEM_BITS { return false; }
    ok := VerifyPath(h, root, tk, value, proof, depth);
  }

  method VerifyPath(h: Hash, root: Word, tk: Word, value: Option<Bytes>, proof: Bytes, depth: nat) returns (ok: bool)
    requires |proof| >= 2 && depth == FromBE(proof[..2]) <= STEM_BITS
    ensures ok <==> Proves(h, root, tk, value, proof)
  {
    var terminalAt := 2 + 32 * depth;
    if |proof| <= terminalAt {
      NoTerminal(proof, depth);
      return false;
    }
    var tag, body := proof[terminalAt], proof[terminalAt + 1..];
    assert proof[terminalAt..] == [tag] + body;
    var end := ReadTerminal(h, tk, value, depth, tag, body);
    ProvesParts(h, root, tk, value, proof, depth);
    ok := false;
    if end.Some? {
      var acc := FoldPath(h, tk[..STEM_LEN], WordsOf(proof[2..2 + 32 * depth]), end.value);
      ok := acc == root;
    }
  }

  lemma NoTerminal(proof: Bytes, depth: nat)
    requires |proof| >= 2 && depth == FromBE(proof[..2]) && |proof| <= 2 + 32 * depth
    ensures Decode(proof) == None
  {
  }

  /** What acceptance comes down to once the path length is read. */
  lemma ProvesParts(h: Hash, root: Word, tk: Word, value: Option<Bytes>, proof: Bytes, depth: nat)
    requires |proof| >= 2 && depth == FromBE(proof[..2]) <= STEM_BITS && 2 + 32 * depth <= |proof|
    ensures var t := DecodeTerminal(proof[2 + 32 * depth..]);
      Proves(h, root, tk, value, proof) <==>
      && t.Some?
      && var end := EndHash(h, tk, value, depth, t.value);
      && end.Some?
      && PathAcc(h, StemOf(tk), WordsOf(proof[2..2 + 32 * depth]), end.value, 0) == root
  {
    var t := DecodeTerminal(proof[2 + 32 * depth..]);
    assert Decode(proof) == if t.None? then None else Some(Proof(WordsOf(proof[2..2 + 32 * depth]), t.value));
  }

  lemma TwoBytes(b: Bytes)
    requires |b| >= 2
    ensures FromBE(b[..2]) == b[0] as int * 256 + b[1] as int
  {
    assert b[..2][..1] == b[..1] && b[..1][..0] == [];
    assert FromBE(b[..1]) == b[0];
  }

  // ---- One root never proves two answers ----
  //
  // The predicates below say that a set of byte strings holds every string a
  // computation hashes. A result that would need a collision-free hash says
  // instead that such a set breaks it.

  ghost predicate PairIn(l: Word, r: Word, xs: set<Bytes>) {
    (l == ZERO && r == ZERO) || PairBytes(l, r) in xs
  }

  /** `xs` holds what the slot part of a check hashes, up to level `k`. */
  ghost predicate SlotsIn(h: Hash, slot: nat, leaf: Word, sibs: seq<Word>, k: nat, xs: set<Bytes>)
    requires k <= |sibs|
  {
    k > 0 ==>
      && SlotsIn(h, slot, leaf, sibs, k - 1, xs)
      && if Up(slot, k - 1) % 2 == 0 then PairIn(SlotAcc(h, slot, leaf, sibs, k - 1), sibs[k - 1], xs)
         else PairIn(sibs[k - 1], SlotAcc(h, slot, leaf, sibs, k - 1), xs)
  }

  /** `xs` holds what the path part of a check hashes, from depth `d` down. */
  ghost predicate PathIn(h: Hash, stem: Stem, sibs: seq<Word>, end: Word, d: nat, xs: set<Bytes>)
    requires d <= |sibs| <= STEM_BITS
    decreases |sibs| - d
  {
    d < |sibs| ==>
      && PathNode(stem, d, PathAcc(h, stem, sibs, end, d + 1), sibs[d]) in xs
      && PathIn(h, stem, sibs, end, d + 1, xs)
  }

  ghost predicate LeafIn(value: Option<Bytes>, xs: set<Bytes>) {
    value.Some? ==> [0] + value.value in xs
  }

  ghost predicate TerminalIn(h: Hash, tk: Word, value: Option<Bytes>, t: Terminal, xs: set<Bytes>)
    requires t.OwnStem? ==> |t.slotSiblings| == SLOT_LEVELS
  {
    match t
    case EmptySubtree => true
    case OtherStem(other, slotsRoot) => StemBytes(other, slotsRoot) in xs
    case OwnStem(sibs) =>
      && LeafIn(value, xs)
      && SlotsIn(h, SlotOf(tk), LeafHash(h, value), sibs, |sibs|, xs)
      && StemBytes(StemOf(tk), SlotAcc(h, SlotOf(tk), LeafHash(h, value), sibs, |sibs|)) in xs
  }

  /** `xs` holds every byte string hashed while checking `p`. */
  ghost predicate CheckIn(h: Hash, tk: Word, value: Option<Bytes>, p: Proof, xs: set<Bytes>)
    requires Encodable(p)
  {
    var end := TerminalHash(h, tk, value, p);
    && TerminalIn(h, tk, value, p.terminal, xs)
    && (end.Some? ==> PathIn(h, StemOf(tk), p.siblings, end.value, 0, xs))
  }

  /** `xs` holds every byte string hashed while checking the encoded `proof`. */
  ghost predicate RunIn(h: Hash, tk: Word, value: Option<Bytes>, proof: Bytes, xs: set<Bytes>) {
    var p := Decode(proof);
    p.Some? ==> CheckIn(h, tk, value, p.value, xs)
  }

  lemma PairParts(a: Word, b: Word, c: Word, d: Word)
    ensures NodeBytes(a, b) == NodeBytes(c, d) ==> a == c && b == d
    ensures PairBytes(a, b) == PairBytes(c, d) ==> a == c && b == d
  {
    if NodeBytes(a, b) == NodeBytes(c, d) {
      SplitEqual([1] + a, b, [1] + c, d);
      SplitEqual([1], a, [1], c);
    }
    if PairBytes(a, b) == PairBytes(c, d) {
      SplitEqual([3] + a, b, [3] + c, d);
      SplitEqual([3], a, [3], c);
    }
  }

  lemma StemParts(s: Stem, a: Word, t: Stem, b: Word)
    requires StemBytes(s, a) == StemBytes(t, b)
    ensures s == t && a == b
  {
    SplitEqual([2] + s, a, [2] + t, b);
    SplitEqual([2], s, [2], t);
  }

  /** The four kinds of node hash under different first bytes. */
  lemma Domains(s: Stem, a: Word, b: Word)
    ensures StemBytes(s, a)[0] == 2 && NodeBytes(a, b)[0] == 1 && PairBytes(a, b)[0] == 3
  {
  }

  /** Equal slot pairs have equal children. */
  lemma PairsAgree(h: Hash, l: Word, r: Word, l': Word, r': Word, xs: set<Bytes>)
    requires PairIn(l, r, xs) && PairIn(l', r', xs)
    requires SlotPair(h, l, r) == SlotPair(h, l', r')
    ensures (l == l' && r == r') || Broken(h, xs)
  {
    PairParts(l, r, l', r');
  }

  /** Equal slot hashes at level `k` come from equal leaves, or something broke. */
  lemma {:induction false} SlotsAgree(h: Hash, slot: nat, a: Word, ps: seq<Word>, b: Word, qs: seq<Word>, k: nat,
                                      xs: set<Bytes>)
    requires k <= |ps| && k <= |qs|
    requires SlotsIn(h, slot, a, ps, k, xs) && SlotsIn(h, slot, b, qs, k, xs)
    requires SlotAcc(h, slot, a, ps, k) == SlotAcc(h, slot, b, qs, k)
    ensures a == b || Broken(h, xs)
  {
    if k > 0 && !Broken(h, xs) {
      var x, y := SlotAcc(h, slot, a, ps, k - 1), SlotAcc(h, slot, b, qs, k - 1);
      if Up(slot, k - 1) % 2 == 0 {
        PairsAgree(h, x, ps[k - 1], y, qs[k - 1], xs);
      } else {
        PairsAgree(h, ps[k - 1], x, qs[k - 1], y, xs);
      }
      SlotsAgree(h, slot, a, ps, b, qs, k - 1, xs);
    }
  }

  /** Where both paths go on, equal hashes at depth `d` stay equal one level down. */
  lemma {:induction false} PathsAgree(h: Hash, stem: Stem, ps: seq<Word>, a: Word, qs: seq<Word>, b: Word, d: nat,
                                      xs: set<Bytes>)
    requires d <= |ps| <= |qs| <= STEM_BITS
    requires PathIn(h, stem, ps, a, d, xs) && PathIn(h, stem, qs, b, d, xs)
    requires PathAcc(h, stem, ps, a, d) == PathAcc(h, stem, qs, b, d)
    ensures (a == PathAcc(h, stem, qs, b, |ps|) && PathIn(h, stem, qs, b, |ps|, xs)) || Broken(h, xs)
    decreases |ps| - d
  {
    if d < |ps| && !Broken(h, xs) {
      var x, y := PathAcc(h, stem, ps, a, d + 1), PathAcc(h, stem, qs, b, d + 1);
      SameHash(h, xs, PathNode(stem, d, x, ps[d]), PathNode(stem, d, y, qs[d]));
      PairParts(x, ps[d], y, qs[d]);
      PairParts(ps[d], x, qs[d], y);
      PathsAgree(h, stem, ps, a, qs, b, d + 1, xs);
    }
  }

  /** A terminal's hash is the empty word or the hash of a stem node. */
  lemma TerminalKind(h: Hash, tk: Word, value: Option<Bytes>, p: Proof, xs: set<Bytes>) returns (s: Stem, w: Word)
    requires Encodable(p) && TerminalHash(h, tk, value, p).Some? && TerminalIn(h, tk, value, p.terminal, xs)
    ensures p.terminal.EmptySubtree? ==> TerminalHash(h, tk, value, p).value == ZERO
    ensures !p.terminal.EmptySubtree? ==>
      StemBytes(s, w) in xs && TerminalHash(h, tk, value, p).value == h(StemBytes(s, w))
    ensures p.terminal.OtherStem? ==> s != StemOf(tk)
    ensures p.terminal.OwnStem? ==> s == StemOf(tk) && var sibs := p.terminal.slotSiblings;
      w == SlotAcc(h, SlotOf(tk), LeafHash(h, value), sibs, |sibs|)
  {
    match p.terminal
    case EmptySubtree => s, w := StemOf(tk), ZERO;
    case OtherStem(other, slotsRoot) => s, w := other, slotsRoot;
    case OwnStem(sibs) => s, w := StemOf(tk), SlotAcc(h, SlotOf(tk), LeafHash(h, value), sibs, |sibs|);
  }

  /** Equal leaf hashes are of equal values. */
  lemma LeavesAgree(h: Hash, v: Option<Bytes>, w: Option<Bytes>, xs: set<Bytes>)
    requires LeafIn(v, xs) && LeafIn(w, xs) && LeafHash(h, v) == LeafHash(h, w)
    ensures v == w || Broken(h, xs)
  {
    if v.Some? && w.Some? {
      SameHash(h, xs, [0] + v.value, [0] + w.value);
      if [0] + v.value == [0] + w.value {
        SplitEqual([0], v.value, [0], w.value);
      }
    }
  }

  /** Two terminals with one hash, for one key, answer alike. */
  lemma TerminalsAgree(h: Hash, tk: Word, v: Option<Bytes>, p: Proof, w: Option<Bytes>, q: Proof, xs: set<Bytes>)
    requires Encodable(p) && Encodable(q)
    requires TerminalIn(h, tk, v, p.terminal, xs) && TerminalIn(h, tk, w, q.terminal, xs)
    requires TerminalHash(h, tk, v, p).Some? && TerminalHash(h, tk, v, p) == TerminalHash(h, tk, w, q)
    ensures v == w || Broken(h, xs)
  {
    var s, a := TerminalKind(h, tk, v, p, xs);
    var t, b := TerminalKind(h, tk, w, q, xs);
    if !Broken(h, xs) {
      if !p.terminal.EmptySubtree? && !q.terminal.EmptySubtree? {
        SameHash(h, xs, StemBytes(s, a), StemBytes(t, b));
        StemParts(s, a, t, b);
      }
      if p.terminal.OwnStem? && q.terminal.OwnStem? {
        var ps, qs := p.terminal.slotSiblings, q.terminal.slotSiblings;
        SlotsAgree(h, SlotOf(tk), LeafHash(h, v), ps, LeafHash(h, w), qs, |ps|, xs);
        LeavesAgree(h, v, w, xs);
      }
    }
  }

  /** A terminal cannot hash to an interior node. */
  lemma TerminalIsNotNode(h: Hash, tk: Word, v: Option<Bytes>, p: Proof, l: Word, r: Word, xs: set<Bytes>)
    requires Encodable(p) && TerminalIn(h, tk, v, p.terminal, xs) && NodeBytes(l, r) in xs
    requires TerminalHash(h, tk, v, p) == Some(h(NodeBytes(l, r)))
    ensures Broken(h, xs)
  {
    var s, a := TerminalKind(h, tk, v, p, xs);
    if !p.terminal.EmptySubtree? {
      Domains(s, a, l);
      assert StemBytes(s, a)[0] != NodeBytes(l, r)[0];
    }
  }

  /**
   * Under one root, one key never has two answers: neither two values, nor a
   * value and absence, unless the strings hashed by the two checks break the
   * hash.
   */
  lemma OneAnswer(h: Hash, root: Word, tk: Word, v: Option<Bytes>, p: Bytes, w: Option<Bytes>, q: Bytes,
                  xs: set<Bytes>)
    requires Proves(h, root, tk, v, p) && Proves(h, root, tk, w, q)
    requires RunIn(h, tk, v, p, xs) && RunIn(h, tk, w, q, xs)
    ensures v == w || Broken(h, xs)
  {
    var p', q' := Decode(p).value, Decode(q).value;
    if |p'.siblings| <= |q'.siblings| {
      OneAnswerOrdered(h, root, tk, v, p', w, q', xs);
    } else {
      OneAnswerOrdered(h, root, tk, w, q', v, p', xs);
    }
  }

  lemma OneAnswerOrdered(h: Hash, root: Word, tk: Word, v: Option<Bytes>, p: Proof, w: Option<Bytes>, q: Proof,
                         xs: set<Bytes>)
    requires Encodable(p) && Encodable(q) && |p.siblings| <= |q.siblings|
    requires Accepts(h, root, tk, v, p) && Accepts(h, root, tk, w, q)
    requires CheckIn(h, tk, v, p, xs) && CheckIn(h, tk, w, q, xs)
    ensures v == w || Broken(h, xs)
  {
    var stem, n := StemOf(tk), |p.siblings|;
    var a, b := TerminalHash(h, tk, v, p).value, TerminalHash(h, tk, w, q).value;
    PathsAgree(h, stem, p.siblings, a, q.siblings, b, 0, xs);
    if !Broken(h, xs) {
      if n == |q.siblings| {
        TerminalsAgree(h, tk, v, p, w, q, xs);
      } else {
        var x := PathAcc(h, stem, q.siblings, b, n + 1);
        if Bit(stem, n) == 0 {
          TerminalIsNotNode(h, tk, v, p, x, q.siblings[n], xs);
        } else {
          TerminalIsNotNode(h, tk, v, p, q.siblings[n], x, xs);
        }
      }
    }
  }

  /** A proof that ends at another stem proves absence, by a stem that shares the key's bits as far as the path goes. */
  lemma OtherStemShares(h: Hash, root: Word, tk: Word, value: Option<Bytes>, proof: Bytes)
    requires Proves(h, root, tk, value, proof) && Decode(proof).value.terminal.OtherStem?
    ensures var p := Decode(proof).value; var other := p.terminal.stem;
      && value.None? && other != tk[..STEM_LEN] && |p.siblings| <= STEM_BITS
      && forall i :: 0 <= i < |p.siblings| ==> Bit(other, i) == Bit(tk[..STEM_LEN], i)
  {
  }

  /** A value is proven only where the path ends at the key's own stem. */
  lemma ValueNeedsOwnStem(h: Hash, root: Word, tk: Word, value: Option<Bytes>, proof: Bytes)
    requires Proves(h, root, tk, value, proof) && value.Some?
    ensures Decode(proof).value.terminal.OwnStem?
  {
  }
}
