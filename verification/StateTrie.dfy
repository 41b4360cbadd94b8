// The state trie the proofs are about: a binary trie over stems whose leaves
// hold value slots. A subtree with one stem is that stem's leaf, wherever it
// sits, and updates keep the trie in that form, so the root depends on the
// committed state alone.
module StateTrie {
  import opened Encoding
  import opened Hashing
  import opened StateProof

  type Slots = map<Byte, Bytes>

  datatype Trie = Empty | Leaf(stem: Stem, slots: Slots) | Node(left: Trie, right: Trie)

  /** A position in the trie: the bits read so far. */
  type Path = seq<nat>

  predicate OnPath(s: Stem, path: Path) {
    |path| <= STEM_BITS && forall i :: 0 <= i < |path| ==> Bit(s, i) == path[i]
  }

  /**
   * The form updates keep: every leaf lies on its own stem's path and holds a
   * value, and no interior node holds fewer than two stems.
   */
  predicate Canonical(t: Trie, path: Path) {
    match t
    case Empty => true
    case Leaf(s, slots) => OnPath(s, path) && slots != map[]
    case Node(l, r) =>
      && |path| < STEM_BITS
      && Canonical(l, path + [0]) && Canonical(r, path + [1])
      && (l.Empty? ==> r.Node?) && (r.Empty? ==> l.Node?)
  }

  /** What the trie holds for a tree key, read from depth `d` on. */
  function Lookup(t: Trie, tk: Word, d: nat): Option<Bytes> {
    match t
    case Empty => None
    case Leaf(s, slots) => if s == StemOf(tk) && SlotOf(tk) in slots then Some(slots[SlotOf(tk)]) else None
    case Node(l, r) => if d >= STEM_BITS then None else Lookup(if Bit(StemOf(tk), d) == 0 then l else r, tk, d + 1)
  }

  function KeyOf(stem: Stem, slot: Byte): (tk: Word)
    ensures StemOf(tk) == stem && SlotOf(tk) == slot
  {
    stem + [slot]
  }

  // ---- Stems and their bits ----

  /** A byte shifted out of its eight bits is zero. */
  lemma Shifted(x: Byte)
    ensures Up(x, 8) == 0
  {
    assert Up(x, 1) < 128 && Up(x, 2) < 64;
    assert Up(x, 3) < 32 && Up(x, 4) < 16;
    assert Up(x, 5) < 8 && Up(x, 6) < 4;
    assert Up(x, 7) < 2;
  }

  /** The bits of a byte above position `k` determine it down to `k`. */
  lemma {:induction false} BitsFrom(a: Byte, b: Byte, k: nat)
    requires k <= 8 && forall j :: 0 <= j < 8 ==> Up(a, j) % 2 == Up(b, j) % 2
    ensures Up(a, k) == Up(b, k)
    decreases 8 - k
  {
    if k == 8 {
      Shifted(a);
      Shifted(b);
    } else {
      BitsFrom(a, b, k + 1);
      assert Up(a, k) % 2 == Up(b, k) % 2;
    }
  }

  /** Stems that share all their bits are equal: a full-length path holds one stem. */
  lemma SamePathSameStem(s: Stem, t: Stem, path: Path)
    requires OnPath(s, path) && OnPath(t, path) && s != t
    ensures |path| < STEM_BITS
  {
    if |path| == STEM_BITS {
      forall j | 0 <= j < STEM_LEN
        ensures s[j] == t[j]
      {
        forall k | 0 <= k < 8
          ensures Up(s[j], k) % 2 == Up(t[j], k) % 2
        {
          var d := 8 * j + (7 - k);
          assert d / 8 == j && d % 8 == 7 - k;
          assert Bit(s, d) == path[d] == Bit(t, d);
        }
        BitsFrom(s[j], t[j], 0);
      }
    }
  }

  lemma StepPath(s: Stem, path: Path)
    requires OnPath(s, path) && |path| < STEM_BITS
    ensures OnPath(s, path + [Bit(s, |path|)])
    ensures forall b: nat :: OnPath(s, path + [b]) ==> b == Bit(s, |path|)
  {
    forall b: nat | OnPath(s, path + [b])
      ensures b == Bit(s, |path|)
    {
      assert (path + [b])[|path|] == b;
    }
  }

  // ---- Updates ----

  /** Changes to one stem: a slot's new value, or `None` to clear it. */
  type StemUpdate = map<Byte, Option<Bytes>>

  function ApplySlots(slots: Slots, upd: StemUpdate): (r: Slots)
    ensures forall k :: k in upd && upd[k].Some? ==> k in r && r[k] == upd[k].value
    ensures forall k :: k in upd && upd[k].None? ==> k !in r
    ensures forall k :: k !in upd ==> (k in r <==> k in slots) && (k in r ==> r[k] == slots[k])
  {
    (map k | k in slots && k !in upd :: slots[k]) + (map k | k in upd && upd[k].Some? :: upd[k].value)
  }

  predicate OnlyClears(upd: StemUpdate) {
    forall k :: k in upd ==> upd[k].None?
  }

  function LeafOrEmpty(stem: Stem, slots: Slots): Trie {
    if slots == map[] then Empty else Leaf(stem, slots)
  }

  /** An interior node over two subtrees; a leaf left alone moves up. */
  function Join(l: Trie, r: Trie): Trie {
    if l.Empty? && !r.Node? then r
    else if r.Empty? && !l.Node? then l
    else Node(l, r)
  }

  /** Two leaves under a fresh subtree: one node for each bit they share, and one where they part. */
  function Split(path: Path, s: Stem, m: Slots, t: Stem, n: Slots): Trie
    requires OnPath(s, path) && OnPath(t, path) && s != t
    decreases STEM_BITS - |path|
  {
    SamePathSameStem(s, t, path);
    var a, b := Bit(s, |path|), Bit(t, |path|);
    StepPath(s, path);
    StepPath(t, path);
    if a == b then
      var child := Split(path + [a], s, m, t, n);
      if a == 0 then Node(child, Empty) else Node(Empty, child)
    else if a == 0 then Node(Leaf(s, m), Leaf(t, n))
    else Node(Leaf(t, n), Leaf(s, m))
  }

  /** The subtree at `path` after the changes `upd` to `stem`. */
  function PutStem(t: Trie, path: Path, stem: Stem, upd: StemUpdate): Trie
    requires OnPath(stem, path) && Canonical(t, path)
    decreases t
  {
    match t
    case Empty => LeafOrEmpty(stem, ApplySlots(map[], upd))
    case Leaf(existing, slots) =>
      if existing == stem then LeafOrEmpty(stem, ApplySlots(slots, upd))
      else if OnlyClears(upd) then t
      else Split(path, existing, slots, stem, ApplySlots(map[], upd))
    case Node(l, r) =>
      StepPath(stem, path);
      if Bit(stem, |path|) == 0 then Join(PutStem(l, path + [0], stem, upd), r)
      else Join(l, PutStem(r, path + [1], stem, upd))
  }

  lemma {:induction false} SplitCanonical(path: Path, s: Stem, m: Slots, t: Stem, n: Slots)
    requires OnPath(s, path) && OnPath(t, path) && s != t && m != map[] && n != map[]
    ensures Split(path, s, m, t, n).Node? && Canonical(Split(path, s, m, t, n), path)
    decreases STEM_BITS - |path|
  {
    SamePathSameStem(s, t, path);
    StepPath(s, path);
    StepPath(t, path);
    if Bit(s, |path|) == Bit(t, |path|) {
      SplitCanonical(path + [Bit(s, |path|)], s, m, t, n);
    }
  }

  /** Updates keep the canonical form. */
  lemma {:induction false} PutCanonical(t: Trie, path: Path, stem: Stem, upd: StemUpdate)
    requires OnPath(stem, path) && Canonical(t, path)
    ensures Canonical(PutStem(t, path, stem, upd), path)
    decreases t
  {
    match t
    case Empty =>
    case Leaf(existing, slots) =>
      if existing != stem && !OnlyClears(upd) {
        var k :| k in upd && upd[k].Some?;
        assert k in ApplySlots(map[], upd);
        SplitCanonical(path, existing, slots, stem, ApplySlots(map[], upd));
      }
    case Node(l, r) =>
      StepPath(stem, path);
      if Bit(stem, |path|) == 0 {
        PutCanonical(l, path + [0], stem, upd);
        JoinCanonical(PutStem(l, path + [0], stem, upd), r, path);
      } else {
        PutCanonical(r, path + [1], stem, upd);
        JoinCanonical(l, PutStem(r, path + [1], stem, upd), path);
      }
  }

  lemma JoinCanonical(l: Trie, r: Trie, path: Path)
    requires |path| < STEM_BITS && Canonical(l, path + [0]) && Canonical(r, path + [1])
    ensures Canonical(Join(l, r), path)
  {
    ShorterPath(l, path, 0);
    ShorterPath(r, path, 1);
  }

  /** A leaf may sit higher on its own path. */
  lemma ShorterPath(t: Trie, path: Path, b: nat)
    requires t.Leaf? ==> OnPath(t.stem, path + [b])
    ensures t.Leaf? ==> OnPath(t.stem, path)
  {
    if t.Leaf? {
      forall i | 0 <= i < |path|
        ensures Bit(t.stem, i) == path[i]
      {
        assert (path + [b])[i] == path[i];
      }
    }
  }

  /** Reading through a join is reading the child on the key's side. */
  lemma JoinLookup(l: Trie, r: Trie, path: Path, tk: Word)
    requires |path| < STEM_BITS && Canonical(l, path + [0]) && Canonical(r, path + [1])
    requires OnPath(StemOf(tk), path)
    ensures Lookup(Join(l, r), tk, |path|) == Lookup(if Bit(StemOf(tk), |path|) == 0 then l else r, tk, |path| + 1)
  {
    StepPath(StemOf(tk), path);
  }

  lemma {:induction false} SplitLookup(path: Path, s: Stem, m: Slots, t: Stem, n: Slots, tk: Word)
    requires OnPath(s, path) && OnPath(t, path) && s != t && OnPath(StemOf(tk), path)
    ensures Lookup(Split(path, s, m, t, n), tk, |path|) ==
      if StemOf(tk) == t then Lookup(Leaf(t, n), tk, |path|) else Lookup(Leaf(s, m), tk, |path|)
    decreases STEM_BITS - |path|
  {
    SamePathSameStem(s, t, path);
    StepPath(s, path);
    StepPath(t, path);
    StepPath(StemOf(tk), path);
    var b := Bit(s, |path|);
    if b == Bit(t, |path|) && b == Bit(StemOf(tk), |path|) {
      SplitLookup(path + [b], s, m, t, n, tk);
    }
  }

  /** After an update the trie holds the changes, and what it held elsewhere. */
  lemma {:induction false} PutLookup(t: Trie, path: Path, stem: Stem, upd: StemUpdate, tk: Word)
    requires OnPath(stem, path) && Canonical(t, path) && OnPath(StemOf(tk), path)
    ensures Lookup(PutStem(t, path, stem, upd), tk, |path|) ==
      if StemOf(tk) == stem && SlotOf(tk) in upd then upd[SlotOf(tk)] else Lookup(t, tk, |path|)
    decreases t
  {
    match t
    case Empty =>
    case Leaf(existing, slots) =>
      if existing != stem && !OnlyClears(upd) {
        SplitLookup(path, existing, slots, stem, ApplySlots(map[], upd), tk);
      }
    case Node(l, r) =>
      StepPath(stem, path);
      StepPath(StemOf(tk), path);
      if Bit(stem, |path|) == 0 {
        PutCanonical(l, path + [0], stem, upd);
        JoinLookup(PutStem(l, path + [0], stem, upd), r, path, tk);
        if Bit(StemOf(tk), |path|) == 0 { PutLookup(l, path + [0], stem, upd, tk); }
      } else {
        PutCanonical(r, path + [1], stem, upd);
        JoinLookup(l, PutStem(r, path + [1], stem, upd), path, tk);
        if Bit(StemOf(tk), |path|) != 0 { PutLookup(r, path + [1], stem, upd, tk); }
      }
  }

  // ---- The root depends on the state alone ----

  ghost predicate SameState(t: Trie, u: Trie, path: Path) {
    forall tk: Word :: OnPath(StemOf(tk), path) ==> Lookup(t, tk, |path|) == Lookup(u, tk, |path|)
  }

  /** A canonical subtree that is not empty holds something. */
  lemma {:induction false} SomeEntry(t: Trie, path: Path) returns (tk: Word)
    requires Canonical(t, path) && !t.Empty?
    ensures OnPath(StemOf(tk), path) && Lookup(t, tk, |path|).Some?
    decreases t
  {
    match t
    case Leaf(s, slots) =>
      var k :| k in slots;
      tk := KeyOf(s, k);
    case Node(l, r) =>
      if !l.Empty? {
        tk := SomeEntry(l, path + [0]);
        Descend(tk, path, 0);
      } else {
        tk := SomeEntry(r, path + [1]);
        Descend(tk, path, 1);
      }
  }

  lemma Descend(tk: Word, path: Path, b: nat)
    requires OnPath(StemOf(tk), path + [b])
    ensures OnPath(StemOf(tk), path) && |path| < STEM_BITS && Bit(StemOf(tk), |path|) == b
  {
    ShorterPath(Leaf(StemOf(tk), map[]), path, b);
    assert (path + [b])[|path|] == b;
  }

  /** An interior node holds two different stems. */
  lemma {:induction false} TwoStems(t: Trie, path: Path) returns (a: Word, b: Word)
    requires Canonical(t, path) && t.Node?
    ensures OnPath(StemOf(a), path) && Lookup(t, a, |path|).Some?
    ensures OnPath(StemOf(b), path) && Lookup(t, b, |path|).Some?
    ensures StemOf(a) != StemOf(b)
    decreases t
  {
    if t.left.Empty? {
      a, b := TwoStems(t.right, path + [1]);
      Descend(a, path, 1);
      Descend(b, path, 1);
    } else if t.right.Empty? {
      a, b := TwoStems(t.left, path + [0]);
      Descend(a, path, 0);
      Descend(b, path, 0);
    } else {
      a := SomeEntry(t.left, path + [0]);
      b := SomeEntry(t.right, path + [1]);
      Descend(a, path, 0);
      Descend(b, path, 1);
    }
  }

  lemma SameChildren(t: Trie, u: Trie, path: Path, b: nat)
    requires Canonical(t, path) && Canonical(u, path) && t.Node? && u.Node? && SameState(t, u, path) && b < 2
    ensures SameState(if b == 0 then t.left else t.right, if b == 0 then u.left else u.right, path + [b])
  {
    forall tk: Word | OnPath(StemOf(tk), path + [b])
      ensures Lookup(if b == 0 then t.left else t.right, tk, |path| + 1)
           == Lookup(if b == 0 then u.left else u.right, tk, |path| + 1)
    {
      Descend(tk, path, b);
      assert Lookup(t, tk, |path|) == Lookup(u, tk, |path|);
    }
  }

  lemma SameLeaf(t: Trie, u: Trie, path: Path)
    requires Canonical(t, path) && Canonical(u, path) && t.Leaf? && u.Leaf? && SameState(t, u, path)
    ensures t == u
  {
    var k :| k in t.slots;
    assert Lookup(t, KeyOf(t.stem, k), |path|).Some?;
    assert t.stem == u.stem;
    forall k: Byte
      ensures k in t.slots <==> k in u.slots
      ensures k in t.slots ==> k in u.slots && t.slots[k] == u.slots[k]
    {
      assert Lookup(t, KeyOf(t.stem, k), |path|) == Lookup(u, KeyOf(t.stem, k), |path|);
    }
    assert t.slots == u.slots;
  }

  /** One state has one canonical trie. */
  lemma {:induction false} OneTrie(t: Trie, u: Trie, path: Path)
    requires Canonical(t, path) && Canonical(u, path) && SameState(t, u, path)
    ensures t == u
    decreases t
  {
    if t.Empty? && !u.Empty? {
      var _ := SomeEntry(u, path);
    } else if u.Empty? && !t.Empty? {
      var _ := SomeEntry(t, path);
    } else if t.Node? && u.Leaf? {
      var _, _ := TwoStems(t, path);
    } else if t.Leaf? && u.Node? {
      var _, _ := TwoStems(u, path);
    } else if t.Leaf? && u.Leaf? {
      SameLeaf(t, u, path);
    } else if t.Node? && u.Node? {
      SameChildren(t, u, path, 0);
      SameChildren(t, u, path, 1);
      OneTrie(t.left, u.left, path + [0]);
      OneTrie(t.right, u.right, path + [1]);
    }
  }

  /** One committed change to a stem. */
  datatype Change = Change(stem: Stem, upd: StemUpdate)

  /** The trie after a history of changes, oldest first, from the empty trie. */
  function Commit(history: seq<Change>): (t: Trie)
    ensures Canonical(t, [])
  {
    if history == [] then Empty else
    var c, before := history[|history| - 1], Commit(history[..|history| - 1]);
    PutCanonical(before, [], c.stem, c.upd);
    PutStem(before, [], c.stem, c.upd)
  }

  /** The plain map the same history describes. */
  function State(history: seq<Change>, tk: Word): Option<Bytes> {
    if history == [] then None else
    var c := history[|history| - 1];
    if StemOf(tk) == c.stem && SlotOf(tk) in c.upd then c.upd[SlotOf(tk)]
    else State(history[..|history| - 1], tk)
  }

  /** Over every history the trie holds exactly the map's answers. */
  lemma {:induction false} CommitHolds(history: seq<Change>, tk: Word)
    ensures Lookup(Commit(history), tk, 0) == State(history, tk)
  {
    if history != [] {
      var c, before := history[|history| - 1], history[..|history| - 1];
      CommitHolds(before, tk);
      PutLookup(Commit(before), [], c.stem, c.upd, tk);
    }
  }

  /** Two histories that leave the same state leave the same trie, so the same root. */
  lemma HistoryIndependent(h1: seq<Change>, h2: seq<Change>, h: Hash)
    requires forall tk: Word :: State(h1, tk) == State(h2, tk)
    ensures Commit(h1) == Commit(h2) && Root(h, Commit(h1)) == Root(h, Commit(h2))
  {
    forall tk: Word
      ensures Lookup(Commit(h1), tk, 0) == Lookup(Commit(h2), tk, 0)
    {
      CommitHolds(h1, tk);
      CommitHolds(h2, tk);
    }
    OneTrie(Commit(h1), Commit(h2), []);
  }

  // ---- Hashes ----

  function SlotValue(m: Slots, i: nat): Option<Bytes> {
    if i < 256 && i in m then Some(m[i]) else None
  }

  /** The hash over the slots under node `i` of level `k`. */
  function SlotNode(h: Hash, m: Slots, k: nat, i: nat): Word {
    if k == 0 then LeafHash(h, SlotValue(m, i))
    else SlotPair(h, SlotNode(h, m, k - 1, 2 * i), SlotNode(h, m, k - 1, 2 * i + 1))
  }

  function Root(h: Hash, t: Trie): Word {
    match t
    case Empty => ZERO
    case Leaf(s, slots) => h(StemBytes(s, SlotNode(h, slots, SLOT_LEVELS, 0)))
    case Node(l, r) => h(NodeBytes(Root(h, l), Root(h, r)))
  }

  /** `xs` holds what hashing the slots under a node hashes. */
  ghost predicate SlotNodeIn(h: Hash, m: Slots, k: nat, i: nat, xs: set<Bytes>) {
    if k == 0 then LeafIn(SlotValue(m, i), xs)
    else
      && SlotNodeIn(h, m, k - 1, 2 * i, xs) && SlotNodeIn(h, m, k - 1, 2 * i + 1, xs)
      && PairIn(SlotNode(h, m, k - 1, 2 * i), SlotNode(h, m, k - 1, 2 * i + 1), xs)
  }

  /** `xs` holds what computing the trie's root hashes. */
  ghost predicate TrieIn(h: Hash, t: Trie, xs: set<Bytes>) {
    match t
    case Empty => true
    case Leaf(s, slots) =>
      SlotNodeIn(h, slots, SLOT_LEVELS, 0, xs) && StemBytes(s, SlotNode(h, slots, SLOT_LEVELS, 0)) in xs
    case Node(l, r) => TrieIn(h, l, xs) && TrieIn(h, r, xs) && NodeBytes(Root(h, l), Root(h, r)) in xs
  }

  // ---- The prover ----

  function Sibling(i: nat): nat {
    if i % 2 == 0 then i + 1 else i - 1
  }

  /** The hash of the sibling met at level `j` on the way up from `slot`. */
  function SlotSibling(h: Hash, m: Slots, slot: nat, j: nat): Word {
    SlotNode(h, m, j, Sibling(Up(slot, j)))
  }

  /** The sibling hashes of a slot's first `k` ancestors, bottom up. */
  function SlotSiblings(h: Hash, m: Slots, slot: nat, k: nat): (ws: seq<Word>)
    ensures |ws| == k
    ensures forall j :: 0 <= j < k ==> ws[j] == SlotSibling(h, m, slot, j)
  {
    if k == 0 then [] else SlotSiblings(h, m, slot, k - 1) + [SlotSibling(h, m, slot, k - 1)]
  }

  /** The proof served for `tk`, from depth `d` on. */
  function Prove(h: Hash, t: Trie, tk: Word, d: nat): Proof {
    match t
    case Empty => Proof([], EmptySubtree)
    case Leaf(s, slots) =>
      if s != StemOf(tk) then Proof([], OtherStem(s, SlotNode(h, slots, SLOT_LEVELS, 0)))
      else Proof([], OwnStem(SlotSiblings(h, slots, SlotOf(tk), SLOT_LEVELS)))
    case Node(l, r) =>
      if d >= STEM_BITS then Proof([], EmptySubtree)
      else if Bit(StemOf(tk), d) == 0 then
        var rest := Prove(h, l, tk, d + 1);
        Proof([Root(h, r)] + rest.siblings, rest.terminal)
      else
        var rest := Prove(h, r, tk, d + 1);
        Proof([Root(h, l)] + rest.siblings, rest.terminal)
  }

  /** One step up: a slot's ancestor from the ancestor below and its sibling. */
  lemma SlotParent(h: Hash, m: Slots, slot: nat, k: nat, i: nat)
    requires i == Up(slot, k)
    ensures SlotJoin(h, slot, k, SlotNode(h, m, k, i), SlotSibling(h, m, slot, k))
         == SlotNode(h, m, k + 1, Up(slot, k + 1))
  {
    var j := i / 2;
    if i % 2 == 0 {
      assert i == 2 * j && Sibling(i) == 2 * j + 1;
    } else {
      assert i == 2 * j + 1 && Sibling(i) == 2 * j;
    }
  }

  /** Folding a slot's siblings gives its ancestor's hash. */
  lemma {:induction false} SiblingsFold(h: Hash, m: Slots, slot: nat, leaf: Word, sibs: seq<Word>, k: nat)
    requires k <= |sibs| && leaf == LeafHash(h, SlotValue(m, slot))
    requires forall j :: 0 <= j < k ==> sibs[j] == SlotSibling(h, m, slot, j)
    ensures SlotAcc(h, slot, leaf, sibs, k) == SlotNode(h, m, k, Up(slot, k))
  {
    if k > 0 {
      SiblingsFold(h, m, slot, leaf, sibs, k - 1);
      SlotParent(h, m, slot, k - 1, Up(slot, k - 1));
    }
  }

  /** A held slot keeps its ancestors' hashes off the empty word. */
  lemma {:induction false} HeldSlot(h: Hash, m: Slots, slot: Byte, k: nat, xs: set<Bytes>)
    requires slot in m && SlotNodeIn(h, m, k, Up(slot, k), xs) && !HitsZero(h, xs)
    ensures SlotNode(h, m, k, Up(slot, k)) != ZERO
  {
    if k == 0 {
      assert [0] + m[slot] in xs;
    } else {
      var i, j := Up(slot, k - 1), Up(slot, k);
      assert i == 2 * j || i == 2 * j + 1;
      HeldSlot(h, m, slot, k - 1, xs);
    }
  }

  /** The path ends at the key's own stem: the slot siblings give the leaf's hash. */
  lemma OwnStemEnd(h: Hash, m: Slots, tk: Word, depth: nat, xs: set<Bytes>)
    requires m != map[] && depth <= STEM_BITS && SlotNodeIn(h, m, SLOT_LEVELS, 0, xs) && !HitsZero(h, xs)
    ensures var sibs := SlotSiblings(h, m, SlotOf(tk), SLOT_LEVELS);
      EndHash(h, tk, SlotValue(m, SlotOf(tk)), depth, OwnStem(sibs))
      == Some(h(StemBytes(StemOf(tk), SlotNode(h, m, SLOT_LEVELS, 0))))
  {
    var slot, sibs := SlotOf(tk), SlotSiblings(h, m, SlotOf(tk), SLOT_LEVELS);
    SiblingsFold(h, m, slot, LeafHash(h, SlotValue(m, slot)), sibs, |sibs|);
    Shifted(slot);
    var held :| held in m;
    Shifted(held);
    HeldSlot(h, m, held, |sibs|, xs);
  }

  /** The path ends at another stem, which lies on the key's path as far as it goes. */
  lemma OtherStemEnd(h: Hash, s: Stem, w: Word, tk: Word, path: Path)
    requires OnPath(s, path) && OnPath(StemOf(tk), path) && s != StemOf(tk)
    ensures EndHash(h, tk, None, |path|, OtherStem(s, w)) == Some(h(StemBytes(s, w)))
  {
    assert SharePrefix(s, StemOf(tk), |path|);
  }

  /** The path ends at a leaf, the key's or another: the served terminal gives its hash. */
  lemma LeafEnd(h: Hash, s: Stem, m: Slots, path: Path, tk: Word, xs: set<Bytes>)
    requires Canonical(Leaf(s, m), path) && OnPath(StemOf(tk), path) && TrieIn(h, Leaf(s, m), xs) && !HitsZero(h, xs)
    ensures var t := Leaf(s, m); var p := Prove(h, t, tk, |path|);
      && (p.terminal.OwnStem? ==> |p.terminal.slotSiblings| == SLOT_LEVELS)
      && EndHash(h, tk, Lookup(t, tk, |path|), |path|, p.terminal) == Some(Root(h, t))
  {
    if s == StemOf(tk) {
      OwnStemEnd(h, m, tk, |path|, xs);
    } else {
      OtherStemEnd(h, s, SlotNode(h, m, SLOT_LEVELS, 0), tk, path);
    }
  }

  /** The path gives the hash `top` at depth `d`, hashing only strings of `xs`. */
  ghost predicate FoldsTo(h: Hash, stem: Stem, sibs: seq<Word>, end: Word, d: nat, top: Word, xs: set<Bytes>)
    requires d <= |sibs| <= STEM_BITS
  {
    PathAcc(h, stem, sibs, end, d) == top && PathIn(h, stem, sibs, end, d, xs)
  }

  /** One level of the path: from the child's hash to the node's. */
  lemma FoldStep(h: Hash, stem: Stem, sibs: seq<Word>, end: Word, d: nat, l: Word, r: Word, xs: set<Bytes>)
    requires d < |sibs| <= STEM_BITS && NodeBytes(l, r) in xs
    requires if Bit(stem, d) == 0 then sibs[d] == r && FoldsTo(h, stem, sibs, end, d + 1, l, xs)
      else sibs[d] == l && FoldsTo(h, stem, sibs, end, d + 1, r, xs)
    ensures FoldsTo(h, stem, sibs, end, d, h(NodeBytes(l, r)), xs)
  {
  }

  lemma {:induction false} ProveShape(h: Hash, t: Trie, path: Path, tk: Word)
    requires Canonical(t, path) && |path| <= STEM_BITS
    ensures var p := Prove(h, t, tk, |path|);
      && |path| + |p.siblings| <= STEM_BITS
      && (p.terminal.OwnStem? ==> |p.terminal.slotSiblings| == SLOT_LEVELS)
    decreases t
  {
    if t.Node? {
      if Bit(StemOf(tk), |path|) == 0 { ProveShape(h, t.left, path + [0], tk); }
      else { ProveShape(h, t.right, path + [1], tk); }
    }
  }

  /** A node's proof is its other child's hash, and then the proof of the child on the key's side. */
  lemma NodeProof(h: Hash, t: Trie, tk: Word, sibs: seq<Word>, term: Terminal, d: nat)
    requires t.Node? && d < STEM_BITS && d <= |sibs| && Prove(h, t, tk, d) == Proof(sibs[d..], term)
    ensures var b := Bit(StemOf(tk), d);
      && d < |sibs| && sibs[d] == Root(h, if b == 0 then t.right else t.left)
      && Prove(h, if b == 0 then t.left else t.right, tk, d + 1) == Proof(sibs[d + 1..], term)
  {
    assert Prove(h, t, tk, d).siblings == sibs[d..];
    assert |sibs[d..]| > 0;
    assert sibs[d..][1..] == sibs[d + 1..];
    assert sibs[d] == sibs[d..][0];
  }

  /** The served proof ends in a hash, from which the path folds back to the subtree's hash, hashing what that took. */
  lemma {:induction false} ProveFolds(h: Hash, t: Trie, path: Path, tk: Word, sibs: seq<Word>, term: Terminal,
                                      xs: set<Bytes>) returns (end: Word)
    requires Canonical(t, path) && OnPath(StemOf(tk), path) && TrieIn(h, t, xs) && !HitsZero(h, xs)
    requires |path| <= |sibs| <= STEM_BITS && Prove(h, t, tk, |path|) == Proof(sibs[|path|..], term)
    requires term.OwnStem? ==> |term.slotSiblings| == SLOT_LEVELS
    ensures EndHash(h, tk, Lookup(t, tk, |path|), |sibs|, term) == Some(end)
    ensures FoldsTo(h, StemOf(tk), sibs, end, |path|, Root(h, t), xs)
    decreases t
  {
    var d := |path|;
    match t
    case Empty => end := ZERO;
    case Leaf(s, m) =>
      end := Root(h, t);
      LeafEnd(h, s, m, path, tk, xs);
    case Node(l, r) =>
      StepPath(StemOf(tk), path);
      NodeProof(h, t, tk, sibs, term, d);
      if Bit(StemOf(tk), d) == 0 {
        end := ProveFolds(h, l, path + [0], tk, sibs, term, xs);
      } else {
        end := ProveFolds(h, r, path + [1], tk, sibs, term, xs);
      }
      FoldStep(h, StemOf(tk), sibs, end, d, Root(h, l), Root(h, r), xs);
  }

  /**
   * Completeness: for every committed state and every key, the proof the
   * prover serves, in its binary form, is accepted for the state's answer,
   * unless a string hashed to compute the root hashes to the empty word.
   */
  lemma ServedProofAccepted(h: Hash, t: Trie, tk: Word, xs: set<Bytes>)
    requires Canonical(t, []) && TrieIn(h, t, xs)
    ensures Proves(h, Root(h, t), tk, Lookup(t, tk, 0), Encode(Prove(h, t, tk, 0))) || HitsZero(h, xs)
  {
    var p := Prove(h, t, tk, 0);
    ProveShape(h, t, [], tk);
    DecodeEncode(p);
    if !HitsZero(h, xs) {
      assert p.siblings[0..] == p.siblings;
      var end := ProveFolds(h, t, [], tk, p.siblings, p.terminal, xs);
      assert TerminalHash(h, tk, Lookup(t, tk, 0), p) == Some(end);
      assert Accepts(h, Root(h, t), tk, Lookup(t, tk, 0), p);
    }
  }

  // Checking the served proof hashes nothing that computing the root did not.

  /** Folding up from a slot hashes what its ancestors' hashes took. */
  lemma {:induction false} ServedSlotsIn(h: Hash, m: Slots, slot: Byte, sibs: seq<Word>, k: nat, xs: set<Bytes>)
    requires k <= |sibs| && SlotNodeIn(h, m, k, Up(slot, k), xs)
    requires forall j :: 0 <= j < k ==> sibs[j] == SlotSibling(h, m, slot, j)
    ensures LeafIn(SlotValue(m, slot), xs) && SlotsIn(h, slot, LeafHash(h, SlotValue(m, slot)), sibs, k, xs)
  {
    if k > 0 {
      ParentIn(h, m, slot, k - 1, Up(slot, k - 1), xs);
      ServedSlotsIn(h, m, slot, sibs, k - 1, xs);
      SiblingsFold(h, m, slot, LeafHash(h, SlotValue(m, slot)), sibs, k - 1);
    }
  }

  /** A slot's ancestor took the ancestor below and its sibling, in the order of their indices. */
  lemma ParentIn(h: Hash, m: Slots, slot: nat, k: nat, i: nat, xs: set<Bytes>)
    requires i == Up(slot, k) && SlotNodeIn(h, m, k + 1, Up(slot, k + 1), xs)
    ensures SlotNodeIn(h, m, k, i, xs)
    ensures if i % 2 == 0 then PairIn(SlotNode(h, m, k, i), SlotSibling(h, m, slot, k), xs)
      else PairIn(SlotSibling(h, m, slot, k), SlotNode(h, m, k, i), xs)
  {
    var j := i / 2;
    if i % 2 == 0 {
      assert i == 2 * j && Sibling(i) == 2 * j + 1;
    } else {
      assert i == 2 * j + 1 && Sibling(i) == 2 * j;
    }
  }

  lemma ServedOwnStemIn(h: Hash, m: Slots, tk: Word, xs: set<Bytes>)
    requires SlotNodeIn(h, m, SLOT_LEVELS, 0, xs) && StemBytes(StemOf(tk), SlotNode(h, m, SLOT_LEVELS, 0)) in xs
    ensures TerminalIn(h, tk, SlotValue(m, SlotOf(tk)), OwnStem(SlotSiblings(h, m, SlotOf(tk), SLOT_LEVELS)), xs)
  {
    var slot, sibs := SlotOf(tk), SlotSiblings(h, m, SlotOf(tk), SLOT_LEVELS);
    Shifted(slot);
    ServedSlotsIn(h, m, slot, sibs, |sibs|, xs);
    SiblingsFold(h, m, slot, LeafHash(h, SlotValue(m, slot)), sibs, |sibs|);
  }

  lemma {:induction false} ServedTerminalIn(h: Hash, t: Trie, path: Path, tk: Word, xs: set<Bytes>)
    requires Canonical(t, path) && OnPath(StemOf(tk), path) && TrieIn(h, t, xs)
    ensures var term := Prove(h, t, tk, |path|).terminal;
      && (term.OwnStem? ==> |term.slotSiblings| == SLOT_LEVELS)
      && TerminalIn(h, tk, Lookup(t, tk, |path|), term, xs)
    decreases t
  {
    match t
    case Empty =>
    case Leaf(s, m) =>
      if s == StemOf(tk) { ServedOwnStemIn(h, m, tk, xs); }
    case Node(l, r) =>
      StepPath(StemOf(tk), path);
      if Bit(StemOf(tk), |path|) == 0 {
        ServedTerminalIn(h, l, path + [0], tk, xs);
      } else {
        ServedTerminalIn(h, r, path + [1], tk, xs);
      }
  }

  /** So the strings hashed for the root hold those hashed to check what is served. */
  lemma ServedRunIn(h: Hash, t: Trie, tk: Word, xs: set<Bytes>)
    requires Canonical(t, []) && TrieIn(h, t, xs) && !HitsZero(h, xs)
    ensures RunIn(h, tk, Lookup(t, tk, 0), Encode(Prove(h, t, tk, 0)), xs)
  {
    var p := Prove(h, t, tk, 0);
    ProveShape(h, t, [], tk);
    DecodeEncode(p);
    assert p.siblings[0..] == p.siblings;
    ServedTerminalIn(h, t, [], tk, xs);
    var _ := ProveFolds(h, t, [], tk, p.siblings, p.terminal, xs);
  }

  /**
   * Soundness: what the checker accepts under a state's root is the state's
   * answer, unless the strings hashed to compute the root and to check the
   * accepted proof break the hash.
   */
  lemma AcceptedIsHeld(h: Hash, t: Trie, tk: Word, value: Option<Bytes>, proof: Bytes, xs: set<Bytes>)
    requires Canonical(t, []) && Proves(h, Root(h, t), tk, value, proof)
    requires TrieIn(h, t, xs) && RunIn(h, tk, value, proof, xs)
    ensures value == Lookup(t, tk, 0) || Broken(h, xs)
  {
    ServedProofAccepted(h, t, tk, xs);
    if !Broken(h, xs) {
      ServedRunIn(h, t, tk, xs);
      OneAnswer(h, Root(h, t), tk, value, proof, Lookup(t, tk, 0), Encode(Prove(h, t, tk, 0)), xs);
    }
  }

  /**
   * End to end: after any history of commits, the checker accepts a value or
   * absence under the root exactly when the plain map of that history says so
   * (with the served proof, for the converse), or the hash is broken.
   */
  lemma AcceptedIsCommitted(h: Hash, history: seq<Change>, tk: Word, value: Option<Bytes>, proof: Bytes,
                            xs: set<Bytes>)
    requires TrieIn(h, Commit(history), xs) && RunIn(h, tk, value, proof, xs)
    ensures var t := Commit(history);
      || Broken(h, xs)
      || ( && (Proves(h, Root(h, t), tk, value, proof) ==> value == State(history, tk))
           && Proves(h, Root(h, t), tk, State(history, tk), Encode(Prove(h, t, tk, 0))))
  {
    CommitHolds(history, tk);
    ServedProofAccepted(h, Commit(history), tk, xs);
    if Proves(h, Root(h, Commit(history)), tk, value, proof) {
      AcceptedIsHeld(h, Commit(history), tk, value, proof, xs);
    }
  }
}
