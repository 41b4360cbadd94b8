// The root recomputed from scratch: from the state's stems in order, each with
// the root of its slots, and no trie. It agrees with the incrementally kept trie.
module TrieRebuild {
  import opened Encoding
  import opened Hashing
  import opened StateProof
  import opened StateTrie

  /** Whether a subtree has no stem, one or several; that is all its parent needs to know besides its hash. */
  datatype Subtree = NoStems | Single(hash: Word) | Multi(hash: Word)

  type Entry = (Stem, Word)

  function HashOf(s: Subtree): Word {
    if s.NoStems? then ZERO else s.hash
  }

  /** Two sibling subtrees as their parent: a stem alone moves up as it is. */
  function Combine(h: Hash, l: Subtree, r: Subtree): Subtree {
    match (l, r)
    case (NoStems, NoStems) => NoStems
    case (Single(x), NoStems) => Single(x)
    case (NoStems, Single(x)) => Single(x)
    case _ => Multi(h(NodeBytes(HashOf(l), HashOf(r))))
  }

  /** How many leading stems have a clear bit at `depth`. */
  function PartitionPoint(stems: seq<Entry>, depth: nat): (n: nat)
    requires depth < STEM_BITS
    ensures n <= |stems|
  {
    if stems != [] && Bit(stems[0].0, depth) == 0 then 1 + PartitionPoint(stems[1..], depth) else 0
  }

  function BuildSubtree(h: Hash, depth: nat, stems: seq<Entry>): Subtree
    decreases STEM_BITS - depth
  {
    if stems == [] then NoStems
    else if |stems| == 1 then Single(h(StemBytes(stems[0].0, stems[0].1)))
    else if depth >= STEM_BITS then NoStems
    else
      var split := PartitionPoint(stems, depth);
      Combine(h, BuildSubtree(h, depth + 1, stems[..split]), BuildSubtree(h, depth + 1, stems[split..]))
  }

  /** The stems of a trie, left to right. */
  function StemList(h: Hash, t: Trie): seq<Entry> {
    match t
    case Empty => []
    case Leaf(s, slots) => [(s, SlotNode(h, slots, SLOT_LEVELS, 0))]
    case Node(l, r) => StemList(h, l) + StemList(h, r)
  }

  function Summary(h: Hash, t: Trie): Subtree {
    match t
    case Empty => NoStems
    case Leaf(_, _) => Single(Root(h, t))
    case Node(_, _) => Multi(Root(h, t))
  }

  lemma {:induction false} AllOnPath(h: Hash, t: Trie, path: Path, i: nat)
    requires Canonical(t, path) && |path| <= STEM_BITS && i < |StemList(h, t)|
    ensures OnPath(StemList(h, t)[i].0, path)
    decreases t
  {
    if t.Node? {
      var ls := StemList(h, t.left);
      if i < |ls| {
        AllOnPath(h, t.left, path + [0], i);
        ShorterPath(Leaf(ls[i].0, map[]), path, 0);
      } else {
        AllOnPath(h, t.right, path + [1], i - |ls|);
        ShorterPath(Leaf(StemList(h, t.right)[i - |ls|].0, map[]), path, 1);
      }
    }
  }

  lemma {:induction false} Sizes(h: Hash, t: Trie, path: Path)
    requires Canonical(t, path)
    ensures t.Empty? <==> StemList(h, t) == []
    ensures t.Leaf? <==> |StemList(h, t)| == 1
    decreases t
  {
    if t.Node? {
      Sizes(h, t.left, path + [0]);
      Sizes(h, t.right, path + [1]);
    }
  }

  /** The stems sharing a node part exactly where its right child begins. */
  lemma {:induction false} SplitsAtChild(ls: seq<Entry>, rs: seq<Entry>, d: nat)
    requires d < STEM_BITS
    requires forall i :: 0 <= i < |ls| ==> Bit(ls[i].0, d) == 0
    requires forall i :: 0 <= i < |rs| ==> Bit(rs[i].0, d) == 1
    ensures PartitionPoint(ls + rs, d) == |ls|
  {
    if ls == [] {
      assert ls + rs == rs;
    } else {
      assert (ls + rs)[0] == ls[0];
      assert (ls + rs)[1..] == ls[1..] + rs;
      SplitsAtChild(ls[1..], rs, d);
    }
  }

  lemma ChildBits(h: Hash, t: Trie, path: Path, b: nat)
    requires |path| < STEM_BITS && Canonical(t, path + [b])
    ensures forall i :: 0 <= i < |StemList(h, t)| ==>
      OnPath(StemList(h, t)[i].0, path) && Bit(StemList(h, t)[i].0, |path|) == b
  {
    var es := StemList(h, t);
    forall i | 0 <= i < |es|
      ensures OnPath(es[i].0, path) && Bit(es[i].0, |path|) == b
    {
      AllOnPath(h, t, path + [b], i);
      Descend(KeyOf(es[i].0, 0), path, b);
    }
  }

  lemma BuildNode(h: Hash, d: nat, ls: seq<Entry>, rs: seq<Entry>)
    requires d < STEM_BITS && |ls| + |rs| > 1 && PartitionPoint(ls + rs, d) == |ls|
    ensures BuildSubtree(h, d, ls + rs) == Combine(h, BuildSubtree(h, d + 1, ls), BuildSubtree(h, d + 1, rs))
  {
    assert (ls + rs)[..|ls|] == ls && (ls + rs)[|ls|..] == rs;
  }

  /** Rebuilding from the list of stems gives the trie's own root. */
  lemma {:induction false} RebuildAgrees(h: Hash, t: Trie, path: Path)
    requires Canonical(t, path)
    ensures BuildSubtree(h, |path|, StemList(h, t)) == Summary(h, t)
    ensures HashOf(BuildSubtree(h, |path|, StemList(h, t))) == Root(h, t)
    decreases t
  {
    if t.Node? {
      var ls, rs := StemList(h, t.left), StemList(h, t.right);
      Sizes(h, t, path);
      ChildBits(h, t.left, path, 0);
      ChildBits(h, t.right, path, 1);
      SplitsAtChild(ls, rs, |path|);
      RebuildAgrees(h, t.left, path + [0]);
      RebuildAgrees(h, t.right, path + [1]);
      BuildNode(h, |path|, ls, rs);
      assert Combine(h, Summary(h, t.left), Summary(h, t.right)) == Multi(Root(h, t));
    }
  }

  /** `a` comes before `b`: they share a prefix and part with `a` on the left. */
  ghost predicate Before(a: Stem, b: Stem) {
    exists d :: 0 <= d < STEM_BITS && SharePrefix(a, b, d) && Bit(a, d) < Bit(b, d)
  }

  ghost predicate Ascending(es: seq<Entry>) {
    forall i, j :: 0 <= i < j < |es| ==> Before(es[i].0, es[j].0)
  }

  lemma AscendingAppend(ls: seq<Entry>, rs: seq<Entry>, path: Path)
    requires |path| < STEM_BITS && Ascending(ls) && Ascending(rs)
    requires forall i :: 0 <= i < |ls| ==> OnPath(ls[i].0, path) && Bit(ls[i].0, |path|) == 0
    requires forall i :: 0 <= i < |rs| ==> OnPath(rs[i].0, path) && Bit(rs[i].0, |path|) == 1
    ensures Ascending(ls + rs)
  {
    forall i, j | 0 <= i < |ls| && 0 <= j < |rs|
      ensures Before(ls[i].0, rs[j].0)
    {
      PartAt(ls[i].0, rs[j].0, path);
    }
  }

  /** The list the rebuild reads is the trie's stems in strictly ascending order. */
  lemma {:induction false} StemListAscending(h: Hash, t: Trie, path: Path)
    requires Canonical(t, path)
    ensures Ascending(StemList(h, t))
    decreases t
  {
    if t.Node? {
      var ls, rs := StemList(h, t.left), StemList(h, t.right);
      StemListAscending(h, t.left, path + [0]);
      StemListAscending(h, t.right, path + [1]);
      ChildBits(h, t.left, path, 0);
      ChildBits(h, t.right, path, 1);
      AscendingAppend(ls, rs, path);
    }
  }

  lemma PartAt(a: Stem, b: Stem, path: Path)
    requires |path| < STEM_BITS && OnPath(a, path) && OnPath(b, path)
    requires Bit(a, |path|) == 0 && Bit(b, |path|) == 1
    ensures Before(a, b)
  {
    assert SharePrefix(a, b, |path|);
  }

  // ---- From the state alone ----

  /** The slots the trie has for a stem, read from depth `d` on. */
  function LeafSlots(t: Trie, s: Stem, d: nat): Slots {
    match t
    case Empty => map[]
    case Leaf(own, slots) => if own == s then slots else map[]
    case Node(l, r) => if d >= STEM_BITS then map[] else LeafSlots(if Bit(s, d) == 0 then l else r, s, d + 1)
  }

  lemma {:induction false} SlotsLookup(t: Trie, s: Stem, d: nat, k: Byte)
    ensures Lookup(t, KeyOf(s, k), d) == SlotValue(LeafSlots(t, s, d), k)
    decreases t
  {
    if t.Node? && d < STEM_BITS {
      SlotsLookup(if Bit(s, d) == 0 then t.left else t.right, s, d + 1, k);
    }
  }

  /** The list has exactly the stems with slots, each with the root of its slots. */
  lemma {:induction false} Listed(h: Hash, t: Trie, path: Path, e: Entry)
    requires Canonical(t, path) && OnPath(e.0, path)
    ensures e in StemList(h, t) <==>
      var m := LeafSlots(t, e.0, |path|); m != map[] && e.1 == SlotNode(h, m, SLOT_LEVELS, 0)
    decreases t
  {
    if t.Node? {
      var b := Bit(e.0, |path|);
      StepPath(e.0, path);
      if b == 0 {
        Listed(h, t.left, path + [0], e);
        NotListed(h, t.right, path, 1, e);
      } else {
        Listed(h, t.right, path + [1], e);
        NotListed(h, t.left, path, 0, e);
      }
      assert e in StemList(h, t) <==> e in StemList(h, t.left) || e in StemList(h, t.right);
    }
  }

  lemma NotListed(h: Hash, t: Trie, path: Path, b: nat, e: Entry)
    requires |path| < STEM_BITS && Canonical(t, path + [b]) && Bit(e.0, |path|) != b
    ensures e !in StemList(h, t)
  {
    ChildBits(h, t, path, b);
  }

  /** The values a state has under a stem. */
  ghost function SlotsAt(history: seq<Change>, s: Stem): Slots {
    map k: Byte | 0 <= k < 256 && State(history, KeyOf(s, k)).Some? :: State(history, KeyOf(s, k)).value
  }

  lemma SlotsCommitted(history: seq<Change>, s: Stem)
    ensures LeafSlots(Commit(history), s, 0) == SlotsAt(history, s)
  {
    var m := LeafSlots(Commit(history), s, 0);
    forall k: Byte
      ensures SlotValue(m, k) == State(history, KeyOf(s, k))
    {
      SlotsLookup(Commit(history), s, 0, k);
      CommitHolds(history, KeyOf(s, k));
    }
    assert forall k: Byte :: (k in m <==> k in SlotsAt(history, s)) && (k in m ==> m[k] == SlotsAt(history, s)[k]) by {
      forall k: Byte
        ensures (k in m <==> k in SlotsAt(history, s)) && (k in m ==> m[k] == SlotsAt(history, s)[k])
      {
        assert SlotValue(m, k) == State(history, KeyOf(s, k));
      }
    }
  }

  /** `es` are the stems the state has values under, each with the root of those values' slots. */
  ghost predicate StemsOf(h: Hash, history: seq<Change>, es: seq<Entry>) {
    forall e: Entry :: e in es <==>
      var m := SlotsAt(history, e.0); m != map[] && e.1 == SlotNode(h, m, SLOT_LEVELS, 0)
  }

  lemma CommitListed(h: Hash, history: seq<Change>)
    ensures StemsOf(h, history, StemList(h, Commit(history)))
  {
    forall e: Entry
      ensures e in StemList(h, Commit(history)) <==>
        var m := SlotsAt(history, e.0); m != map[] && e.1 == SlotNode(h, m, SLOT_LEVELS, 0)
    {
      Listed(h, Commit(history), [], e);
      SlotsCommitted(history, e.0);
    }
  }

  /** The order is strict. */
  lemma NotBothWays(a: Stem, b: Stem)
    requires Before(a, b)
    ensures !Before(b, a) && a != b
  {
    var d :| 0 <= d < STEM_BITS && SharePrefix(a, b, d) && Bit(a, d) < Bit(b, d);
    forall e | 0 <= e < STEM_BITS && SharePrefix(b, a, e)
      ensures Bit(b, e) >= Bit(a, e)
    {
      assert e < d ==> Bit(a, e) == Bit(b, e);
    }
  }

  lemma FirstIsLeast(a: seq<Entry>, e: Entry)
    requires Ascending(a) && e in a
    ensures e == a[0] || Before(a[0].0, e.0)
  {
    var i :| 0 <= i < |a| && a[i] == e;
  }

  /** Two ascending lists begin alike, if they have the same members. */
  lemma SameFirst(a: seq<Entry>, b: seq<Entry>)
    requires Ascending(a) && Ascending(b) && (forall e :: e in a <==> e in b) && a != []
    ensures b != [] && a[0] == b[0]
  {
    assert a[0] in b && b[0] in a;
    FirstIsLeast(b, a[0]);
    FirstIsLeast(a, b[0]);
    if a[0] != b[0] { NotBothWays(a[0].0, b[0].0); }
  }

  /** A list in strictly ascending order is determined by its members. */
  lemma {:induction false} OneOrder(a: seq<Entry>, b: seq<Entry>)
    requires Ascending(a) && Ascending(b) && (forall e :: e in a <==> e in b)
    ensures a == b
    decreases |a|
  {
    assert b != [] ==> b[0] in a;
    if a != [] {
      SameFirst(a, b);
      RestMembers(a);
      RestMembers(b);
      assert Ascending(a[1..]) && Ascending(b[1..]);
      OneOrder(a[1..], b[1..]);
      assert a == [a[0]] + a[1..] && b == [b[0]] + b[1..];
    }
  }

  lemma RestMembers(a: seq<Entry>)
    requires Ascending(a) && a != []
    ensures forall e :: e in a[1..] <==> e in a && e != a[0]
  {
    forall i | 0 < i < |a|
      ensures a[i] != a[0]
    {
      NotBothWays(a[0].0, a[i].0);
    }
    assert a == [a[0]] + a[1..];
  }

  /** After any history, the root built from the state's stems in order is the root of the kept trie. */
  lemma CommitRebuilds(h: Hash, history: seq<Change>, es: seq<Entry>)
    requires Ascending(es) && StemsOf(h, history, es)
    ensures HashOf(BuildSubtree(h, 0, es)) == Root(h, Commit(history))
  {
    var own := StemList(h, Commit(history));
    CommitListed(h, history);
    StemListAscending(h, Commit(history), []);
    OneOrder(es, own);
    RebuildAgrees(h, Commit(history), []);
  }
}
