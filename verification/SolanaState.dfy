// The finality client on Solana: everything it keeps lies in one byte array,
// with a table of the last 32 epochs' committee roots that shifts when full.
module SolanaState {
  import opened Encoding
  import opened Finality

  const EPOCHS: nat := 32
  const STATE_LEN: nat := 1435

  const O_INIT: nat := 0
  const O_IMAGE: nat := 1
  const O_CHAIN: nat := 33
  const O_GENESIS: nat := 41
  const O_HAS_FINAL: nat := 73
  const O_INDEX: nat := 74
  const O_DIGEST: nat := 82
  const O_STATE_ROOT: nat := 114
  const O_STATE_HEIGHT: nat := 146
  const O_ROOTS_LEN: nat := 154
  const O_ROOTS: nat := 155

  // ---- What the bytes mean ----

  datatype Latest = Latest(index: nat, digest: Word, stateRoot: Word, stateHeight: nat)

  type Entry = (nat, Word)

  datatype Account = Account(initialized: bool, params: Params, latest: Option<Latest>, table: seq<Entry>)

  predicate Valid(s: Bytes) { |s| == STATE_LEN && s[O_ROOTS_LEN] <= EPOCHS }

  function U64At(s: Bytes, o: nat): nat
    requires o + 8 <= |s|
  {
    FromLE(s[o..o + 8])
  }

  function WordAt(s: Bytes, o: nat): Word
    requires o + 32 <= |s|
  {
    s[o..o + 32]
  }

  function EntryAt(s: Bytes, i: nat): Entry
    requires |s| == STATE_LEN && i < EPOCHS
  {
    (U64At(s, O_ROOTS + 40 * i), WordAt(s, O_ROOTS + 40 * i + 8))
  }

  /** The first `n` entries of the table. */
  function Table(s: Bytes, n: nat): (t: seq<Entry>)
    requires |s| == STATE_LEN && n <= EPOCHS
    ensures |t| == n && forall i :: 0 <= i < n ==> t[i] == EntryAt(s, i)
  {
    if n == 0 then [] else Table(s, n - 1) + [EntryAt(s, n - 1)]
  }

  function ParamsAt(s: Bytes): Params
    requires |s| == STATE_LEN
  {
    Params(WordAt(s, O_IMAGE), U64At(s, O_CHAIN), WordAt(s, O_GENESIS))
  }

  function LatestAt(s: Bytes): Option<Latest>
    requires |s| == STATE_LEN
  {
    if s[O_HAS_FINAL] != 1 then None
    else Some(Latest(U64At(s, O_INDEX), WordAt(s, O_DIGEST), WordAt(s, O_STATE_ROOT), U64At(s, O_STATE_HEIGHT)))
  }

  function View(s: Bytes): Account
    requires Valid(s)
  {
    Account(s[O_INIT] == 1, ParamsAt(s), LatestAt(s), Table(s, s[O_ROOTS_LEN]))
  }

  // ---- Writing in place ----

  function Splice(s: Bytes, o: nat, b: Bytes): (r: Bytes)
    requires o + |b| <= |s|
    ensures |r| == |s|
  {
    s[..o] + b + s[o + |b|..]
  }

  /** A write shows in the bytes it covers and nowhere else. */
  lemma ReadSplice(s: Bytes, o: nat, b: Bytes, p: nat, n: nat)
    requires o + |b| <= |s| && p + n <= |s|
    ensures p + n <= o || o + |b| <= p ==> Splice(s, o, b)[p..p + n] == s[p..p + n]
    ensures o <= p && p + n <= o + |b| ==> Splice(s, o, b)[p..p + n] == b[p - o..p - o + n]
  {
    var r := Splice(s, o, b);
    assert forall i :: 0 <= i < |s| ==> r[i] == if o <= i < o + |b| then b[i - o] else s[i];
  }

  /** Copying a slice into the account's bytes. */
  method WriteBytes(a: array<Byte>, o: nat, b: Bytes)
    requires o + |b| <= a.Length
    modifies a
    ensures a[..] == Splice(old(a[..]), o, b)
  {
    for i := 0 to |b|
      invariant a[..o] == old(a[..o])
      invariant a[o..o + i] == b[..i]
      invariant a[o + i..] == old(a[o + i..])
    {
      a[o + i] := b[i];
      assert a[o..o + i + 1] == a[o..o + i] + [b[i]];
    }
    assert a[..] == a[..o] + a[o..o + |b|] + a[o + |b|..];
  }

  /** An entry appended to the table, the oldest dropped when it is full. */
  function Push(t: seq<Entry>, e: Entry): seq<Entry> {
    (if |t| == EPOCHS then t[1..] else t) + [e]
  }

  function Min(a: nat, b: nat): nat { if a < b then a else b }

  /** The bytes after dropping the oldest entry, or counting one more. */
  function MakeRoom(s: Bytes): (r: Bytes)
    requires Valid(s)
    ensures Valid(r)
  {
    var n := s[O_ROOTS_LEN];
    if n == EPOCHS then Splice(s, O_ROOTS, s[O_ROOTS + 40..O_ROOTS + 40 * EPOCHS]) else s[O_ROOTS_LEN := n + 1]
  }

  /** Everything outside the table and its count. */
  predicate SameFields(s: Bytes, r: Bytes)
    requires |s| == STATE_LEN && |r| == STATE_LEN
  {
    s[..O_ROOTS_LEN] == r[..O_ROOTS_LEN]
  }

  lemma SliceKept(s: Bytes, r: Bytes, p: nat, n: nat)
    requires |s| == STATE_LEN && |r| == STATE_LEN && SameFields(s, r) && p + n <= O_ROOTS_LEN
    ensures s[p..p + n] == r[p..p + n]
    ensures n > 0 ==> s[p] == r[p]
  {
    forall i | p <= i < p + n
      ensures s[i] == r[i]
    {
      assert s[..O_ROOTS_LEN][i] == s[i] && r[..O_ROOTS_LEN][i] == r[i];
    }
  }

  lemma FieldsKept(s: Bytes, r: Bytes)
    requires |s| == STATE_LEN && |r| == STATE_LEN && SameFields(s, r)
    ensures s[O_INIT] == r[O_INIT] && ParamsAt(s) == ParamsAt(r) && LatestAt(s) == LatestAt(r)
  {
    SliceKept(s, r, O_INIT, 1);
    SliceKept(s, r, O_IMAGE, 32);
    SliceKept(s, r, O_CHAIN, 8);
    SliceKept(s, r, O_GENESIS, 32);
    SliceKept(s, r, O_HAS_FINAL, 1);
    SliceKept(s, r, O_INDEX, 8);
    SliceKept(s, r, O_DIGEST, 32);
    SliceKept(s, r, O_STATE_ROOT, 32);
    SliceKept(s, r, O_STATE_HEIGHT, 8);
  }

  /** After making room, the kept entries sit at the front. */
  lemma RoomEntries(s: Bytes, i: nat)
    requires Valid(s) && i + 1 < EPOCHS
    ensures var n := s[O_ROOTS_LEN];
      EntryAt(MakeRoom(s), i) == if n == EPOCHS then EntryAt(s, i + 1) else EntryAt(s, i)
  {
    var r, b := MakeRoom(s), s[O_ROOTS + 40..O_ROOTS + 40 * EPOCHS];
    var o := O_ROOTS + 40 * i;
    if s[O_ROOTS_LEN] == EPOCHS {
      ReadSplice(s, O_ROOTS, b, o, 8);
      ReadSplice(s, O_ROOTS, b, o + 8, 32);
      assert b[40 * i..40 * i + 8] == s[o + 40..o + 48];
      assert b[40 * i + 8..40 * i + 40] == s[o + 48..o + 80];
    } else {
      assert r[o..o + 8] == s[o..o + 8] && r[o + 8..o + 40] == s[o + 8..o + 40];
    }
  }

  function EntryBytes(epoch: nat, root: Word): (b: Bytes)
    ensures |b| == 40
  {
    LE(8, epoch) + root
  }

  lemma WrittenEntry(s: Bytes, k: nat, epoch: nat, root: Word, i: nat)
    requires |s| == STATE_LEN && k < EPOCHS && i < EPOCHS && epoch < U64
    ensures EntryAt(Splice(s, O_ROOTS + 40 * k, EntryBytes(epoch, root)), i)
         == if i == k then (epoch, root) else EntryAt(s, i)
  {
    var b, o, p := EntryBytes(epoch, root), O_ROOTS + 40 * k, O_ROOTS + 40 * i;
    ReadSplice(s, o, b, p, 8);
    ReadSplice(s, o, b, p + 8, 32);
    if i == k {
      Widths();
      LERoundTrip(8, epoch);
      assert b[0..8] == LE(8, epoch) && b[8..40] == root;
    } else {
      assert p + 40 <= o || o + 40 <= p;
    }
  }

  /** The bytes after `set_committee_root`. */
  function WithRoot(s: Bytes, epoch: nat, root: Word): (r: Bytes)
    requires Valid(s)
    ensures |r| == STATE_LEN
  {
    Splice(MakeRoom(s), O_ROOTS + 40 * Min(s[O_ROOTS_LEN], EPOCHS - 1), EntryBytes(epoch, root))
  }

  lemma WithRootKeeps(s: Bytes, epoch: nat, root: Word)
    requires Valid(s)
    ensures var r := WithRoot(s, epoch, root);
      && SameFields(s, r) && Valid(r) && r[O_ROOTS_LEN] == MakeRoom(s)[O_ROOTS_LEN]
  {
    var r, m := WithRoot(s, epoch, root), MakeRoom(s);
    var o := O_ROOTS + 40 * Min(s[O_ROOTS_LEN], EPOCHS - 1);
    ReadSplice(m, o, EntryBytes(epoch, root), 0, O_ROOTS);
    assert r[0..O_ROOTS] == m[0..O_ROOTS];
    assert r[O_ROOTS_LEN] == r[0..O_ROOTS][O_ROOTS_LEN] && m[O_ROOTS_LEN] == m[0..O_ROOTS][O_ROOTS_LEN];
    assert r[..O_ROOTS_LEN] == r[0..O_ROOTS][..O_ROOTS_LEN] && m[..O_ROOTS_LEN] == m[0..O_ROOTS][..O_ROOTS_LEN];
    if s[O_ROOTS_LEN] == EPOCHS {
      ReadSplice(s, O_ROOTS, s[O_ROOTS + 40..O_ROOTS + 40 * EPOCHS], 0, O_ROOTS_LEN);
      assert m[..O_ROOTS_LEN] == m[0..O_ROOTS_LEN] && s[..O_ROOTS_LEN] == s[0..O_ROOTS_LEN];
    }
  }

  /** Setting a root appends it to the table and disturbs no other field. */
  lemma WithRootView(s: Bytes, epoch: nat, root: Word)
    requires Valid(s) && epoch < U64
    ensures Valid(WithRoot(s, epoch, root))
    ensures View(WithRoot(s, epoch, root)) == View(s).(table := Push(View(s).table, (epoch, root)))
  {
    var r, m, n := WithRoot(s, epoch, root), MakeRoom(s), s[O_ROOTS_LEN];
    WithRootKeeps(s, epoch, root);
    FieldsKept(s, r);
    RoomCount(s);
    var k := Min(n, EPOCHS - 1);
    var want := Push(View(s).table, (epoch, root));
    assert |want| == k + 1;
    forall i | 0 <= i < k + 1
      ensures EntryAt(r, i) == want[i]
    {
      WrittenEntry(m, k, epoch, root, i);
      if i < k { RoomEntries(s, i); }
    }
    assert Table(r, k + 1) == want;
  }

  lemma RoomCount(s: Bytes)
    requires Valid(s)
    ensures MakeRoom(s)[O_ROOTS_LEN] == Min(s[O_ROOTS_LEN], EPOCHS - 1) + 1
  {
    if s[O_ROOTS_LEN] == EPOCHS {
      ReadSplice(s, O_ROOTS, s[O_ROOTS + 40..O_ROOTS + 40 * EPOCHS], O_ROOTS_LEN, 1);
      assert MakeRoom(s)[O_ROOTS_LEN] == MakeRoom(s)[O_ROOTS_LEN..O_ROOTS_LEN + 1][0];
      assert s[O_ROOTS_LEN] == s[O_ROOTS_LEN..O_ROOTS_LEN + 1][0];
    }
  }

  // ---- The latest checkpoint and the parameters ----

  function LatestOf(j: Journal): Latest {
    Latest(j.index, j.checkpointDigest, j.stateRoot, j.stateHeight)
  }

  /** The bytes of the latest checkpoint, from its flag on. */
  function LatestBytes(l: Latest): (b: Bytes)
    ensures |b| == O_ROOTS_LEN - O_HAS_FINAL
  {
    [1] + LE(8, l.index) + l.digest + l.stateRoot + LE(8, l.stateHeight)
  }

  function WithLatest(s: Bytes, l: Latest): (r: Bytes)
    requires |s| == STATE_LEN
    ensures |r| == STATE_LEN
  {
    Splice(s, O_HAS_FINAL, LatestBytes(l))
  }

  lemma LatestParts(l: Latest)
    ensures var b := LatestBytes(l);
      && b[0] == 1 && b[1..9] == LE(8, l.index) && b[9..41] == l.digest && b[41..73] == l.stateRoot
      && b[73..81] == LE(8, l.stateHeight)
  {
  }

  lemma WrittenLatest(s: Bytes, l: Latest)
    requires |s| == STATE_LEN && l.index < U64 && l.stateHeight < U64
    ensures LatestAt(WithLatest(s, l)) == Some(l)
  {
    var b := LatestBytes(l);
    Widths();
    LatestParts(l);
    LERoundTrip(8, l.index);
    LERoundTrip(8, l.stateHeight);
    ReadSplice(s, O_HAS_FINAL, b, O_HAS_FINAL, 1);
    assert WithLatest(s, l)[O_HAS_FINAL] == WithLatest(s, l)[O_HAS_FINAL..O_HAS_FINAL + 1][0] == b[0];
    ReadSplice(s, O_HAS_FINAL, b, O_INDEX, 8);
    ReadSplice(s, O_HAS_FINAL, b, O_DIGEST, 32);
    ReadSplice(s, O_HAS_FINAL, b, O_STATE_ROOT, 32);
    ReadSplice(s, O_HAS_FINAL, b, O_STATE_HEIGHT, 8);
  }

  lemma ParamsKept(s: Bytes, o: nat, b: Bytes)
    requires |s| == STATE_LEN && O_HAS_FINAL <= o && o + |b| <= |s|
    ensures Splice(s, o, b)[O_INIT] == s[O_INIT] && ParamsAt(Splice(s, o, b)) == ParamsAt(s)
  {
    ReadSplice(s, o, b, O_IMAGE, 32);
    ReadSplice(s, o, b, O_CHAIN, 8);
    ReadSplice(s, o, b, O_GENESIS, 32);
  }

  lemma EntryKept(s: Bytes, o: nat, b: Bytes, i: nat)
    requires |s| == STATE_LEN && o + |b| <= O_ROOTS_LEN && i < EPOCHS
    ensures EntryAt(Splice(s, o, b), i) == EntryAt(s, i)
  {
    ReadSplice(s, o, b, O_ROOTS + 40 * i, 8);
    ReadSplice(s, o, b, O_ROOTS + 40 * i + 8, 32);
  }

  lemma TableKept(s: Bytes, o: nat, b: Bytes)
    requires Valid(s) && o + |b| <= O_ROOTS_LEN
    ensures Valid(Splice(s, o, b)) && View(Splice(s, o, b)).table == View(s).table
  {
    var r, n := Splice(s, o, b), s[O_ROOTS_LEN];
    assert r[O_ROOTS_LEN] == n;
    forall i | 0 <= i < n
      ensures EntryAt(r, i) == EntryAt(s, i)
    {
      EntryKept(s, o, b, i);
    }
    assert Table(r, n) == Table(s, n);
  }

  /** Recording a checkpoint changes the latest one and disturbs no other field. */
  lemma WithLatestView(s: Bytes, l: Latest)
    requires Valid(s) && l.index < U64 && l.stateHeight < U64
    ensures Valid(WithLatest(s, l)) && View(WithLatest(s, l)) == View(s).(latest := Some(l))
  {
    WrittenLatest(s, l);
    ParamsKept(s, O_HAS_FINAL, LatestBytes(l));
    TableKept(s, O_HAS_FINAL, LatestBytes(l));
  }

  /** A freshly filled account, before its first committee root. */
  function Fresh(p: Params): (r: Bytes)
    ensures |r| == STATE_LEN
  {
    [1] + p.imageId + LE(8, p.chainId) + p.genesisHash + Zeros(STATE_LEN - O_HAS_FINAL)
  }

  lemma FreshView(p: Params)
    requires p.chainId < U64
    ensures Valid(Fresh(p)) && View(Fresh(p)) == Account(true, p, None, [])
  {
    var r := Fresh(p);
    Widths();
    LERoundTrip(8, p.chainId);
    assert r[O_IMAGE..O_IMAGE + 32] == p.imageId;
    assert r[O_CHAIN..O_CHAIN + 8] == LE(8, p.chainId);
    assert r[O_GENESIS..O_GENESIS + 32] == p.genesisHash;
  }
}
