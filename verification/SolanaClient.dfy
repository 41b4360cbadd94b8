// The Solana program over its state bytes, and why it agrees with the client
// that keeps every epoch: on the window of epochs it still holds the two are
// the same.
module SolanaClient {
  import opened Encoding
  import opened Hashing
  import opened Finality
  import opened SolanaState

  datatype Refusal = AlreadyInitialized | Uninitialized | Refused(error: Error)

  /** The root the table holds for an epoch: the first entry that names it. */
  function Find(t: seq<Entry>, epoch: nat): Option<Word> {
    if t == [] then None else if t[0].0 == epoch then Some(t[0].1) else Find(t[1..], epoch)
  }

  predicate IsFinal(a: Account, index: nat) {
    a.latest.Some? && index <= a.latest.value.index
  }

  function CheckAccount(h: Hash, seals: SealCheck, a: Account, journal: Bytes, seal: Bytes): Result<Journal, Error> {
    match Proven(h, seals, a.params, journal, seal)
    case Err(e) => Err(e)
    case Ok(j) =>
      if !Names(j, Find(a.table, j.epoch)) then Err(UnknownCommittee)
      else if IsFinal(a, j.index) then Err(AlreadyFinal)
      else Ok(j)
  }

  /** The epoch after `e` as the program computes it: 64 bits, wrapping. */
  function NextEpoch(e: nat): nat { (e + 1) % U64 }

  predicate Appends(a: Account, j: Journal) {
    j.nextCommitteeRoot != ZERO && Find(a.table, NextEpoch(j.epoch)).None?
  }

  function AcceptAccount(a: Account, j: Journal): Account {
    a.(latest := Some(LatestOf(j)),
       table := if Appends(a, j) then Push(a.table, (NextEpoch(j.epoch), j.nextCommitteeRoot)) else a.table)
  }

  function InitialAccount(params: Params, genesis: Word): Account {
    Account(true, params, None, [(0, genesis)])
  }

  /** The program's state account. */
  class State {
    const data: array<Byte>

    ghost predicate Good()
      reads data
    {
      Valid(data[..])
    }

    ghost function Held(): Account
      requires Good()
      reads data
    {
      View(data[..])
    }

    constructor (bytes: Bytes)
      requires Valid(bytes)
      ensures fresh(data) && Good() && Held() == View(bytes)
    {
      data := new Byte[|bytes|](i requires 0 <= i < |bytes| => bytes[i]);
      new;
      assert data[..] == bytes;
    }

    method CommitteeRoot(epoch: nat) returns (r: Option<Word>)
      requires Good()
      ensures r == Find(Held().table, epoch)
    {
      ghost var s := data[..];
      var n := data[O_ROOTS_LEN];
      ghost var t := Table(s, n);
      for i := 0 to n
        invariant Find(t, epoch) == Find(t[i..], epoch)
      {
        var o := O_ROOTS + 40 * i;
        assert t[i] == EntryAt(s, i);
        assert data[o..o + 8] == s[o..o + 8] && data[o + 8..o + 40] == s[o + 8..o + 40];
        if FromLE(data[o..o + 8]) == epoch {
          return Some(data[o + 8..o + 40]);
        }
        assert t[i..][1..] == t[i + 1..];
      }
      return None;
    }

    method SetCommitteeRoot(epoch: nat, root: Word)
      requires Good() && epoch < U64
      modifies data
      ensures Good() && Held() == old(Held()).(table := Push(old(Held()).table, (epoch, root)))
    {
      ghost var s := data[..];
      var n := data[O_ROOTS_LEN];
      if n == EPOCHS {
        WriteBytes(data, O_ROOTS, data[O_ROOTS + 40..O_ROOTS + 40 * EPOCHS]);
        assert data[..] == MakeRoom(s);
      } else {
        data[O_ROOTS_LEN] := n + 1;
        assert data[..] == MakeRoom(s);
      }
      var o := O_ROOTS + 40 * Min(n, EPOCHS - 1);
      WriteBytes(data, o, EntryBytes(epoch, root));
      WithRootView(s, epoch, root);
    }

    method SetFinal(j: Journal)
      requires Good() && j.index < U64 && j.stateHeight < U64
      modifies data
      ensures Good() && Held() == old(Held()).(latest := Some(LatestOf(j)))
    {
      ghost var s := data[..];
      WriteBytes(data, O_HAS_FINAL, LatestBytes(LatestOf(j)));
      WithLatestView(s, LatestOf(j));
    }

    method Latest() returns (r: Option<SolanaState.Latest>)
      requires Good()
      ensures r == Held().latest
    {
      r := LatestAt(data[..]);
    }

    method Initialize(params: Params, genesis: Word) returns (r: Result<(), Refusal>)
      requires Good() && params.chainId < U64
      modifies data
      ensures Good()
      ensures r == if old(Held()).initialized then Err(AlreadyInitialized) else Ok(())
      ensures Held() == if r.Ok? then InitialAccount(params, genesis) else old(Held())
    {
      if data[O_INIT] == 1 { return Err(AlreadyInitialized); }
      WriteBytes(data, 0, Fresh(params));
      assert data[..] == Fresh(params);
      FreshView(params);
      SetCommitteeRoot(0, genesis);
      return Ok(());
    }

    method SubmitCheckpoint(h: Hash, seals: SealCheck, journal: Bytes, seal: Bytes)
      returns (r: Result<Journal, Refusal>)
      requires Good()
      modifies data
      ensures Good()
      ensures r == if !old(Held()).initialized then Err(Uninitialized) else
        match CheckAccount(h, seals, old(Held()), journal, seal)
        case Err(e) => Err(Refused(e))
        case Ok(j) => Ok(j)
      ensures Held() == if r.Ok? then AcceptAccount(old(Held()), r.value) else old(Held())
    {
      ghost var a := Held();
      if data[O_INIT] != 1 { return Err(Uninitialized); }
      var proven := Proven(h, seals, ParamsAt(data[..]), journal, seal);
      if proven.Err? { return Err(Refused(proven.error)); }
      var j := proven.value;
      var held := CommitteeRoot(j.epoch);
      if !Names(j, held) { return Err(Refused(UnknownCommittee)); }
      var latest := Latest();
      if latest.Some? && j.index <= latest.value.index { return Err(Refused(AlreadyFinal)); }
      ProvenFits(h, seals, ParamsAt(data[..]), journal, seal);
      Store(j);
      return Ok(j);
    }

    method Store(j: Journal)
      requires Good() && j.index < U64 && j.stateHeight < U64
      modifies data
      ensures Good() && Held() == AcceptAccount(old(Held()), j)
    {
      SetFinal(j);
      if j.nextCommitteeRoot != ZERO {
        var next := CommitteeRoot(NextEpoch(j.epoch));
        if next.None? {
          SetCommitteeRoot(NextEpoch(j.epoch), j.nextCommitteeRoot);
        }
      }
    }
  }

  lemma ProvenFits(h: Hash, seals: SealCheck, params: Params, journal: Bytes, seal: Bytes)
    requires Proven(h, seals, params, journal, seal).Ok?
    ensures JournalFits(Proven(h, seals, params, journal, seal).value)
  {
    JournalEncodeDecode(journal);
  }

  // ---- The window ----

  /** The table is the newest at most 32 epochs of `roots`, in order, ending at `top`. */
  ghost predicate Window(t: seq<Entry>, roots: map<nat, Word>, top: nat) {
    && |t| == Min(top + 1, EPOCHS)
    && (forall e: nat :: e in roots <==> e <= top)
    && forall i :: 0 <= i < |t| ==> t[i] == (top + 1 - |t| + i, roots[top + 1 - |t| + i])
  }

  /** Looking an epoch up in a window finds its root exactly when it is still held. */
  lemma {:induction false} FindFrom(t: seq<Entry>, low: nat, roots: map<nat, Word>, epoch: nat)
    requires forall e: nat :: low <= e < low + |t| ==> e in roots
    requires forall i :: 0 <= i < |t| ==> t[i] == (low + i, roots[low + i])
    ensures Find(t, epoch) == if low <= epoch < low + |t| then Some(roots[epoch]) else None
  {
    if t != [] {
      forall i | 0 <= i < |t| - 1
        ensures t[1..][i] == (low + 1 + i, roots[low + 1 + i])
      {
        assert t[1..][i] == t[i + 1];
      }
      FindFrom(t[1..], low + 1, roots, epoch);
    }
  }

  lemma FindInWindow(t: seq<Entry>, roots: map<nat, Word>, top: nat, epoch: nat)
    requires Window(t, roots, top)
    ensures Find(t, epoch) == if top + 1 - |t| <= epoch <= top then Some(roots[epoch]) else None
  {
    FindFrom(t, top + 1 - |t|, roots, epoch);
  }

  lemma PushInWindow(t: seq<Entry>, roots: map<nat, Word>, top: nat, root: Word)
    requires Window(t, roots, top)
    ensures Window(Push(t, (top + 1, root)), roots[top + 1 := root], top + 1)
  {
  }

  /** The latest checkpoint is the one of that journal. */
  predicate IsOf(l: SolanaState.Latest, j: Journal) {
    l.index == j.index && l.digest == j.checkpointDigest && l.stateRoot == j.stateRoot && l.stateHeight == j.stateHeight
  }

  /** The account and an unbounded client agree: the window, what is final, and which checkpoint is the latest. */
  ghost predicate Agrees(a: Account, c: Client, top: nat) {
    && Window(a.table, c.roots, top) && top < U64
    && match a.latest
       case None => c.finals == map[] && top == 0
       case Some(l) =>
         && l.index in c.finals && IsOf(l, c.finals[l.index])
         && (forall x :: x in c.finals ==> x <= l.index) && top <= l.index + 1
  }

  predicate Wraps(j: Journal) { j.nextCommitteeRoot != ZERO && j.epoch + 1 == U64 }

  /** An account and client that agree look up the same committee for whatever the account accepts. */
  lemma AcceptedAlike(h: Hash, seals: SealCheck, a: Account, c: Client, top: nat, journal: Bytes, seal: Bytes)
    requires Agrees(a, c, top) && CheckAccount(h, seals, a, journal, seal).Ok?
    requires !Wraps(CheckAccount(h, seals, a, journal, seal).value)
    ensures Submit(h, seals, a.params, c, journal, seal) == CheckAccount(h, seals, a, journal, seal)
    ensures CheckAccount(h, seals, a, journal, seal).value.epoch <= top
  {
    var j := CheckAccount(h, seals, a, journal, seal).value;
    FindInWindow(a.table, c.roots, top, j.epoch);
  }

  /** And what the client accepts the account accepts, if it is later than its latest and of an epoch still held. */
  lemma ClientAcceptedAlike(h: Hash, seals: SealCheck, a: Account, c: Client, top: nat, journal: Bytes, seal: Bytes)
    requires Agrees(a, c, top) && Submit(h, seals, a.params, c, journal, seal).Ok?
    requires var j := Submit(h, seals, a.params, c, journal, seal).value;
      top < j.epoch + EPOCHS && (a.latest.Some? ==> j.index > a.latest.value.index)
    ensures CheckAccount(h, seals, a, journal, seal) == Submit(h, seals, a.params, c, journal, seal)
  {
    var j := Submit(h, seals, a.params, c, journal, seal).value;
    SubmitChecks(h, seals, a.params, c, journal, seal);
    FindInWindow(a.table, c.roots, top, j.epoch);
  }

  /** The account appends an epoch exactly when the client learns one. */
  lemma AppendsAlike(a: Account, c: Client, top: nat, j: Journal)
    requires Agrees(a, c, top) && Find(a.table, j.epoch).Some? && j.epoch < U64 && !Wraps(j)
    ensures Appends(a, j) <==> HandsOver(c, j)
    ensures Appends(a, j) ==> j.epoch == top && NextEpoch(j.epoch) == top + 1
  {
    FindInWindow(a.table, c.roots, top, j.epoch);
    if j.nextCommitteeRoot != ZERO {
      assert NextEpoch(j.epoch) == j.epoch + 1;
      FindInWindow(a.table, c.roots, top, j.epoch + 1);
    }
  }

  /** Accepting keeps them in agreement, on the window and on what is final. */
  lemma StaysAgreed(a: Account, c: Client, top: nat, j: Journal)
    requires Agrees(a, c, top) && Find(a.table, j.epoch).Some? && JournalFits(j) && !IsFinal(a, j.index) && !Wraps(j)
    ensures Agrees(AcceptAccount(a, j), Accept(c, j), if HandsOver(c, j) then top + 1 else top)
  {
    AppendsAlike(a, c, top, j);
    if HandsOver(c, j) {
      PushInWindow(a.table, c.roots, top, j.nextCommitteeRoot);
    }
  }

  /** Only a checkpoint with the last index there is can make the epoch wrap. */
  lemma WrapNeedsLastIndex(a: Account, c: Client, top: nat, j: Journal)
    requires Agrees(a, c, top) && Find(a.table, j.epoch).Some? && JournalFits(j) && !IsFinal(a, j.index) && Wraps(j)
    ensures j.index == U64 - 1
  {
    FindInWindow(a.table, c.roots, top, j.epoch);
  }

  /** And when it does, the table is no longer a window: an evicted epoch is entered again. */
  lemma WrapReenters(a: Account, c: Client, j: Journal)
    requires Agrees(a, c, U64 - 1) && Wraps(j) && j.epoch == U64 - 1
    ensures AcceptAccount(a, j).table[EPOCHS - 1] == (0, j.nextCommitteeRoot)
    ensures forall roots: map<nat, Word>, top: nat :: !Window(AcceptAccount(a, j).table, roots, top)
  {
    FindInWindow(a.table, c.roots, U64 - 1, 0);
    assert NextEpoch(j.epoch) == 0;
    var t := AcceptAccount(a, j).table;
    assert |t| == EPOCHS && t[EPOCHS - 1].0 == 0;
  }

  /** So the table stays a window of epochs exactly when the accepted checkpoint's epoch does not wrap. */
  lemma WindowKeptIff(a: Account, c: Client, top: nat, j: Journal)
    requires Agrees(a, c, top) && Find(a.table, j.epoch).Some? && JournalFits(j) && !IsFinal(a, j.index)
    ensures (exists roots: map<nat, Word>, k: nat :: Window(AcceptAccount(a, j).table, roots, k)) <==> !Wraps(j)
  {
    FindInWindow(a.table, c.roots, top, j.epoch);
    if Wraps(j) {
      WrapReenters(a, c, j);
    } else {
      StaysAgreed(a, c, top, j);
      assert Window(AcceptAccount(a, j).table, Accept(c, j).roots, if HandsOver(c, j) then top + 1 else top);
    }
  }

  // ---- Runs ----

  /** The account, and the calls it accepted, oldest first. */
  datatype Track = Track(account: Account, accepted: seq<(Bytes, Bytes)>, indices: seq<nat>)

  function FollowOne(h: Hash, seals: SealCheck, s: Track, call: (Bytes, Bytes)): Track {
    match CheckAccount(h, seals, s.account, call.0, call.1)
    case Err(_) => s
    case Ok(j) => Track(AcceptAccount(s.account, j), s.accepted + [call], s.indices + [j.index])
  }

  function Follow(h: Hash, seals: SealCheck, params: Params, genesis: Word, calls: seq<(Bytes, Bytes)>): Track {
    if calls == [] then Track(InitialAccount(params, genesis), [], [])
    else FollowOne(h, seals, Follow(h, seals, params, genesis, calls[..|calls| - 1]), calls[|calls| - 1])
  }

  /** A call whose journal does not hand over past the last epoch there is. */
  predicate Ordinary(call: (Bytes, Bytes)) {
    var j := DecodeJournal(call.0);
    j.Some? ==> !Wraps(j.value)
  }

  /** Every accepted call was ordinary. */
  predicate AllOrdinary(s: Track) { forall c :: c in s.accepted ==> Ordinary(c) }

  lemma OrdinaryOne(h: Hash, seals: SealCheck, s: Track, call: (Bytes, Bytes))
    ensures AllOrdinary(FollowOne(h, seals, s, call)) <==>
      AllOrdinary(s) && (CheckAccount(h, seals, s.account, call.0, call.1).Ok? ==> Ordinary(call))
  {
    OneMore(s.accepted, call);
  }

  lemma OneMore<T>(s: seq<T>, x: T)
    ensures forall y :: y in s + [x] <==> y in s || y == x
  {
  }

  ghost predicate Ascending(xs: seq<nat>) {
    forall i, j :: 0 <= i < j < |xs| ==> xs[i] < xs[j]
  }

  /** The accepted indices, in the order both sides saw them, strictly increasing up to the latest. */
  ghost predicate SameIndices(a: Account, indices: seq<nat>, log: seq<Journal>) {
    && |log| == |indices|
    && (forall i :: 0 <= i < |log| ==> log[i].index == indices[i])
    && Ascending(indices)
    && (a.latest.None? <==> indices == [])
    && (indices != [] ==> a.latest.Some? && IsOf(a.latest.value, log[|log| - 1]))
  }

  /** What a run of the program keeps, against the unbounded client fed the same accepted calls. */
  ghost predicate InStep(s: Track, m: History) {
    Agrees(s.account, m.client, Top(m.log)) && SameIndices(s.account, s.indices, m.log) && |s.accepted| == |s.indices|
  }

  lemma IndexAppended(a: Account, indices: seq<nat>, log: seq<Journal>, j: Journal)
    requires SameIndices(a, indices, log) && !IsFinal(a, j.index)
    ensures SameIndices(AcceptAccount(a, j), indices + [j.index], log + [j])
  {
    var xs := indices + [j.index];
    forall i, k | 0 <= i < k < |xs|
      ensures xs[i] < xs[k]
    {
      if k == |indices| { assert indices[i] <= indices[|indices| - 1]; }
    }
  }

  lemma TopAgrees(genesis: Word, a: Account, m: History, j: Journal)
    requires Agrees(a, m.client, Top(m.log)) && KnownEpochs(genesis, m.client, m.log)
    requires Find(a.table, j.epoch).Some? && JournalFits(j) && !IsFinal(a, j.index) && !Wraps(j)
    ensures Agrees(AcceptAccount(a, j), Accept(m.client, j), Top(m.log + [j]))
  {
    StaysAgreed(a, m.client, Top(m.log), j);
    FindInWindow(a.table, m.client.roots, Top(m.log), j.epoch);
    EpochsByAccept(genesis, m.client, m.log, j);
    TopOf(m.log, j);
  }

  /** What an accepted call checked. */
  lemma CheckedAccount(h: Hash, seals: SealCheck, a: Account, journal: Bytes, seal: Bytes)
    requires CheckAccount(h, seals, a, journal, seal).Ok?
    ensures var j := CheckAccount(h, seals, a, journal, seal).value;
      && JournalFits(j) && DecodeJournal(journal) == Some(j) && Find(a.table, j.epoch).Some? && !IsFinal(a, j.index)
  {
    ProvenFits(h, seals, a.params, journal, seal);
  }

  lemma StepInStep(h: Hash, seals: SealCheck, params: Params, genesis: Word, s: Track, m: History, call: (Bytes, Bytes))
    requires InStep(s, m) && Kept(params, genesis, m) && s.account.params == params && Ordinary(call)
    requires CheckAccount(h, seals, s.account, call.0, call.1).Ok?
    ensures var j := CheckAccount(h, seals, s.account, call.0, call.1).value;
      && Submit(h, seals, params, m.client, call.0, call.1) == Ok(j)
      && InStep(Track(AcceptAccount(s.account, j), s.accepted + [call], s.indices + [j.index]),
                History(Accept(m.client, j), m.log + [j]))
  {
    var j := CheckAccount(h, seals, s.account, call.0, call.1).value;
    CheckedAccount(h, seals, s.account, call.0, call.1);
    AcceptedAlike(h, seals, s.account, m.client, Top(m.log), call.0, call.1);
    TopAgrees(genesis, s.account, m, j);
    IndexAppended(s.account, s.indices, m.log, j);
  }

  /**
   * Every run: whatever the program accepts, the unbounded client accepts when
   * fed the accepted calls alone; the two agree on the window of epochs still
   * held, and accepted indices strictly increase.
   */
  lemma {:induction false} RunInStep(h: Hash, seals: SealCheck, params: Params, genesis: Word,
                                     calls: seq<(Bytes, Bytes)>)
    requires AllOrdinary(Follow(h, seals, params, genesis, calls))
    ensures var s := Follow(h, seals, params, genesis, calls);
      s.account.params == params && InStep(s, Run(h, seals, params, genesis, s.accepted))
  {
    if calls == [] {
      assert Window([(0, genesis)], map[0 := genesis], 0);
    } else {
      var before, call := calls[..|calls| - 1], calls[|calls| - 1];
      var s := Follow(h, seals, params, genesis, before);
      OrdinaryOne(h, seals, s, call);
      RunInStep(h, seals, params, genesis, before);
      FollowInStep(h, seals, params, genesis, s, call);
    }
  }

  lemma FollowInStep(h: Hash, seals: SealCheck, params: Params, genesis: Word, s: Track, call: (Bytes, Bytes))
    requires s.account.params == params && InStep(s, Run(h, seals, params, genesis, s.accepted))
    requires CheckAccount(h, seals, s.account, call.0, call.1).Ok? ==> Ordinary(call)
    ensures var t := FollowOne(h, seals, s, call);
      t.account.params == params && InStep(t, Run(h, seals, params, genesis, t.accepted))
  {
    if CheckAccount(h, seals, s.account, call.0, call.1).Ok? {
      var m := Run(h, seals, params, genesis, s.accepted);
      RunKeeps(h, seals, params, genesis, s.accepted);
      StepInStep(h, seals, params, genesis, s, m, call);
      RunAppend(h, seals, params, genesis, s.accepted, call);
    }
  }

  lemma RunAppend(h: Hash, seals: SealCheck, params: Params, genesis: Word, calls: seq<(Bytes, Bytes)>,
                  call: (Bytes, Bytes))
    ensures Run(h, seals, params, genesis, calls + [call])
         == Step(h, seals, params, Run(h, seals, params, genesis, calls), call.0, call.1)
  {
    assert (calls + [call])[..|calls|] == calls;
  }

  /** The table holds some window of epochs. */
  ghost predicate HoldsWindow(t: seq<Entry>) { exists roots: map<nat, Word>, top: nat :: Window(t, roots, top) }

  /** Past the last epoch: nothing is accepted any more, and the table is no window. */
  ghost predicate Wrapped(a: Account) {
    a.latest.Some? && a.latest.value.index == U64 - 1 && !HoldsWindow(a.table)
  }

  lemma WrappedAcceptsNothing(h: Hash, seals: SealCheck, a: Account, call: (Bytes, Bytes))
    requires Wrapped(a)
    ensures CheckAccount(h, seals, a, call.0, call.1).Err?
  {
    if CheckAccount(h, seals, a, call.0, call.1).Ok? { CheckedAccount(h, seals, a, call.0, call.1); }
  }

  /** The one call that is not ordinary is the last to be accepted. */
  lemma WrapsNow(h: Hash, seals: SealCheck, s: Track, m: History, call: (Bytes, Bytes))
    requires InStep(s, m) && CheckAccount(h, seals, s.account, call.0, call.1).Ok? && !Ordinary(call)
    ensures Wrapped(FollowOne(h, seals, s, call).account)
  {
    var j := CheckAccount(h, seals, s.account, call.0, call.1).value;
    CheckedAccount(h, seals, s.account, call.0, call.1);
    WrapNeedsLastIndex(s.account, m.client, Top(m.log), j);
    WindowKeptIff(s.account, m.client, Top(m.log), j);
  }

  lemma {:induction false} WrappedRun(h: Hash, seals: SealCheck, params: Params, genesis: Word,
                                      calls: seq<(Bytes, Bytes)>)
    requires !AllOrdinary(Follow(h, seals, params, genesis, calls))
    ensures Wrapped(Follow(h, seals, params, genesis, calls).account)
  {
    var before, call := calls[..|calls| - 1], calls[|calls| - 1];
    var s := Follow(h, seals, params, genesis, before);
    OrdinaryOne(h, seals, s, call);
    if AllOrdinary(s) {
      RunInStep(h, seals, params, genesis, before);
      WrapsNow(h, seals, s, Run(h, seals, params, genesis, s.accepted), call);
    } else {
      WrappedRun(h, seals, params, genesis, before);
      WrappedAcceptsNothing(h, seals, s.account, call);
    }
  }

  /**
   * Over every run: the table is a window of epochs exactly when no accepted
   * checkpoint handed over past the last epoch.
   */
  lemma RunWindowIff(h: Hash, seals: SealCheck, params: Params, genesis: Word, calls: seq<(Bytes, Bytes)>)
    ensures var s := Follow(h, seals, params, genesis, calls); HoldsWindow(s.account.table) <==> AllOrdinary(s)
  {
    var s := Follow(h, seals, params, genesis, calls);
    if AllOrdinary(s) {
      RunInStep(h, seals, params, genesis, calls);
      var m := Run(h, seals, params, genesis, s.accepted);
      assert Window(s.account.table, m.client.roots, Top(m.log));
    } else {
      WrappedRun(h, seals, params, genesis, calls);
    }
  }
}
