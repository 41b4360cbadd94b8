// The one ledger behind every agent account: the installed grant, what was
// moved under it, and a count of all actions. Accounts differ in how they check
// a call; what a granted call does to this ledger is the same.
module AgentLedger {
  import opened Encoding
  import opened Hashing
  import opened StateProof
  import Trie = StateTrie
  import opened Agent

  datatype Ledger = Ledger(grant: Option<Grant>, spent: nat, nonce: nat, exactUsed: bool)

  const EMPTY: Ledger := Ledger(None, 0, 0, false)

  datatype Step =
    | Install(g: Grant)
    | Act(nowMs: nat, amount: nat, refund: nat, exact: bool)

  /** A grant may follow the installed one: it is later, or voids it. */
  predicate Follows(g: Grant, current: Option<Grant>) {
    match current
    case None => true
    case Some(cur) => g.seqNo > cur.seqNo || (g.seqNo == cur.seqNo && g.void && !cur.void)
  }

  /** It opens a new sequence number, rather than voiding the installed grant. */
  predicate Opens(g: Grant, current: Option<Grant>) {
    current.None? || g.seqNo > current.value.seqNo
  }

  predicate InWindow(g: Grant, nowMs: nat) { g.notBeforeMs <= nowMs <= g.notAfterMs }

  /** A grant is installed, not void, and this is its time. */
  predicate Live(l: Ledger, nowMs: nat) {
    l.grant.Some? && !l.grant.value.void && InWindow(l.grant.value, nowMs)
  }

  /** What grant `g` still lets an action move. */
  predicate Within(l: Ledger, g: Grant, amount: nat, refund: nat, exact: bool) {
    && refund <= g.relayFeeMax && exact == IsExact(g)
    && (if exact then !l.exactUsed else amount <= g.perActionMax && l.spent + amount <= g.budget)
    && l.nonce + 1 < U64 && l.spent + amount < U128
  }

  predicate Authorizes(l: Ledger, nowMs: nat, amount: nat, refund: nat, exact: bool) {
    Live(l, nowMs) && Within(l, l.grant.value, amount, refund, exact)
  }

  predicate Allows(l: Ledger, s: Step) {
    match s
    case Install(g) => Follows(g, l.grant)
    case Act(nowMs, amount, refund, exact) => Authorizes(l, nowMs, amount, refund, exact)
  }

  /** The ledger once `g` is installed: a new number starts afresh, a void keeps the counts. */
  function WithGrant(l: Ledger, g: Grant): Ledger {
    if Opens(g, l.grant) then Ledger(Some(g), 0, l.nonce, false) else l.(grant := Some(g))
  }

  /** The ledger once an action is counted. */
  function Counted(l: Ledger, amount: nat, exact: bool): Ledger {
    Ledger(l.grant, l.spent + amount, l.nonce + 1, l.exactUsed || exact)
  }

  function Apply(l: Ledger, s: Step): Ledger
    requires Allows(l, s)
  {
    match s
    case Install(g) => WithGrant(l, g)
    case Act(_, amount, _, exact) => Counted(l, amount, exact)
  }

  // ---- Calls ----

  /** Who an account is: what every grant it installs must name. */
  datatype Identity = Identity(agent: Word, chain: Word, treeKey: Word, account: Word)

  predicate IsFor(g: Grant, id: Identity) {
    g.chain == id.chain && g.agent == id.agent && g.account == id.account
  }

  /** The bytes are a grant of this account, proven under a final state root. */
  predicate Genuine(h: Hash, id: Identity, root: Option<Word>, grant: Bytes, proof: Bytes) {
    && root.Some? && Proves(h, root.value, id.treeKey, Some(grant), proof)
    && DecodeGrant(grant).Some? && IsFor(DecodeGrant(grant).value, id)
  }

  /**
   * A grant an account takes names its chain, agent and account; and under the
   * root of a committed state, its bytes are what that state holds for it, or the
   * hash is broken.
   */
  lemma GenuineIsCommitted(h: Hash, id: Identity, grant: Bytes, proof: Bytes, history: seq<Trie.Change>, xs: set<Bytes>)
    requires Genuine(h, id, Some(Trie.Root(h, Trie.Commit(history))), grant, proof)
    requires Trie.TrieIn(h, Trie.Commit(history), xs) && RunIn(h, id.treeKey, Some(grant), proof, xs)
    ensures Broken(h, xs) || Trie.State(history, id.treeKey) == Some(grant)
    ensures var g := DecodeGrant(grant); g.Some? && g.value.chain == id.chain && g.value.agent == id.agent
                                         && g.value.account == id.account
  {
    Trie.AcceptedIsCommitted(h, history, id.treeKey, Some(grant), proof, xs);
  }

  /** And a state's own grant for this account is taken with the proof served for it. */
  lemma CommittedIsGenuine(h: Hash, id: Identity, g: Grant, history: seq<Trie.Change>, xs: set<Bytes>)
    requires GrantFits(g) && g.chain == id.chain && g.agent == id.agent && g.account == id.account
    requires Trie.State(history, id.treeKey) == Some(EncodeGrant(g)) && Trie.TrieIn(h, Trie.Commit(history), xs)
    ensures var t := Trie.Commit(history);
      || HitsZero(h, xs)
      || Genuine(h, id, Some(Trie.Root(h, t)), EncodeGrant(g), Encode(Trie.Prove(h, t, id.treeKey, 0)))
  {
    GrantDecodeEncode(g);
    Trie.CommitHolds(history, id.treeKey);
    Trie.ServedProofAccepted(h, Trie.Commit(history), id.treeKey, xs);
  }

  /** The step an action asks of the ledger. */
  function StepOf(nowMs: nat, a: Action, exact: bool): Step { Act(nowMs, a.amount, a.refund, exact) }

  /** The ledger allows what the action's bytes ask of it. */
  predicate LedgerAllows(l: Ledger, nowMs: nat, action: Bytes, exact: bool) {
    && DecodeAction(action).Some?
    && Allows(l, StepOf(nowMs, DecodeAction(action).value, exact))
  }

  /** What the bytes of an allowed action ask for is what is within the grant, and what is counted. */
  lemma ActionCounts(l: Ledger, nowMs: nat, action: Bytes, exact: bool)
    requires LedgerAllows(l, nowMs, action, exact)
    ensures var a, g := DecodeAction(action).value, l.grant.value;
      && !g.void && g.notBeforeMs <= nowMs <= g.notAfterMs && a.refund <= g.relayFeeMax && exact == IsExact(g)
      && (exact ==> !l.exactUsed) && (!exact ==> a.amount <= g.perActionMax && l.spent + a.amount <= g.budget)
      && Apply(l, StepOf(nowMs, a, exact)) == Ledger(l.grant, l.spent + a.amount, l.nonce + 1, l.exactUsed || exact)
  {
  }

  // ---- Runs ----

  datatype Event =
    | Installed(g: Grant)
    | Acted(under: Grant, nowMs: nat, nonce: nat, amount: nat, refund: nat)

  datatype Run = Run(ledger: Ledger, log: seq<Event>)

  function EventOf(l: Ledger, s: Step): Event
    requires Allows(l, s)
  {
    match s
    case Install(g) => Installed(g)
    case Act(nowMs, amount, refund, _) => Acted(l.grant.value, nowMs, l.nonce, amount, refund)
  }

  /** The ledger and what happened, after any sequence of attempted steps. */
  function Play(steps: seq<Step>): Run {
    if steps == [] then Run(EMPTY, []) else
    var r, s := Play(steps[..|steps| - 1]), steps[|steps| - 1];
    if Allows(r.ledger, s) then Run(Apply(r.ledger, s), r.log + [EventOf(r.ledger, s)]) else r
  }

  /** One more step is one more move of the ledger, if it is allowed. */
  lemma PlayOn(steps: seq<Step>, s: Step)
    ensures var l := Play(steps).ledger; Play(steps + [s]).ledger == if Allows(l, s) then Apply(l, s) else l
  {
    assert (steps + [s])[..|steps|] == steps;
  }

  predicate Under(e: Event, seqNo: nat) { e.Acted? && e.under.seqNo == seqNo }

  /** How many actions ran, and what they moved and refunded, under a sequence number. */
  function Count(log: seq<Event>, seqNo: nat): nat {
    if log == [] then 0 else
    Count(log[..|log| - 1], seqNo) + if Under(log[|log| - 1], seqNo) then 1 else 0
  }

  function Moved(log: seq<Event>, seqNo: nat): nat {
    if log == [] then 0 else
    var e := log[|log| - 1];
    Moved(log[..|log| - 1], seqNo) + if Under(e, seqNo) then e.amount else 0
  }

  function Refunded(log: seq<Event>, seqNo: nat): nat {
    if log == [] then 0 else
    var e := log[|log| - 1];
    Refunded(log[..|log| - 1], seqNo) + if Under(e, seqNo) then e.refund else 0
  }

  function Actions(log: seq<Event>): nat {
    if log == [] then 0 else Actions(log[..|log| - 1]) + if log[|log| - 1].Acted? then 1 else 0
  }

  /** What a sequence number's grant bounds: an exact grant's uses, an open grant's spending. */
  predicate Bounded(log: seq<Event>, g: Grant) {
    && (IsExact(g) ==> Count(log, g.seqNo) <= 1)
    && (!IsExact(g) ==> Moved(log, g.seqNo) <= g.budget)
    && Refunded(log, g.seqNo) <= Count(log, g.seqNo) * g.relayFeeMax
  }

  /** The counters say what the log says about the installed grant. */
  predicate CountersTrue(l: Ledger, log: seq<Event>) {
    && l.nonce == Actions(log)
    && (l.grant.None? ==> log == [])
    && (l.grant.Some? ==> var n := l.grant.value.seqNo; l.spent == Moved(log, n))
    && (l.grant.Some? && IsExact(l.grant.value) && !l.grant.value.void ==>
        var n := l.grant.value.seqNo; Count(log, n) <= 1 && (l.exactUsed <==> Count(log, n) == 1))
  }

  /** Nothing in the log is past the installed grant, and a live grant is the only one of its number. */
  predicate Ordered(l: Ledger, log: seq<Event>) {
    forall i :: 0 <= i < |log| ==>
      && l.grant.Some?
      && (log[i].Acted? ==> log[i].under.seqNo <= l.grant.value.seqNo && log[i].nonce < l.nonce)
      && (log[i].Installed? ==> log[i].g.seqNo <= l.grant.value.seqNo)
      && (log[i].Installed? && !log[i].g.void && log[i].g.seqNo == l.grant.value.seqNo && !l.grant.value.void
          ==> log[i].g == l.grant.value)
  }

  /** Every grant ever installed bounds what ran under its number. */
  ghost predicate AllBounded(log: seq<Event>) {
    forall i :: 0 <= i < |log| && log[i].Installed? && !log[i].g.void ==> Bounded(log, log[i].g)
  }

  ghost predicate Kept(r: Run) {
    CountersTrue(r.ledger, r.log) && Ordered(r.ledger, r.log) && AllBounded(r.log)
      && (r.ledger.grant.Some? && !r.ledger.grant.value.void ==> Bounded(r.log, r.ledger.grant.value))
  }

  lemma Tallies(log: seq<Event>, e: Event, n: nat)
    ensures Count(log + [e], n) == Count(log, n) + if Under(e, n) then 1 else 0
    ensures Moved(log + [e], n) == Moved(log, n) + if Under(e, n) then e.amount else 0
    ensures Refunded(log + [e], n) == Refunded(log, n) + if Under(e, n) then e.refund else 0
    ensures Actions(log + [e]) == Actions(log) + if e.Acted? then 1 else 0
  {
    assert (log + [e])[..|log|] == log;
  }

  /** Nothing ran yet under a number past the installed one. */
  lemma {:induction false} NothingYet(l: Ledger, log: seq<Event>, n: nat)
    requires Ordered(l, log) && (l.grant.Some? ==> l.grant.value.seqNo < n)
    ensures Count(log, n) == 0 && Moved(log, n) == 0 && Refunded(log, n) == 0
  {
    if log != [] {
      var before, e := log[..|log| - 1], log[|log| - 1];
      assert log == before + [e];
      assert forall i :: 0 <= i < |before| ==> before[i] == log[i];
      assert log[|log| - 1] == e;
      NothingYet(l, before, n);
      Tallies(before, e, n);
    }
  }

  lemma BoundedAppend(log: seq<Event>, e: Event, g: Grant)
    requires Bounded(log, g) && !Under(e, g.seqNo)
    ensures Bounded(log + [e], g)
  {
    Tallies(log, e, g.seqNo);
  }

  lemma InstallCounters(l: Ledger, log: seq<Event>, g: Grant)
    requires CountersTrue(l, log) && Ordered(l, log) && Follows(g, l.grant)
    ensures CountersTrue(Apply(l, Install(g)), log + [Installed(g)])
    ensures Ordered(Apply(l, Install(g)), log + [Installed(g)])
    ensures Opens(g, l.grant) ==> Bounded(log + [Installed(g)], g)
  {
    var e := Installed(g);
    Tallies(log, e, g.seqNo);
    if Opens(g, l.grant) {
      NothingYet(l, log, g.seqNo);
    }
  }

  lemma AllBoundedAppend(log: seq<Event>, e: Event)
    requires AllBounded(log)
    requires e.Installed? && !e.g.void ==> Bounded(log + [e], e.g)
    requires forall i ::
      0 <= i < |log| && log[i].Installed? && !log[i].g.void && Under(e, log[i].g.seqNo) ==> Bounded(log + [e], log[i].g)
    ensures AllBounded(log + [e])
  {
    var all := log + [e];
    forall i | 0 <= i < |all| && all[i].Installed? && !all[i].g.void
      ensures Bounded(all, all[i].g)
    {
      if i < |log| {
        assert all[i] == log[i];
        if !Under(e, log[i].g.seqNo) { BoundedAppend(log, e, log[i].g); }
      }
    }
  }

  lemma InstallKept(r: Run, g: Grant)
    requires Kept(r) && Follows(g, r.ledger.grant)
    ensures Kept(Run(Apply(r.ledger, Install(g)), r.log + [Installed(g)]))
  {
    InstallCounters(r.ledger, r.log, g);
    AllBoundedAppend(r.log, Installed(g));
  }

  lemma ActCounters(l: Ledger, log: seq<Event>, s: Step)
    requires s.Act? && CountersTrue(l, log) && Ordered(l, log) && Allows(l, s)
    ensures CountersTrue(Apply(l, s), log + [EventOf(l, s)]) && Ordered(Apply(l, s), log + [EventOf(l, s)])
  {
    Tallies(log, EventOf(l, s), l.grant.value.seqNo);
  }

  lemma ActBounded(l: Ledger, log: seq<Event>, s: Step)
    requires s.Act? && CountersTrue(l, log) && Allows(l, s) && Bounded(log, l.grant.value)
    ensures Bounded(log + [EventOf(l, s)], l.grant.value)
  {
    var g := l.grant.value;
    Tallies(log, EventOf(l, s), g.seqNo);
    var n := Count(log, g.seqNo);
    assert (n + 1) * g.relayFeeMax == n * g.relayFeeMax + g.relayFeeMax;
  }

  lemma ActKept(r: Run, s: Step)
    requires Kept(r) && s.Act? && Allows(r.ledger, s)
    ensures Kept(Run(Apply(r.ledger, s), r.log + [EventOf(r.ledger, s)]))
  {
    ActCounters(r.ledger, r.log, s);
    ActBounded(r.ledger, r.log, s);
    AllBoundedAppend(r.log, EventOf(r.ledger, s));
  }

  /**
   * In every run: the nonce counts the actions; what is spent is what moved
   * since the grant's number was installed; every open grant ever installed
   * keeps its budget, every exact one runs at most once, and refunds stay within
   * one fee per action.
   */
  lemma {:induction false} PlayKept(steps: seq<Step>)
    ensures Kept(Play(steps))
  {
    if steps != [] {
      PlayKept(steps[..|steps| - 1]);
      var r, s := Play(steps[..|steps| - 1]), steps[|steps| - 1];
      if Allows(r.ledger, s) {
        if s.Install? { InstallKept(r, s.g); } else { ActKept(r, s); }
      }
    }
  }

  /** The action ran in the time of its grant, within what it lets one action move and refund. */
  predicate InTerms(e: Event) {
    e.Acted? ==>
      && !e.under.void && e.under.notBeforeMs <= e.nowMs <= e.under.notAfterMs && e.refund <= e.under.relayFeeMax
      && (!IsExact(e.under) ==> e.amount <= e.under.perActionMax)
  }

  /** In every run each action ran within the terms of a grant installed before it. */
  lemma {:induction false} EveryActionInTerms(steps: seq<Step>, i: nat)
    requires i < |Play(steps).log|
    ensures var log := Play(steps).log;
      InTerms(log[i]) && (log[i].Acted? ==> exists k :: 0 <= k < i && log[k] == Installed(log[i].under))
  {
    var before, s := steps[..|steps| - 1], steps[|steps| - 1];
    var r, log := Play(before), Play(steps).log;
    if i < |r.log| {
      EveryActionInTerms(before, i);
      assert log[i] == r.log[i];
      if log[i].Acted? {
        var k :| 0 <= k < i && r.log[k] == Installed(log[i].under);
        assert log[k] == r.log[k];
      }
    } else if s.Act? {
      var k := GrantWasInstalled(before);
      assert log[k] == r.log[k];
    }
  }

  /** The grant held is one that was installed. */
  lemma {:induction false} GrantWasInstalled(steps: seq<Step>) returns (k: nat)
    requires Play(steps).ledger.grant.Some?
    ensures k < |Play(steps).log| && Play(steps).log[k] == Installed(Play(steps).ledger.grant.value)
  {
    var before, s := steps[..|steps| - 1], steps[|steps| - 1];
    var r, log := Play(before), Play(steps).log;
    if Allows(r.ledger, s) && s.Install? {
      k := |r.log|;
    } else {
      k := GrantWasInstalled(before);
      assert log[k] == r.log[k];
    }
  }

  /** A live open grant lets move whatever fits its terms, and it counts. */
  lemma OpenGrantActs(l: Ledger, nowMs: nat, amount: nat, refund: nat)
    requires l.grant.Some? && !l.grant.value.void && !IsExact(l.grant.value)
    requires var g := l.grant.value;
      && g.notBeforeMs <= nowMs <= g.notAfterMs && refund <= g.relayFeeMax
      && amount <= g.perActionMax && l.spent + amount <= g.budget && g.budget < U128 && l.nonce + 1 < U64
    ensures Allows(l, Act(nowMs, amount, refund, false))
    ensures var t := Apply(l, Act(nowMs, amount, refund, false));
      t.spent == l.spent + amount && t.nonce == l.nonce + 1 && t.grant == l.grant && t.exactUsed == l.exactUsed
  {
  }

  /** A live grant can always be voided, and then nothing runs. */
  lemma VoidStops(l: Ledger, nowMs: nat, amount: nat, refund: nat, exact: bool)
    requires l.grant.Some? && !l.grant.value.void
    ensures var v := Install(l.grant.value.(void := true));
      && Allows(l, v) && Apply(l, v).spent == l.spent
      && !Allows(Apply(l, v), Act(nowMs, amount, refund, exact))
  {
  }

  /** What leaves an account under an open grant: at most its budget and one relay fee per action. */
  lemma SentWithinBudget(steps: seq<Step>, g: Grant)
    requires Installed(g) in Play(steps).log && !g.void && !IsExact(g)
    ensures var log := Play(steps).log;
      Moved(log, g.seqNo) + Refunded(log, g.seqNo) <= g.budget + Count(log, g.seqNo) * g.relayFeeMax
  {
    PlayKept(steps);
  }

  /** An exact grant's action runs at most once, whatever is tried. */
  lemma ExactRunsOnce(steps: seq<Step>, g: Grant)
    requires Installed(g) in Play(steps).log && !g.void && IsExact(g)
    ensures Count(Play(steps).log, g.seqNo) <= 1
  {
    PlayKept(steps);
  }

  /** Sequence numbers never go back, and a void is final: nothing runs under its number again. */
  lemma {:induction false} NeverBack(steps: seq<Step>, n: nat)
    requires n <= |steps|
    ensures var a, b := Play(steps[..n]).ledger, Play(steps).ledger;
      a.grant.Some? ==>
        && b.grant.Some? && a.grant.value.seqNo <= b.grant.value.seqNo
        && (a.grant.value.void && a.grant.value.seqNo == b.grant.value.seqNo ==> b.grant == a.grant)
    ensures var a, b := Play(steps[..n]), Play(steps);
      a.ledger.grant.Some? && a.ledger.grant.value.void ==>
        Count(b.log, a.ledger.grant.value.seqNo) == Count(a.log, a.ledger.grant.value.seqNo)
    decreases |steps|
  {
    if n == |steps| {
      assert steps[..n] == steps;
    } else {
      var before := steps[..|steps| - 1];
      assert before[..n] == steps[..n];
      NeverBack(before, n);
      NeverBackStep(Play(steps[..n]), Play(before), steps[|steps| - 1]);
    }
  }

  lemma NeverBackStep(a: Run, r: Run, s: Step)
    requires a.ledger.grant.Some? ==>
      && r.ledger.grant.Some? && a.ledger.grant.value.seqNo <= r.ledger.grant.value.seqNo
      && (a.ledger.grant.value.void && a.ledger.grant.value.seqNo == r.ledger.grant.value.seqNo ==>
          r.ledger.grant == a.ledger.grant)
    ensures a.ledger.grant.Some? && Allows(r.ledger, s) ==> var b := Apply(r.ledger, s);
      && b.grant.Some? && a.ledger.grant.value.seqNo <= b.grant.value.seqNo
      && (a.ledger.grant.value.void && a.ledger.grant.value.seqNo == b.grant.value.seqNo ==> b.grant == a.ledger.grant)
      && (a.ledger.grant.value.void ==>
          var m := a.ledger.grant.value.seqNo; Count(r.log + [EventOf(r.ledger, s)], m) == Count(r.log, m))
  {
    if a.ledger.grant.Some? && Allows(r.ledger, s) {
      Tallies(r.log, EventOf(r.ledger, s), a.ledger.grant.value.seqNo);
    }
  }

  /** The nonces of a run's actions are all different, so no two sign the same digest. */
  lemma {:induction false} NoncesDistinct(steps: seq<Step>, i: nat, j: nat)
    requires var log := Play(steps).log; i < j < |log| && log[i].Acted? && log[j].Acted?
    ensures var log := Play(steps).log; log[i].nonce < log[j].nonce < U64
  {
    var before := steps[..|steps| - 1];
    var r := Play(before);
    PlayKept(before);
    if j < |r.log| {
      NoncesDistinct(before, i, j);
    } else {
      assert r.log[i] == Play(steps).log[i];
      assert Ordered(r.ledger, r.log);
    }
  }

  /** Two signed actions of one run never share a digest, unless their preimages collide. */
  lemma DigestsDistinct(h: Hash, steps: seq<Step>, i: nat, j: nat, a: Bytes, b: Bytes, xs: set<Bytes>)
    requires var log := Play(steps).log;
      && i < j < |log| && log[i].Acted? && log[j].Acted?
      && GrantFits(log[i].under) && GrantFits(log[j].under)
      && ActBytes(ACT_DOMAIN, log[i].under, log[i].nonce, a) in xs
      && ActBytes(ACT_DOMAIN, log[j].under, log[j].nonce, b) in xs
    ensures var log := Play(steps).log;
      ActDigest(h, log[i].under, log[i].nonce, a) != ActDigest(h, log[j].under, log[j].nonce, b) || Collides(h, xs)
  {
    NoncesDistinct(steps, i, j);
    var x, y := Play(steps).log[i], Play(steps).log[j];
    var p, q := ActBytes(ACT_DOMAIN, x.under, x.nonce, a), ActBytes(ACT_DOMAIN, y.under, y.nonce, b);
    if p == q {
      ActBytesInjective(ACT_DOMAIN, x.under, x.nonce, a, y.under, y.nonce, b);
    }
  }
}
