// Settlement-plan legs on other chains: a lock releases or refunds a leg on the
// plan's decision, proven under a checkpoint's state root, and publishes a
// running hash of what it recorded.
module Settlement {
  import opened Encoding
  import opened Hashing
  import opened StateProof
  import opened StateTrie

  const DECISION_LEN: nat := 42

  datatype Outcome = Committed | Aborted

  datatype LegState = Locked | Released | Refunded

  datatype LegError = NotLocked | Unproven | TooEarly

  // ---- The decision and its place in the state ----

  /** What the tree key of system storage slot `prefix || hex(id)` hashes. */
  function SlotKeyBytes(head: Bytes, prefix: Bytes, id: Word): Bytes {
    head + Hex(prefix) + Hex(Hex(id))
  }

  function SystemHead(): Bytes {
    TREE_KEY_DOMAIN + LE(2, 5) + Ascii("state") + Ascii("storage:")
    + Ascii("ffffffffffffffffffffffffffffffffffffffff") + Ascii(":")
  }

  function SystemSlotTreeKey(h: Hash, prefix: Bytes, id: Word): Word {
    h(SlotKeyBytes(SystemHead(), prefix, id))
  }

  function DecisionTreeKey(h: Hash, plan: Word): Word {
    SystemSlotTreeKey(h, Ascii("decision:"), plan)
  }

  /** Distinct plans decide at distinct keys. */
  lemma SlotKeysDistinct(h: Hash, head: Bytes, prefix: Bytes, a: Word, b: Word, xs: set<Bytes>)
    requires SlotKeyBytes(head, prefix, a) in xs && SlotKeyBytes(head, prefix, b) in xs
    requires h(SlotKeyBytes(head, prefix, a)) == h(SlotKeyBytes(head, prefix, b))
    ensures a == b || Collides(h, xs)
  {
    if SlotKeyBytes(head, prefix, a) == SlotKeyBytes(head, prefix, b) {
      SplitEqual(head + Hex(prefix), Hex(Hex(a)), head + Hex(prefix), Hex(Hex(b)));
      HexInjective(Hex(a), Hex(b));
      HexInjective(a, b);
    }
  }

  /** What the bytes decide for `plan`; nothing if they are no decision of it. */
  function DecodeDecision(plan: Word, decision: Bytes): Option<Outcome> {
    if |decision| != DECISION_LEN || decision[0] != 1 || decision[10..] != plan then None
    else if decision[1] == 1 then Some(Committed)
    else if decision[1] == 2 then Some(Aborted)
    else None
  }

  function EncodeDecision(plan: Word, outcome: Outcome, decidedAtMs: nat): Bytes {
    [1, if outcome.Committed? then 1 else 2] + BE(8, decidedAtMs) + plan
  }

  /** A commitment written for a plan is read back, and only for that plan. */
  lemma DecisionRoundTrip(plan: Word, outcome: Outcome, decidedAtMs: nat, other: Word)
    ensures DecodeDecision(other, EncodeDecision(plan, outcome, decidedAtMs))
         == if other == plan then Some(outcome) else None
  {
    assert EncodeDecision(plan, outcome, decidedAtMs)[10..] == plan;
  }

  function ProvenOutcome(h: Hash, root: Word, plan: Word, decision: Bytes, proof: Bytes): Option<Outcome> {
    var outcome := DecodeDecision(plan, decision);
    if outcome.Some? && Proves(h, root, DecisionTreeKey(h, plan), Some(decision), proof) then outcome else None
  }

  function SettleLeg(h: Hash, state: LegState, root: Word, plan: Word, decision: Bytes, proof: Bytes)
    : Result<LegState, LegError>
  {
    if !state.Locked? then Err(NotLocked)
    else match ProvenOutcome(h, root, plan, decision, proof)
      case None => Err(Unproven)
      case Some(Committed) => Ok(Released)
      case Some(Aborted) => Ok(Refunded)
  }

  function EscapeLeg(state: LegState, now: nat, escapeAt: nat): Result<LegState, LegError> {
    if !state.Locked? then Err(NotLocked)
    else if now < escapeAt then Err(TooEarly)
    else Ok(Refunded)
  }

  // ---- Agreement between legs ----

  /** What checking a decision hashes lies in `xs`. */
  ghost predicate DecisionIn(h: Hash, plan: Word, decision: Bytes, proof: Bytes, xs: set<Bytes>) {
    RunIn(h, DecisionTreeKey(h, plan), Some(decision), proof, xs)
  }

  /** Two legs of one plan settled by decision under one root never go opposite ways. */
  lemma LegsAgree(h: Hash, root: Word, plan: Word, d1: Bytes, p1: Bytes, d2: Bytes, p2: Bytes, xs: set<Bytes>)
    requires SettleLeg(h, Locked, root, plan, d1, p1).Ok? && SettleLeg(h, Locked, root, plan, d2, p2).Ok?
    requires DecisionIn(h, plan, d1, p1, xs) && DecisionIn(h, plan, d2, p2, xs)
    ensures SettleLeg(h, Locked, root, plan, d1, p1) == SettleLeg(h, Locked, root, plan, d2, p2) || Broken(h, xs)
  {
    OneAnswer(h, root, DecisionTreeKey(h, plan), Some(d1), p1, Some(d2), p2, xs);
  }

  /** Under a committed state's root a leg settles only as that state's decision says. */
  lemma SettlesAsDecided(h: Hash, history: seq<Change>, plan: Word, decision: Bytes, proof: Bytes, xs: set<Bytes>)
    requires SettleLeg(h, Locked, Root(h, Commit(history)), plan, decision, proof).Ok?
    requires TrieIn(h, Commit(history), xs) && DecisionIn(h, plan, decision, proof, xs)
    ensures var recorded := State(history, DecisionTreeKey(h, plan));
      || Broken(h, xs)
      || (recorded.Some? && SettleLeg(h, Locked, Root(h, Commit(history)), plan, decision, proof)
          == Ok(if DecodeDecision(plan, recorded.value) == Some(Committed) then Released else Refunded))
  {
    AcceptedIsCommitted(h, history, DecisionTreeKey(h, plan), Some(decision), proof, xs);
  }

  // ---- Runs of one leg ----

  datatype Attempt =
    | Settle(root: Word, plan: Word, decision: Bytes, proof: Bytes)
    | Escape(now: nat, escapeAt: nat)

  function Try(h: Hash, s: LegState, a: Attempt): Result<LegState, LegError> {
    match a
    case Settle(root, plan, decision, proof) => SettleLeg(h, s, root, plan, decision, proof)
    case Escape(now, escapeAt) => EscapeLeg(s, now, escapeAt)
  }

  /** The leg after each attempt; a refused one changes nothing. */
  function Leg(h: Hash, attempts: seq<Attempt>): LegState {
    if attempts == [] then Locked else
    var s := Leg(h, attempts[..|attempts| - 1]);
    match Try(h, s, attempts[|attempts| - 1])
    case Ok(next) => next
    case Err(_) => s
  }

  /** The attempt at position `i` was granted. */
  predicate Granted(h: Hash, attempts: seq<Attempt>, i: nat)
    requires i < |attempts|
  {
    Try(h, Leg(h, attempts[..i]), attempts[i]).Ok?
  }

  /** Only a locked leg moves, and never back to locked. */
  lemma TryLeaves(h: Hash, s: LegState, a: Attempt)
    ensures Try(h, s, a).Ok? ==> s == Locked && Try(h, s, a).value != Locked
  {
  }

  /** The last attempt, on the leg as the others left it. */
  lemma LastAttempt(h: Hash, attempts: seq<Attempt>)
    requires attempts != []
    ensures var n := |attempts| - 1; var s := Leg(h, attempts[..n]);
      && (Granted(h, attempts, n) ==>
          s == Locked && Leg(h, attempts) == Try(h, Locked, attempts[n]).value && Leg(h, attempts) != Locked)
      && (!Granted(h, attempts, n) ==> Leg(h, attempts) == s)
  {
    var n := |attempts| - 1;
    TryLeaves(h, Leg(h, attempts[..n]), attempts[n]);
  }

  lemma GrantedEarlier(h: Hash, attempts: seq<Attempt>, j: nat)
    requires j < |attempts| - 1
    ensures Granted(h, attempts, j) <==> Granted(h, attempts[..|attempts| - 1], j)
  {
    assert attempts[..|attempts| - 1][..j] == attempts[..j];
  }

  /** A leg granted to leave stays where it went. */
  lemma {:induction false} LegStays(h: Hash, attempts: seq<Attempt>, i: nat)
    requires i < |attempts| && Granted(h, attempts, i)
    ensures Leg(h, attempts[..i]) == Locked != Leg(h, attempts)
    ensures Try(h, Locked, attempts[i]) == Ok(Leg(h, attempts))
  {
    var n := |attempts| - 1;
    LastAttempt(h, attempts);
    if i < n {
      var before := attempts[..n];
      GrantedEarlier(h, attempts, i);
      assert before[..i] == attempts[..i];
      LegStays(h, before, i);
    }
  }

  lemma GrantedOnce(h: Hash, attempts: seq<Attempt>, i: nat, j: nat)
    requires i < j < |attempts| && Granted(h, attempts, i)
    ensures !Granted(h, attempts, j)
  {
    var early := attempts[..j];
    assert early[..i] == attempts[..i];
    LegStays(h, early, i);
    TryLeaves(h, Leg(h, early), attempts[j]);
  }

  /** In every run a leg moves at most once: once granted, it stays where it went. */
  lemma LegMovesOnce(h: Hash, attempts: seq<Attempt>, i: nat)
    requires i < |attempts| && Granted(h, attempts, i)
    ensures Try(h, Locked, attempts[i]) == Ok(Leg(h, attempts))
    ensures Leg(h, attempts[..i]) == Locked != Leg(h, attempts)
    ensures forall j :: 0 <= j < |attempts| && j != i ==> !Granted(h, attempts, j)
  {
    LegStays(h, attempts, i);
    forall j | 0 <= j < |attempts| && j != i
      ensures !Granted(h, attempts, j)
    {
      if i < j {
        GrantedOnce(h, attempts, i, j);
      } else if Granted(h, attempts, j) {
        GrantedOnce(h, attempts, j, i);
      }
    }
  }

  /** The attempt's plan was decided so, by a decision proven under its root. */
  predicate DecidedBy(h: Hash, a: Attempt, outcome: Outcome) {
    && a.Settle? && DecodeDecision(a.plan, a.decision) == Some(outcome)
    && Proves(h, a.root, DecisionTreeKey(h, a.plan), Some(a.decision), a.proof)
  }

  /** What a granted attempt is, and where it leads: a proven decision, or an escape once its time has come. */
  lemma GrantedIff(h: Hash, attempts: seq<Attempt>, i: nat)
    requires i < |attempts|
    ensures var a, s := attempts[i], Leg(h, attempts[..i]);
      && (a.Settle? ==> (Granted(h, attempts, i) <==>
          s == Locked && (DecidedBy(h, a, Committed) || DecidedBy(h, a, Aborted))))
      && (a.Escape? ==> (Granted(h, attempts, i) <==> s == Locked && a.now >= a.escapeAt))
      && (Granted(h, attempts, i) ==>
          Try(h, s, a).value == if DecidedBy(h, a, Committed) then Released else Refunded)
  {
  }

  /** A leg that has left was granted an attempt. */
  lemma {:induction false} LeftByGrant(h: Hash, attempts: seq<Attempt>) returns (i: nat)
    requires Leg(h, attempts) != Locked
    ensures i < |attempts| && Granted(h, attempts, i)
  {
    var n := |attempts| - 1;
    var before := attempts[..n];
    if Leg(h, before) == Locked {
      i := n;
    } else {
      i := LeftByGrant(h, before);
      assert before[..i] == attempts[..i];
    }
  }

  /**
   * Over every run: a leg is released exactly if an attempt was granted by a
   * proven commit, and refunded exactly if one was granted by a proven abort or
   * as an escape in its time.
   */
  lemma LegEndsAs(h: Hash, attempts: seq<Attempt>)
    ensures Leg(h, attempts) == Released <==>
      exists i :: 0 <= i < |attempts| && Granted(h, attempts, i) && DecidedBy(h, attempts[i], Committed)
    ensures Leg(h, attempts) == Refunded <==>
      exists i :: 0 <= i < |attempts| && Granted(h, attempts, i)
        && (DecidedBy(h, attempts[i], Aborted) || (attempts[i].Escape? && attempts[i].now >= attempts[i].escapeAt))
  {
    forall i | 0 <= i < |attempts| && Granted(h, attempts, i)
      ensures Leg(h, attempts) == if DecidedBy(h, attempts[i], Committed) then Released else Refunded
      ensures !DecidedBy(h, attempts[i], Committed) ==>
        DecidedBy(h, attempts[i], Aborted) || (attempts[i].Escape? && attempts[i].now >= attempts[i].escapeAt)
    {
      LegMovesOnce(h, attempts, i);
      GrantedIff(h, attempts, i);
    }
    if Leg(h, attempts) != Locked { var i := LeftByGrant(h, attempts); }
  }

  // ---- Reconciliation ----

  datatype ReconEntry = ReconEntry(plan: Word, leg: Word, kind: Byte, amount: nat)

  predicate Fits(e: ReconEntry) { e.amount < U128 }

  const RECON_DOMAIN: Bytes := Ascii("tenzro/settlement/recon/v1")

  function ReconBytes(domain: Bytes, acc: Word, e: ReconEntry): Bytes {
    domain + acc + e.plan + e.leg + [e.kind] + Zeros(16) + BE(16, e.amount)
  }

  /** The running hash after recording `entries`, in order, from zero. */
  function Recon(h: Hash, domain: Bytes, entries: seq<ReconEntry>): Word {
    if entries == [] then ZERO
    else h(ReconBytes(domain, Recon(h, domain, entries[..|entries| - 1]), entries[|entries| - 1]))
  }

  function ReconCheckpoint(count: nat, acc: Word): Bytes { BE(8, count) + acc }

  ghost predicate ReconIn(h: Hash, domain: Bytes, entries: seq<ReconEntry>, xs: set<Bytes>) {
    entries != [] ==>
      && ReconIn(h, domain, entries[..|entries| - 1], xs)
      && ReconBytes(domain, Recon(h, domain, entries[..|entries| - 1]), entries[|entries| - 1]) in xs
  }

  lemma ReconBytesInjective(domain: Bytes, a: Word, d: ReconEntry, b: Word, e: ReconEntry)
    requires Fits(d) && Fits(e) && ReconBytes(domain, a, d) == ReconBytes(domain, b, e)
    ensures a == b && d == e
  {
    var z := Zeros(16);
    Widths();
    SplitEqual(domain + a + d.plan + d.leg + [d.kind] + z, BE(16, d.amount),
               domain + b + e.plan + e.leg + [e.kind] + z, BE(16, e.amount));
    SplitEqual(domain + a + d.plan + d.leg + [d.kind], z, domain + b + e.plan + e.leg + [e.kind], z);
    SplitEqual(domain + a + d.plan + d.leg, [d.kind], domain + b + e.plan + e.leg, [e.kind]);
    SplitEqual(domain + a + d.plan, d.leg, domain + b + e.plan, e.leg);
    SplitEqual(domain + a, d.plan, domain + b, e.plan);
    SplitEqual(domain, a, domain, b);
    BEInjective(16, d.amount, e.amount);
  }

  lemma {:induction false} ReconAgrees(h: Hash, domain: Bytes, ds: seq<ReconEntry>, es: seq<ReconEntry>, xs: set<Bytes>)
    requires |ds| == |es| && Recon(h, domain, ds) == Recon(h, domain, es)
    requires ReconIn(h, domain, ds, xs) && ReconIn(h, domain, es, xs)
    requires (forall d :: d in ds ==> Fits(d)) && (forall e :: e in es ==> Fits(e))
    ensures ds == es || Collides(h, xs)
  {
    if ds != [] {
      var n := |ds| - 1;
      var a, b := Recon(h, domain, ds[..n]), Recon(h, domain, es[..n]);
      SameHash(h, xs, ReconBytes(domain, a, ds[n]), ReconBytes(domain, b, es[n]));
      if !Collides(h, xs) {
        ReconBytesInjective(domain, a, ds[n], b, es[n]);
        ReconAgrees(h, domain, ds[..n], es[..n], xs);
        assert ds == ds[..n] + [ds[n]] && es == es[..n] + [es[n]];
      }
    }
  }

  /** Two locks that publish one checkpoint recorded the same entries in the same order. */
  lemma CheckpointAgrees(h: Hash, ds: seq<ReconEntry>, es: seq<ReconEntry>, xs: set<Bytes>)
    requires |ds| < U64 && |es| < U64
    requires ReconCheckpoint(|ds|, Recon(h, RECON_DOMAIN, ds)) == ReconCheckpoint(|es|, Recon(h, RECON_DOMAIN, es))
    requires ReconIn(h, RECON_DOMAIN, ds, xs) && ReconIn(h, RECON_DOMAIN, es, xs)
    requires (forall d :: d in ds ==> Fits(d)) && (forall e :: e in es ==> Fits(e))
    ensures ds == es || Collides(h, xs)
  {
    Widths();
    SplitEqual(BE(8, |ds|), Recon(h, RECON_DOMAIN, ds), BE(8, |es|), Recon(h, RECON_DOMAIN, es));
    BEInjective(8, |ds|, |es|);
    ReconAgrees(h, RECON_DOMAIN, ds, es, xs);
  }
}
