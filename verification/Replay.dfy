// Replay control for DPoP proofs: which proof ids were seen, in memory and in
// the store, through sweeps and restarts.
module Replay {
  import opened Encoding

  const SKEW: nat := 60
  const CACHE_TTL: nat := 120
  const SWEEP_INTERVAL: nat := 30

  /** When an id seen at `now` may be forgotten; the sum saturates at 64 bits. */
  function Expiry(now: nat): nat { if now + CACHE_TTL < U64 then now + CACHE_TTL else U64 - 1 }

  datatype State = State(seen: map<string, nat>, rows: map<string, nat>, lastSweep: nat)

  const EMPTY: State := State(map[], map[], 0)

  /**
   * A call: a proof presented, or the node coming up again. The clock is read
   * twice for a proof: `checkedAt` for its freshness, then `now` by the guard.
   * Deletes may fail for the keys `kept`, the row's write unless `writes`.
   */
  datatype Step =
    | Proof(checkedAt: nat, now: nat, jti: string, iat: int, kept: set<string>, writes: bool)
    | Restart(now: nat, kept: set<string>)

  /** The proof is fresh: its issue time is within the permitted skew of the clock. */
  predicate Fresh(iat: int, now: nat) { iat - SKEW <= now <= iat + SKEW }

  predicate Due(s: State, now: nat) { now >= s.lastSweep + SWEEP_INTERVAL }

  /** What a sweep leaves: memory drops what expired, the store all of that it manages to delete. */
  function Swept(s: State, now: nat, kept: set<string>): State {
    if !Due(s, now) then s else
    State(map j | j in s.seen && s.seen[j] > now :: s.seen[j],
          map j | j in s.rows && !(j in s.seen && s.seen[j] <= now && j !in kept) :: s.rows[j],
          now)
  }

  predicate IsReplay(s: State, now: nat, jti: string) { jti in s.seen && s.seen[jti] > now }

  /** What the guard makes of a fresh proof's id. */
  function Guarded(s: State, now: nat, jti: string, kept: set<string>, writes: bool): State {
    var t := Swept(s, now, kept);
    if IsReplay(t, now, jti) then t
    else State(t.seen[jti := Expiry(now)], if writes then t.rows[jti := Expiry(now)] else t.rows, t.lastSweep)
  }

  /** What a restart reads back. */
  function Hydrated(rows: map<string, nat>, now: nat, kept: set<string>): State {
    State(map j | j in rows && rows[j] > now :: rows[j],
          map j | j in rows && (rows[j] > now || j in kept) :: rows[j],
          0)
  }

  function After(s: State, step: Step): State {
    match step
    case Proof(checkedAt, now, jti, iat, kept, writes) =>
      if Fresh(iat, checkedAt) then Guarded(s, now, jti, kept, writes) else s
    case Restart(now, kept) => Hydrated(s.rows, now, kept)
  }

  /** The guard takes the id as new. */
  predicate Admits(s: State, now: nat, jti: string, kept: set<string>) { !IsReplay(Swept(s, now, kept), now, jti) }

  /** Sweeping never decides who is admitted: only an id held unexpired is refused. */
  lemma SweepDecidesNothing(s: State, now: nat, jti: string, kept: set<string>)
    ensures Admits(s, now, jti, kept) <==> !(jti in s.seen && s.seen[jti] > now)
  {
  }

  predicate Accepts(s: State, step: Step) {
    step.Proof? && Fresh(step.iat, step.checkedAt) && Admits(s, step.now, step.jti, step.kept) && step.writes
  }

  // ---- The guard ----

  class Guard {
    var seen: map<string, nat>
    var rows: map<string, nat>
    var lastSweep: nat

    ghost function Now(): State
      reads this
    {
      State(seen, rows, lastSweep)
    }

    /** A guard over the rows an earlier one left. */
    constructor (stored: map<string, nat>, now: nat, kept: set<string>)
      ensures Now() == Hydrated(stored, now, kept)
    {
      seen, rows, lastSweep := map[], stored, 0;
      new;
      Hydrate(now, kept);
    }

    /** Read back the rows that have not expired, and delete the others. */
    method Hydrate(now: nat, kept: set<string>)
      requires seen == map[] && lastSweep == 0
      modifies this
      ensures Now() == Hydrated(old(rows), now, kept)
    {
      var left := rows.Keys;
      while left != {}
        invariant left <= old(rows).Keys
        invariant forall j :: j in left ==> j in rows && rows[j] == old(rows)[j]
        invariant seen == map j | j in old(rows) && j !in left && old(rows)[j] > now :: old(rows)[j]
        invariant rows == map j | j in old(rows) && (j in left || old(rows)[j] > now || j in kept) :: old(rows)[j]
        invariant lastSweep == 0
        decreases left
      {
        var j :| j in left;
        left := left - {j};
        if rows[j] > now {
          seen := seen[j := rows[j]];
        } else if j !in kept {
          rows := rows - {j};
        }
      }
    }

    /** Sweep expired ids, at most once per interval. */
    method Sweep(now: nat, kept: set<string>)
      modifies this
      ensures Now() == Swept(old(Now()), now, kept)
    {
      if now >= lastSweep + SWEEP_INTERVAL {
        lastSweep := now;
        var gone := set j | j in seen && seen[j] <= now;
        seen := map j | j in seen && seen[j] > now :: seen[j];
        while gone != {}
          invariant gone <= set j | j in old(seen) && old(seen)[j] <= now
          invariant rows == map j | j in old(rows) && (j in gone || !(j in old(seen) && old(seen)[j] <= now && j !in kept))
            :: old(rows)[j]
          invariant seen == map j | j in old(seen) && old(seen)[j] > now :: old(seen)[j]
          invariant lastSweep == now
          decreases gone
        {
          var j :| j in gone;
          gone := gone - {j};
          if j !in kept { rows := rows - {j}; }
        }
      }
    }

    /** Accept a proof id unless it was seen and has not expired; `writes` is whether the store takes the row. */
    method GuardReplay(now: nat, jti: string, kept: set<string>, writes: bool) returns (ok: bool)
      modifies this
      ensures Now() == Guarded(old(Now()), now, jti, kept, writes)
      ensures ok <==> Admits(old(Now()), now, jti, kept) && writes
    {
      Sweep(now, kept);
      if jti in seen && seen[jti] > now { return false; }
      var exp := if now + CACHE_TTL < U64 then now + CACHE_TTL else U64 - 1;
      seen := seen[jti := exp];
      if writes { rows := rows[jti := exp]; }
      return writes;
    }

    /** Verify a proof's freshness by the caller's clock, then guard its id by this one. */
    method Present(checkedAt: nat, now: nat, jti: string, iat: int, kept: set<string>, writes: bool) returns (ok: bool)
      modifies this
      ensures Now() == After(old(Now()), Proof(checkedAt, now, jti, iat, kept, writes))
      ensures ok <==> Accepts(old(Now()), Proof(checkedAt, now, jti, iat, kept, writes))
    {
      var skew := if checkedAt >= iat then checkedAt - iat else iat - checkedAt;
      if skew > SKEW { return false; }
      ok := GuardReplay(now, jti, kept, writes);
    }
  }

  // ---- Runs ----

  datatype Acceptance = Acceptance(jti: string, iat: int, checkedAt: nat, now: nat)

  /** The state, what was accepted, and the ids in memory whose row could not be written. */
  datatype Run = Run(state: State, log: seq<Acceptance>, unwritten: set<string>)

  const START: Run := Run(EMPTY, [], {})

  function Unwritten(r: Run, step: Step): set<string> {
    match step
    case Restart(_, _) => {}
    case Proof(checkedAt, now, jti, iat, kept, writes) =>
      if !Fresh(iat, checkedAt) || !Admits(r.state, now, jti, kept) then r.unwritten
      else if writes then r.unwritten - {jti} else r.unwritten + {jti}
  }

  function Advance(r: Run, step: Step): Run {
    Run(After(r.state, step),
        if Accepts(r.state, step) then r.log + [Acceptance(step.jti, step.iat, step.checkedAt, step.now)] else r.log,
        Unwritten(r, step))
  }

  function Play(steps: seq<Step>): Run {
    if steps == [] then START else Advance(Play(steps[..|steps| - 1]), steps[|steps| - 1])
  }

  /** The clock does not go back, from call to call or within one. */
  predicate InOrder(steps: seq<Step>) {
    && (forall i, j :: 0 <= i < j < |steps| ==> steps[i].now <= steps[j].now)
    && (forall i :: 0 <= i < |steps| && steps[i].Proof? ==> steps[i].checkedAt <= steps[i].now)
  }

  /** The id is held until `until`, in memory and in the store. */
  predicate Held(s: State, jti: string, until: nat) {
    jti in s.seen && jti in s.rows && s.seen[jti] >= until && s.rows[jti] >= until
  }

  predicate Remembers(s: State, log: seq<Acceptance>, now: nat) {
    forall i :: 0 <= i < |log| ==>
      log[i].now <= now && (now < Expiry(log[i].now) ==> Held(s, log[i].jti, Expiry(log[i].now)))
  }

  /** Every row that has not expired is in memory too. */
  predicate RowsKnown(s: State, now: nat) {
    forall j :: j in s.rows && s.rows[j] > now ==> j in s.seen && s.seen[j] == s.rows[j]
  }

  /** And of what memory holds unexpired, the store has exactly what it could write. */
  predicate SeenWritten(s: State, unwritten: set<string>, now: nat) {
    forall j :: j in s.seen && s.seen[j] > now ==> ((j in s.rows && s.rows[j] == s.seen[j]) <==> j !in unwritten)
  }

  lemma StepKnown(s: State, step: Step, before: nat)
    requires RowsKnown(s, before) && before <= step.now
    ensures RowsKnown(After(s, step), step.now)
  {
  }

  lemma StepWritten(r: Run, step: Step, before: nat)
    requires SeenWritten(r.state, r.unwritten, before) && RowsKnown(r.state, before) && before <= step.now
    ensures SeenWritten(After(r.state, step), Unwritten(r, step), step.now)
  {
  }

  lemma StepRemembers(r: Run, step: Step, before: nat)
    requires Remembers(r.state, r.log, before) && RowsKnown(r.state, before) && before <= step.now
    ensures Remembers(Advance(r, step).state, Advance(r, step).log, step.now)
  {
    var t, log := Advance(r, step).state, Advance(r, step).log;
    forall i | 0 <= i < |log|
      ensures log[i].now <= step.now && (step.now < Expiry(log[i].now) ==> Held(t, log[i].jti, Expiry(log[i].now)))
    {
      if i < |r.log| {
        assert log[i] == r.log[i];
      }
    }
  }

  /** The clock after a run: when its last call happened. */
  function Clock(steps: seq<Step>): nat { if steps == [] then 0 else steps[|steps| - 1].now }

  /**
   * In every run, accepted ids are held until they expire; every unexpired row
   * is in memory; and an unexpired id in memory agrees with its row exactly
   * unless that row could not be written.
   */
  lemma {:induction false} RunRemembers(steps: seq<Step>)
    requires InOrder(steps)
    ensures var r := Play(steps);
      && Remembers(r.state, r.log, Clock(steps)) && RowsKnown(r.state, Clock(steps))
      && SeenWritten(r.state, r.unwritten, Clock(steps))
  {
    if steps != [] {
      var before, s := steps[..|steps| - 1], steps[|steps| - 1];
      RunRemembers(before);
      var r := Play(before);
      StepKnown(r.state, s, Clock(before));
      StepWritten(r, s, Clock(before));
      StepRemembers(r, s, Clock(before));
    }
  }

  /** Two acceptances of one id: the second comes no sooner than the first one's expiry. */
  lemma {:induction false} AcceptedApart(steps: seq<Step>, i: nat, j: nat)
    requires InOrder(steps) && i < j < |Play(steps).log| && Play(steps).log[i].jti == Play(steps).log[j].jti
    ensures Play(steps).log[j].now >= Expiry(Play(steps).log[i].now)
  {
    var before, s := steps[..|steps| - 1], steps[|steps| - 1];
    var r := Play(before);
    if j < |r.log| {
      AcceptedApart(before, i, j);
    } else {
      RunRemembers(before);
      SeenIsRefused(r, s, i, Clock(before));
    }
  }

  lemma SeenIsRefused(r: Run, s: Step, i: nat, before: nat)
    requires Remembers(r.state, r.log, before) && before <= s.now && i < |r.log|
    requires Accepts(r.state, s) && s.jti == r.log[i].jti
    ensures s.now >= Expiry(r.log[i].now)
  {
  }

  /** So acceptances of one id are two minutes apart, as long as the first one's expiry fits 64 bits. */
  lemma TwoMinutesApart(steps: seq<Step>, i: nat, j: nat)
    requires InOrder(steps) && i < j < |Play(steps).log| && Play(steps).log[i].jti == Play(steps).log[j].jti
    requires Play(steps).log[i].now + CACHE_TTL < U64
    ensures Play(steps).log[j].now >= Play(steps).log[i].now + CACHE_TTL
  {
    AcceptedApart(steps, i, j);
  }

  // ---- One proof twice ----

  /** Every acceptance was of a proof fresh at its first clock read, no later than its second. */
  lemma {:induction false} AcceptedFresh(steps: seq<Step>, i: nat)
    requires InOrder(steps) && i < |Play(steps).log|
    ensures var a := Play(steps).log[i]; Fresh(a.iat, a.checkedAt) && a.checkedAt <= a.now
  {
    var before := steps[..|steps| - 1];
    assert steps[|steps| - 1] in steps;
    if i < |Play(before).log| { AcceptedFresh(before, i); }
  }

  /** Some run accepts `a` and, later, `b`. */
  ghost predicate BothAccepted(a: Acceptance, b: Acceptance) {
    exists steps, i: nat, j: nat ::
      InOrder(steps) && i < j < |Play(steps).log| && Play(steps).log[i] == a && Play(steps).log[j] == b
  }

  function Presented(a: Acceptance): Step { Proof(a.checkedAt, a.now, a.jti, a.iat, {}, true) }

  lemma PlayTwo(a: Step, b: Step)
    ensures Play([a, b]) == Advance(Advance(START, a), b)
  {
    assert [a, b][..1] == [a] && [a][..0] == [];
    assert Play([a]) == Advance(Play([]), a);
  }

  /** The run that presents one proof twice, the second time no sooner than the first one's expiry. */
  lemma TwiceInARun(a: Acceptance, b: Acceptance)
    requires a.jti == b.jti && Fresh(a.iat, a.checkedAt) && Fresh(b.iat, b.checkedAt)
    requires a.checkedAt <= a.now <= b.now && b.checkedAt <= b.now && b.now >= Expiry(a.now)
    ensures BothAccepted(a, b)
  {
    PlayTwo(Presented(a), Presented(b));
    var first := Advance(START, Presented(a));
    assert Swept(EMPTY, a.now, {}).seen == map[];
    assert first.log == [a] && first.state.seen[a.jti] == Expiry(a.now);
    assert Accepts(first.state, Presented(b));
    var steps := [Presented(a), Presented(b)];
    assert InOrder(steps) && Play(steps).log[0] == a && Play(steps).log[1] == b;
  }

  /**
   * One proof, at two pairs of clock reads: both presentations are accepted in
   * some run exactly when both are fresh at their first read and the second
   * reads are apart by the time an id is held.
   */
  lemma OneProofTwiceIff(a: Acceptance, b: Acceptance)
    requires a.jti == b.jti && a.iat == b.iat && a.now <= b.now
    ensures BothAccepted(a, b) <==>
      && Fresh(a.iat, a.checkedAt) && Fresh(b.iat, b.checkedAt)
      && a.checkedAt <= a.now && b.checkedAt <= b.now && b.now >= Expiry(a.now)
  {
    if BothAccepted(a, b) {
      var steps, i: nat, j: nat :| InOrder(steps) && i < j < |Play(steps).log|
        && Play(steps).log[i] == a && Play(steps).log[j] == b;
      AcceptedFresh(steps, i);
      AcceptedFresh(steps, j);
      AcceptedApart(steps, i, j);
    }
    if Fresh(a.iat, a.checkedAt) && Fresh(b.iat, b.checkedAt) && a.checkedAt <= a.now && b.checkedAt <= b.now
       && b.now >= Expiry(a.now) {
      TwiceInARun(a, b);
    }
  }

  /** How long after the freshness check the guard looked. */
  function Lag(a: Acceptance): int { a.now - a.checkedAt }

  /** In those terms: the checks are apart by two minutes, less what the second guard lagged more than the first. */
  lemma TwiceByLag(a: Acceptance, b: Acceptance)
    requires a.jti == b.jti && a.iat == b.iat && a.now <= b.now && a.now + CACHE_TTL < U64
    requires Fresh(a.iat, a.checkedAt) && Fresh(b.iat, b.checkedAt) && Lag(a) >= 0 && Lag(b) >= 0
    ensures BothAccepted(a, b) <==> (b.checkedAt - a.checkedAt) + (Lag(b) - Lag(a)) >= CACHE_TTL
    ensures BothAccepted(a, b) ==> Lag(b) >= Lag(a)
  {
    OneProofTwiceIff(a, b);
  }

  /** With the two reads equal, a proof passes twice exactly at the two ends of its window. */
  lemma TwiceAtTheEnds(jti: string, iat: int, t: nat, u: nat)
    requires t <= u && t + CACHE_TTL < U64
    ensures BothAccepted(Acceptance(jti, iat, t, t), Acceptance(jti, iat, u, u)) <==> t == iat - SKEW && u == iat + SKEW
  {
    OneProofTwiceIff(Acceptance(jti, iat, t, t), Acceptance(jti, iat, u, u));
  }

  /** With them apart it may be elsewhere: here 59 seconds before its issue time and, by the guard's clock, 61 after. */
  lemma TwiceInsideTheWindow(jti: string, iat: nat)
    requires SKEW < iat && iat + CACHE_TTL < U64
    ensures BothAccepted(Acceptance(jti, iat, iat - 59, iat - 59), Acceptance(jti, iat, iat + 60, iat + 61))
  {
    OneProofTwiceIff(Acceptance(jti, iat, iat - 59, iat - 59), Acceptance(jti, iat, iat + 60, iat + 61));
  }

  /**
   * At the end of 64-bit time the expiry saturates: from any guard clock whose
   * expiry does not fit, one proof, fresh whenever its check read the clock, is
   * taken again at the last second there is, less than two minutes later.
   */
  lemma SaturatedExpiry(jti: string, iat: int, first: nat, second: nat, t: nat)
    requires t < U64 <= t + CACHE_TTL
    requires Fresh(iat, first) && Fresh(iat, second) && first <= t && second <= U64 - 1
    ensures BothAccepted(Acceptance(jti, iat, first, t), Acceptance(jti, iat, second, U64 - 1))
    ensures U64 - 1 < t + CACHE_TTL
  {
    TwiceInARun(Acceptance(jti, iat, first, t), Acceptance(jti, iat, second, U64 - 1));
  }
}
