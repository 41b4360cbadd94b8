// Every run of the bridge: what it conserves, what it does at most once, and
// who signed each committee in.
module BridgeRuns {
  import opened Encoding
  import opened Sequences
  import opened Quorum
  import opened BridgeMessages
  import opened Asset
  import opened Bridge

  datatype Event =
    | Started(config: Config)
    | Sent(sender: Holder, record: Bytes, burned: nat)
    | Minted(under: Config, now: nat, record: Bytes, signatures: seq<Bytes>, minted: nat)
    | Rotated(under: Config, now: nat, next: Handover, signatures: seq<Bytes>)
    | Destroyed(from: Holder, units: nat)
    | Moved(from: Holder, to: Holder, units: nat)

  datatype Timed = Timed(now: nat, call: Call)

  datatype Run = Run(state: State, log: seq<Event>)

  ghost function EventOf(env: Env, s: State, now: nat, call: Call): Event
    requires Passes(env, s, now, call)
  {
    match call
    case Initialize(c) => Started(c)
    case Send(sender, amount, recipient, _) =>
      Sent(sender, EncodeRecord(SentRecord(s, sender, amount, recipient)), amount)
    case Execute(record, sigs, _) =>
      Minted(s.config.value, now, record, sigs, DecodeRecord(record).value.amount / SCALE)
    case Rotate(next, sigs) => Rotated(s.config.value, now, next, sigs)
    case Transfer(from, to, units) => Moved(from, to, units)
    case Burn(from, units) => Destroyed(from, units)
  }

  ghost function Advance(env: Env, r: Run, t: Timed): Run {
    if Passes(env, r.state, t.now, t.call)
    then Run(After(env, r.state, t.now, t.call), r.log + [EventOf(env, r.state, t.now, t.call)])
    else r
  }

  /** Where attempted calls lead from `s`, and what happened on the way. */
  ghost function Play(env: Env, s: State, calls: seq<Timed>): Run {
    if calls == [] then Run(s, []) else Advance(env, Play(env, s, calls[..|calls| - 1]), calls[|calls| - 1])
  }

  /** A contract just deployed: its asset may already be in circulation. */
  predicate Fresh(s: State) { s.config.None? && s.sequence == 0 && s.executed == {} }

  function AmountOf(record: Bytes): nat {
    if DecodeRecord(record).None? then 0 else DecodeRecord(record).value.amount
  }

  function SequenceOf(record: Bytes): nat {
    if DecodeRecord(record).None? then 0 else DecodeRecord(record).value.sequence
  }

  // ---- What the log says ----

  /** Asset units the bridge minted and burned, those burned without it, and the TNZO the records carry. */
  datatype Totals = Totals(minted: nat, burned: nat, destroyed: nat, tnzoIn: nat, tnzoOut: nat)

  function Tally(log: seq<Event>): Totals {
    if log == [] then Totals(0, 0, 0, 0, 0) else
    var t := Tally(log[..|log| - 1]);
    match log[|log| - 1]
    case Minted(_, _, record, _, n) => t.(minted := t.minted + n, tnzoIn := t.tnzoIn + AmountOf(record))
    case Sent(_, record, n) => t.(burned := t.burned + n, tnzoOut := t.tnzoOut + AmountOf(record))
    case Destroyed(_, n) => t.(destroyed := t.destroyed + n)
    case _ => t
  }

  /** The sequence numbers of records sent, and of records executed, in order. */
  function SentNumbers(log: seq<Event>): seq<nat> {
    if log == [] then [] else
    SentNumbers(log[..|log| - 1]) + if log[|log| - 1].Sent? then [SequenceOf(log[|log| - 1].record)] else []
  }

  function MintedNumbers(log: seq<Event>): seq<nat> {
    if log == [] then [] else
    MintedNumbers(log[..|log| - 1]) + if log[|log| - 1].Minted? then [SequenceOf(log[|log| - 1].record)] else []
  }

  /** The committees trusted so far, in order. */
  function Committees(log: seq<Event>): seq<Config> {
    if log == [] then [] else
    var e := log[|log| - 1];
    Committees(log[..|log| - 1])
      + if e.Started? then [e.config] else if e.Rotated? then [e.under.(trusted := e.next)] else []
  }

  lemma LogMore(log: seq<Event>, e: Event)
    ensures (log + [e])[..|log + [e]| - 1] == log && (log + [e])[|log + [e]| - 1] == e
  {
  }

  // ---- Conservation ----

  /**
   * Supply changed by what was minted and burned, each unit the bridge minted or
   * burned against 10^11 of a record's TNZO.
   */
  ghost predicate Conserved(s: State, r: Run) {
    var t := Tally(r.log);
    && Supply(r.state.balances) + t.burned + t.destroyed == Supply(s.balances) + t.minted
    && t.minted * SCALE == t.tnzoIn && t.burned * SCALE == t.tnzoOut
  }

  lemma ScaledSum(a: nat, b: nat)
    ensures (a + b) * SCALE == a * SCALE + b * SCALE
  {
  }

  /** An amount of whole units is that many units. */
  lemma UnitsOf(amount: nat)
    requires WholeUnits(amount)
    ensures (amount / SCALE) * SCALE == amount
  {
  }

  lemma SendConserves(env: Env, s: State, r: Run, t: Timed)
    requires Conserved(s, r) && t.call.Send? && Passes(env, r.state, t.now, t.call)
    requires r.state.config.Some? ==> ConfigFits(r.state.config.value)
    ensures Conserved(s, Advance(env, r, t))
  {
    var c := t.call;
    var record := SentRecord(r.state, c.sender, c.amount, c.recipient);
    RecordDecodeEncode(record);
    LogMore(r.log, EventOf(env, r.state, t.now, c));
    BurnLowersSupply(r.state.balances, c.sender, c.amount);
    ScaledSum(Tally(r.log).burned, c.amount);
  }

  lemma ExecuteConserves(env: Env, s: State, r: Run, t: Timed)
    requires Conserved(s, r) && t.call.Execute? && Passes(env, r.state, t.now, t.call)
    ensures Conserved(s, Advance(env, r, t))
  {
    var record := DecodeRecord(t.call.record).value;
    LogMore(r.log, EventOf(env, r.state, t.now, t.call));
    var n := record.amount / SCALE;
    MintRaisesSupply(r.state.balances, Account(record.recipient), n);
    UnitsOf(record.amount);
    ScaledSum(Tally(r.log).minted, n);
  }

  lemma OthersConserve(env: Env, s: State, r: Run, t: Timed)
    requires Conserved(s, r) && !t.call.Send? && !t.call.Execute? && Passes(env, r.state, t.now, t.call)
    ensures Conserved(s, Advance(env, r, t))
  {
    LogMore(r.log, EventOf(env, r.state, t.now, t.call));
    if t.call.Transfer? {
      MoveKeepsSupply(r.state.balances, t.call.from, t.call.to, t.call.units);
    } else if t.call.Burn? {
      BurnLowersSupply(r.state.balances, t.call.from, t.call.units);
    }
  }

  // ---- Whose it is ----

  /** What an event brought a holder, and what it took. */
  function GainOf(e: Event, who: Holder): nat {
    match e
    case Minted(_, _, record, _, n) =>
      if DecodeRecord(record).Some? && who == Account(DecodeRecord(record).value.recipient) then n else 0
    case Moved(_, to, n) => if who == to then n else 0
    case _ => 0
  }

  function LossOf(e: Event, who: Holder): nat {
    match e
    case Sent(sender, _, n) => if who == sender then n else 0
    case Moved(from, _, n) => if who == from then n else 0
    case Destroyed(from, n) => if who == from then n else 0
    case _ => 0
  }

  function Gains(log: seq<Event>, who: Holder): nat {
    if log == [] then 0 else Gains(log[..|log| - 1], who) + GainOf(log[|log| - 1], who)
  }

  function Losses(log: seq<Event>, who: Holder): nat {
    if log == [] then 0 else Losses(log[..|log| - 1], who) + LossOf(log[|log| - 1], who)
  }

  lemma StepBalances(env: Env, s: State, now: nat, call: Call, who: Holder)
    requires Passes(env, s, now, call)
    ensures var e := EventOf(env, s, now, call);
      Balance(After(env, s, now, call).balances, who) + LossOf(e, who) == Balance(s.balances, who) + GainOf(e, who)
  {
    match call
    case Send(_, _, _, _) => SendTakes(env, s, now, call, who);
    case Execute(_, _, _) => ExecutePays(env, s, now, call, who);
    case Transfer(from, to, units) =>
      OnlyOne(s.balances, from, units, who);
      OnlyOne(Debit(s.balances, from, units), to, units, who);
    case Burn(from, units) => OnlyOne(s.balances, from, units, who);
    case _ =>
  }

  /**
   * Over every run, from any state, each holder has what it began with, and the
   * mints whose records name it and the transfers to it, less what it sent,
   * burned and transferred.
   */
  lemma {:induction false} EveryBalance(env: Env, s: State, calls: seq<Timed>, who: Holder)
    ensures var r := Play(env, s, calls);
      Balance(r.state.balances, who) + Losses(r.log, who) == Balance(s.balances, who) + Gains(r.log, who)
  {
    if calls != [] {
      var before, t := calls[..|calls| - 1], calls[|calls| - 1];
      EveryBalance(env, s, before, who);
      var r := Play(env, s, before);
      if Passes(env, r.state, t.now, t.call) {
        StepBalances(env, r.state, t.now, t.call, who);
        LogMore(r.log, EventOf(env, r.state, t.now, t.call));
      }
    }
  }

  // ---- Once only, and without gaps ----

  /** Records sent are numbered from one, without gaps. */
  ghost predicate SentInOrder(r: Run) {
    && |SentNumbers(r.log)| == r.state.sequence
    && forall i :: 0 <= i < r.state.sequence ==> SentNumbers(r.log)[i] == i + 1
  }

  /** Records executed are all different, and exactly those marked executed. */
  ghost predicate MintedOnce(r: Run) {
    Distinct(MintedNumbers(r.log)) && Elements(MintedNumbers(r.log)) == r.state.executed
  }

  ghost predicate Numbered(r: Run) { SentInOrder(r) && MintedOnce(r) }

  lemma SentStep(env: Env, r: Run, t: Timed)
    requires SentInOrder(r) && Passes(env, r.state, t.now, t.call)
    requires r.state.config.Some? ==> ConfigFits(r.state.config.value)
    requires r.state.config.None? ==> r.state.sequence == 0
    ensures SentInOrder(Advance(env, r, t))
  {
    var e := EventOf(env, r.state, t.now, t.call);
    LogMore(r.log, e);
    if t.call.Send? {
      RecordDecodeEncode(SentRecord(r.state, t.call.sender, t.call.amount, t.call.recipient));
      assert SequenceOf(e.record) == r.state.sequence + 1;
      assert SentNumbers(r.log + [e]) == SentNumbers(r.log) + [r.state.sequence + 1];
    } else {
      assert SentNumbers(r.log + [e]) == SentNumbers(r.log);
    }
  }

  lemma MintedStep(env: Env, r: Run, t: Timed)
    requires MintedOnce(r) && Passes(env, r.state, t.now, t.call)
    ensures MintedOnce(Advance(env, r, t))
  {
    var e, ns := EventOf(env, r.state, t.now, t.call), MintedNumbers(r.log);
    LogMore(r.log, e);
    if t.call.Execute? {
      var n := SequenceOf(e.record);
      assert MintedNumbers(r.log + [e]) == ns + [n];
      ElementsMore(ns, n);
      assert n !in Elements(ns);
      assert forall i :: 0 <= i < |ns| ==> ns[i] in Elements(ns);
    } else {
      assert MintedNumbers(r.log + [e]) == ns;
    }
  }

  // ---- Committees ----

  /** Committee `b` was handed the contract by a quorum of `a`, while `a` was trusted. */
  ghost predicate SignedIn(env: Env, a: Config, b: Config) {
    && a.trusted.setIndex < b.trusted.setIndex && b == a.(trusted := b.trusted)
    && exists now, sigs :: Signs(env, a, now, env.h(HandoverBytes(a.route, b.trusted)), sigs)
  }

  ghost predicate Succession(env: Env, s: State, log: seq<Event>) {
    var cs := Committees(log);
    && (s.config.None? <==> cs == [])
    && (s.config.Some? ==> s.config.value == cs[|cs| - 1])
    && (forall i :: 0 <= i < |cs| ==> ConfigFits(cs[i]) && CommitteeOk(cs[i].trusted.committee, cs[i].trusted.threshold))
    && (forall i :: 0 < i < |cs| ==> SignedIn(env, cs[i - 1], cs[i]))
  }

  lemma SuccessionStep(env: Env, r: Run, t: Timed)
    requires Succession(env, r.state, r.log) && Passes(env, r.state, t.now, t.call)
    ensures Succession(env, Advance(env, r, t).state, Advance(env, r, t).log)
  {
    var e := EventOf(env, r.state, t.now, t.call);
    LogMore(r.log, e);
    var cs, after := Committees(r.log), Committees(r.log + [e]);
    if t.call.Rotate? {
      var a := r.state.config.value;
      var b := a.(trusted := t.call.next);
      assert after == cs + [b];
      assert Signs(env, a, t.now, env.h(HandoverBytes(a.route, b.trusted)), t.call.signatures);
      assert SignedIn(env, a, b);
    } else if t.call.Initialize? {
      assert after == [t.call.config];
    } else {
      assert after == cs;
    }
  }

  /** Whatever was minted was signed for by the committee then trusted, one of the succession. */
  ghost predicate Backed(env: Env, log: seq<Event>) {
    forall i :: 0 <= i < |log| && log[i].Minted? ==>
      && log[i].under in Committees(log)
      && Signs(env, log[i].under, log[i].now, env.h(OutboundBytes(log[i].under.route, log[i].record)), log[i].signatures)
      && DecodeRecord(log[i].record).Some?
      && var r := DecodeRecord(log[i].record).value;
      && r.source == log[i].under.tenzroSelector && r.dest == log[i].under.stellarSelector
      && r.endpoint == env.here && r.token == log[i].under.token
  }

  lemma BackedStep(env: Env, r: Run, t: Timed)
    requires Backed(env, r.log) && Succession(env, r.state, r.log) && Passes(env, r.state, t.now, t.call)
    ensures Backed(env, Advance(env, r, t).log)
  {
    var e := EventOf(env, r.state, t.now, t.call);
    LogMore(r.log, e);
    var log := r.log + [e];
    forall i | 0 <= i < |log| && log[i].Minted?
      ensures log[i].under in Committees(log)
    {
      if i < |r.log| { assert log[i] == r.log[i]; }
    }
  }

  // ---- Every run ----

  ghost predicate Kept(env: Env, s: State, r: Run) {
    Conserved(s, r) && Numbered(r) && Succession(env, r.state, r.log) && Backed(env, r.log)
      && (r.state.config.None? ==> r.state.sequence == 0)
  }

  lemma KeptStep(env: Env, s: State, r: Run, t: Timed)
    requires Kept(env, s, r)
    ensures Kept(env, s, Advance(env, r, t))
  {
    if Passes(env, r.state, t.now, t.call) {
      if t.call.Send? {
        SendConserves(env, s, r, t);
      } else if t.call.Execute? {
        ExecuteConserves(env, s, r, t);
      } else {
        OthersConserve(env, s, r, t);
      }
      SentStep(env, r, t);
      MintedStep(env, r, t);
      SuccessionStep(env, r, t);
      BackedStep(env, r, t);
    }
  }

  /**
   * In every run of a fresh contract: the asset's supply is what it was, plus
   * what was minted, less what was burned here or elsewhere, and what the bridge
   * minted and burned are 10^11-ths of the records' amounts; no record is executed twice; outgoing records are
   * numbered 1, 2, 3, ...; each committee was signed in by a quorum of the one
   * before, under a higher set index; and each mint was signed by a quorum of
   * the committee then trusted.
   */
  lemma {:induction false} EveryRun(env: Env, s: State, calls: seq<Timed>)
    requires Fresh(s)
    ensures Kept(env, s, Play(env, s, calls))
  {
    if calls != [] {
      EveryRun(env, s, calls[..|calls| - 1]);
      KeptStep(env, s, Play(env, s, calls[..|calls| - 1]), calls[|calls| - 1]);
    }
  }

  /** Of any two committees of a run, the later has the higher set index. */
  lemma {:induction false} SetIndexesRise(env: Env, s: State, log: seq<Event>, i: nat, j: nat)
    requires Succession(env, s, log) && i < j < |Committees(log)|
    ensures Committees(log)[i].trusted.setIndex < Committees(log)[j].trusted.setIndex
    ensures Committees(log)[i].route == Committees(log)[j].route
    decreases j
  {
    assert SignedIn(env, Committees(log)[j - 1], Committees(log)[j]);
    if i < j - 1 { SetIndexesRise(env, s, log, i, j - 1); }
  }

  /** Two mints under one committee share a member that signed both. */
  lemma MintsShareSigner(env: Env, s: State, calls: seq<Timed>, i: nat, j: nat)
    requires Fresh(s)
    requires var log := Play(env, s, calls).log;
      i < j < |log| && log[i].Minted? && log[j].Minted? && log[i].under == log[j].under
    ensures var log := Play(env, s, calls).log;
      exists m, x, y ::
        && m in log[i].under.trusted.committee && x in log[i].signatures && y in log[j].signatures
        && env.recover(env.h(OutboundBytes(log[i].under.route, log[i].record)), x) == Some(m)
        && env.recover(env.h(OutboundBytes(log[j].under.route, log[j].record)), y) == Some(m)
  {
    EveryRun(env, s, calls);
    var log := Play(env, s, calls).log;
    var c := log[i].under;
    var k :| 0 <= k < |Committees(log)| && Committees(log)[k] == c;
    var d, e := env.h(OutboundBytes(c.route, log[i].record)), env.h(OutboundBytes(c.route, log[j].record));
    QuorumsMeet(env.recover, c.trusted.committee, c.trusted.threshold, d, log[i].signatures, e, log[j].signatures);
    var a, b :| 0 <= a < |log[i].signatures| && 0 <= b < |log[j].signatures|
      && env.recover(d, log[i].signatures[a]) == env.recover(e, log[j].signatures[b])
      && env.recover(d, log[i].signatures[a]).Some? && env.recover(d, log[i].signatures[a]).value in c.trusted.committee;
    var m, x, y := env.recover(d, log[i].signatures[a]).value, log[i].signatures[a], log[j].signatures[b];
    assert m in log[i].under.trusted.committee && x in log[i].signatures && y in log[j].signatures;
    assert env.recover(d, x) == Some(m) && env.recover(e, y) == Some(m);
  }

  // ---- Expiry ----

  predicate TimesFrom(calls: seq<Timed>, now: nat) { forall i :: 0 <= i < |calls| ==> calls[i].now >= now }

  /** Only burns and moves between holders happened since `s`. */
  ghost predicate Stopped(s: State, r: Run) {
    && r.state.config == s.config && r.state.executed == s.executed
    && Supply(r.state.balances) <= Supply(s.balances)
    && forall e :: e in r.log ==> e.Sent? || e.Moved? || e.Destroyed?
  }

  lemma StaysStopped(env: Env, s: State, r: Run, t: Timed)
    requires s.config.Some? && s.config.value.trusted.expiresAt < t.now && Stopped(s, r)
    ensures Stopped(s, Advance(env, r, t))
  {
    if Passes(env, r.state, t.now, t.call) {
      var b, c := r.state.balances, t.call;
      assert c.Send? || c.Transfer? || c.Burn?;
      if c.Send? {
        BurnLowersSupply(b, c.sender, c.amount);
      } else if c.Burn? {
        BurnLowersSupply(b, c.from, c.units);
      } else {
        MoveKeepsSupply(b, c.from, c.to, c.units);
      }
      var e := EventOf(env, r.state, t.now, c);
      assert forall x :: x in r.log + [e] <==> x in r.log || x == e;
    }
  }

  /** Once its committee has expired, the contract mints and rotates nothing ever again. */
  lemma {:induction false} ExpiredForever(env: Env, s: State, now: nat, calls: seq<Timed>)
    requires s.config.Some? && s.config.value.trusted.expiresAt < now && TimesFrom(calls, now)
    ensures Stopped(s, Play(env, s, calls))
  {
    if calls != [] {
      var before := calls[..|calls| - 1];
      ExpiredForever(env, s, now, before);
      assert calls[|calls| - 1].now >= now;
      StaysStopped(env, s, Play(env, s, before), calls[|calls| - 1]);
    }
  }
}
