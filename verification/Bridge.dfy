// The bridge contract: it mints against records a committee signed, burns what
// goes back, and is handed from committee to committee.
module Bridge {
  import opened Encoding
  import opened Hashing
  import opened Quorum
  import opened BridgeMessages
  import opened Asset

  /** Smallest TNZO units per asset unit. */
  const SCALE: nat := 100_000_000_000
  const I128_MAX: nat := 0x7fff_ffff_ffff_ffff_ffff_ffff_ffff_ffff

  datatype Refusal =
    | AlreadyInitialized | NotInitialized | BelowThreshold | WrongRoute | AlreadyExecuted | BadAmount
    | BadCommittee | MalformedRecord | Expired | StaleSet | AssetRefused | Overflow

  /** The chain the contract is on: its hash, key recovery, and the contract's own id. */
  datatype Env = Env(h: Hash, recover: Recover, here: Word)

  datatype Config = Config(route: Route, stellarSelector: nat, tenzroSelector: nat, token: Word, tenzroEndpoint: Word,
                           trusted: Handover)

  predicate ConfigFits(c: Config) {
    RouteFits(c.route) && c.stellarSelector < U64 && c.tenzroSelector < U64 && HandoverFits(c.trusted)
  }

  datatype State = State(config: Option<Config>, sequence: nat, executed: set<nat>, balances: Balances)

  datatype Call =
    | Initialize(config: Config)
    | Send(sender: Holder, amount: int, recipient: Word, authorized: bool)
    | Execute(record: Bytes, signatures: seq<Bytes>, takes: bool)
    | Rotate(next: Handover, signatures: seq<Bytes>)
    | Transfer(from: Holder, to: Holder, units: nat) // the asset moving between holders
    | Burn(from: Holder, units: nat) // a holder burning its own, without the bridge

  /** A call as the contract's argument types let it through. */
  predicate Typed(call: Call) {
    match call
    case Initialize(c) => ConfigFits(c)
    case Send(_, amount, _, _) => amount <= I128_MAX
    case Rotate(o, _) => HandoverFits(o)
    case _ => true
  }

  /** The committee is still trusted and signed the digest. */
  ghost predicate Signs(env: Env, c: Config, now: nat, digest: Word, signatures: seq<Bytes>) {
    && now <= c.trusted.expiresAt
    && Enough(env.recover, c.trusted.committee, c.trusted.threshold, digest, signatures)
  }

  /** The record is for this contract, of this route. */
  predicate OnRoute(env: Env, c: Config, r: Record) {
    r.source == c.tenzroSelector && r.dest == c.stellarSelector && r.endpoint == env.here && r.token == c.token
  }

  /** A whole positive number of asset units. */
  predicate WholeUnits(amount: nat) { amount > 0 && amount % SCALE == 0 && amount / SCALE <= I128_MAX }

  ghost predicate Executable(env: Env, s: State, now: nat, record: Bytes, signatures: seq<Bytes>) {
    && s.config.Some? && Signs(env, s.config.value, now, env.h(OutboundBytes(s.config.value.route, record)), signatures)
    && DecodeRecord(record).Some?
    && var r := DecodeRecord(record).value;
    && OnRoute(env, s.config.value, r) && r.sequence !in s.executed && WholeUnits(r.amount)
  }

  predicate Sendable(s: State, sender: Holder, amount: int) {
    s.config.Some? && 0 < amount <= Balance(s.balances, sender) && s.sequence + 1 < U64 && amount * SCALE < U128
  }

  ghost predicate Rotatable(env: Env, s: State, now: nat, next: Handover, signatures: seq<Bytes>) {
    && s.config.Some? && s.config.value.trusted.setIndex < next.setIndex && CommitteeOk(next.committee, next.threshold)
    && Signs(env, s.config.value, now, env.h(HandoverBytes(s.config.value.route, next)), signatures)
  }

  /** The call goes through; any other leaves everything as it was. */
  ghost predicate Passes(env: Env, s: State, now: nat, call: Call) {
    && Typed(call)
    && match call
       case Initialize(c) => s.config.None? && CommitteeOk(c.trusted.committee, c.trusted.threshold)
       case Send(sender, amount, _, authorized) => authorized && Sendable(s, sender, amount)
       case Execute(record, signatures, takes) => takes && Executable(env, s, now, record, signatures)
       case Rotate(next, signatures) => Rotatable(env, s, now, next, signatures)
       case Transfer(from, _, units) => units <= Balance(s.balances, from)
       case Burn(from, units) => units <= Balance(s.balances, from)
  }

  function Raw(a: Holder): Word { if a.Account? then a.key else a.id }

  /** The record of a transfer to Tenzro. */
  function SentRecord(s: State, sender: Holder, amount: int, recipient: Word): Record
    requires Sendable(s, sender, amount)
  {
    var c := s.config.value;
    Record(s.sequence + 1, c.stellarSelector, c.tenzroSelector, Raw(sender), c.token, c.tenzroEndpoint, recipient,
           amount * SCALE)
  }

  /** What is sent here is on route at the other end, whose selectors are these the other way round. */
  lemma SentIsOnRouteThere(s: State, sender: Holder, amount: int, recipient: Word, there: Env, other: Config)
    requires Sendable(s, sender, amount) && amount <= I128_MAX && ConfigFits(s.config.value)
    requires var c := s.config.value;
      && other.tenzroSelector == c.stellarSelector && other.stellarSelector == c.tenzroSelector
      && other.token == c.token && there.here == c.tenzroEndpoint
    ensures var r := DecodeRecord(EncodeRecord(SentRecord(s, sender, amount, recipient)));
      && r.Some? && OnRoute(there, other, r.value) && WholeUnits(r.value.amount) && r.value.amount / SCALE == amount
      && r.value.recipient == recipient && r.value.sender == Raw(sender) && r.value.sequence == s.sequence + 1
  {
    RecordDecodeEncode(SentRecord(s, sender, amount, recipient));
    assert (amount * SCALE) / SCALE == amount && (amount * SCALE) % SCALE == 0;
  }

  /** A record that is for this contract, in whole units, not executed yet and signed in time, does execute. */
  lemma SignedRecordExecutes(env: Env, s: State, now: nat, r: Record, signatures: seq<Bytes>)
    requires s.config.Some? && RecordFits(r) && r.sequence !in s.executed
    requires var c := s.config.value;
      && r.source == c.tenzroSelector && r.dest == c.stellarSelector && r.endpoint == env.here && r.token == c.token
      && now <= c.trusted.expiresAt
      && Enough(env.recover, c.trusted.committee, c.trusted.threshold, env.h(OutboundBytes(c.route, EncodeRecord(r))),
                signatures)
    requires exists n: nat :: n > 0 && r.amount == n * SCALE
    ensures Passes(env, s, now, Execute(EncodeRecord(r), signatures, true))
  {
    RecordDecodeEncode(r);
    var n: nat :| n > 0 && r.amount == n * SCALE;
    assert r.amount / SCALE == n && r.amount % SCALE == 0;
    assert n * SCALE < U128 && U128 / SCALE <= I128_MAX;
  }

  ghost function After(env: Env, s: State, now: nat, call: Call): State
    requires Passes(env, s, now, call)
  {
    match call
    case Initialize(c) => s.(config := Some(c), sequence := 0)
    case Send(sender, amount, _, _) => s.(sequence := s.sequence + 1, balances := Debit(s.balances, sender, amount))
    case Execute(record, _, _) =>
      var r := DecodeRecord(record).value;
      s.(executed := s.executed + {r.sequence}, balances := Credit(s.balances, Account(r.recipient), r.amount / SCALE))
    case Rotate(next, _) => s.(config := Some(s.config.value.(trusted := next)))
    case Transfer(from, to, units) => s.(balances := Credit(Debit(s.balances, from, units), to, units))
    case Burn(from, units) => s.(balances := Debit(s.balances, from, units))
  }

  /** An executed record pays its recipient what it carries, and nobody else anything. */
  lemma ExecutePays(env: Env, s: State, now: nat, call: Call, who: Holder)
    requires call.Execute? && Passes(env, s, now, call)
    ensures var r := DecodeRecord(call.record).value; var t := After(env, s, now, call);
      && Balance(t.balances, who) == Balance(s.balances, who) + (if who == Account(r.recipient) then r.amount / SCALE else 0)
      && t.executed == s.executed + {r.sequence} && t.config == s.config && t.sequence == s.sequence
  {
    var r := DecodeRecord(call.record).value;
    OnlyOne(s.balances, Account(r.recipient), r.amount / SCALE, who);
  }

  /** A transfer to Tenzro takes its amount from its sender, and from nobody else. */
  lemma SendTakes(env: Env, s: State, now: nat, call: Call, who: Holder)
    requires call.Send? && Passes(env, s, now, call)
    ensures var t := After(env, s, now, call);
      && Balance(t.balances, who) == Balance(s.balances, who) - (if who == call.sender then call.amount else 0)
      && t.executed == s.executed && t.config == s.config && t.sequence == s.sequence + 1
  {
    OnlyOne(s.balances, call.sender, call.amount, who);
  }

  /** A handover to a later, well-formed committee that a quorum of the trusted one signed in time goes through. */
  lemma SignedHandoverPasses(env: Env, s: State, now: nat, next: Handover, signatures: seq<Bytes>)
    requires s.config.Some? && HandoverFits(next) && CommitteeOk(next.committee, next.threshold)
    requires var c := s.config.value;
      && c.trusted.setIndex < next.setIndex && now <= c.trusted.expiresAt
      && Enough(env.recover, c.trusted.committee, c.trusted.threshold, env.h(HandoverBytes(c.route, next)), signatures)
    ensures Passes(env, s, now, Rotate(next, signatures))
    ensures After(env, s, now, Rotate(next, signatures)) == s.(config := Some(s.config.value.(trusted := next)))
  {
  }

  /** A holder may send what it has, as long as the record can carry it. */
  lemma HolderMaySend(env: Env, s: State, now: nat, sender: Holder, amount: int, recipient: Word)
    requires s.config.Some? && 0 < amount <= I128_MAX && amount <= Balance(s.balances, sender)
    requires s.sequence + 1 < U64 && amount * SCALE < U128
    ensures Passes(env, s, now, Send(sender, amount, recipient, true))
  {
  }

  // ---- The contract ----

  class Contract {
    const env: Env
    const asset: Token
    var config: Option<Config>
    var sequence: nat
    var executed: set<nat>

    ghost function Now(): State
      reads this, asset
    {
      State(config, sequence, executed, asset.balances)
    }

    constructor (env: Env, asset: Token)
      ensures this.env == env && this.asset == asset
      ensures Now() == State(None, 0, {}, asset.balances)
    {
      this.env, this.asset := env, asset;
      config, sequence, executed := None, 0, {};
    }

    method InitializeWith(c: Config, now: nat) returns (bad: Option<Refusal>)
      requires ConfigFits(c)
      modifies this
      ensures bad.None? <==> Passes(env, old(Now()), now, Initialize(c))
      ensures Now() == if bad.None? then After(env, old(Now()), now, Initialize(c)) else old(Now())
    {
      if config.Some? { return Some(AlreadyInitialized); }
      var ok := CheckCommittee(c.trusted.committee, c.trusted.threshold);
      if !ok { return Some(BadCommittee); }
      config, sequence := Some(c), 0;
      return None;
    }

    /** Burn, count and write the record. */
    method SendToTenzro(sender: Holder, amount: int, recipient: Word, authorized: bool, now: nat)
      returns (r: Result<Bytes, Refusal>)
      requires amount <= I128_MAX
      modifies this, asset
      ensures r.Ok? <==> Passes(env, old(Now()), now, Send(sender, amount, recipient, authorized))
      ensures Now() == if r.Ok? then After(env, old(Now()), now, Send(sender, amount, recipient, authorized)) else old(Now())
      ensures r.Ok? ==> r.value == EncodeRecord(SentRecord(old(Now()), sender, amount, recipient))
    {
      if !authorized { return Err(AssetRefused); }
      if config.None? { return Err(NotInitialized); }
      if amount <= 0 { return Err(BadAmount); }
      if sequence + 1 >= U64 || amount * SCALE >= U128 { return Err(Overflow); }
      var c := config.value;
      var burned := asset.Burn(sender, amount);
      if !burned { return Err(AssetRefused); }
      sequence := sequence + 1;
      var record := Record(sequence, c.stellarSelector, c.tenzroSelector, Raw(sender), c.token, c.tenzroEndpoint,
                           recipient, amount * SCALE);
      return Ok(EncodeRecord(record));
    }

    method CheckQuorum(c: Config, now: nat, digest: Word, signatures: seq<Bytes>) returns (bad: Option<Refusal>)
      ensures bad.None? <==> Signs(env, c, now, digest, signatures)
    {
      if now > c.trusted.expiresAt { return Some(Expired); }
      var count := CountSigners(env.recover, c.trusted.committee, digest, signatures);
      if count.None? || count.value < c.trusted.threshold { return Some(BelowThreshold); }
      return None;
    }

    method CheckRecord(record: Bytes, now: nat, signatures: seq<Bytes>) returns (r: Result<Record, Refusal>)
      ensures r.Ok? <==> Executable(env, Now(), now, record, signatures)
      ensures r.Ok? ==> DecodeRecord(record) == Some(r.value)
    {
      if config.None? { return Err(NotInitialized); }
      var c := config.value;
      var bad := CheckQuorum(c, now, env.h(OutboundBytes(c.route, record)), signatures);
      if bad.Some? { return Err(bad.value); }
      if |record| != RECORD_LEN { return Err(MalformedRecord); }
      var t := DecodeRecord(record).value;
      if t.source != c.tenzroSelector || t.dest != c.stellarSelector || t.endpoint != env.here || t.token != c.token {
        return Err(WrongRoute);
      }
      if t.sequence in executed { return Err(AlreadyExecuted); }
      if t.amount == 0 || t.amount % SCALE != 0 || t.amount / SCALE > I128_MAX { return Err(BadAmount); }
      return Ok(t);
    }

    /** Mint what a signed record says, once. */
    method ExecuteRecord(record: Bytes, signatures: seq<Bytes>, takes: bool, now: nat) returns (bad: Option<Refusal>)
      modifies this, asset
      ensures bad.None? <==> Passes(env, old(Now()), now, Execute(record, signatures, takes))
      ensures Now() == if bad.None? then After(env, old(Now()), now, Execute(record, signatures, takes)) else old(Now())
    {
      var checked := CheckRecord(record, now, signatures);
      if checked.Err? { return Some(checked.error); }
      var r := checked.value;
      var minted := asset.Mint(Account(r.recipient), r.amount / SCALE, takes);
      if !minted { return Some(AssetRefused); }
      executed := executed + {r.sequence};
      return None;
    }

    /** Hand the contract over to a later committee. */
    method RotateCommittee(next: Handover, signatures: seq<Bytes>, now: nat) returns (bad: Option<Refusal>)
      requires HandoverFits(next)
      modifies this
      ensures bad.None? <==> Passes(env, old(Now()), now, Rotate(next, signatures))
      ensures Now() == if bad.None? then After(env, old(Now()), now, Rotate(next, signatures)) else old(Now())
    {
      if config.None? { return Some(NotInitialized); }
      var c := config.value;
      if next.setIndex <= c.trusted.setIndex { return Some(StaleSet); }
      var ok := CheckCommittee(next.committee, next.threshold);
      if !ok { return Some(BadCommittee); }
      bad := CheckQuorum(c, now, env.h(HandoverBytes(c.route, next)), signatures);
      if bad.None? {
        config := Some(c.(trusted := next));
      }
    }
  }
}
