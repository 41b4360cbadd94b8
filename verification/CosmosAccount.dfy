// An agent's account on CosmWasm chains: a grant is installed by anyone who
// proves it under a final state root, and an action sends the grant's coins.
module CosmosAccount {
  import opened Encoding
  import opened Hashing
  import opened Agent
  import opened AgentLedger
  import opened AccountData
  import opened Signing
  import opened Merkle
  import opened FieldBytes

  datatype Refusal =
    | Refused(why: Why) | AssetMismatch | NoDenom | MalformedAction | PayloadMismatch | TargetNotAllowed | NotSigned
    | BadPayment | NoSuchAddress

  datatype Message =
    | Send(to: Bytes, amount: nat, denom: Bytes)
    | Execute(contract: Bytes, msg: Bytes, funds: nat, denom: Bytes)

  datatype Outcome = Outcome(messages: seq<Message>, report: Option<Bytes>)

  const PAY: Bytes := Ascii("pay")
  const EXECUTE: Bytes := Ascii("execute")
  const BANK: Bytes := Ascii("/bank:")

  /** What follows the first `sep`, if there is one. */
  function AfterFirst(b: Bytes, sep: Bytes): Option<Bytes> {
    if |b| < |sep| then None
    else if b[..|sep|] == sep then Some(b[|sep|..])
    else if b == [] then None
    else AfterFirst(b[1..], sep)
  }

  predicate SepAt(b: Bytes, sep: Bytes, i: nat) { i + |sep| <= |b| && b[i..i + |sep|] == sep }

  lemma SepShift(b: Bytes, sep: Bytes, i: nat)
    requires b != []
    ensures SepAt(b, sep, i + 1) <==> SepAt(b[1..], sep, i)
  {
    if i + 1 + |sep| <= |b| { assert b[i + 1..i + 1 + |sep|] == b[1..][i..i + |sep|]; }
  }

  /** What is read follows the first `sep` there is. */
  lemma {:induction false} AfterFirstIs(b: Bytes, sep: Bytes, i: nat)
    requires SepAt(b, sep, i) && forall j: nat :: j < i ==> !SepAt(b, sep, j)
    ensures AfterFirst(b, sep) == Some(b[i + |sep|..])
    decreases i
  {
    if i == 0 {
      assert b[..|sep|] == b[0..|sep|];
    } else {
      assert !SepAt(b, sep, 0) && b[..|sep|] == b[0..|sep|];
      SepShift(b, sep, i - 1);
      forall j: nat | j < i - 1
        ensures !SepAt(b[1..], sep, j)
      {
        SepShift(b, sep, j);
      }
      AfterFirstIs(b[1..], sep, i - 1);
      assert b[1..][i - 1 + |sep|..] == b[i + |sep|..];
    }
  }

  /** Without one nothing is read. */
  lemma {:induction false} NothingAfter(b: Bytes, sep: Bytes)
    requires sep != [] && forall j: nat :: !SepAt(b, sep, j)
    ensures AfterFirst(b, sep).None?
  {
    if |b| >= |sep| {
      assert !SepAt(b, sep, 0) && b[..|sep|] == b[0..|sep|];
      forall j: nat
        ensures !SepAt(b[1..], sep, j)
      {
        SepShift(b, sep, j);
      }
      NothingAfter(b[1..], sep);
    }
  }

  /** An address as a word: its last 32 bytes, right-aligned. */
  function AddressWord(a: Bytes): Word {
    if |a| >= 32 then a[|a| - 32..] else Zeros(32 - |a|) + a
  }

  /** A word of at most 32 bytes stands for the same number as the address. */
  lemma AddressWordValue(a: Bytes)
    requires |a| <= 32
    ensures FromBE(AddressWord(a)) == FromBE(a)
  {
    if |a| < 32 { PaddedValue(32 - |a|, a); }
  }

  /** The asset named is the grant's, and a bank denomination. */
  predicate NamesAsset(h: Hash, g: Grant, caip19: Bytes) {
    h(caip19) == g.asset && AfterFirst(caip19, BANK).Some?
  }

  predicate SyncAccepts(h: Hash, l: Ledger, id: Identity, root: Option<Word>, grant: Bytes, proof: Bytes,
                        caip19: Bytes) {
    && Genuine(h, id, root, grant, proof)
    && var g := DecodeGrant(grant).value;
    && Allows(l, Install(g)) && NamesAsset(h, g, caip19)
  }

  /** The signatures and target proof that come with an open grant's action. */
  datatype Signed = Signed(signers: seq<Signer>, targetProof: seq<Bytes>)

  /** A payment says what it bought, and the target is an address. */
  predicate Deliverable(addresses: Bytes -> Option<Bytes>, a: Action) {
    (a.selector == PAY ==> |a.data| == PAY_DATA_LEN) && addresses(a.target).Some?
  }

  predicate ActAccepts(h: Hash, p256: P256, addresses: Bytes -> Option<Bytes>, l: Ledger, nowMs: nat, action: Bytes,
                       signed: Option<Signed>) {
    && LedgerAllows(l, nowMs, action, signed.None?)
    && Authority(h, p256, l.grant.value, l.nonce, DecodeAction(action).value, action, signed)
    && Deliverable(addresses, DecodeAction(action).value)
  }

  /** What authorizes an action beyond the limits: its payload hash, or its target and signers. */
  predicate Authority(h: Hash, p256: P256, g: Grant, n: nat, a: Action, action: Bytes, signed: Option<Signed>) {
    match signed
    case None => h(action) == g.payloadHash
    case Some(s) =>
      && TargetOk(h, g, a.target, a.selector, s.targetProof)
      && SignersOk(h, p256, g, ActDigest(h, g, n, action), s.signers, a.amount)
  }

  function MessagesOf(a: Action, to: Bytes, sender: Bytes, denom: Bytes): seq<Message> {
    [if a.selector == EXECUTE then Execute(to, a.data, a.amount, denom) else Send(to, a.amount, denom)]
    + if a.refund > 0 then [Send(sender, a.refund, denom)] else []
  }

  function OutcomeOf(addresses: Bytes -> Option<Bytes>, l: Ledger, sender: Bytes, denom: Bytes, a: Action): Outcome
    requires l.grant.Some? && Deliverable(addresses, a)
  {
    var to := addresses(a.target).value;
    Outcome(MessagesOf(a, to, sender, denom),
            if a.selector == PAY then PaidReport(l.grant.value, l.nonce, a.data, a.amount) else None)
  }

  function Value(m: Message): nat { if m.Send? then m.amount else m.funds }

  function Total(ms: seq<Message>): nat {
    if ms == [] then 0 else Value(ms[0]) + Total(ms[1..])
  }

  /** What an action sends is its amount and its refund, no more. */
  lemma SendsExactly(a: Action, to: Bytes, sender: Bytes, denom: Bytes)
    ensures Total(MessagesOf(a, to, sender, denom)) == a.amount + a.refund
  {
    var ms := MessagesOf(a, to, sender, denom);
    if a.refund > 0 {
      var rest := [Send(sender, a.refund, denom)];
      assert ms[1..] == rest && rest[1..] == [];
      assert Total(rest) == Value(rest[0]) + Total([]);
      assert Total(ms) == a.amount + a.refund;
    } else {
      assert ms[1..] == [];
    }
  }

  // ---- What an accepted action carries and does ----

  /** An action under an open grant is signed, for this account's next nonce, by keys the grant committed to. */
  lemma ActIsSigned(h: Hash, p256: P256, addresses: Bytes -> Option<Bytes>, l: Ledger, nowMs: nat, action: Bytes,
                    signed: Signed, keys: Tree, xs: set<Bytes>)
    requires ActAccepts(h, p256, addresses, l, nowMs, action, Some(signed))
    requires l.grant.value.keysRoot == Root(h, keys) && TreeIn(h, keys, xs) && SignerProofsIn(h, signed.signers, 2, xs)
    ensures var d := h(ActBytes(ACT_DOMAIN, l.grant.value, l.nonce, action));
      Collides(h, xs) || exists k: PublicKey, o, s :: SignedBy(p256, keys, d, k, o, s)
    ensures var d := h(ActBytes(ACT_DOMAIN, l.grant.value, l.nonce, action));
      DecodeAction(action).value.amount > l.grant.value.cosignAbove ==>
        Collides(h, xs) || exists k1: PublicKey, o1, s1, k2: PublicKey, o2, s2 ::
          o1 != o2 && SignedBy(p256, keys, d, k1, o1, s1) && SignedBy(p256, keys, d, k2, o2, s2)
  {
    var g, amount := l.grant.value, DecodeAction(action).value.amount;
    var d := ActDigest(h, g, l.nonce, action);
    SignedByOne(h, p256, g, d, signed.signers, amount, keys, xs);
    if amount > g.cosignAbove { CosignedByTwo(h, p256, g, d, signed.signers, amount, keys, xs); }
  }

  /** A live open grant without target limits runs what one committed key signed, within its terms, up to the threshold. */
  lemma SignedActionRuns(h: Hash, p256: P256, addresses: Bytes -> Option<Bytes>, l: Ledger, nowMs: nat, action: Bytes,
                         keys: Tree, k: PublicKey, o: Bytes, s: Bytes)
    requires DecodeAction(action).Some? && LedgerAllows(l, nowMs, action, false) && !IsExact(l.grant.value)
    requires var a, g := DecodeAction(action).value, l.grant.value;
      && g.targetsRoot == ZERO && g.keysRoot == Root(h, keys) && a.amount <= g.cosignAbove
      && (a.selector != PAY || |a.data| == 104) && addresses(a.target).Some?
      && SignedBy(p256, keys, h(ActBytes(ACT_DOMAIN, g, l.nonce, action)), k, o, s)
    ensures ActAccepts(h, p256, addresses, l, nowMs, action, Some(Signed([SignerOf(h, keys, k, o, s)], [])))
  {
    var a, g := DecodeAction(action).value, l.grant.value;
    OneIsEnough(h, p256, g, ActDigest(h, g, l.nonce, action), a.amount, keys, k, o, s);
  }

  /** A grant is taken only with its asset's own name: two names it is taken with are one, or collide. */
  lemma AssetIsNamed(h: Hash, l: Ledger, id: Identity, root: Option<Word>, grant: Bytes, proof: Bytes, caip19: Bytes,
                     l': Ledger, root': Option<Word>, proof': Bytes, caip19': Bytes, xs: set<Bytes>)
    requires SyncAccepts(h, l, id, root, grant, proof, caip19) && SyncAccepts(h, l', id, root', grant, proof', caip19')
    requires caip19 in xs && caip19' in xs
    ensures h(caip19) == DecodeGrant(grant).value.asset
    ensures caip19 == caip19' || Collides(h, xs)
  {
    SameHash(h, xs, caip19, caip19');
  }

  /** An exact grant runs one action only: two that it accepts are the same bytes, or collide. */
  lemma ExactActionIsOne(h: Hash, p256: P256, addresses: Bytes -> Option<Bytes>, l: Ledger, nowMs: nat, a: Bytes,
                         l': Ledger, nowMs': nat, b: Bytes, xs: set<Bytes>)
    requires ActAccepts(h, p256, addresses, l, nowMs, a, None) && ActAccepts(h, p256, addresses, l', nowMs', b, None)
    requires l.grant == l'.grant && a in xs && b in xs
    ensures a == b || Collides(h, xs)
  {
    SameHash(h, xs, a, b);
  }

  function Destination(m: Message): Bytes { if m.Send? then m.to else m.contract }

  function SentTo(ms: seq<Message>, who: Bytes): nat {
    if ms == [] then 0 else (if Destination(ms[0]) == who then Value(ms[0]) else 0) + SentTo(ms[1..], who)
  }

  /** The amount goes to the address of the action's target and the refund to the caller, all in the grant's coin. */
  lemma ActSends(addresses: Bytes -> Option<Bytes>, l: Ledger, sender: Bytes, denom: Bytes, a: Action, who: Bytes)
    requires l.grant.Some? && Deliverable(addresses, a)
    ensures var ms := OutcomeOf(addresses, l, sender, denom, a).messages;
      && SentTo(ms, who) == (if addresses(a.target) == Some(who) then a.amount else 0)
                            + (if who == sender then a.refund else 0)
      && (forall i :: 0 <= i < |ms| ==> ms[i].denom == denom)
      && (exists i :: 0 <= i < |ms| && ms[i].Execute?) == (a.selector == EXECUTE)
      && (forall i :: 0 <= i < |ms| && ms[i].Execute? ==> ms[i].msg == a.data)
  {
    var to := addresses(a.target).value;
    var ms := OutcomeOf(addresses, l, sender, denom, a).messages;
    assert ms == MessagesOf(a, to, sender, denom);
    if a.refund > 0 {
      var rest := [Send(sender, a.refund, denom)];
      assert ms[1..] == rest && rest[1..] == [];
      assert SentTo(rest, who) == if who == sender then a.refund else 0;
    } else {
      assert ms[1..] == [];
    }
    assert ms[0].Execute? <==> a.selector == EXECUTE;
  }

  /** A payment's report is of this grant, the action's nonce, what it bought and what it paid; others report nothing. */
  lemma ActReports(addresses: Bytes -> Option<Bytes>, l: Ledger, sender: Bytes, denom: Bytes, a: Action)
    requires l.grant.Some? && Deliverable(addresses, a) && l.grant.value.seqNo < U64 && l.nonce < U64 && a.amount < U128
    ensures var r := OutcomeOf(addresses, l, sender, denom, a).report; var g := l.grant.value;
      && (r.Some? <==> a.selector == PAY)
      && (r.Some? ==>
          && |r.value| == 233 && r.value[1..33] == g.chain && r.value[33..65] == g.account
          && r.value[65..97] == g.agent && FromBE(r.value[97..105]) == g.seqNo && FromBE(r.value[105..113]) == l.nonce
          && r.value[113..217] == a.data && FromBE(r.value[217..]) == a.amount)
  {
    var r := OutcomeOf(addresses, l, sender, denom, a).report;
    if r.Some? { ReportLayout(l.grant.value, l.nonce, a.data, a.amount, r.value); }
  }

  class Account {
    const id: Identity
    const data: Data
    var denom: Bytes

    constructor (agent: Word, chain: Word, treeKey: Word, address: Bytes)
      ensures id == Identity(agent, chain, treeKey, AddressWord(address))
      ensures fresh(data) && data.Valid() && data.steps == []
    {
      id := Identity(agent, chain, treeKey, AddressWord(address));
      data := new Data();
      denom := [];
    }

    /** The denomination the asset names, if it is the grant's. */
    method CheckAsset(h: Hash, g: Grant, caip19: Bytes) returns (r: Result<Bytes, Refusal>)
      ensures r.Ok? <==> NamesAsset(h, g, caip19)
      ensures r.Ok? ==> AfterFirst(caip19, BANK) == Some(r.value)
    {
      if h(caip19) != g.asset { return Err(AssetMismatch); }
      var d := AfterFirst(caip19, BANK);
      if d.None? { return Err(NoDenom); }
      return Ok(d.value);
    }

    /** Everything a grant must pass before it is installed: it, and the denomination it is in. */
    method CheckSync(h: Hash, root: Option<Word>, grantBytes: Bytes, proof: Bytes, caip19: Bytes)
      returns (r: Result<(Grant, Bytes), Refusal>)
      requires data.Valid()
      ensures r.Ok? <==> SyncAccepts(h, data.Held(), id, root, grantBytes, proof, caip19)
      ensures r.Ok? ==>
        && Carries(grantBytes, r.value.0) && Follows(r.value.0, data.Held().grant)
        && AfterFirst(caip19, BANK) == Some(r.value.1)
    {
      var genuine := CheckGrant(h, id, root, grantBytes, proof);
      if genuine.Err? { return Err(Refused(genuine.error)); }
      var g := genuine.value;
      assert DecodeGrant(grantBytes) == Some(g);
      var stale := data.CheckFollows(g);
      if stale.Some? { return Err(Refused(stale.value)); }
      var named := CheckAsset(h, g, caip19);
      if named.Err? { return Err(named.error); }
      return Ok((g, named.value));
    }

    /** Install a grant proven under the state root `root` the registry answered with. */
    method Sync(h: Hash, root: Option<Word>, grantBytes: Bytes, proof: Bytes, caip19: Bytes)
      returns (r: Result<Grant, Refusal>)
      requires data.Valid()
      modifies this, data
      ensures data.Valid()
      ensures r.Ok? <==> SyncAccepts(h, old(data.Held()), id, root, grantBytes, proof, caip19)
      ensures r.Ok? ==> Carries(grantBytes, r.value) && AfterFirst(caip19, BANK) == Some(denom)
      ensures r.Err? ==> denom == old(denom)
      ensures data.Held() == if r.Ok? then Apply(old(data.Held()), Install(r.value)) else old(data.Held())
      ensures data.steps == if r.Ok? then old(data.steps) + [Install(r.value)] else old(data.steps)
    {
      var checked := CheckSync(h, root, grantBytes, proof, caip19);
      if checked.Err? { return Err(checked.error); }
      data.Take(checked.value.0, grantBytes);
      denom := checked.value.1;
      return Ok(checked.value.0);
    }

    /** The live grant and the action it allows, as far as the ledger goes. */
    method CheckLedger(nowMs: nat, action: Bytes, exact: bool) returns (r: Result<(Grant, Action), Refusal>)
      requires data.Valid()
      ensures r.Ok? <==> LedgerAllows(data.Held(), nowMs, action, exact)
      ensures r.Ok? ==> data.Held().grant == Some(r.value.0) && DecodeAction(action) == Some(r.value.1)
    {
      var live := data.CheckLive(nowMs);
      if live.Err? { return Err(Refused(live.error)); }
      var decoded := ReadAction(action);
      if decoded.None? { return Err(MalformedAction); }
      var bad := data.CheckLimits(live.value, decoded.value, exact);
      if bad.Some? { return Err(Refused(bad.value)); }
      return Ok((live.value, decoded.value));
    }

    method CheckAuthority(h: Hash, p256: P256, g: Grant, n: nat, a: Action, action: Bytes, signed: Option<Signed>)
      returns (bad: Option<Refusal>)
      ensures bad.None? <==> Authority(h, p256, g, n, a, action, signed)
    {
      if signed.None? {
        return if h(action) == g.payloadHash then None else Some(PayloadMismatch);
      }
      var s := signed.value;
      if g.targetsRoot != ZERO {
        if !AllWords(s.targetProof) { return Some(TargetNotAllowed); }
        var leaf := h(LeafBytes(TargetContent(a.target, a.selector)));
        var ok := MerkleVerify(h, g.targetsRoot, leaf, AsWords(s.targetProof));
        if !ok { return Some(TargetNotAllowed); }
      }
      var ok := CheckSigners(h, p256, g, ActDigest(h, g, n, action), s.signers, a.amount);
      return if ok then None else Some(NotSigned);
    }

    /** Where the action goes, if it can be delivered. */
    method CheckDelivery(addresses: Bytes -> Option<Bytes>, a: Action) returns (r: Result<Bytes, Refusal>)
      ensures r.Ok? <==> Deliverable(addresses, a)
      ensures r.Ok? ==> addresses(a.target) == Some(r.value)
    {
      if a.selector == PAY && |a.data| != PAY_DATA_LEN { return Err(BadPayment); }
      var to := addresses(a.target);
      if to.None? { return Err(NoSuchAddress); }
      return Ok(to.value);
    }

    /** Everything an action must pass before the ledger moves. */
    method CheckAct(h: Hash, p256: P256, addresses: Bytes -> Option<Bytes>, nowMs: nat, action: Bytes,
                    signed: Option<Signed>)
      returns (r: Result<(Grant, Action, Bytes), Refusal>)
      requires data.Valid()
      ensures r.Ok? <==> ActAccepts(h, p256, addresses, data.Held(), nowMs, action, signed)
      ensures r.Ok? ==>
        && data.Held().grant == Some(r.value.0) && DecodeAction(action) == Some(r.value.1)
        && addresses(r.value.1.target) == Some(r.value.2)
    {
      var checked := CheckLedger(nowMs, action, signed.None?);
      if checked.Err? { return Err(checked.error); }
      var g, a := checked.value.0, checked.value.1;
      var bad := CheckAuthority(h, p256, g, data.nonce, a, action, signed);
      if bad.Some? { return Err(bad.value); }
      var to := CheckDelivery(addresses, a);
      if to.Err? { return Err(to.error); }
      return Ok((g, a, to.value));
    }

    /** Run an action: check it, move the ledger, and hand out what to send. */
    method Act(h: Hash, p256: P256, addresses: Bytes -> Option<Bytes>, nowMs: nat, sender: Bytes, action: Bytes,
               signed: Option<Signed>) returns (r: Result<Outcome, Refusal>)
      requires data.Valid()
      modifies data
      ensures data.Valid()
      ensures r.Ok? <==> ActAccepts(h, p256, addresses, old(data.Held()), nowMs, action, signed)
      ensures r.Err? ==> data.Held() == old(data.Held()) && data.steps == old(data.steps)
      ensures r.Ok? ==> data.steps == old(data.steps) + [StepOf(nowMs, DecodeAction(action).value, signed.None?)]
      ensures r.Ok? ==> data.Held() == Apply(old(data.Held()), StepOf(nowMs, DecodeAction(action).value, signed.None?))
      ensures r.Ok? ==> r.value == OutcomeOf(addresses, old(data.Held()), sender, denom, DecodeAction(action).value)
    {
      var checked := CheckAct(h, p256, addresses, nowMs, action, signed);
      if checked.Err? { return Err(checked.error); }
      var g, a, to := checked.value.0, checked.value.1, checked.value.2;
      var report := if a.selector == PAY then PaidReport(g, data.nonce, a.data, a.amount) else None;
      data.Move(nowMs, a, signed.None?);
      return Ok(Outcome(MessagesOf(a, to, sender, denom), report));
    }
  }
}
