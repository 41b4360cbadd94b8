// An agent's account on Soroban: it is asked to authorize calls, and lets pass a
// single one, together with at most the one transfer that call makes in turn.
module SorobanAccount {
  import opened Encoding
  import opened Hashing
  import opened Agent
  import opened AgentLedger
  import opened AccountData
  import opened Signing
  import opened Merkle

  datatype Refusal =
    | Refused(why: Why) | Malformed | AssetMismatch | PayloadMismatch | NotSigned | TargetNotAllowed | OneCallAtATime
    | AmountMismatch | ClockOverflow

  datatype Address = Contract(id: Word) | Wallet(key: Bytes)

  datatype Value = I128(n: int) | Addr(a: Address) | Blob(b: Bytes)

  datatype Call = Call(contract: Address, fnName: Bytes, args: seq<Value>)

  datatype Context = ContractCall(call: Call) | Deploy

  datatype ActAuth = ActAuth(action: Bytes, signers: seq<Signer>, targetProof: seq<Bytes>)

  /** What the ledger's host answers: which bytes are text, what address a text names, which signatures verify. */
  datatype Host = Host(utf8: Bytes -> bool, address: Bytes -> Option<Address>, p256: P256)

  const MAX_PROOF: nat := 2 + 32 * 248 + 1 + 256
  const MAX_ACTION: nat := 1024
  const MAX_OPERATOR: nat := 256
  const MAX_SIBLINGS: nat := 32
  const MAX_CAIP19: nat := 128

  const PAY: Bytes := Ascii("pay")
  const TRANSFER: Bytes := Ascii("transfer")
  const APPROVE: Bytes := Ascii("approve")
  const BURN: Bytes := Ascii("burn")
  const COLON: Byte := ':' as int

  // ---- What a call moves ----

  function Arg(c: Call, i: nat): Option<Value> { if i < |c.args| then Some(c.args[i]) else None }

  predicate ArgIs(c: Call, i: nat, a: Address) { Arg(c, i) == Some(Addr(a)) }

  function Amount(c: Call, i: nat): Option<int> {
    match Arg(c, i)
    case Some(I128(n)) => Some(n)
    case _ => None
  }

  /** What follows the last colon, if there is one. */
  function AfterLast(b: Bytes): Option<Bytes> {
    if b == [] then None else
    if b[|b| - 1] == COLON then Some([]) else
    match AfterLast(b[..|b| - 1])
    case None => None
    case Some(x) => Some(x + [b[|b| - 1]])
  }

  /** It is what follows a colon with none after it; there is no other reading. */
  lemma {:induction false} AfterLastSplits(b: Bytes)
    ensures AfterLast(b).Some? ==>
      var x := AfterLast(b).value;
      |x| < |b| && b[|b| - |x| - 1] == COLON && b[|b| - |x|..] == x && COLON !in x
    ensures AfterLast(b).None? ==> COLON !in b
  {
    if b != [] && b[|b| - 1] != COLON {
      var init := b[..|b| - 1];
      AfterLastSplits(init);
      assert b == init + [b[|b| - 1]];
      if AfterLast(init).Some? {
        var x := AfterLast(init).value;
        assert b[|b| - |x| - 1..] == init[|init| - |x|..] + [b[|b| - 1]];
      }
    }
  }

  /** The contract of the asset a CAIP-19 id names. */
  function AssetContract(host: Host, caip19: Bytes): Option<Address> {
    if !host.utf8(caip19) || AfterLast(caip19).None? then None else host.address(AfterLast(caip19).value)
  }

  /** What the account lets a call move, by the rule for its function; none if it must not pass. */
  function MovedBy(here: Address, asset: Option<Address>, call: Call, nested: Option<Call>): Option<int> {
    if call.fnName == PAY then
      if call.contract != here || nested.Some? then None else Amount(call, 1)
    else if call.fnName in [TRANSFER, APPROVE, BURN] then
      if asset != Some(call.contract) || !ArgIs(call, 0, here) || nested.Some? then None
      else Amount(call, if call.fnName == BURN then 1 else 2)
    else match nested
      case None => Some(0)
      case Some(n) =>
        if asset != Some(n.contract) || n.fnName != TRANSFER then None
        else if !ArgIs(n, 0, here) || !ArgIs(n, 1, call.contract) then None
        else Amount(n, 2)
  }

  /** The amount in argument `i`; a call without one moves nothing. */
  function AmountOrNone(c: Call, i: nat): int {
    match Amount(c, i)
    case Some(n) => n
    case None => 0
  }

  /**
   * What an authorized call takes of `token` from the account, by what the called
   * contract does: the account's own payment moves the grant's asset, a token's
   * transfer, approval or burn moves that token out of the account named first.
   */
  function Outflow(here: Address, asset: Option<Address>, token: Address, c: Call): int {
    if c.contract == here && c.fnName == PAY then
      if asset == Some(token) then AmountOrNone(c, 1) else 0
    else if c.contract == token && ArgIs(c, 0, here) && c.fnName in [TRANSFER, APPROVE, BURN] then
      AmountOrNone(c, if c.fnName == BURN then 1 else 2)
    else 0
  }

  predicate AllCalls(contexts: seq<Context>) { forall i :: 0 <= i < |contexts| ==> contexts[i].ContractCall? }

  function OutflowOfAll(here: Address, asset: Option<Address>, token: Address, contexts: seq<Context>): int
    requires AllCalls(contexts)
  {
    if contexts == [] then 0
    else Outflow(here, asset, token, contexts[0].call) + OutflowOfAll(here, asset, token, contexts[1..])
  }

  predicate OneCall(contexts: seq<Context>) { 1 <= |contexts| <= 2 && AllCalls(contexts) }

  function Nested(contexts: seq<Context>): Option<Call>
    requires OneCall(contexts)
  {
    if |contexts| == 2 then Some(contexts[1].call) else None
  }

  /**
   * What may pass takes exactly that of the grant's asset, over all the calls
   * together, and nothing of any other token.
   */
  lemma MovesExactly(here: Address, asset: Option<Address>, token: Address, contexts: seq<Context>)
    requires OneCall(contexts)
    requires MovedBy(here, asset, contexts[0].call, Nested(contexts)).Some?
    ensures OutflowOfAll(here, asset, token, contexts)
         == if asset == Some(token) then MovedBy(here, asset, contexts[0].call, Nested(contexts)).value else 0
  {
    Distinct();
    var rest := contexts[1..];
    if |contexts| == 2 {
      assert rest == [contexts[1]] && rest[1..] == [];
      assert OutflowOfAll(here, asset, token, rest) == Outflow(here, asset, token, contexts[1].call);
    } else {
      assert rest == [];
    }
  }

  lemma Distinct()
    ensures PAY != TRANSFER && PAY != APPROVE && PAY != BURN && BURN != TRANSFER && BURN != APPROVE
  {
    assert |PAY| == 3 && |BURN| == 4 && |TRANSFER| == 8 && |APPROVE| == 7;
  }

  // ---- What is accepted ----

  predicate SyncAccepts(h: Hash, l: Ledger, id: Identity, root: Option<Word>, grant: Bytes, proof: Bytes,
                        caip19: Bytes) {
    && |proof| <= MAX_PROOF && |caip19| <= MAX_CAIP19
    && Genuine(h, id, root, grant, proof)
    && var g := DecodeGrant(grant).value;
    && Allows(l, Install(g)) && h(caip19) == g.asset
  }

  /** The action names the call made, and the call moves the action's amount. */
  predicate Describes(a: Action, here: Address, asset: Option<Address>, contexts: seq<Context>)
    requires OneCall(contexts)
  {
    var call := contexts[0].call;
    && call.contract.Contract? && call.contract.id == a.target && call.fnName == a.selector
    && MovedBy(here, asset, call, Nested(contexts)) == Some(a.amount)
  }

  /** The parts the account copies into buffers of its own fit them. */
  predicate SignersFit(signers: seq<Signer>, n: nat)
    requires n <= |signers|
  {
    forall i :: 0 <= i < n ==> |signers[i].operator| <= MAX_OPERATOR && |signers[i].proof| <= MAX_SIBLINGS
  }

  predicate TargetFits(g: Grant, proof: seq<Bytes>) { g.targetsRoot != ZERO ==> |proof| <= MAX_SIBLINGS }

  /** What an open grant asks besides its limits: the payload signed for, the target, the signers. */
  predicate OpenAuthority(h: Hash, p256: P256, g: Grant, n: nat, a: Action, payload: Word, auth: ActAuth) {
    && a.data == payload
    && TargetFits(g, auth.targetProof) && TargetOk(h, g, a.target, a.selector, auth.targetProof)
    && SignersOk(h, p256, g, ActDigest(h, g, n, auth.action), auth.signers, a.amount)
    && SignersFit(auth.signers, Need(g, a.amount))
  }

  predicate Authority(h: Hash, p256: P256, g: Grant, n: nat, a: Action, payload: Word, auth: ActAuth) {
    if IsExact(g) then h(auth.action) == g.payloadHash else OpenAuthority(h, p256, g, n, a, payload, auth)
  }

  predicate ExactNow(l: Ledger) { l.grant.Some? && IsExact(l.grant.value) }

  /** One call at a time, under a live grant, with an action that decodes. */
  predicate Ready(l: Ledger, nowS: nat, action: Bytes, contexts: seq<Context>) {
    && OneCall(contexts) && nowS * 1000 < U64 && |action| <= MAX_ACTION && DecodeAction(action).Some?
    && Live(l, nowS * 1000)
  }

  predicate CallAllowed(l: Ledger, here: Address, asset: Option<Address>, nowS: nat, action: Bytes,
                        contexts: seq<Context>) {
    && Ready(l, nowS, action, contexts)
    && LedgerAllows(l, nowS * 1000, action, ExactNow(l))
    && Describes(DecodeAction(action).value, here, asset, contexts)
  }

  predicate AuthAccepts(h: Hash, p256: P256, l: Ledger, here: Address, asset: Option<Address>, nowS: nat, payload: Word,
                        auth: ActAuth, contexts: seq<Context>) {
    && CallAllowed(l, here, asset, nowS, auth.action, contexts)
    && Authority(h, p256, l.grant.value, l.nonce, DecodeAction(auth.action).value, payload, auth)
  }

  /**
   * Whatever is authorized takes out of the account what the action says, in the
   * asset granted, and nothing of any other token.
   */
  lemma AuthorizedMovesAmount(h: Hash, p256: P256, l: Ledger, here: Address, asset: Option<Address>, token: Address,
                              nowS: nat,
                              payload: Word, auth: ActAuth, contexts: seq<Context>)
    requires AuthAccepts(h, p256, l, here, asset, nowS, payload, auth, contexts)
    ensures OutflowOfAll(here, asset, token, contexts)
         == if asset == Some(token) then DecodeAction(auth.action).value.amount else 0
  {
    MovesExactly(here, asset, token, contexts);
  }

  /**
   * The one call let pass is the action's: its contract and function. Under an
   * open grant the action carries the payload signed for, and where the grant
   * commits to targets, the call is one of them.
   */
  lemma AuthorizedCall(h: Hash, p256: P256, l: Ledger, here: Address, asset: Option<Address>, nowS: nat, payload: Word,
                       auth: ActAuth, contexts: seq<Context>, tree: Tree, targets: set<Target>, xs: set<Bytes>)
    requires AuthAccepts(h, p256, l, here, asset, nowS, payload, auth, contexts)
    requires TreeIn(h, tree, xs) && Commits(tree, targets)
    requires var a := DecodeAction(auth.action).value;
      LeafProofIn(h, TargetContent(a.target, a.selector), auth.targetProof, xs)
    ensures var a, call := DecodeAction(auth.action).value, contexts[0].call;
      call.contract.Contract? && call.contract.id == a.target && call.fnName == a.selector
    ensures !IsExact(l.grant.value) ==> DecodeAction(auth.action).value.data == payload
    ensures IsExact(l.grant.value) ==> h(auth.action) == l.grant.value.payloadHash
    ensures !IsExact(l.grant.value) && l.grant.value.targetsRoot != ZERO && l.grant.value.targetsRoot == Root(h, tree) ==>
      Target(contexts[0].call.contract.id, contexts[0].call.fnName) in targets || Collides(h, xs)
  {
    var g := l.grant.value;
    if !IsExact(g) && g.targetsRoot != ZERO && g.targetsRoot == Root(h, tree) {
      TargetCommitted(h, g, auth.action, auth.targetProof, tree, targets, xs);
    }
  }

  /** And it is signed, for this account's next nonce, by keys the grant committed to. */
  lemma AuthorizedIsSigned(h: Hash, p256: P256, l: Ledger, here: Address, asset: Option<Address>, nowS: nat, payload: Word,
                           auth: ActAuth, contexts: seq<Context>, keys: Tree, xs: set<Bytes>)
    requires AuthAccepts(h, p256, l, here, asset, nowS, payload, auth, contexts) && !IsExact(l.grant.value)
    requires l.grant.value.keysRoot == Root(h, keys) && TreeIn(h, keys, xs) && SignerProofsIn(h, auth.signers, 2, xs)
    ensures var d := h(ActBytes(ACT_DOMAIN, l.grant.value, l.nonce, auth.action));
      Collides(h, xs) || exists k: PublicKey, o, s :: SignedBy(p256, keys, d, k, o, s)
    ensures var d := h(ActBytes(ACT_DOMAIN, l.grant.value, l.nonce, auth.action));
      DecodeAction(auth.action).value.amount > l.grant.value.cosignAbove ==>
        Collides(h, xs) || exists k1: PublicKey, o1, s1, k2: PublicKey, o2, s2 ::
          o1 != o2 && SignedBy(p256, keys, d, k1, o1, s1) && SignedBy(p256, keys, d, k2, o2, s2)
  {
    var g, amount := l.grant.value, DecodeAction(auth.action).value.amount;
    var d := ActDigest(h, g, l.nonce, auth.action);
    SignedByOne(h, p256, g, d, auth.signers, amount, keys, xs);
    if amount > g.cosignAbove { CosignedByTwo(h, p256, g, d, auth.signers, amount, keys, xs); }
  }

  /** A transfer of the grant's asset out of the account, as an open grant's action that names it, goes through. */
  lemma TransferAuthorized(h: Hash, p256: P256, l: Ledger, here: Address, assetId: Word, to: Address, nowS: nat,
                           payload: Word, action: Bytes, keys: Tree, k: PublicKey, o: Bytes, s: Bytes)
    requires nowS * 1000 < U64 && |action| <= MAX_ACTION && |o| <= MAX_OPERATOR
    requires LedgerAllows(l, nowS * 1000, action, false) && !IsExact(l.grant.value)
    requires var a, g := DecodeAction(action).value, l.grant.value;
      && a.target == assetId && a.selector == TRANSFER && a.data == payload
      && g.targetsRoot == ZERO && g.keysRoot == Root(h, keys) && a.amount <= g.cosignAbove
      && SignedBy(p256, keys, h(ActBytes(ACT_DOMAIN, g, l.nonce, action)), k, o, s)
      && |ProofOf(h, keys, KeyContent(k, o))| <= MAX_SIBLINGS
    ensures var call := Call(Contract(assetId), TRANSFER, [Addr(here), Addr(to), I128(DecodeAction(action).value.amount)]);
      AuthAccepts(h, p256, l, here, Some(Contract(assetId)), nowS, payload,
                  ActAuth(action, [SignerOf(h, keys, k, o, s)], []), [ContractCall(call)])
  {
    Distinct();
    var a, g := DecodeAction(action).value, l.grant.value;
    OneIsEnough(h, p256, g, ActDigest(h, g, l.nonce, action), a.amount, keys, k, o, s);
    var call := Call(Contract(assetId), TRANSFER, [Addr(here), Addr(to), I128(a.amount)]);
    TransferDescribed(a, here, assetId, to);
  }

  lemma TransferDescribed(a: Action, here: Address, assetId: Word, to: Address)
    requires a.target == assetId && a.selector == TRANSFER
    ensures var call := Call(Contract(assetId), TRANSFER, [Addr(here), Addr(to), I128(a.amount)]);
      OneCall([ContractCall(call)]) && Describes(a, here, Some(Contract(assetId)), [ContractCall(call)])
  {
    Distinct();
    var call := Call(Contract(assetId), TRANSFER, [Addr(here), Addr(to), I128(a.amount)]);
    assert MovedBy(here, Some(Contract(assetId)), call, None) == Some(a.amount);
  }

  /** A grant is taken only with its asset's own name: two names it is taken with are one, or collide. */
  lemma AssetIsNamed(h: Hash, l: Ledger, id: Identity, root: Option<Word>, grant: Bytes, proof: Bytes, caip19: Bytes,
                     l': Ledger, root': Option<Word>, proof': Bytes, caip19': Bytes, xs: set<Bytes>)
    requires SyncAccepts(h, l, id, root, grant, proof, caip19) && SyncAccepts(h, l', id, root', grant, proof', caip19')
    requires caip19 in xs && caip19' in xs
    ensures h(caip19) == DecodeGrant(grant).value.asset
    ensures caip19 == caip19' || Collides(h, xs)
  {
    SameHash(h, xs, caip19, caip19');
  }

  /** What a payment bought: the payee on Tenzro, the request and quote, and the price. */
  datatype Bought = Bought(payee: Word, request: Word, quote: Word, usdE6: nat)

  function PayData(b: Bought): (d: Bytes)
    ensures |d| == PAY_DATA_LEN
  {
    b.payee + b.request + b.quote + BE(8, b.usdE6)
  }

  function PayCall(here: Address, to: Address, amount: int, b: Bought): Call {
    Call(here, PAY, [Addr(to), I128(amount), Blob(b.payee), Blob(b.request), Blob(b.quote), Blob(BE(8, b.usdE6))])
  }

  /** A payment that is authorized pays the action's amount. */
  lemma PaysAmount(h: Hash, p256: P256, l: Ledger, here: Address, asset: Option<Address>, nowS: nat, payload: Word,
                   auth: ActAuth, to: Address, amount: int, b: Bought)
    requires AuthAccepts(h, p256, l, here, asset, nowS, payload, auth, [ContractCall(PayCall(here, to, amount, b))])
    ensures amount >= 0 && DecodeAction(auth.action).value.amount == amount && l.grant.Some?
  {
    var call := PayCall(here, to, amount, b);
    assert MovedBy(here, asset, call, None) == Amount(call, 1) == Some(amount);
    assert Describes(DecodeAction(auth.action).value, here, asset, [ContractCall(call)]);
  }

  // ---- Checks ----

  method CheckMoved(here: Address, asset: Option<Address>, call: Call, nested: Option<Call>)
    returns (r: Result<Option<int>, Refusal>)
    ensures r.Ok? && r.value.Some? <==> MovedBy(here, asset, call, nested).Some?
    ensures r.Ok? && r.value.Some? ==> r.value == MovedBy(here, asset, call, nested)
  {
    Distinct();
    var plain := false;
    var moved: Option<int>;
    if call.fnName == PAY {
      if call.contract != here { return Err(TargetNotAllowed); }
      moved := Amount(call, 1);
    } else if call.fnName in [TRANSFER, APPROVE, BURN] {
      if asset != Some(call.contract) { return Err(AssetMismatch); }
      if !ArgIs(call, 0, here) { return Err(AmountMismatch); }
      moved := Amount(call, if call.fnName == BURN then 1 else 2);
    } else {
      plain := true;
      if nested.None? {
        moved := Some(0);
      } else {
        var n := nested.value;
        if asset != Some(n.contract) { return Err(AssetMismatch); }
        if n.fnName != TRANSFER { return Err(OneCallAtATime); }
        if !ArgIs(n, 0, here) || !ArgIs(n, 1, call.contract) { return Err(AmountMismatch); }
        moved := Amount(n, 2);
      }
    }
    if nested.Some? && !plain { return Err(OneCallAtATime); }
    return Ok(moved);
  }

  method CheckCall(a: Action, here: Address, asset: Option<Address>, contexts: seq<Context>)
    returns (bad: Option<Refusal>)
    requires OneCall(contexts)
    ensures bad.None? <==> Describes(a, here, asset, contexts)
  {
    var call := contexts[0].call;
    if !call.contract.Contract? || a.target != call.contract.id { return Some(TargetNotAllowed); }
    if call.fnName != a.selector { return Some(TargetNotAllowed); }
    var moved := CheckMoved(here, asset, call, Nested(contexts));
    if moved.Err? { return Some(moved.error); }
    return if moved.value == Some(a.amount) then None else Some(AmountMismatch);
  }

  /** The signers in order, remembering the first one's operator. */
  method CheckSignersInOrder(h: Hash, p256: P256, g: Grant, digest: Word, signers: seq<Signer>, amount: nat)
    returns (ok: bool)
    ensures ok <==> SignersOk(h, p256, g, digest, signers, amount) && SignersFit(signers, Need(g, amount))
  {
    var need := if amount > g.cosignAbove then 2 else 1;
    if |signers| < need { return false; }
    var first: Option<Bytes> := None;
    for i := 0 to need
      invariant SignersFit(signers, i)
      invariant forall k :: 0 <= k < i ==> SignerOk(h, p256, g, digest, signers[k])
      invariant first == if i == 0 then None else Some(signers[0].operator)
      invariant i == 2 ==> signers[0].operator != signers[1].operator
    {
      var s := signers[i];
      if |s.operator| > MAX_OPERATOR || |s.proof| > MAX_SIBLINGS { return false; }
      var good := CheckSigner(h, p256, g, digest, s);
      if !good { return false; }
      if first.None? {
        first := Some(s.operator);
      } else if first.value == s.operator {
        return false;
      }
    }
    return true;
  }

  method CheckOpen(h: Hash, p256: P256, g: Grant, n: nat, a: Action, payload: Word, auth: ActAuth)
    returns (bad: Option<Refusal>)
    ensures bad.None? <==> OpenAuthority(h, p256, g, n, a, payload, auth)
  {
    if a.data != payload { return Some(PayloadMismatch); }
    if g.targetsRoot != ZERO {
      if |auth.targetProof| > MAX_SIBLINGS || !AllWords(auth.targetProof) { return Some(Malformed); }
      var leaf := h(LeafBytes(TargetContent(a.target, a.selector)));
      var ok := MerkleVerify(h, g.targetsRoot, leaf, AsWords(auth.targetProof));
      if !ok { return Some(TargetNotAllowed); }
    }
    var ok := CheckSignersInOrder(h, p256, g, ActDigest(h, g, n, auth.action), auth.signers, a.amount);
    return if ok then None else Some(NotSigned);
  }

  method CheckAuthority(h: Hash, p256: P256, g: Grant, n: nat, a: Action, payload: Word, auth: ActAuth)
    returns (bad: Option<Refusal>)
    ensures bad.None? <==> Authority(h, p256, g, n, a, payload, auth)
  {
    if IsExact(g) {
      return if h(auth.action) == g.payloadHash then None else Some(PayloadMismatch);
    }
    bad := CheckOpen(h, p256, g, n, a, payload, auth);
  }

  class Account {
    const id: Identity
    const data: Data
    var caip19: Bytes

    function Here(): Address { Contract(id.account) }

    constructor (id: Identity)
      ensures this.id == id && fresh(data) && data.Valid() && data.steps == []
    {
      this.id := id;
      data := new Data();
      caip19 := [];
    }

    /** Everything a grant must pass before it is installed. */
    method CheckSync(h: Hash, root: Option<Word>, grantBytes: Bytes, proof: Bytes, asset: Bytes)
      returns (r: Result<Grant, Refusal>)
      requires data.Valid()
      ensures r.Ok? <==> SyncAccepts(h, data.Held(), id, root, grantBytes, proof, asset)
      ensures r.Ok? ==> Carries(grantBytes, r.value) && Follows(r.value, data.Held().grant)
    {
      if |proof| > MAX_PROOF { return Err(Malformed); }
      var genuine := CheckGrant(h, id, root, grantBytes, proof);
      if genuine.Err? { return Err(Refused(genuine.error)); }
      var g := genuine.value;
      assert DecodeGrant(grantBytes) == Some(g);
      var stale := data.CheckFollows(g);
      if stale.Some? { return Err(Refused(stale.value)); }
      if |asset| > MAX_CAIP19 { return Err(Malformed); }
      if h(asset) != g.asset { return Err(AssetMismatch); }
      return Ok(g);
    }

    /** Install a grant proven under the state root `root` the finality client answered with. */
    method Sync(h: Hash, root: Option<Word>, grantBytes: Bytes, proof: Bytes, asset: Bytes)
      returns (r: Result<Grant, Refusal>)
      requires data.Valid()
      modifies this, data
      ensures data.Valid()
      ensures r.Ok? <==> SyncAccepts(h, old(data.Held()), id, root, grantBytes, proof, asset)
      ensures r.Ok? ==> Carries(grantBytes, r.value)
      ensures data.Held() == if r.Ok? then Apply(old(data.Held()), Install(r.value)) else old(data.Held())
      ensures caip19 == if r.Ok? then asset else old(caip19)
      ensures data.steps == if r.Ok? then old(data.steps) + [Install(r.value)] else old(data.steps)
    {
      r := CheckSync(h, root, grantBytes, proof, asset);
      if r.Ok? {
        data.Take(r.value, grantBytes);
        caip19 := asset;
      }
    }

    method CheckReady(nowS: nat, action: Bytes, contexts: seq<Context>) returns (r: Result<(Grant, Action), Refusal>)
      requires data.Valid()
      ensures r.Ok? <==> Ready(data.Held(), nowS, action, contexts)
      ensures r.Ok? ==> data.Held().grant == Some(r.value.0) && DecodeAction(action) == Some(r.value.1)
    {
      if contexts == [] || |contexts| > 2 { return Err(OneCallAtATime); }
      if exists i :: 0 <= i < |contexts| && contexts[i].Deploy? { return Err(OneCallAtATime); }
      assert OneCall(contexts);
      if nowS * 1000 >= U64 { return Err(ClockOverflow); }
      var live := data.CheckLive(nowS * 1000);
      if live.Err? { return Err(Refused(live.error)); }
      if |action| > MAX_ACTION { return Err(Malformed); }
      var decoded := ReadAction(action);
      if decoded.None? { return Err(Malformed); }
      return Ok((live.value, decoded.value));
    }

    /** The live grant and the action that names the calls, as far as the ledger goes. */
    method CheckAllowed(asset: Option<Address>, nowS: nat, action: Bytes, contexts: seq<Context>)
      returns (r: Result<(Grant, Action), Refusal>)
      requires data.Valid()
      ensures r.Ok? <==> CallAllowed(data.Held(), Here(), asset, nowS, action, contexts)
      ensures r.Ok? ==> data.Held().grant == Some(r.value.0) && DecodeAction(action) == Some(r.value.1)
    {
      r := CheckReady(nowS, action, contexts);
      if r.Err? { return; }
      var bad := CheckCall(r.value.1, Here(), asset, contexts);
      if bad.Some? { return Err(bad.value); }
      var over := data.CheckLimits(r.value.0, r.value.1, IsExact(r.value.0));
      if over.Some? { return Err(Refused(over.value)); }
    }

    /** Everything an authorization must pass before the ledger moves. */
    method CheckAccepts(h: Hash, host: Host, nowS: nat, payload: Word, auth: ActAuth, contexts: seq<Context>)
      returns (r: Result<(Grant, Action), Refusal>)
      requires data.Valid()
      ensures r.Ok? <==>
        AuthAccepts(h, host.p256, data.Held(), Here(), AssetContract(host, caip19), nowS, payload, auth, contexts)
      ensures r.Ok? ==> data.Held().grant == Some(r.value.0) && DecodeAction(auth.action) == Some(r.value.1)
    {
      r := CheckAllowed(AssetContract(host, caip19), nowS, auth.action, contexts);
      if r.Err? { return; }
      var bad := CheckAuthority(h, host.p256, r.value.0, data.nonce, r.value.1, payload, auth);
      if bad.Some? { return Err(bad.value); }
    }

    /** Authorize the calls in `contexts`, whose signature payload is `payload`. */
    method CheckAuth(h: Hash, host: Host, nowS: nat, payload: Word, auth: ActAuth, contexts: seq<Context>)
      returns (r: Result<Action, Refusal>)
      requires data.Valid()
      modifies data
      ensures data.Valid()
      ensures r.Ok? <==>
        AuthAccepts(h, host.p256, old(data.Held()), Here(), AssetContract(host, caip19), nowS, payload, auth, contexts)
      ensures r.Ok? ==> DecodeAction(auth.action) == Some(r.value)
      ensures r.Ok? ==> var s := StepOf(nowS * 1000, r.value, ExactNow(old(data.Held())));
        data.Held() == Apply(old(data.Held()), s) && data.steps == old(data.steps) + [s]
      ensures r.Err? ==> data.Held() == old(data.Held()) && data.steps == old(data.steps)
    {
      var checked := CheckAccepts(h, host, nowS, payload, auth, contexts);
      if checked.Err? { return Err(checked.error); }
      var g, a := checked.value.0, checked.value.1;
      data.Move(nowS * 1000, a, IsExact(g));
      return Ok(a);
    }

    /**
     * Pay `amount` and report it. The call is authorized like any other;
     * `transfers` is whether the token moves the amount when asked to.
     */
    method Pay(h: Hash, host: Host, nowS: nat, payload: Word, auth: ActAuth, to: Address, amount: int, bought: Bought,
               transfers: bool) returns (r: Result<Bytes, Refusal>)
      requires data.Valid()
      modifies data
      ensures data.Valid()
      ensures r.Ok? <==>
        && transfers && AssetContract(host, caip19).Some?
        && AuthAccepts(h, host.p256, old(data.Held()), Here(), AssetContract(host, caip19), nowS, payload, auth,
                       [ContractCall(PayCall(Here(), to, amount, bought))])
      ensures r.Ok? ==>
        && amount >= 0 && old(data.Held()).grant.Some?
        && PaidReport(old(data.Held()).grant.value, old(data.nonce), PayData(bought), amount) == Some(r.value)
        && data.nonce == old(data.nonce) + 1 && data.spent == old(data.spent) + amount
      ensures r.Err? ==> data.Held() == old(data.Held()) && data.steps == old(data.steps)
    {
      if !transfers || AssetContract(host, caip19).None? { return Err(AssetMismatch); }
      ghost var l := data.Held();
      var contexts := [ContractCall(PayCall(Here(), to, amount, bought))];
      var authorized := CheckAuth(h, host, nowS, payload, auth, contexts);
      if authorized.Err? { return Err(authorized.error); }
      PaysAmount(h, host.p256, l, Here(), AssetContract(host, caip19), nowS, payload, auth, to, amount, bought);
      assert data.Held() == Counted(l, amount, ExactNow(l));
      r := Report(amount, bought, l);
    }

    /** The report of the payment just made, by the ledger `l` it was made under. */
    method Report(amount: nat, bought: Bought, ghost l: Ledger) returns (r: Result<Bytes, Refusal>)
      requires data.Valid() && l.grant.Some? && data.Held().grant == l.grant && data.nonce == l.nonce + 1
      ensures r.Ok? && PaidReport(l.grant.value, l.nonce, PayData(bought), amount) == Some(r.value)
    {
      var g := Reread(data.grant.value, data.installed.value);
      return Ok(PaidReport(g, data.nonce - 1, PayData(bought), amount).value);
    }
  }
}
