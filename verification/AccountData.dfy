// What every agent account stores under its grant, and the checks and updates
// that do not depend on the chain it is on.
module AccountData {
  import opened Encoding
  import opened Hashing
  import opened StateProof
  import opened Agent
  import opened AgentLedger

  datatype Why =
    | NoStateRoot | NotProven | MalformedGrant | NotThisAccount | StaleGrant
    | NoLiveGrant | GrantVoid | OutsideWindow | RelayOverCap | NotExact | ExactUsed | ExactOnly | OverPerAction
    | OverBudget | Overflow

  /** The grant in the bytes, if they are proven under `root` and name this account. */
  method CheckGrant(h: Hash, id: Identity, root: Option<Word>, grant: Bytes, proof: Bytes)
    returns (r: Result<Grant, Why>)
    ensures r.Ok? <==> Genuine(h, id, root, grant, proof)
    ensures r.Ok? ==> Carries(grant, r.value)
  {
    if root.None? { return Err(NoStateRoot); }
    var ok := VerifyAt(h, root.value, id.treeKey, Some(grant), proof);
    if !ok { return Err(NotProven); }
    var decoded := ReadGrant(grant);
    if decoded.None? { return Err(MalformedGrant); }
    var g := decoded.value;
    if g.chain != id.chain || g.agent != id.agent || g.account != id.account { return Err(NotThisAccount); }
    return Ok(g);
  }

  /**
   * The bytes decode to this grant. Said through a variable equal to `b`, so that
   * the decoder's definition is looked into only where a decoding is at hand.
   */
  ghost predicate Carries(b: Bytes, g: Grant) {
    forall x :: x == b ==> DecodeGrant(x) == Some(g)
  }

  /** The installed grant as its bytes give it back. */
  method Reread(b: Bytes, ghost g: Grant) returns (r: Grant)
    requires Carries(b, g)
    ensures r == g
  {
    var decoded := ReadGrant(b);
    r := decoded.value;
  }

  class Data {
    var grant: Option<Bytes>
    var spent: nat
    var nonce: nat
    var exactUsed: bool
    ghost var installed: Option<Grant> // what the grant's bytes say
    ghost var steps: seq<Step> // every step taken so far

    ghost function Held(): Ledger
      reads this
    {
      Ledger(installed, spent, nonce, exactUsed)
    }

    /** The bytes are the installed grant's, and the fields the ledger after the steps taken. */
    ghost predicate Valid()
      reads this
    {
      && (grant.None? <==> installed.None?)
      && (grant.Some? ==> Carries(grant.value, installed.value))
      && Held() == Play(steps).ledger
    }

    constructor ()
      ensures Valid() && steps == []
    {
      grant, spent, nonce, exactUsed, installed, steps := None, 0, 0, false, None, [];
    }

    /** Why the grant may not follow the installed one, if it may not. */
    method CheckFollows(g: Grant) returns (bad: Option<Why>)
      requires Valid()
      ensures bad.None? <==> Follows(g, Held().grant)
    {
      if grant.Some? {
        var cur := Reread(grant.value, installed.value);
        if g.seqNo <= cur.seqNo && !(g.seqNo == cur.seqNo && g.void && !cur.void) { return Some(StaleGrant); }
      }
      return None;
    }

    /** Install a grant that follows; a new sequence number starts counting afresh. */
    method Take(g: Grant, grantBytes: Bytes)
      requires Valid() && Carries(grantBytes, g) && Follows(g, Held().grant)
      modifies this
      ensures Valid() && Held() == Apply(old(Held()), Install(g)) && steps == old(steps) + [Install(g)]
    {
      PlayOn(steps, Install(g));
      var newSeq := true;
      if grant.Some? {
        var cur := Reread(grant.value, installed.value);
        newSeq := g.seqNo > cur.seqNo;
      }
      if newSeq {
        spent, exactUsed := 0, false;
      }
      grant, installed := Some(grantBytes), Some(g);
      steps := steps + [Install(g)];
    }

    /** The installed grant, live now. */
    method CheckLive(nowMs: nat) returns (r: Result<Grant, Why>)
      requires Valid()
      ensures r.Ok? <==> Live(Held(), nowMs)
      ensures r.Ok? ==> Held().grant == Some(r.value)
    {
      if grant.None? { return Err(NoLiveGrant); }
      var g := Reread(grant.value, installed.value);
      if g.void { return Err(GrantVoid); }
      if nowMs < g.notBeforeMs || nowMs > g.notAfterMs { return Err(OutsideWindow); }
      return Ok(g);
    }

    /** The limits a grant puts on an action. */
    method CheckLimits(g: Grant, a: Action, exact: bool) returns (bad: Option<Why>)
      ensures bad.None? <==> Within(Held(), g, a.amount, a.refund, exact)
    {
      if a.refund > g.relayFeeMax { return Some(RelayOverCap); }
      if exact {
        if !IsExact(g) { return Some(NotExact); }
        if exactUsed { return Some(ExactUsed); }
      } else {
        if IsExact(g) { return Some(ExactOnly); }
        if a.amount > g.perActionMax { return Some(OverPerAction); }
        if spent + a.amount > g.budget { return Some(OverBudget); }
      }
      if nonce + 1 >= U64 || spent + a.amount >= U128 { return Some(Overflow); }
      return None;
    }

    /** Count an allowed action. */
    method Move(nowMs: nat, a: Action, exact: bool)
      requires Valid() && Allows(Held(), StepOf(nowMs, a, exact))
      modifies this`nonce, this`spent, this`exactUsed, this`steps
      ensures Valid() && Held() == Apply(old(Held()), StepOf(nowMs, a, exact))
      ensures steps == old(steps) + [StepOf(nowMs, a, exact)]
    {
      PlayOn(steps, StepOf(nowMs, a, exact));
      if exact {
        exactUsed := true;
      }
      nonce, spent := nonce + 1, spent + a.amount;
      steps := steps + [StepOf(nowMs, a, exact)];
    }
  }
}
