// Refresh tokens: each is spent by the one exchange it is good for, which puts
// another in its place.
module Refresh {
  import opened Encoding
  import opened Authority
  import opened Sequences
  import Graph = Revocation
  import Engine = RevocationEngine
  import Runs = RevocationRuns
  import Effects = RevocationEffects

  datatype Entry = Entry(bearer: string, controller: string, jkt: Option<string>, details: seq<Detail>, expiresAt: nat)

  type Store = map<string, Entry>

  /** A key's thumbprint: the text of a hash, never empty. */
  type Thumbprint = t: string | t != "" witness "a"

  /** The proof of possession that came with an exchange: none, one that does not verify, or one by a key. */
  datatype Possession = NoProof | BadProof | Proven(jkt: Thumbprint)

  datatype Refusal = Unknown | Expired | Revoked | InvalidProof | WrongKey | ProofRequired

  datatype Step =
    | Issue(token: string, entry: Entry)
    | Exchange(token: string, now: nat, revoked: bool, proof: Possession, next: string)
    | Withdraw(token: string)

  /** The key the new tokens are bound to: the one bound already, or the one just proven; empty for none. */
  function KeyFor(e: Entry, proof: Possession): Result<string, Refusal> {
    match (e.jkt, proof)
    case (_, BadProof) => Err(InvalidProof)
    case (Some(bound), Proven(k)) => if bound == k then Ok(bound) else Err(WrongKey)
    case (Some(_), NoProof) => Err(ProofRequired)
    case (None, Proven(k)) => Ok(k)
    case (None, NoProof) => Ok("")
  }

  /** Whether the exchange goes through, and with which key. */
  function Redeemed(store: Store, s: Step): Result<string, Refusal>
    requires s.Exchange?
  {
    if s.token !in store then Err(Unknown)
    else if s.now >= store[s.token].expiresAt then Err(Expired)
    else if s.revoked then Err(Revoked)
    else KeyFor(store[s.token], s.proof)
  }

  predicate Redeems(store: Store, s: Step) { s.Exchange? && Redeemed(store, s).Ok? }

  function Rotated(e: Entry, jkt: string): Entry { e.(jkt := if jkt == "" then None else Some(jkt)) }

  function StoreAfter(store: Store, s: Step): Store {
    match s
    case Issue(token, entry) => store[token := entry]
    case Withdraw(token) => store - {token}
    case Exchange(token, now, _, _, next) =>
      if Redeems(store, s) then (store - {token})[next := Rotated(store[token], Redeemed(store, s).value)]
      else if token in store && now >= store[token].expiresAt then store - {token}
      else store
  }

  /** What an exchange hands out. */
  datatype Outcome = Outcome(bearer: string, controller: string, jkt: Option<string>, details: seq<Detail>,
                             refreshToken: string, refreshExpiresIn: nat)

  class RefreshTokens {
    var store: Store

    constructor ()
      ensures store == map[]
    {
      store := map[];
    }

    method IssueToken(now: nat, ttl: nat, bearer: string, controller: string, jkt: Option<string>, details: seq<Detail>,
                      token: string)
      modifies this
      ensures store == StoreAfter(old(store), Issue(token, Entry(bearer, controller, jkt, details, now + ttl)))
    {
      store := store[token := Entry(bearer, controller, jkt, details, now + ttl)];
    }

    method WithdrawToken(token: string)
      modifies this
      ensures store == StoreAfter(old(store), Withdraw(token))
    {
      store := store - {token};
    }

    /** Spend `token`; the bearer and the access token stay whose they were. */
    method ExchangeToken(token: string, now: nat, revoked: bool, proof: Possession, next: string)
      returns (r: Result<Outcome, Refusal>)
      modifies this
      ensures store == StoreAfter(old(store), Exchange(token, now, revoked, proof, next))
      ensures r.Ok? <==> Redeems(old(store), Exchange(token, now, revoked, proof, next))
      ensures r.Ok? ==>
        && next in store && r.value.refreshToken == next && r.value.jkt == store[next].jkt
        && SameGrant(store[next], old(store)[token])
        && r.value.bearer == store[next].bearer && r.value.controller == store[next].controller
        && r.value.details == store[next].details
        && now + r.value.refreshExpiresIn == old(store)[token].expiresAt
    {
      if token !in store { return Err(Unknown); }
      var entry := store[token];
      if now >= entry.expiresAt {
        store := store - {token};
        return Err(Expired);
      }
      if revoked { return Err(Revoked); }
      var jkt := "";
      match proof {
        case BadProof => return Err(InvalidProof);
        case Proven(k) =>
          if entry.jkt.Some? && entry.jkt.value != k { return Err(WrongKey); }
          jkt := k;
        case NoProof =>
          if entry.jkt.Some? { return Err(ProofRequired); }
      }
      var bound := if jkt == "" then None else Some(jkt);
      store := (store - {token})[next := entry.(jkt := bound)];
      return Ok(Outcome(entry.bearer, entry.controller, bound, entry.details, next, entry.expiresAt - now));
    }
  }

  // ---- Runs ----

  /** The same grant, but for the key. */
  predicate SameGrant(a: Entry, b: Entry) { a == b.(jkt := a.jkt) }

  /** What happened: every token's grant, the grants as first issued, and the tokens redeemed. */
  datatype Run = Run(store: Store, owner: map<string, nat>, grants: seq<Entry>, redeemed: seq<string>)

  const START: Run := Run(map[], map[], [], [])

  /** New token ids are fresh. */
  predicate FreshId(r: Run, s: Step) {
    && (s.Issue? ==> s.token !in r.owner)
    && (s.Exchange? ==> s.next !in r.owner)
  }

  function Advance(r: Run, s: Step): Run {
    var store := StoreAfter(r.store, s);
    match s
    case Issue(token, entry) => Run(store, r.owner[token := |r.grants|], r.grants + [entry], r.redeemed)
    case Withdraw(_) => r.(store := store)
    case Exchange(token, _, _, _, next) =>
      if Redeems(r.store, s) then Run(store, r.owner[next := OwnerOf(r, token)], r.grants, r.redeemed + [token])
      else r.(store := store)
  }

  function OwnerOf(r: Run, token: string): nat { if token in r.owner then r.owner[token] else 0 }

  predicate Owned(r: Run) {
    && (forall t :: t in r.store ==> t in r.owner)
    && (forall t :: t in r.owner ==> r.owner[t] < |r.grants|)
  }

  /** Each grant has at most one token that can be redeemed, and it is still that grant. */
  predicate OneLive(r: Run)
    requires Owned(r)
  {
    && (forall t, u :: t in r.store && u in r.store && r.owner[t] == r.owner[u] ==> t == u)
    && (forall t :: t in r.store ==> SameGrant(r.store[t], r.grants[r.owner[t]]))
  }

  /** No token is redeemed twice, nor can be once it was. */
  predicate SpentOnce(r: Run) {
    && Distinct(r.redeemed)
    && forall i :: 0 <= i < |r.redeemed| ==> r.redeemed[i] in r.owner && r.redeemed[i] !in r.store
  }

  predicate Kept(r: Run) { Owned(r) && OneLive(r) && SpentOnce(r) }

  lemma IssueKept(r: Run, s: Step)
    requires Kept(r) && FreshId(r, s) && s.Issue?
    ensures Kept(Advance(r, s))
  {
  }

  lemma RedeemOneLive(r: Run, s: Step)
    requires Owned(r) && OneLive(r) && FreshId(r, s) && Redeems(r.store, s)
    ensures Owned(Advance(r, s)) && OneLive(Advance(r, s))
  {
  }

  lemma RedeemSpent(r: Run, s: Step)
    requires Owned(r) && SpentOnce(r) && FreshId(r, s) && Redeems(r.store, s)
    ensures SpentOnce(Advance(r, s))
  {
    var t := Advance(r, s);
    forall i | 0 <= i < |t.redeemed|
      ensures t.redeemed[i] in t.owner && t.redeemed[i] !in t.store
    {
      if i < |r.redeemed| { assert t.redeemed[i] == r.redeemed[i]; }
    }
  }

  lemma StepKept(r: Run, s: Step)
    requires Kept(r) && FreshId(r, s)
    ensures Kept(Advance(r, s))
  {
    if s.Issue? {
      IssueKept(r, s);
    } else if Redeems(r.store, s) {
      RedeemOneLive(r, s);
      RedeemSpent(r, s);
    }
  }

  /** A run of steps, each meeting fresh ids; none if one does not. */
  function Play(steps: seq<Step>): Option<Run> {
    if steps == [] then Some(START) else
    var r, s := Play(steps[..|steps| - 1]), steps[|steps| - 1];
    if r.None? || !FreshId(r.value, s) then None else Some(Advance(r.value, s))
  }

  /**
   * Over every run: each token is redeemed at most once, each grant has at most
   * one token left to redeem, and that token carries the grant's bearer,
   * controller, authorization and expiry unchanged.
   */
  lemma {:induction false} Lineages(steps: seq<Step>)
    requires Play(steps).Some?
    ensures Kept(Play(steps).value)
  {
    if steps != [] {
      Lineages(steps[..|steps| - 1]);
      StepKept(Play(steps[..|steps| - 1]).value, steps[|steps| - 1]);
    }
  }

  // ---- Binding ----

  /** The grant's token, if it has one, is bound to `key`. */
  predicate BoundTo(r: Run, grant: nat, key: string) {
    forall t :: t in r.store && t in r.owner && r.owner[t] == grant ==> r.store[t].jkt == Some(key)
  }

  lemma StepStaysBound(r: Run, s: Step, grant: nat, key: string)
    requires Kept(r) && FreshId(r, s) && grant < |r.grants| && BoundTo(r, grant, key)
    ensures BoundTo(Advance(r, s), grant, key) && grant < |Advance(r, s).grants|
  {
  }

  /** Once a grant is bound to a key, every later token of it is bound to that key. */
  lemma {:induction false} StaysBound(steps: seq<Step>, n: nat, grant: nat, key: string)
    requires Play(steps).Some? && n <= |steps|
    requires Play(steps[..n]).Some?
    requires grant < |Play(steps[..n]).value.grants| && BoundTo(Play(steps[..n]).value, grant, key)
    ensures grant < |Play(steps).value.grants| && BoundTo(Play(steps).value, grant, key)
    decreases |steps|
  {
    if n == |steps| {
      assert steps[..n] == steps;
    } else {
      var before := steps[..|steps| - 1];
      assert before[..n] == steps[..n];
      StaysBound(before, n, grant, key);
      Lineages(before);
      StepStaysBound(Play(before).value, steps[|steps| - 1], grant, key);
    }
  }

  /** An exchange binds to the key proven, and a token bound already keeps its key. */
  lemma KeyKept(store: Store, s: Step)
    requires Redeems(store, s)
    ensures StoreAfter(store, s)[s.next].jkt == if s.proof.Proven? then Some(s.proof.jkt) else None
    ensures store[s.token].jkt.Some? ==> StoreAfter(store, s)[s.next].jkt == store[s.token].jkt
  {
  }

  /** An exchange takes a stored, unexpired token of nobody revoked, with proof of the key it is bound to, and no other. */
  lemma RedeemsIff(store: Store, token: string, now: nat, revoked: bool, proof: Possession, next: string)
    ensures Redeems(store, Exchange(token, now, revoked, proof, next)) <==>
      && token in store && now < store[token].expiresAt && !revoked && !proof.BadProof?
      && (store[token].jkt.Some? ==> proof.Proven? && proof.jkt == store[token].jkt.value)
  {
  }

  /** The engine takes the grant for revoked: its bearer as an identity, or its controller. */
  predicate GrantRevoked(s: Engine.State, e: Entry) { e.bearer in s.bearers || e.controller in s.controllers }

  /** After an identity is revoked, no refresh token it bears or controls is redeemed, restarts included. */
  lemma RevokedNeverRefreshes(states: seq<Engine.State>, steps: seq<Engine.Step>, i: nat, k: nat, store: Store,
                              token: string, now: nat, proof: Possession, next: string)
    requires Runs.IsRun(states, steps) && i < |steps| && steps[i].RevokeDid? && steps[i].did != "" && i < k < |states|
    requires token in store && (store[token].bearer == steps[i].did || store[token].controller == steps[i].did)
    ensures !Redeems(store, Exchange(token, now, GrantRevoked(states[k], store[token]), proof, next))
  {
    var d, at := steps[i].did, states[i].log;
    assert Runs.StepAt(states, steps, i);
    Effects.RevokeDidEffect(states[i], d, states[i + 1]);
    Graph.SeedReached(at, {d}, d);
    Runs.RunGrows(states, steps, i + 1, k);
  }
}
