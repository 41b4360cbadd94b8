// The asset the bridge mints and burns: what each holder has of it.
module Asset {
  import opened Encoding

  datatype Holder = Account(key: Word) | Contract(id: Word)

  type Balances = map<Holder, nat>

  function Balance(b: Balances, k: Holder): nat { if k in b then b[k] else 0 }

  /** All there is of the asset. */
  ghost function Supply(b: Balances): nat
    decreases |b|
  {
    if b == map[] then 0 else
    var k :| k in b;
    b[k] + Supply(b - {k})
  }

  /** The supply is one holder's balance and what the others have. */
  lemma {:induction false} SupplyApart(b: Balances, k: Holder)
    requires k in b
    ensures Supply(b) == b[k] + Supply(b - {k})
    decreases |b|
  {
    var j :| j in b && Supply(b) == b[j] + Supply(b - {j});
    if j != k {
      SupplyApart(b - {j}, k);
      SupplyApart(b - {k}, j);
      assert b - {j} - {k} == b - {k} - {j};
    }
  }

  function Credit(b: Balances, k: Holder, n: nat): Balances { b[k := Balance(b, k) + n] }

  function Debit(b: Balances, k: Holder, n: nat): Balances
    requires n <= Balance(b, k)
  {
    b[k := Balance(b, k) - n]
  }

  /** Crediting and debiting touch one holder's balance. */
  lemma OnlyOne(b: Balances, k: Holder, n: nat, who: Holder)
    ensures Balance(Credit(b, k, n), who) == Balance(b, who) + if who == k then n else 0
    ensures n <= Balance(b, k) ==> Balance(Debit(b, k, n), who) == Balance(b, who) - if who == k then n else 0
  {
  }

  lemma SetBalance(b: Balances, k: Holder, n: nat)
    ensures Supply(b[k := n]) + Balance(b, k) == Supply(b) + n
  {
    var c := b[k := n];
    SupplyApart(c, k);
    if k in b {
      SupplyApart(b, k);
      assert c - {k} == b - {k};
    } else {
      assert c - {k} == b;
    }
  }

  /** Moving the asset between holders makes none. */
  lemma MoveKeepsSupply(b: Balances, from: Holder, to: Holder, n: nat)
    requires n <= Balance(b, from)
    ensures Supply(Credit(Debit(b, from, n), to, n)) == Supply(b)
  {
    var d := Debit(b, from, n);
    SetBalance(b, from, Balance(b, from) - n);
    SetBalance(d, to, Balance(d, to) + n);
  }

  lemma BurnLowersSupply(b: Balances, from: Holder, n: nat)
    requires n <= Balance(b, from)
    ensures Supply(Debit(b, from, n)) + n == Supply(b)
  {
    SetBalance(b, from, Balance(b, from) - n);
  }

  lemma MintRaisesSupply(b: Balances, to: Holder, n: nat)
    ensures Supply(Credit(b, to, n)) == Supply(b) + n
  {
    SetBalance(b, to, Balance(b, to) + n);
  }

  class Token {
    var balances: Balances

    constructor ()
      ensures balances == map[]
    {
      balances := map[];
    }

    /** Mint to a holder; `takes` is whether it takes the asset. */
    method Mint(to: Holder, units: nat, takes: bool) returns (ok: bool)
      modifies this
      ensures ok == takes
      ensures balances == if ok then Credit(old(balances), to, units) else old(balances)
    {
      if takes {
        balances := Credit(balances, to, units);
      }
      return takes;
    }

    method Burn(from: Holder, units: nat) returns (ok: bool)
      modifies this
      ensures ok <==> units <= Balance(old(balances), from)
      ensures balances == if ok then Debit(old(balances), from, units) else old(balances)
    {
      ok := units <= Balance(balances, from);
      if ok {
        balances := Debit(balances, from, units);
      }
    }
  }
}
