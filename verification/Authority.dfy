// What a token lets its bearer do: the grants of its authorization details and
// the capabilities that narrow them. One side adjudicates concrete requests;
// the other compares two tokens when authority is passed on.
module Authority {
  import opened Encoding
  import opened Text

  /** An account's address. */
  type Address = Word

  datatype Detail =
    | Transfer(asset: string, maxAmount: nat, maxDaily: Option<nat>, counterparties: Option<seq<Address>>)
    | CreateEscrow(asset: string, maxAmount: nat, payees: Option<seq<Address>>)
    | DischargeEscrow(escrowIds: Option<seq<Word>>)
    | Inference(maxPerCall: nat, maxDaily: Option<nat>, modelIds: Option<seq<string>>)
    | Stake(maxAmount: nat, validators: Option<seq<Address>>)
    | Vote(proposals: Option<seq<string>>)
    | Contract(contracts: Option<seq<Address>>, allowDeploy: bool)
    | RegisterIdentity(maxChildren: Option<nat>)
    | ResourceInvocation(maxPerCall: nat, class_: Option<string>, resourceIds: Option<seq<string>>)

  datatype Action =
    | ToTransfer | ToCreateEscrow | ToDischargeEscrow | ToInfer | ToStake | ToVote | ToUseContract
    | ToRegisterIdentity | ToInvokeResource

  /** What is asked for: each part may be left out. */
  datatype Request = Request(action: Action, asset: Option<string>, amount: Option<nat>, counterparty: Option<Address>,
                             resourceId: Option<string>)

  // ---- Adjudicating a request ----

  predicate AmountWithin(max: nat, amount: Option<nat>) { amount.Some? && amount.value <= max }

  /** No list allows anything; a list allows what it names. */
  predicate Allowed<T(==)>(list: Option<seq<T>>, x: Option<T>) { list.Some? ==> x.Some? && x.value in list.value }

  /** The escrow id a request names in hexadecimal. */
  function EscrowId(resourceId: Option<string>): Option<Word> {
    if resourceId.None? then None else
    match UnHex(TrimHexMark(resourceId.value))
    case None => None
    case Some(b) => if |b| == 32 then Some(b) else None
  }

  /** The grant covers the request. */
  predicate Grants(d: Detail, r: Request) {
    match d
    case Transfer(asset, max, _, list) =>
      r.action.ToTransfer? && r.asset == Some(asset) && AmountWithin(max, r.amount) && Allowed(list, r.counterparty)
    case CreateEscrow(asset, max, list) =>
      r.action.ToCreateEscrow? && r.asset == Some(asset) && AmountWithin(max, r.amount) && Allowed(list, r.counterparty)
    case DischargeEscrow(ids) => r.action.ToDischargeEscrow? && Allowed(ids, EscrowId(r.resourceId))
    case Inference(max, _, models) => r.action.ToInfer? && AmountWithin(max, r.amount) && Allowed(models, r.resourceId)
    case Stake(max, list) => r.action.ToStake? && AmountWithin(max, r.amount) && Allowed(list, r.counterparty)
    case Vote(proposals) => r.action.ToVote? && Allowed(proposals, r.resourceId)
    case Contract(list, deploy) =>
      r.action.ToUseContract? && if r.counterparty.None? then deploy else Allowed(list, r.counterparty)
    case RegisterIdentity(_) => r.action.ToRegisterIdentity?
    case ResourceInvocation(max, class_, ids) =>
      r.action.ToInvokeResource? && AmountWithin(max, r.amount) && ResourceAllowed(class_, ids, r.resourceId)
  }

  /** A resource qualified by its class, or any at all if the grant names neither class nor ids. */
  predicate ResourceAllowed(class_: Option<string>, ids: Option<seq<string>>, resourceId: Option<string>) {
    var parts := if resourceId.None? then None else SplitOnce(resourceId.value, ':');
    match parts
    case None => class_.None? && ids.None?
    case Some(p) => (class_.None? || class_.value == p.0) && Allowed(ids, Some(p.1))
  }

  /** The amount a grant caps, where it caps one; the asset, addresses and names it is limited to. */
  function CapOf(d: Detail): Option<nat> {
    match d
    case Transfer(_, m, _, _) => Some(m)
    case CreateEscrow(_, m, _) => Some(m)
    case Inference(m, _, _) => Some(m)
    case Stake(m, _) => Some(m)
    case ResourceInvocation(m, _, _) => Some(m)
    case _ => None
  }

  function AssetOf(d: Detail): Option<string> {
    if d.Transfer? || d.CreateEscrow? then Some(d.asset) else None
  }

  function PartiesOf(d: Detail): Option<seq<Address>> {
    match d
    case Transfer(_, _, _, l) => l
    case CreateEscrow(_, _, l) => l
    case Stake(_, l) => l
    case Contract(l, _) => l
    case _ => None
  }

  function NamesOf(d: Detail): Option<seq<string>> {
    if d.Inference? then d.modelIds else if d.Vote? then d.proposals else None
  }

  /** The capability a grant corresponds to. */
  function DetailName(d: Detail): string {
    match d
    case Transfer(_, _, _, _) => "payments.transfer"
    case CreateEscrow(_, _, _) => "escrow.create"
    case DischargeEscrow(_) => "escrow.discharge"
    case Inference(_, _, _) => "inference.invoke"
    case Stake(_, _) => "staking.stake"
    case Vote(_) => "governance.vote"
    case Contract(_, _) => "contract.call"
    case RegisterIdentity(_) => "identity.register"
    case ResourceInvocation(_, _, _) => "resource.invoke"
  }

  /** A granted request is of the grant's own action, asset, addresses and names, and within its cap. */
  lemma GrantedIsWithin(d: Detail, r: Request)
    requires Grants(d, r)
    ensures DetailName(d) == ActionName(r.action)
    ensures AssetOf(d).Some? ==> r.asset == AssetOf(d)
    ensures CapOf(d).Some? ==> r.amount.Some? && r.amount.value <= CapOf(d).value
    ensures PartiesOf(d).Some? && !d.Contract? ==> r.counterparty.Some?
    ensures PartiesOf(d).Some? && r.counterparty.Some? ==> r.counterparty.value in PartiesOf(d).value
    ensures d.Contract? && r.counterparty.None? ==> d.allowDeploy
    ensures NamesOf(d).Some? ==> r.resourceId.Some? && r.resourceId.value in NamesOf(d).value
  {
  }

  /** An escrow named in hexadecimal, marked or not, is granted exactly if it is listed. */
  lemma ListedEscrow(ids: seq<Word>, id: Word)
    ensures Grants(DischargeEscrow(Some(ids)), Request(ToDischargeEscrow, None, None, None, Some(HexText(id)))) <==>
      id in ids
  {
    UnHexOfText(id);
  }

  /** A resource named with its class is granted exactly if class and id are. */
  lemma ListedResource(max: nat, k: Option<string>, ids: Option<seq<string>>, class_: string, id: string, amount: nat)
    requires ':' !in class_
    ensures Grants(ResourceInvocation(max, k, ids),
                   Request(ToInvokeResource, None, Some(amount), None, Some(class_ + [':'] + id))) <==>
      amount <= max && (k.None? || k.value == class_) && (ids.None? || id in ids.value)
  {
    SplitJoined(class_, ':', id);
  }

  // ---- Comparing grants ----

  predicate CoversMax(parent: Option<nat>, child: Option<nat>) {
    parent.Some? ==> child.Some? && child.value <= parent.value
  }

  predicate CoversList<T(==)>(parent: Option<seq<T>>, child: Option<seq<T>>) {
    parent.Some? ==> child.Some? && forall x :: x in child.value ==> x in parent.value
  }

  predicate CoversClass(parent: Option<string>, child: Option<string>) {
    parent.Some? ==> child == parent
  }

  /** The parent's grant covers the child's, as token exchange compares them. */
  predicate Covers(p: Detail, c: Detail) {
    match (p, c)
    case (Transfer(pa, pm, pd, pl), Transfer(ca, cm, cd, cl)) =>
      pa == ca && cm <= pm && CoversMax(pd, cd) && CoversList(pl, cl)
    case (CreateEscrow(pa, pm, pl), CreateEscrow(ca, cm, cl)) => pa == ca && cm <= pm && CoversList(pl, cl)
    case (DischargeEscrow(pi), DischargeEscrow(ci)) => CoversList(pi, ci)
    case (Inference(pm, pd, pl), Inference(cm, cd, cl)) => cm <= pm && CoversMax(pd, cd) && CoversList(pl, cl)
    case (Stake(pm, pl), Stake(cm, cl)) => cm <= pm && CoversList(pl, cl)
    case (Vote(pl), Vote(cl)) => CoversList(pl, cl)
    case (Contract(pl, pd), Contract(cl, cd)) => CoversList(pl, cl) && (cd ==> pd)
    case (RegisterIdentity(pm), RegisterIdentity(cm)) => CoversMax(pm, cm)
    case (ResourceInvocation(pm, pc, pl), ResourceInvocation(cm, cc, cl)) =>
      cm <= pm && CoversClass(pc, cc) && CoversList(pl, cl)
    case _ => false
  }

  /** A covered grant grants no request its parent does not. */
  lemma CoveredGrantsLess(p: Detail, c: Detail, r: Request)
    requires Covers(p, c) && Grants(c, r)
    ensures Grants(p, r)
  {
  }

  /** A grant covers itself: equal authority may be passed on. */
  lemma CoversItself(d: Detail)
    ensures Covers(d, d)
  {
  }

  // The comparison also keeps limits no single request is held to (daily amounts,
  // numbers of children). For the rest it refuses no more than it must.

  /** The grant without its running limits. */
  function Momentary(d: Detail): Detail {
    match d
    case Transfer(a, m, _, l) => Transfer(a, m, None, l)
    case Inference(m, _, l) => Inference(m, None, l)
    case RegisterIdentity(_) => RegisterIdentity(None)
    case _ => d
  }

  predicate CoversRunning(p: Detail, c: Detail) {
    match (p, c)
    case (Transfer(_, _, pd, _), Transfer(_, _, cd, _)) => CoversMax(pd, cd)
    case (Inference(_, pd, _), Inference(_, cd, _)) => CoversMax(pd, cd)
    case (RegisterIdentity(pm), RegisterIdentity(cm)) => CoversMax(pm, cm)
    case _ => true
  }

  predicate Inhabited<T>(list: Option<seq<T>>) { list.Some? ==> |list.value| > 0 }

  /** The grant is of some use: its lists name something, its class can be asked for. */
  predicate Usable(d: Detail) {
    match d
    case Transfer(_, _, _, list) => Inhabited(list)
    case CreateEscrow(_, _, list) => Inhabited(list)
    case DischargeEscrow(ids) => Inhabited(ids)
    case Inference(_, _, models) => Inhabited(models)
    case Stake(_, list) => Inhabited(list)
    case Vote(proposals) => Inhabited(proposals)
    case Contract(list, deploy) => deploy || Inhabited(list)
    case RegisterIdentity(_) => true
    case ResourceInvocation(_, class_, ids) => Inhabited(ids) && (class_.Some? ==> ':' !in class_.value)
  }

  /** Something the child's list lets through and the parent's does not, where there is such a thing. */
  ghost function Beyond<T>(p: Option<seq<T>>, c: Option<seq<T>>): (x: Option<T>)
    requires Inhabited(c)
    ensures Allowed(c, x) && (!CoversList(p, c) ==> !Allowed(p, x))
  {
    if c.None? then None
    else if p.None? || CoversList(p, c) then Some(c.value[0])
    else var x :| x in c.value && x !in p.value; Some(x)
  }

  /** The parent lists every contract there is, which is no restriction. */
  ghost predicate ListsEveryContract(p: Detail, c: Detail) {
    && p.Contract? && p.contracts.Some? && (forall a: Address :: a in p.contracts.value)
    && c.Contract? && (c.allowDeploy ==> p.allowDeploy)
  }

  /** A text on no list. */
  function FreshText(list: seq<string>): (s: string)
    ensures forall x :: x in list ==> |x| < |s|
  {
    if list == [] then "a" else
    var s := FreshText(list[1..]);
    if |list[0]| < |s| then s else list[0] + "a"
  }

  ghost function ContractBeyond(p: Detail, c: Detail): (x: Option<Address>)
    requires p.Contract? && c.Contract? && Usable(c) && !Covers(p, c) && !ListsEveryContract(p, c)
    ensures Grants(c, Request(ToUseContract, None, None, x, None))
    ensures !Grants(p, Request(ToUseContract, None, None, x, None))
  {
    if c.allowDeploy && !p.allowDeploy then None
    else if c.contracts.Some? then var a :| a in c.contracts.value && a !in p.contracts.value; Some(a)
    else var a: Address :| a !in p.contracts.value; Some(a)
  }

  ghost function ResourceBeyond(p: Detail, c: Detail): (x: Option<string>)
    requires p.ResourceInvocation? && c.ResourceInvocation? && Usable(c)
    ensures ResourceAllowed(c.class_, c.resourceIds, x)
    ensures !(CoversClass(p.class_, c.class_) && CoversList(p.resourceIds, c.resourceIds)) ==>
      !ResourceAllowed(p.class_, p.resourceIds, x)
  {
    if c.class_.None? && c.resourceIds.None? then None else
    var other := if p.class_ == Some("") then "a" else "";
    var k := if c.class_.Some? then c.class_.value else other;
    var id := if c.resourceIds.Some? then Beyond(p.resourceIds, c.resourceIds).value
              else if p.resourceIds.Some? then FreshText(p.resourceIds.value) else "";
    SplitJoined(k, ':', id);
    Some(k + [':'] + id)
  }

  /** A request the child's grant lets through and the parent's does not. */
  ghost function Probe(p: Detail, c: Detail): (r: Request)
    requires Usable(c) && !Covers(p, c) && !ListsEveryContract(p, c)
  {
    match (p, c)
    case (Transfer(_, _, _, pl), Transfer(a, m, _, cl)) => Request(ToTransfer, Some(a), Some(m), Beyond(pl, cl), None)
    case (CreateEscrow(_, _, pl), CreateEscrow(a, m, cl)) =>
      Request(ToCreateEscrow, Some(a), Some(m), Beyond(pl, cl), None)
    case (DischargeEscrow(pl), DischargeEscrow(cl)) =>
      var x := Beyond(pl, cl);
      Request(ToDischargeEscrow, None, None, None, if x.Some? then Some(HexText(x.value)) else None)
    case (Inference(_, _, pl), Inference(m, _, cl)) => Request(ToInfer, None, Some(m), None, Beyond(pl, cl))
    case (Stake(_, pl), Stake(m, cl)) => Request(ToStake, None, Some(m), Beyond(pl, cl), None)
    case (Vote(pl), Vote(cl)) => Request(ToVote, None, None, None, Beyond(pl, cl))
    case (Contract(_, _), Contract(_, _)) => Request(ToUseContract, None, None, ContractBeyond(p, c), None)
    case (ResourceInvocation(_, _, _), ResourceInvocation(m, _, _)) =>
      Request(ToInvokeResource, None, Some(m), None, ResourceBeyond(p, c))
    case _ => Sample(c)
  }

  /** Any request the grant lets through. */
  function Sample(c: Detail): (r: Request)
    requires Usable(c)
    ensures Grants(c, r)
  {
    match c
    case Transfer(a, m, _, l) => Request(ToTransfer, Some(a), Some(m), First(l), None)
    case CreateEscrow(a, m, l) => Request(ToCreateEscrow, Some(a), Some(m), First(l), None)
    case DischargeEscrow(l) =>
      if l.None? then Request(ToDischargeEscrow, None, None, None, None) else
      UnHexOfText(l.value[0]);
      Request(ToDischargeEscrow, None, None, None, Some(HexText(l.value[0])))
    case Inference(m, _, l) => Request(ToInfer, None, Some(m), None, First(l))
    case Stake(m, l) => Request(ToStake, None, Some(m), First(l), None)
    case Vote(l) => Request(ToVote, None, None, None, First(l))
    case Contract(l, d) =>
      Request(ToUseContract, None, None, if d then None else if l.Some? then First(l) else Some(ZERO), None)
    case RegisterIdentity(_) => Request(ToRegisterIdentity, None, None, None, None)
    case ResourceInvocation(m, k, l) =>
      if k.None? && l.None? then Request(ToInvokeResource, None, Some(m), None, None) else
      var class_, id := if k.Some? then k.value else "", if l.Some? then l.value[0] else "";
      SplitJoined(class_, ':', id);
      Request(ToInvokeResource, None, Some(m), None, Some(class_ + [':'] + id))
  }

  function First<T>(l: Option<seq<T>>): Option<T>
    requires Inhabited(l)
  {
    if l.None? then None else Some(l.value[0])
  }

  /** A refused comparison has a reason: a request the child would let through and the parent does not. */
  lemma RefusedWouldWiden(p: Detail, c: Detail)
    requires Usable(c) && CoversRunning(p, c) && !Covers(p, c) && !ListsEveryContract(p, c)
    ensures Grants(c, Probe(p, c)) && !Grants(p, Probe(p, c))
  {
    if p.DischargeEscrow? && c.DischargeEscrow? {
      var x := Beyond(p.escrowIds, c.escrowIds);
      if x.Some? { UnHexOfText(x.value); }
    }
  }

  /** Every request the child grants, the parent grants. */
  ghost predicate Included(p: Detail, c: Detail) { forall r :: Grants(c, r) ==> Grants(p, r) }

  /** A grant is usable exactly when it grants something. */
  lemma UsableIff(c: Detail)
    ensures Usable(c) <==> exists r :: Grants(c, r)
  {
    if Usable(c) {
      assert Grants(c, Sample(c));
    } else if c.ResourceInvocation? {
      forall r
        ensures !Grants(c, r)
      {
        NoSuchClass(c, r);
      }
    }
  }

  /** No request names a class with a colon in it. */
  lemma NoSuchClass(c: Detail, r: Request)
    requires c.ResourceInvocation? && !Usable(c)
    ensures !Grants(c, r)
  {
    if r.resourceId.Some? && SplitOnce(r.resourceId.value, ':').Some? { SplitShrinks(r.resourceId.value, ':'); }
  }

  /**
   * For all grants: leaving running limits aside, the child grants nothing the
   * parent does not exactly when the comparison passes, or the child grants
   * nothing at all, or the parent's list leaves no contract out.
   */
  lemma CoverIsExact(p: Detail, c: Detail)
    ensures Included(p, c) <==> Covers(Momentary(p), Momentary(c)) || !Usable(c) || ListsEveryContract(p, c)
    ensures Covers(p, c) <==> Covers(Momentary(p), Momentary(c)) && CoversRunning(p, c)
  {
    UsableIff(c);
    var q, d := Momentary(p), Momentary(c);
    if Covers(q, d) {
      forall r | Grants(c, r)
        ensures Grants(p, r)
      {
        CoveredGrantsLess(q, d, r);
      }
    } else if Usable(c) && !ListsEveryContract(p, c) {
      RefusedWouldWiden(q, d);
      assert Grants(c, Probe(q, d)) && !Grants(p, Probe(q, d));
    }
  }

  // ---- Capabilities ----

  /** What a capability's constraints say; a part left out restricts nothing. */
  datatype Limits = Limits(maxValue: Option<string>, assets: Option<seq<string>>, chains: Option<seq<nat>>,
                           protocols: Option<seq<string>>, counterparties: Option<seq<string>>,
                           resources: Option<seq<string>>)

  const UNLIMITED: Limits := Limits(None, None, None, None, None, None)

  /** Constraints as the token carries them. */
  datatype Json = Null | Value(text: string)

  /** How the node reads constraint objects and writes addresses. */
  datatype Formats = Formats(read: string -> Limits, show: Address -> string)

  /** A null, like an object of another shape, reads as no limits. */
  function Read(f: Formats, j: Json): Limits { if j.Null? then UNLIMITED else f.read(j.text) }

  datatype Capability = Capability(action: string, constraints: Json)

  predicate ValueWithin(max: Option<string>, amount: Option<nat>) {
    max.Some? ==> ParseU128(max.value).Some? && amount.Some? && amount.value <= ParseU128(max.value).value
  }

  function Shown(f: Formats, a: Option<Address>): Option<string> { if a.None? then None else Some(f.show(a.value)) }

  /** The constraints permit the request. Chains and protocols are for others to enforce. */
  predicate Permit(f: Formats, constraints: Json, r: Request) {
    constraints.Null? || var l := Read(f, constraints);
      && ValueWithin(l.maxValue, r.amount) && Allowed(l.assets, r.asset)
      && Allowed(l.counterparties, Shown(f, r.counterparty)) && Allowed(l.resources, r.resourceId)
  }

  predicate CoversValue(p: Option<string>, c: Option<string>) {
    p.Some? ==>
      && c.Some? && ParseU128(p.value).Some? && ParseU128(c.value).Some?
      && ParseU128(c.value).value <= ParseU128(p.value).value
  }

  /** The parent's constraints cover the child's, as token exchange compares them. */
  predicate ConstraintsCover(f: Formats, parent: Json, child: Json) {
    parent.Null? || var p, c := Read(f, parent), Read(f, child);
      && CoversValue(p.maxValue, c.maxValue) && CoversList(p.assets, c.assets) && CoversList(p.chains, c.chains)
      && CoversList(p.protocols, c.protocols) && CoversList(p.counterparties, c.counterparties)
      && CoversList(p.resources, c.resources)
  }

  /**
   * Constraints cover themselves, so may be passed on as they are, exactly if their
   * amount, where they have one, is a number.
   */
  lemma ConstraintsCoverThemselvesIff(f: Formats, j: Json)
    ensures ConstraintsCover(f, j, j) <==>
      j.Null? || (Read(f, j).maxValue.Some? ==> ParseU128(Read(f, j).maxValue.value).Some?)
  {
  }

  // The comparison of constraints also keeps chains and protocols, which requests
  // do not carry, and compares counterparties as texts. For the rest it is exact.

  /** The child's texts that name an address are among the parent's. */
  ghost predicate CoversShown(f: Formats, p: Option<seq<string>>, c: Option<seq<string>>) {
    p.Some? ==> c.Some? && forall a: Address :: f.show(a) in c.value ==> f.show(a) in p.value
  }

  /** What of the comparison requests are held to. */
  ghost predicate CoversEnforced(f: Formats, parent: Json, child: Json) {
    var p, c := Read(f, parent), Read(f, child);
    && CoversValue(p.maxValue, c.maxValue) && CoversList(p.assets, c.assets)
    && CoversShown(f, p.counterparties, c.counterparties) && CoversList(p.resources, c.resources)
  }

  /** The constraints let something through: their amount is a number and each list can be met. */
  ghost predicate Permissive(f: Formats, j: Json) {
    var l := Read(f, j);
    && (l.maxValue.Some? ==> ParseU128(l.maxValue.value).Some?)
    && Inhabited(l.assets) && Inhabited(l.resources)
    && (l.counterparties.Some? ==> exists a: Address :: f.show(a) in l.counterparties.value)
  }

  ghost function PartyBeyond(f: Formats, p: Option<seq<string>>, c: Option<seq<string>>): (x: Option<Address>)
    requires c.Some? ==> exists a: Address :: f.show(a) in c.value
    ensures Allowed(c, Shown(f, x)) && (!CoversShown(f, p, c) ==> !Allowed(p, Shown(f, x)))
  {
    if c.None? then None
    else if CoversShown(f, p, c) then var a: Address :| f.show(a) in c.value; Some(a)
    else var a: Address :| f.show(a) in c.value && f.show(a) !in p.value; Some(a)
  }

  /** A request the child's constraints let through; the parent's do not, unless they cover them. */
  ghost function ConstraintProbe(f: Formats, parent: Json, child: Json): Request
    requires Permissive(f, child)
  {
    var p, c := Read(f, parent), Read(f, child);
    Request(ToVote, Beyond(p.assets, c.assets), if c.maxValue.None? then None else ParseU128(c.maxValue.value),
            PartyBeyond(f, p.counterparties, c.counterparties), Beyond(p.resources, c.resources))
  }

  /** Every request the child's constraints permit, the parent's permit. */
  ghost predicate PermitsIncluded(f: Formats, parent: Json, child: Json) {
    forall r :: Permit(f, child, r) ==> Permit(f, parent, r)
  }

  lemma PermissiveIff(f: Formats, j: Json)
    ensures Permissive(f, j) <==> exists r :: Permit(f, j, r)
  {
    if Permissive(f, j) {
      assert Permit(f, j, ConstraintProbe(f, Null, j));
    } else {
      forall r
        ensures !Permit(f, j, r)
      {
      }
    }
  }

  /**
   * For all constraints: the child's permit nothing the parent's do not exactly
   * when the enforced part of the comparison passes, or the child's permit
   * nothing; and the comparison is that part and the texts, chains and protocols.
   */
  lemma ConstraintsExact(f: Formats, parent: Json, child: Json)
    ensures PermitsIncluded(f, parent, child) <==> CoversEnforced(f, parent, child) || !Permissive(f, child)
    ensures ConstraintsCover(f, parent, child) <==>
      var p, c := Read(f, parent), Read(f, child);
      && CoversEnforced(f, parent, child) && CoversList(p.counterparties, c.counterparties)
      && CoversList(p.chains, c.chains) && CoversList(p.protocols, c.protocols)
  {
    PermissiveIff(f, child);
    if CoversEnforced(f, parent, child) {
      forall r | Permit(f, child, r)
        ensures Permit(f, parent, r)
      {
        EnforcedPermitsLess(f, parent, child, r);
      }
    } else if Permissive(f, child) {
      var r := ConstraintProbe(f, parent, child);
      assert Permit(f, child, r) && !Permit(f, parent, r);
    }
  }

  lemma EnforcedPermitsLess(f: Formats, parent: Json, child: Json, r: Request)
    requires CoversEnforced(f, parent, child) && Permit(f, child, r)
    ensures Permit(f, parent, r)
  {
  }

  /** The names tell the actions apart. */
  lemma ActionNamesDistinct(a: Action, b: Action)
    requires ActionName(a) == ActionName(b)
    ensures a == b
  {
    var x, y := ActionName(a), ActionName(b);
    assert |x| == |y| && x[0] == y[0] && x[7] == y[7];
  }

  lemma CoveredPermitsLess(f: Formats, parent: Json, child: Json, r: Request)
    requires ConstraintsCover(f, parent, child) && Permit(f, child, r)
    ensures Permit(f, parent, r)
  {
  }

  /** The first capability for an action. */
  function Find(caps: seq<Capability>, action: string): (k: Option<Capability>)
    ensures k.Some? ==> k.value in caps && k.value.action == action
    ensures k.None? ==> forall c :: c in caps ==> c.action != action
  {
    if caps == [] then None else if caps[0].action == action then Some(caps[0]) else Find(caps[1..], action)
  }

  function ActionName(a: Action): string {
    match a
    case ToTransfer => "payments.transfer"
    case ToCreateEscrow => "escrow.create"
    case ToDischargeEscrow => "escrow.discharge"
    case ToInfer => "inference.invoke"
    case ToStake => "staking.stake"
    case ToVote => "governance.vote"
    case ToUseContract => "contract.call"
    case ToRegisterIdentity => "identity.register"
    case ToInvokeResource => "resource.invoke"
  }

  /** The capability layer: no list lets the grants alone decide; a list must name the action and permit the request. */
  predicate Capable(f: Formats, caps: Option<seq<Capability>>, r: Request) {
    caps.Some? ==> var k := Find(caps.value, ActionName(r.action)); k.Some? && Permit(f, k.value.constraints, r)
  }

  predicate RarCovers(details: seq<Detail>, r: Request) { exists d :: d in details && Grants(d, r) }

  /** Both layers let the request through. */
  predicate Permits(f: Formats, details: seq<Detail>, caps: Option<seq<Capability>>, r: Request) {
    RarCovers(details, r) && Capable(f, caps, r)
  }

  /** A request is permitted exactly by a grant that covers it and, under a capability list, the first of its action. */
  lemma PermittedIff(f: Formats, details: seq<Detail>, caps: Option<seq<Capability>>, r: Request)
    ensures Permits(f, details, caps, r) <==>
      && (exists i :: 0 <= i < |details| && Grants(details[i], r))
      && (caps.Some? ==>
          exists i :: 0 <= i < |caps.value| && FirstFor(caps.value, i, ActionName(r.action))
            && Permit(f, caps.value[i].constraints, r))
  {
    if caps.Some? { FindIsFirst(caps.value, ActionName(r.action)); }
  }

  /** Capability `i` is the first for the action. */
  predicate FirstFor(caps: seq<Capability>, i: nat, action: string) {
    i < |caps| && caps[i].action == action && forall k :: 0 <= k < i ==> caps[k].action != action
  }

  lemma {:induction false} FindIsFirst(caps: seq<Capability>, action: string)
    ensures forall i :: 0 <= i < |caps| && FirstFor(caps, i, action) ==> Find(caps, action) == Some(caps[i])
    ensures Find(caps, action).Some? ==>
      exists i :: 0 <= i < |caps| && FirstFor(caps, i, action) && caps[i] == Find(caps, action).value
  {
    if caps != [] && caps[0].action != action {
      var rest := caps[1..];
      FindIsFirst(rest, action);
      forall i | 0 <= i < |caps| && FirstFor(caps, i, action)
        ensures Find(caps, action) == Some(caps[i])
      {
        assert forall k :: 0 <= k < i - 1 ==> rest[k] == caps[k + 1];
        assert FirstFor(rest, i - 1, action);
      }
      if Find(caps, action).Some? {
        var i :| 0 <= i < |rest| && FirstFor(rest, i, action) && rest[i] == Find(rest, action).value;
        forall k | 0 <= k < i + 1
          ensures caps[k].action != action
        {
          if k > 0 { assert rest[k - 1] == caps[k]; }
        }
        assert FirstFor(caps, i + 1, action);
      }
    } else if caps != [] {
      assert FirstFor(caps, 0, action);
    }
  }

  /** What constraints permit is within them: their amount, assets, counterparties and resources. */
  lemma PermittedIsWithin(f: Formats, j: Json, r: Request)
    requires Permit(f, j, r)
    ensures var l := Read(f, j);
      && (l.maxValue.Some? ==>
          r.amount.Some? && ParseU128(l.maxValue.value).Some? && r.amount.value <= ParseU128(l.maxValue.value).value)
      && (l.assets.Some? ==> r.asset.Some? && r.asset.value in l.assets.value)
      && (l.counterparties.Some? ==> r.counterparty.Some? && f.show(r.counterparty.value) in l.counterparties.value)
      && (l.resources.Some? ==> r.resourceId.Some? && r.resourceId.value in l.resources.value)
  {
  }

  predicate RarSubset(parent: seq<Detail>, child: seq<Detail>) {
    forall c :: c in child ==> exists p :: p in parent && Covers(p, c)
  }

  predicate CapsSubset(f: Formats, parent: seq<Capability>, child: seq<Capability>) {
    forall c :: c in child ==>
      var k := Find(parent, c.action); k.Some? && ConstraintsCover(f, k.value.constraints, c.constraints)
  }

  /** A capability list may be passed on as it is exactly if the first capability for each action covers the others. */
  lemma CapsSubsetOfItselfIff(f: Formats, caps: seq<Capability>)
    ensures (forall c :: c in caps ==> Find(caps, c.action).Some?)
    ensures CapsSubset(f, caps, caps) <==>
      forall c :: c in caps ==> ConstraintsCover(f, Find(caps, c.action).value.constraints, c.constraints)
  {
    forall c | c in caps
      ensures Find(caps, c.action).Some?
    {
      var k := Find(caps, c.action);
    }
  }

  /** No action is named twice. */
  predicate NamesOnce(caps: seq<Capability>) {
    forall i, j :: 0 <= i < j < |caps| ==> caps[i].action != caps[j].action
  }

  lemma FindsOwn(caps: seq<Capability>, c: Capability)
    requires NamesOnce(caps) && c in caps
    ensures Find(caps, c.action) == Some(c)
  {
    var i :| 0 <= i < |caps| && caps[i] == c;
    var k := Find(caps, c.action);
    assert k.Some?;
    var j :| 0 <= j < |caps| && caps[j] == k.value;
  }

  /** The amounts that capability constraints state are 128-bit decimals. */
  predicate AmountsParse(f: Formats, caps: seq<Capability>) {
    forall c :: c in caps && c.constraints.Value? && Read(f, c.constraints).maxValue.Some? ==>
      ParseU128(Read(f, c.constraints).maxValue.value).Some?
  }

  /** A list that names each action once may be passed on as it is exactly if its amounts are numbers. */
  lemma CapsNamedOnceIff(f: Formats, caps: seq<Capability>)
    requires NamesOnce(caps)
    ensures CapsSubset(f, caps, caps) <==> forall c :: c in caps ==> ConstraintsCover(f, c.constraints, c.constraints)
    ensures CapsSubset(f, caps, caps) <==> AmountsParse(f, caps)
  {
    CapsSubsetOfItselfIff(f, caps);
    forall c | c in caps
      ensures Find(caps, c.action) == Some(c)
      ensures ConstraintsCover(f, c.constraints, c.constraints) <==> AmountsParse(f, [c])
    {
      FindsOwn(caps, c);
      ConstraintsCoverThemselvesIff(f, c.constraints);
    }
    if AmountsParse(f, caps) {
      assert forall c :: c in caps ==> AmountsParse(f, [c]);
    } else {
      var c :| c in caps && c.constraints.Value? && Read(f, c.constraints).maxValue.Some?
        && ParseU128(Read(f, c.constraints).maxValue.value).None?;
      assert c in [c];
    }
  }

  /** One that repeats an action may not, although its amounts are numbers: the second is held to the first. */
  lemma RepeatedActionRefused()
    ensures var f := Formats((t: string) => Limits(Some(t), None, None, None, None, None), (a: Address) => "");
      var caps := [Capability("a", Value("5")), Capability("a", Value("10"))];
      AmountsParse(f, caps) && !CapsSubset(f, caps, caps)
  {
    var f := Formats((t: string) => Limits(Some(t), None, None, None, None, None), (a: Address) => "");
    var caps := [Capability("a", Value("5")), Capability("a", Value("10"))];
    assert "5"[..0] == "" && "10"[..1] == "1" && "1"[..0] == "";
    assert Decimal("5") == 5 && Decimal("1") == 1 && Decimal("10") == 10;
    assert ParseU128("5") == Some(5) && ParseU128("10") == Some(10);
    assert caps[0] in caps && caps[1] in caps;
    assert Find(caps, "a") == Some(caps[0]);
    assert !ConstraintsCover(f, caps[0].constraints, caps[1].constraints);
  }

  /** All of a token's grants may be passed on. */
  lemma RarSubsetOfItself(details: seq<Detail>)
    ensures RarSubset(details, details)
  {
    forall d | d in details
      ensures exists p :: p in details && Covers(p, d)
    {
      CoversItself(d);
    }
  }

  /** What a child gets when it asks for `requested`: never less of a list than its parent has. */
  function Inherit(parent: Option<seq<Capability>>, requested: seq<Capability>): Option<seq<Capability>> {
    if requested == [] then parent else Some(requested)
  }

  function OrNone(caps: Option<seq<Capability>>): seq<Capability> { if caps.None? then [] else caps.value }

  /** Narrowed grants and capabilities permit nothing the parent's do not. */
  lemma NarrowedPermitsLess(f: Formats, pd: seq<Detail>, pc: Option<seq<Capability>>, cd: seq<Detail>,
                            requested: seq<Capability>, r: Request)
    requires RarSubset(pd, cd) && CapsSubset(f, OrNone(pc), requested)
    requires Permits(f, cd, Inherit(pc, requested), r)
    ensures Permits(f, pd, pc, r)
  {
    var c :| c in cd && Grants(c, r);
    var p :| p in pd && Covers(p, c);
    CoveredGrantsLess(p, c, r);
    if requested != [] {
      var k := Find(requested, ActionName(r.action)).value;
      var up := Find(OrNone(pc), k.action).value;
      CoveredPermitsLess(f, up.constraints, k.constraints, r);
    }
  }
}
