// Passing authority on: issuing tokens, exchanging one for a narrower one
// (RFC 8693), and what holds along every chain of exchanges.
module Exchange {
  import opened Encoding
  import opened Text
  import opened Sequences
  import opened Authority

  /** Where a token is in its chain of bearers. */
  datatype Delegation = Delegation(depth: nat, maxDepth: nat, chain: seq<string>, parentJti: Option<string>)

  datatype Window = Window(nbf: nat, exp: nat)

  datatype Claims = Claims(sub: string, controller: string, jti: string, iat: nat, exp: nat, jkt: Option<string>,
                           details: seq<Detail>, caps: Option<seq<Capability>>, delegation: Option<Delegation>,
                           window: Option<Window>)

  datatype Config = Config(defaultTtl: nat, maxTtl: nat)

  datatype Refusal =
    | NotBound | RarNotCovered | CapabilityNotCovered | TokenExpired | OutsideWindow | NoDelegation | TooDeep
    | InvalidActionName | WindowOutlivesToken

  function Min(a: nat, b: nat): nat { if a <= b then a else b }

  function Clamp(x: nat, lo: nat, hi: nat): nat { if x < lo then lo else if x > hi then hi else x }

  function OrElse<T>(x: Option<T>, y: T): T { if x.Some? then x.value else y }

  // ---- Delegation claims ----

  function RootClaim(bearer: string, maxDepth: nat): Delegation { Delegation(0, maxDepth, [bearer], None) }

  /** A child's claim; the depth saturates at 32 bits. */
  function ChildClaim(parent: Delegation, bearer: string, parentJti: string): Option<Delegation> {
    var depth := Min(parent.depth + 1, U32 - 1);
    if depth > parent.maxDepth || bearer in parent.chain then None
    else Some(Delegation(depth, parent.maxDepth, parent.chain + [bearer], Some(parentJti)))
  }

  // ---- Issuing ----

  /** What a new token is to carry; no delegation makes it a root. */
  datatype Order = Order(bearer: string, controller: string, jkt: string, details: seq<Detail>, ttl: Option<nat>,
                         caps: Option<seq<Capability>>, delegation: Option<Delegation>, defaultMaxDepth: Option<nat>,
                         window: Option<Window>)

  function Issue(cfg: Config, o: Order, now: nat, jti: string): Result<Claims, Refusal> {
    var exp := now + Clamp(OrElse(o.ttl, cfg.defaultTtl), 1, cfg.maxTtl);
    if o.caps.Some? && exists k :: k in o.caps.value && !IsActionName(k.action) then Err(InvalidActionName)
    else if o.window.Some? && o.window.value.exp > exp then Err(WindowOutlivesToken)
    else Ok(Claims(o.bearer, o.controller, jti, now, exp, if o.jkt == "" then None else Some(o.jkt), o.details, o.caps,
                   Some(OrElse(o.delegation, RootClaim(o.bearer, OrElse(o.defaultMaxDepth, 5)))), o.window))
  }

  // ---- Exchanging ----

  /** A request for a child token, with the two clock reads and the fresh id it meets. */
  datatype Step = Step(bearer: string, jkt: string, details: seq<Detail>, caps: seq<Capability>, ttl: Option<nat>,
                       now: nat, issuedAt: nat, jti: string)

  predicate InsideWindow(w: Option<Window>, now: nat) { w.Some? ==> w.value.nbf <= now < w.value.exp }

  /** How long the parent still lasts. */
  function Remaining(parent: Claims, now: nat): nat
    requires now < parent.exp && InsideWindow(parent.window, now)
  {
    var left := parent.exp - now;
    if parent.window.Some? then Min(left, parent.window.value.exp - now) else left
  }

  /** How long a child is issued for: what it asks, but no longer than its parent lasts. */
  function ChildTtl(cfg: Config, parent: Claims, s: Step): nat
    requires s.now < parent.exp && InsideWindow(parent.window, s.now)
  {
    Clamp(Min(OrElse(s.ttl, cfg.defaultTtl), Remaining(parent, s.now)), 1, cfg.maxTtl)
  }

  function Exchange(cfg: Config, f: Formats, parent: Claims, s: Step): Result<Claims, Refusal> {
    if s.jkt == "" then Err(NotBound)
    else if !RarSubset(parent.details, s.details) then Err(RarNotCovered)
    else if !CapsSubset(f, OrNone(parent.caps), s.caps) then Err(CapabilityNotCovered)
    else if parent.exp <= s.now then Err(TokenExpired)
    else if !InsideWindow(parent.window, s.now) then Err(OutsideWindow)
    else if parent.delegation.None? then Err(NoDelegation)
    else
      var ttl := ChildTtl(cfg, parent, s);
      var claim := ChildClaim(parent.delegation.value, s.bearer, parent.jti);
      if claim.None? then Err(TooDeep) else
      var window := if parent.window.None? then None
                    else Some(Window(parent.window.value.nbf, Min(parent.window.value.exp, s.now + ttl)));
      var caps := Inherit(parent.caps, s.caps);
      var order := Order(s.bearer, parent.sub, s.jkt, s.details, Some(ttl), caps, claim, None, window);
      Issue(cfg, order, s.issuedAt, s.jti)
  }

  /** A child is what was asked for: its own bearer, bound to its own key, with the grants and capabilities named. */
  lemma ChildCarries(cfg: Config, f: Formats, parent: Claims, s: Step)
    requires Exchange(cfg, f, parent, s).Ok?
    ensures var c := Exchange(cfg, f, parent, s).value;
      && c.sub == s.bearer && c.controller == parent.sub && c.jkt == Some(s.jkt) && s.jkt != ""
      && c.details == s.details && c.jti == s.jti && c.iat == s.issuedAt
      && c.caps == if s.caps == [] then parent.caps else Some(s.caps)
  {
  }

  /** A token issued without a delegation is a root, with what was ordered. */
  lemma RootIssued(cfg: Config, o: Order, now: nat, jti: string)
    requires Issue(cfg, o, now, jti).Ok? && o.delegation.None?
    ensures var c := Issue(cfg, o, now, jti).value;
      && IsRoot(c) && c.delegation.value.maxDepth == OrElse(o.defaultMaxDepth, 5)
      && c.sub == o.bearer && c.controller == o.controller && c.jti == jti && c.iat == now
      && c.details == o.details && c.caps == o.caps && c.window == o.window
      && (c.jkt.None? <==> o.jkt == "") && (c.jkt.Some? ==> c.jkt.value == o.jkt)
      && (o.ttl.Some? && 1 <= o.ttl.value <= cfg.maxTtl ==> c.exp == now + o.ttl.value)
      && (cfg.maxTtl >= 1 ==> now < c.exp <= now + cfg.maxTtl)
  {
  }

  /** A token is issued exactly if the capabilities it names are names and its window does not outlast it. */
  lemma IssuedIff(cfg: Config, o: Order, now: nat, jti: string)
    ensures Issue(cfg, o, now, jti).Ok? <==>
      && (o.caps.Some? ==> forall k :: k in o.caps.value ==> IsActionName(k.action))
      && (o.window.Some? ==> o.window.value.exp <= now + Clamp(OrElse(o.ttl, cfg.defaultTtl), 1, cfg.maxTtl))
  {
  }

  /** The token's own layers let its bearer do this; revocation aside. */
  predicate MayDo(f: Formats, c: Claims, r: Request) { Permits(f, c.details, c.caps, r) }

  /** A child token can do nothing its parent cannot. */
  lemma NeverWidens(cfg: Config, f: Formats, parent: Claims, s: Step, r: Request)
    requires Exchange(cfg, f, parent, s).Ok? && MayDo(f, Exchange(cfg, f, parent, s).value, r)
    ensures MayDo(f, parent, r)
  {
    NarrowedPermitsLess(f, parent.details, parent.caps, s.details, s.caps, r);
  }

  /** A child that asks for all the parent's grants and names no capabilities can do exactly what its parent can. */
  lemma PassedOnWhole(cfg: Config, f: Formats, parent: Claims, s: Step, r: Request)
    requires Exchange(cfg, f, parent, s).Ok? && s.details == parent.details && s.caps == []
    ensures MayDo(f, Exchange(cfg, f, parent, s).value, r) <==> MayDo(f, parent, r)
  {
  }

  /** Lifetimes: a child outlasts its parent by no more than the time between the two clock reads. */
  lemma Lifetimes(cfg: Config, f: Formats, parent: Claims, s: Step)
    requires cfg.maxTtl >= 1 && s.now <= s.issuedAt && Exchange(cfg, f, parent, s).Ok?
    ensures var c := Exchange(cfg, f, parent, s).value;
      && c.exp <= parent.exp + (s.issuedAt - s.now)
      && c.iat < c.exp <= c.iat + cfg.maxTtl
      && (s.ttl.Some? && s.ttl.value >= 1 ==> c.exp <= c.iat + s.ttl.value)
      && Narrows(parent.window, c.window)
      && (c.window.Some? ==> c.window.value.exp <= parent.exp && c.window.value.exp <= c.exp)
  {
  }

  /** The same exchange, with the token issued at another second. */
  function IssuedAt(s: Step, t: nat): Step { s.(issuedAt := t) }

  /** The child does not outlast its parent. */
  predicate Outlived(cfg: Config, f: Formats, parent: Claims, s: Step) {
    Exchange(cfg, f, parent, s).Ok? ==> Exchange(cfg, f, parent, s).value.exp <= parent.exp
  }

  /** When the token is issued decides when it expires, and nothing else. */
  lemma IssuedLater(cfg: Config, f: Formats, parent: Claims, s: Step, t: nat)
    requires cfg.maxTtl >= 1 && s.now <= s.issuedAt && s.now <= t && Exchange(cfg, f, parent, s).Ok?
    ensures Exchange(cfg, f, parent, IssuedAt(s, t)).Ok?
    ensures Exchange(cfg, f, parent, IssuedAt(s, t)).value.exp == t + ChildTtl(cfg, parent, s)
  {
    assert ChildTtl(cfg, parent, IssuedAt(s, t)) == ChildTtl(cfg, parent, s);
  }

  /**
   * However the clock moves between the two reads, up to `lag` seconds, the
   * child does not outlast its parent: exactly when its lifetime and the lag
   * fit into what the parent has left.
   */
  lemma OutlivedIff(cfg: Config, f: Formats, parent: Claims, s: Step, lag: nat)
    requires cfg.maxTtl >= 1 && s.now <= s.issuedAt && Exchange(cfg, f, parent, s).Ok?
    ensures (forall t: nat :: s.now <= t <= s.now + lag ==> Outlived(cfg, f, parent, IssuedAt(s, t)))
        <==> ChildTtl(cfg, parent, s) + lag <= parent.exp - s.now
  {
    forall t: nat | s.now <= t <= s.now + lag
      ensures Outlived(cfg, f, parent, IssuedAt(s, t)) <==> t + ChildTtl(cfg, parent, s) <= parent.exp
    {
      IssuedLater(cfg, f, parent, s, t);
    }
    assert Outlived(cfg, f, parent, IssuedAt(s, s.now + lag)) <==> s.now + lag + ChildTtl(cfg, parent, s) <= parent.exp;
  }

  /** Equal reads always do: then no child outlasts its parent. */
  lemma EqualReadsOutlived(cfg: Config, f: Formats, parent: Claims, s: Step)
    requires cfg.maxTtl >= 1 && s.now == s.issuedAt
    ensures Outlived(cfg, f, parent, s)
  {
    if Exchange(cfg, f, parent, s).Ok? {
      OutlivedIff(cfg, f, parent, s, 0);
      assert IssuedAt(s, s.now) == s;
    }
  }

  /** A child that does outlast its parent: all the parent's time asked for, one second between the reads. */
  lemma MayOutlast(f: Formats)
    ensures var parent := Claims("a", "a", "1", 0, 10, None, [], None, Some(RootClaim("a", 5)), None);
      var child := Exchange(Config(3600, 86400), f, parent, Step("b", "k", [], [], Some(10), 0, 1, "2"));
      child.Ok? && child.value.exp == 11 && parent.exp == 10
  {
    var parent := Claims("a", "a", "1", 0, 10, None, [], None, Some(RootClaim("a", 5)), None);
    var s := Step("b", "k", [], [], Some(10), 0, 1, "2");
    assert RarSubset(parent.details, s.details) && CapsSubset(f, OrNone(parent.caps), s.caps);
    assert ChildClaim(RootClaim("a", 5), "b", "1").Some?;
  }

  predicate Narrows(w: Option<Window>, v: Option<Window>) {
    && (w.Some? <==> v.Some?)
    && (w.Some? ==> v.value.nbf == w.value.nbf && v.value.exp <= w.value.exp)
  }

  // ---- Chains of exchanges ----

  /** The token at the end of a chain of exchanges, if each is granted. */
  function Descend(cfg: Config, f: Formats, root: Claims, steps: seq<Step>): Option<Claims> {
    if steps == [] then Some(root) else
    var parent := Descend(cfg, f, root, steps[..|steps| - 1]);
    if parent.None? then None else
    match Exchange(cfg, f, parent.value, steps[|steps| - 1])
    case Ok(c) => Some(c)
    case Err(_) => None
  }

  /** How long the second clock reads lagged behind the first. */
  function Lag(steps: seq<Step>): int {
    if steps == [] then 0 else Lag(steps[..|steps| - 1]) + steps[|steps| - 1].issuedAt - steps[|steps| - 1].now
  }

  predicate ClockRuns(steps: seq<Step>) { forall i :: 0 <= i < |steps| ==> steps[i].now <= steps[i].issuedAt }

  /** Along every chain authority only narrows, windows only shrink, and expiry moves back but for clock lag. */
  lemma {:induction false} DescentNarrows(cfg: Config, f: Formats, root: Claims, steps: seq<Step>)
    requires cfg.maxTtl >= 1 && ClockRuns(steps) && Descend(cfg, f, root, steps).Some?
    ensures var c := Descend(cfg, f, root, steps).value;
      && (forall r :: MayDo(f, c, r) ==> MayDo(f, root, r))
      && c.exp <= root.exp + Lag(steps)
      && Narrows(root.window, c.window)
  {
    if steps != [] {
      var before, s := steps[..|steps| - 1], steps[|steps| - 1];
      DescentNarrows(cfg, f, root, before);
      var parent := Descend(cfg, f, root, before).value;
      Lifetimes(cfg, f, parent, s);
      var c := Descend(cfg, f, root, steps).value;
      forall r | MayDo(f, c, r)
        ensures MayDo(f, root, r)
      {
        NeverWidens(cfg, f, parent, s, r);
      }
    }
  }

  /** The bearers of a chain, from the root on. */
  function Bearers(root: Claims, steps: seq<Step>): seq<string> {
    if steps == [] then [root.sub] else Bearers(root, steps[..|steps| - 1]) + [steps[|steps| - 1].bearer]
  }

  /** The token is the one this exchange asked for: its bearer, its key, its grants. */
  predicate AsAsked(c: Claims, s: Step) {
    c.sub == s.bearer && c.jkt == Some(s.jkt) && c.details == s.details && c.jti == s.jti
  }

  /** The claim records the bearers, each once; depth counts the exchanges, as far as 32 bits go. */
  ghost predicate Recorded(root: Claims, c: Claims, steps: seq<Step>) {
    && c.delegation.Some?
    && var d := c.delegation.value;
    && d.chain == Bearers(root, steps) && |d.chain| == |steps| + 1 && Distinct(d.chain)
    && d.chain[|steps|] == c.sub
    && d.depth == Min(|steps|, U32 - 1) && d.depth <= d.maxDepth
    && root.delegation.Some? && d.maxDepth == root.delegation.value.maxDepth
    && (steps != [] ==> AsAsked(c, steps[|steps| - 1]))
  }

  lemma RecordedChild(root: Claims, parent: Claims, before: seq<Step>, s: Step, c: Claims)
    requires Recorded(root, parent, before) && AsAsked(c, s)
    requires c.delegation.Some? && c.delegation == ChildClaim(parent.delegation.value, s.bearer, parent.jti)
    ensures Recorded(root, c, before + [s]) && c.delegation.value.parentJti == Some(parent.jti)
  {
    var steps := before + [s];
    assert steps[..|steps| - 1] == before && steps[|steps| - 1] == s;
  }

  lemma ChildDelegation(cfg: Config, f: Formats, parent: Claims, s: Step)
    requires Exchange(cfg, f, parent, s).Ok?
    ensures var c := Exchange(cfg, f, parent, s).value;
      parent.delegation.Some? && c.delegation.Some?
      && c.delegation == ChildClaim(parent.delegation.value, s.bearer, parent.jti)
  {
  }

  lemma RecordedStep(cfg: Config, f: Formats, root: Claims, parent: Claims, before: seq<Step>, s: Step)
    requires Recorded(root, parent, before) && Exchange(cfg, f, parent, s).Ok?
    ensures var c := Exchange(cfg, f, parent, s).value;
      && Recorded(root, c, before + [s])
      && c.controller == parent.sub && c.delegation.value.parentJti == Some(parent.jti)
  {
    ChildCarries(cfg, f, parent, s);
    ChildDelegation(cfg, f, parent, s);
    RecordedChild(root, parent, before, s, Exchange(cfg, f, parent, s).value);
  }

  /** A token no exchange made, as issuing without a delegation makes it. */
  predicate IsRoot(c: Claims) {
    c.delegation.Some? && c.delegation.value == RootClaim(c.sub, c.delegation.value.maxDepth)
  }

  lemma {:induction false} ChainRecorded(cfg: Config, f: Formats, root: Claims, steps: seq<Step>)
    requires IsRoot(root) && Descend(cfg, f, root, steps).Some?
    ensures Recorded(root, Descend(cfg, f, root, steps).value, steps)
  {
    if steps != [] {
      var before, s := steps[..|steps| - 1], steps[|steps| - 1];
      ChainRecorded(cfg, f, root, before);
      RecordedStep(cfg, f, root, Descend(cfg, f, root, before).value, before, s);
      assert before + [s] == steps;
    }
  }

  /** Below the 32-bit ceiling the chain is never deeper than the root allows, and its length is its depth and one. */
  lemma DepthBounds(cfg: Config, f: Formats, root: Claims, steps: seq<Step>)
    requires IsRoot(root) && Descend(cfg, f, root, steps).Some? && root.delegation.value.maxDepth < U32 - 1
    ensures var d := Descend(cfg, f, root, steps).value.delegation.value;
      |d.chain| == d.depth + 1 && d.depth == |steps| <= root.delegation.value.maxDepth
  {
    ChainRecorded(cfg, f, root, steps);
  }

  // At the ceiling the depth stops counting, so the bound no longer binds.

  function Name(k: nat): string { if k == 0 then "" else Name(k - 1) + "a" }

  lemma {:induction false} NameLength(k: nat)
    ensures |Name(k)| == k
  {
    if k > 0 { NameLength(k - 1); }
  }

  /** A chain of `n` exchanges under the largest depth a claim can state. */
  function LongChain(n: nat): Delegation {
    if n == 0 then RootClaim(Name(0), U32 - 1)
    else Delegation(Min(n, U32 - 1), U32 - 1, LongChain(n - 1).chain + [Name(n)], Some(""))
  }

  lemma {:induction false} LongChainNames(n: nat)
    ensures |LongChain(n).chain| == n + 1 && forall x :: x in LongChain(n).chain ==> |x| <= n
  {
    NameLength(n);
    if n > 0 { LongChainNames(n - 1); }
  }

  /** Every further exchange is granted, however long the chain already is. */
  lemma AtTheCeilingDepthSticks(n: nat)
    ensures ChildClaim(LongChain(n), Name(n + 1), "") == Some(LongChain(n + 1))
    ensures n + 1 >= U32 ==> |LongChain(n + 1).chain| > LongChain(n + 1).depth + 1
    ensures n + 1 >= U32 ==> |LongChain(n + 1).chain| > LongChain(n + 1).maxDepth + 1
  {
    LongChainNames(n);
    LongChainNames(n + 1);
    NameLength(n + 1);
  }
}
