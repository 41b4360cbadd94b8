// Revocation over whole runs, restarts included: what is revoked stays revoked,
// and the log alone is enough to know it.
module RevocationRuns {
  import opened Encoding
  import opened Revocation
  import opened RevocationEngine

  /** Everything held in memory can be read back from the log. */
  ghost predicate Durable(s: State) {
    && s.jtis <= LoggedJtis(s.log) && s.bearers <= LoggedBearers(s.log)
    && forall d :: d in s.controllers ==> Reaches(s.log, Seeds(s.log), d)
  }

  /** Nothing known or written is lost from `s` to `t`. */
  predicate Grows(s: State, t: State) {
    s.jtis <= t.jtis && s.controllers <= t.controllers && s.bearers <= t.bearers && s.log <= t.log
  }

  lemma Longer(a: seq<Row>, b: seq<Row>)
    requires a <= b
    ensures LoggedJtis(a) <= LoggedJtis(b) && Seeds(a) <= Seeds(b) && LoggedBearers(a) <= LoggedBearers(b)
  {
    assert forall r :: r in a ==> r in b;
  }

  lemma EdgeMore(a: seq<Row>, b: seq<Row>, x: Did, y: Did)
    requires a <= b && Edge(a, x, y)
    ensures Edge(b, x, y)
  {
    var ev :| ev in a && Token(ev) && ev.controller == x && ev.bearer == y;
    assert ev in b;
  }

  lemma ReachesMore(a: seq<Row>, from: set<Did>, b: seq<Row>, to: set<Did>, d: Did)
    requires a <= b && from <= to && Reaches(a, from, d)
    ensures Reaches(b, to, d)
  {
    var path :| IsPath(a, from, path) && path[|path| - 1] == d;
    forall i | 0 < i < |path|
      ensures Edge(b, path[i - 1], path[i])
    {
      EdgeMore(a, b, path[i - 1], path[i]);
    }
    assert IsPath(b, to, path);
  }

  lemma AppendDurable(s: State, r: Row)
    requires Durable(s)
    ensures Durable(Append(s, r)) && Grows(s, Append(s, r))
  {
    Longer(s.log, s.log + [r]);
    forall d | d in s.controllers
      ensures Reaches(s.log + [r], Seeds(s.log + [r]), d)
    {
      ReachesMore(s.log, Seeds(s.log), s.log + [r], Seeds(s.log + [r]), d);
    }
  }

  lemma CascadeDurable(s: State, seeds: set<Did>, borne: bool, t: State)
    requires Durable(s) && seeds <= Seeds(s.log) && Cascaded(s, seeds, borne, t)
    ensures Durable(t) && Grows(s, t)
  {
    var added := t.log[|s.log|..];
    Longer(s.log, t.log);
    forall j | j in t.jtis
      ensures j in LoggedJtis(t.log)
    {
      if j !in s.jtis {
        var i :| 0 <= i < |added| && added[i].jti == Some(j);
        assert RowFor(t.jtis - s.jtis, added[i]) && added[i] == t.log[|s.log| + i];
        assert Withdraws(added[i]) && added[i] in t.log;
      }
    }
    forall d | d in t.controllers
      ensures Reaches(t.log, Seeds(t.log), d)
    {
      if d in s.controllers {
        ReachesMore(s.log, Seeds(s.log), t.log, Seeds(t.log), d);
      } else {
        ReachesMore(s.log, seeds, t.log, Seeds(t.log), d);
      }
    }
  }

  lemma MarkedDurable(s: State, jti: string)
    requires Durable(s)
    ensures Durable(Marked(s, jti)) && Grows(s, Marked(s, jti))
    ensures Lookup(s.log, jti).0 != "" ==> Lookup(s.log, jti).0 in Seeds(Marked(s, jti).log)
  {
    var (b, c) := Lookup(s.log, jti);
    var r := Row(b, c, Some(jti), Revoked);
    AppendDurable(s, r);
    assert r in Marked(s, jti).log && Withdraws(r);
  }

  lemma MarkedDidDurable(s: State, did: Did)
    requires Durable(s) && did != ""
    ensures Durable(MarkedDid(s, did)) && Grows(s, MarkedDid(s, did)) && did in Seeds(MarkedDid(s, did).log)
  {
    var r := Row(did, did, None, Revoked);
    AppendDurable(s, r);
    assert r in MarkedDid(s, did).log && RevokesIdentity(r);
  }

  lemma WithdrawnDurable(s: State, jti: string, t: State)
    requires Durable(s) && Next(s, RevokeToken(jti), t)
    ensures Durable(t) && Grows(s, t)
  {
    var (b, c) := Lookup(s.log, jti);
    var r := Row(b, c, Some(jti), TokenRevoked);
    AppendDurable(s, r);
    assert r in t.log && Withdraws(r);
  }

  lemma ReplayedDurable(log: seq<Row>)
    ensures Durable(Replayed(log))
  {
    forall d | d in Seeds(log)
      ensures Reaches(log, Seeds(log), d)
    {
      SeedReached(log, Seeds(log), d);
    }
  }

  /** Rebuilding from the log loses nothing that was held in memory. */
  lemma RestartGrows(s: State, t: State)
    requires Durable(s) && Next(s, Restart, t)
    ensures Durable(t) && Grows(s, t)
  {
    ReplayedDurable(s.log);
    CascadeDurable(Replayed(s.log), Seeds(s.log), false, t);
    assert s.controllers <= t.controllers;
  }

  lemma StepKeeps(s: State, step: Step, t: State)
    requires Durable(s) && Next(s, step, t)
    ensures Durable(t) && Grows(s, t)
  {
    match step
    case Issue(b, c, j) => AppendDurable(s, Row(b, c, Some(j), Issued));
    case Note(r) => AppendDurable(s, r);
    case RevokeToken(j) => WithdrawnDurable(s, j, t);
    case Revoke(j) =>
      MarkedDurable(s, j);
      var b := Lookup(s.log, j).0;
      if b != "" { CascadeDurable(Marked(s, j), {b}, false, t); }
    case RevokeDid(d) =>
      if d != "" {
        MarkedDidDurable(s, d);
        CascadeDurable(MarkedDid(s, d), {d}, true, t);
      }
    case Restart => RestartGrows(s, t);
  }

  // ---- Runs ----

  ghost predicate StepAt(states: seq<State>, steps: seq<Step>, i: nat)
    requires |states| == |steps| + 1 && i < |steps|
  {
    Next(states[i], steps[i], states[i + 1])
  }

  ghost predicate Started(s: State) { exists stored :: Next(State(stored, {}, {}, {}), Restart, s) }

  lemma StartedDurable(s: State)
    requires Started(s)
    ensures Durable(s)
  {
    var stored :| Next(State(stored, {}, {}, {}), Restart, s);
    RestartGrows(State(stored, {}, {}, {}), s);
  }

  lemma StepAtKeeps(states: seq<State>, steps: seq<Step>, i: nat, k: nat)
    requires |states| == |steps| + 1 && k == i + 1 <= |steps| && StepAt(states, steps, i) && Durable(states[i])
    ensures Durable(states[k]) && Grows(states[i], states[k])
  {
    StepKeeps(states[i], steps[i], states[k]);
  }

  /** A run, begun by an engine that came up over some stored log. */
  ghost predicate IsRun(states: seq<State>, steps: seq<Step>) {
    && |states| == |steps| + 1
    && Started(states[0])
    && forall i :: 0 <= i < |steps| ==> StepAt(states, steps, i)
  }

  lemma NextDurable(states: seq<State>, steps: seq<Step>, i: nat, k: nat)
    requires IsRun(states, steps) && k == i + 1 < |states| && Durable(states[i])
    ensures Durable(states[k]) && Grows(states[i], states[k])
  {
    assert StepAt(states, steps, i);
    StepAtKeeps(states, steps, i, k);
  }

  lemma {:induction false} RunDurable(states: seq<State>, steps: seq<Step>, i: nat)
    requires IsRun(states, steps) && i < |states|
    ensures Durable(states[i])
    decreases i
  {
    if i == 0 {
      StartedDurable(states[0]);
    } else {
      RunDurable(states, steps, i - 1);
      NextDurable(states, steps, i - 1, i);
    }
  }

  lemma RunStepGrows(states: seq<State>, steps: seq<Step>, i: nat, k: nat)
    requires IsRun(states, steps) && k == i + 1 < |states|
    ensures Grows(states[i], states[k])
  {
    RunDurable(states, steps, i);
    NextDurable(states, steps, i, k);
  }

  predicate GrowsAt(states: seq<State>, i: nat)
    requires i + 1 < |states|
  {
    Grows(states[i], states[i + 1])
  }

  lemma {:induction false} GrowsAlong(states: seq<State>, i: nat, k: nat)
    requires i <= k < |states| && forall n :: 0 <= n < |states| - 1 ==> GrowsAt(states, n)
    ensures Grows(states[i], states[k])
    decreases k
  {
    if i < k {
      GrowsAlong(states, i, k - 1);
      assert GrowsAt(states, k - 1);
    }
  }

  /** Over a run, restarts included, nothing known or written is lost. */
  lemma RunGrows(states: seq<State>, steps: seq<Step>, i: nat, k: nat)
    requires IsRun(states, steps) && i <= k < |states|
    ensures Grows(states[i], states[k])
  {
    forall n | 0 <= n < |states| - 1
      ensures GrowsAt(states, n)
    {
      RunStepGrows(states, steps, n, n + 1);
    }
    GrowsAlong(states, i, k);
  }

  /** A token refused once is refused for good, whatever happens after, restarts included. */
  lemma RefusedForever(states: seq<State>, steps: seq<Step>, i: nat, k: nat, jti: string, controller: Did, sub: Did)
    requires IsRun(states, steps) && i <= k < |states| && Refuses(states[i], jti, controller, sub)
    ensures Refuses(states[k], jti, controller, sub)
  {
    RunGrows(states, steps, i, k);
  }

  /** A cascade catches what falls by an earlier log too. */
  lemma CascadeReaches(at: seq<Row>, s: State, seeds: set<Did>, borne: bool, t: State)
    requires at <= s.log && Cascaded(s, seeds, borne, t)
    ensures forall d :: Reaches(at, seeds, d) ==> d in t.controllers
    ensures forall ev :: ev in at && Falls(at, seeds, borne, ev) ==> ev.jti.value in t.jtis
  {
    forall d | Reaches(at, seeds, d)
      ensures d in t.controllers
    {
      ReachesMore(at, seeds, s.log, seeds, d);
    }
    forall ev | ev in at && Falls(at, seeds, borne, ev)
      ensures ev.jti.value in t.jtis
    {
      if Reaches(at, seeds, ev.controller) { ReachesMore(at, seeds, s.log, seeds, ev.controller); }
      assert ev in s.log && Falls(s.log, seeds, borne, ev);
      assert JtiFalls(s.log, seeds, borne, ev.jti.value);
    }
  }

  /**
   * After `revoke_did`, the identity's own tokens, whenever issued, and all that
   * descend from it are refused for good.
   */
  lemma IdentityRevokedForever(states: seq<State>, steps: seq<Step>, i: nat, k: nat)
    requires IsRun(states, steps) && i < |steps| && steps[i].RevokeDid? && steps[i].did != "" && i < k < |states|
    ensures var d, at := steps[i].did, states[i].log;
      && (forall jti, controller :: Refuses(states[k], jti, controller, d))
      && (forall ev :: ev in at && Falls(at, {d}, true, ev) ==> ev.jti.value in states[k].jtis)
      && (forall c, jti, sub :: Reaches(at, {d}, c) ==> Refuses(states[k], jti, c, sub))
  {
    var s, d := states[i], steps[i].did;
    assert StepAt(states, steps, i);
    RunGrows(states, steps, i + 1, k);
    assert d in MarkedDid(s, d).bearers && states[i + 1].bearers == MarkedDid(s, d).bearers;
    CascadeReaches(s.log, MarkedDid(s, d), {d}, true, states[i + 1]);
  }

  // ---- Rebuilding twice ----

  /** The rows a restart adds: each of a token just revoked, whose bearer is reached. */
  lemma AddedRow(s: State, t: State, r: Row)
    requires Next(s, Restart, t) && r in t.log[|s.log|..]
    ensures r.kind.Revoked? && r.jti.Some? && r.jti.value in t.jtis && (r.bearer != "" ==> r.bearer in t.controllers)
  {
    var added := t.log[|s.log|..];
    var i :| 0 <= i < |added| && added[i] == r;
    assert RowFor(t.jtis - LoggedJtis(s.log), added[i]);
    assert TellsOf(s.log, Seeds(s.log), false, r);
    var ev :| ev in s.log && Falls(s.log, Seeds(s.log), false, ev) && r == RowOf(ev);
    if ev.bearer != "" {
      assert Edge(s.log, ev.controller, ev.bearer);
      StepReached(s.log, Seeds(s.log), ev.controller, ev.bearer);
    }
  }

  lemma AddedOrOld(s: State, t: State, r: Row)
    requires Next(s, Restart, t) && r in t.log
    ensures r in s.log || r in t.log[|s.log|..]
  {
    assert t.log == s.log + t.log[|s.log|..];
  }

  lemma RevokedIsLogged(s: State, t: State, j: string)
    requires Next(s, Restart, t) && j in t.jtis
    ensures j in LoggedJtis(t.log)
  {
    var added := t.log[|s.log|..];
    Longer(s.log, t.log);
    if j !in LoggedJtis(s.log) {
      var i :| 0 <= i < |added| && added[i].jti == Some(j);
      assert added[i] in added;
      AddedRow(s, t, added[i]);
      assert added[i] == t.log[|s.log| + i];
      assert Withdraws(added[i]) && added[i] in t.log;
    }
  }

  /** They reveal no new seed and no new token. */
  lemma RowsSayNothingNew(s: State, t: State)
    requires Next(s, Restart, t)
    ensures LoggedJtis(t.log) == t.jtis && LoggedBearers(t.log) == t.bearers && Seeds(t.log) <= t.controllers
  {
    Longer(s.log, t.log);
    forall r | r in t.log
      ensures r in s.log ||
        (r.kind.Revoked? && r.jti.Some? && r.jti.value in t.jtis && (r.bearer != "" ==> r.bearer in t.controllers))
    {
      AddedOrOld(s, t, r);
      if r !in s.log { AddedRow(s, t, r); }
    }
    forall j | j in t.jtis
      ensures j in LoggedJtis(t.log)
    {
      RevokedIsLogged(s, t, j);
    }
  }

  lemma ReachUnchanged(s: State, t: State, d: Did)
    requires Next(s, Restart, t) && Reaches(t.log, Seeds(t.log), d)
    ensures d in t.controllers && Reaches(s.log, Seeds(s.log), d)
  {
    RowsSayNothingNew(s, t);
    forall a, b | a in t.controllers && Edge(t.log, a, b)
      ensures b in t.controllers
    {
      SameEdges(s, t, a, b);
      ReplayedDurable(s.log);
      StepReached(s.log, Seeds(s.log), a, b);
    }
    var path :| IsPath(t.log, Seeds(t.log), path) && path[|path| - 1] == d;
    PathInside(t.log, Seeds(t.log), path, t.controllers);
    ReplayedDurable(s.log);
  }

  lemma SameTokens(s: State, t: State, ev: Row)
    requires Next(s, Restart, t) && ev in t.log && Token(ev)
    ensures ev in s.log
  {
    AddedOrOld(s, t, ev);
    if ev !in s.log { AddedRow(s, t, ev); }
  }

  lemma SameEdges(s: State, t: State, a: Did, b: Did)
    requires Next(s, Restart, t) && Edge(t.log, a, b)
    ensures Edge(s.log, a, b)
  {
    var ev :| ev in t.log && Token(ev) && ev.controller == a && ev.bearer == b;
    SameTokens(s, t, ev);
  }

  /** A second restart changes nothing: not the sets, not the log. */
  lemma RebuildTwice(s: State, t: State, u: State)
    requires Next(s, Restart, t) && Next(t, Restart, u)
    ensures u == t
  {
    RowsSayNothingNew(s, t);
    forall d
      ensures d in u.controllers <==> d in t.controllers
    {
      if Reaches(t.log, Seeds(t.log), d) { ReachUnchanged(s, t, d); }
      if Reaches(s.log, Seeds(s.log), d) {
        Longer(s.log, t.log);
        ReachesMore(s.log, Seeds(s.log), t.log, Seeds(t.log), d);
      }
      Longer(s.log, t.log);
    }
    forall j | j in u.jtis
      ensures j in t.jtis
    {
      if JtiFalls(t.log, Seeds(t.log), false, j) {
        var ev :| ev in t.log && Falls(t.log, Seeds(t.log), false, ev) && ev.jti == Some(j);
        SameTokens(s, t, ev);
        ReachUnchanged(s, t, ev.controller);
        assert JtiFalls(s.log, Seeds(s.log), false, j);
      }
    }
    assert u.jtis == t.jtis && u.controllers == t.controllers;
    assert u.jtis - LoggedJtis(t.log) == {};
    assert u.log == t.log + u.log[|t.log|..];
  }

  // ---- What a restart changes ----

  /** Memory holds what the log alone says was revoked. */
  predicate Reflects(s: State) {
    LoggedJtis(s.log) <= s.jtis && Seeds(s.log) <= s.controllers && LoggedBearers(s.log) <= s.bearers
  }

  lemma AppendReflects(s: State, r: Row)
    requires Reflects(s) && (Withdraws(r) ==> r.jti.value in s.jtis)
    requires r.kind.Revoked? && r.bearer != "" ==> r.bearer in s.controllers
    requires RevokesIdentity(r) ==> r.controller in s.controllers
    requires RevokesIdentity(r) && r.bearer == r.controller ==> r.controller in s.bearers
    ensures Reflects(Append(s, r))
  {
    assert forall x :: x in s.log + [r] <==> x in s.log || x == r;
  }

  /** Memory would reflect the log, had the seeds been cascaded from. */
  predicate ReflectsBut(s: State, seeds: set<Did>) {
    LoggedJtis(s.log) <= s.jtis && Seeds(s.log) <= s.controllers + seeds && LoggedBearers(s.log) <= s.bearers
  }

  lemma CascadeReflects(s: State, seeds: set<Did>, borne: bool, t: State)
    requires ReflectsBut(s, seeds) && "" !in seeds && Cascaded(s, seeds, borne, t)
    ensures Reflects(t)
  {
    var added := t.log[|s.log|..];
    assert t.log == s.log + added;
    forall r | r in added
      ensures r.kind.Revoked? && r.jti.Some? && r.jti.value in t.jtis && (r.bearer != "" ==> r.bearer in t.controllers)
    {
      CascadedRow(s, seeds, borne, t, r);
    }
    forall d | d in seeds
      ensures d in t.controllers
    {
      SeedReached(s.log, seeds, d);
    }
    assert forall r :: r in t.log <==> r in s.log || r in added;
    forall d | d in Seeds(t.log)
      ensures d in t.controllers
    {
      var r :| r in t.log && r.kind.Revoked?
        && ((r.bearer != "" && r.bearer == d) || (RevokesIdentity(r) && r.controller == d));
      if r in s.log { assert d in Seeds(s.log); }
    }
  }

  /** A row a cascade adds: of a token just revoked, whose bearer is reached. */
  lemma CascadedRow(s: State, seeds: set<Did>, borne: bool, t: State, r: Row)
    requires Cascaded(s, seeds, borne, t) && r in t.log[|s.log|..]
    ensures r.kind.Revoked? && r.jti.Some? && r.jti.value in t.jtis && (r.bearer != "" ==> r.bearer in t.controllers)
  {
    var added := t.log[|s.log|..];
    var i :| 0 <= i < |added| && added[i] == r;
    assert RowFor(t.jtis - s.jtis, added[i]);
    assert TellsOf(s.log, seeds, borne, r);
    var ev :| ev in s.log && Falls(s.log, seeds, borne, ev) && r == RowOf(ev);
    if ev.bearer != "" {
      if Reaches(s.log, seeds, ev.controller) {
        assert Edge(s.log, ev.controller, ev.bearer);
        StepReached(s.log, seeds, ev.controller, ev.bearer);
      } else {
        SeedReached(s.log, seeds, ev.bearer);
      }
    }
  }

  lemma MarkedReflects(s: State, jti: string)
    requires Reflects(s)
    ensures ReflectsBut(Marked(s, jti), {Lookup(s.log, jti).0})
    ensures Lookup(s.log, jti).0 == "" ==> Reflects(Marked(s, jti))
  {
    var (b, c) := Lookup(s.log, jti);
    var r := Row(b, c, Some(jti), Revoked);
    assert forall x :: x in s.log + [r] <==> x in s.log || x == r;
  }

  lemma MarkedDidReflects(s: State, did: Did)
    requires Reflects(s)
    ensures ReflectsBut(MarkedDid(s, did), {did})
  {
    var r := Row(did, did, None, Revoked);
    assert forall x :: x in s.log + [r] <==> x in s.log || x == r;
  }

  lemma RestartReflects(s: State, t: State)
    requires Next(s, Restart, t)
    ensures Reflects(t)
  {
    assert "" !in Seeds(s.log);
    CascadeReflects(Replayed(s.log), Seeds(s.log), false, t);
  }

  lemma StepReflects(s: State, step: Step, t: State)
    requires Reflects(s) && Next(s, step, t)
    ensures Reflects(t)
  {
    match step
    case Issue(b, c, j) => AppendReflects(s, Row(b, c, Some(j), Issued));
    case Note(r) => AppendReflects(s, r);
    case RevokeToken(j) =>
      var (b, c) := Lookup(s.log, j);
      AppendReflects(s.(jtis := s.jtis + {j}), Row(b, c, Some(j), TokenRevoked));
    case Revoke(j) =>
      MarkedReflects(s, j);
      var b := Lookup(s.log, j).0;
      if b != "" { CascadeReflects(Marked(s, j), {b}, false, t); }
    case RevokeDid(d) =>
      if d != "" {
        MarkedDidReflects(s, d);
        CascadeReflects(MarkedDid(s, d), {d}, true, t);
      }
    case Restart => RestartReflects(s, t);
  }

  lemma StepAtReflects(states: seq<State>, steps: seq<Step>, i: nat, k: nat)
    requires |states| == |steps| + 1 && k == i + 1 <= |steps| && StepAt(states, steps, i) && Reflects(states[i])
    ensures Reflects(states[k])
  {
    StepReflects(states[i], steps[i], states[k]);
  }

  lemma StartedReflects(s: State)
    requires Started(s)
    ensures Reflects(s)
  {
    var stored :| Next(State(stored, {}, {}, {}), Restart, s);
    RestartReflects(State(stored, {}, {}, {}), s);
  }

  lemma NextReflects(states: seq<State>, steps: seq<Step>, i: nat, k: nat)
    requires IsRun(states, steps) && k == i + 1 < |states| && Reflects(states[i])
    ensures Reflects(states[k])
  {
    assert StepAt(states, steps, i);
    StepAtReflects(states, steps, i, k);
  }

  /** In every run memory holds what the log alone says was revoked. */
  lemma {:induction false} RunReflects(states: seq<State>, steps: seq<Step>, i: nat)
    requires IsRun(states, steps) && i < |states|
    ensures Reflects(states[i])
    decreases i
  {
    if i == 0 {
      StartedReflects(states[0]);
    } else {
      RunReflects(states, steps, i - 1);
      NextReflects(states, steps, i - 1, i);
    }
  }

  /** No token was issued under a revoked controller and left standing, nor its bearer. */
  predicate NothingLate(s: State) {
    forall ev :: ev in s.log && Token(ev) && ev.controller in s.controllers ==>
      ev.jti.value in s.jtis && (ev.bearer != "" ==> ev.bearer in s.controllers)
  }

  lemma NothingLateReaches(s: State, d: Did)
    requires Reflects(s) && NothingLate(s) && Reaches(s.log, Seeds(s.log), d)
    ensures d in s.controllers
  {
    var path :| IsPath(s.log, Seeds(s.log), path) && path[|path| - 1] == d;
    assert Closed(s.log, s.controllers);
    PathInside(s.log, Seeds(s.log), path, s.controllers);
  }

  lemma QuietRestart(s: State, t: State)
    requires Durable(s) && Reflects(s) && Next(s, Restart, t) && NothingLate(s)
    ensures SameSets(s, t)
  {
    forall d
      ensures d in t.controllers <==> d in s.controllers
    {
      if Reaches(s.log, Seeds(s.log), d) { NothingLateReaches(s, d); }
    }
    forall j | j in t.jtis
      ensures j in s.jtis
    {
      if JtiFalls(s.log, Seeds(s.log), false, j) {
        var ev :| ev in s.log && Falls(s.log, Seeds(s.log), false, ev) && ev.jti == Some(j);
        NothingLateReaches(s, ev.controller);
      }
    }
    RestartGrows(s, t);
  }

  predicate SameSets(s: State,
                     t: State) { t.jtis == s.jtis && t.controllers == s.controllers && t.bearers == s.bearers }

  lemma LateTokenFound(s: State, t: State, ev: Row)
    requires Durable(s) && Next(s, Restart, t) && ev in s.log && Token(ev) && ev.controller in s.controllers
    ensures ev.jti.value in t.jtis && (ev.bearer != "" ==> ev.bearer in t.controllers)
  {
    assert Reaches(s.log, Seeds(s.log), ev.controller);
    assert Falls(s.log, Seeds(s.log), false, ev);
    assert JtiFalls(s.log, Seeds(s.log), false, ev.jti.value);
    if ev.bearer != "" {
      assert Edge(s.log, ev.controller, ev.bearer);
      StepReached(s.log, Seeds(s.log), ev.controller, ev.bearer);
    }
  }

  /** A restart leaves who is refused as it was, exactly when no token was issued late under a revoked controller. */
  lemma RestartChangesNothingIff(s: State, t: State)
    requires Durable(s) && Reflects(s) && Next(s, Restart, t)
    ensures SameSets(s, t) <==> NothingLate(s)
  {
    if NothingLate(s) {
      QuietRestart(s, t);
    } else {
      var ev :| ev in s.log && Token(ev) && ev.controller in s.controllers
        && !(ev.jti.value in s.jtis && (ev.bearer != "" ==> ev.bearer in s.controllers));
      LateTokenFound(s, t, ev);
    }
  }

  /** That is so at every point of every run. */
  lemma RunRestartChangesNothingIff(states: seq<State>, steps: seq<Step>, i: nat, t: State)
    requires IsRun(states, steps) && i < |states| && Next(states[i], Restart, t)
    ensures SameSets(states[i], t) <==> NothingLate(states[i])
  {
    RunDurable(states, steps, i);
    RunReflects(states, steps, i);
    RestartChangesNothingIff(states[i], t);
  }

  /** A token issued under the bearer of a late one stands before a restart and is refused after it. */
  lemma RestartRefusesMore(s: State, t: State, late: Row, jti: string, sub: Did)
    requires Durable(s) && Next(s, Restart, t) && late in s.log && Token(late) && late.controller in s.controllers
    requires late.bearer != "" && !Refuses(s, jti, late.bearer, sub)
    ensures Refuses(t, jti, late.bearer, sub)
  {
    LateTokenFound(s, t, late);
  }

  /** A restart writes nothing just when every token that falls is already recorded as revoked. */
  lemma RestartWritesNothingIff(s: State, t: State)
    requires Next(s, Restart, t)
    ensures t.log == s.log <==> forall j :: JtiFalls(s.log, Seeds(s.log), false, j) ==> j in LoggedJtis(s.log)
  {
    var added, fallen := t.log[|s.log|..], t.jtis - LoggedJtis(s.log);
    assert t.log == s.log + added;
    if t.log == s.log {
      assert added == [] && |fallen| == 0;
      assert fallen == {};
    } else {
      assert RowFor(fallen, added[0]);
    }
  }

  /** It does write when a token was issued under a controller revoked before. */
  lemma LateTokenIsWritten(s: State, t: State, ev: Row)
    requires Next(s, Restart, t) && ev in s.log && Token(ev)
    requires ev.controller in Seeds(s.log) && ev.jti.value !in LoggedJtis(s.log)
    ensures ev.jti.value in t.jtis && |t.log| > |s.log|
  {
    SeedReached(s.log, Seeds(s.log), ev.controller);
    assert Falls(s.log, Seeds(s.log), false, ev);
    assert JtiFalls(s.log, Seeds(s.log), false, ev.jti.value);
    RestartWritesNothingIff(s, t);
  }

  /** For instance: `a` is revoked, then a token is issued under it, then the node restarts. */
  lemma RestartMayWrite(t: State)
    requires Next(State([Row("a", "a", None, Revoked), Row("b", "a", Some("1"), Issued)], {}, {}, {}), Restart, t)
    ensures |t.log| > 2
  {
    var first, late := Row("a", "a", None, Revoked), Row("b", "a", Some("1"), Issued);
    var s := State([first, late], {}, {}, {});
    assert s.log[0] == first && s.log[1] == late;
    assert RevokesIdentity(first) && first in s.log && late in s.log;
    assert first.controller in Seeds(s.log);
    LateTokenIsWritten(s, t, late);
  }
}
