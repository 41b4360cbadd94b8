// What each revocation does, to the row: whose token it was by the log, who is
// cut off by it and nobody else.
module RevocationEffects {
  import opened Encoding
  import opened Revocation
  import opened RevocationEngine
  import opened RevocationRuns

  predicate IssuesToken(r: Row, j: string) { r.kind.Issued? && r.jti == Some(j) }

  /** Row `i` is the latest issuance of token `j`. */
  predicate LatestIssue(log: seq<Row>, j: string, i: nat) {
    i < |log| && IssuesToken(log[i], j) && forall k :: i < k < |log| ==> !IssuesToken(log[k], j)
  }

  predicate NeverIssued(log: seq<Row>, j: string) { forall k :: 0 <= k < |log| ==> !IssuesToken(log[k], j) }

  /** A token is its latest issuance's bearer's, issued under that row's controller. */
  lemma {:induction false} LookupIssued(log: seq<Row>, j: string, i: nat)
    requires LatestIssue(log, j, i)
    ensures Lookup(log, j) == (log[i].bearer, log[i].controller)
  {
    if i < |log| - 1 {
      LookupIssued(log[..|log| - 1], j, i);
    }
  }

  lemma {:induction false} LookupUnknown(log: seq<Row>, j: string)
    requires NeverIssued(log, j)
    ensures Lookup(log, j) == ("", "")
  {
    if log != [] { LookupUnknown(log[..|log| - 1], j); }
  }

  /** Issuing a token records whose it is and under whom, and changes nothing else. */
  lemma IssueEffect(s: State, b: Did, c: Did, j: string, t: State)
    requires Next(s, Issue(b, c, j), t)
    ensures LatestIssue(t.log, j, |s.log|) && s.log <= t.log && |t.log| == |s.log| + 1
    ensures t.log[|s.log|].bearer == b && t.log[|s.log|].controller == c
    ensures t.jtis == s.jtis && t.controllers == s.controllers && t.bearers == s.bearers
    ensures b != "" ==> Edge(t.log, c, b)
  {
    var r := t.log[|s.log|];
    assert r in t.log && Token(r);
  }

  // A row that issues nothing leads nowhere, so it changes nothing that is reached.

  lemma SameReach(log: seq<Row>, r: Row, seeds: set<Did>, d: Did)
    requires !Token(r)
    ensures Reaches(log + [r], seeds, d) <==> Reaches(log, seeds, d)
  {
    if Reaches(log, seeds, d) { ReachesMore(log, seeds, log + [r], seeds, d); }
    if Reaches(log + [r], seeds, d) {
      var path :| IsPath(log + [r], seeds, path) && path[|path| - 1] == d;
      forall i | 0 < i < |path|
        ensures Edge(log, path[i - 1], path[i])
      {
        assert Edge(log + [r], path[i - 1], path[i]);
        var ev :| ev in log + [r] && Token(ev) && ev.controller == path[i - 1] && ev.bearer == path[i];
        assert ev in log;
      }
      assert IsPath(log, seeds, path);
    }
  }

  lemma SameFalls(log: seq<Row>, r: Row, seeds: set<Did>, borne: bool, ev: Row)
    requires !Token(r)
    ensures ev in log + [r] && Falls(log + [r], seeds, borne, ev) <==> ev in log && Falls(log, seeds, borne, ev)
  {
    SameReach(log, r, seeds, ev.controller);
    assert ev in log + [r] <==> ev in log || ev == r;
  }

  lemma SameJtiFalls(log: seq<Row>, r: Row, seeds: set<Did>, borne: bool, j: string)
    requires !Token(r)
    ensures JtiFalls(log + [r], seeds, borne, j) <==> JtiFalls(log, seeds, borne, j)
  {
    if JtiFalls(log + [r], seeds, borne, j) {
      var ev :| ev in log + [r] && Falls(log + [r], seeds, borne, ev) && ev.jti == Some(j);
      SameFalls(log, r, seeds, borne, ev);
    }
    if JtiFalls(log, seeds, borne, j) {
      var ev :| ev in log && Falls(log, seeds, borne, ev) && ev.jti == Some(j);
      SameFalls(log, r, seeds, borne, ev);
    }
  }

  lemma NobodyReached(log: seq<Row>, d: Did)
    ensures !Reaches(log, {""}, d)
  {
  }

  /** The row tells of a token that falls, in that token's own terms. */
  ghost predicate TellsOfFallen(log: seq<Row>, seeds: set<Did>, borne: bool, r: Row) {
    exists ev ::
      && ev in log && Falls(log, seeds, borne, ev)
      && r.kind.Revoked? && r.bearer == ev.bearer && r.controller == ev.controller && r.jti == ev.jti
  }

  /** From `s` to `t`: row `first`, then a cascade from `seeds`; `jtis` were marked beside it. */
  ghost predicate Exactly(s: State, first: Row, jtis: set<string>, seeds: set<Did>, borne: bool, t: State) {
    && (forall d :: d in t.controllers <==> d in s.controllers || Reaches(s.log, seeds, d))
    && (forall j :: j in t.jtis <==> j in s.jtis || j in jtis || JtiFalls(s.log, seeds, borne, j))
    && s.log + [first] <= t.log
    && (forall r :: r in t.log[|s.log| + 1..] ==> TellsOfFallen(s.log, seeds, borne, r))
    && |t.log| == |s.log| + 1 + |t.jtis - (s.jtis + jtis)|
  }

  lemma CascadedExactly(s: State, m: State, first: Row, jtis: set<string>, seeds: set<Did>, borne: bool, t: State)
    requires !Token(first) && m.log == s.log + [first] && m.jtis == s.jtis + jtis && m.controllers == s.controllers
    requires Cascaded(m, seeds, borne, t)
    ensures Exactly(s, first, jtis, seeds, borne, t)
  {
    forall d
      ensures d in t.controllers <==> d in s.controllers || Reaches(s.log, seeds, d)
    {
      SameReach(s.log, first, seeds, d);
    }
    forall j
      ensures j in t.jtis <==> j in s.jtis || j in jtis || JtiFalls(s.log, seeds, borne, j)
    {
      SameJtiFalls(s.log, first, seeds, borne, j);
    }
    forall r | r in t.log[|s.log| + 1..]
      ensures TellsOfFallen(s.log, seeds, borne, r)
    {
      FallenRow(s, m, first, seeds, borne, t, r);
    }
  }

  lemma FallenRow(s: State, m: State, first: Row, seeds: set<Did>, borne: bool, t: State, r: Row)
    requires !Token(first) && m.log == s.log + [first] && Cascaded(m, seeds, borne, t) && r in t.log[|m.log|..]
    ensures TellsOfFallen(s.log, seeds, borne, r)
  {
    assert TellsOf(m.log, seeds, borne, r);
    var ev :| ev in m.log && Falls(m.log, seeds, borne, ev) && r == RowOf(ev);
    SameFalls(s.log, first, seeds, borne, ev);
  }

  /** Without a cascade. */
  lemma MarkedExactly(s: State, first: Row, jtis: set<string>, t: State)
    requires t.log == s.log + [first] && t.jtis == s.jtis + jtis && t.controllers == s.controllers
    ensures Exactly(s, first, jtis, {""}, false, t)
  {
    forall d
      ensures !Reaches(s.log, {""}, d)
    {
      NobodyReached(s.log, d);
    }
    assert t.jtis - (s.jtis + jtis) == {};
    assert t.log[|s.log| + 1..] == [];
  }

  /**
   * Revoking a token cuts off, by the log at the time, exactly those reached
   * from the bearer of its latest issuance, and revokes exactly it and the
   * tokens issued under them; the row written is of that bearer and controller.
   */
  lemma RevokeEffect(s: State, j: string, t: State, i: nat)
    requires Next(s, Revoke(j), t) && LatestIssue(s.log, j, i)
    ensures Exactly(s, Row(s.log[i].bearer, s.log[i].controller, Some(j), Revoked), {j}, {s.log[i].bearer}, false, t)
    ensures t.bearers == s.bearers
  {
    LookupIssued(s.log, j, i);
    var b, c := s.log[i].bearer, s.log[i].controller;
    if b == "" {
      MarkedExactly(s, Row(b, c, Some(j), Revoked), {j}, t);
    } else {
      CascadedExactly(s, Marked(s, j), Row(b, c, Some(j), Revoked), {j}, {b}, false, t);
    }
  }

  /** Nobody else is: a token that is not it, did not fall and was not issued under one reached stands as it did. */
  lemma RevokeSpares(s: State, j: string, t: State, i: nat, jti: string, controller: Did, sub: Did)
    requires Next(s, Revoke(j), t) && LatestIssue(s.log, j, i) && !Refuses(s, jti, controller, sub)
    requires jti != j && !JtiFalls(s.log, {s.log[i].bearer}, false, jti) && !Reaches(s.log, {s.log[i].bearer}, controller)
    ensures !Refuses(t, jti, controller, sub)
  {
    RevokeEffect(s, j, t, i);
  }

  /** A token never issued is marked and nothing else. */
  lemma RevokeUnknownEffect(s: State, j: string, t: State)
    requires Next(s, Revoke(j), t) && NeverIssued(s.log, j)
    ensures t == State(s.log + [Row("", "", Some(j), Revoked)], s.jtis + {j}, s.controllers, s.bearers)
  {
    LookupUnknown(s.log, j);
  }

  /** Withdrawing a token revokes it alone, and the row says whose it was. */
  lemma WithdrawEffect(s: State, j: string, t: State, i: nat)
    requires Next(s, RevokeToken(j), t) && LatestIssue(s.log, j, i)
    ensures var r := Row(s.log[i].bearer, s.log[i].controller, Some(j), TokenRevoked);
      t == State(s.log + [r], s.jtis + {j}, s.controllers, s.bearers)
  {
    LookupIssued(s.log, j, i);
  }

  /** Revoking an identity cuts off exactly those reached from it, and revokes the tokens it bears besides theirs. */
  lemma RevokeDidEffect(s: State, d: Did, t: State)
    requires Next(s, RevokeDid(d), t) && d != ""
    ensures Exactly(s, Row(d, d, None, Revoked), {}, {d}, true, t) && t.bearers == s.bearers + {d}
  {
    CascadedExactly(s, MarkedDid(s, d), Row(d, d, None, Revoked), {}, {d}, true, t);
  }

  /**
   * After `revoke`, the token and every token issued by then that descends from
   * its bearer, as the log has it, is refused for good.
   */
  lemma RevokedForever(states: seq<State>, steps: seq<Step>, i: nat, k: nat, p: nat)
    requires IsRun(states, steps) && i < |steps| && steps[i].Revoke? && i < k < |states|
    requires LatestIssue(states[i].log, steps[i].jti, p)
    ensures var at := states[i].log; var b := at[p].bearer;
      && (forall c, sub :: Refuses(states[k], steps[i].jti, c, sub))
      && (forall ev, c, sub :: ev in at && Falls(at, {b}, false, ev) ==> Refuses(states[k], ev.jti.value, c, sub))
      && (forall d, jti, sub :: Reaches(at, {b}, d) ==> Refuses(states[k], jti, d, sub))
  {
    var at := states[i].log;
    var b := at[p].bearer;
    assert StepAt(states, steps, i);
    RevokeEffect(states[i], steps[i].jti, states[i + 1], p);
    RunGrows(states, steps, i + 1, k);
    forall ev | ev in at && Falls(at, {b}, false, ev)
      ensures ev.jti.value in states[k].jtis
    {
      assert JtiFalls(at, {b}, false, ev.jti.value);
    }
  }
}
