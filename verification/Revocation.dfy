// Revocation over the audit log: who is reached when a bearer is revoked, and
// the search that finds them.
module Revocation {
  import opened Encoding

  type Did = string

  datatype Kind = Issued | Revoked | TokenRevoked | Other

  /** A row of the audit log. */
  datatype Row = Row(bearer: Did, controller: Did, jti: Option<string>, kind: Kind)

  /** The row records the issuance of a token. */
  predicate Token(ev: Row) { ev.kind.Issued? && ev.jti.Some? }

  /** `b` bears a token issued under `a`. */
  ghost predicate Edge(log: seq<Row>, a: Did, b: Did) {
    b != "" && exists ev :: ev in log && Token(ev) && ev.controller == a && ev.bearer == b
  }

  ghost predicate IsPath(log: seq<Row>, seeds: set<Did>, path: seq<Did>) {
    && path != [] && path[0] in seeds && path[0] != ""
    && forall i :: 0 < i < |path| ==> Edge(log, path[i - 1], path[i])
  }

  /** `d` is a seed, or bears a token issued under one that is reached. */
  ghost predicate Reaches(log: seq<Row>, seeds: set<Did>, d: Did) {
    exists path :: IsPath(log, seeds, path) && path[|path| - 1] == d
  }

  /** The token falls with the seeds: issued under one reached, or, if asked for, borne by a seed. */
  ghost predicate Falls(log: seq<Row>, seeds: set<Did>, borne: bool, ev: Row) {
    Token(ev) && (Reaches(log, seeds, ev.controller) || (borne && ev.bearer in seeds && ev.bearer != ""))
  }

  ghost predicate JtiFalls(log: seq<Row>, seeds: set<Did>, borne: bool, j: string) {
    exists ev :: ev in log && Falls(log, seeds, borne, ev) && ev.jti == Some(j)
  }

  lemma SeedReached(log: seq<Row>, seeds: set<Did>, d: Did)
    requires d in seeds && d != ""
    ensures Reaches(log, seeds, d)
  {
    assert IsPath(log, seeds, [d]);
  }

  lemma StepReached(log: seq<Row>, seeds: set<Did>, a: Did, b: Did)
    requires Reaches(log, seeds, a) && Edge(log, a, b)
    ensures Reaches(log, seeds, b)
  {
    var path :| IsPath(log, seeds, path) && path[|path| - 1] == a;
    var longer := path + [b];
    forall i | 0 < i < |longer|
      ensures Edge(log, longer[i - 1], longer[i])
    {
      if i < |path| { assert Edge(log, path[i - 1], path[i]); }
    }
    assert IsPath(log, seeds, longer);
  }

  /** A set of DIDs that nothing leads out of. */
  ghost predicate Closed(log: seq<Row>, s: set<Did>) {
    forall a, b :: a in s && Edge(log, a, b) ==> b in s
  }

  lemma {:induction false} PathInside(log: seq<Row>, seeds: set<Did>, path: seq<Did>, s: set<Did>)
    requires IsPath(log, seeds, path) && Closed(log, s) && (forall d :: d in seeds && d != "" ==> d in s)
    ensures path[|path| - 1] in s
  {
    if |path| > 1 {
      var before := path[..|path| - 1];
      assert forall i :: 0 < i < |before| ==> Edge(log, before[i - 1], before[i]) by {
        forall i | 0 < i < |before|
          ensures Edge(log, before[i - 1], before[i])
        {
          assert Edge(log, path[i - 1], path[i]);
        }
      }
      assert IsPath(log, seeds, before);
      PathInside(log, seeds, before, s);
      assert Edge(log, path[|path| - 2], path[|path| - 1]);
    }
  }

  // ---- The search ----

  /** Where a search is: the DIDs met, those still to visit, the tokens revoked and the rows to write. */
  datatype Search = Search(visited: set<Did>, frontier: seq<Did>, controllers: set<Did>, jtis: set<string>,
                           rows: seq<Row>)

  /** The token is hit when `x` is visited. */
  predicate Under(ev: Row, x: Did, bears: bool) { Token(ev) && (ev.controller == x || (bears && ev.bearer == x)) }

  function RowOf(ev: Row): Row { Row(ev.bearer, ev.controller, ev.jti, Revoked) }

  function Hit(s: Search, ev: Row): Search
    requires Token(ev)
  {
    var j := ev.jti.value;
    var t := if j in s.jtis then s else s.(jtis := s.jtis + {j}, rows := s.rows + [RowOf(ev)]);
    if ev.bearer == "" || ev.bearer in t.visited then t
    else t.(visited := t.visited + {ev.bearer}, controllers := t.controllers + {ev.bearer},
            frontier := t.frontier + [ev.bearer])
  }

  /** The row says that one of the tokens `fallen` was revoked. */
  predicate RowFor(fallen: set<string>, r: Row) { r.jti.Some? && r.jti.value in fallen && r.kind.Revoked? }

  ghost predicate OneEach(rows: seq<Row>, fallen: set<string>) {
    && |rows| == |fallen|
    && (forall i, j :: 0 <= i < j < |rows| ==> rows[i].jti != rows[j].jti)
    && (forall t :: t in fallen ==> exists i :: 0 <= i < |rows| && rows[i].jti == Some(t))
  }

  /** One row for each token newly revoked, and no other. */
  ghost predicate Accounted(fallen: set<string>, rows: seq<Row>) {
    (forall i :: 0 <= i < |rows| ==> RowFor(fallen, rows[i])) && OneEach(rows, fallen)
  }

  lemma OneMore(rows: seq<Row>, fallen: set<string>, r: Row)
    requires OneEach(rows, fallen) && r.jti.Some? && r.jti.value !in fallen
    requires forall i :: 0 <= i < |rows| ==> rows[i].jti.Some? && rows[i].jti.value in fallen
    ensures OneEach(rows + [r], fallen + {r.jti.value})
  {
    var more := rows + [r];
    forall t | t in fallen + {r.jti.value}
      ensures exists i :: 0 <= i < |more| && more[i].jti == Some(t)
    {
      if t == r.jti.value {
        assert more[|rows|].jti == Some(t);
      } else {
        var i :| 0 <= i < |rows| && rows[i].jti == Some(t);
        assert more[i].jti == Some(t);
      }
    }
  }

  lemma AccountedMore(fallen: set<string>, rows: seq<Row>, ev: Row)
    requires Accounted(fallen, rows) && Token(ev) && ev.jti.value !in fallen
    ensures Accounted(fallen + {ev.jti.value}, rows + [RowOf(ev)])
  {
    var r, now := RowOf(ev), fallen + {ev.jti.value};
    assert forall i :: 0 <= i < |rows| ==> RowFor(fallen, rows[i]) ==> rows[i].jti.Some? && rows[i].jti.value in fallen;
    OneMore(rows, fallen, r);
    assert RowFor(now, r);
    forall i | 0 <= i < |rows|
      ensures RowFor(now, rows[i])
    {
      assert RowFor(fallen, rows[i]);
    }
  }

  lemma HitAccounted(base: set<string>, s: Search, ev: Row)
    requires base <= s.jtis && Accounted(s.jtis - base, s.rows) && Token(ev)
    ensures base <= Hit(s, ev).jtis && Accounted(Hit(s, ev).jtis - base, Hit(s, ev).rows)
  {
    var j := ev.jti.value;
    if j !in s.jtis {
      AccountedMore(s.jtis - base, s.rows, ev);
      assert s.jtis + {j} - base == (s.jtis - base) + {j};
    }
  }

  /** What visiting `x` finds in the first `n` rows: its tokens revoked, their bearers met and queued. */
  ghost predicate Visited(log: seq<Row>, n: nat, x: Did, bears: bool, s: Search, t: Search)
    requires n <= |log|
  {
    && (forall j :: j in t.jtis <==>
          j in s.jtis || exists i :: 0 <= i < n && Under(log[i], x, bears) && log[i].jti == Some(j))
    && (forall d :: d in t.visited <==>
          d in s.visited || (d != "" && exists i :: 0 <= i < n && Under(log[i], x, bears) && log[i].bearer == d))
    && (forall d :: d in t.frontier <==> d in s.frontier || (d in t.visited && d !in s.visited))
    && t.controllers == s.controllers + (t.visited - s.visited)
    && (t.visited == s.visited ==> t.frontier == s.frontier)
    && (forall r :: r in t.rows ==>
          r in s.rows || exists i :: 0 <= i < n && Under(log[i], x, bears) && r == RowOf(log[i]))
  }

  lemma VisitMore(log: seq<Row>, n: nat, x: Did, bears: bool, s: Search, t: Search)
    requires n < |log| && Visited(log, n, x, bears, s, t)
    ensures Visited(log, n + 1, x, bears, s, if Under(log[n], x, bears) then Hit(t, log[n]) else t)
  {
  }

  /** Visit one DID: revoke the tokens issued under it, meet their bearers. */
  method Visit(log: seq<Row>, ghost base: set<string>, x: Did, bears: bool, s: Search) returns (t: Search)
    requires base <= s.jtis && Accounted(s.jtis - base, s.rows)
    ensures Visited(log, |log|, x, bears, s, t)
    ensures base <= t.jtis && Accounted(t.jtis - base, t.rows)
  {
    t := s;
    for n := 0 to |log|
      invariant Visited(log, n, x, bears, s, t)
      invariant base <= t.jtis && Accounted(t.jtis - base, t.rows)
    {
      VisitMore(log, n, x, bears, s, t);
      if Under(log[n], x, bears) {
        HitAccounted(base, t, log[n]);
        t := Hit(t, log[n]);
      }
    }
  }

  /** What the search has met so far is reached, and what it has revoked falls. */
  ghost predicate Sound(log: seq<Row>, seeds: set<Did>, borne: bool, s0: Search, s: Search) {
    && (forall d :: d in s.visited ==> Reaches(log, seeds, d))
    && (forall d :: d in seeds && d != "" ==> d in s.visited)
    && (forall d :: d in s.frontier ==> d in s.visited)
    && s.controllers == s0.controllers + s.visited
    && (forall j :: j in s.jtis ==> j in s0.jtis || JtiFalls(log, seeds, borne, j))
    && (forall r :: r in s.rows ==> TellsOf(log, seeds, borne, r))
  }

  /** The row is that of a token that falls. */
  ghost predicate TellsOf(log: seq<Row>, seeds: set<Did>, borne: bool, r: Row) {
    exists ev :: ev in log && Falls(log, seeds, borne, ev) && r == RowOf(ev)
  }

  predicate Bears(seeds: set<Did>, borne: bool, x: Did) { borne && x in seeds }

  /** A DID met and no longer waiting has been dealt with. */
  ghost predicate Settled(log: seq<Row>, seeds: set<Did>, borne: bool, s: Search, x: Did) {
    forall i :: 0 <= i < |log| && Under(log[i], x, Bears(seeds, borne, x)) ==>
      log[i].jti.value in s.jtis && (log[i].bearer == "" || log[i].bearer in s.visited)
  }

  ghost predicate AllSettled(log: seq<Row>, seeds: set<Did>, borne: bool, s: Search) {
    forall x :: x in s.visited && x !in s.frontier ==> Settled(log, seeds, borne, s, x)
  }

  lemma UnderFalls(log: seq<Row>, seeds: set<Did>, borne: bool, x: Did, ev: Row)
    requires ev in log && Reaches(log, seeds, x) && x != "" && Under(ev, x, Bears(seeds, borne, x))
    ensures Falls(log, seeds, borne, ev)
    ensures ev.bearer != "" ==> Reaches(log, seeds, ev.bearer)
  {
    if ev.controller == x && ev.bearer != "" {
      assert Edge(log, x, ev.bearer);
      StepReached(log, seeds, x, ev.bearer);
    }
  }

  lemma ReachedNamed(log: seq<Row>, seeds: set<Did>, d: Did)
    requires Reaches(log, seeds, d)
    ensures d != ""
  {
    var path :| IsPath(log, seeds, path) && path[|path| - 1] == d;
    if |path| > 1 { assert Edge(log, path[|path| - 2], path[|path| - 1]); }
  }

  lemma VisitSound(log: seq<Row>, seeds: set<Did>, borne: bool, s0: Search, s: Search, x: Did, t: Search)
    requires Sound(log, seeds, borne, s0, s) && x in s.visited
    requires Visited(log, |log|, x, Bears(seeds, borne, x), s, t)
    ensures Sound(log, seeds, borne, s0, t)
  {
    var bears := Bears(seeds, borne, x);
    ReachedNamed(log, seeds, x);
    forall d | d in t.visited
      ensures Reaches(log, seeds, d)
    {
      if d !in s.visited {
        var i :| 0 <= i < |log| && Under(log[i], x, bears) && log[i].bearer == d;
        UnderFalls(log, seeds, borne, x, log[i]);
      }
    }
    forall j | j in t.jtis
      ensures j in s0.jtis || JtiFalls(log, seeds, borne, j)
    {
      if j !in s.jtis {
        var i :| 0 <= i < |log| && Under(log[i], x, bears) && log[i].jti == Some(j);
        UnderFalls(log, seeds, borne, x, log[i]);
        assert log[i] in log;
      }
    }
    forall r | r in t.rows
      ensures TellsOf(log, seeds, borne, r)
    {
      if r !in s.rows {
        var i :| 0 <= i < |log| && Under(log[i], x, bears) && r == RowOf(log[i]);
        UnderFalls(log, seeds, borne, x, log[i]);
        assert log[i] in log;
      }
    }
  }

  lemma VisitSettles(log: seq<Row>, seeds: set<Did>, borne: bool, s: Search, x: Did, t: Search)
    requires Visited(log, |log|, x, Bears(seeds, borne, x), s, t)
    requires forall y :: y in s.visited && y !in s.frontier && y != x ==> Settled(log, seeds, borne, s, y)
    ensures AllSettled(log, seeds, borne, t)
  {
    forall y | y in t.visited && y !in t.frontier
      ensures Settled(log, seeds, borne, t, y)
    {
      if y != x { assert Settled(log, seeds, borne, s, y); }
    }
  }

  /** Once nothing waits, everything reached was met and every token that falls was revoked. */
  lemma SearchComplete(log: seq<Row>, seeds: set<Did>, borne: bool, s0: Search, s: Search)
    requires Sound(log, seeds, borne, s0, s) && AllSettled(log, seeds, borne, s)
    requires s.frontier == [] && s0.jtis <= s.jtis
    ensures forall d :: d in s.visited <==> Reaches(log, seeds, d)
    ensures forall j :: j in s.jtis <==> j in s0.jtis || JtiFalls(log, seeds, borne, j)
  {
    assert Closed(log, s.visited) by {
      forall a, b | a in s.visited && Edge(log, a, b)
        ensures b in s.visited
      {
        var ev :| ev in log && Token(ev) && ev.controller == a && ev.bearer == b;
        var i :| 0 <= i < |log| && log[i] == ev;
        assert Settled(log, seeds, borne, s, a) && Under(log[i], a, Bears(seeds, borne, a));
      }
    }
    forall d | Reaches(log, seeds, d)
      ensures d in s.visited
    {
      var path :| IsPath(log, seeds, path) && path[|path| - 1] == d;
      PathInside(log, seeds, path, s.visited);
    }
    forall j | JtiFalls(log, seeds, borne, j)
      ensures j in s.jtis
    {
      var ev :| ev in log && Falls(log, seeds, borne, ev) && ev.jti == Some(j);
      var i :| 0 <= i < |log| && log[i] == ev;
      var x := if Reaches(log, seeds, ev.controller) then ev.controller else ev.bearer;
      assert Settled(log, seeds, borne, s, x) && Under(log[i], x, Bears(seeds, borne, x));
    }
  }
}
