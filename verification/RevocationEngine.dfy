// The engine's revocation state: what it holds in memory, what it writes to the
// audit log, and how a restart rebuilds the one from the other.
module RevocationEngine {
  import opened Encoding
  import opened Revocation

  datatype State = State(log: seq<Row>, jtis: set<string>, controllers: set<Did>, bearers: set<Did>)

  function SetOf(s: seq<Did>): set<Did> { set d | d in s }

  /** What a cascade from `seeds` makes of the state. */
  ghost predicate Cascaded(s: State, seeds: set<Did>, borne: bool, t: State) {
    && (forall d :: d in t.controllers <==> d in s.controllers || Reaches(s.log, seeds, d))
    && (forall j :: j in t.jtis <==> j in s.jtis || JtiFalls(s.log, seeds, borne, j))
    && t.bearers == s.bearers
    && s.log <= t.log && Accounted(t.jtis - s.jtis, t.log[|s.log|..])
    && (forall r :: r in t.log[|s.log|..] ==> TellsOf(s.log, seeds, borne, r))
  }

  /** Whose token it was, by its latest issuance; unknown tokens are nobody's. */
  function Lookup(log: seq<Row>, jti: string): (Did, Did) {
    if log == [] then ("", "") else
    var last := log[|log| - 1];
    if last.kind.Issued? && last.jti == Some(jti) then (last.bearer, last.controller) else Lookup(log[..|log| - 1], jti)
  }

  // ---- What the log says was revoked ----

  predicate Withdraws(r: Row) { (r.kind.Revoked? || r.kind.TokenRevoked?) && r.jti.Some? }

  predicate RevokesIdentity(r: Row) { r.kind.Revoked? && r.jti.None? && r.controller != "" }

  function LoggedJtis(log: seq<Row>): set<string> { set r | r in log && Withdraws(r) :: r.jti.value }

  function Seeds(log: seq<Row>): set<Did> {
    (set r | r in log && r.kind.Revoked? && r.bearer != "" :: r.bearer)
    + set r | r in log && RevokesIdentity(r) :: r.controller
  }

  function LoggedBearers(log: seq<Row>): set<Did> {
    set r | r in log && RevokesIdentity(r) && r.bearer == r.controller :: r.controller
  }

  /** What a restart reads back before it cascades again. */
  function Replayed(log: seq<Row>): State { State(log, LoggedJtis(log), Seeds(log), LoggedBearers(log)) }

  // ---- Steps ----

  datatype Step =
    | Issue(bearer: Did, controller: Did, jti: string)
    | Note(row: Row)
    | RevokeToken(jti: string)
    | Revoke(jti: string)
    | RevokeDid(did: Did)
    | Restart

  function Append(s: State, r: Row): State { s.(log := s.log + [r]) }

  /** The revocation itself, before it cascades. */
  function Marked(s: State, jti: string): State {
    var (b, c) := Lookup(s.log, jti);
    Append(s.(jtis := s.jtis + {jti}), Row(b, c, Some(jti), Revoked))
  }

  function MarkedDid(s: State, did: Did): State {
    Append(s.(bearers := s.bearers + {did}), Row(did, did, None, Revoked))
  }

  ghost predicate Next(s: State, step: Step, t: State) {
    match step
    case Issue(b, c, j) => t == Append(s, Row(b, c, Some(j), Issued))
    case Note(r) => r.kind.Other? && t == Append(s, r)
    case RevokeToken(j) =>
      var (b, c) := Lookup(s.log, j);
      t == Append(s.(jtis := s.jtis + {j}), Row(b, c, Some(j), TokenRevoked))
    case Revoke(j) =>
      var b := Lookup(s.log, j).0;
      if b == "" then t == Marked(s, j) else Cascaded(Marked(s, j), {b}, false, t)
    case RevokeDid(d) => if d == "" then t == s else Cascaded(MarkedDid(s, d), {d}, true, t)
    case Restart => Cascaded(Replayed(s.log), Seeds(s.log), false, t)
  }

  /** The engine refuses a token with this id, controller and bearer. */
  predicate Refuses(s: State, jti: string, controller: Did, sub: Did) {
    jti in s.jtis || controller in s.controllers || sub in s.bearers
  }

  // ---- The engine ----

  lemma ReplayMore(log: seq<Row>, n: nat)
    requires n < |log|
    ensures var a, b, r := log[..n], log[..n + 1], log[n];
      && LoggedJtis(b) == LoggedJtis(a) + (if Withdraws(r) then {r.jti.value} else {})
      && Seeds(b) == Seeds(a) + (if r.kind.Revoked? && r.bearer != "" then {r.bearer} else {})
                     + (if RevokesIdentity(r) then {r.controller} else {})
      && LoggedBearers(b) == LoggedBearers(a)
                             + if RevokesIdentity(r) && r.bearer == r.controller then {r.controller} else {}
  {
    assert log[..n + 1] == log[..n] + [log[n]];
    assert forall r :: r in log[..n + 1] <==> r in log[..n] || r == log[n];
  }

  class Engine {
    var log: seq<Row>
    var jtis: set<string>
    var controllers: set<Did>
    var bearers: set<Did>

    ghost function Now(): State
      reads this
    {
      State(log, jtis, controllers, bearers)
    }

    /** A node's engine over the log an earlier one left. */
    constructor (stored: seq<Row>)
      ensures Next(State(stored, {}, {}, {}), Restart, Now())
    {
      log, jtis, controllers, bearers := stored, {}, {}, {};
      new;
      Hydrate();
    }

    method Hydrate()
      requires jtis == {} && controllers == {} && bearers == {}
      modifies this
      ensures Next(old(Now()), Restart, Now())
    {
      var seeds;
      jtis, controllers, bearers, seeds := ReadBack(log);
      ghost var s := Now();
      assert s == Replayed(old(log));
      if seeds != [] {
        var _ := Cascade(seeds, false);
        assert Cascaded(s, Seeds(old(log)), false, Now());
      } else {
        assert Seeds(old(log)) == {};
        NoSeeds(s, false);
      }
    }

    /** Revoke everything that falls with `seeds`, and say how many tokens that was. */
    method Cascade(seeds: seq<Did>, borne: bool) returns (count: nat)
      modifies this
      ensures Cascaded(old(Now()), SetOf(seeds), borne, Now())
      ensures count == |jtis - old(jtis)|
    {
      var found := Expand(log, seeds, borne, jtis, controllers);
      count := |found.rows|;
      controllers, jtis := found.controllers, found.jtis;
      log := log + found.rows;
    }

    /** Whether a token with these claims is refused as revoked, looked up in the order the engine does. */
    method IsRevoked(jti: string, controller: Did, sub: Did) returns (refused: bool)
      ensures refused <==> Refuses(Now(), jti, controller, sub)
    {
      if jti in jtis { return true; }
      if controller in controllers { return true; }
      return sub in bearers;
    }

    method IssueToken(bearer: Did, controller: Did, jti: string)
      modifies this`log
      ensures Next(old(Now()), Step.Issue(bearer, controller, jti), Now())
    {
      log := log + [Row(bearer, controller, Some(jti), Issued)];
    }

    method WithdrawToken(jti: string)
      modifies this
      ensures Next(old(Now()), Step.RevokeToken(jti), Now())
    {
      var (b, c) := Lookup(log, jti);
      jtis := jtis + {jti};
      log := log + [Row(b, c, Some(jti), TokenRevoked)];
    }

    method RevokeJti(jti: string)
      modifies this
      ensures Next(old(Now()), Step.Revoke(jti), Now())
    {
      var (b, c) := Lookup(log, jti);
      jtis := jtis + {jti};
      log := log + [Row(b, c, Some(jti), Revoked)];
      if b != "" {
        var _ := Cascade([b], false);
        assert SetOf([b]) == {b};
      }
    }

    method RevokeIdentity(did: Did) returns (count: Option<nat>)
      modifies this
      ensures Next(old(Now()), Step.RevokeDid(did), Now())
      ensures count == if did == "" then None else Some(|jtis - old(jtis)|)
    {
      if did == "" { return None; }
      bearers := bearers + {did};
      log := log + [Row(did, did, None, Revoked)];
      var n := Cascade([did], true);
      assert SetOf([did]) == {did};
      return Some(n);
    }
  }

  /** What the log says was revoked, row by row. */
  method ReadBack(log: seq<Row>) returns (jtis: set<string>, controllers: set<Did>, bearers: set<Did>, seeds: seq<Did>)
    ensures State(log, jtis, controllers, bearers) == Replayed(log)
    ensures SetOf(seeds) == Seeds(log)
  {
    jtis, controllers, bearers, seeds := {}, {}, {}, [];
    for n := 0 to |log|
      invariant jtis == LoggedJtis(log[..n]) && bearers == LoggedBearers(log[..n])
      invariant controllers == Seeds(log[..n]) == SetOf(seeds)
    {
      ReplayMore(log, n);
      var ev := log[n];
      if ev.kind.TokenRevoked? && ev.jti.Some? {
        jtis := jtis + {ev.jti.value};
      } else if ev.kind.Revoked? {
        if ev.jti.Some? { jtis := jtis + {ev.jti.value}; }
        if ev.bearer != "" {
          SetOfMore(seeds, ev.bearer);
          controllers, seeds := controllers + {ev.bearer}, seeds + [ev.bearer];
        }
        if ev.jti.None? && ev.controller != "" {
          SetOfMore(seeds, ev.controller);
          controllers, seeds := controllers + {ev.controller}, seeds + [ev.controller];
          if ev.bearer == ev.controller { bearers := bearers + {ev.controller}; }
        }
      }
    }
    assert log[..|log|] == log;
  }

  lemma SetOfMore(s: seq<Did>, d: Did)
    ensures SetOf(s + [d]) == SetOf(s) + {d}
  {
  }

  lemma NoSeeds(s: State, borne: bool)
    ensures Cascaded(s, {}, borne, s)
  {
    assert s.jtis - s.jtis == {};
  }

  /** Queue the seeds, each once. */
  method Enqueue(seeds: seq<Did>, jtis: set<string>, controllers: set<Did>) returns (s: Search)
    ensures s.jtis == jtis && s.rows == [] && s.controllers == controllers + s.visited
    ensures forall d :: d in s.visited <==> d in SetOf(seeds) && d != ""
    ensures forall d :: d in s.frontier <==> d in s.visited
  {
    s := Search({}, [], controllers, jtis, []);
    for n := 0 to |seeds|
      invariant s.jtis == jtis && s.rows == [] && s.controllers == controllers + s.visited
      invariant forall d :: d in s.visited <==> d in seeds[..n] && d != ""
      invariant forall d :: d in s.frontier <==> d in s.visited
    {
      var d := seeds[n];
      assert seeds[..n + 1] == seeds[..n] + [d];
      if d != "" {
        s := s.(controllers := s.controllers + {d});
        if d !in s.visited { s := s.(visited := s.visited + {d}, frontier := s.frontier + [d]); }
      }
    }
    assert seeds[..|seeds|] == seeds;
  }

  lemma Enqueued(log: seq<Row>, from: set<Did>, borne: bool, s0: Search, s: Search)
    requires s.jtis == s0.jtis && s.rows == [] && s.controllers == s0.controllers + s.visited
    requires forall d :: d in s.visited <==> d in from && d != ""
    requires forall d :: d in s.frontier <==> d in s.visited
    ensures Searching(log, from, borne, s0, s)
  {
    forall d | d in s.visited
      ensures Reaches(log, from, d)
    {
      SeedReached(log, from, d);
    }
    assert s.jtis - s0.jtis == {};
  }

  /** What every turn of the search keeps. */
  ghost predicate Searching(log: seq<Row>, from: set<Did>, borne: bool, s0: Search, s: Search) {
    Sound(log, from, borne, s0, s) && AllSettled(log, from, borne, s) && Booked(s0, s)
  }

  ghost predicate Booked(s0: Search, s: Search) {
    s0.jtis <= s.jtis && Accounted(s.jtis - s0.jtis, s.rows)
  }

  function Pop(s: Search): Search
    requires s.frontier != []
  {
    s.(frontier := s.frontier[..|s.frontier| - 1])
  }

  lemma PopKeeps(log: seq<Row>, from: set<Did>, borne: bool, s0: Search, s: Search)
    requires s.frontier != [] && Sound(log, from, borne, s0, s)
    ensures Sound(log, from, borne, s0, Pop(s)) && s.frontier[|s.frontier| - 1] in s.visited
  {
    var x := s.frontier[|s.frontier| - 1];
    assert x in s.frontier;
    assert s.frontier == Pop(s).frontier + [x];
  }

  lemma PopSettled(log: seq<Row>, from: set<Did>, borne: bool, s: Search, y: Did)
    requires s.frontier != [] && AllSettled(log, from, borne, s)
    requires y in s.visited && y !in Pop(s).frontier && y != s.frontier[|s.frontier| - 1]
    ensures Settled(log, from, borne, Pop(s), y)
  {
    assert s.frontier == Pop(s).frontier + [s.frontier[|s.frontier| - 1]];
    assert Settled(log, from, borne, s, y);
  }

  lemma TurnSettles(log: seq<Row>, from: set<Did>, borne: bool, s: Search, x: Did, t: Search)
    requires AllSettled(log, from, borne, s) && s.frontier != [] && x == s.frontier[|s.frontier| - 1]
    requires Visited(log, |log|, x, Bears(from, borne, x), Pop(s), t)
    ensures AllSettled(log, from, borne, t)
  {
    var p := Pop(s);
    forall y | y in p.visited && y !in p.frontier && y != x
      ensures Settled(log, from, borne, p, y)
    {
      PopSettled(log, from, borne, s, y);
    }
    VisitSettles(log, from, borne, p, x, t);
  }

  lemma Turn(log: seq<Row>, from: set<Did>, borne: bool, s0: Search, s: Search, x: Did, t: Search)
    requires Searching(log, from, borne, s0, s) && s.frontier != [] && x == s.frontier[|s.frontier| - 1]
    requires Visited(log, |log|, x, Bears(from, borne, x), Pop(s), t) && Booked(s0, t)
    ensures Searching(log, from, borne, s0, t)
  {
    PopKeeps(log, from, borne, s0, s);
    VisitSound(log, from, borne, s0, Pop(s), x, t);
    TurnSettles(log, from, borne, s, x, t);
  }

  /** The frontier search over the issued tokens. */
  method Expand(log: seq<Row>, seeds: seq<Did>, borne: bool, jtis: set<string>, controllers: set<Did>)
    returns (s: Search)
    ensures forall d :: d in s.controllers <==> d in controllers || Reaches(log, SetOf(seeds), d)
    ensures forall j :: j in s.jtis <==> j in jtis || JtiFalls(log, SetOf(seeds), borne, j)
    ensures jtis <= s.jtis && Accounted(s.jtis - jtis, s.rows)
    ensures forall r :: r in s.rows ==> TellsOf(log, SetOf(seeds), borne, r)
  {
    ghost var from := SetOf(seeds);
    ghost var s0 := Search({}, [], controllers, jtis, []);
    ghost var all := from + set ev | ev in log :: ev.bearer;
    s := Enqueue(seeds, jtis, controllers);
    Enqueued(log, from, borne, s0, s);
    while s.frontier != []
      invariant Searching(log, from, borne, s0, s)
      invariant s.visited <= all
      decreases |all - s.visited|, |s.frontier|
    {
      var x := s.frontier[|s.frontier| - 1];
      var t := Visit(log, jtis, x, borne && x in seeds, Pop(s));
      Turn(log, from, borne, s0, s, x, t);
      Shrinks(log, x, borne && x in seeds, Pop(s), t, all);
      s := t;
    }
    SearchComplete(log, from, borne, s0, s);
  }

  /** A visit that meets nobody new leaves the queue shorter; one that does leaves fewer to meet. */
  lemma Shrinks(log: seq<Row>, x: Did, bears: bool, s: Search, t: Search, all: set<Did>)
    requires Visited(log, |log|, x, bears, s, t) && s.visited <= all && (forall ev :: ev in log ==> ev.bearer in all)
    ensures t.visited <= all
    ensures |all - t.visited| < |all - s.visited| || (t.visited == s.visited && t.frontier == s.frontier)
  {
    if t.visited != s.visited {
      var d :| d in t.visited && d !in s.visited;
      assert all - t.visited <= (all - s.visited) - {d};
      assert (all - s.visited) == ((all - s.visited) - {d}) + {d};
      assert (all - s.visited) - {d} == (all - t.visited) + (((all - s.visited) - {d}) - (all - t.visited));
    }
  }
}
