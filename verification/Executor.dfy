/** internal/executor/service.go: the component that owns live database connections.
    The first part is the service as an object; the second is every interleaving of its threads, where the
    atomic steps are the dial outside the lock and the sections under the mutex. */
module Executor {
  import opened Ascii
  import opened Gate
  import opened Guard
  import opened Wrappers

  datatype ResultSet = ResultSet(columns: seq<string>, rows: seq<seq<string>>)

  /** The text of a refusal. */
  function RefusalText(v: Verdict): string {
    match v
    case Accept => ""
    case EmptyQuery => "safety: empty query"
    case Stacked(n) => "safety: stacked statements are not allowed (found " + Itoa(n) + ")"
    case Forbidden(k) => "safety: statement type \"" + k + "\" is not allowed (only SELECT/WITH)"
  }

  function UnknownIdText(id: string): string {
    "executor: unknown connection_id \"" + id + "\""
  }

  /** What a request answers, and the text that reaches the database, if any. `bound` says whether the id is
      registered when the request looks it up; `db` is the database's answer to an executed query. */
  function Served(bound: bool, id: string, query: string, db: Result<ResultSet, string>)
    : (Result<ResultSet, string>, Option<string>)
  {
    if !bound then (Err(UnknownIdText(id)), None)
    else
      match Validate(query, RowCap(0))
      case Err(v) => (Err(RefusalText(v)), None)
      case Ok(safe) => (db, Some(safe))
  }

  /** A request answers with the database's answer exactly if its id is registered and its query is accepted, and only
      then does a text reach the database; otherwise it answers with the reason. */
  lemma ServedExactly(bound: bool, id: string, query: string, db: Result<ResultSet, string>)
    ensures var (answer, reached) := Served(bound, id, query, db);
            (reached.Some? <==> bound && Verdicts(query) == Accept)
            && (reached.Some? ==> answer == db && Validate(query, RowCap(0)) == Ok(reached.value))
            && (!bound ==> answer == Err("executor: unknown connection_id \"" + id + "\""))
            && (bound && Verdicts(query) == EmptyQuery ==> answer == Err("safety: empty query"))
            && (bound && Verdicts(query).Stacked? ==>
                  answer == Err("safety: stacked statements are not allowed (found " + Itoa(Verdicts(query).found) + ")"))
            && (bound && Verdicts(query).Forbidden? ==>
                  answer == Err("safety: statement type \"" + Verdicts(query).keyword
                                + "\" is not allowed (only SELECT/WITH)"))
  {
    hide Verdicts, Strip, HasLimit, WithLimit, Itoa;
  }

  /** An open connection. `closes` counts calls of Close; `executed` is what it was asked to run. */
  class Connector {
    const serial: nat
    var closes: nat
    ghost var executed: seq<string>

    constructor (serial: nat)
      ensures this.serial == serial && closes == 0 && executed == []
    {
      this.serial := serial;
      closes, executed := 0, [];
    }

    method Execute(query: string, db: Result<ResultSet, string>) returns (r: Result<ResultSet, string>)
      modifies `executed
      ensures r == db && executed == old(executed) + [query]
    {
      executed := executed + [query];
      r := db;
    }

    method Close()
      modifies `closes
      ensures closes == old(closes) + 1
    {
      closes := closes + 1;
    }
  }

  class Service {
    var conns: map<string, Connector>

    constructor ()
      ensures conns == map[] && Valid()
    {
      conns := map[];
    }

    /** Registered connectors are open, and no two ids share one. */
    ghost predicate Valid()
      reads this, conns.Values
    {
      (forall id :: id in conns ==> conns[id].closes == 0)
      && (forall a, b :: a in conns && b in conns && conns[a] == conns[b] ==> a == b)
    }

    /** The registered ids and the serials of their connectors. */
    ghost function Slots(): map<string, nat>
      reads this, conns.Values
    {
      map id | id in conns :: conns[id].serial
    }

    /** `dialled` is what `registry.New` returned. */
    method OpenConnection(id: string, dialled: Result<Connector, string>) returns (err: Option<string>)
      requires Valid()
      requires dialled.Ok? ==> dialled.value.closes == 0 && dialled.value !in conns.Values
      modifies this, conns.Values
      ensures Valid()
      ensures id == "" || dialled.Err? ==> err.Some? && conns == old(conns) && unchanged(old(conns.Values))
      ensures id != "" && dialled.Ok? ==>
        err == None && conns == old(conns)[id := dialled.value]
        && Slots() == Installed(old(Slots()), id, dialled.value.serial)
        && (id in old(conns) ==> old(conns)[id].closes == 1)
        && forall k :: k in old(conns) && k != id ==> conns[k].closes == 0
      ensures forall k :: k in old(conns) ==> old(conns)[k].executed == old(conns[k].executed)
    {
      if id == "" {
        return Some("executor: connection_id is required");
      }
      if dialled.Err? {
        return Some(dialled.error);
      }
      if id in conns {
        conns[id].Close();
      }
      conns := conns[id := dialled.value];
      return None;
    }

    /** Unknown ids are a no-op. */
    method CloseConnection(id: string)
      requires Valid()
      modifies this, conns.Values
      ensures Valid()
      ensures conns == old(conns) - {id} && Slots() == Removed(old(Slots()), id)
      ensures id in old(conns) ==> old(conns)[id].closes == 1
      ensures forall k :: k in conns ==> conns[k].closes == 0
      ensures forall k :: k in old(conns) ==> old(conns)[k].executed == old(conns[k].executed)
    {
      if id !in conns {
        return;
      }
      var c := conns[id];
      conns := conns - {id};
      c.Close();
    }

    method Get(id: string) returns (c: Option<Connector>)
      ensures c == if id in conns then Some(conns[id]) else None
    {
      if id !in conns {
        return None;
      }
      return Some(conns[id]);
    }

    /** Validate and execute on one connector; nothing else is asked to run anything. */
    method ValidateAndExecute(id: string, query: string, db: Result<ResultSet, string>)
      returns (r: Result<ResultSet, string>)
      requires Valid()
      modifies conns.Values
      ensures Valid() && conns == old(conns)
      ensures r == Served(id in conns, id, query, db).0
      ensures forall k :: k in conns ==>
        conns[k].executed == old(conns[k].executed)
          + if k == id && Served(true, id, query, db).1.Some? then [Served(true, id, query, db).1.value] else []
    {
      hide Validate;
      var c := Get(id);
      if c.None? {
        return Err(UnknownIdText(id));
      }
      var safe := Validate(query, RowCap(0));
      if safe.Err? {
        return Err(RefusalText(safe.error));
      }
      r := c.value.Execute(safe.value, db);
    }
  }

  // ---- Interleavings ----

  /** What a request thread is in the middle of. A thread that is not listed is idle. */
  datatype Thread =
    | Dialling(id: string)
    | Dialled(id: string, conn: nat)
    | Holding(id: string, conn: nat, query: string)
    | Ready(id: string, conn: nat, query: string, safe: string)

  datatype Run = Run(id: string, conn: nat, query: string, safe: string)

  /** `conns` is the map of the service. Connectors are numbered as they are dialled; `closed` counts the calls of
      Close on each, `log` lists executions, and `bound` every pair that was ever in the map. */
  datatype State = State(conns: map<string, nat>, threads: map<nat, Thread>, dialled: nat,
                         closed: multiset<nat>, log: seq<Run>, bound: set<(string, nat)>)

  datatype Step =
    | StartOpen(t: nat, id: string)
    | DialFails(t: nat)
    | DialSucceeds(t: nat)
    | Install(t: nat)
    | StartRun(t: nat, id: string, query: string)
    | ValidateQuery(t: nat)
    | ExecuteQuery(t: nat)
    | CloseId(id: string)

  const Init: State := State(map[], map[], 0, multiset{}, [], {})

  function Installed(conns: map<string, nat>, id: string, c: nat): map<string, nat> {
    conns[id := c]
  }

  function Removed(conns: map<string, nat>, id: string): map<string, nat> {
    conns - {id}
  }

  /** The connector that registering or closing an id takes out of the map, and closes. */
  function Displaced(conns: map<string, nat>, id: string): multiset<nat> {
    if id in conns then multiset{conns[id]} else multiset{}
  }

  function Idle(s: State, t: nat): map<nat, Thread> {
    s.threads - {t}
  }

  /** One atomic step; a step that the state does not allow changes nothing. */
  function Apply(s: State, step: Step): State {
    match step
    case StartOpen(t, id) =>
      if t !in s.threads && id != "" then s.(threads := s.threads[t := Dialling(id)]) else s
    case DialFails(t) =>
      if t in s.threads && s.threads[t].Dialling? then s.(threads := Idle(s, t)) else s
    case DialSucceeds(t) =>
      if t in s.threads && s.threads[t].Dialling?
      then s.(threads := s.threads[t := Dialled(s.threads[t].id, s.dialled)], dialled := s.dialled + 1) else s
    case Install(t) =>
      if t in s.threads && s.threads[t].Dialled? then
        var th := s.threads[t];
        s.(conns := Installed(s.conns, th.id, th.conn), threads := Idle(s, t),
           closed := s.closed + Displaced(s.conns, th.id), bound := s.bound + {(th.id, th.conn)})
      else s
    case StartRun(t, id, query) =>
      if t !in s.threads && id in s.conns
      then s.(threads := s.threads[t := Holding(id, s.conns[id], query)]) else s
    case ValidateQuery(t) =>
      if t in s.threads && s.threads[t].Holding? then
        var th := s.threads[t];
        match Validate(th.query, RowCap(0))
        case Ok(safe) => s.(threads := s.threads[t := Ready(th.id, th.conn, th.query, safe)])
        case Err(_) => s.(threads := Idle(s, t))
      else s
    case ExecuteQuery(t) =>
      if t in s.threads && s.threads[t].Ready? then
        var th := s.threads[t];
        s.(threads := Idle(s, t), log := s.log + [Run(th.id, th.conn, th.query, th.safe)])
      else s
    case CloseId(id) =>
      s.(conns := Removed(s.conns, id), closed := s.closed + Displaced(s.conns, id))
  }

  /** The state after a schedule. */
  function After(steps: seq<Step>): State {
    if steps == [] then Init else Apply(After(steps[..|steps| - 1]), steps[|steps| - 1])
  }

  // ---- Who owns a connector ----

  predicate InFlight(th: Thread, c: nat) {
    th.Dialled? && th.conn == c
  }

  /** The threads that dialled the connector and have not registered it yet. */
  function Holders(threads: map<nat, Thread>, c: nat): set<nat> {
    set t | t in threads && InFlight(threads[t], c)
  }

  /** The ids the connector is registered under. */
  function Under(conns: map<string, nat>, c: nat): set<string> {
    set id | id in conns && conns[id] == c
  }

  /** A connector that was dialled is in flight in one thread, or registered under one id, or was closed once:
      exactly one of these. One that was not dialled is nowhere. */
  ghost predicate OwnedOnce(s: State, c: nat) {
    |Holders(s.threads, c)| + |Under(s.conns, c)| + s.closed[c] == if c < s.dialled then 1 else 0
  }

  ghost predicate Owned(s: State) {
    forall c: nat :: OwnedOnce(s, c)
  }

  /** A thread that moves to another state takes its connector out of flight, or puts one there. */
  lemma HoldersAfter(threads: map<nat, Thread>, t: nat, th: Thread, c: nat)
    ensures var was := t in threads && InFlight(threads[t], c);
            |Holders(threads[t := th], c)|
            == |Holders(threads, c)| - (if was then 1 else 0) + (if InFlight(th, c) then 1 else 0)
  {
    var h := Holders(threads, c);
    assert Holders(threads[t := th], c) == h - {t} + if InFlight(th, c) then {t} else {};
  }

  lemma HoldersIdle(threads: map<nat, Thread>, t: nat, c: nat)
    ensures var was := t in threads && InFlight(threads[t], c);
            |Holders(threads - {t}, c)| == |Holders(threads, c)| - if was then 1 else 0
  {
    assert Holders(threads - {t}, c) == Holders(threads, c) - {t};
  }

  lemma UnderAfter(conns: map<string, nat>, id: string, d: nat, c: nat)
    ensures |Under(Installed(conns, id, d), c)|
            == |Under(conns, c)| - Displaced(conns, id)[c] + if d == c then 1 else 0
    ensures Displaced(conns, id)[c] <= |Under(conns, c)|
  {
    var u := Under(conns, c);
    if d == c {
      assert Under(Installed(conns, id, d), c) == u - {id} + {id};
    } else {
      assert Under(Installed(conns, id, d), c) == u - {id};
    }
  }

  lemma UnderRemoved(conns: map<string, nat>, id: string, c: nat)
    ensures |Under(Removed(conns, id), c)| == |Under(conns, c)| - Displaced(conns, id)[c]
  {
    assert Under(Removed(conns, id), c) == Under(conns, c) - {id};
  }

  lemma StepKeepsOwned(s: State, step: Step, c: nat)
    requires Owned(s)
    ensures OwnedOnce(Apply(s, step), c)
  {
    hide Validate, Holders, Under, Installed, Removed, Displaced;
    assert OwnedOnce(s, c);
    match step
    case StartOpen(t, id) => HoldersAfter(s.threads, t, Dialling(id), c);
    case DialFails(t) => HoldersIdle(s.threads, t, c);
    case DialSucceeds(t) =>
      if t in s.threads && s.threads[t].Dialling? {
        HoldersAfter(s.threads, t, Dialled(s.threads[t].id, s.dialled), c);
      }
    case Install(t) =>
      if t in s.threads && s.threads[t].Dialled? {
        HoldersIdle(s.threads, t, c);
        UnderAfter(s.conns, s.threads[t].id, s.threads[t].conn, c);
      }
    case StartRun(t, id, query) =>
      if id in s.conns { HoldersAfter(s.threads, t, Holding(id, s.conns[id], query), c); }
    case ValidateQuery(t) =>
      if t in s.threads && s.threads[t].Holding? {
        var th := s.threads[t];
        match Validate(th.query, RowCap(0))
        case Ok(safe) => HoldersAfter(s.threads, t, Ready(th.id, th.conn, th.query, safe), c);
        case Err(_) => HoldersIdle(s.threads, t, c);
      }
    case ExecuteQuery(t) => HoldersIdle(s.threads, t, c);
    case CloseId(id) => UnderRemoved(s.conns, id, c);
  }

  /** Ownership conservation, over every schedule of every number of threads. */
  lemma {:induction false} Ownership(steps: seq<Step>)
    ensures Owned(After(steps))
  {
    if steps == [] {
      forall c: nat ensures OwnedOnce(Init, c) {
        assert Holders(Init.threads, c) == {} && Under(Init.conns, c) == {};
      }
    } else {
      var s := After(steps[..|steps| - 1]);
      Ownership(steps[..|steps| - 1]);
      forall c: nat ensures OwnedOnce(After(steps), c) { StepKeepsOwned(s, steps[|steps| - 1], c); }
    }
  }

  lemma {:induction false} SubsetSize<T>(a: set<T>, b: set<T>)
    requires a <= b
    ensures |a| <= |b|
  {
    assert b == a + (b - a);
  }

  /** So registered connectors are open and pairwise distinct, and no connector is closed twice. */
  lemma RegisteredAreOpen(steps: seq<Step>)
    ensures var s := After(steps);
            (forall id :: id in s.conns ==> s.conns[id] < s.dialled && s.closed[s.conns[id]] == 0)
            && (forall a, b :: a in s.conns && b in s.conns && s.conns[a] == s.conns[b] ==> a == b)
            && (forall c :: s.closed[c] <= 1)
  {
    hide After;
    var s := After(steps);
    Ownership(steps);
    forall c: nat ensures s.closed[c] <= 1 { assert OwnedOnce(s, c); }
    forall a, b | a in s.conns && b in s.conns && s.conns[a] == s.conns[b]
      ensures a == b && s.conns[a] < s.dialled && s.closed[s.conns[a]] == 0
    {
      assert OwnedOnce(s, s.conns[a]);
      SubsetSize({a, b}, Under(s.conns, s.conns[a]));
    }
  }

  /** When no open is in flight, every connector ever dialled is registered under some id or closed: none is lost. */
  lemma NoneLostAtRest(steps: seq<Step>, c: nat)
    requires c < After(steps).dialled
    requires forall t :: t in After(steps).threads ==> !After(steps).threads[t].Dialled?
    ensures var s := After(steps);
            s.closed[c] == 1 <==> forall id :: id in s.conns ==> s.conns[id] != c
  {
    hide After;
    var s := After(steps);
    Ownership(steps);
    assert OwnedOnce(s, c);
    assert Holders(s.threads, c) == {};
    if forall id :: id in s.conns ==> s.conns[id] != c {
      assert Under(s.conns, c) == {};
    } else {
      var id :| id in s.conns && s.conns[id] == c;
      assert id in Under(s.conns, c);
    }
  }

  /** A connector is closed at a step exactly if that step takes it out of the map, and then once: registering over
      an id closes the displaced connector, closing an id its own, and nothing else closes anything. */
  lemma ClosedWhenTakenOut(steps: seq<Step>, step: Step, c: nat)
    ensures var s := After(steps);
            var s' := Apply(s, step);
            var taken := Under(s.conns, c) != {} && Under(s'.conns, c) == {};
            s'.closed[c] == s.closed[c] + if taken then 1 else 0
  {
    hide Validate, After, Holders, Under;
    var s := After(steps);
    Ownership(steps);
    assert OwnedOnce(s, c);
    var u, u' := Under(s.conns, c), Under(Apply(s, step).conns, c);
    assert (|u| == 0 <==> u == {}) && (|u'| == 0 <==> u' == {});
    match step
    case Install(t) =>
      if t in s.threads && s.threads[t].Dialled? {
        var th := s.threads[t];
        UnderAfter(s.conns, th.id, th.conn, c);
        if th.conn == c { HoldersAfter(s.threads, t, Dialling(th.id), c); }
      }
    case CloseId(id) => UnderRemoved(s.conns, id, c);
    case _ =>
  }

  // ---- What is executed, and where ----

  /** A thread that runs a query holds a connector that was bound to its id, and executes only what that id's
      request passed through Validate. */
  ghost predicate Gated(s: State) {
    (forall id :: id in s.conns ==> (id, s.conns[id]) in s.bound)
    && (forall t :: t in s.threads ==>
          match s.threads[t]
          case Holding(id, c, _) => (id, c) in s.bound
          case Ready(id, c, q, safe) => (id, c) in s.bound && Validate(q, RowCap(0)) == Ok(safe)
          case _ => true)
    && (forall r :: r in s.log ==> (r.id, r.conn) in s.bound && Validate(r.query, RowCap(0)) == Ok(r.safe))
  }

  lemma StepKeepsGated(s: State, step: Step)
    requires Gated(s)
    ensures Gated(Apply(s, step))
  {
    hide Validate;
  }

  /** Over every schedule, whatever reaches a database is a Validate output: an allowed first keyword and a limit
      token, on a connector that was bound to the id of the request. */
  lemma {:induction false} EveryRunIsGated(steps: seq<Step>)
    ensures Gated(After(steps))
    ensures forall r :: r in After(steps).log ==>
              HasLimit(r.safe) && (ToUpper(FirstWord(r.safe)) == "SELECT" || ToUpper(FirstWord(r.safe)) == "WITH")
  {
    hide HasLimit, ToUpper, FirstWord, Validate, FirstKeyword, Apply;
    if steps != [] {
      EveryRunIsGated(steps[..|steps| - 1]);
      StepKeepsGated(After(steps[..|steps| - 1]), steps[|steps| - 1]);
    }
    forall r | r in After(steps).log
      ensures HasLimit(r.safe) && (ToUpper(FirstWord(r.safe)) == "SELECT" || ToUpper(FirstWord(r.safe)) == "WITH")
    {
      OutputShape(r.query, RowCap(0));
    }
  }

  /** The step belongs to the thread. */
  predicate Moves(step: Step, t: nat) {
    match step
    case StartOpen(u, _) => u == t
    case DialFails(u) => u == t
    case DialSucceeds(u) => u == t
    case Install(u) => u == t
    case StartRun(u, _, _) => u == t
    case ValidateQuery(u) => u == t
    case ExecuteQuery(u) => u == t
    case CloseId(_) => false
  }

  function AfterFrom(s: State, steps: seq<Step>): State {
    if steps == [] then s else Apply(AfterFrom(s, steps[..|steps| - 1]), steps[|steps| - 1])
  }

  lemma {:induction false} Undisturbed(s: State, t: nat, others: seq<Step>)
    requires t in s.threads && forall i :: 0 <= i < |others| ==> !Moves(others[i], t)
    ensures var s' := AfterFrom(s, others);
            t in s'.threads && s'.threads[t] == s.threads[t]
    decreases |others|
  {
    hide Apply, Moves;
    if others != [] {
      var n := |others| - 1;
      Undisturbed(s, t, others[..n]);
      OthersKeep(AfterFrom(s, others[..n]), t, others[n]);
    }
  }

  lemma OthersKeep(s: State, t: nat, step: Step)
    requires t in s.threads && !Moves(step, t)
    ensures t in Apply(s, step).threads && Apply(s, step).threads[t] == s.threads[t]
  {
    hide Validate;
  }

  /** The connector looked up for a request is the one that validates and the one that executes, whatever other
      threads do to the id before validation and before execution; a refused query executes nothing. */
  lemma SameConnector(s: State, t: nat, id: string, query: string, first: seq<Step>, second: seq<Step>)
    requires t !in s.threads && id in s.conns
    requires forall i :: 0 <= i < |first| ==> !Moves(first[i], t)
    requires forall i :: 0 <= i < |second| ==> !Moves(second[i], t)
    ensures var looked := AfterFrom(Apply(s, StartRun(t, id, query)), first);
            var checked := AfterFrom(Apply(looked, ValidateQuery(t)), second);
            match Validate(query, RowCap(0))
            case Ok(safe) =>
              Apply(checked, ExecuteQuery(t)).log == checked.log + [Run(id, s.conns[id], query, safe)]
            case Err(_) =>
              t !in Apply(looked, ValidateQuery(t)).threads && Apply(looked, ValidateQuery(t)).log == looked.log
  {
    hide Validate, AfterFrom, Apply, Moves;
    var start := Apply(s, StartRun(t, id, query));
    var c := s.conns[id];
    StartHolds(s, t, id, query);
    Undisturbed(start, t, first);
    var looked := AfterFrom(start, first);
    ValidateReadies(looked, t, id, c, query);
    if Validate(query, RowCap(0)).Ok? {
      Undisturbed(Apply(looked, ValidateQuery(t)), t, second);
      ExecuteLogs(AfterFrom(Apply(looked, ValidateQuery(t)), second), t);
    }
  }

  lemma StartHolds(s: State, t: nat, id: string, query: string)
    requires t !in s.threads && id in s.conns
    ensures var threads := Apply(s, StartRun(t, id, query)).threads;
            t in threads && threads[t] == Holding(id, s.conns[id], query)
  {}

  lemma ValidateReadies(s: State, t: nat, id: string, c: nat, query: string)
    requires t in s.threads && s.threads[t] == Holding(id, c, query)
    ensures var s' := Apply(s, ValidateQuery(t));
            match Validate(query, RowCap(0))
            case Ok(safe) => t in s'.threads && s'.threads[t] == Ready(id, c, query, safe)
            case Err(_) => t !in s'.threads && s'.log == s.log
  {
    hide Validate;
  }

  lemma ExecuteLogs(s: State, t: nat)
    requires t in s.threads && s.threads[t].Ready?
    ensures var th := s.threads[t];
            Apply(s, ExecuteQuery(t)).log == s.log + [Run(th.id, th.conn, th.query, th.safe)]
  {}
}
