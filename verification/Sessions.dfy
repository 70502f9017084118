/** internal/session/session.go: the agent's registry, and its agreement with the executor's map.
    Calls to the executor are remote: a call may fail before, after or without its effect on the server, and an
    abandoned call, be it an open, a close or the cleanup of a failed registration, may still take effect later. */
module Sessions {
  import opened SchemaModel
  import opened Wrappers

  // ---- The registry as an object, one caller at a time ----

  /** How a remote call turns out. */
  datatype Outcome =
    | Done
    | Refused
    | ReplyLost

  /** The executor as the registry sees it: the ids that are open there. */
  class ExecutorClient {
    var server: set<string>

    constructor ()
      ensures server == {}
    {
      server := {};
    }

    method OpenConnection(id: string, how: Outcome) returns (ok: bool)
      modifies this
      ensures ok <==> how == Done
      ensures server == old(server) + if how == Refused then {} else {id}
    {
      if how != Refused { server := server + {id}; }
      ok := how == Done;
    }

    method CloseConnection(id: string, how: Outcome) returns (ok: bool)
      modifies this
      ensures ok <==> how == Done
      ensures server == old(server) - if how == Refused then {} else {id}
    {
      if how != Refused { server := server - {id}; }
      ok := how == Done;
    }
  }

  /** A registered connection, ready for questions. */
  datatype Session = Session(connectionId: string, dialect: string, schema: Schema)

  class Registry {
    const exec: ExecutorClient
    var sessions: map<string, Session>

    constructor (exec: ExecutorClient)
      ensures this.exec == exec && sessions == map[]
    {
      this.exec := exec;
      sessions := map[];
    }

    /** Provider, then a fresh id, then open, introspect, and publish; a failed introspection closes again. A failed
        registration leaves nothing on the server exactly when the open did not take effect without its reply and
        the cleanup was not refused. */
    method Register(id: string, dialect: string, providerOk: bool, open: Outcome, introspected: Option<Schema>,
                    cleanup: Outcome)
      returns (session: Option<Session>)
      requires id !in sessions && id !in exec.server
      modifies this, exec
      ensures session.Some? <==> providerOk && open == Done && introspected.Some?
      ensures session.Some? ==>
        session.value == Session(id, dialect, introspected.value)
        && sessions == old(sessions)[id := session.value] && exec.server == old(exec.server) + {id}
      ensures session.None? ==>
        sessions == old(sessions) && exec.server == old(exec.server) + if id in exec.server then {id} else {}
      ensures session.None? ==>
        (id !in exec.server <==> !providerOk || (open != ReplyLost && !(open == Done && cleanup == Refused)))
    {
      if !providerOk {
        return None;
      }
      var connected := exec.OpenConnection(id, open);
      if !connected {
        return None;
      }
      if introspected.None? {
        var closed := exec.CloseConnection(id, cleanup);
        return None;
      }
      var sess := Session(id, dialect, introspected.value);
      sessions := sessions[id := sess];
      return Some(sess);
    }

    method Get(id: string) returns (found: Option<Session>)
      ensures found == if id in sessions then Some(sessions[id]) else None
    {
      found := if id in sessions then Some(sessions[id]) else None;
    }

    method Close(id: string, how: Outcome) returns (ok: bool)
      modifies this, exec
      ensures ok <==> how == Done
      ensures sessions == old(sessions) - {id}
      ensures exec.server == old(exec.server) - if how == Refused then {} else {id}
    {
      sessions := sessions - {id};
      ok := exec.CloseConnection(id, how);
    }
  }

  // ---- Every interleaving of any number of callers ----

  /** What a caller is in the middle of; a caller that is not listed is idle. */
  datatype Caller =
    | Opening(id: string)
    | Introspecting(id: string)
    | CleaningUp(id: string)
    | Publishing(id: string)
    | Closing(id: string)

  /** `server` and `sessions` are the two maps' keys; `used` and `handed` the ids generated and the ids returned to
      callers; `lateOpens` and `lateCloses` the abandoned calls that may still take effect; `leaked` the ids whose
      connection outlived a call that failed, and has not been closed since. */
  datatype State = State(server: set<string>, sessions: set<string>, callers: map<nat, Caller>,
                         used: set<string>, handed: set<string>,
                         lateOpens: set<string>, lateCloses: set<string>, leaked: set<string>)

  datatype Step =
    | Begin(c: nat, id: string)
    | OpenOk(c: nat)
    | OpenRefused(c: nat)
    | OpenReplyLost(c: nat)
    | OpenAbandoned(c: nat)
    | LateOpen(id: string)
    | IntrospectOk(c: nat)
    | IntrospectFails(c: nat)
    | Cleaned(c: nat)
    | CleanupRefused(c: nat)
    | CleanupAbandoned(c: nat)
    | Publish(c: nat)
    | BeginClose(c: nat, id: string)
    | Closed(c: nat)
    | CloseRefused(c: nat)
    | CloseAbandoned(c: nat)
    | LateClose(id: string)

  const Init: State := State({}, {}, map[], {}, {}, {}, {}, {})

  /** Ids are fresh, and callers close only ids they were handed. */
  predicate Enabled(s: State, step: Step) {
    match step
    case Begin(c, id) => c !in s.callers && id !in s.used
    case OpenOk(c) => c in s.callers && s.callers[c].Opening?
    case OpenRefused(c) => c in s.callers && s.callers[c].Opening?
    case OpenReplyLost(c) => c in s.callers && s.callers[c].Opening?
    case OpenAbandoned(c) => c in s.callers && s.callers[c].Opening?
    case LateOpen(id) => id in s.lateOpens
    case IntrospectOk(c) => c in s.callers && s.callers[c].Introspecting?
    case IntrospectFails(c) => c in s.callers && s.callers[c].Introspecting?
    case Cleaned(c) => c in s.callers && s.callers[c].CleaningUp?
    case CleanupRefused(c) => c in s.callers && s.callers[c].CleaningUp?
    case CleanupAbandoned(c) => c in s.callers && s.callers[c].CleaningUp?
    case Publish(c) => c in s.callers && s.callers[c].Publishing?
    case BeginClose(c, id) => c !in s.callers && id in s.handed
    case Closed(c) => c in s.callers && s.callers[c].Closing?
    case CloseRefused(c) => c in s.callers && s.callers[c].Closing?
    case CloseAbandoned(c) => c in s.callers && s.callers[c].Closing?
    case LateClose(id) => id in s.lateCloses
  }

  function Moved(s: State, c: nat, to: Caller): map<nat, Caller> {
    s.callers[c := to]
  }

  function Next(s: State, step: Step): State
    requires Enabled(s, step)
  {
    match step
    case Begin(c, id) => s.(callers := Moved(s, c, Opening(id)), used := s.used + {id})
    case OpenOk(c) =>
      var id := s.callers[c].id;
      s.(callers := Moved(s, c, Introspecting(id)), server := s.server + {id})
    case OpenRefused(c) => s.(callers := s.callers - {c})
    case OpenReplyLost(c) =>
      var id := s.callers[c].id;
      s.(callers := s.callers - {c}, server := s.server + {id}, leaked := s.leaked + {id})
    case OpenAbandoned(c) => s.(callers := s.callers - {c}, lateOpens := s.lateOpens + {s.callers[c].id})
    case LateOpen(id) =>
      s.(lateOpens := s.lateOpens - {id}, server := s.server + {id}, leaked := s.leaked + {id})
    case IntrospectOk(c) => s.(callers := Moved(s, c, Publishing(s.callers[c].id)))
    case IntrospectFails(c) => s.(callers := Moved(s, c, CleaningUp(s.callers[c].id)))
    case Cleaned(c) => s.(callers := s.callers - {c}, server := s.server - {s.callers[c].id})
    case CleanupRefused(c) => s.(callers := s.callers - {c}, leaked := s.leaked + {s.callers[c].id})
    case CleanupAbandoned(c) => s.(callers := s.callers - {c}, lateCloses := s.lateCloses + {s.callers[c].id})
    case Publish(c) =>
      var id := s.callers[c].id;
      s.(callers := s.callers - {c}, sessions := s.sessions + {id}, handed := s.handed + {id})
    case BeginClose(c, id) => s.(callers := Moved(s, c, Closing(id)), sessions := s.sessions - {id})
    case Closed(c) =>
      var id := s.callers[c].id;
      s.(callers := s.callers - {c}, server := s.server - {id}, leaked := s.leaked - {id})
    case CloseRefused(c) =>
      var id := s.callers[c].id;
      s.(callers := s.callers - {c}, leaked := s.leaked + if id in s.server then {id} else {})
    case CloseAbandoned(c) =>
      s.(callers := s.callers - {c}, lateCloses := s.lateCloses + {s.callers[c].id})
    case LateClose(id) =>
      s.(lateCloses := s.lateCloses - {id}, server := s.server - {id}, leaked := s.leaked - {id})
  }

  /** The state after a schedule; steps that are not enabled are skipped. */
  function After(steps: seq<Step>): State {
    if steps == [] then Init
    else
      var s := After(steps[..|steps| - 1]);
      var step := steps[|steps| - 1];
      if Enabled(s, step) then Next(s, step) else s
  }

  // ---- The invariant ----

  /** Some caller is between a server effect on the id and the end of its call. */
  ghost predicate Busy(s: State, id: string) {
    exists c :: Engaged(s, c, id)
  }

  predicate Concerns(s: State, c: nat, id: string) {
    c in s.callers && s.callers[c].id == id
  }

  predicate Engaged(s: State, c: nat, id: string) {
    Concerns(s, c, id) && !s.callers[c].Opening?
  }

  /** Each id belongs to one registration: at most one caller registers it, and only before it is handed out. */
  ghost predicate Exclusive(s: State) {
    OneRegistrar(s)
    && (forall c :: c in s.callers ==> s.callers[c].id in s.used)
    && (forall c :: c in s.callers && s.callers[c].Closing? ==> s.callers[c].id in s.handed)
    && (forall c :: c in s.callers && !s.callers[c].Closing? ==>
          s.callers[c].id !in s.handed && s.callers[c].id !in s.lateOpens && s.callers[c].id !in s.leaked
          && s.callers[c].id !in s.lateCloses)
    && s.handed <= s.used && s.lateOpens <= s.used && s.leaked <= s.used && s.lateCloses <= s.used
    && s.lateOpens !! s.handed && s.lateOpens !! s.server && s.lateOpens !! s.lateCloses
    && s.leaked * s.lateCloses <= s.handed
  }

  ghost predicate OneRegistrar(s: State) {
    forall c, d :: c in s.callers && d in s.callers && !s.callers[c].Closing? && s.callers[d].id == s.callers[c].id ==> c == d
  }

  /** Where an id stands on the two sides. */
  ghost predicate Consistent(s: State) {
    s.sessions <= s.server && s.sessions <= s.handed && s.server <= s.used
    && s.leaked <= s.server && s.leaked !! s.sessions && s.lateCloses !! s.sessions
    && Placed(s)
  }

  ghost predicate Placed(s: State) {
    forall c :: c in s.callers ==> CallerPlaced(s, s.callers[c])
  }

  /** Where the id of a caller stands. */
  predicate CallerPlaced(s: State, caller: Caller) {
    match caller
    case Opening(id) => id !in s.server
    case Closing(id) => id !in s.sessions
    case _ => caller.id in s.server
  }

  /** Every id on the server is a session, or leaked, or some call on it is under way. */
  ghost predicate Accounted(s: State, id: string) {
    id in s.server ==> id in s.sessions || id in s.leaked || id in s.lateCloses || Busy(s, id)
  }

  lemma NextKeepsExclusive(s: State, step: Step)
    requires Exclusive(s) && Consistent(s) && Enabled(s, step)
    ensures Exclusive(Next(s, step))
  {
    NextKeepsOneRegistrar(s, step);
    hide OneRegistrar;
  }

  lemma NextKeepsOneRegistrar(s: State, step: Step)
    requires Exclusive(s) && Enabled(s, step)
    ensures OneRegistrar(Next(s, step))
  {}

  lemma NextKeepsConsistent(s: State, step: Step)
    requires Exclusive(s) && Consistent(s) && Enabled(s, step)
    ensures Consistent(Next(s, step))
  {
    NextKeepsPlaced(s, step);
    hide OneRegistrar;
  }

  lemma NextKeepsPlaced(s: State, step: Step)
    requires Exclusive(s) && Consistent(s) && Enabled(s, step)
    ensures Placed(Next(s, step))
  {
    var s' := Next(s, step);
    forall d | d in s'.callers ensures CallerPlaced(s', s'.callers[d]) {
      assert d in s.callers ==> CallerPlaced(s, s.callers[d]);
    }
  }

  /** A caller other than the one that moved keeps the id busy. */
  lemma StillBusy(s: State, s': State, id: string, c: nat)
    requires Busy(s, id) && !Concerns(s, c, id)
    requires forall d :: d in s.callers && d != c ==> d in s'.callers && s'.callers[d] == s.callers[d]
    ensures Busy(s', id)
  {
    var d :| Engaged(s, d, id);
    assert Engaged(s', d, id);
  }

  lemma NowBusy(s: State, id: string, c: nat)
    requires Engaged(s, c, id)
    ensures Busy(s, id)
  {}

  /** Every step keeps the account of an id. */
  lemma NextKeepsAccount(s: State, step: Step, id: string)
    requires Exclusive(s) && Consistent(s) && Enabled(s, step) && Accounted(s, id)
    ensures Accounted(Next(s, step), id)
  {
    hide Busy;
    var s' := Next(s, step);
    if step.LateOpen? || step.LateClose? {
      if Busy(s, id) { SameBusy(s, s', id); }
    } else {
      var c := step.c;
      if Engaged(s', c, id) {
        NowBusy(s', id, c);
      } else if Busy(s, id) && !Concerns(s, c, id) {
        StillBusy(s, s', id, c);
      }
    }
  }

  lemma SameBusy(s: State, s': State, id: string)
    requires Busy(s, id) && s'.callers == s.callers
    ensures Busy(s', id)
  {
    var d :| Engaged(s, d, id);
    assert Engaged(s', d, id);
  }

  /** Over every schedule, each id is exclusive, consistent on both sides, and accounted for. */
  lemma {:induction false} Invariant(steps: seq<Step>)
    ensures var s := After(steps);
            Exclusive(s) && Consistent(s) && forall id :: Accounted(s, id)
  {
    hide Exclusive, Consistent, Accounted;
    if steps == [] {
      InitHolds();
    } else {
      var s := After(steps[..|steps| - 1]);
      var step := steps[|steps| - 1];
      Invariant(steps[..|steps| - 1]);
      if Enabled(s, step) {
        NextKeepsExclusive(s, step);
        NextKeepsConsistent(s, step);
        forall id ensures Accounted(Next(s, step), id) { NextKeepsAccount(s, step, id); }
      }
    }
  }

  lemma InitHolds()
    ensures Exclusive(Init) && Consistent(Init) && forall id :: Accounted(Init, id)
  {}

  /** Over every schedule: a session the registry knows has its connection on the server. */
  lemma SessionsHaveConnections(steps: seq<Step>)
    ensures After(steps).sessions <= After(steps).server
  {
    Invariant(steps);
  }

  ghost predicate Quiet(s: State) {
    s.callers == map[] && s.lateOpens == {} && s.lateCloses == {}
  }

  /** At rest the server holds the connections of the sessions and the leaked ones, and nothing else. */
  lemma ServerAtRest(steps: seq<Step>)
    requires Quiet(After(steps))
    ensures var s := After(steps); s.server == s.sessions + s.leaked && s.sessions !! s.leaked
  {
    hide After;
    Invariant(steps);
    var s := After(steps);
    forall id | id in s.server ensures id in s.sessions + s.leaked { assert Accounted(s, id); }
  }

  // ---- Which schedules leave a connection behind ----

  /** The step happens, and a call that failed leaves the connection of the id on the server. */
  predicate Leaves(s: State, step: Step, id: string) {
    Enabled(s, step)
    && match step
       case OpenReplyLost(c) => s.callers[c].id == id
       case LateOpen(late) => late == id
       case CleanupRefused(c) => s.callers[c].id == id
       case CloseRefused(c) => s.callers[c].id == id && id in s.server
       case _ => false
  }

  /** The step happens, and a close of the id takes effect. */
  predicate TakesDown(s: State, step: Step, id: string) {
    Enabled(s, step)
    && match step
       case Closed(c) => s.callers[c].id == id
       case LateClose(late) => late == id
       case _ => false
  }

  predicate LeavesAt(steps: seq<Step>, i: nat, id: string)
    requires i < |steps|
  {
    Leaves(After(steps[..i]), steps[i], id)
  }

  predicate TakesDownAt(steps: seq<Step>, i: nat, id: string)
    requires i < |steps|
  {
    TakesDown(After(steps[..i]), steps[i], id)
  }

  /** A later close of the id takes effect. */
  ghost predicate MadeUp(steps: seq<Step>, i: nat, id: string) {
    exists j :: i < j < |steps| && TakesDownAt(steps, j, id)
  }

  ghost predicate LeftFor(steps: seq<Step>, i: nat, id: string)
    requires i < |steps|
  {
    LeavesAt(steps, i, id) && !MadeUp(steps, i, id)
  }

  ghost predicate LeftBehind(steps: seq<Step>, id: string) {
    exists i :: 0 <= i < |steps| && LeftFor(steps, i, id)
  }

  lemma PrefixSame(steps: seq<Step>, i: nat, id: string)
    requires i < |steps| - 1
    ensures var prev := steps[..|steps| - 1];
            LeavesAt(steps, i, id) == LeavesAt(prev, i, id) && TakesDownAt(steps, i, id) == TakesDownAt(prev, i, id)
  {
    assert steps[..|steps| - 1][..i] == steps[..i];
  }

  lemma MadeUpStep(steps: seq<Step>, i: nat, id: string)
    requires i < |steps| - 1
    ensures MadeUp(steps, i, id) <==> MadeUp(steps[..|steps| - 1], i, id) || TakesDownAt(steps, |steps| - 1, id)
  {
    hide LeavesAt, TakesDownAt;
    var n := |steps| - 1;
    var prev := steps[..n];
    if MadeUp(prev, i, id) {
      var j :| i < j < |prev| && TakesDownAt(prev, j, id);
      PrefixSame(steps, j, id);
    }
    if MadeUp(steps, i, id) {
      var j :| i < j < |steps| && TakesDownAt(steps, j, id);
      if j < n { PrefixSame(steps, j, id); }
    }
  }

  lemma LeftForStep(steps: seq<Step>, i: nat, id: string)
    requires i < |steps| - 1
    ensures LeftFor(steps, i, id) <==> LeftFor(steps[..|steps| - 1], i, id) && !TakesDownAt(steps, |steps| - 1, id)
  {
    hide LeavesAt, TakesDownAt, MadeUp;
    PrefixSame(steps, i, id);
    MadeUpStep(steps, i, id);
  }

  lemma LeftForLast(steps: seq<Step>, id: string)
    requires steps != []
    ensures LeftFor(steps, |steps| - 1, id) <==> LeavesAt(steps, |steps| - 1, id)
  {
    hide LeavesAt, TakesDownAt;
  }

  /** Left behind after one more step: by that step, or before it and still. */
  lemma LeftBehindStep(steps: seq<Step>, id: string)
    requires steps != []
    ensures var n := |steps| - 1;
            LeftBehind(steps, id) <==>
              LeavesAt(steps, n, id) || (LeftBehind(steps[..n], id) && !TakesDownAt(steps, n, id))
  {
    hide LeavesAt, TakesDownAt, LeftFor;
    var n := |steps| - 1;
    var prev := steps[..n];
    LeftForLast(steps, id);
    if LeftBehind(prev, id) && !TakesDownAt(steps, n, id) {
      var i :| 0 <= i < |prev| && LeftFor(prev, i, id);
      LeftForStep(steps, i, id);
    }
    if LeftBehind(steps, id) {
      var i :| 0 <= i < |steps| && LeftFor(steps, i, id);
      if i < n { LeftForStep(steps, i, id); }
    }
  }

  /** What one step does to the ids that outlived a failed call. */
  lemma LeakedStep(s: State, step: Step, id: string)
    requires Enabled(s, step)
    ensures id in Next(s, step).leaked <==> Leaves(s, step, id) || (id in s.leaked && !TakesDown(s, step, id))
  {}

  /** The ids that outlived a failed call are those the schedule left behind. */
  lemma {:induction false} LeakedExactly(steps: seq<Step>, id: string)
    ensures id in After(steps).leaked <==> LeftBehind(steps, id)
  {
    hide LeftBehind, Leaves, TakesDown, Next;
    if steps == [] {
      NothingLeftYet(id);
    } else {
      var n := |steps| - 1;
      LeakedExactly(steps[..n], id);
      LeftBehindStep(steps, id);
      if Enabled(After(steps[..n]), steps[n]) {
        LeakedStep(After(steps[..n]), steps[n], id);
      } else {
        SkippedStep(After(steps[..n]), steps[n], id);
      }
    }
  }

  lemma NothingLeftYet(id: string)
    ensures !LeftBehind([], id) && id !in Init.leaked
  {}

  lemma SkippedStep(s: State, step: Step, id: string)
    requires !Enabled(s, step)
    ensures !Leaves(s, step, id) && !TakesDown(s, step, id)
  {}

  /** The id leaked without ever being handed out: nobody can close it. */
  predicate Orphan(s: State, id: string) {
    id in s.leaked && id !in s.handed
  }

  predicate Orphans(step: Step) {
    step.OpenReplyLost? || step.LateOpen? || step.CleanupRefused?
  }

  lemma OrphansOne(s: State, step: Step, id: string)
    requires Exclusive(s) && Leaves(s, step, id) && Orphans(step)
    ensures Orphan(Next(s, step), id)
  {}

  lemma OrphanStays(s: State, step: Step, id: string)
    requires Exclusive(s) && Enabled(s, step) && Orphan(s, id)
    ensures Orphan(Next(s, step), id)
  {}

  lemma {:induction false} OrphanForever(steps: seq<Step>, i: nat, id: string)
    requires i < |steps| && LeavesAt(steps, i, id) && Orphans(steps[i])
    ensures Orphan(After(steps), id)
    decreases |steps|
  {
    hide Exclusive, Consistent, Accounted, Orphan, Leaves, Next, Enabled;
    var n := |steps| - 1;
    var s := After(steps[..n]);
    Invariant(steps[..n]);
    LeavesHappens(After(steps[..i]), steps[i], id);
    if i == n {
      OrphansOne(s, steps[n], id);
    } else {
      PrefixSame(steps, i, id);
      OrphanForever(steps[..n], i, id);
      if Enabled(s, steps[n]) { OrphanStays(s, steps[n], id); }
    }
  }

  lemma LeavesHappens(s: State, step: Step, id: string)
    requires Leaves(s, step, id)
    ensures Enabled(s, step)
  {}

  /** No registration loses its connection: no open takes effect unseen, and no cleanup is refused. */
  predicate NoOrphans(steps: seq<Step>) {
    forall i :: 0 <= i < |steps| && HappensAt(steps, i) ==> !Orphans(steps[i])
  }

  predicate HappensAt(steps: seq<Step>, i: nat)
    requires i < |steps|
  {
    Enabled(After(steps[..i]), steps[i])
  }

  /** Every refused close of an id that is on the server is followed by a close of it that takes effect. */
  ghost predicate RefusalsMadeUp(steps: seq<Step>) {
    forall i, id :: 0 <= i < |steps| && LeavesAt(steps, i, id) && steps[i].CloseRefused? ==> MadeUp(steps, i, id)
  }

  lemma LeavingSteps(steps: seq<Step>, i: nat, id: string)
    requires i < |steps| && LeavesAt(steps, i, id)
    ensures HappensAt(steps, i) && (Orphans(steps[i]) || steps[i].CloseRefused?)
  {}

  lemma OrphaningLeaves(steps: seq<Step>, i: nat) returns (id: string)
    requires i < |steps| && HappensAt(steps, i) && Orphans(steps[i])
    ensures LeavesAt(steps, i, id)
  {
    id := if steps[i].LateOpen? then steps[i].id else After(steps[..i]).callers[steps[i].c].id;
  }

  /** At rest the two sides agree exactly when the schedule orphaned no connection and made up for every refused
      close. */
  lemma AgreeExactly(steps: seq<Step>)
    requires Quiet(After(steps))
    ensures After(steps).server == After(steps).sessions <==> NoOrphans(steps) && RefusalsMadeUp(steps)
  {
    hide After, LeavesAt, HappensAt, MadeUp, Orphans;
    var s := After(steps);
    ServerAtRest(steps);
    forall id ensures id in s.leaked <==> LeftBehind(steps, id) { LeakedExactly(steps, id); }
    if NoOrphans(steps) && RefusalsMadeUp(steps) {
      forall id | id in s.leaked ensures false {
        var i :| 0 <= i < |steps| && LeftFor(steps, i, id);
        LeavingSteps(steps, i, id);
      }
    }
    if s.server == s.sessions {
      forall i | 0 <= i < |steps| && HappensAt(steps, i) ensures !Orphans(steps[i]) {
        if Orphans(steps[i]) {
          var id := OrphaningLeaves(steps, i);
          OrphanForever(steps, i, id);
        }
      }
      forall i, id | 0 <= i < |steps| && LeavesAt(steps, i, id) ensures MadeUp(steps, i, id) {
        assert id !in s.leaked;
        assert !LeftBehind(steps, id);
        assert !LeftFor(steps, i, id);
      }
    }
  }

  /** The remote calls of the schedule keep their word: an open that fails has no effect on the server, and a close
      that is needed takes effect. */
  predicate Faithful(step: Step) {
    !step.OpenReplyLost? && !step.OpenAbandoned? && !step.CleanupRefused? && !step.CloseRefused?
  }

  lemma {:induction false} NothingLeaks(steps: seq<Step>)
    requires forall i :: 0 <= i < |steps| ==> Faithful(steps[i])
    ensures After(steps).leaked == {} && After(steps).lateOpens == {}
  {
    if steps != [] {
      NothingLeaks(steps[..|steps| - 1]);
      assert Faithful(steps[|steps| - 1]);
    }
  }

  /** When failed opens have no effect and closes take effect, the two maps agree at rest, failed introspections
      included. */
  lemma AgreeAtRest(steps: seq<Step>)
    requires forall i :: 0 <= i < |steps| ==> Faithful(steps[i])
    requires Quiet(After(steps))
    ensures After(steps).server == After(steps).sessions
  {
    NothingLeaks(steps);
    ServerAtRest(steps);
  }
}
