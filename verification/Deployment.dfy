/** The agent's registry and the executor's service together: the registry's remote calls are what opens and closes
    connections in the executor's map, while the executor's threads dial and run queries as they please. */
module Deployment {
  import Executor
  import Sessions

  datatype State = State(registry: Sessions.State, executor: Executor.State)

  const Init: State := State(Sessions.Init, Executor.Init)

  /** `Agent` and `Serve` are steps of one side alone. `Open` is a remote open that takes effect: the executor's thread
      registers the connector it dialled. `Close` is a remote close that takes effect. */
  datatype Step =
    | Agent(own: Sessions.Step)
    | Serve(request: Executor.Step)
    | Open(own: Sessions.Step, t: nat)
    | Close(own: Sessions.Step)

  predicate Opens(step: Sessions.Step) {
    step.OpenOk? || step.OpenReplyLost? || step.LateOpen?
  }

  predicate Closes(step: Sessions.Step) {
    step.Cleaned? || step.Closed? || step.LateClose?
  }

  /** The id a remote call is about. */
  function Subject(s: Sessions.State, step: Sessions.Step): string
    requires Sessions.Enabled(s, step) && (Opens(step) || Closes(step))
  {
    if step.LateOpen? || step.LateClose? then step.id else s.callers[step.c].id
  }

  predicate HasDialled(s: Executor.State, t: nat, id: string) {
    t in s.threads && s.threads[t].Dialled? && s.threads[t].id == id
  }

  predicate Enabled(s: State, step: Step) {
    match step
    case Agent(own) => Sessions.Enabled(s.registry, own) && !Opens(own) && !Closes(own)
    case Serve(request) => !request.Install? && !request.CloseId?
    case Open(own, t) =>
      Sessions.Enabled(s.registry, own) && Opens(own) && HasDialled(s.executor, t, Subject(s.registry, own))
    case Close(own) => Sessions.Enabled(s.registry, own) && Closes(own)
  }

  function Next(s: State, step: Step): State
    requires Enabled(s, step)
  {
    match step
    case Agent(own) => s.(registry := Sessions.Next(s.registry, own))
    case Serve(request) => s.(executor := Executor.Apply(s.executor, request))
    case Open(own, t) =>
      State(Sessions.Next(s.registry, own), Executor.Apply(s.executor, Executor.Install(t)))
    case Close(own) =>
      State(Sessions.Next(s.registry, own),
            Executor.Apply(s.executor, Executor.CloseId(Subject(s.registry, own))))
  }

  /** The state after a schedule; steps that are not enabled are skipped. */
  function After(steps: seq<Step>): State {
    if steps == [] then Init
    else
      var s := After(steps[..|steps| - 1]);
      var step := steps[|steps| - 1];
      if Enabled(s, step) then Next(s, step) else s
  }

  // ---- Each side of a joint schedule is a schedule of that side ----

  /** The registry's steps in a joint schedule. */
  function AgentSide(steps: seq<Step>): seq<Sessions.Step> {
    if steps == [] then []
    else
      var n := |steps| - 1;
      var step := steps[n];
      AgentSide(steps[..n])
      + if !Enabled(After(steps[..n]), step) || step.Serve? then [] else [step.own]
  }

  /** The executor's steps in a joint schedule. */
  function ExecutorSide(steps: seq<Step>): seq<Executor.Step> {
    if steps == [] then []
    else
      var n := |steps| - 1;
      var s, step := After(steps[..n]), steps[n];
      ExecutorSide(steps[..n])
      + if !Enabled(s, step) then []
        else
          match step
          case Agent(_) => []
          case Serve(request) => [request]
          case Open(_, t) => [Executor.Install(t)]
          case Close(own) => [Executor.CloseId(Subject(s.registry, own))]
  }

  lemma SessionsAppend(steps: seq<Sessions.Step>, step: Sessions.Step)
    ensures Sessions.After(steps + [step])
            == if Sessions.Enabled(Sessions.After(steps), step) then Sessions.Next(Sessions.After(steps), step)
               else Sessions.After(steps)
  {
    hide Sessions.Enabled, Sessions.Next;
    assert (steps + [step])[..|steps|] == steps;
  }

  lemma ExecutorAppend(steps: seq<Executor.Step>, step: Executor.Step)
    ensures Executor.After(steps + [step]) == Executor.Apply(Executor.After(steps), step)
  {
    hide Executor.Apply;
    assert (steps + [step])[..|steps|] == steps;
  }

  lemma {:induction false} Sides(steps: seq<Step>)
    ensures After(steps).registry == Sessions.After(AgentSide(steps))
    ensures After(steps).executor == Executor.After(ExecutorSide(steps))
  {
    hide Sessions.After, Executor.After, Sessions.Next, Sessions.Enabled, Executor.Apply, Subject;
    if steps == [] {
      SidesStart();
    } else {
      var n := |steps| - 1;
      var s, step := After(steps[..n]), steps[n];
      Sides(steps[..n]);
      if Enabled(s, step) {
        var a, e := AgentSide(steps[..n]), ExecutorSide(steps[..n]);
        match step
        case Agent(own) => SessionsAppend(a, own); assert e + [] == e;
        case Serve(request) => ExecutorAppend(e, request); assert a + [] == a;
        case Open(own, t) => SessionsAppend(a, own); ExecutorAppend(e, Executor.Install(t));
        case Close(own) => SessionsAppend(a, own); ExecutorAppend(e, Executor.CloseId(Subject(s.registry, own)));
      } else {
        assert AgentSide(steps[..n]) + [] == AgentSide(steps[..n]);
        assert ExecutorSide(steps[..n]) + [] == ExecutorSide(steps[..n]);
      }
    }
  }

  lemma SidesStart()
    ensures Sessions.After([]) == Sessions.Init && Executor.After([]) == Executor.Init
  {}

  // ---- The executor's map holds what the registry takes for the server ----

  ghost predicate Linked(s: State) {
    s.registry.server == s.executor.conns.Keys
  }

  lemma ServeKeepsIds(s: Executor.State, step: Executor.Step)
    requires !step.Install? && !step.CloseId?
    ensures Executor.Apply(s, step).conns == s.conns
  {}

  lemma AgentKeepsServer(s: Sessions.State, step: Sessions.Step)
    requires Sessions.Enabled(s, step)
    ensures Sessions.Next(s, step).server
            == s.server + (if Opens(step) then {Subject(s, step)} else {})
               - (if Closes(step) then {Subject(s, step)} else {})
  {}

  lemma NextKeepsLinked(s: State, step: Step)
    requires Linked(s) && Enabled(s, step)
    ensures Linked(Next(s, step))
  {
    hide Sessions.Next, Subject;
    if step.Serve? {
      ServeKeepsIds(s.executor, step.request);
    } else {
      AgentKeepsServer(s.registry, step.own);
    }
  }

  /** Over every joint schedule, the ids of the executor's map are the ids the registry's protocol accounts for. */
  lemma {:induction false} LinkHolds(steps: seq<Step>)
    ensures Linked(After(steps))
  {
    hide Enabled, Next;
    if steps != [] {
      var n := |steps| - 1;
      LinkHolds(steps[..n]);
      if Enabled(After(steps[..n]), steps[n]) { NextKeepsLinked(After(steps[..n]), steps[n]); }
    }
  }

  /** Over every joint schedule, each session has its own open connection in the executor's map. */
  lemma SessionsAreServed(steps: seq<Step>)
    ensures var s := After(steps);
            s.registry.sessions <= s.executor.conns.Keys
            && (forall id :: id in s.registry.sessions ==> s.executor.closed[s.executor.conns[id]] == 0)
            && (forall a, b :: a in s.registry.sessions && b in s.registry.sessions && a != b ==>
                  s.executor.conns[a] != s.executor.conns[b])
  {
    hide After, Sessions.After, Executor.After;
    LinkHolds(steps);
    Sides(steps);
    Sessions.SessionsHaveConnections(AgentSide(steps));
    Executor.RegisteredAreOpen(ExecutorSide(steps));
  }

  /** At rest the two maps of the two processes have the same keys exactly when the schedule orphaned no connection and
      made up for every refused close. */
  lemma MapsAgreeExactly(steps: seq<Step>)
    requires Sessions.Quiet(After(steps).registry)
    ensures var s := After(steps);
            s.executor.conns.Keys == s.registry.sessions <==>
              Sessions.NoOrphans(AgentSide(steps)) && Sessions.RefusalsMadeUp(AgentSide(steps))
  {
    hide After, Sessions.After, Sessions.NoOrphans, Sessions.RefusalsMadeUp;
    LinkHolds(steps);
    Sides(steps);
    Sessions.AgreeExactly(AgentSide(steps));
  }

  /** And then, with no open in flight, a connector ever dialled is that of a session, or was closed once. */
  lemma NothingLostAtRest(steps: seq<Step>, c: nat)
    requires Sessions.Quiet(After(steps).registry)
    requires Sessions.NoOrphans(AgentSide(steps)) && Sessions.RefusalsMadeUp(AgentSide(steps))
    requires c < After(steps).executor.dialled
    requires forall t :: t in After(steps).executor.threads ==> !After(steps).executor.threads[t].Dialled?
    ensures var s := After(steps);
            s.executor.closed[c] == 1 <==>
            forall id :: id in s.registry.sessions ==> id in s.executor.conns && s.executor.conns[id] != c
  {
    hide After, Sessions.After, Executor.After, Sessions.NoOrphans, Sessions.RefusalsMadeUp;
    MapsAgreeExactly(steps);
    Sides(steps);
    Executor.NoneLostAtRest(ExecutorSide(steps), c);
  }

  // ---- The two sides meet: a registration from start to end ----

  /** A registration whose reply is lost: the agent has no session, and the executor keeps the connection. */
  lemma LostReplyLeaks(id: string)
    requires id != ""
    ensures var s := After([Agent(Sessions.Begin(0, id)), Serve(Executor.StartOpen(0, id)),
                            Serve(Executor.DialSucceeds(0)), Open(Sessions.OpenReplyLost(0), 0)]);
            Sessions.Quiet(s.registry) && s.executor.threads == map[]
            && s.registry.sessions == {} && s.executor.conns == map[id := 0] && s.executor.closed[0] == 0
  {
    var a, b := Agent(Sessions.Begin(0, id)), Serve(Executor.StartOpen(0, id));
    var c, d := Serve(Executor.DialSucceeds(0)), Open(Sessions.OpenReplyLost(0), 0);
    assert [a, b, c, d][..3] == [a, b, c] && [a, b, c][..2] == [a, b] && [a, b][..1] == [a] && [a][..0] == [];
    assert After([]) == Init;
    assert After([a]) == Next(Init, a);
    assert After([a, b]) == Next(After([a]), b);
    assert After([a, b, c]) == Next(After([a, b]), c);
    assert After([a, b, c, d]) == Next(After([a, b, c]), d);
  }
}
