/** internal/session/session.go, `Register`, under the deadline of its caller: the open, the introspection and the
    cleanup are made one after the other on the same context. */
module RegistrationTime {
  import opened Pipeline
  import opened SchemaModel
  import Sessions
  import opened Wrappers

  /** A remote call that changes the server: how long it would take and how it would turn out, and whether it takes
      effect when the deadline cuts it off. */
  datatype Call = Call(took: nat, how: Sessions.Outcome, arrives: bool)

  /** When the call returns, and how it turned out: on an expired context it is not made at all, and if the deadline
      passes in between its reply is lost. */
  function Made(now: Time, deadline: Time, call: Call): (r: (Time, Sessions.Outcome))
    ensures r.0 == Await(now, deadline, call.took, Ok(())).0
    ensures r.1 == Sessions.Done <==>
              Await(now, deadline, call.took, if call.how == Sessions.Done then Ok(()) else Err("")).1.Ok?
  {
    if now >= deadline then (now, Sessions.Refused)
    else if now + call.took > deadline then (deadline, if call.arrives then Sessions.ReplyLost else Sessions.Refused)
    else (now + call.took, call.how)
  }

  /** The cleanup fails to take effect: the context has expired, or expires on the way, or the server refuses. */
  predicate CleanupLost(now: Time, deadline: Time, cleanup: Call) {
    now >= deadline
    || (if now + cleanup.took > deadline then !cleanup.arrives else cleanup.how == Sessions.Refused)
  }

  /** A registration by the deadline. When the open succeeded and the introspection fails, the connection stays behind
      exactly if the cleanup is lost; and so it always does when the introspection failed because the context
      expired. */
  method RegisterBy(registry: Sessions.Registry, id: string, dialect: string, providerOk: bool, now: Time,
                    deadline: Time, open: Call, introspect: Reply, schema: Schema, cleanup: Call)
    returns (session: Option<Sessions.Session>, finish: Time)
    requires id !in registry.sessions && id !in registry.exec.server
    modifies registry, registry.exec
    ensures var (t1, connected) := Made(now, deadline, open);
            var (t2, read) := Await(t1, deadline, introspect.took, introspect.answer);
            (session.Some? <==> providerOk && connected == Sessions.Done && read.Ok?)
            && (providerOk && connected == Sessions.Done && read.Err? ==>
                  session.None? && (id in registry.exec.server <==> CleanupLost(t2, deadline, cleanup)))
            && (providerOk && connected == Sessions.Done && (t1 >= deadline || t1 + introspect.took > deadline) ==>
                  session.None? && id in registry.exec.server && registry.sessions == old(registry.sessions))
    ensures finish <= if now <= deadline then deadline else now
  {
    var connected := Made(now, deadline, open);
    var read := Await(connected.0, deadline, introspect.took, introspect.answer);
    var cleaned := Made(read.0, deadline, cleanup);
    finish := if !providerOk then now
              else if connected.1 != Sessions.Done then connected.0
              else if read.1.Ok? then read.0
              else cleaned.0;
    var introspected := if read.1.Ok? then Some(schema) else None;
    session := registry.Register(id, dialect, providerOk, connected.1, introspected, cleaned.1);
  }
}
