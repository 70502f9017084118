/** internal/agent/pipeline.go: one question through intent, routing, and at most three rounds of generation,
    table check and execution. Outside callees are oracles: how long they would take, and what they answer. Time is
    in nanoseconds; local steps take none. */
module Pipeline {
  import Executor
  import opened Fence
  import opened Routing
  import opened SchemaModel
  import opened TableCheck
  import opened Wrappers

  type Time = nat

  const MILLISECOND: Time := 1_000_000
  const SECOND: Time := 1000 * MILLISECOND
  const TOTAL_SLA: Time := 30 * SECOND
  const ROUTE_TIMEOUT: Time := 15 * SECOND
  const GEN_TIMEOUT: Time := 15 * SECOND
  const EXEC_TIMEOUT: Time := 10 * SECOND
  const MAX_ATTEMPTS: nat := 3

  const EXPIRED: string := "context deadline exceeded"

  // ---- Oracles ----

  datatype Reply = Reply(took: nat, answer: Result<string, string>)

  datatype IntentReply = IntentReply(took: nat, modality: string, inScope: bool, err: Option<string>)

  /** The executor call fails in transport, or is served: `bound` says whether the connection id is known there,
      `db` is the database's answer. */
  datatype ExecReply =
    | Transport(took: nat, text: string)
    | Remote(took: nat, bound: bool, db: Result<Executor.ResultSet, string>)

  /** Everything outside the pipeline. Each call sees when it is made and what it is given: the router the schema, the
      model the attempt, the prior error and the sub-schema, the executor the attempt, the connection id and the
      query. */
  datatype Env = Env(
    classify: Time -> IntentReply,
    route: (Schema, Time) -> Reply,
    generate: (nat, string, Schema, Time) -> Reply,
    execute: (nat, string, string, Time) -> ExecReply)

  function Min(a: Time, b: Time): Time {
    if a <= b then a else b
  }

  /** A call that honours its context returns by the deadline, and fails at once on an expired one. */
  function Await<T>(now: Time, deadline: Time, took: nat, answer: Result<T, string>): (r: (Time, Result<T, string>)) {
    if now >= deadline then (now, Err(EXPIRED))
    else if now + took > deadline then (deadline, Err(EXPIRED))
    else (now + took, answer)
  }

  function Millis(start: Time, end: Time): nat
    requires start <= end
  {
    (end - start) / MILLISECOND
  }

  // ---- The trace and the calls ----

  datatype StageName = IntentStage | RoutingStage | GenerationStage | ValidationStage | ExecutionStage

  datatype Output =
    | IntentOutput(modality: string, inScope: bool)
    | RoutingOutput(tables: seq<string>)
    | GenerationOutput(attempt: nat, sql: string)
    | ValidationOutput(attempt: nat)
    | ExecutionOutput(attempt: nat)
    | RowsOutput(attempt: nat, rowCount: nat)

  /** The status is "ok" when there is no error. */
  datatype Stage = Stage(name: StageName, output: Output, latencyMs: nat, error: Option<string>)

  /** A call to something outside: when it started and ended, and its deadline. */
  datatype Call =
    | ClassifyCall(start: Time, end: Time, deadline: Time)
    | RouteCall(start: Time, end: Time, deadline: Time)
    | GenerateCall(start: Time, end: Time, deadline: Time, attempt: nat, prior: string, tables: Schema)
    | ExecuteCall(start: Time, end: Time, deadline: Time, attempt: nat, query: string, reached: Option<string>)

  /** The answer and the error of a run, the calls it made, and when it ended. */
  datatype Outcome = Outcome(stages: seq<Stage>, calls: seq<Call>, attempts: nat, sql: string,
                             result: Option<Executor.ResultSet>, err: Option<string>, finish: Time)

  // ---- The single steps ----

  /** `Generator.Generate`, from the model's answer. */
  function Generated(answer: Result<string, string>): Result<string, string> {
    match answer
    case Err(text) => Err("text2sql: generate: " + text)
    case Ok(resp) =>
      if ExtractSQL(resp) == "" then Err("text2sql: model returned no SQL") else Ok(ExtractSQL(resp))
  }

  function RouteErrorText(e: RouteError): string {
    match e
    case NoTables => "rag: schema has no tables"
    case LlmFailed(text) => "rag: routing generate: " + text
    case BadList(NoArray) => "rag: no JSON array in routing response"
    case BadList(BadArray) => "rag: parse routing response"
  }

  function Fails<T>(r: Result<T, string>): Option<string> {
    match r
    case Ok(_) => None
    case Err(text) => Some(text)
  }

  /** The executor's side of a call: its answer, and what reached the database. */
  function Answered(id: string, query: string, reply: ExecReply): (Result<Executor.ResultSet, string>, Option<string>) {
    match reply
    case Transport(_, text) => (Err(text), None)
    case Remote(_, bound, db) => Executor.Served(bound, id, query, db)
  }

  // ---- The run as a function ----

  /** How one round ends: the model failed, there is an error to feed back, or there are rows. */
  datatype RoundEnd =
    | GenerationFailed(text: string)
    | Retry(text: string)
    | Answers(result: Executor.ResultSet)

  /** One round: its stages and calls, the generated query ("" if generation failed), and its end. */
  datatype Round = Round(stages: seq<Stage>, calls: seq<Call>, query: string, end: RoundEnd, finish: Time)

  /** What a round is given: the connection, the callees, the deadline of the run and the selected schema. */
  datatype Context = Context(id: string, env: Env, root: Time, tables: Schema)

  function GenerateStep(c: Context, attempt: nat, now: Time, prior: string): (r: Round)
    ensures now <= r.finish
    ensures r.end.Retry? || r.end.GenerationFailed?
  {
    var due := Min(c.root, now + GEN_TIMEOUT);
    var ask := c.env.generate(attempt, prior, c.tables, now);
    var (t, answer) := Await(now, due, ask.took, ask.answer);
    var gen := Generated(answer);
    var query := if gen.Ok? then gen.value else "";
    Round([Stage(GenerationStage, GenerationOutput(attempt, query), Millis(now, t), Fails(gen))],
          [GenerateCall(now, t, due, attempt, prior, c.tables)],
          query, if gen.Ok? then Retry("") else GenerationFailed(gen.error), t)
  }

  function ExecuteStep(c: Context, attempt: nat, now: Time, query: string): (r: Round)
    ensures now <= r.finish
    ensures r.end.Retry? || r.end.Answers?
  {
    var due := Min(c.root, now + EXEC_TIMEOUT);
    var run := c.env.execute(attempt, c.id, query, now);
    var served := Answered(c.id, query, run);
    var (t, res) := Await(now, due, run.took, served.0);
    Round([Stage(ExecutionStage, if res.Ok? then RowsOutput(attempt, |res.value.rows|) else ExecutionOutput(attempt),
                 Millis(now, t), Fails(res))],
          [ExecuteCall(now, t, due, attempt, query, if now < due then served.1 else None)],
          query, if res.Ok? then Answers(res.value) else Retry(res.error), t)
  }

  /** Generate, check the tables, execute. */
  function RoundOf(c: Context, attempt: nat, now: Time, prior: string): (r: Round)
    ensures now <= r.finish
  {
    var gen := GenerateStep(c, attempt, now, prior);
    if gen.end.GenerationFailed? then gen
    else
      match TableError(gen.query, c.tables)
      case Some(text) =>
        Round(gen.stages + [Stage(ValidationStage, ValidationOutput(attempt), 0, Some(text))], gen.calls, gen.query,
              Retry(text), gen.finish)
      case None =>
        var run := ExecuteStep(c, attempt, gen.finish, gen.query);
        run.(stages := gen.stages + run.stages, calls := gen.calls + run.calls)
  }

  /** Rounds from `attempt` on. `sql` is what the answer holds so far. */
  function Rounds(c: Context, attempt: nat, now: Time, prior: string, sql: string): (o: Outcome)
    requires 1 <= attempt <= MAX_ATTEMPTS + 1
    ensures now <= o.finish
    decreases MAX_ATTEMPTS + 1 - attempt
  {
    if attempt > MAX_ATTEMPTS then
      Outcome([], [], MAX_ATTEMPTS, sql, None, Some("agent: no valid query after 3 attempts: " + prior), now)
    else
      var r := RoundOf(c, attempt, now, prior);
      match r.end
      case GenerationFailed(text) => Outcome(r.stages, r.calls, attempt, sql, None, Some(text), r.finish)
      case Answers(result) => Outcome(r.stages, r.calls, attempt, r.query, Some(result), None, r.finish)
      case Retry(text) => Appended(r.stages, r.calls, Rounds(c, attempt + 1, r.finish, text, r.query))
  }

  /** What was recorded so far, and then the rest of the run. */
  function Appended(stages: seq<Stage>, calls: seq<Call>, rest: Outcome): Outcome {
    rest.(stages := stages + rest.stages, calls := calls + rest.calls)
  }

  /** The deadline of the whole run: 30 seconds, or the caller's if that is earlier. */
  function RootDeadline(now: Time, parent: Option<Time>): Time {
    if parent.Some? then Min(parent.value, now + TOTAL_SLA) else now + TOTAL_SLA
  }

  /** When the classifier returns; it may look past an expired context, but then it returns at once. */
  function ClassifiedAt(now: Time, root: Time, took: nat): Time {
    if now >= root then now else Min(root, now + took)
  }

  /** A run that starts at `now`. */
  function RunOf(id: string, schema: Schema, env: Env, now: Time, parent: Option<Time>): Outcome {
    var root := RootDeadline(now, parent);
    var intent := env.classify(now);
    var t0 := ClassifiedAt(now, root, intent.took);
    var intentStage := Stage(IntentStage, IntentOutput(intent.modality, intent.inScope), 0, intent.err);
    var intentCall := ClassifyCall(now, t0, root);
    if intent.err.Some? then Outcome([intentStage], [intentCall], 0, "", None, intent.err, t0)
    else if !intent.inScope then
      Outcome([intentStage], [intentCall], 0, "", None, Some("agent: question is out of scope"), t0)
    else
      var routeBy := Min(root, t0 + ROUTE_TIMEOUT);
      var ask := env.route(schema, t0);
      var (t1, answer) := if schema.tables == [] then (t0, Err("")) else Await(t0, routeBy, ask.took, ask.answer);
      var routed := Routed(answer, schema);
      var routeCalls := if schema.tables == [] then [] else [RouteCall(t0, t1, routeBy)];
      if routed.Err? then
        var text := RouteErrorText(routed.error);
        var stage := Stage(RoutingStage, RoutingOutput([]), Millis(t0, t1), Some(text));
        Outcome([intentStage, stage], [intentCall] + routeCalls, 0, "", None, Some(text), t1)
      else
        var stage := Stage(RoutingStage, RoutingOutput(routed.value), Millis(t0, t1), None);
        var rest := Rounds(Context(id, env, root, SubsetOf(schema, routed.value)), 1, t1, "", "");
        Appended([intentStage, stage], [intentCall] + routeCalls, rest)
  }

  // ---- The run as the program makes it ----

  class Answer {
    var sql: string
    var result: Option<Executor.ResultSet>
    var attempts: nat
    var stages: seq<Stage>

    constructor ()
      ensures sql == "" && result == None && attempts == 0 && stages == []
    {
      sql, result, attempts, stages := "", None, 0, [];
    }

    method Record(name: StageName, output: Output, latencyMs: nat, err: Option<string>)
      modifies `stages
      ensures stages == old(stages) + [Stage(name, output, latencyMs, err)]
    {
      stages := stages + [Stage(name, output, latencyMs, err)];
    }
  }

  class Pipeline {
    const connectionId: string
    const schema: Schema

    constructor (connectionId: string, schema: Schema)
      ensures this.connectionId == connectionId && this.schema == schema
    {
      this.connectionId, this.schema := connectionId, schema;
    }

    /** `p.route`: the router's call, recorded. */
    method RouteStage(ans: Answer, env: Env, root: Time, now: Time)
      returns (r: Result<seq<string>, string>, ghost calls: seq<Call>, finish: Time)
      modifies ans`stages
      ensures now <= finish
      ensures var due := Min(root, now + ROUTE_TIMEOUT);
              var ask := env.route(schema, now);
              var reply := if schema.tables == [] then (now, Err("")) else Await(now, due, ask.took, ask.answer);
              var routed := Routed(reply.1, schema);
              finish == reply.0
              && calls == (if schema.tables == [] then [] else [RouteCall(now, finish, due)])
              && r == (match routed case Ok(names) => Ok(names) case Err(e) => Err(RouteErrorText(e)))
              && ans.stages == old(ans.stages)
                 + [Stage(RoutingStage, RoutingOutput(if r.Ok? then r.value else []), Millis(now, finish), Fails(r))]
    {
      hide Routed;
      finish, calls := now, [];
      var answer: Result<string, string> := Err("");
      if |schema.tables| > 0 {
        var due := Min(root, now + ROUTE_TIMEOUT);
        var ask := env.route(schema, now);
        var reply := Await(now, due, ask.took, ask.answer);
        finish, answer := reply.0, reply.1;
        calls := [RouteCall(now, finish, due)];
      }
      var routed := Route(answer, schema);
      match routed {
        case Ok(names) => r := Ok(names);
        case Err(e) => r := Err(RouteErrorText(e));
      }
      ans.Record(RoutingStage, RoutingOutput(if r.Ok? then r.value else []), Millis(now, finish), Fails(r));
    }

    /** `p.generate`: the generator's call, recorded. */
    method GenerateStage(ans: Answer, c: Context, attempt: nat, now: Time, prior: string)
      returns (r: Result<string, string>, ghost calls: seq<Call>, finish: Time)
      modifies ans`stages
      ensures var step := GenerateStep(c, attempt, now, prior);
              ans.stages == old(ans.stages) + step.stages && calls == step.calls && finish == step.finish
              && r == match step.end case GenerationFailed(text) => Err(text) case _ => Ok(step.query)
    {
      var due := Min(c.root, now + GEN_TIMEOUT);
      var ask := c.env.generate(attempt, prior, c.tables, now);
      var reply := Await(now, due, ask.took, ask.answer);
      finish := reply.0;
      calls := [GenerateCall(now, finish, due, attempt, prior, c.tables)];
      r := Generated(reply.1);
      ans.Record(GenerationStage, GenerationOutput(attempt, if r.Ok? then r.value else ""), Millis(now, finish), Fails(r));
    }

    /** `p.execute`: the executor's call; its caller records it. */
    method Execute(c: Context, attempt: nat, now: Time, query: string)
      returns (r: Result<Executor.ResultSet, string>, ghost calls: seq<Call>, finish: Time, latencyMs: nat)
      ensures calls == ExecuteStep(c, attempt, now, query).calls
      ensures var step := ExecuteStep(c, attempt, now, query);
              finish == step.finish && latencyMs == Millis(now, finish)
              && step.query == query
              && (match r
                  case Ok(res) =>
                    step.end == Answers(res)
                    && step.stages == [Stage(ExecutionStage, RowsOutput(attempt, |res.rows|), latencyMs, None)]
                  case Err(text) =>
                    step.end == Retry(text)
                    && step.stages == [Stage(ExecutionStage, ExecutionOutput(attempt), latencyMs, Some(text))])
    {
      var due := Min(c.root, now + EXEC_TIMEOUT);
      var run := c.env.execute(attempt, c.id, query, now);
      var served := Answered(c.id, query, run);
      var reply := Await(now, due, run.took, served.0);
      finish, r := reply.0, reply.1;
      calls := [ExecuteCall(now, finish, due, attempt, query, if now < due then served.1 else None)];
      latencyMs := Millis(now, finish);
    }

    /** The body of the loop of `Run`. */
    method Attempt(ans: Answer, c: Context, attempt: nat, now: Time, prior: string)
      returns (end: RoundEnd, ghost calls: seq<Call>, finish: Time)
      modifies ans`attempts, ans`sql, ans`result, ans`stages
      ensures var r := RoundOf(c, attempt, now, prior);
              ans.stages == old(ans.stages) + r.stages && calls == r.calls && finish == r.finish && end == r.end
              && ans.sql == (if end.GenerationFailed? then old(ans.sql) else r.query)
      ensures ans.attempts == attempt
      ensures ans.result == if end.Answers? then Some(end.result) else old(ans.result)
    {
      hide GenerateStep, ExecuteStep, TableError;
      ans.attempts := attempt;
      var gen;
      ghost var more;
      gen, calls, finish := GenerateStage(ans, c, attempt, now, prior);
      if gen.Err? {
        return GenerationFailed(gen.error), calls, finish;
      }
      ans.sql := gen.value;
      var bad := ValidateTables(gen.value, c.tables);
      if bad.Some? {
        ans.Record(ValidationStage, ValidationOutput(attempt), 0, bad);
        return Retry(bad.value), calls, finish;
      }
      var res, latencyMs;
      res, more, finish, latencyMs := Execute(c, attempt, finish, gen.value);
      calls := calls + more;
      if res.Err? {
        ans.Record(ExecutionStage, ExecutionOutput(attempt), latencyMs, Some(res.error));
        return Retry(res.error), calls, finish;
      }
      ans.Record(ExecutionStage, RowsOutput(attempt, |res.value.rows|), latencyMs, None);
      ans.result := Some(res.value);
      return Answers(res.value), calls, finish;
    }

    /** The loop of `Run`. */
    method Correct(ans: Answer, c: Context, start: Time)
      returns (err: Option<string>, ghost calls: seq<Call>, finish: Time)
      requires ans.attempts == 0 && ans.result == None
      modifies ans`attempts, ans`sql, ans`result, ans`stages
      ensures Outcome(ans.stages, calls, ans.attempts, ans.sql, ans.result, err, finish)
              == Appended(old(ans.stages), [], Rounds(c, 1, start, "", old(ans.sql)))
    {
      hide RoundOf;
      var now, priorErr, attempt := start, "", 1;
      calls := [];
      ghost var whole := Appended(old(ans.stages), [], Rounds(c, 1, start, "", old(ans.sql)));
      while attempt <= MAX_ATTEMPTS
        invariant 1 <= attempt <= MAX_ATTEMPTS + 1
        invariant ans.attempts == attempt - 1 && ans.result == None
        invariant whole == Appended(ans.stages, calls, Rounds(c, attempt, now, priorErr, ans.sql))
        decreases MAX_ATTEMPTS + 1 - attempt
      {
        ghost var stages, made, began, prior, sql := ans.stages, calls, now, priorErr, ans.sql;
        var end;
        ghost var more;
        end, more, now := Attempt(ans, c, attempt, now, priorErr);
        calls := calls + more;
        match end {
          case GenerationFailed(text) => return Some(text), calls, now;
          case Answers(_) => return None, calls, now;
          case Retry(text) =>
            AfterRound(c, stages, made, attempt, began, prior, sql);
            priorErr := text;
        }
        attempt := attempt + 1;
      }
      assert ans.stages + [] == ans.stages && calls + [] == calls;
      return Some("agent: no valid query after 3 attempts: " + priorErr), calls, now;
    }

    method Run(env: Env, start: Time, parent: Option<Time>)
      returns (ans: Answer, err: Option<string>, ghost calls: seq<Call>, finish: Time)
      ensures fresh(ans)
      ensures Outcome(ans.stages, calls, ans.attempts, ans.sql, ans.result, err, finish)
              == RunOf(connectionId, schema, env, start, parent)
    {
      hide Routed, SubsetOf, RouteErrorText, Await, Rounds;
      var root := RootDeadline(start, parent);
      ans := new Answer();
      ghost var more: seq<Call>;

      var intent := env.classify(start);
      var now := ClassifiedAt(start, root, intent.took);
      calls := [ClassifyCall(start, now, root)];
      ans.Record(IntentStage, IntentOutput(intent.modality, intent.inScope), 0, intent.err);
      if intent.err.Some? {
        return ans, intent.err, calls, now;
      }
      if !intent.inScope {
        return ans, Some("agent: question is out of scope"), calls, now;
      }
      var tables;
      tables, more, now := RouteStage(ans, env, root, now);
      calls := calls + more;
      if tables.Err? {
        return ans, Some(tables.error), calls, now;
      }
      var selected := Subset(schema, tables.value);
      err, more, finish := Correct(ans, Context(connectionId, env, root, selected), now);
      calls := calls + more;
    }
  }

  lemma AfterRound(c: Context, stages: seq<Stage>, calls: seq<Call>, attempt: nat, now: Time, prior: string, sql: string)
    requires 1 <= attempt <= MAX_ATTEMPTS
    ensures var r := RoundOf(c, attempt, now, prior);
            r.end.Retry? ==>
              Appended(stages, calls, Rounds(c, attempt, now, prior, sql))
              == Appended(stages + r.stages, calls + r.calls, Rounds(c, attempt + 1, r.finish, r.end.text, r.query))
  {
    hide RoundOf;
    var r := RoundOf(c, attempt, now, prior);
    if !r.end.Retry? { return; }
    var rest := Rounds(c, attempt + 1, r.finish, r.end.text, r.query);
    assert stages + (r.stages + rest.stages) == (stages + r.stages) + rest.stages;
    assert calls + (r.calls + rest.calls) == (calls + r.calls) + rest.calls;
  }
}
