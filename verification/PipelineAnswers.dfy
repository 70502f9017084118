/** What a run of the pipeline makes of the answers of its callees: every stage of the trace against what was asked,
    and what came back. */
module PipelineAnswers {
  import opened Fence
  import opened Pipeline
  import opened PipelineLaws
  import opened Routing
  import opened SchemaModel
  import opened TableCheck
  import opened Wrappers

  /** The recorded milliseconds of a call. */
  function LatencyOf(c: Call): int {
    (c.end - c.start) / 1_000_000
  }

  // ---- Generation ----

  /** The stage holds what became of the model's answer to the logged call: the attempt, the prior error and the
      schema of the log are what the model was asked with. */
  ghost predicate Told(c: Context, g: Call, st: Stage, attempt: nat) {
    g.GenerateCall? && g.attempt == attempt && g.tables == c.tables
    && var reply := c.env.generate(attempt, g.prior, g.tables, g.start);
       var (end, answer) := Await(g.start, g.deadline, reply.took, reply.answer);
       g.end == end && st.name == GenerationStage && st.latencyMs == LatencyOf(g)
       && match answer
          case Err(text) =>
            st.error == Some("text2sql: generate: " + text) && st.output == GenerationOutput(attempt, "")
          case Ok(resp) =>
            if ExtractSQL(resp) == "" then
              st.error == Some("text2sql: model returned no SQL") && st.output == GenerationOutput(attempt, "")
            else st.error == None && st.output == GenerationOutput(attempt, ExtractSQL(resp))
  }

  // ---- Table check and execution ----

  /** The stage holds what became of the logged call of the executor. */
  ghost predicate Ran(c: Context, e: Call, st: Stage, attempt: nat, query: string) {
    e.ExecuteCall? && e.attempt == attempt && e.query == query
    && var reply := c.env.execute(attempt, c.id, query, e.start);
       var (end, res) := Await(e.start, e.deadline, reply.took, Answered(c.id, query, reply).0);
       e.end == end && st.name == ExecutionStage && st.latencyMs == LatencyOf(e)
       && match res
          case Err(text) => st.error == Some(text) && st.output == ExecutionOutput(attempt)
          case Ok(rows) => st.error == None && st.output == RowsOutput(attempt, |rows.rows|)
  }

  /** The stage after a generation: the error of the table check on the generated query, or else what became of its
      execution. */
  ghost predicate Judged(c: Context, calls: seq<Call>, g: Stage, f: Stage, attempt: nat) {
    g.output.GenerationOutput?
    && match TableError(g.output.sql, c.tables)
       case Some(text) => f == Stage(ValidationStage, ValidationOutput(attempt), 0, Some(text))
       case None => exists e :: e in calls && Ran(c, e, f, attempt, g.output.sql)
  }

  lemma GenerateIsTold(c: Context, attempt: nat, now: Time, prior: string)
    ensures var r := GenerateStep(c, attempt, now, prior);
            |r.calls| == 1 && |r.stages| == 1 && Told(c, r.calls[0], r.stages[0], attempt)
            && (r.end.Retry? ==> r.stages[0].output == GenerationOutput(attempt, r.query))
  {
    hide Await, ExtractSQL;
  }

  lemma ExecuteIsRan(c: Context, attempt: nat, now: Time, query: string)
    ensures var r := ExecuteStep(c, attempt, now, query);
            |r.calls| == 1 && |r.stages| == 1 && Ran(c, r.calls[0], r.stages[0], attempt, query)
  {
    hide Answered;
  }

  lemma RoundIsTold(c: Context, attempt: nat, now: Time, prior: string)
    ensures var r := RoundOf(c, attempt, now, prior);
            r.calls != [] && r.stages != [] && GenerateCalls(r.calls) == [r.calls[0]]
            && Told(c, r.calls[0], r.stages[0], attempt)
            && (|r.stages| == 2 ==> Judged(c, r.calls, r.stages[0], r.stages[1], attempt))
  {
    RoundAsksOnce(c, attempt, now, prior);
    hide GenerateStep, ExecuteStep, TableError, Told, Ran;
    GenerateIsTold(c, attempt, now, prior);
    var gen := GenerateStep(c, attempt, now, prior);
    var r := RoundOf(c, attempt, now, prior);
    FirstAsks(c, r.calls[0], r.stages[0], attempt);
    if !gen.end.GenerationFailed? && TableError(gen.query, c.tables).None? {
      ExecuteIsRan(c, attempt, gen.finish, gen.query);
      assert r.calls[1] in r.calls;
      assert Ran(c, r.calls[1], r.stages[1], attempt, gen.query);
    }
    assert r.calls == [r.calls[0]] + r.calls[1..];
    GenerateCallsAppend([r.calls[0]], r.calls[1..]);
    assert [r.calls[0]][1..] == [];
  }

  lemma FirstAsks(c: Context, g: Call, st: Stage, attempt: nat)
    requires Told(c, g, st, attempt)
    ensures g.GenerateCall?
  {}

  // ---- All rounds ----

  ghost predicate AllTold(c: Context, gens: seq<Call>, st: seq<Stage>, attempt: nat) {
    forall j :: 0 <= j < |gens| ==> 2 * j < |st| && Told(c, gens[j], st[2 * j], attempt + j)
  }

  ghost predicate AllJudged(c: Context, calls: seq<Call>, st: seq<Stage>, attempt: nat) {
    forall j :: 0 <= j && 2 * j + 1 < |st| ==> Judged(c, calls, st[2 * j], st[2 * j + 1], attempt + j)
  }

  lemma ToldStep(c: Context, g: Call, first: seq<Stage>, gens: seq<Call>, st: seq<Stage>, attempt: nat)
    requires |first| == 2 && Told(c, g, first[0], attempt) && AllTold(c, gens, st, attempt + 1)
    ensures AllTold(c, [g] + gens, first + st, attempt)
  {
    hide Told;
    var gs, ss := [g] + gens, first + st;
    forall j | 0 <= j < |gs| ensures 2 * j < |ss| && Told(c, gs[j], ss[2 * j], attempt + j) {
      if j > 0 { assert gs[j] == gens[j - 1] && ss[2 * j] == st[2 * (j - 1)]; }
    }
  }

  lemma MoreCalls(c: Context, calls: seq<Call>, more: seq<Call>, g: Stage, f: Stage, attempt: nat)
    requires Judged(c, calls, g, f, attempt) && forall e :: e in calls ==> e in more
    ensures Judged(c, more, g, f, attempt)
  {
    hide Ran, TableError;
  }

  lemma JudgedStep(c: Context, first: seq<Stage>, own: seq<Call>, st: seq<Stage>, calls: seq<Call>, attempt: nat)
    requires |first| == 2 && Judged(c, own, first[0], first[1], attempt) && AllJudged(c, calls, st, attempt + 1)
    ensures AllJudged(c, own + calls, first + st, attempt)
  {
    hide Judged;
    var ss := first + st;
    forall j | 0 <= j && 2 * j + 1 < |ss| ensures Judged(c, own + calls, ss[2 * j], ss[2 * j + 1], attempt + j) {
      if j == 0 {
        MoreCalls(c, own, own + calls, first[0], first[1], attempt);
      } else {
        assert ss[2 * j] == st[2 * (j - 1)] && ss[2 * j + 1] == st[2 * (j - 1) + 1];
        MoreCalls(c, calls, own + calls, st[2 * (j - 1)], st[2 * (j - 1) + 1], attempt + j);
      }
    }
  }

  lemma {:induction false} RoundsAreTold(c: Context, attempt: nat, now: Time, prior: string, sql: string)
    requires 1 <= attempt <= MAX_ATTEMPTS + 1
    ensures var o := Rounds(c, attempt, now, prior, sql);
            AllTold(c, GenerateCalls(o.calls), o.stages, attempt) && AllJudged(c, o.calls, o.stages, attempt)
    decreases MAX_ATTEMPTS + 1 - attempt
  {
    hide RoundOf, Told, Judged;
    if attempt <= MAX_ATTEMPTS {
      var r := RoundOf(c, attempt, now, prior);
      RoundShape(c, attempt, now, prior);
      RoundIsTold(c, attempt, now, prior);
      if r.end.Retry? {
        RoundsAreTold(c, attempt + 1, r.finish, r.end.text, r.query);
        var rest := Rounds(c, attempt + 1, r.finish, r.end.text, r.query);
        GenerateCallsAppend(r.calls, rest.calls);
        ToldStep(c, r.calls[0], r.stages, GenerateCalls(rest.calls), rest.stages, attempt);
        JudgedStep(c, r.stages, r.calls, rest.stages, rest.calls, attempt);
      }
    }
  }

  /** What the model, the table check and the executor are asked in a run, and what the trace holds of their answers.
      The generation of attempt n + 1 is stage 2n + 2: it holds what became of the model's answer to exactly the logged
      prior error and the routed sub-schema. Stage 2n + 3 holds the verdict of the table check on that query, or what
      became of its execution on the connection of the run. */
  lemma EveryAnswerIsRecorded(id: string, schema: Schema, env: Env, now: Time, parent: Option<Time>)
    ensures var o := RunOf(id, schema, env, now, parent);
            var gens := GenerateCalls(o.calls);
            (gens != [] || |o.stages| > 2 ==> |o.stages| > 1 && o.stages[1].output.RoutingOutput?)
            && (|o.stages| > 1 && o.stages[1].output.RoutingOutput? ==>
                  var c := Context(id, env, RootDeadline(now, parent), SubsetOf(schema, o.stages[1].output.tables));
                  (forall n :: 0 <= n < |gens| ==> 2 * n + 2 < |o.stages| && Told(c, gens[n], o.stages[2 * n + 2], n + 1))
                  && forall n :: 0 <= n && 2 * n + 3 < |o.stages| ==>
                       Judged(c, o.calls, o.stages[2 * n + 2], o.stages[2 * n + 3], n + 1))
  {
    hide Rounds, Routed, RouteErrorText, SubsetOf, Await, Told, Judged;
    var o := RunOf(id, schema, env, now, parent);
    if |o.stages| > 1 && o.stages[1].error.None? {
      var c, t1, head := RunSplit(id, schema, env, now, parent);
      var rest := Rounds(c, 1, t1, "", "");
      RoundsAreTold(c, 1, t1, "", "");
      GenerateCallsAppend(head, rest.calls);
      NoGenerate(head);
      RecordedStep(c, o, head, rest);
    } else {
      NoGenerate(o.calls);
    }
  }

  lemma RecordedStep(c: Context, o: Outcome, head: seq<Call>, rest: Outcome)
    requires |o.stages| >= 2 && o.stages == o.stages[..2] + rest.stages && o.calls == head + rest.calls
    requires GenerateCalls(o.calls) == GenerateCalls(rest.calls)
    requires AllTold(c, GenerateCalls(rest.calls), rest.stages, 1) && AllJudged(c, rest.calls, rest.stages, 1)
    ensures var gens := GenerateCalls(o.calls);
            (forall n :: 0 <= n < |gens| ==> 2 * n + 2 < |o.stages| && Told(c, gens[n], o.stages[2 * n + 2], n + 1))
            && forall n :: 0 <= n && 2 * n + 3 < |o.stages| ==>
                 Judged(c, o.calls, o.stages[2 * n + 2], o.stages[2 * n + 3], n + 1)
  {
    hide Told, Judged, GenerateCalls;
    forall n | 0 <= n < |GenerateCalls(o.calls)|
      ensures 2 * n + 2 < |o.stages| && Told(c, GenerateCalls(o.calls)[n], o.stages[2 * n + 2], n + 1)
    {
      assert o.stages[2 * n + 2] == rest.stages[2 * n];
    }
    forall n | 0 <= n && 2 * n + 3 < |o.stages|
      ensures Judged(c, o.calls, o.stages[2 * n + 2], o.stages[2 * n + 3], n + 1)
    {
      assert o.stages[2 * n + 2] == rest.stages[2 * n] && o.stages[2 * n + 3] == rest.stages[2 * n + 1];
      MoreCalls(c, rest.calls, o.calls, rest.stages[2 * n], rest.stages[2 * n + 1], n + 1);
    }
  }

  // ---- Intent and routing ----

  /** The first stage holds the classifier's answer; the run goes on to routing exactly if the classifier answered that
      the question is in scope; and the second stage holds what became of the router's answer. */
  lemma IntentThenRouting(id: string, schema: Schema, env: Env, now: Time, parent: Option<Time>)
    ensures var o := RunOf(id, schema, env, now, parent);
            var intent := env.classify(now);
            o.stages != [] && o.stages[0] == Stage(IntentStage, IntentOutput(intent.modality, intent.inScope), 0, intent.err)
            && (|o.stages| > 1 <==> intent.err.None? && intent.inScope)
            && (|o.stages| > 1 && schema.tables == [] ==> o.stages[1].error == Some("rag: schema has no tables"))
            && (|o.stages| > 1 && schema.tables != [] ==>
                  |o.calls| > 1 && o.calls[1].RouteCall?
                  && var e := o.calls[1];
                     var reply := env.route(schema, e.start);
                     var (end, answer) := Await(e.start, e.deadline, reply.took, reply.answer);
                     e.end == end && o.stages[1].name == RoutingStage && o.stages[1].latencyMs == LatencyOf(e)
                     && match Routed(answer, schema)
                        case Err(why) => o.stages[1].error == Some(RouteErrorText(why))
                        case Ok(names) => o.stages[1].error == None && o.stages[1].output == RoutingOutput(names))
  {
    hide Rounds, Filtered, SubsetOf, Await;
  }

  // ---- The error of a run ----

  /** What the trace of the rounds says about the error of the run. */
  function LastError(st: seq<Stage>, prior: string): Option<string> {
    if st == [] then Some("agent: no valid query after 3 attempts: " + prior)
    else
      var last := st[|st| - 1];
      if last.error.None? then None
      else if last.name == GenerationStage then last.error
      else Some("agent: no valid query after 3 attempts: " + last.error.value)
  }

  lemma {:induction false} RoundsError(c: Context, attempt: nat, now: Time, prior: string, sql: string)
    requires 1 <= attempt <= MAX_ATTEMPTS + 1
    ensures var o := Rounds(c, attempt, now, prior, sql); o.err == LastError(o.stages, prior)
    decreases MAX_ATTEMPTS + 1 - attempt
  {
    hide RoundOf;
    if attempt <= MAX_ATTEMPTS {
      var r := RoundOf(c, attempt, now, prior);
      RoundShape(c, attempt, now, prior);
      if r.end.Retry? {
        RoundsError(c, attempt + 1, r.finish, r.end.text, r.query);
        var rest := Rounds(c, attempt + 1, r.finish, r.end.text, r.query);
        if rest.stages == [] {
          assert r.stages + rest.stages == r.stages;
        } else {
          assert (r.stages + rest.stages)[|r.stages| + |rest.stages| - 1] == rest.stages[|rest.stages| - 1];
        }
      }
    }
  }

  /** The error of a run is that of its last stage: as it is if the classifier, the router or the model failed, and after
      "no valid query" if a third attempt was to be corrected; an out-of-scope question has its own. */
  lemma ErrorIsTheLast(id: string, schema: Schema, env: Env, now: Time, parent: Option<Time>)
    ensures var o := RunOf(id, schema, env, now, parent);
            o.stages != []
            && var last := o.stages[|o.stages| - 1];
               o.err == if last.name == IntentStage && last.error.None? then Some("agent: question is out of scope")
                        else if last.error.None? then None
                        else if last.name == ValidationStage || last.name == ExecutionStage then
                          Some("agent: no valid query after 3 attempts: " + last.error.value)
                        else last.error
  {
    hide Rounds, Routed, RouteErrorText, SubsetOf, Await;
    var o := RunOf(id, schema, env, now, parent);
    if |o.stages| > 1 && o.stages[1].error.None? { LongRunError(id, schema, env, now, parent); }
  }

  lemma LongRunError(id: string, schema: Schema, env: Env, now: Time, parent: Option<Time>)
    requires var o := RunOf(id, schema, env, now, parent); |o.stages| > 1 && o.stages[1].error.None?
    ensures var o := RunOf(id, schema, env, now, parent);
            var last := o.stages[|o.stages| - 1];
            last.name in {GenerationStage, ValidationStage, ExecutionStage}
            && o.err == if last.error.None? then None
                        else if last.name == GenerationStage then last.error
                        else Some("agent: no valid query after 3 attempts: " + last.error.value)
  {
    hide RunOf, Rounds, SubsetOf, RoundsGrammar;
    var c, t1, head := RunSplit(id, schema, env, now, parent);
    var o, rest := RunOf(id, schema, env, now, parent), Rounds(c, 1, t1, "", "");
    RoundsError(c, 1, t1, "", "");
    SomeRound(c, t1);
    RoundsFollowGrammar(c, 1, t1, "", "");
    GrammarNames(rest.stages, 0, rest.err.None?);
    assert o.stages[|o.stages| - 1] == rest.stages[|rest.stages| - 1];
  }

  lemma SomeRound(c: Context, now: Time)
    ensures Rounds(c, 1, now, "", "").stages != []
  {
    hide RoundOf;
    RoundShape(c, 1, now, "");
  }

  /** The last stage of the rounds is a generation, a table check or an execution. */
  lemma {:induction false} GrammarNames(st: seq<Stage>, k: nat, ok: bool)
    requires RoundsGrammar(st, k, ok) && st != []
    ensures st[|st| - 1].name in {GenerationStage, ValidationStage, ExecutionStage}
  {
    if |st| >= 2 && k < 3 && CorrectedRound(st[0], st[1], k + 1) && st[2..] != [] {
      GrammarNames(st[2..], k + 1, ok);
      assert st[|st| - 1] == st[2..][|st[2..]| - 1];
    }
  }

  // ---- A run whose callees all answer in time ----

  /** Every callee answers, each within its own time and all within the run's, and every check passes: `resp` is the
      router's answer, `sel` the sub-schema it names, `query` the model's, and `rows` the database's. */
  ghost predicate Prompt(id: string, schema: Schema, env: Env, now: Time, parent: Option<Time>, resp: string,
                         sel: Schema, query: string, rows: Executor.ResultSet)
  {
    var t0 := now + env.classify(now).took;
    var ask := env.route(schema, t0);
    var t1 := t0 + ask.took;
    var gen := env.generate(1, "", sel, t1);
    var t2 := t1 + gen.took;
    var run := env.execute(1, id, query, t2);
    env.classify(now).err.None? && env.classify(now).inScope
    && schema.tables != [] && ask.answer == Ok(resp) && Routed(Ok(resp), schema).Ok?
    && sel == SubsetOf(schema, Routed(Ok(resp), schema).value)
    && gen.answer.Ok? && ExtractSQL(gen.answer.value) == query && query != "" && TableError(query, sel) == None
    && Answered(id, query, run).0 == Ok(rows)
    && ask.took <= 15_000_000_000 && gen.took <= 15_000_000_000 && run.took <= 10_000_000_000
    && t2 < now + 30_000_000_000 && t2 + run.took <= now + 30_000_000_000
    && (parent.Some? ==> t2 < parent.value && t2 + run.took <= parent.value)
  }

  /** Such a run succeeds at its first attempt, when the last callee has answered: its rows are the database's, its query
      the model's, and its trace has four stages. */
  lemma PromptRunSucceeds(id: string, schema: Schema, env: Env, now: Time, parent: Option<Time>, resp: string,
                          sel: Schema, query: string, rows: Executor.ResultSet)
    requires Prompt(id, schema, env, now, parent, resp, sel, query, rows)
    ensures var o := RunOf(id, schema, env, now, parent);
            o.err == None && o.result == Some(rows) && o.sql == query && o.attempts == 1 && |o.stages| == 4
            && o.finish == now + env.classify(now).took + env.route(schema, now + env.classify(now).took).took
                           + PromptTail(id, schema, env, now, sel, query)
  {
    hide Rounds, Routed, SubsetOf, RouteErrorText, Answered, TableError, ExtractSQL;
    var t0 := now + env.classify(now).took;
    var t1 := t0 + env.route(schema, t0).took;
    var c := Context(id, env, RootDeadline(now, parent), sel);
    assert Await(t0, Min(c.root, t0 + ROUTE_TIMEOUT), env.route(schema, t0).took, env.route(schema, t0).answer)
           == (t1, Ok(resp));
    PromptRound(c, t1, query, rows);
  }

  /** How long the model and the executor take in such a run. */
  function PromptTail(id: string, schema: Schema, env: Env, now: Time, sel: Schema, query: string): nat {
    var t0 := now + env.classify(now).took;
    var t1 := t0 + env.route(schema, t0).took;
    var gen := env.generate(1, "", sel, t1);
    gen.took + env.execute(1, id, query, t1 + gen.took).took
  }

  lemma PromptRound(c: Context, t1: Time, query: string, rows: Executor.ResultSet)
    requires var gen := c.env.generate(1, "", c.tables, t1);
             var t2 := t1 + gen.took;
             var run := c.env.execute(1, c.id, query, t2);
             gen.answer.Ok? && ExtractSQL(gen.answer.value) == query && query != "" && TableError(query, c.tables) == None
             && Answered(c.id, query, run).0 == Ok(rows) && gen.took <= 15_000_000_000 && run.took <= 10_000_000_000
             && t2 < c.root && t2 + run.took <= c.root
    ensures var o := Rounds(c, 1, t1, "", "");
            var gen := c.env.generate(1, "", c.tables, t1);
            o.err == None && o.result == Some(rows) && o.sql == query && o.attempts == 1 && |o.stages| == 2
            && o.finish == t1 + gen.took + c.env.execute(1, c.id, query, t1 + gen.took).took
  {
    hide Answered, TableError, ExtractSQL;
    var gen := c.env.generate(1, "", c.tables, t1);
    var t2 := t1 + gen.took;
    var run := c.env.execute(1, c.id, query, t2);
    assert Await(t1, Min(c.root, t1 + GEN_TIMEOUT), gen.took, gen.answer) == (t2, gen.answer);
    assert Await(t2, Min(c.root, t2 + EXEC_TIMEOUT), run.took, Answered(c.id, query, run).0) == (t2 + run.took, Ok(rows));
  }
}
