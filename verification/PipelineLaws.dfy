/** What every run of the pipeline satisfies, whatever the callees answer and however long they take. */
module PipelineLaws {
  import opened Ascii
  import opened Fence
  import opened Gate
  import opened Guard
  import opened Pipeline
  import opened Routing
  import opened SchemaModel
  import opened TableCheck
  import opened Wrappers

  // ---- The grammar of the trace ----

  /** An ok generation of the attempt. */
  predicate GoodGeneration(s: Stage, attempt: nat) {
    s.name == GenerationStage && s.error.None? && s.output.GenerationOutput? && s.output.attempt == attempt
  }

  /** A round to be corrected: ok generation, then a failed table check or a failed execution. */
  predicate CorrectedRound(g: Stage, f: Stage, attempt: nat) {
    GoodGeneration(g, attempt) && f.error.Some?
    && ((f.name == ValidationStage && f.output == ValidationOutput(attempt))
        || (f.name == ExecutionStage && f.output == ExecutionOutput(attempt)))
  }

  predicate OkExecution(s: Stage, attempt: nat) {
    s.name == ExecutionStage && s.error.None? && s.output.RowsOutput? && s.output.attempt == attempt
  }

  /** How a trace may end after `k` corrected rounds. */
  predicate LegalEnd(st: seq<Stage>, k: nat, ok: bool) {
    if k == 3 then st == [] && !ok
    else if |st| == 1 then
      st[0].name == GenerationStage && st[0].error.Some? && st[0].output == GenerationOutput(k + 1, "") && !ok
    else |st| == 2 && GoodGeneration(st[0], k + 1) && OkExecution(st[1], k + 1) && ok
  }

  predicate RoundsGrammar(st: seq<Stage>, k: nat, ok: bool) {
    if |st| >= 2 && k < 3 && CorrectedRound(st[0], st[1], k + 1) then RoundsGrammar(st[2..], k + 1, ok)
    else k <= 3 && LegalEnd(st, k, ok)
  }

  /** `intent`, then `routing` if the question is in scope, then the rounds; `ok` says the run had no error. */
  predicate TraceGrammar(st: seq<Stage>, ok: bool) {
    st != [] && st[0].name == IntentStage
    && if |st| == 1 then !ok
       else
         st[0].error.None? && st[1].name == RoutingStage
         && if st[1].error.Some? then |st| == 2 && !ok else RoundsGrammar(st[2..], 0, ok)
  }

  function Generations(st: seq<Stage>): nat {
    if st == [] then 0 else (if st[0].name == GenerationStage then 1 else 0) + Generations(st[1..])
  }

  lemma {:induction false} GenerationsAppend(a: seq<Stage>, b: seq<Stage>)
    ensures Generations(a + b) == Generations(a) + Generations(b)
  {
    if a == [] {
      assert a + b == b;
    } else {
      assert (a + b)[1..] == a[1..] + b && (a + b)[0] == a[0];
      GenerationsAppend(a[1..], b);
    }
  }

  /** The shape of one round. */
  lemma RoundShape(c: Context, attempt: nat, now: Time, prior: string)
    ensures var r := RoundOf(c, attempt, now, prior);
            Generations(r.stages) == 1
            && match r.end
               case GenerationFailed(text) =>
                 |r.stages| == 1 && r.stages[0].name == GenerationStage && r.stages[0].error == Some(text)
                 && r.stages[0].output == GenerationOutput(attempt, "")
               case Retry(text) =>
                 |r.stages| == 2 && CorrectedRound(r.stages[0], r.stages[1], attempt) && r.stages[1].error == Some(text)
                 && r.stages[0].output.sql == r.query
               case Answers(_) =>
                 |r.stages| == 2 && GoodGeneration(r.stages[0], attempt) && OkExecution(r.stages[1], attempt)
                 && r.stages[0].output.sql == r.query
  {
    hide TableError, Generated, Await, Answered;
    var r := RoundOf(c, attempt, now, prior);
    if |r.stages| == 2 {
      assert r.stages == [r.stages[0]] + [r.stages[1]];
      GenerationsAppend([r.stages[0]], [r.stages[1]]);
      assert [r.stages[0]][1..] == [] && [r.stages[1]][1..] == [];
    } else {
      assert r.stages[1..] == [];
    }
  }

  lemma GrammarStep(first: seq<Stage>, rest: seq<Stage>, k: nat, ok: bool)
    requires k < 3 && |first| == 2 && CorrectedRound(first[0], first[1], k + 1) && RoundsGrammar(rest, k + 1, ok)
    ensures RoundsGrammar(first + rest, k, ok)
  {
    assert (first + rest)[2..] == rest;
  }

  lemma {:induction false} RoundsFollowGrammar(c: Context, attempt: nat, now: Time, prior: string, sql: string)
    requires 1 <= attempt <= MAX_ATTEMPTS + 1
    ensures var o := Rounds(c, attempt, now, prior, sql);
            RoundsGrammar(o.stages, attempt - 1, o.err.None?)
            && o.attempts == attempt - 1 + Generations(o.stages)
    decreases MAX_ATTEMPTS + 1 - attempt
  {
    hide RoundOf, Generations, CorrectedRound;
    if attempt <= MAX_ATTEMPTS {
      var r := RoundOf(c, attempt, now, prior);
      RoundShape(c, attempt, now, prior);
      if r.end.Retry? {
        RoundsFollowGrammar(c, attempt + 1, r.finish, r.end.text, r.query);
        var rest := Rounds(c, attempt + 1, r.finish, r.end.text, r.query);
        GenerationsAppend(r.stages, rest.stages);
        GrammarStep(r.stages, rest.stages, attempt - 1, rest.err.None?);
      } else {
        LastRound(r, attempt);
      }
    } else {
      NoGenerations();
    }
  }

  lemma LastRound(r: Round, attempt: nat)
    requires 1 <= attempt <= MAX_ATTEMPTS
    requires r.end.GenerationFailed? ==>
      |r.stages| == 1 && r.stages[0].name == GenerationStage && r.stages[0].error.Some?
      && r.stages[0].output == GenerationOutput(attempt, "")
    requires !r.end.GenerationFailed? ==>
      |r.stages| == 2 && GoodGeneration(r.stages[0], attempt) && OkExecution(r.stages[1], attempt)
    ensures RoundsGrammar(r.stages, attempt - 1, !r.end.GenerationFailed?)
  {}

  lemma NoGenerations()
    ensures Generations([]) == 0
  {}

  /** Every run's trace follows the grammar, with no error exactly at a full success; and `Attempts` counts the
      generation stages. */
  lemma RunFollowsGrammar(id: string, schema: Schema, env: Env, now: Time, parent: Option<Time>)
    ensures var o := RunOf(id, schema, env, now, parent);
            TraceGrammar(o.stages, o.err.None?) && o.attempts == Generations(o.stages)
  {
    hide Rounds, Routed, RouteErrorText, SubsetOf;
    var o := RunOf(id, schema, env, now, parent);
    if |o.stages| > 1 && o.stages[1].error.None? {
      var root := RootDeadline(now, parent);
      var tables := o.stages[1].output.tables;
      var c := Context(id, env, root, SubsetOf(schema, tables));
      var t1 := RoutedAt(schema, env, now, root);
      RoundsFollowGrammar(c, 1, t1, "", "");
      var rest := Rounds(c, 1, t1, "", "");
      var head := o.stages[..2];
      assert o.stages == head + rest.stages;
      assert o.stages[2..] == rest.stages;
      GenerationsAppend(head, rest.stages);
      assert head == [head[0]] + [head[1]];
      GenerationsAppend([head[0]], [head[1]]);
    } else if |o.stages| == 2 {
      assert o.stages == [o.stages[0]] + [o.stages[1]];
      GenerationsAppend([o.stages[0]], [o.stages[1]]);
    }
  }

  /** When routing has returned. */
  function RoutedAt(schema: Schema, env: Env, now: Time, root: Time): Time {
    var t0 := ClassifiedAt(now, root, env.classify(now).took);
    if schema.tables == [] then t0
    else Await(t0, Min(root, t0 + ROUTE_TIMEOUT), env.route(schema, t0).took, env.route(schema, t0).answer).0
  }

  lemma {:induction false} RoundsGrammarBounds(st: seq<Stage>, k: nat, ok: bool)
    requires RoundsGrammar(st, k, ok)
    ensures k <= 3 && |st| <= 2 * (3 - k)
    ensures ok <==> st != [] && st[|st| - 1].name == ExecutionStage && st[|st| - 1].error.None?
  {
    if |st| >= 2 && k < 3 && CorrectedRound(st[0], st[1], k + 1) {
      RoundsGrammarBounds(st[2..], k + 1, ok);
      if st[2..] != [] { assert st[|st| - 1] == st[2..][|st[2..]| - 1]; }
    }
  }

  /** A trace has at most eight stages, and the error is nil exactly when the last stage is an ok execution. */
  lemma TraceBounds(st: seq<Stage>, ok: bool)
    requires TraceGrammar(st, ok)
    ensures |st| <= 8
    ensures ok <==> st[|st| - 1].name == ExecutionStage && st[|st| - 1].error.None?
  {
    if |st| > 1 && st[1].error.None? {
      RoundsGrammarBounds(st[2..], 0, ok);
      if |st| > 2 { assert st[|st| - 1] == st[2..][|st| - 3]; }
    }
  }

  // ---- Feedback ----

  function GenerateCalls(calls: seq<Call>): seq<Call> {
    if calls == [] then []
    else (if calls[0].GenerateCall? then [calls[0]] else []) + GenerateCalls(calls[1..])
  }

  lemma {:induction false} GenerateCallsAppend(a: seq<Call>, b: seq<Call>)
    ensures GenerateCalls(a + b) == GenerateCalls(a) + GenerateCalls(b)
  {
    if a == [] {
      assert a + b == b;
    } else {
      assert (a + b)[1..] == a[1..] + b && (a + b)[0] == a[0];
      GenerateCallsAppend(a[1..], b);
      var head := if a[0].GenerateCall? then [a[0]] else [];
      assert head + (GenerateCalls(a[1..]) + GenerateCalls(b)) == (head + GenerateCalls(a[1..])) + GenerateCalls(b);
    }
  }

  /** One call of the generator per round, made with what the round was given. */
  lemma RoundAsksOnce(c: Context, attempt: nat, now: Time, prior: string)
    ensures var r := RoundOf(c, attempt, now, prior);
            |GenerateCalls(r.calls)| == 1
            && var g := GenerateCalls(r.calls)[0];
               g.GenerateCall? && g.attempt == attempt && g.prior == prior && g.tables == c.tables
  {
    hide TableError, Generated, Await, Answered;
    var r := RoundOf(c, attempt, now, prior);
    var g := r.calls[0];
    if |r.calls| == 2 {
      assert r.calls == [g] + [r.calls[1]];
      GenerateCallsAppend([g], [r.calls[1]]);
    } else {
      assert r.calls == [g];
    }
  }

  /** The j-th generator call of the rounds is given the error of the stage that ended the round before it. */
  ghost predicate Fed(gens: seq<Call>, st: seq<Stage>, attempt: nat, prior: string, tables: Schema) {
    (forall j :: 0 <= j < |gens| ==>
       gens[j].GenerateCall? && gens[j].attempt == attempt + j && gens[j].tables == tables)
    && (gens != [] ==> gens[0].prior == prior)
    && (forall j :: 0 < j < |gens| ==> 2 * j - 1 < |st| && st[2 * j - 1].error == Some(gens[j].prior))
  }

  lemma FedStep(g: Call, s0: Stage, s1: Stage, gens: seq<Call>, st: seq<Stage>, attempt: nat, prior: string,
                text: string, tables: Schema)
    requires g.GenerateCall? && g.attempt == attempt && g.prior == prior && g.tables == tables
    requires s1.error == Some(text) && Fed(gens, st, attempt + 1, text, tables)
    ensures Fed([g] + gens, [s0, s1] + st, attempt, prior, tables)
  {
    var gs, ss := [g] + gens, [s0, s1] + st;
    forall j | 0 <= j < |gs| ensures gs[j].GenerateCall? && gs[j].attempt == attempt + j && gs[j].tables == tables {
      if j > 0 { assert gs[j] == gens[j - 1]; }
    }
    forall j | 0 < j < |gs| ensures 2 * j - 1 < |ss| && ss[2 * j - 1].error == Some(gs[j].prior) {
      assert gs[j] == gens[j - 1];
      if j > 1 { assert ss[2 * j - 1] == st[2 * (j - 1) - 1]; }
    }
  }

  lemma {:induction false} RoundsFeedBack(c: Context, attempt: nat, now: Time, prior: string, sql: string)
    requires 1 <= attempt <= MAX_ATTEMPTS + 1
    ensures var o := Rounds(c, attempt, now, prior, sql);
            Fed(GenerateCalls(o.calls), o.stages, attempt, prior, c.tables)
            && |GenerateCalls(o.calls)| == Generations(o.stages)
    decreases MAX_ATTEMPTS + 1 - attempt
  {
    hide RoundOf, Fed;
    if attempt <= MAX_ATTEMPTS {
      var r := RoundOf(c, attempt, now, prior);
      RoundShape(c, attempt, now, prior);
      RoundAsksOnce(c, attempt, now, prior);
      var g := GenerateCalls(r.calls)[0];
      assert GenerateCalls(r.calls) == [g];
      if r.end.Retry? {
        RoundsFeedBack(c, attempt + 1, r.finish, r.end.text, r.query);
        var rest := Rounds(c, attempt + 1, r.finish, r.end.text, r.query);
        GenerateCallsAppend(r.calls, rest.calls);
        GenerationsAppend(r.stages, rest.stages);
        assert r.stages == [r.stages[0], r.stages[1]];
        FedStep(g, r.stages[0], r.stages[1], GenerateCalls(rest.calls), rest.stages, attempt, prior, r.end.text, c.tables);
      } else {
        FedOne(g, r.stages, attempt, prior, c.tables);
      }
    } else {
      FedNone(attempt, prior, c.tables);
    }
  }

  lemma FedOne(g: Call, st: seq<Stage>, attempt: nat, prior: string, tables: Schema)
    requires g.GenerateCall? && g.attempt == attempt && g.prior == prior && g.tables == tables
    ensures Fed([g], st, attempt, prior, tables)
  {}

  lemma FedNone(attempt: nat, prior: string, tables: Schema)
    ensures Fed([], [], attempt, prior, tables)
  {}

  /** In every run the first generation gets an empty prior error, and the generation of each later attempt gets
      exactly the error text of the stage that ended the attempt before: stage 2n + 1 of the trace, after intent,
      routing and two stages for each earlier attempt. */
  lemma FeedbackIsExact(id: string, schema: Schema, env: Env, now: Time, parent: Option<Time>)
    ensures var o := RunOf(id, schema, env, now, parent);
            var gens := GenerateCalls(o.calls);
            |gens| == o.attempts
            && (forall n :: 0 <= n < |gens| ==> gens[n].GenerateCall? && gens[n].attempt == n + 1)
            && (gens != [] ==> gens[0].prior == "")
            && (forall n :: 0 < n < |gens| ==> 2 * n + 1 < |o.stages| && o.stages[2 * n + 1].error == Some(gens[n].prior))
            && (gens != [] ==> |o.stages| > 1 && o.stages[1].output.RoutingOutput?)
            && (forall n :: 0 <= n < |gens| ==> gens[n].tables == SubsetOf(schema, o.stages[1].output.tables))
  {
    hide Rounds, Routed, RouteErrorText, SubsetOf, Await;
    var o := RunOf(id, schema, env, now, parent);
    RunFollowsGrammar(id, schema, env, now, parent);
    var gens := GenerateCalls(o.calls);
    if |o.stages| > 1 && o.stages[1].error.None? {
      var c, t1, head := RunSplit(id, schema, env, now, parent);
      var rest := Rounds(c, 1, t1, "", "");
      RoundsFollowGrammar(c, 1, t1, "", "");
      RoundsFeedBack(c, 1, t1, "", "");
      GenerateCallsAppend(head, rest.calls);
      NoGenerate(head);
      forall n | 0 < n < |gens| ensures 2 * n + 1 < |o.stages| && o.stages[2 * n + 1].error == Some(gens[n].prior) {
        assert rest.stages[2 * n - 1].error == Some(gens[n].prior);
        assert o.stages[2 * n + 1] == o.stages[2..][2 * n - 1];
      }
    } else {
      NoGenerate(o.calls);
    }
  }

  lemma {:induction false} NoGenerate(calls: seq<Call>)
    requires forall i :: 0 <= i < |calls| ==> !calls[i].GenerateCall?
    ensures GenerateCalls(calls) == []
  {
    if calls != [] { NoGenerate(calls[1..]); }
  }

  lemma NoTablesNoRoute(answer: Result<string, string>, schema: Schema)
    requires schema.tables == []
    ensures Routed(answer, schema).Err?
  {}

  /** A run that got past routing is its first calls and stages, and then its rounds on the routed sub-schema. */
  lemma RunSplit(id: string, schema: Schema, env: Env, now: Time, parent: Option<Time>)
    returns (c: Context, t1: Time, head: seq<Call>)
    requires var o := RunOf(id, schema, env, now, parent); |o.stages| > 1 && o.stages[1].error.None?
    ensures var o := RunOf(id, schema, env, now, parent);
            var rest := Rounds(c, 1, t1, "", "");
            o.stages[1].output.RoutingOutput?
            && c == Context(id, env, RootDeadline(now, parent), SubsetOf(schema, o.stages[1].output.tables))
            && t1 == RoutedAt(schema, env, now, c.root)
            && o.calls == head + rest.calls && o.stages == o.stages[..2] + rest.stages && o.stages[2..] == rest.stages
            && o.attempts == rest.attempts && o.sql == rest.sql && o.result == rest.result && o.err == rest.err
            && o.finish == rest.finish
            && var t0 := ClassifiedAt(now, c.root, env.classify(now).took);
               head == [ClassifyCall(now, t0, c.root), RouteCall(t0, t1, Min(c.root, t0 + ROUTE_TIMEOUT))]
  {
    hide Rounds, RouteErrorText, SubsetOf, Routed, Await;
    forall answer | schema.tables == [] ensures Routed(answer, schema).Err? { NoTablesNoRoute(answer, schema); }
    var o := RunOf(id, schema, env, now, parent);
    var root := RootDeadline(now, parent);
    c := Context(id, env, root, SubsetOf(schema, o.stages[1].output.tables));
    t1 := RoutedAt(schema, env, now, root);
    var t0 := ClassifiedAt(now, root, env.classify(now).took);
    head := [ClassifyCall(now, t0, root), RouteCall(t0, t1, Min(root, t0 + ROUTE_TIMEOUT))];
    assert head == [head[0]] + [head[1]];
    var rest := Rounds(c, 1, t1, "", "");
    assert o.stages[..2] + rest.stages == o.stages;
  }

  // ---- The answer ----

  /** The query of the last ok generation stage; `sql` if there is none. */
  function LastSql(st: seq<Stage>, sql: string): string {
    if st == [] then sql
    else
      var last := st[|st| - 1];
      if last.name == GenerationStage && last.error.None? && last.output.GenerationOutput? then last.output.sql
      else LastSql(st[..|st| - 1], sql)
  }

  lemma {:induction false} LastSqlAppend(a: seq<Stage>, b: seq<Stage>, sql: string)
    ensures LastSql(a + b, sql) == LastSql(b, LastSql(a, sql))
  {
    if b == [] {
      assert a + b == a;
    } else {
      var n := |b| - 1;
      LastSqlAppend(a, b[..n], sql);
      assert (a + b)[..|a| + n] == a + b[..n];
    }
  }

  lemma RoundSql(c: Context, attempt: nat, now: Time, prior: string, sql: string)
    ensures var r := RoundOf(c, attempt, now, prior);
            LastSql(r.stages, sql) == if r.end.GenerationFailed? then sql else r.query
  {
    hide RoundOf;
    RoundShape(c, attempt, now, prior);
    var st := RoundOf(c, attempt, now, prior).stages;
    assert st[..|st| - 1] == if |st| == 1 then [] else [st[0]];
    if |st| == 2 { assert LastSql([st[0]], sql) == st[0].output.sql; }
  }

  lemma {:induction false} RoundsSql(c: Context, attempt: nat, now: Time, prior: string, sql: string)
    requires 1 <= attempt <= MAX_ATTEMPTS + 1
    ensures var o := Rounds(c, attempt, now, prior, sql); o.sql == LastSql(o.stages, sql)
    decreases MAX_ATTEMPTS + 1 - attempt
  {
    hide RoundOf, LastSql;
    if attempt <= MAX_ATTEMPTS {
      var r := RoundOf(c, attempt, now, prior);
      RoundSql(c, attempt, now, prior, sql);
      if r.end.Retry? {
        RoundsSql(c, attempt + 1, r.finish, r.end.text, r.query);
        LastSqlAppend(r.stages, Rounds(c, attempt + 1, r.finish, r.end.text, r.query).stages, sql);
      }
    } else {
      NoSql(sql);
    }
  }

  lemma {:induction false} NoSqlYet(st: seq<Stage>)
    requires forall i :: 0 <= i < |st| ==> st[i].name != GenerationStage
    ensures LastSql(st, "") == ""
  {
    if st != [] { NoSqlYet(st[..|st| - 1]); }
  }

  lemma NoSql(sql: string)
    ensures LastSql([], sql) == sql
  {}

  /** `Answer.SQL` is the query of the last ok generation, even when a later generation fails. */
  lemma AnswerHoldsLastSql(id: string, schema: Schema, env: Env, now: Time, parent: Option<Time>)
    ensures var o := RunOf(id, schema, env, now, parent); o.sql == LastSql(o.stages, "")
  {
    hide Rounds, Routed, RouteErrorText, SubsetOf, Await;
    var o := RunOf(id, schema, env, now, parent);
    if |o.stages| > 1 && o.stages[1].error.None? {
      var c, t1, head := RunSplit(id, schema, env, now, parent);
      RoundsSql(c, 1, t1, "", "");
      var front := o.stages[..2];
      NoSqlYet(front);
      LastSqlAppend(front, o.stages[2..], "");
      assert o.stages == front + o.stages[2..];
    } else {
      NoSqlYet(o.stages);
    }
  }

  // ---- Only checked queries are submitted ----

  /** A submitted query is extracted text, passed the table check on the given schema, and what may have reached
      the database for it is its own Validate output. */
  ghost predicate Checked(call: Call, tables: Schema) {
    call.ExecuteCall? ==>
      call.query != "" && Trimmed(call.query) && !Contains(call.query, FENCE)
      && TableError(call.query, tables) == None
      && (call.reached.Some? ==> Validate(call.query, RowCap(0)) == Ok(call.reached.value))
  }

  lemma RoundIsChecked(c: Context, attempt: nat, now: Time, prior: string)
    ensures var r := RoundOf(c, attempt, now, prior);
            (forall call :: call in r.calls ==> Checked(call, c.tables))
            && (r.end.Answers? ==>
                  var last := r.calls[|r.calls| - 1];
                  last.ExecuteCall? && last.query == r.query && last.reached.Some?
                  && Answered(c.id, last.query, c.env.execute(attempt, c.id, last.query, last.start)).0 == Ok(r.end.result))
  {
    hide TableError, Validate, ExtractSQL, Contains;
    var gen := GenerateStep(c, attempt, now, prior);
    if !gen.end.GenerationFailed? {
      var resp := Await(now, Min(c.root, now + GEN_TIMEOUT), c.env.generate(attempt, prior, c.tables, now).took,
                        c.env.generate(attempt, prior, c.tables, now).answer).1.value;
      ExtractIsFinal(resp);
      assert gen.query == ExtractSQL(resp);
    }
  }

  lemma {:induction false} RoundsAreChecked(c: Context, attempt: nat, now: Time, prior: string, sql: string)
    requires 1 <= attempt <= MAX_ATTEMPTS + 1
    ensures var o := Rounds(c, attempt, now, prior, sql);
            (forall call :: call in o.calls ==> Checked(call, c.tables))
            && (o.result.Some? <==> o.err.None?)
            && (o.result.Some? ==>
                  o.calls != []
                  && var last := o.calls[|o.calls| - 1];
                     last.ExecuteCall? && last.query == o.sql && last.reached.Some?
                     && Answered(c.id, o.sql, c.env.execute(o.attempts, c.id, o.sql, last.start)).0 == Ok(o.result.value))
    decreases MAX_ATTEMPTS + 1 - attempt
  {
    hide RoundOf, Checked, Answered;
    if attempt <= MAX_ATTEMPTS {
      var r := RoundOf(c, attempt, now, prior);
      RoundIsChecked(c, attempt, now, prior);
      if r.end.Retry? {
        RoundsAreChecked(c, attempt + 1, r.finish, r.end.text, r.query);
      } else if r.end.Answers? {
        RoundHasCalls(c, attempt, now, prior);
      }
    }
  }

  lemma RoundHasCalls(c: Context, attempt: nat, now: Time, prior: string)
    ensures RoundOf(c, attempt, now, prior).calls != []
  {}

  /** A run that submits a query got past routing. */
  lemma SubmittingRunWasRouted(id: string, schema: Schema, env: Env, now: Time, parent: Option<Time>, call: Call)
    ensures var o := RunOf(id, schema, env, now, parent);
            call in o.calls && call.ExecuteCall? ==> |o.stages| > 1 && o.stages[1].error.None?
  {
    hide Rounds, Routed, RouteErrorText, SubsetOf, Await;
  }

  /** The sub-schema of a run that got past routing is a non-empty part of the schema, in its order. */
  lemma SelectedIsPart(id: string, schema: Schema, env: Env, now: Time, parent: Option<Time>)
    requires var o := RunOf(id, schema, env, now, parent); |o.stages| > 1 && o.stages[1].error.None?
    ensures var o := RunOf(id, schema, env, now, parent);
            o.stages[1].output.RoutingOutput?
            && var selected := SubsetOf(schema, o.stages[1].output.tables);
               selected.tables != [] && Subsequence(selected.tables, schema.tables)
  {
    hide Rounds, Routed, RouteErrorText, SubsetOf, Await, Subsequence;
    var root := RootDeadline(now, parent);
    var t0 := ClassifiedAt(now, root, env.classify(now).took);
    var answer := if schema.tables == [] then Err("")
                  else Await(t0, Min(root, t0 + ROUTE_TIMEOUT), env.route(schema, t0).took, env.route(schema, t0).answer).1;
    RoutedSubschema(answer, schema);
  }

  /** The end-to-end gate. In every run, each submitted query passed the table check on the routed sub-schema,
      which is a non-empty part of the schema; and whatever may have reached a database is the Validate output of
      such a query, with an allowed first keyword and a limit token. */
  lemma EveryQueryIsGated(id: string, schema: Schema, env: Env, now: Time, parent: Option<Time>, call: Call)
    ensures var o := RunOf(id, schema, env, now, parent);
            call in o.calls && call.ExecuteCall? ==>
              |o.stages| > 1 && o.stages[1].output.RoutingOutput?
              && var selected := SubsetOf(schema, o.stages[1].output.tables);
                 selected.tables != [] && Subsequence(selected.tables, schema.tables) && Checked(call, selected)
                 && (call.reached.Some? ==>
                       HasLimit(call.reached.value)
                       && (ToUpper(FirstWord(call.reached.value)) == "SELECT"
                           || ToUpper(FirstWord(call.reached.value)) == "WITH"))
  {
    hide RunOf, Rounds, SubsetOf, Validate, HasLimit, Allowed, TableError, Contains, Subsequence, FirstKeyword, ToUpper,
         FirstWord;
    if call in RunOf(id, schema, env, now, parent).calls && call.ExecuteCall? {
      SubmittingRunWasRouted(id, schema, env, now, parent, call);
      SelectedIsPart(id, schema, env, now, parent);
      var c, t1, head := RunSplit(id, schema, env, now, parent);
      RoundsAreChecked(c, 1, t1, "", "");
      assert call in Rounds(c, 1, t1, "", "").calls;
      OutputShape(call.query, RowCap(0));
    }
  }

  /** A run has rows exactly when it has no error; they are the database's answer to the query in the answer. */
  lemma ResultOnlyOnSuccess(id: string, schema: Schema, env: Env, now: Time, parent: Option<Time>)
    ensures var o := RunOf(id, schema, env, now, parent);
            (o.result.Some? <==> o.err.None?)
            && (o.result.Some? ==>
                  o.calls != []
                  && var last := o.calls[|o.calls| - 1];
                     last.ExecuteCall? && last.query == o.sql && last.reached.Some?
                     && Answered(id, o.sql, env.execute(o.attempts, id, o.sql, last.start)).0 == Ok(o.result.value))
  {
    hide Rounds, Filtered, RouteErrorText, SubsetOf, Await, Answered, Checked;
    var o := RunOf(id, schema, env, now, parent);
    if |o.stages| > 1 && o.stages[1].error.None? {
      var c, t1, head := RunSplit(id, schema, env, now, parent);
      RoundsAreChecked(c, 1, t1, "", "");
    }
  }
}
