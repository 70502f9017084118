/** The time budget of a run: every call within its deadline, the whole within 30 seconds. */
module PipelineTime {
  import opened Pipeline
  import opened PipelineLaws
  import opened Routing
  import opened SchemaModel
  import opened TableCheck
  import opened Wrappers

  /** The deadline of a call: the classifier has the run's, every other call its stage's own or the run's, whichever
      is earlier. */
  function Due(c: Call, root: Time): Time {
    match c
    case ClassifyCall(_, _, _) => root
    case RouteCall(start, _, _) => Min(root, start + ROUTE_TIMEOUT)
    case GenerateCall(start, _, _, _, _, _) => Min(root, start + GEN_TIMEOUT)
    case ExecuteCall(start, _, _, _, _, _) => Min(root, start + EXEC_TIMEOUT)
  }

  /** The calls follow each other between the two times, and each returns by its deadline, or at once if that has
      passed. */
  ghost predicate Timely(calls: seq<Call>, from: Time, to: Time, root: Time) {
    if calls == [] then from <= to
    else
      var c := calls[0];
      from <= c.start <= c.end && c.deadline == Due(c, root)
      && (if c.start < c.deadline then c.end <= c.deadline else c.end == c.start)
      && Timely(calls[1..], c.end, to, root)
  }

  /** The calls that start when the run's deadline has passed. */
  function Late(calls: seq<Call>, root: Time): nat {
    if calls == [] then 0 else (if calls[0].start >= root then 1 else 0) + Late(calls[1..], root)
  }

  /** The latencies recorded in the trace, added up. */
  function TotalMillis(st: seq<Stage>): nat {
    if st == [] then 0 else st[0].latencyMs + TotalMillis(st[1..])
  }

  lemma {:induction false} TimelyAppend(a: seq<Call>, b: seq<Call>, from: Time, mid: Time, to: Time, root: Time)
    requires Timely(a, from, mid, root) && Timely(b, mid, to, root)
    ensures Timely(a + b, from, to, root)
  {
    if a == [] {
      assert a + b == b;
      TimelyEarlier(b, from, mid, to, root);
    } else {
      TimelyAppend(a[1..], b, a[0].end, mid, to, root);
      assert (a + b)[1..] == a[1..] + b;
    }
  }

  lemma TimelyEarlier(calls: seq<Call>, from: Time, mid: Time, to: Time, root: Time)
    requires from <= mid && Timely(calls, mid, to, root)
    ensures Timely(calls, from, to, root)
  {}

  lemma {:induction false} LateAppend(a: seq<Call>, b: seq<Call>, root: Time)
    ensures Late(a + b, root) == Late(a, root) + Late(b, root)
  {
    if a == [] {
      assert a + b == b;
    } else {
      LateAppend(a[1..], b, root);
      assert (a + b)[1..] == a[1..] + b;
    }
  }

  lemma {:induction false} TotalAppend(a: seq<Stage>, b: seq<Stage>)
    ensures TotalMillis(a + b) == TotalMillis(a) + TotalMillis(b)
  {
    if a == [] {
      assert a + b == b;
    } else {
      TotalAppend(a[1..], b);
      assert (a + b)[1..] == a[1..] + b;
    }
  }

  lemma TotalOfTwo(a: Stage, b: Stage)
    ensures TotalMillis([a, b]) == a.latencyMs + b.latencyMs
  {
    assert [a, b] == [a] + [b];
    TotalAppend([a], [b]);
    TotalOfOne(a);
    TotalOfOne(b);
  }

  /** Recorded milliseconds are rounded down. */
  lemma MillisFloor(start: Time, end: Time)
    requires start <= end
    ensures Millis(start, end) * MILLISECOND <= end - start
  {}

  // ---- One round ----

  lemma GenerateInTime(c: Context, attempt: nat, now: Time, prior: string)
    ensures var r := GenerateStep(c, attempt, now, prior);
            Timely(r.calls, now, r.finish, c.root) && Late(r.calls, c.root) == (if now >= c.root then 1 else 0)
            && |r.stages| == 1 && r.stages[0].latencyMs * MILLISECOND <= r.finish - now
            && (now < c.root ==> r.finish <= c.root)
            && (now >= c.root ==> r.finish == now && r.end.GenerationFailed?)
  {
    hide Generated;
    var r := GenerateStep(c, attempt, now, prior);
    assert r.calls[1..] == [];
    MillisFloor(now, r.finish);
    ExpiredFails(now, c.root, GEN_TIMEOUT);
  }

  lemma ExpiredFails(now: Time, root: Time, timeout: Time)
    ensures now >= root ==> Min(root, now + timeout) <= now && Generated(Err(EXPIRED)).Err?
  {}

  lemma ExecuteInTime(c: Context, attempt: nat, now: Time, query: string)
    ensures var r := ExecuteStep(c, attempt, now, query);
            Timely(r.calls, now, r.finish, c.root) && Late(r.calls, c.root) == (if now >= c.root then 1 else 0)
            && |r.stages| == 1 && r.stages[0].latencyMs * MILLISECOND <= r.finish - now
            && (now < c.root ==> r.finish <= c.root)
            && (now >= c.root ==> r.finish == now && r.end.Retry?)
  {
    hide Answered;
    var r := ExecuteStep(c, attempt, now, query);
    assert r.calls[1..] == [];
    MillisFloor(now, r.finish);
  }

  /** A round is timely. Once the deadline has passed it only tries the generator, and fails; before, it makes at most
      one late call, and then only if it ends past the deadline. */
  lemma RoundInTime(c: Context, attempt: nat, now: Time, prior: string)
    ensures var r := RoundOf(c, attempt, now, prior);
            Timely(r.calls, now, r.finish, c.root)
            && TotalMillis(r.stages) * MILLISECOND <= r.finish - now
            && (now < c.root ==> r.finish <= c.root)
            && (now >= c.root ==> r.finish == now && r.end.GenerationFailed? && Late(r.calls, c.root) == 1)
            && (now < c.root ==> Late(r.calls, c.root) <= if r.finish >= c.root then 1 else 0)
  {
    hide GenerateStep, ExecuteStep, Timely, Late, TableError;
    GenerateInTime(c, attempt, now, prior);
    var gen := GenerateStep(c, attempt, now, prior);
    TotalOfOne(gen.stages[0]);
    assert gen.stages == [gen.stages[0]];
    if !gen.end.GenerationFailed? {
      match TableError(gen.query, c.tables) {
        case Some(text) =>
          TotalOfTwo(gen.stages[0], Stage(ValidationStage, ValidationOutput(attempt), 0, Some(text)));
        case None =>
          ExecuteInTime(c, attempt, gen.finish, gen.query);
          var run := ExecuteStep(c, attempt, gen.finish, gen.query);
          assert run.stages == [run.stages[0]];
          TotalOfTwo(gen.stages[0], run.stages[0]);
          TimelyAppend(gen.calls, run.calls, now, gen.finish, run.finish, c.root);
          LateAppend(gen.calls, run.calls, c.root);
      }
    }
  }

  lemma TotalOfOne(a: Stage)
    ensures TotalMillis([a]) == a.latencyMs
  {}

  // ---- All rounds ----

  lemma {:induction false} RoundsInTime(c: Context, attempt: nat, now: Time, prior: string, sql: string)
    requires 1 <= attempt <= MAX_ATTEMPTS + 1
    ensures var o := Rounds(c, attempt, now, prior, sql);
            Timely(o.calls, now, o.finish, c.root)
            && TotalMillis(o.stages) * MILLISECOND <= o.finish - now
            && o.finish <= (if now <= c.root then c.root else now)
            && Late(o.calls, c.root) <= (if now >= c.root then 1 else 2)
    decreases MAX_ATTEMPTS + 1 - attempt
  {
    hide RoundOf, Timely;
    if attempt <= MAX_ATTEMPTS {
      var r := RoundOf(c, attempt, now, prior);
      RoundInTime(c, attempt, now, prior);
      if r.end.Retry? {
        RoundsInTime(c, attempt + 1, r.finish, r.end.text, r.query);
        var rest := Rounds(c, attempt + 1, r.finish, r.end.text, r.query);
        TimelyAppend(r.calls, rest.calls, now, r.finish, rest.finish, c.root);
        LateAppend(r.calls, rest.calls, c.root);
        TotalAppend(r.stages, rest.stages);
      }
    } else {
      NoCalls(now, c.root);
    }
  }

  lemma NoCalls(now: Time, root: Time)
    ensures Timely([], now, now, root)
  {}

  // ---- The whole run ----

  /** Intent and routing: timely; and once the deadline has passed after the classifier, routing fails. */
  lemma HeadInTime(schema: Schema, env: Env, now: Time, parent: Option<Time>)
    ensures var root := RootDeadline(now, parent);
            var t0 := ClassifiedAt(now, root, env.classify(now).took);
            var t1 := RoutedAt(schema, env, now, root);
            var calls := [ClassifyCall(now, t0, root), RouteCall(t0, t1, Min(root, t0 + ROUTE_TIMEOUT))];
            now <= t0 <= t1 && t1 <= (if now <= root then root else now)
            && Timely(calls[..1], now, t0, root) && Timely(calls, now, t1, root)
            && Late(calls[..1], root) == (if now >= root then 1 else 0)
            && Late(calls, root) == (if now >= root then 1 else 0) + (if t0 >= root then 1 else 0)
            && (t0 >= root ==> t1 == t0)
  {
    var root := RootDeadline(now, parent);
    var t0 := ClassifiedAt(now, root, env.classify(now).took);
    var t1 := RoutedAt(schema, env, now, root);
    var a, b := ClassifyCall(now, t0, root), RouteCall(t0, t1, Min(root, t0 + ROUTE_TIMEOUT));
    assert [a, b][..1] == [a] && [a, b][1..] == [b] && [a][1..] == [] && [b][1..] == [];
  }

  /** Every run ends within 30 seconds and by its caller's deadline; the recorded latencies add up to at most 30000
      milliseconds; its calls follow each other, each within its deadline; and at most two of them start after the
      run's own deadline. A caller's deadline that has passed already is the time the run starts. */
  lemma RunInTime(id: string, schema: Schema, env: Env, now: Time, parent: Option<Time>)
    ensures var o := RunOf(id, schema, env, now, parent);
            var root := RootDeadline(now, parent);
            o.finish <= now + 30_000_000_000
            && (parent.Some? ==> o.finish <= if parent.value >= now then parent.value else now)
            && TotalMillis(o.stages) <= 30000
            && Timely(o.calls, now, o.finish, root)
            && Late(o.calls, root) <= 2
  {
    hide Rounds, Filtered, RouteErrorText, SubsetOf, Await, Timely, Late, TotalMillis;
    var o := RunOf(id, schema, env, now, parent);
    var root := RootDeadline(now, parent);
    HeadInTime(schema, env, now, parent);
    if |o.stages| > 1 && o.stages[1].error.None? {
      WholeRunInTime(id, schema, env, now, parent);
    } else {
      ShortRunInTime(id, schema, env, now, parent);
    }
  }

  lemma ShortRunInTime(id: string, schema: Schema, env: Env, now: Time, parent: Option<Time>)
    requires var o := RunOf(id, schema, env, now, parent); |o.stages| == 1 || o.stages[1].error.Some?
    ensures var o := RunOf(id, schema, env, now, parent);
            var root := RootDeadline(now, parent);
            now <= o.finish <= (if now <= root then root else now)
            && TotalMillis(o.stages) <= 30000
            && Timely(o.calls, now, o.finish, root) && Late(o.calls, root) <= 2
  {
    hide Rounds, Filtered, RouteErrorText, SubsetOf, Await, Timely, Late, TotalMillis;
    var o := RunOf(id, schema, env, now, parent);
    var root := RootDeadline(now, parent);
    var t0 := ClassifiedAt(now, root, env.classify(now).took);
    var t1 := RoutedAt(schema, env, now, root);
    HeadInTime(schema, env, now, parent);
    var calls := [ClassifyCall(now, t0, root), RouteCall(t0, t1, Min(root, t0 + ROUTE_TIMEOUT))];
    assert calls[..1] == [calls[0]];
    assert [calls[0]] + [calls[1]] == calls;
    assert [calls[0]] + [] == [calls[0]];
    assert o.calls == (if |o.stages| == 1 || schema.tables == [] then calls[..1] else calls);
    assert o.finish == if |o.stages| == 1 then t0 else t1;
    MillisFloor(t0, t1);
    if |o.stages| == 2 {
      assert o.stages == [o.stages[0], o.stages[1]];
      TotalOfTwo(o.stages[0], o.stages[1]);
    } else {
      assert o.stages == [o.stages[0]];
      TotalOfOne(o.stages[0]);
    }
  }

  lemma WholeRunInTime(id: string, schema: Schema, env: Env, now: Time, parent: Option<Time>)
    ensures var o := RunOf(id, schema, env, now, parent);
            var root := RootDeadline(now, parent);
            |o.stages| > 1 && o.stages[1].error.None? ==>
              now <= o.finish <= (if now <= root then root else now)
              && TotalMillis(o.stages) <= 30000
              && Timely(o.calls, now, o.finish, root) && Late(o.calls, root) <= 2
  {
    hide Rounds, Filtered, RouteErrorText, SubsetOf, Timely, Late, TotalMillis;
    var o := RunOf(id, schema, env, now, parent);
    if |o.stages| <= 1 || o.stages[1].error.Some? { return; }
    var root := RootDeadline(now, parent);
    var t0 := ClassifiedAt(now, root, env.classify(now).took);
    var c, t1, head := RunSplit(id, schema, env, now, parent);
    HeadInTime(schema, env, now, parent);
    var rest := Rounds(c, 1, t1, "", "");
    RoundsInTime(c, 1, t1, "", "");
    assert head == [ClassifyCall(now, t0, root), RouteCall(t0, t1, Min(root, t0 + ROUTE_TIMEOUT))];
    TimelyAppend(head, rest.calls, now, t1, rest.finish, root);
    LateAppend(head, rest.calls, root);
    assert t0 < root;
    MillisFloor(t0, t1);
    var front := o.stages[..2];
    assert front == [o.stages[0], o.stages[1]];
    TotalOfTwo(o.stages[0], o.stages[1]);
    TotalAppend(front, rest.stages);
    assert o.stages == front + rest.stages;
  }

  lemma {:induction false} TimelyCall(calls: seq<Call>, from: Time, to: Time, root: Time, c: Call)
    requires Timely(calls, from, to, root) && c in calls
    ensures c.deadline == Due(c, root) && c.start <= c.end && (c.start < c.deadline ==> c.end <= c.deadline)
  {
    if c != calls[0] {
      assert c in calls[1..];
      TimelyCall(calls[1..], calls[0].end, to, root, c);
    }
  }

  /** In every run a call of the router or the model has at most 15 seconds, one of the executor at most 10. */
  lemma StageBounds(id: string, schema: Schema, env: Env, now: Time, parent: Option<Time>, c: Call)
    ensures c in RunOf(id, schema, env, now, parent).calls ==>
              (c.RouteCall? || c.GenerateCall? ==> c.end <= c.start + 15_000_000_000)
              && (c.ExecuteCall? ==> c.end <= c.start + 10_000_000_000)
  {
    hide RunOf, Timely;
    RunInTime(id, schema, env, now, parent);
    var o := RunOf(id, schema, env, now, parent);
    if c in o.calls {
      TimelyCall(o.calls, now, o.finish, RootDeadline(now, parent), c);
      LateEndsAtOnce(o.calls, now, o.finish, RootDeadline(now, parent), c);
    }
  }

  lemma {:induction false} LateEndsAtOnce(calls: seq<Call>, from: Time, to: Time, root: Time, c: Call)
    requires Timely(calls, from, to, root) && c in calls
    ensures c.start >= c.deadline ==> c.end == c.start
  {
    if c != calls[0] {
      assert c in calls[1..];
      LateEndsAtOnce(calls[1..], calls[0].end, to, root, c);
    }
  }
}
