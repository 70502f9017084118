/** What a schedule of the session protocol did to an id: which ids were handed out, which are sessions, and that a
    registration or a close that runs alone does what the registry's methods do. */
module SessionHistory {
  import opened Sessions

  // ---- Events of a schedule ----

  /** The id a step is about. */
  function IdOf(s: State, step: Step): string
    requires Enabled(s, step)
  {
    match step
    case Begin(_, id) => id
    case LateOpen(id) => id
    case LateClose(id) => id
    case BeginClose(_, id) => id
    case _ => s.callers[step.c].id
  }

  /** The step happens at the position, and is about the id. */
  predicate Happened(steps: seq<Step>, i: int, step: Step, id: string) {
    0 <= i < |steps| && steps[i] == step && HappensAt(steps, i) && IdOf(After(steps[..i]), step) == id
  }

  ghost predicate Began(steps: seq<Step>, c: nat, id: string) {
    exists h :: Happened(steps, h, Begin(c, id), id)
  }

  /** The caller began the id, and its open succeeded. */
  ghost predicate Opened(steps: seq<Step>, c: nat, id: string) {
    exists h, i :: h < i && Happened(steps, h, Begin(c, id), id) && Happened(steps, i, OpenOk(c), id)
  }

  /** Then its introspection succeeded. */
  ghost predicate Read(steps: seq<Step>, c: nat, id: string) {
    exists h, i, j :: h < i < j && Happened(steps, h, Begin(c, id), id) && Happened(steps, i, OpenOk(c), id)
                      && Happened(steps, j, IntrospectOk(c), id)
  }

  /** And then it published the session. */
  ghost predicate Published(steps: seq<Step>, c: nat, id: string) {
    exists h, i, j, k :: h < i < j < k && Happened(steps, h, Begin(c, id), id) && Happened(steps, i, OpenOk(c), id)
                         && Happened(steps, j, IntrospectOk(c), id) && Happened(steps, k, Publish(c), id)
  }

  ghost predicate EverPublished(steps: seq<Step>, id: string) {
    exists c :: Published(steps, c, id)
  }

  ghost predicate CloseBegan(steps: seq<Step>, id: string) {
    exists i, c :: Happened(steps, i, BeginClose(c, id), id)
  }

  lemma StillHappened(steps: seq<Step>, i: int, step: Step, id: string)
    requires steps != []
    ensures i < |steps| - 1 ==> Happened(steps, i, step, id) == Happened(steps[..|steps| - 1], i, step, id)
    ensures Happened(steps[..|steps| - 1], i, step, id) ==> Happened(steps, i, step, id)
  {
    if 0 <= i < |steps| - 1 { assert steps[..|steps| - 1][..i] == steps[..i]; }
  }

  /** What happened before one more step happened. */
  lemma StillSo(steps: seq<Step>, c: nat, id: string)
    requires steps != []
    ensures var prev := steps[..|steps| - 1];
            (Began(prev, c, id) ==> Began(steps, c, id)) && (Opened(prev, c, id) ==> Opened(steps, c, id))
            && (Read(prev, c, id) ==> Read(steps, c, id)) && (Published(prev, c, id) ==> Published(steps, c, id))
  {
    hide Happened;
    var n := |steps| - 1;
    var prev := steps[..n];
    forall i, step ensures Happened(prev, i, step, id) ==> Happened(steps, i, step, id) && i < n {
      StillHappened(steps, i, step, id);
      if Happened(prev, i, step, id) { EarlierIndex(prev, i, step, id); }
    }
  }

  lemma EarlierIndex(steps: seq<Step>, i: int, step: Step, id: string)
    requires Happened(steps, i, step, id)
    ensures 0 <= i < |steps|
  {}

  /** The last step carries the caller on. */
  lemma NowSo(steps: seq<Step>, c: nat, id: string)
    requires steps != []
    ensures var n := |steps| - 1;
            var prev := steps[..n];
            (Happened(steps, n, Begin(c, id), id) ==> Began(steps, c, id))
            && (Began(prev, c, id) && Happened(steps, n, OpenOk(c), id) ==> Opened(steps, c, id))
            && (Opened(prev, c, id) && Happened(steps, n, IntrospectOk(c), id) ==> Read(steps, c, id))
            && (Read(prev, c, id) && Happened(steps, n, Publish(c), id) ==> Published(steps, c, id))
  {
    hide Happened;
    var n := |steps| - 1;
    var prev := steps[..n];
    forall i, step ensures Happened(prev, i, step, id) ==> Happened(steps, i, step, id) && i < n {
      StillHappened(steps, i, step, id);
      if Happened(prev, i, step, id) { EarlierIndex(prev, i, step, id); }
    }
  }

  // ---- How far each caller is ----

  /** Every caller in the middle of a registration went through the steps before, and every id that was handed out was
      published. */
  ghost predicate Accurate(steps: seq<Step>, s: State) {
    (forall c :: c in s.callers ==> Progress(steps, c, s.callers[c]))
    && forall id :: id in s.handed ==> exists c :: Published(steps, c, id)
  }

  ghost predicate Progress(steps: seq<Step>, c: nat, caller: Caller) {
    match caller
    case Opening(id) => Began(steps, c, id)
    case Introspecting(id) => Opened(steps, c, id)
    case CleaningUp(id) => Opened(steps, c, id)
    case Publishing(id) => Read(steps, c, id)
    case Closing(_) => true
  }

  lemma ProgressStays(steps: seq<Step>, c: nat, caller: Caller)
    requires steps != [] && Progress(steps[..|steps| - 1], c, caller)
    ensures Progress(steps, c, caller)
  {
    hide Began, Opened, Read, Published;
    StillSo(steps, c, caller.id);
  }

  /** A step moves at most its own caller. */
  lemma MovesOne(s: State, step: Step, d: nat)
    requires Enabled(s, step) && d in Next(s, step).callers
    ensures (d in s.callers && Next(s, step).callers[d] == s.callers[d])
            || (!step.LateOpen? && !step.LateClose? && step.c == d)
  {}

  /** Where the caller of a step was, and where it is now. */
  lemma ProgressMade(steps: seq<Step>, d: nat)
    requires steps != []
    requires var s := After(steps[..|steps| - 1]);
             var step := steps[|steps| - 1];
             Enabled(s, step) && !step.LateOpen? && !step.LateClose? && step.c == d && d in Next(s, step).callers
             && (d in s.callers ==> Progress(steps[..|steps| - 1], d, s.callers[d]))
    ensures Progress(steps, d, Next(After(steps[..|steps| - 1]), steps[|steps| - 1]).callers[d])
  {
    hide Began, Opened, Read, Published;
    var n := |steps| - 1;
    var s, step := After(steps[..n]), steps[n];
    var id := IdOf(s, step);
    NowSo(steps, d, id);
    StillSo(steps, d, id);
  }

  lemma {:induction false} History(steps: seq<Step>)
    ensures Accurate(steps, After(steps))
  {
    hide Progress, Published, Next, Enabled, Happened;
    if steps != [] {
      var n := |steps| - 1;
      var s, step := After(steps[..n]), steps[n];
      History(steps[..n]);
      forall c, caller | Progress(steps[..n], c, caller) ensures Progress(steps, c, caller) {
        ProgressStays(steps, c, caller);
      }
      forall c, id | Published(steps[..n], c, id) ensures Published(steps, c, id) { StillSo(steps, c, id); }
      if Enabled(s, step) {
        forall d | d in Next(s, step).callers ensures Progress(steps, d, Next(s, step).callers[d]) {
          MovesOne(s, step, d);
          if !(d in s.callers && Next(s, step).callers[d] == s.callers[d]) { ProgressMade(steps, d); }
        }
        forall id | id in Next(s, step).handed ensures exists c :: Published(steps, c, id) { HandedStep(steps, id); }
      }
    }
  }

  /** An id is handed out by a publication. */
  lemma HandedStep(steps: seq<Step>, id: string)
    requires steps != []
    requires var s := After(steps[..|steps| - 1]);
             var step := steps[|steps| - 1];
             Enabled(s, step) && id in Next(s, step).handed
             && (id in s.handed ==> EverPublished(steps[..|steps| - 1], id))
             && forall c :: c in s.callers ==> Progress(steps[..|steps| - 1], c, s.callers[c])
    ensures exists c :: Published(steps, c, id)
  {
    hide Began, Opened, Read, Published;
    var n := |steps| - 1;
    var s, step := After(steps[..n]), steps[n];
    if id in s.handed {
      var c :| Published(steps[..n], c, id);
      StillSo(steps, c, id);
    } else {
      NowSo(steps, step.c, id);
    }
  }

  lemma {:induction false} PublicationStays(steps: seq<Step>, k: int, c: nat, id: string)
    requires Happened(steps, k, Publish(c), id)
    ensures id in After(steps).handed
    decreases |steps|
  {
    hide Enabled, Next;
    var n := |steps| - 1;
    if k == n {
      PublishHands(After(steps[..n]), c);
    } else {
      StillHappened(steps, k, Publish(c), id);
      PublicationStays(steps[..n], k, c, id);
      if Enabled(After(steps[..n]), steps[n]) { HandedGrows(After(steps[..n]), steps[n]); }
    }
  }

  lemma PublishHands(s: State, c: nat)
    requires Enabled(s, Publish(c))
    ensures IdOf(s, Publish(c)) in Next(s, Publish(c)).handed
  {}

  lemma HandedGrows(s: State, step: Step)
    requires Enabled(s, step)
    ensures s.handed <= Next(s, step).handed
  {}

  /** Over every schedule: an id was handed out exactly if some caller began it, then its open succeeded, then its
      introspection succeeded, and then the caller published it. */
  lemma HandedExactly(steps: seq<Step>, id: string)
    ensures id in After(steps).handed <==> exists c :: Published(steps, c, id)
  {
    hide After, Happened;
    History(steps);
    if c :| Published(steps, c, id) {
      var h, i, j, k :| h < i < j < k && Happened(steps, h, Begin(c, id), id) && Happened(steps, i, OpenOk(c), id)
                        && Happened(steps, j, IntrospectOk(c), id) && Happened(steps, k, Publish(c), id);
      PublicationStays(steps, k, c, id);
    }
  }

  // ---- A failed introspection ----

  /** The id was used by a registration that is over, or about to clean up. */
  ghost predicate Doomed(s: State, id: string) {
    id in s.used && id !in s.handed && id !in s.sessions
    && forall c :: c in s.callers && s.callers[c].id == id ==> s.callers[c].CleaningUp?
  }

  lemma DoomedStays(s: State, step: Step, id: string)
    requires Doomed(s, id) && Enabled(s, step)
    ensures Doomed(Next(s, step), id)
  {}

  lemma FailureDooms(s: State, c: nat)
    requires Exclusive(s) && Consistent(s) && Enabled(s, IntrospectFails(c))
    ensures Doomed(Next(s, IntrospectFails(c)), IdOf(s, IntrospectFails(c)))
  {}

  lemma {:induction false} FailedStaysDoomed(steps: seq<Step>, i: int, c: nat, id: string)
    requires Happened(steps, i, IntrospectFails(c), id)
    ensures Doomed(After(steps), id)
    decreases |steps|
  {
    hide Enabled, Next, Exclusive, Consistent, Accounted, Doomed;
    var n := |steps| - 1;
    var s := After(steps[..n]);
    if i == n {
      Invariant(steps[..n]);
      FailureDooms(s, c);
    } else {
      StillHappened(steps, i, IntrospectFails(c), id);
      FailedStaysDoomed(steps[..n], i, c, id);
      if Enabled(s, steps[n]) { DoomedStays(s, steps[n], id); }
    }
  }

  /** Over every schedule: an id whose introspection failed is never handed out, and never a session. */
  lemma FailedIsNoSession(steps: seq<Step>, i: int, c: nat, id: string)
    requires Happened(steps, i, IntrospectFails(c), id)
    ensures id !in After(steps).handed && id !in After(steps).sessions
  {
    hide After, Happened;
    FailedStaysDoomed(steps, i, c, id);
  }

  // ---- Which ids are sessions ----

  lemma CloseBeganStep(steps: seq<Step>, id: string)
    requires steps != []
    ensures CloseBegan(steps, id) <==>
              CloseBegan(steps[..|steps| - 1], id) || exists c :: Happened(steps, |steps| - 1, BeginClose(c, id), id)
  {
    hide Happened;
    var n := |steps| - 1;
    forall i, c
      ensures i < n ==> Happened(steps, i, BeginClose(c, id), id) == Happened(steps[..n], i, BeginClose(c, id), id)
      ensures Happened(steps[..n], i, BeginClose(c, id), id) ==> Happened(steps, i, BeginClose(c, id), id)
      ensures Happened(steps, i, BeginClose(c, id), id) ==> i <= n
    {
      StillHappened(steps, i, BeginClose(c, id), id);
      if Happened(steps, i, BeginClose(c, id), id) { EarlierIndex(steps, i, BeginClose(c, id), id); }
    }
  }

  lemma SessionStep(s: State, step: Step, id: string)
    requires Exclusive(s) && Consistent(s) && Enabled(s, step)
    ensures id in Next(s, step).sessions <==>
              (id in s.sessions || (step.Publish? && IdOf(s, step) == id)) && !(step.BeginClose? && step.id == id)
    ensures id in Next(s, step).handed <==> id in s.handed || (step.Publish? && IdOf(s, step) == id)
    ensures step.Publish? && IdOf(s, step) == id ==> id !in s.handed
    ensures step.BeginClose? && step.id == id ==> id in s.handed
  {}

  lemma {:induction false} SessionsAreOpenIds(steps: seq<Step>, id: string)
    ensures id in After(steps).sessions <==> id in After(steps).handed && !CloseBegan(steps, id)
    ensures CloseBegan(steps, id) ==> id in After(steps).handed
  {
    hide CloseBegan, Exclusive, Consistent, Accounted, Next, Enabled;
    if steps == [] {
      NoneBegan(id);
    } else {
      var n := |steps| - 1;
      var s, step := After(steps[..n]), steps[n];
      SessionsAreOpenIds(steps[..n], id);
      CloseBeganStep(steps, id);
      Invariant(steps[..n]);
      if Enabled(s, step) {
        SessionStep(s, step, id);
        CloseHappens(steps, id);
      } else {
        assert forall c :: !Happened(steps, n, BeginClose(c, id), id);
      }
    }
  }

  lemma NoneBegan(id: string)
    ensures !CloseBegan([], id) && id !in Init.sessions
  {}

  lemma CloseHappens(steps: seq<Step>, id: string)
    requires steps != [] && Enabled(After(steps[..|steps| - 1]), steps[|steps| - 1])
    ensures (exists c :: Happened(steps, |steps| - 1, BeginClose(c, id), id)) <==>
              steps[|steps| - 1].BeginClose? && steps[|steps| - 1].id == id
  {
    var step := steps[|steps| - 1];
    if step.BeginClose? && step.id == id { assert Happened(steps, |steps| - 1, BeginClose(step.c, id), id); }
  }

  /** Over every schedule: the sessions are the ids that were published, by a caller whose introspection succeeded, and
      that nobody began to close. */
  lemma SessionsExactly(steps: seq<Step>, id: string)
    ensures id in After(steps).sessions <==> (exists c :: Published(steps, c, id)) && !CloseBegan(steps, id)
  {
    hide After, Published, CloseBegan;
    HandedExactly(steps, id);
    SessionsAreOpenIds(steps, id);
  }

  // ---- A registration or a close that runs alone ----

  function Play(s: State, steps: seq<Step>): State
    decreases |steps|
  {
    if steps == [] then s else Play(if Enabled(s, steps[0]) then Next(s, steps[0]) else s, steps[1..])
  }

  /** The steps of a registration whose calls turn out as given. */
  function Registration(c: nat, id: string, open: Outcome, read: bool, cleanup: Outcome): seq<Step> {
    match open
    case Refused => [Begin(c, id), OpenRefused(c)]
    case ReplyLost => [Begin(c, id), OpenReplyLost(c)]
    case Done =>
      if read then [Begin(c, id), OpenOk(c), IntrospectOk(c), Publish(c)]
      else [Begin(c, id), OpenOk(c), IntrospectFails(c), if cleanup == Refused then CleanupRefused(c) else Cleaned(c)]
  }

  lemma PlayOne(s: State, step: Step, more: seq<Step>)
    requires Enabled(s, step)
    ensures Play(s, [step] + more) == Play(Next(s, step), more)
  {
    hide Enabled, Next;
    assert ([step] + more)[1..] == more;
  }

  lemma PlayTwo(s: State, a: Step, b: Step)
    requires Enabled(s, a) && Enabled(Next(s, a), b)
    ensures Play(s, [a, b]) == Next(Next(s, a), b)
  {
    hide Enabled, Next;
    assert [a, b] == [a] + [b] && [b] == [b] + [];
    PlayOne(s, a, [b]);
    PlayOne(Next(s, a), b, []);
  }

  lemma PlayFour(s: State, a: Step, b: Step, c: Step, d: Step)
    requires Enabled(s, a) && Enabled(Next(s, a), b) && Enabled(Next(Next(s, a), b), c)
    requires Enabled(Next(Next(Next(s, a), b), c), d)
    ensures Play(s, [a, b, c, d]) == Next(Next(Next(Next(s, a), b), c), d)
  {
    hide Enabled, Next;
    assert [a, b, c, d] == [a] + [b, c, d] && [b, c, d] == [b] + [c, d];
    PlayOne(s, a, [b, c, d]);
    PlayOne(Next(s, a), b, [c, d]);
    PlayTwo(Next(Next(s, a), b), c, d);
  }

  /** The caller is idle and the id is fresh. */
  predicate Fresh(s: State, c: nat, id: string) {
    c !in s.callers && id !in s.used && id !in s.server && id !in s.sessions
  }

  lemma FreshId(s: State, c: nat, id: string)
    requires Exclusive(s) && Consistent(s) && c !in s.callers && id !in s.used
    ensures Fresh(s, c, id)
  {}

  lemma OpenFailsAlone(s: State, c: nat, id: string, lost: bool)
    requires Fresh(s, c, id)
    ensures var t := Play(s, [Begin(c, id), if lost then OpenReplyLost(c) else OpenRefused(c)]);
            t.callers == s.callers && t.sessions == s.sessions && t.handed == s.handed
            && t.server == s.server + if lost then {id} else {}
  {
    hide Play;
    PlayTwo(s, Begin(c, id), if lost then OpenReplyLost(c) else OpenRefused(c));
  }

  /** Begin, and an open that succeeds. */
  lemma OpenAlone(s: State, c: nat, id: string)
    requires Fresh(s, c, id)
    ensures Enabled(s, Begin(c, id)) && Enabled(Next(s, Begin(c, id)), OpenOk(c))
    ensures var t := Next(Next(s, Begin(c, id)), OpenOk(c));
            t.callers == s.callers[c := Introspecting(id)] && t.sessions == s.sessions && t.handed == s.handed
            && t.server == s.server + {id}
  {}

  lemma ReadAlone(s: State, c: nat, id: string)
    requires Fresh(s, c, id)
    ensures var t := Play(s, [Begin(c, id), OpenOk(c), IntrospectOk(c), Publish(c)]);
            t.callers == s.callers && t.sessions == s.sessions + {id} && t.handed == s.handed + {id}
            && t.server == s.server + {id}
  {
    hide Play;
    OpenAlone(s, c, id);
    PlayFour(s, Begin(c, id), OpenOk(c), IntrospectOk(c), Publish(c));
  }

  lemma FailAlone(s: State, c: nat, id: string, refused: bool)
    requires Fresh(s, c, id)
    ensures var t := Play(s, [Begin(c, id), OpenOk(c), IntrospectFails(c), if refused then CleanupRefused(c) else Cleaned(c)]);
            t.callers == s.callers && t.sessions == s.sessions && t.handed == s.handed
            && t.server == s.server + if refused then {id} else {}
  {
    hide Play;
    OpenAlone(s, c, id);
    PlayFour(s, Begin(c, id), OpenOk(c), IntrospectFails(c), if refused then CleanupRefused(c) else Cleaned(c));
  }

  /** Played alone from any state, with a fresh id, a registration ends with the sessions and the server that the
      contract of `Register` gives for the same outcomes. */
  lemma RegistrationAlone(s: State, c: nat, id: string, open: Outcome, read: bool, cleanup: Outcome)
    requires Exclusive(s) && Consistent(s) && c !in s.callers && id !in s.used
    ensures var t := Play(s, Registration(c, id, open, read, cleanup));
            var published := open == Done && read;
            t.callers == s.callers
            && t.sessions == s.sessions + (if published then {id} else {})
            && t.handed == s.handed + (if published then {id} else {})
            && (published ==> t.server == s.server + {id})
            && (!published ==> t.server == s.server + (if id in t.server then {id} else {}))
            && (!published ==> (id !in t.server <==> open != ReplyLost && !(open == Done && cleanup == Refused)))
  {
    hide Play, Exclusive, Consistent;
    FreshId(s, c, id);
    match open
    case Refused => OpenFailsAlone(s, c, id, false);
    case ReplyLost => OpenFailsAlone(s, c, id, true);
    case Done => if read { ReadAlone(s, c, id); } else { FailAlone(s, c, id, cleanup == Refused); }
  }

  /** The same for a close: the session goes, and the connection unless the call is refused. */
  lemma CloseAlone(s: State, c: nat, id: string, how: Outcome)
    requires c !in s.callers && id in s.handed
    ensures var t := Play(s, [BeginClose(c, id), if how == Refused then CloseRefused(c) else Closed(c)]);
            t.callers == s.callers && t.sessions == s.sessions - {id}
            && t.server == s.server - if how == Refused then {} else {id}
  {
    hide Play;
    PlayTwo(s, BeginClose(c, id), if how == Refused then CloseRefused(c) else Closed(c));
  }
}
