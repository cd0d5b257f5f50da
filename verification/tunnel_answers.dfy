/** What a request is answered with: who may be served, what an answer says about the exchange, and that one comes. */
module TunnelAnswers {
  import opened Common
  import opened TunnelSession

  // ------------------------------------------------------------- access decides the way

  /** A request on its way: it stays on it, an inline one never reaches Home Assistant, and its answer says so. */
  ghost predicate GoesBy(s: State, r: Request, way: Way) {
    && r < s.requests
    && (r in s.tasks ==>
          && s.tasks[r].way == way
          && (!way.Handler? ==> s.tasks[r].phase.Replying? || s.tasks[r].phase.Sending?))
    && forall i :: 0 <= i < |s.sent| && s.sent[i].0 == r ==>
         match way
         case Refusing => s.sent[i].2 == Refused
         case Reloading => s.sent[i].2 == Reloaded
         case Handler => s.sent[i].2 == Result || s.sent[i].2 == Failed
  }

  /** A turn of one task leaves every other task, and all but its own answers. */
  ghost predicate OnlyConcerns(s: State, t: State, q: Request) {
    && t == s.(tasks := t.tasks, sent := t.sent)
    && (t.sent == s.sent || exists ws, answer :: t.sent == s.sent + [(q, ws, answer)])
    && forall r :: r != q ==> (r in t.tasks <==> r in s.tasks) && (r in t.tasks ==> t.tasks[r] == s.tasks[r])
  }

  predicate IsTurn(e: Event) { e.Begin? || e.ExchangeEnds? || e.Resume? || e.SendEnds? }

  lemma MovesOrEnds(s: State, t: State, q: Request)
    requires t == s || (q in s.tasks && (t == End(s, q) || exists phase :: t == With(s, q, phase)))
    ensures OnlyConcerns(s, t, q)
  {
  }

  lemma ResumeConcerns(s: State, q: Request)
    ensures OnlyConcerns(s, ResumeStep(s, q), q)
  {
    hide With;
    hide End;
    hide OnlyConcerns;
    MovesOrEnds(s, ResumeStep(s, q), q);
  }

  /** What a send leaves: its answer and no task, or no answer and perhaps the task, failing. */
  lemma SendLeaves(s: State, r: Request, ok: bool)
    ensures var t := SendStep(s, r, ok);
      || t == s
      || (&& r in s.tasks && r !in t.tasks
          && (t.sent == s.sent || exists ws, answer ::
                && t.sent == s.sent + [(r, ws, answer)]
                && (s.tasks[r].phase.Sending? || s.tasks[r].phase.SendingError?)
                && answer == if s.tasks[r].phase.Sending? then AnswerOf(s.tasks[r]) else Failed))
      || (&& !ok && r in s.tasks && r in t.tasks && t.sent == s.sent
          && t.tasks[r] == s.tasks[r].(phase := Failing) && s.tasks[r].way.Handler?)
  {
  }

  lemma SendConcerns(s: State, q: Request, ok: bool)
    ensures OnlyConcerns(s, SendStep(s, q, ok), q)
  {
  }

  lemma BeginConcerns(s: State, q: Request, valid: bool)
    ensures OnlyConcerns(s, BeginStep(s, q, valid), q)
  {
  }

  lemma ExchangeConcerns(s: State, q: Request, ok: bool)
    ensures OnlyConcerns(s, ExchangeStep(s, q, ok), q)
  {
  }

  lemma TurnConcerns(s: State, e: Event)
    requires IsTurn(e)
    ensures OnlyConcerns(s, Next(s, e), e.request)
  {
    hide OnlyConcerns;
    hide ResumeStep;
    hide SendStep;
    hide BeginStep;
    hide ExchangeStep;
    match e
    case Begin(q, valid) => BeginConcerns(s, q, valid);
    case ExchangeEnds(q, ok) => ExchangeConcerns(s, q, ok);
    case Resume(q) => ResumeConcerns(s, q);
    case SendEnds(q, ok) => SendConcerns(s, q, ok);
  }

  /** Everything else neither ends a task nor moves one on, and answers nothing. */
  ghost predicate OnlyCancels(s: State, t: State) {
    && t.sent == s.sent && t.requests == s.requests
    && forall r :: r in t.tasks ==> r in s.tasks && t.tasks[r] == s.tasks[r].(cancelled := t.tasks[r].cancelled)
  }

  lemma StopsOnlyCancel(s: State, e: Event)
    requires e.SessionEnds? || e.SetAccess? || e.Unload?
    ensures OnlyCancels(s, Next(s, e))
  {
    hide ResumeStep;
    hide SendStep;
    hide BeginStep;
    hide ExchangeStep;
    hide DeliverStep;
    hide MainStep;
    hide ApplyStep;
    hide UnloadResumesStep;
  }

  ghost predicate MovesNone(s: State, t: State) { t.tasks == s.tasks && t.sent == s.sent && t.requests == s.requests }

  lemma ConnectMovesNone(s: State, fatal: bool)
    ensures MovesNone(s, ConnectStep(s)) && MovesNone(s, ConnectFailsStep(s, fatal))
  {
  }

  lemma MainMovesNone(s: State)
    ensures MovesNone(s, MainStep(s))
  {
  }

  lemma StopperMovesNone(s: State)
    ensures MovesNone(s, ApplyStep(s)) && MovesNone(s, UnloadResumesStep(s))
  {
  }

  lemma SupervisorMovesNone(s: State, e: Event)
    requires !IsTurn(e) && !e.Deliver? && !e.SessionEnds? && !e.SetAccess? && !e.Unload?
    ensures MovesNone(s, Next(s, e))
  {
    hide ConnectStep;
    hide ConnectFailsStep;
    hide MainStep;
    hide ApplyStep;
    hide UnloadResumesStep;
    hide ResumeStep;
    hide SendStep;
    hide BeginStep;
    hide ExchangeStep;
    hide DeliverStep;
    hide SessionEndsStep;
    hide SetAccessStep;
    hide UnloadStep;
    if e.ConnectFails? { ConnectMovesNone(s, e.fatal); }
    ConnectMovesNone(s, false);
    MainMovesNone(s);
    StopperMovesNone(s);
  }

  lemma RestOnlyCancels(s: State, e: Event)
    requires !IsTurn(e) && !e.Deliver?
    ensures OnlyCancels(s, Next(s, e))
  {
    if e.SessionEnds? || e.SetAccess? || e.Unload? {
      StopsOnlyCancel(s, e);
    } else {
      SupervisorMovesNone(s, e);
      hide Next;
    }
  }

  lemma GoesOn(s: State, e: Event, r: Request, way: Way)
    requires Inv(s) && GoesBy(s, r, way)
    ensures GoesBy(Next(s, e), r, way)
  {
    if e.Deliver? {
      hide Inv;
      assert Next(s, e).sent == s.sent;
    } else if !IsTurn(e) {
      RestOnlyCancels(s, e);
      hide Inv;
      hide Next;
    } else if e.request != r {
      TurnConcerns(s, e);
      hide Inv;
      hide Next;
    } else {
      OwnTurnGoesOn(s, e, way);
    }
  }

  lemma OwnTurnGoesOn(s: State, e: Event, way: Way)
    requires IsTurn(e) && GoesBy(s, e.request, way)
    ensures GoesBy(Next(s, e), e.request, way)
  {
    var r := e.request;
    match e
    case Begin(_, valid) => assert Next(s, e).sent == s.sent;
    case ExchangeEnds(_, ok) => assert Next(s, e).sent == s.sent;
    case Resume(_) => ResumeGoesOn(s, r, way);
    case SendEnds(_, ok) => SendGoesOn(s, r, ok, way);
  }

  lemma ResumeGoesOn(s: State, r: Request, way: Way)
    requires GoesBy(s, r, way)
    ensures GoesBy(ResumeStep(s, r), r, way)
  {
    ResumeConcerns(s, r);
  }

  lemma SendGoesOn(s: State, r: Request, ok: bool, way: Way)
    requires GoesBy(s, r, way)
    ensures GoesBy(SendStep(s, r, ok), r, way)
  {
    var t := SendStep(s, r, ok);
    SendLeaves(s, r, ok);
    SendConcerns(s, r, ok);
    hide SendStep;
    if t.sent != s.sent && s.sent <= t.sent {
      forall i | 0 <= i < |s.sent| && s.sent[i].0 == r ensures t.sent[i] == s.sent[i] { }
    }
  }

  lemma {:induction false} GoesThroughout(s: State, events: seq<Event>, r: Request, way: Way)
    requires Inv(s) && GoesBy(s, r, way)
    ensures GoesBy(Run(s, events), r, way)
    decreases |events|
  {
    if events != [] {
      hide Inv;
      hide GoesBy;
      StepKeeps(s, events[0]);
      GoesOn(s, events[0], r, way);
      GoesThroughout(Next(s, events[0]), events[1..], r, way);
    }
  }

  /** The receiver of the served session can take a request: it answers none itself at the moment. */
  predicate Takes(s: State) {
    s.main.Serving? && forall r :: r in s.tasks && s.tasks[r].session == s.main.session ==> s.tasks[r].way.Handler?
  }

  /** Otherwise the request waits. */
  lemma DeliveryWaits(s: State, selfReload: bool)
    requires !Takes(s)
    ensures Next(s, Deliver(selfReload)) == s
  {
  }

  /**
    A request that arrives while remote access is off is refused, and one to reload the tunnel itself is acknowledged:
    in no continuation does it reach a handler or Home Assistant. With access on every other request goes to a handler.
   */
  lemma {:induction false} AccessDecides(before: seq<Event>, selfReload: bool, after: seq<Event>)
    requires Takes(Run(BEGINNING, before))
    ensures var s := Run(BEGINNING, before);
      var r, next := s.requests, Next(s, Deliver(selfReload));
      var t := Run(next, after);
      && r !in s.origin && r in next.tasks && next.tasks[r].session == s.main.session && !next.tasks[r].cancelled
      && if !s.remoteAdmin || selfReload then
           && next.tasks[r].phase.Replying?
           && (r in t.tasks ==> t.tasks[r].phase.Replying? || t.tasks[r].phase.Sending?)
           && forall i :: 0 <= i < |t.sent| && t.sent[i].0 == r ==> t.sent[i].2 == if s.remoteAdmin then Reloaded else Refused
         else
           && next.tasks[r].phase.Queued?
           && forall i :: 0 <= i < |t.sent| && t.sent[i].0 == r ==> t.sent[i].2 == Result || t.sent[i].2 == Failed
  {
    BeginningHolds();
    RunKeeps(BEGINNING, before);
    var s := Run(BEGINNING, before);
    var way := if !s.remoteAdmin then Refusing else if selfReload then Reloading else Handler;
    StepKeeps(s, Deliver(selfReload));
    GoesThroughout(Next(s, Deliver(selfReload)), after, s.requests, way);
  }

  // ------------------------------------------------------------ what an answer says

  predicate InPhase(s: State, r: Request, phase: Phase) {
    r in s.tasks && !s.tasks[r].cancelled && s.tasks[r].phase == phase
  }

  /** The i-th event is the handler's turn, or the end of its exchange. */
  ghost predicate Begins(events: seq<Event>, i: nat, r: Request, valid: bool) {
    i < |events| && events[i] == Begin(r, valid) && InPhase(Run(BEGINNING, events[..i]), r, Queued)
  }

  ghost predicate Ends(events: seq<Event>, i: nat, r: Request, ok: bool) {
    i < |events| && events[i] == ExchangeEnds(r, ok) && InPhase(Run(BEGINNING, events[..i]), r, Exchanging)
  }

  /** A reply had no socket, or its send raised. */
  ghost predicate Unsent(events: seq<Event>, i: nat, r: Request) {
    && i < |events|
    && ((events[i] == Resume(r) && InPhase(Run(BEGINNING, events[..i]), r, Replying)
         && !Connected(Run(BEGINNING, events[..i])))
        || events[i] == SendEnds(r, false))
  }

  /** The request was read well and its exchange went well, one after the other. */
  ghost predicate Exchanged(events: seq<Event>, r: Request) {
    exists i: nat, j: nat :: i < j && Begins(events, i, r, true) && Ends(events, j, r, true)
  }

  ghost predicate Began(events: seq<Event>, r: Request) { exists i: nat :: Begins(events, i, r, true) }

  /** It could not be read, its exchange failed, or its reply did not get through. */
  ghost predicate Hindered(events: seq<Event>, r: Request) {
    || (exists i: nat :: Begins(events, i, r, false))
    || (exists i: nat :: Ends(events, i, r, false))
    || (exists i: nat :: Unsent(events, i, r))
  }

  ghost predicate Truthful(events: seq<Event>, s: State, r: Request) {
    && (r in s.tasks && s.tasks[r].way.Handler? ==>
          match s.tasks[r].phase
          case Queued => true
          case Exchanging => Began(events, r)
          case Replying | Sending(_) => Exchanged(events, r)
          case Failing | SendingError(_) => Hindered(events, r))
    && (r in s.tasks && !s.tasks[r].way.Handler? ==> s.tasks[r].phase.Replying? || s.tasks[r].phase.Sending?)
    && forall i :: 0 <= i < |s.sent| && s.sent[i].0 == r ==>
         (s.sent[i].2 == Result ==> Exchanged(events, r)) && (s.sent[i].2 == Failed ==> Hindered(events, r))
  }

  lemma PrefixOf(events: seq<Event>, e: Event, i: nat)
    requires i <= |events|
    ensures (events + [e])[..i] == events[..i]
  {
  }

  /** What was so stays so when the run goes on. */
  lemma Longer(events: seq<Event>, e: Event, r: Request)
    ensures Began(events, r) ==> Began(events + [e], r)
    ensures Exchanged(events, r) ==> Exchanged(events + [e], r)
    ensures Hindered(events, r) ==> Hindered(events + [e], r)
  {
    hide Run;
    var more := events + [e];
    forall i: nat | i < |events| ensures more[..i] == events[..i] && more[i] == events[i] { PrefixOf(events, e, i); }
    if i: nat :| Begins(events, i, r, true) { assert Begins(more, i, r, true); }
    if i: nat, j: nat :| i < j && Begins(events, i, r, true) && Ends(events, j, r, true) {
      assert Begins(more, i, r, true) && Ends(more, j, r, true);
    }
    if i: nat :| Begins(events, i, r, false) { assert Begins(more, i, r, false); }
    if i: nat :| Ends(events, i, r, false) { assert Ends(more, i, r, false); }
    if i: nat :| Unsent(events, i, r) { assert Unsent(more, i, r); }
  }

  /** The last event is such a cause. */
  lemma {:induction false} LastCauses(events: seq<Event>, e: Event, r: Request)
    ensures var s, more := Run(BEGINNING, events), events + [e];
      && (e == Begin(r, true) && InPhase(s, r, Queued) ==> Began(more, r))
      && (e == Begin(r, false) && InPhase(s, r, Queued) ==> Hindered(more, r))
      && (e == ExchangeEnds(r, false) && InPhase(s, r, Exchanging) ==> Hindered(more, r))
      && (e == ExchangeEnds(r, true) && InPhase(s, r, Exchanging) && Began(events, r) ==> Exchanged(more, r))
      && (e == Resume(r) && InPhase(s, r, Replying) && !Connected(s) ==> Hindered(more, r))
      && (e == SendEnds(r, false) ==> Hindered(more, r))
  {
    hide Run;
    var s, more, n := Run(BEGINNING, events), events + [e], |events|;
    assert more[..n] == events && more[n] == e;
    if e == Begin(r, true) && InPhase(s, r, Queued) { assert Begins(more, n, r, true); }
    if e == Begin(r, false) && InPhase(s, r, Queued) { assert Begins(more, n, r, false); }
    if e == ExchangeEnds(r, false) && InPhase(s, r, Exchanging) { assert Ends(more, n, r, false); }
    if e == ExchangeEnds(r, true) && InPhase(s, r, Exchanging) && Began(events, r) {
      var i: nat :| Begins(events, i, r, true);
      PrefixOf(events, e, i);
      assert Begins(more, i, r, true) && Ends(more, n, r, true);
    }
    if (e == Resume(r) && InPhase(s, r, Replying) && !Connected(s)) || e == SendEnds(r, false) {
      assert Unsent(more, n, r);
    }
  }

  lemma {:induction false} TruthGoesOn(events: seq<Event>, e: Event, r: Request)
    requires Inv(Run(BEGINNING, events)) && Truthful(events, Run(BEGINNING, events), r)
    ensures Truthful(events + [e], Next(Run(BEGINNING, events), e), r)
  {
    var s := Run(BEGINNING, events);
    Longer(events, e, r);
    hide Run;
    hide Began;
    hide Exchanged;
    hide Hindered;
    if e.Deliver? {
      DeliverIsTruthful(events, s, e, r);
    } else if !IsTurn(e) {
      RestOnlyCancels(s, e);
      hide Inv;
      hide Next;
    } else if e.request != r {
      TurnConcerns(s, e);
      hide Inv;
      hide Next;
    } else {
      LastCauses(events, e, r);
      OwnTurnIsTruthful(events, s, e);
    }
  }

  lemma DeliverIsTruthful(events: seq<Event>, s: State, e: Event, r: Request)
    requires Inv(s) && Truthful(events, s, r) && e.Deliver?
    requires Began(events, r) ==> Began(events + [e], r)
    requires Exchanged(events, r) ==> Exchanged(events + [e], r)
    requires Hindered(events, r) ==> Hindered(events + [e], r)
    ensures Truthful(events + [e], Next(s, e), r)
  {
    hide Inv;
    hide Began;
    hide Exchanged;
    hide Hindered;
    var t := Next(s, e);
    assert t.sent == s.sent;
    assert t.tasks == s.tasks || (t.tasks == s.tasks[s.requests := t.tasks[s.requests]]
                                  && (t.tasks[s.requests].phase.Queued? || !t.tasks[s.requests].way.Handler?)
                                  && (t.tasks[s.requests].way.Handler? || t.tasks[s.requests].phase.Replying?));
  }

  lemma OwnTurnIsTruthful(events: seq<Event>, s: State, e: Event)
    requires IsTurn(e) && Truthful(events, s, e.request)
    requires var r, more := e.request, events + [e];
      && (Began(events, r) ==> Began(more, r))
      && (Exchanged(events, r) ==> Exchanged(more, r))
      && (Hindered(events, r) ==> Hindered(more, r))
      && (e == Begin(r, true) && InPhase(s, r, Queued) ==> Began(more, r))
      && (e == Begin(r, false) && InPhase(s, r, Queued) ==> Hindered(more, r))
      && (e == ExchangeEnds(r, false) && InPhase(s, r, Exchanging) ==> Hindered(more, r))
      && (e == ExchangeEnds(r, true) && InPhase(s, r, Exchanging) && Began(events, r) ==> Exchanged(more, r))
      && (e == Resume(r) && InPhase(s, r, Replying) && !Connected(s) ==> Hindered(more, r))
      && (e == SendEnds(r, false) ==> Hindered(more, r))
    ensures Truthful(events + [e], Next(s, e), e.request)
  {
    hide Began;
    hide Exchanged;
    hide Hindered;
    match e
    case Begin(_, valid) =>
    case ExchangeEnds(_, ok) =>
    case Resume(r) => ResumeIsTruthful(events, s, r);
    case SendEnds(r, ok) => SendIsTruthful(events, s, r, ok);
  }

  lemma ResumeIsTruthful(events: seq<Event>, s: State, r: Request)
    requires var more := events + [Resume(r)];
      && Truthful(events, s, r)
      && (Exchanged(events, r) ==> Exchanged(more, r)) && (Hindered(events, r) ==> Hindered(more, r))
      && (Began(events, r) ==> Began(more, r))
      && (InPhase(s, r, Replying) && !Connected(s) ==> Hindered(more, r))
    ensures Truthful(events + [Resume(r)], ResumeStep(s, r), r)
  {
    hide Began;
    hide Exchanged;
    hide Hindered;
    ResumeConcerns(s, r);
    assert ResumeStep(s, r).sent == s.sent;
  }

  lemma SendIsTruthful(events: seq<Event>, s: State, r: Request, ok: bool)
    requires var more := events + [SendEnds(r, ok)];
      && Truthful(events, s, r)
      && (Exchanged(events, r) ==> Exchanged(more, r)) && (Hindered(events, r) ==> Hindered(more, r))
      && (Began(events, r) ==> Began(more, r))
      && (!ok ==> Hindered(more, r))
    ensures Truthful(events + [SendEnds(r, ok)], SendStep(s, r, ok), r)
  {
    hide Began;
    hide Exchanged;
    hide Hindered;
    var t := SendStep(s, r, ok);
    SendLeaves(s, r, ok);
    hide SendStep;
    if t.sent != s.sent && s.sent <= t.sent {
      forall i | 0 <= i < |s.sent| ensures t.sent[i] == s.sent[i] { }
    }
  }

  lemma {:induction false} RunIsTruthful(events: seq<Event>, r: Request)
    ensures Truthful(events, Run(BEGINNING, events), r)
    decreases |events|
  {
    BeginningHolds();
    if events != [] {
      var n := |events| - 1;
      var before, e := events[..n], events[n];
      RunIsTruthful(before, r);
      RunKeeps(BEGINNING, before);
      TruthGoesOn(before, e, r);
      RunConcat(BEGINNING, before, [e]);
      assert events == before + [e];
      assert [e][1..] == [];
      assert Run(Next(Run(BEGINNING, before), e), []) == Next(Run(BEGINNING, before), e);
    }
  }

  /** In every run: an answer is Home Assistant's only after a good exchange, and an error only after a failure. */
  lemma {:induction false} AnswersTellTheTruth(events: seq<Event>, i: nat)
    requires i < |Run(BEGINNING, events).sent|
    ensures var (r, _, answer) := Run(BEGINNING, events).sent[i];
      && (answer == Result ==> Exchanged(events, r))
      && (answer == Failed ==> Hindered(events, r))
  {
    RunIsTruthful(events, Run(BEGINNING, events).sent[i].0);
  }

  // ---------------------------------------------------------------- an answer comes

  /** Neither a turn of the request's own task nor an end of its session. */
  predicate Harmless(e: Event, r: Request, n: Session) {
    match e
    case SessionEnds => false
    case SetAccess(_) => false
    case Unload => false
    case SocketCloses(m) => m != n
    case Begin(q, _) => q != r
    case ExchangeEnds(q, _) => q != r
    case Resume(q) => q != r
    case SendEnds(q, _) => q != r
    case _ => true
  }

  predicate AllHarmless(events: seq<Event>, r: Request, n: Session) {
    forall i :: 0 <= i < |events| ==> Harmless(events[i], r, n)
  }

  /** Its task is alive on an open socket, and in this phase. */
  predicate Goes(s: State, r: Request, n: Session, way: Way, phase: Phase) {
    r in s.tasks && s.tasks[r] == Task(n, phase, false, way) && s.ws == Some(n) && n in s.open
  }

  lemma HarmlessStep(s: State, e: Event, r: Request, n: Session, way: Way, phase: Phase)
    requires Inv(s) && Goes(s, r, n, way, phase) && Harmless(e, r, n)
    ensures Goes(Next(s, e), r, n, way, phase)
  {
    assert s.main == Serving(n);
    if e.Deliver? {
      assert r != s.requests;
    } else if IsTurn(e) {
      TurnConcerns(s, e);
      hide Inv;
      hide Next;
    } else {
      hide Cancel;
      hide Handlers;
      hide ResumeStep;
      hide SendStep;
      hide BeginStep;
      hide ExchangeStep;
      hide DeliverStep;
    }
  }

  lemma {:induction false} HarmlessRun(s: State, events: seq<Event>, r: Request, n: Session, way: Way, phase: Phase)
    requires Inv(s) && Goes(s, r, n, way, phase) && AllHarmless(events, r, n)
    ensures Goes(Run(s, events), r, n, way, phase) && Inv(Run(s, events))
    decreases |events|
  {
    if events != [] {
      hide Inv;
      hide Goes;
      StepKeeps(s, events[0]);
      HarmlessStep(s, events[0], r, n, way, phase);
      HarmlessRun(Next(s, events[0]), events[1..], r, n, way, phase);
    }
  }

  /** A stretch of other things, and then one turn that takes the task to its next phase. */
  lemma {:induction false} Turns(
    s: State, between: seq<Event>, e: Event, r: Request, n: Session, way: Way, phase: Phase, next: Phase)
    requires Inv(s) && Goes(s, r, n, way, phase) && AllHarmless(between, r, n)
    requires
      || (phase.Queued? && exists valid :: e == Begin(r, valid) && next == if valid then Exchanging else Failing)
      || (phase.Exchanging? && exists ok :: e == ExchangeEnds(r, ok) && next == if ok then Replying else Failing)
      || (phase.Failing? && next.Failing? && e.ExchangeEnds?)
      || (phase.Replying? && e == Resume(r) && next == Sending(n))
      || (phase.Failing? && e == Resume(r) && next == SendingError(n))
      || (phase.Sending? && way.Handler? && e == SendEnds(r, false) && next.Failing?)
    ensures var t := Run(s, between + [e]); Goes(t, r, n, way, next) && Inv(t)
  {
    HarmlessRun(s, between, r, n, way, phase);
    RunConcat(s, between, [e]);
    var m := Run(s, between);
    assert [e][1..] == [];
    assert Run(Next(m, e), []) == Next(m, e);
    StepKeeps(m, e);
  }

  /** And a send that gets through. */
  lemma {:induction false} Answers(s: State, between: seq<Event>, r: Request, n: Session, way: Way, phase: Phase)
    requires Inv(s) && Goes(s, r, n, way, phase) && AllHarmless(between, r, n)
    requires phase == Sending(n) || phase == SendingError(n)
    ensures var t := Run(s, between + [SendEnds(r, true)]);
      && t.sent != [] && t.sent[|t.sent| - 1] ==
           (r, n, if phase.SendingError? then Failed else match way case Refusing => Refused case Reloading => Reloaded
                                                           case Handler => Result)
  {
    var e := SendEnds(r, true);
    HarmlessRun(s, between, r, n, way, phase);
    RunConcat(s, between, [e]);
    var m := Run(s, between);
    assert [e][1..] == [];
    assert Run(Next(m, e), []) == Next(m, e);
  }

  lemma {:induction false} DeliveredGoes(before: seq<Event>, selfReload: bool)
    requires Takes(Run(BEGINNING, before)) && Connected(Run(BEGINNING, before))
    ensures var s := Run(BEGINNING, before);
      var s0 := Next(s, Deliver(selfReload));
      Inv(s0) && if s.remoteAdmin && !selfReload then Goes(s0, s.requests, s.main.session, Handler, Queued)
                 else Goes(s0, s.requests, s.main.session, if s.remoteAdmin then Reloading else Refusing, Replying)
  {
    BeginningHolds();
    RunKeeps(BEGINNING, before);
    var s := Run(BEGINNING, before);
    StepKeeps(s, Deliver(selfReload));
  }

  /** Four turns of a handler, with anything harmless before each. */
  function Course(b: seq<seq<Event>>, r: Request, valid: bool, ok: bool): seq<Event>
    requires |b| == 4
  {
    (b[0] + [Begin(r, valid)]) + ((b[1] + [ExchangeEnds(r, ok)]) + ((b[2] + [Resume(r)]) + (b[3] + [SendEnds(r, true)])))
  }

  lemma {:induction false} CourseAnswers(s: State, b: seq<seq<Event>>, r: Request, n: Session, valid: bool, ok: bool)
    requires Inv(s) && Goes(s, r, n, Handler, Queued) && |b| == 4
    requires forall i :: 0 <= i < 4 ==> AllHarmless(b[i], r, n)
    ensures var t := Run(s, Course(b, r, valid, ok));
      t.sent != [] && t.sent[|t.sent| - 1] == (r, n, if valid && ok then Result else Failed)
  {
    hide Inv;
    hide Goes;
    hide AllHarmless;
    hide Run;
    hide Next;
    hide Course;
    var p1 := if valid then Exchanging else Failing;
    Turns(s, b[0], Begin(r, valid), r, n, Handler, Queued, p1);
    var s1 := Run(s, b[0] + [Begin(r, valid)]);
    var p2 := if valid && ok then Replying else Failing;
    Turns(s1, b[1], ExchangeEnds(r, ok), r, n, Handler, p1, p2);
    var s2 := Run(s1, b[1] + [ExchangeEnds(r, ok)]);
    var p3 := if valid && ok then Sending(n) else SendingError(n);
    Turns(s2, b[2], Resume(r), r, n, Handler, p2, p3);
    var s3 := Run(s2, b[2] + [Resume(r)]);
    Answers(s3, b[3], r, n, Handler, p3);
    CourseIs(s, b, r, valid, ok);
  }

  /**
    With access on, a request whose session and socket last is answered, whatever else happens between its turns: with
    Home Assistant's answer exactly when it could be read and the exchange went well.
   */
  lemma {:induction false} RequestIsAnswered(before: seq<Event>, b: seq<seq<Event>>, valid: bool, ok: bool)
    requires var s := Run(BEGINNING, before);
      && Takes(s) && s.remoteAdmin && Connected(s) && |b| == 4
      && forall i :: 0 <= i < 4 ==> AllHarmless(b[i], s.requests, s.main.session)
    ensures var s := Run(BEGINNING, before);
      var t := Run(Next(s, Deliver(false)), Course(b, s.requests, valid, ok));
      t.sent != [] && t.sent[|t.sent| - 1] == (s.requests, s.main.session, if valid && ok then Result else Failed)
  {
    hide Next;
    hide Goes;
    hide Inv;
    hide AllHarmless;
    hide Course;
    DeliveredGoes(before, false);
    var s := Run(BEGINNING, before);
    CourseAnswers(Next(s, Deliver(false)), b, s.requests, s.main.session, valid, ok);
  }

  lemma {:induction false} CourseIs(s: State, b: seq<seq<Event>>, r: Request, valid: bool, ok: bool)
    requires |b| == 4
    ensures Run(s, Course(b, r, valid, ok)) ==
      Run(Run(Run(Run(s, b[0] + [Begin(r, valid)]), b[1] + [ExchangeEnds(r, ok)]), b[2] + [Resume(r)]),
          b[3] + [SendEnds(r, true)])
  {
    hide Run;
    var e0, e1 := b[0] + [Begin(r, valid)], b[1] + [ExchangeEnds(r, ok)];
    var e2, e3 := b[2] + [Resume(r)], b[3] + [SendEnds(r, true)];
    RunConcat(s, e0, e1 + (e2 + e3));
    RunConcat(Run(s, e0), e1, e2 + e3);
    RunConcat(Run(Run(s, e0), e1), e2, e3);
  }

  /** Without access it is refused, and a reload of the tunnel acknowledged, on the same terms. */
  lemma {:induction false} InlineIsAnswered(before: seq<Event>, b: seq<Event>, c: seq<Event>, selfReload: bool)
    requires var s := Run(BEGINNING, before);
      && Takes(s) && (!s.remoteAdmin || selfReload) && Connected(s)
      && AllHarmless(b, s.requests, s.main.session) && AllHarmless(c, s.requests, s.main.session)
    ensures var s := Run(BEGINNING, before);
      var r := s.requests;
      var t := Run(Next(s, Deliver(selfReload)), (b + [Resume(r)]) + (c + [SendEnds(r, true)]));
      t.sent != [] && t.sent[|t.sent| - 1] == (r, s.main.session, if s.remoteAdmin then Reloaded else Refused)
  {
    var s := Run(BEGINNING, before);
    var r, n, way := s.requests, s.main.session, if s.remoteAdmin then Reloading else Refusing;
    var s0 := Next(s, Deliver(selfReload));
    DeliveredGoes(before, selfReload);
    hide Next;
    hide Takes;
    hide Connected;
    hide Inv;
    hide Goes;
    hide AllHarmless;
    Turns(s0, b, Resume(r), r, n, way, Replying, Sending(n));
    var s1 := Run(s0, b + [Resume(r)]);
    Answers(s1, c, r, n, way, Sending(n));
    RunConcat(s0, b + [Resume(r)], c + [SendEnds(r, true)]);
  }

  /** A reply whose send raises is followed by an error, on the same terms. */
  lemma {:induction false} FailedSendIsTold(s: State, r: Request, n: Session, b: seq<seq<Event>>)
    requires Inv(s) && Goes(s, r, n, Handler, Sending(n)) && |b| == 3
    requires forall i :: 0 <= i < 3 ==> AllHarmless(b[i], r, n)
    ensures var t := Run(s, (b[0] + [SendEnds(r, false)]) + ((b[1] + [Resume(r)]) + (b[2] + [SendEnds(r, true)])));
      t.sent != [] && t.sent[|t.sent| - 1] == (r, n, Failed)
  {
    hide Inv;
    hide Goes;
    hide AllHarmless;
    var e0, e1, e2 := b[0] + [SendEnds(r, false)], b[1] + [Resume(r)], b[2] + [SendEnds(r, true)];
    Turns(s, b[0], SendEnds(r, false), r, n, Handler, Sending(n), Failing);
    Turns(Run(s, e0), b[1], Resume(r), r, n, Handler, Failing, SendingError(n));
    Answers(Run(Run(s, e0), e1), b[2], r, n, Handler, SendingError(n));
    RunConcat(s, e0, e1 + e2);
    RunConcat(Run(s, e0), e1, e2);
  }
}
