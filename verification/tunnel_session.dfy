/**
  The tunnel's sessions as a state machine. A step is what one task does between two suspensions, so every
  interleaving of the supervisor, the receiver, the request handlers and the tasks that stop them is a run.
 */
module TunnelSession {
  import opened Common

  type Session = nat

  type Request = nat

  /** What a task that answers one request does next. */
  datatype Phase =
    | Queued
    | Exchanging
    | Replying
    | Sending(ws: Session)
    | Failing
    | SendingError(ws: Session)

  /** A handler, or the receiver itself while it refuses a request or acknowledges a reload of the tunnel. */
  datatype Way = Handler | Refusing | Reloading

  datatype Task = Task(session: Session, phase: Phase, cancelled: bool, way: Way)

  predicate Inline(t: Task) { !t.way.Handler? }

  /** What an answer says: no remote access, the reload is under way, what Home Assistant answered, or an error. */
  datatype Answer = Refused | Reloaded | Result | Failed

  datatype Main =
    | Ended
    | Connecting
    | Serving(session: Session)
    | Closing(session: Session, waiting: set<Request>, dying: bool)
    | Sleeping

  /** A task that stops the session: it waits for what it cancelled, then clears up. */
  datatype Stopper = Idle | Waiting(tasks: set<Request>) | Clearing | Finished

  datatype State = State(
    closed: bool, stopping: bool, remoteAdmin: bool, ws: Option<Session>, open: set<Session>, sessions: nat,
    main: Main, mainCancelled: bool, tasks: map<Request, Task>, origin: map<Request, Session>, requests: nat,
    sent: seq<(Request, Session, Answer)>, applying: Stopper, unloading: Stopper)

  datatype Event =
    | Connect
    | ConnectFails(fatal: bool)
    | Deliver(selfReload: bool)
    | Begin(request: Request, valid: bool)
    | ExchangeEnds(request: Request, ok: bool)
    | Resume(request: Request)
    | SendEnds(request: Request, ok: bool)
    | SocketCloses(session: Session)
    | SessionEnds
    | MainResumes
    | SetAccess(enabled: bool)
    | ApplyResumes
    | Unload
    | UnloadResumes

  const BEGINNING := State(false, false, false, None, {}, 0, Connecting, false, map[], map[], 0, [], Idle, Idle)

  /** The receiver of the served session is still answering a request itself; one of an earlier session is another task. */
  predicate InlineBusy(s: State) {
    s.main.Serving? && exists r :: r in s.tasks && Inline(s.tasks[r]) && s.tasks[r].session == s.main.session
  }

  function Live(s: State): set<Request> { s.tasks.Keys }

  function Handlers(s: State): set<Request> { set r | r in s.tasks && !Inline(s.tasks[r]) }

  function Cancel(s: State, which: set<Request>): map<Request, Task> {
    map r | r in s.tasks :: if r in which then s.tasks[r].(cancelled := true) else s.tasks[r]
  }

  function With(s: State, r: Request, phase: Phase): State
    requires r in s.tasks
  {
    s.(tasks := s.tasks[r := s.tasks[r].(phase := phase)])
  }

  function End(s: State, r: Request): State { s.(tasks := s.tasks - {r}) }

  // ------------------------------------------------------------- answering a request

  /** A request arrives: the receiver refuses or reloads inline, or starts a handler. */
  function DeliverStep(s: State, selfReload: bool): State {
    if !s.main.Serving? || InlineBusy(s) then s
    else
      var way := if !s.remoteAdmin then Refusing else if selfReload then Reloading else Handler;
      var task := Task(s.main.session, if way.Handler? then Queued else Replying, false, way);
      s.(tasks := s.tasks[s.requests := task], origin := s.origin[s.requests := s.main.session],
         requests := s.requests + 1)
  }

  /** The handler gets its turn and reads the request. */
  function BeginStep(s: State, r: Request, valid: bool): State {
    if r !in s.tasks || !s.tasks[r].phase.Queued? then s
    else if s.tasks[r].cancelled then End(s, r)
    else With(s, r, if valid then Exchanging else Failing)
  }

  /** The detached exchange with Home Assistant ends; it only tells the handler, if that still waits. */
  function ExchangeStep(s: State, r: Request, ok: bool): State {
    if r !in s.tasks || !s.tasks[r].phase.Exchanging? || s.tasks[r].cancelled then s
    else With(s, r, if ok then Replying else Failing)
  }

  predicate Connected(s: State) { s.ws.Some? && s.ws.value in s.open }

  /** Reply on the socket of this moment; without one a reply fails, and a failed error reply ends the task. */
  function ResumeStep(s: State, r: Request): State {
    if r !in s.tasks then s
    else if s.tasks[r].cancelled then End(s, r)
    else
      match s.tasks[r].phase
      case Replying =>
        if Connected(s) then With(s, r, Sending(s.ws.value))
        else if Inline(s.tasks[r]) then End(s, r) else With(s, r, Failing)
      case Failing => if Connected(s) then With(s, r, SendingError(s.ws.value)) else End(s, r)
      case _ => s
  }

  /** What a task that replies says. */
  function AnswerOf(t: Task): Answer {
    match t.way case Refusing => Refused case Reloading => Reloaded case Handler => Result
  }

  /** A send on the captured socket returns or raises; even a cancelled one may have got through. */
  function SendStep(s: State, r: Request, ok: bool): State {
    if r !in s.tasks then s
    else
      match s.tasks[r].phase
      case Sending(ws) =>
        if ok then End(s.(sent := s.sent + [(r, ws, AnswerOf(s.tasks[r]))]), r)
        else if s.tasks[r].cancelled || Inline(s.tasks[r]) then End(s, r)
        else With(s, r, Failing)
      case SendingError(ws) => if ok then End(s.(sent := s.sent + [(r, ws, Failed)]), r) else End(s, r)
      case _ => s
  }

  // ------------------------------------------------------------------ the supervisor

  function ConnectStep(s: State): State {
    if !s.main.Connecting? then s
    else if s.mainCancelled then s.(main := Ended, mainCancelled := false)
    else
      s.(main := Serving(s.sessions), ws := Some(s.sessions), open := s.open + {s.sessions},
         sessions := s.sessions + 1)
  }

  function ConnectFailsStep(s: State, fatal: bool): State {
    if !s.main.Connecting? then s
    else if s.mainCancelled then s.(main := Ended, mainCancelled := false)
    else s.(main := if s.stopping || fatal then Ended else Sleeping)
  }

  /** The session is over, or the supervisor was cancelled: no socket any more, every task is cancelled. */
  function SessionEndsStep(s: State): State {
    if !s.main.Serving? then s
    else
      s.(ws := None, tasks := Cancel(s, Live(s)), main := Closing(s.main.session, Live(s), s.mainCancelled),
         mainCancelled := false)
  }

  function MainStep(s: State): State {
    match s.main
    case Sleeping =>
      if s.mainCancelled then s.(main := Ended, mainCancelled := false)
      else s.(main := if s.stopping then Ended else Connecting)
    case Closing(_, waiting, dying) =>
      if s.mainCancelled then s.(main := Ended, mainCancelled := false)
      else if waiting * Live(s) != {} then s
      else s.(main := if dying || s.stopping then Ended else Sleeping)
    case _ => s
  }

  // --------------------------------------------------------------------- stopping

  /** Cancel the handlers and the supervisor. */
  function StopBegins(s: State): State {
    s.(stopping := true, tasks := Cancel(s, Handlers(s)), mainCancelled := s.mainCancelled || !s.main.Ended?)
  }

  predicate Stopped(s: State, tasks: set<Request>) { s.main.Ended? && tasks * Live(s) == {} }

  /** A change of the access mode restarts the session; one change at a time. */
  function SetAccessStep(s: State, enabled: bool): State {
    if !s.applying.Idle? || s.remoteAdmin == enabled then s
    else StopBegins(s).(remoteAdmin := enabled, applying := Waiting(Handlers(s)))
  }

  function ApplyStep(s: State): State {
    match s.applying
    case Waiting(tasks) => if Stopped(s, tasks) then s.(applying := Clearing) else s
    case Clearing =>
      var cleared := s.(ws := None, applying := Idle);
      if s.closed || !s.main.Ended? then cleared
      else cleared.(stopping := false, main := Connecting, mainCancelled := false)
    case _ => s
  }

  function UnloadStep(s: State): State {
    if !s.unloading.Idle? then s else StopBegins(s).(closed := true, unloading := Waiting(Handlers(s)))
  }

  function UnloadResumesStep(s: State): State {
    match s.unloading
    case Waiting(tasks) => if Stopped(s, tasks) then s.(unloading := Clearing) else s
    case Clearing => s.(ws := None, unloading := Finished)
    case _ => s
  }

  function Next(s: State, e: Event): State {
    match e
    case Connect => ConnectStep(s)
    case ConnectFails(fatal) => ConnectFailsStep(s, fatal)
    case Deliver(selfReload) => DeliverStep(s, selfReload)
    case Begin(r, valid) => BeginStep(s, r, valid)
    case ExchangeEnds(r, ok) => ExchangeStep(s, r, ok)
    case Resume(r) => ResumeStep(s, r)
    case SendEnds(r, ok) => SendStep(s, r, ok)
    case SocketCloses(n) => s.(open := s.open - {n})
    case SessionEnds => SessionEndsStep(s)
    case MainResumes => MainStep(s)
    case SetAccess(enabled) => SetAccessStep(s, enabled)
    case ApplyResumes => ApplyStep(s)
    case Unload => UnloadStep(s)
    case UnloadResumes => UnloadResumesStep(s)
  }

  function Run(s: State, events: seq<Event>): State
    decreases |events|
  {
    if events == [] then s else Run(Next(s, events[0]), events[1..])
  }

  // -------------------------------------------------------------------- invariants

  /** Only the session being served has tasks that are not cancelled, and its socket is the current one. */
  ghost predicate OnlyServed(s: State) {
    forall r :: r in s.tasks && !s.tasks[r].cancelled ==>
      s.main == Serving(s.tasks[r].session) && s.ws == Some(s.tasks[r].session)
  }

  /** A task answers on the session that delivered its request. */
  ghost predicate OwnSocket(s: State) {
    forall r :: r in s.tasks ==>
      && r < s.requests && r in s.origin && s.origin[r] == s.tasks[r].session
      && (s.tasks[r].phase.Sending? ==> s.tasks[r].phase.ws == s.origin[r])
      && (s.tasks[r].phase.SendingError? ==> s.tasks[r].phase.ws == s.origin[r])
  }

  /** What was sent was sent once, for a request that is over, on the session that delivered it. */
  ghost predicate SentOnce(s: State) {
    && (forall i :: 0 <= i < |s.sent| ==>
          s.sent[i].0 in s.origin && s.origin[s.sent[i].0] == s.sent[i].1 && s.sent[i].0 !in s.tasks)
    && (forall i, j :: 0 <= i < j < |s.sent| ==> s.sent[i].0 != s.sent[j].0)
    && (forall r :: r in s.origin ==> r < s.requests)
  }

  /** While a session is served its socket is current unless a stop already cleared up. */
  ghost predicate Sockets(s: State) {
    && (s.main.Serving? ==> s.ws == Some(s.main.session) && s.main.session < s.sessions)
    && (s.ws.Some? ==> s.main.Serving?)
  }

  /** Handlers of an earlier session are over before the next one opens. */
  ghost predicate Awaited(s: State) {
    && (s.main.Connecting? || s.main.Sleeping? ==> Handlers(s) == {})
    && (s.main.Serving? ==> forall r :: r in Handlers(s) ==> s.tasks[r].session == s.main.session)
    && (s.main.Closing? ==> Live(s) <= s.main.waiting)
    && (s.main.Closing? && s.mainCancelled ==> s.closed || WaitsForAll(s))
    && (s.main.Ended? ==> s.closed || Handlers(s) == {} || WaitsForAll(s))
    && (s.main.Ended? ==> !s.mainCancelled)
  }

  ghost predicate WaitsForAll(s: State) { s.applying.Waiting? && Handlers(s) <= s.applying.tasks }

  /** A stop that clears up has seen the supervisor end; an unload never lets one start again. */
  ghost predicate Stops(s: State) {
    && (!s.unloading.Idle? <==> s.closed)
    && (s.applying.Clearing? ==> s.main.Ended? && (s.closed || Handlers(s) == {}))
    && (s.unloading.Clearing? || s.unloading.Finished? ==> s.main.Ended?)
  }

  ghost predicate Inv(s: State) {
    OnlyServed(s) && OwnSocket(s) && SentOnce(s) && Sockets(s) && Awaited(s) && Stops(s)
  }

  /** A task that moves on, to a socket of its own session if to any. */
  lemma MoveKeeps(s: State, r: Request, phase: Phase)
    requires Inv(s) && r in s.tasks
    requires phase.Sending? ==> phase.ws == s.origin[r]
    requires phase.SendingError? ==> phase.ws == s.origin[r]
    ensures Inv(With(s, r, phase))
  {
    var t := With(s, r, phase);
    assert Handlers(t) == Handlers(s) && Live(t) == Live(s);
  }

  lemma EndKeeps(s: State, r: Request)
    requires Inv(s)
    ensures Inv(End(s, r))
  {
    var t := End(s, r);
    assert Handlers(t) == Handlers(s) - {r} && Live(t) == Live(s) - {r};
  }

  /** A reply that got through ends its task. */
  lemma SentKeeps(s: State, r: Request, answer: Answer)
    requires Inv(s) && r in s.tasks
    ensures Inv(End(s.(sent := s.sent + [(r, s.origin[r], answer)]), r))
  {
    var t := End(s.(sent := s.sent + [(r, s.origin[r], answer)]), r);
    assert t.tasks == End(s, r).tasks;
    EndKeeps(s, r);
    assert SentOnce(t);
  }

  lemma ResumeKeeps(s: State, r: Request)
    requires Inv(s)
    ensures Inv(ResumeStep(s, r))
  {
    if r in s.tasks {
      EndKeeps(s, r);
      if !s.tasks[r].cancelled {
        assert s.ws == Some(s.origin[r]);
        MoveKeeps(s, r, Failing);
        MoveKeeps(s, r, Sending(s.ws.value));
        MoveKeeps(s, r, SendingError(s.ws.value));
      }
    }
  }

  lemma SendKeeps(s: State, r: Request, ok: bool)
    requires Inv(s)
    ensures Inv(SendStep(s, r, ok))
  {
    if r in s.tasks {
      EndKeeps(s, r);
      SentKeeps(s, r, AnswerOf(s.tasks[r]));
      SentKeeps(s, r, Failed);
      MoveKeeps(s, r, Failing);
    }
  }

  lemma BeginKeeps(s: State, r: Request, valid: bool)
    requires Inv(s)
    ensures Inv(BeginStep(s, r, valid))
  {
    if r in s.tasks {
      EndKeeps(s, r);
      MoveKeeps(s, r, if valid then Exchanging else Failing);
    }
  }

  lemma ExchangeKeeps(s: State, r: Request, ok: bool)
    requires Inv(s)
    ensures Inv(ExchangeStep(s, r, ok))
  {
    if r in s.tasks { MoveKeeps(s, r, if ok then Replying else Failing); }
  }

  lemma DeliverKeeps(s: State, selfReload: bool)
    requires Inv(s)
    ensures Inv(DeliverStep(s, selfReload))
  {
    if s.main.Serving? && !InlineBusy(s) {
      var t := DeliverStep(s, selfReload);
      var n := s.requests;
      assert n !in s.tasks && n !in s.origin;
      assert Handlers(t) <= Handlers(s) + {n} && t.tasks[n].session == s.main.session;
      assert Awaited(t) by { hide SentOnce; hide OwnSocket; hide OnlyServed; }
      assert SentOnce(t);
    }
  }

  lemma ConnectKeeps(s: State)
    requires Inv(s)
    ensures Inv(ConnectStep(s))
  {
  }

  lemma ConnectFailsKeeps(s: State, fatal: bool)
    requires Inv(s)
    ensures Inv(ConnectFailsStep(s, fatal))
  {
  }

  lemma CancelSame(s: State, which: set<Request>)
    ensures Cancel(s, which).Keys == Live(s)
    ensures Handlers(s.(tasks := Cancel(s, which))) == Handlers(s)
  {
  }

  lemma SessionEndsKeeps(s: State)
    requires Inv(s)
    ensures Inv(SessionEndsStep(s))
  {
    CancelSame(s, Live(s));
  }

  lemma HandlersLive(s: State)
    ensures Handlers(s) <= Live(s)
  {
  }

  lemma WakesKeeps(s: State)
    requires Inv(s) && s.main.Sleeping?
    ensures Inv(MainStep(s))
  {
    assert Handlers(MainStep(s)) == Handlers(s);
  }

  /** The supervisor closes the session: interrupted, waiting, or done. */
  lemma ClosesKeeps(s: State)
    requires Inv(s) && s.main.Closing?
    ensures Inv(MainStep(s))
  {
    var t := MainStep(s);
    assert Handlers(t) == Handlers(s);
    HandlersLive(s);
    if !s.mainCancelled && s.main.waiting * Live(s) == {} {
      assert Live(s) == {};
      assert Handlers(t) == {};
    }
    assert OnlyServed(t);
  }

  lemma MainKeeps(s: State)
    requires Inv(s)
    ensures Inv(MainStep(s))
  {
    if s.main.Sleeping? { WakesKeeps(s); }
    if s.main.Closing? { ClosesKeeps(s); }
  }

  lemma StopBeginsKeeps(s: State)
    requires Inv(s)
    ensures var t := StopBegins(s);
      OnlyServed(t) && OwnSocket(t) && SentOnce(t) && Sockets(t) && Handlers(t) == Handlers(s) && Live(t) == Live(s)
  {
    CancelSame(s, Handlers(s));
  }

  lemma SetAccessKeeps(s: State, enabled: bool)
    requires Inv(s)
    ensures Inv(SetAccessStep(s, enabled))
  {
    StopBeginsKeeps(s);
    var t := SetAccessStep(s, enabled);
    assert t.tasks == StopBegins(s).tasks || t == s;
    if t != s {
      assert Handlers(t) == Handlers(s);
      assert forall r :: r in t.tasks ==> r in s.tasks && t.tasks[r].session == s.tasks[r].session;
    }
  }

  lemma UnloadKeeps(s: State)
    requires Inv(s)
    ensures Inv(UnloadStep(s))
  {
    StopBeginsKeeps(s);
    var t := UnloadStep(s);
    if t != s {
      assert t.tasks == StopBegins(s).tasks;
      assert Handlers(t) == Handlers(s);
      assert forall r :: r in t.tasks ==> r in s.tasks && t.tasks[r].session == s.tasks[r].session;
    }
  }

  lemma ApplyWaitKeeps(s: State)
    requires Inv(s) && s.applying.Waiting?
    ensures Inv(ApplyStep(s))
  {
    var t := ApplyStep(s);
    assert Handlers(t) == Handlers(s);
    HandlersLive(s);
  }

  lemma ApplyClearKeeps(s: State)
    requires Inv(s) && s.applying.Clearing?
    ensures Inv(ApplyStep(s))
  {
    var t := ApplyStep(s);
    assert Handlers(t) == Handlers(s);
    assert s.ws == None;
    assert OnlyServed(t) && OwnSocket(t) && SentOnce(t) && Sockets(t);
  }

  lemma ApplyKeeps(s: State)
    requires Inv(s)
    ensures Inv(ApplyStep(s))
  {
    if s.applying.Waiting? { ApplyWaitKeeps(s); }
    if s.applying.Clearing? { ApplyClearKeeps(s); }
  }

  lemma UnloadResumesKeeps(s: State)
    requires Inv(s)
    ensures Inv(UnloadResumesStep(s))
  {
    var t := UnloadResumesStep(s);
    assert Handlers(t) == Handlers(s);
  }

  lemma SocketKeeps(s: State, n: Session)
    requires Inv(s)
    ensures Inv(s.(open := s.open - {n}))
  {
    assert Handlers(s.(open := s.open - {n})) == Handlers(s);
  }

  lemma StepKeeps(s: State, e: Event)
    requires Inv(s)
    ensures Inv(Next(s, e))
  {
    match e
    case Connect => ConnectKeeps(s);
    case ConnectFails(fatal) => ConnectFailsKeeps(s, fatal);
    case Deliver(selfReload) => DeliverKeeps(s, selfReload);
    case Begin(r, valid) => BeginKeeps(s, r, valid);
    case ExchangeEnds(r, ok) => ExchangeKeeps(s, r, ok);
    case Resume(r) => ResumeKeeps(s, r);
    case SendEnds(r, ok) => SendKeeps(s, r, ok);
    case SocketCloses(n) => SocketKeeps(s, n);
    case SessionEnds => SessionEndsKeeps(s);
    case MainResumes => MainKeeps(s);
    case SetAccess(enabled) => SetAccessKeeps(s, enabled);
    case ApplyResumes => ApplyKeeps(s);
    case Unload => UnloadKeeps(s);
    case UnloadResumes => UnloadResumesKeeps(s);
  }

  lemma {:induction false} RunKeeps(s: State, events: seq<Event>)
    requires Inv(s)
    ensures Inv(Run(s, events))
    decreases |events|
  {
    if events != [] {
      StepKeeps(s, events[0]);
      RunKeeps(Next(s, events[0]), events[1..]);
    }
  }

  // ---------------------------------------------------------------------- theorems

  lemma BeginningHolds()
    ensures Inv(BEGINNING)
  {
    assert Handlers(BEGINNING) == {};
  }

  /** In every run a request is answered at most once, and only on the session that delivered it. */
  lemma {:induction false} AnsweredOnceOnItsSession(events: seq<Event>)
    ensures var s := Run(BEGINNING, events);
      && (forall i, j :: 0 <= i < j < |s.sent| ==> s.sent[i].0 != s.sent[j].0)
      && (forall i :: 0 <= i < |s.sent| ==>
            s.sent[i].0 in s.origin && s.sent[i].1 == s.origin[s.sent[i].0] && s.sent[i].0 !in s.tasks)
  {
    BeginningHolds();
    RunKeeps(BEGINNING, events);
  }

  /** Whenever a session opens, every handler of an earlier one has ended. */
  lemma {:induction false} HandlersEndBeforeTheNextSession(events: seq<Event>)
    ensures var s := Run(BEGINNING, events);
      s.main.Connecting? ==> Handlers(s) == {} && s.ws == None && Handlers(Next(s, Connect)) == {}
  {
    BeginningHolds();
    RunKeeps(BEGINNING, events);
    var s := Run(BEGINNING, events);
    if s.main.Connecting? { assert Handlers(Next(s, Connect)) == Handlers(s); }
  }

  lemma {:induction false} RunConcat(s: State, a: seq<Event>, b: seq<Event>)
    ensures Run(s, a + b) == Run(Run(s, a), b)
    decreases |a|
  {
    if a == [] {
      assert a + b == b;
    } else {
      assert (a + b)[1..] == a[1..] + b;
      RunConcat(Next(s, a[0]), a[1..], b);
    }
  }

  lemma ResumeKeepsRecord(s: State, r: Request)
    ensures ResumeStep(s, r).origin == s.origin && ResumeStep(s, r).sent == s.sent
  {
  }

  lemma TaskStepsKeepRecord(s: State, e: Event)
    requires e.Begin? || e.ExchangeEnds? || e.Resume?
    ensures Next(s, e).origin == s.origin && Next(s, e).sent == s.sent
  {
    hide ResumeStep;
    if e.Resume? { ResumeKeepsRecord(s, e.request); }
  }

  lemma OtherStepsKeepRecord(s: State, e: Event)
    requires !e.Deliver? && !e.SendEnds? && !e.Begin? && !e.ExchangeEnds? && !e.Resume?
    ensures Next(s, e).origin == s.origin && Next(s, e).sent == s.sent
  {
    hide Cancel;
    hide Handlers;
    hide Live;
    hide ResumeStep;
    hide SendStep;
    hide BeginStep;
    hide ExchangeStep;
    hide DeliverStep;
  }

  ghost predicate RecordGrows(s: State, t: State) {
    s.sent <= t.sent && forall r :: r in s.origin ==> r in t.origin && t.origin[r] == s.origin[r]
  }

  /** A request keeps the session that delivered it, and answers are only ever added, one at a time. */
  lemma StepsOnlyAdd(s: State, e: Event)
    requires forall r :: r in s.origin ==> r < s.requests
    ensures RecordGrows(s, Next(s, e)) && |Next(s, e).sent| <= |s.sent| + 1
  {
    if e.Deliver? {
      assert s.requests !in s.origin;
    } else if e.Begin? || e.ExchangeEnds? || e.Resume? {
      TaskStepsKeepRecord(s, e);
    } else if !e.SendEnds? {
      OtherStepsKeepRecord(s, e);
    }
  }

  lemma {:induction false} RunsOnlyAdd(s: State, events: seq<Event>)
    requires Inv(s)
    ensures RecordGrows(s, Run(s, events))
    decreases |events|
  {
    if events != [] {
      StepKeeps(s, events[0]);
      StepsOnlyAdd(s, events[0]);
      RunsOnlyAdd(Next(s, events[0]), events[1..]);
    }
  }

  /** Over a whole run: what was answered stays answered, and nothing answers it again later. */
  lemma {:induction false} NoLateAnswer(before: seq<Event>, after: seq<Event>, i: nat)
    requires i < |Run(BEGINNING, before).sent|
    ensures var s, t := Run(BEGINNING, before), Run(BEGINNING, before + after);
      && i < |t.sent| && t.sent[i] == s.sent[i]
      && forall j :: 0 <= j < |t.sent| && j != i ==> t.sent[j].0 != s.sent[i].0
  {
    BeginningHolds();
    RunKeeps(BEGINNING, before);
    RunConcat(BEGINNING, before, after);
    RunsOnlyAdd(Run(BEGINNING, before), after);
    AnsweredOnceOnItsSession(before + after);
  }

  lemma FinishedStays(s: State, e: Event)
    requires Inv(s) && s.unloading.Finished?
    ensures Next(s, e).unloading.Finished? && Next(s, e).main.Ended? && Next(s, e).ws == None
  {
  }

  /** Once an unload has finished, no session ever opens again and nothing answers a new request. */
  lemma {:induction false} UnloadIsFinal(s: State, events: seq<Event>)
    requires Inv(s) && s.unloading.Finished?
    ensures var t := Run(s, events);
      t.unloading.Finished? && t.main.Ended? && t.ws == None && t.requests == s.requests && t.sessions == s.sessions
    decreases |events|
  {
    if events != [] {
      StepKeeps(s, events[0]);
      FinishedStays(s, events[0]);
      UnloadIsFinal(Next(s, events[0]), events[1..]);
    }
  }

  // -------------------------------------------------------------------- the client

  /** The client whose methods are the steps its tasks take. */
  class TunnelClient {
    var closed: bool
    var stopping: bool
    var remoteAdmin: bool
    var ws: Option<Session>
    var open: set<Session>
    var sessions: nat
    var main: Main
    var mainCancelled: bool
    var tasks: map<Request, Task>
    var origin: map<Request, Session>
    var requests: nat
    var sent: seq<(Request, Session, Answer)>
    var applying: Stopper
    var unloading: Stopper

    function Now(): State
      reads this
    {
      State(closed, stopping, remoteAdmin, ws, open, sessions, main, mainCancelled, tasks, origin, requests, sent,
            applying, unloading)
    }

    constructor ()
      ensures Now() == BEGINNING && Inv(Now())
    {
      closed, stopping, remoteAdmin, ws, open, sessions := false, false, false, None, {}, 0;
      main, mainCancelled, tasks, origin, requests, sent := Connecting, false, map[], map[], 0, [];
      applying, unloading := Idle, Idle;
      new;
      BeginningHolds();
    }

    /** The supervisor's connection attempt succeeds. */
    method OpenSession()
      requires Inv(Now())
      modifies this
      ensures Now() == Next(old(Now()), Connect) && Inv(Now())
    {
      StepKeeps(Now(), Connect);
      if main.Connecting? {
        if mainCancelled {
          main, mainCancelled := Ended, false;
        } else {
          main, ws, open := Serving(sessions), Some(sessions), open + {sessions};
          sessions := sessions + 1;
        }
      }
    }

    /** The end of a session: the socket goes first, then every task is cancelled. */
    method CloseSession()
      requires Inv(Now())
      modifies this
      ensures Now() == Next(old(Now()), SessionEnds) && Inv(Now())
    {
      StepKeeps(Now(), SessionEnds);
      if main.Serving? {
        ws := None;
        var waiting := Live(Now());
        tasks := Cancel(Now(), waiting);
        main := Closing(main.session, waiting, mainCancelled);
        mainCancelled := false;
      }
    }

    /** The supervisor goes on after a delay, or once the tasks it cancelled have ended. */
    method Supervise()
      requires Inv(Now())
      modifies this`main, this`mainCancelled
      ensures Now() == Next(old(Now()), MainResumes) && Inv(Now())
    {
      StepKeeps(Now(), MainResumes);
      if main.Sleeping? || main.Closing? {
        if mainCancelled {
          main, mainCancelled := Ended, false;
        } else if main.Sleeping? {
          main := if stopping then Ended else Connecting;
        } else if main.waiting * tasks.Keys == {} {
          main := if main.dying || stopping then Ended else Sleeping;
        }
      }
    }

    /** A request arrives on the session being served. */
    method Receive(selfReload: bool)
      requires Inv(Now())
      modifies this`tasks, this`origin, this`requests
      ensures Now() == Next(old(Now()), Deliver(selfReload)) && Inv(Now())
    {
      StepKeeps(Now(), Deliver(selfReload));
      if main.Serving? && !InlineBusy(Now()) {
        var way := if !remoteAdmin then Refusing else if selfReload then Reloading else Handler;
        tasks := tasks[requests := Task(main.session, if way.Handler? then Queued else Replying, false, way)];
        origin := origin[requests := main.session];
        requests := requests + 1;
      }
    }

    /** A task that has its answer captures the current socket; a cancelled one ends instead. */
    method Reply(r: Request)
      requires Inv(Now())
      modifies this`tasks
      ensures Now() == Next(old(Now()), Resume(r)) && Inv(Now())
    {
      StepKeeps(Now(), Resume(r));
      if r in tasks {
        var task := tasks[r];
        var socket := if ws.Some? && ws.value in open then ws else None;
        if task.cancelled {
          tasks := tasks - {r};
        } else if task.phase.Replying? {
          if socket.Some? {
            tasks := tasks[r := task.(phase := Sending(socket.value))];
          } else if Inline(task) {
            tasks := tasks - {r};
          } else {
            tasks := tasks[r := task.(phase := Failing)];
          }
        } else if task.phase.Failing? {
          if socket.Some? {
            tasks := tasks[r := task.(phase := SendingError(socket.value))];
          } else {
            tasks := tasks - {r};
          }
        }
      }
    }

    /** The captured socket takes the reply, or raises. */
    method Sent(r: Request, ok: bool)
      requires Inv(Now())
      modifies this`tasks, this`sent
      ensures Now() == Next(old(Now()), SendEnds(r, ok)) && Inv(Now())
    {
      StepKeeps(Now(), SendEnds(r, ok));
      if r in tasks {
        var task := tasks[r];
        if task.phase.Sending? || task.phase.SendingError? {
          if ok {
            sent := sent + [(r, task.phase.ws, if task.phase.Sending? then AnswerOf(task) else Failed)];
            tasks := tasks - {r};
          } else if task.cancelled || Inline(task) || task.phase.SendingError? {
            tasks := tasks - {r};
          } else {
            tasks := tasks[r := task.(phase := Failing)];
          }
        }
      }
    }

    /** Change the access mode; the session restarts so nothing of the old mode survives. */
    method SetRemoteAdmin(enabled: bool)
      requires Inv(Now())
      modifies this
      ensures Now() == Next(old(Now()), SetAccess(enabled)) && Inv(Now())
    {
      StepKeeps(Now(), SetAccess(enabled));
      if applying.Idle? && remoteAdmin != enabled {
        remoteAdmin := enabled;
        applying := Waiting(Handlers(Now()));
        StopSession();
      }
    }

    method StopSession()
      modifies this`stopping, this`tasks, this`mainCancelled
      ensures Now() == StopBegins(old(Now()))
    {
      stopping := true;
      tasks := Cancel(Now(), Handlers(Now()));
      mainCancelled := mainCancelled || !main.Ended?;
    }

    /** The restart goes on once everything it waits for has ended. */
    method FinishApply()
      requires Inv(Now())
      modifies this
      ensures Now() == Next(old(Now()), ApplyResumes) && Inv(Now())
    {
      StepKeeps(Now(), ApplyResumes);
      if applying.Waiting? {
        if main.Ended? && applying.tasks * tasks.Keys == {} { applying := Clearing; }
      } else if applying.Clearing? {
        ws, applying := None, Idle;
        if !closed && main.Ended? { stopping, main, mainCancelled := false, Connecting, false; }
      }
    }

    /** Unload: the client is closed for good. */
    method Stop()
      requires Inv(Now())
      modifies this
      ensures Now() == Next(old(Now()), Unload) && Inv(Now())
    {
      StepKeeps(Now(), Unload);
      if unloading.Idle? {
        closed := true;
        unloading := Waiting(Handlers(Now()));
        StopSession();
      }
    }
  }
}
