/** That the tunnel comes back: after a lost session, a failed attempt and a change of access; and that an unload ends. */
module TunnelProgress {
  import opened Common
  import opened TunnelSession

  /** Every task gets a turn. */
  function Resumes(order: seq<Request>): seq<Event> {
    if order == [] then [] else [Resume(order[0])] + Resumes(order[1..])
  }

  ghost predicate AllCancelled(s: State) { forall r :: r in s.tasks ==> s.tasks[r].cancelled }

  /** Cancelled tasks end at their next turn, in whatever order they get it. */
  lemma {:induction false} AllEnd(s: State, order: seq<Request>)
    requires AllCancelled(s) && forall r :: r in s.tasks ==> r in order
    ensures Run(s, Resumes(order)) == s.(tasks := map[])
    decreases |order|
  {
    if order == [] {
      assert s.tasks == map[];
    } else {
      var r := order[0];
      var next := Next(s, Resume(r));
      assert order == [r] + order[1..];
      assert next == s.(tasks := s.tasks - {r});
      AllEnd(next, order[1..]);
      assert Resumes(order)[1..] == Resumes(order[1..]);
    }
  }

  lemma {:induction false} AllEndThen(s: State, order: seq<Request>, events: seq<Event>)
    requires AllCancelled(s) && forall r :: r in s.tasks ==> r in order
    ensures Run(s, Resumes(order) + events) == Run(s.(tasks := map[]), events)
  {
    AllEnd(s, order);
    RunConcat(s, Resumes(order), events);
  }

  lemma {:induction false} Step(s: State, e: Event, rest: seq<Event>)
    ensures Run(s, [e] + rest) == Run(Next(s, e), rest)
  {
    assert ([e] + rest)[1..] == rest;
  }

  lemma {:induction false} Steps(s: State, a: Event, b: Event, c: Event)
    ensures Run(s, [a, b, c]) == Next(Next(Next(s, a), b), c)
  {
    assert [a, b, c] == [a] + ([b] + ([c] + []));
    Step(s, a, [b] + ([c] + []));
    Step(Next(s, a), b, [c] + []);
    Step(Next(Next(s, a), b), c, []);
  }

  /** A session and nothing else: its own socket, open, and no task of an earlier one. */
  predicate FreshSession(s: State, n: Session) {
    s.main == Serving(n) && s.ws == Some(n) && n in s.open && s.sessions == n + 1 && s.tasks == map[]
  }

  lemma ClosingCancels(s: State)
    requires s.main.Serving?
    ensures var t := Next(s, SessionEnds);
      AllCancelled(t) && t.ws == None && t.main == Closing(s.main.session, Live(s), s.mainCancelled) && Live(t) == Live(s)
    ensures var t := Next(s, SessionEnds);
      t == s.(ws := None, tasks := t.tasks, main := t.main, mainCancelled := false)
  {
  }

  /** A lost session is followed by a new one, once the tasks of the old one have ended. */
  lemma {:induction false} SessionIsReplaced(before: seq<Event>, order: seq<Request>)
    requires var s := Run(BEGINNING, before);
      s.main.Serving? && !s.stopping && !s.mainCancelled && forall r :: r in s.tasks ==> r in order
    ensures var s := Run(BEGINNING, before);
      FreshSession(Run(s, [SessionEnds] + (Resumes(order) + [MainResumes, MainResumes, Connect])), s.sessions)
  {
    var s := Run(BEGINNING, before);
    var rest := [MainResumes, MainResumes, Connect];
    Step(s, SessionEnds, Resumes(order) + rest);
    var t := Next(s, SessionEnds);
    ClosingCancels(s);
    AllEndThen(t, order, rest);
    Reopens(t.(tasks := map[]));
    hide Next;
  }

  lemma {:induction false} Reopens(s: State)
    requires s.main.Closing? && !s.main.dying && !s.stopping && !s.mainCancelled && s.tasks == map[]
    ensures FreshSession(Run(s, [MainResumes, MainResumes, Connect]), s.sessions)
  {
    Steps(s, MainResumes, MainResumes, Connect);
  }

  /** Until all of them have ended there is no new session. */
  lemma ClosingWaits(s: State, n: Session, waiting: set<Request>, dying: bool)
    requires s.main == Closing(n, waiting, dying) && !s.mainCancelled && waiting * Live(s) != {}
    ensures Next(s, MainResumes) == s && Next(s, Connect) == s
  {
  }

  /** An attempt that fails is made again, unless it failed for good. */
  lemma AttemptIsRepeated(s: State)
    requires s.main.Connecting? && !s.stopping && !s.mainCancelled
    ensures Next(Next(s, ConnectFails(false)), MainResumes).main.Connecting?
    ensures Next(s, ConnectFails(true)).main.Ended?
  {
  }

  /** After a change of access the session is replaced by one under the new access. */
  lemma {:induction false} AccessChangeRestarts(before: seq<Event>, order: seq<Request>)
    requires var s := Run(BEGINNING, before);
      && s.main.Serving? && s.applying.Idle? && s.unloading.Idle? && !s.mainCancelled
      && forall r :: r in s.tasks ==> r in order
    ensures var s := Run(BEGINNING, before);
      var t := Run(s, [SetAccess(!s.remoteAdmin)] + ([SessionEnds]
                      + (Resumes(order) + ([MainResumes] + [ApplyResumes, ApplyResumes, Connect]))));
      FreshSession(t, s.sessions) && t.remoteAdmin == !s.remoteAdmin && !t.stopping && t.applying.Idle?
  {
    BeginningHolds();
    RunKeeps(BEGINNING, before);
    var s := Run(BEGINNING, before);
    assert !s.closed;
    var last := [ApplyResumes, ApplyResumes, Connect];
    Step(s, SetAccess(!s.remoteAdmin), [SessionEnds] + (Resumes(order) + ([MainResumes] + last)));
    var s1 := Next(s, SetAccess(!s.remoteAdmin));
    assert Live(s1) == Live(s);
    AfterStop(s1, order, last);
    AccessStops(s);
    Restarts(s1);
    hide Inv;
    hide Next;
    hide Down;
    hide Live;
  }

  /** The same access again, or a change while one is being applied, does nothing. */
  lemma AccessChangesOnce(s: State)
    ensures Next(s, SetAccess(s.remoteAdmin)) == s
    ensures !s.applying.Idle? ==> Next(s, SetAccess(!s.remoteAdmin)) == s
  {
  }

  lemma AccessStops(s: State)
    requires s.main.Serving? && s.applying.Idle?
    ensures var t := Next(s, SetAccess(!s.remoteAdmin));
      && t == s.(remoteAdmin := !s.remoteAdmin, stopping := true, mainCancelled := true, tasks := t.tasks,
                 applying := t.applying)
      && t.applying == Waiting(Handlers(s))
  {
  }

  lemma Restarts(s: State)
    requires s.applying.Waiting? && !s.closed
    ensures var t := Run(Down(s), [ApplyResumes, ApplyResumes, Connect]);
      && t.main == Serving(s.sessions) && t.ws == Some(s.sessions) && s.sessions in t.open && t.sessions == s.sessions + 1
      && t.tasks == map[] && t.remoteAdmin == s.remoteAdmin && !t.stopping && t.applying.Idle?
  {
    Steps(Down(s), ApplyResumes, ApplyResumes, Connect);
  }

  /** What is left when a stopped session has closed and everything has ended. */
  function Down(s: State): State { s.(ws := None, tasks := map[], main := Ended, mainCancelled := false) }

  lemma {:induction false} AfterStop(s: State, order: seq<Request>, last: seq<Event>)
    requires s.main.Serving? && s.stopping && s.mainCancelled && forall r :: r in s.tasks ==> r in order
    ensures Run(s, [SessionEnds] + (Resumes(order) + ([MainResumes] + last))) == Run(Down(s), last)
  {
    Step(s, SessionEnds, Resumes(order) + ([MainResumes] + last));
    var t := Next(s, SessionEnds);
    ClosingCancels(s);
    AllEndThen(t, order, [MainResumes] + last);
    Step(t.(tasks := map[]), MainResumes, last);
  }

  /** An unload ends, with nothing left running. */
  lemma {:induction false} UnloadEnds(before: seq<Event>, order: seq<Request>)
    requires var s := Run(BEGINNING, before);
      && s.main.Serving? && s.unloading.Idle? && !s.mainCancelled && forall r :: r in s.tasks ==> r in order
    ensures var s := Run(BEGINNING, before);
      var t := Run(s, [Unload] + ([SessionEnds]
                      + (Resumes(order) + ([MainResumes] + [UnloadResumes, UnloadResumes, Connect]))));
      t.closed && t.unloading.Finished? && t.main.Ended? && t.ws == None && t.tasks == map[]
  {
    var s := Run(BEGINNING, before);
    var last := [UnloadResumes, UnloadResumes, Connect];
    Step(s, Unload, [SessionEnds] + (Resumes(order) + ([MainResumes] + last)));
    var s1 := Next(s, Unload);
    assert Live(s1) == Live(s);
    UnloadStops(s);
    AfterStop(s1, order, last);
    StaysDown(s1);
    hide Next;
    hide Down;
    hide Live;
  }

  lemma UnloadStops(s: State)
    requires s.main.Serving? && s.unloading.Idle?
    ensures var t := Next(s, Unload);
      && t == s.(closed := true, stopping := true, mainCancelled := true, tasks := t.tasks, unloading := t.unloading)
      && t.unloading == Waiting(Handlers(s))
  {
  }

  lemma StaysDown(s: State)
    requires s.unloading.Waiting? && s.closed
    ensures var t := Run(Down(s), [UnloadResumes, UnloadResumes, Connect]);
      t.closed && t.unloading.Finished? && t.main.Ended? && t.ws == None && t.tasks == map[]
  {
    Steps(Down(s), UnloadResumes, UnloadResumes, Connect);
  }

  // --------------------------------------------------------------- every turn, exactly

  /** Stopping cancels the handlers and the supervisor, not what the receiver answers itself, and waits for the handlers. */
  lemma StopCancelsExactly(s: State, access: bool)
    requires if access then s.applying.Idle? else s.unloading.Idle?
    ensures var t := Next(s, if access then SetAccess(!s.remoteAdmin) else Unload);
      && t.stopping && (t.mainCancelled <==> s.mainCancelled || s.main != Ended)
      && t.tasks.Keys == s.tasks.Keys
      && (forall r :: r in s.tasks ==>
            t.tasks[r] == s.tasks[r].(cancelled := s.tasks[r].cancelled || s.tasks[r].way == Handler))
      && (if access then t.applying else t.unloading) == Waiting(set r | r in s.tasks && s.tasks[r].way == Handler)
      && t == s.(stopping := true, tasks := t.tasks, mainCancelled := t.mainCancelled, applying := t.applying,
                 unloading := t.unloading, remoteAdmin := if access then !s.remoteAdmin else s.remoteAdmin,
                 closed := s.closed || !access)
  {
  }

  /** A supervisor that was cancelled ends at its next turn, wherever it waits. */
  lemma CancelledEnds(s: State, e: Event)
    requires s.mainCancelled
    requires if s.main.Connecting? then e.Connect? || e.ConnectFails?
             else (s.main.Sleeping? || s.main.Closing?) && e.MainResumes?
    ensures Next(s, e) == s.(main := Ended, mainCancelled := false)
  {
  }

  /** One that was not goes on: it connects, sleeps after a failure or a closed session, and ends when it is to stop. */
  lemma SupervisorGoesOn(s: State)
    requires !s.mainCancelled
    ensures s.main.Connecting? ==>
      && Next(s, Connect) == s.(main := Serving(s.sessions), ws := Some(s.sessions), open := s.open + {s.sessions},
                                sessions := s.sessions + 1)
      && Next(s, ConnectFails(true)) == s.(main := Ended)
      && Next(s, ConnectFails(false)) == s.(main := if s.stopping then Ended else Sleeping)
    ensures s.main.Sleeping? ==> Next(s, MainResumes) == s.(main := if s.stopping then Ended else Connecting)
    ensures s.main.Closing? && s.main.waiting * s.tasks.Keys == {} ==>
      Next(s, MainResumes) == s.(main := if s.main.dying || s.stopping then Ended else Sleeping)
  {
  }

  /** A socket that closes is closed, and only it. */
  lemma SocketClosesAlone(s: State, n: Session, m: Session)
    ensures var t := Next(s, SocketCloses(n)); t == s.(open := t.open) && (m in t.open <==> m in s.open && m != n)
  {
  }
}
