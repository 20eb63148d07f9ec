/** athena_web_server.cpp: what sessions come to. The start worker's outcome in every run, and runs in
    which creation, start and stop succeed. */
module WebProgress {
  import opened WebSessions

  // ----- the outcome of a start -----

  predicate Failing(p: StartPc) { p.FailPhase? || p.FailRmStreamer? || p.FailRmSandbox? || p == StartDone(true) }

  predicate OnItsWay(x: Session) {
    && (x.phase == Running ==> x.start == StartDone(false))
    && (!x.cleanup ==> OnItsOwn(x))
  }

  /** Where a start worker has come to when nobody stops the session: starting until it is set running
      at the very end, with each container launched on the way; failed once it gives up. */
  predicate OnItsOwn(x: Session) {
    if Failing(x.start) then x.phase == if x.start.FailPhase? then Starting else Failed
    else
      && x.phase == (if x.start.StartDone? then Running else Starting)
      && (!BeforeSandbox(x.start) && !x.start.RunSandbox? ==> x.sandbox)
      && (!BeforeStreamer(x.start) && !x.start.RunStreamer? ==> x.streamer)
  }

  lemma SandboxOnItsWay(x: Session, a: Answer)
    requires OnItsWay(x) && (BeforeSandbox(x.start) || x.start.RunSandbox?)
    ensures OnItsWay(SandboxStep(x, a))
  {
  }

  lemma StreamerOnItsWay(x: Session, a: Answer)
    requires OnItsWay(x)
    requires x.start.BetweenRuns? || x.start.EnterStreamer? || x.start.CheckStreamer? || x.start.RunStreamer?
    ensures OnItsWay(StreamerStep(x, a))
  {
  }

  lemma SettleOnItsWay(x: Session, a: Answer)
    requires OnItsWay(x) && !x.start.StartDone? && !BeforeStreamer(x.start) && !x.start.RunStreamer?
    ensures OnItsWay(SettleStep(x, a))
  {
  }

  lemma StartOnItsWay(x: Session, a: Answer)
    requires OnItsWay(x) && StartEnabled(x)
    ensures OnItsWay(StartStep(x, a))
  {
    hide OnItsWay, SandboxStep, StreamerStep, SettleStep;
    if BeforeSandbox(x.start) || x.start.RunSandbox? {
      SandboxOnItsWay(x, a);
    } else if x.start.BetweenRuns? || x.start.EnterStreamer? || x.start.CheckStreamer? || x.start.RunStreamer? {
      StreamerOnItsWay(x, a);
    } else {
      SettleOnItsWay(x, a);
    }
  }

  lemma StopOnItsWay(x: Session)
    requires LocksOk(x) && StopEnabled(x) && OnItsWay(x)
    ensures OnItsWay(StopStep(x))
  {
  }

  lemma AskOnItsWay(x: Session, preserve: bool)
    requires OnItsWay(x)
    ensures OnItsWay(StopRequest(x, preserve))
  {
  }

  lemma NewOnItsWay(token: string, vnc: int, sig: int)
    ensures OnItsWay(NewSession(token, vnc, sig))
  {
  }

  predicate AllOnTheirWay(s: System) { forall i :: i in s.sessions ==> OnItsWay(s.sessions[i]) }

  lemma StepOnTheirWay(s: System, e: Event)
    requires Inv(s) && AllOnTheirWay(s) && Enabled(s, e)
    ensures AllOnTheirWay(Step(s, e))
  {
    forall i | i in Step(s, e).sessions ensures OnItsWay(Step(s, e).sessions[i]) {
      if i !in s.sessions {
        NewOnItsWay(e.token, e.vnc, e.sig);
      } else {
        var x := s.sessions[i];
        assert SessionOk(x) && OnItsWay(x);
        StepTouches(s, e, i);
        hide Inv, OnItsWay, StartStep, StopStep, StopRequest, StartEnabled, StopEnabled, ContainersOk, PhaseOk;
        hide Step, Enabled;
        if e.Start? && e.id == i {
          StartOnItsWay(x, e.answer);
        } else if e.StopGo? && e.id == i {
          StopOnItsWay(x);
        } else if e.StopAsk? && e.id == i {
          AskOnItsWay(x, e.preserve);
        }
      }
    }
  }

  lemma {:induction false} RunOnTheirWay(s: System, run: seq<Event>)
    requires Inv(s) && AllOnTheirWay(s) && Possible(s, run)
    ensures AllOnTheirWay(After(s, run))
    decreases |run|
  {
    hide Inv, AllOnTheirWay, Enabled, Step;
    if run != [] {
      StepKeeps(s, run[0]);
      StepOnTheirWay(s, run[0]);
      RunOnTheirWay(Step(s, run[0]), run[1..]);
    }
  }

  /** In every interleaving: a start worker that ends on a session nobody stops leaves it running with
      both containers, or failed with none. */
  lemma StartEnds(max: nat, run: seq<Event>, id: nat)
    requires Possible(Initial(max), run)
    ensures var s := After(Initial(max), run);
      id in s.sessions && !s.sessions[id].cleanup && s.sessions[id].start.StartDone? ==>
        var x := s.sessions[id];
        if x.start.failed then x.phase == Failed && !x.sandbox && !x.streamer
        else x.phase == Running && x.sandbox && x.streamer
  {
    InitialOk(max);
    RunKeeps(Initial(max), run);
    RunOnTheirWay(Initial(max), run);
    var s := After(Initial(max), run);
    if id in s.sessions {
      assert SessionOk(s.sessions[id]) && OnItsWay(s.sessions[id]);
    }
    hide Possible, After, Inv, LocksOk, PhaseOk;
  }

  // ----- a start that fails -----

  // The answer makes the worker give up: no ICE servers, no directories, no container, or no readiness.
  predicate GivesUp(x: Session, a: Answer) {
    !a.ok && (x.start.Prepare? || x.start.MakeDirs? || x.start.RunSandbox? || x.start.RunStreamer?
              || (x.start.AwaitReady? && !x.cleanup))
  }

  lemma GivingUp(x: Session, a: Answer)
    requires GivesUp(x, a)
    ensures Failing(StartStep(x, a).start)
  {
  }

  lemma StillFailing(s: System, e: Event, id: nat)
    requires Enabled(s, e) && id in s.sessions && Failing(s.sessions[id].start)
    ensures id in Step(s, e).sessions && Failing(Step(s, e).sessions[id].start)
  {
    var x := s.sessions[id];
    StepTouches(s, e, id);
    hide Step, Enabled, StopEnabled;
    if e.Start? && e.id == id {
      FailingGoes(x, e.answer);
      hide StartStep;
    }
  }

  lemma FailingGoes(x: Session, a: Answer)
    requires Failing(x.start) && StartEnabled(x)
    ensures Failing(StartStep(x, a).start)
  {
  }

  lemma {:induction false} FailingStays(s: System, run: seq<Event>, id: nat)
    requires Possible(s, run) && id in s.sessions && Failing(s.sessions[id].start)
    ensures id in After(s, run).sessions && Failing(After(s, run).sessions[id].start)
    decreases |run|
  {
    hide Enabled, Step, Failing;
    if run != [] {
      StillFailing(s, run[0], id);
      FailingStays(Step(s, run[0]), run[1..], id);
    }
  }

  /** Once an operation of its start has failed, a session never runs, whatever happens after. */
  lemma FailureIsFinal(s: System, id: nat, a: Answer, run: seq<Event>)
    requires Inv(s) && AllOnTheirWay(s)
    requires Enabled(s, Start(id, a)) && GivesUp(s.sessions[id], a) && Possible(Step(s, Start(id, a)), run)
    ensures var s' := After(Step(s, Start(id, a)), run);
      id in s'.sessions && s'.sessions[id].phase != Running && s'.sessions[id].start != StartDone(false)
  {
    var s1 := Step(s, Start(id, a));
    StepTouches(s, Start(id, a), id);
    GivingUp(s.sessions[id], a);
    StepKeeps(s, Start(id, a));
    StepOnTheirWay(s, Start(id, a));
    hide Inv, Step, Enabled, StartStep, GivesUp;
    FailingStays(s1, run, id);
    RunOnTheirWay(s1, run);
    assert OnItsWay(After(s1, run).sessions[id]);
    hide Possible, After;
  }

  // ----- runs that succeed -----

  // The session after k steps of a start worker for which everything goes well.
  function AfterStarts(x: Session, k: nat): Session
    requires k <= 12
  {
    var pcs := [Prepare, MakeDirs, EnterSandbox, CheckSandbox, RunSandbox, BetweenRuns, EnterStreamer, CheckStreamer,
                RunStreamer, AwaitReady, CheckRunning, SetRunning, StartDone(false)];
    x.(start := pcs[k], sandbox := k >= 5, streamer := k >= 9,
       lock := if k == 3 || k == 4 || k == 7 || k == 8 then ByStart else Free,
       phase := if k == 12 then Running else Starting)
  }

  lemma StartGoes(x: Session, k: nat)
    requires k < 12 && !x.cleanup && x.stop.NoStop?
    ensures StartEnabled(AfterStarts(x, k))
    ensures StartStep(AfterStarts(x, k), Answer(true, false)) == AfterStarts(x, k + 1)
  {
  }

  /** A start worker for which everything goes well, and that nobody stops, sets its session running. */
  lemma StartRuns(s0: System, s: System, id: nat) returns (s': System)
    requires Reaches(s0, s) && id in s.sessions
    requires exists token, vnc, sig :: s.sessions[id] == NewSession(token, vnc, sig)
    ensures Reaches(s0, s') && id in s'.sessions && s' == s.(sessions := s.sessions[id := s'.sessions[id]])
    ensures var x := s'.sessions[id];
      x == s.sessions[id].(phase := Running, sandbox := true, streamer := true, start := StartDone(false))
  {
    hide Reaches;
    var x := s.sessions[id];
    assert AfterStarts(x, 0) == x;
    hide StartStep, StartEnabled;
    s' := s;
    for k := 0 to 12
      invariant Reaches(s0, s') && id in s'.sessions && s' == s.(sessions := s.sessions[id := s'.sessions[id]])
      invariant s'.sessions[id] == AfterStarts(x, k)
    {
      StartGoes(x, k);
      hide AfterStarts;
      var e := Start(id, Answer(true, false));
      ReachesStep(s0, s', e);
      s' := Step(s', e);
    }
  }

  /** Whenever fewer sessions are active than allowed and no creation is under way, one can be created
      and come to run. */
  lemma CreationRuns(s: System) returns (s': System, id: nat)
    requires Inv(s) && s.creation.Idle? && |ActiveAmong(s, Listed(s))| < s.max
    ensures Reaches(s, s') && id !in s.sessions && id in s'.sessions && id in Listed(s')
    ensures var x := s'.sessions[id]; x.phase == Running && x.sandbox && x.streamer
  {
    hide Inv, Reaches, ActiveAmong, Listed, NewSession;
    ReachesItself(s);
    var s1;
    s1, id := CreateOne(s, s);
    s' := StartRuns(s, s1, id);
    SameListed(s1, s');
  }

  /** So can every creation whose insertion is enabled. */
  lemma InsertionRuns(s: System, e: Event) returns (s': System)
    requires Enabled(s, e) && e.CreateInsert?
    ensures Reaches(s, s') && e.id in s'.sessions
    ensures s'.sessions[e.id] ==
      NewSession(e.token, e.vnc, e.sig).(phase := Running, sandbox := true, streamer := true, start := StartDone(false))
  {
    hide Reaches, NewSession;
    ReachesItself(s);
    ReachesStep(s, s, e);
    var s1 := Step(s, e);
    assert s1.sessions[e.id] == NewSession(e.token, e.vnc, e.sig);
    hide Enabled, Step;
    s' := StartRuns(s, s1, e.id);
  }
}
