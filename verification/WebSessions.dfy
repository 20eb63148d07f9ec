/** athena_web_server.cpp: the life of web sessions. Creators, one start worker per session, stop
    workers and the housekeeper run concurrently; the model interleaves their atomic steps in
    every possible way. A worker's position is the next step it takes. */
module WebSessions {
  import opened Common

  datatype Phase = Starting | Running | Expired | Failed | Closing

  // Holder of a session's lifecycle_mutex.
  datatype Lock = Free | ByStart | ByStop

  datatype StartPc =
    | Prepare          // obtain ICE servers
    | MakeDirs         // create the state directories, then look at cleanup_started
    | EnterSandbox     // take lifecycle_mutex
    | CheckSandbox     // look at cleanup_started under the lock
    | RunSandbox       // podman run, release the lock
    | BetweenRuns      // look at cleanup_started
    | EnterStreamer
    | CheckStreamer
    | RunStreamer
    | AwaitReady       // poll until the session is ready, fails, or is being stopped
    | CheckRunning     // under the session mutex: may the phase become running?
    | SetRunning       // still under the session mutex
    | FailPhase        // phase := failed
    | FailRmStreamer
    | FailRmSandbox
    | StartDone(failed: bool)

  // The stop worker that won the exchange on cleanup_started.
  datatype StopPc =
    | NoStop
    | AwaitLock        // take lifecycle_mutex, held to the end
    | ReadPhase
    | Archive
    | SetClosing
    | RmStreamer
    | RmSandbox
    | Finish           // expired, or erased from the table
    | StopDone

  datatype Session = Session(
    token: string, vnc: int, sig: int, phase: Phase,
    cleanup: bool, lock: Lock, sandbox: bool, streamer: bool,
    start: StartPc, stop: StopPc, preserve: bool, stops: nat)

  predicate Active(x: Session) { x.phase == Starting || x.phase == Running }

  // The phases in which the housekeeper may drop a session.
  predicate Retired(x: Session) { x.phase == Expired || x.phase == Failed }

  // ----- one session's workers -----

  /** What the world answers to a start step: `ok` is success of the operation, `left` whether a
      failed podman run left a container behind. */
  datatype Answer = Answer(ok: bool, left: bool)

  // The session mutex is held by the start worker between its check and its assignment.
  predicate MutexFree(x: Session) { x.start != SetRunning }

  // The first container, up to the release of the lock.
  function SandboxStep(x: Session, a: Answer): Session {
    match x.start
    case Prepare => if a.ok then x.(start := MakeDirs) else x.(phase := Failed, start := StartDone(true))
    case MakeDirs =>
      if !a.ok then x.(start := FailPhase)
      else if x.cleanup then x.(start := StartDone(false)) else x.(start := EnterSandbox)
    case EnterSandbox => x.(lock := ByStart, start := CheckSandbox)
    case CheckSandbox => if x.cleanup then x.(lock := Free, start := StartDone(false)) else x.(start := RunSandbox)
    case RunSandbox =>
      x.(sandbox := a.ok || a.left, lock := Free, start := if a.ok then BetweenRuns else FailPhase)
    case _ => x
  }

  // The second one.
  function StreamerStep(x: Session, a: Answer): Session {
    match x.start
    case BetweenRuns => x.(start := if x.cleanup then StartDone(false) else EnterStreamer)
    case EnterStreamer => x.(lock := ByStart, start := CheckStreamer)
    case CheckStreamer => if x.cleanup then x.(lock := Free, start := StartDone(false)) else x.(start := RunStreamer)
    case RunStreamer =>
      x.(streamer := a.ok || a.left, lock := Free, start := if a.ok then AwaitReady else FailPhase)
    case _ => x
  }

  // Readiness, and the failure path.
  function SettleStep(x: Session, a: Answer): Session {
    match x.start
    case AwaitReady => x.(start := if x.cleanup then StartDone(false) else if a.ok then CheckRunning else FailPhase)
    case CheckRunning => x.(start := if x.phase == Starting && !x.cleanup then SetRunning else StartDone(false))
    case SetRunning => x.(phase := Running, start := StartDone(false))
    case FailPhase => x.(phase := Failed, start := FailRmStreamer)
    case FailRmStreamer => x.(streamer := false, start := FailRmSandbox)
    case FailRmSandbox => x.(sandbox := false, start := StartDone(true))
    case _ => x
  }

  /** One step of start_session. */
  function StartStep(x: Session, a: Answer): Session {
    if BeforeSandbox(x.start) || x.start.RunSandbox? then SandboxStep(x, a)
    else if x.start.BetweenRuns? || x.start.EnterStreamer? || x.start.CheckStreamer? || x.start.RunStreamer?
    then StreamerStep(x, a)
    else SettleStep(x, a)
  }

  predicate StartEnabled(x: Session) {
    && !x.start.StartDone?
    && (x.start.EnterSandbox? || x.start.EnterStreamer? ==> x.lock == Free)
  }

  /** A stop worker's exchange on cleanup_started: the first one goes on, any other returns. */
  function StopRequest(x: Session, preserve: bool): Session {
    if x.cleanup then x else x.(cleanup := true, preserve := preserve, stop := AwaitLock, stops := x.stops + 1)
  }

  /** One step of the stop worker, apart from erasing the session from the table. */
  function StopStep(x: Session): Session
    requires StopEnabled(x)
  {
    match x.stop
    case AwaitLock => x.(lock := ByStop, stop := ReadPhase)
    case ReadPhase => x.(preserve := x.preserve && x.phase != Expired && x.phase != Failed, stop := Archive)
    case Archive => x.(stop := SetClosing)
    case SetClosing => x.(phase := Closing, stop := RmStreamer)
    case RmStreamer => x.(streamer := false, stop := RmSandbox)
    case RmSandbox => x.(sandbox := false, stop := Finish)
    case Finish => x.(phase := if x.preserve then Expired else x.phase, lock := Free, stop := StopDone)
    case _ => x
  }

  predicate StopEnabled(x: Session) {
    && x.stop != NoStop && x.stop != StopDone
    && (x.stop == AwaitLock ==> x.lock == Free)
    && ((x.stop.ReadPhase? || x.stop.SetClosing? || x.stop.Finish?) ==> MutexFree(x))
  }

  // ----- what every step of a session's workers keeps -----

  predicate BeforeSandbox(p: StartPc) { (p.Prepare? || p.MakeDirs? || p.EnterSandbox? || p.CheckSandbox?) }

  predicate BeforeStreamer(p: StartPc) {
    BeforeSandbox(p) || p.RunSandbox? || p.BetweenRuns? || p.EnterStreamer? || p.CheckStreamer?
  }

  predicate HoldsLock(p: StartPc) { (p.CheckSandbox? || p.RunSandbox? || p.CheckStreamer? || p.RunStreamer?) }

  predicate StopHoldsLock(p: StopPc) {
    p.ReadPhase? || p.Archive? || p.SetClosing? || p.RmStreamer? || p.RmSandbox? || p.Finish?
  }

  // The stop worker has made the session leave starting and running.
  predicate Torn(p: StopPc) { (p.RmStreamer? || p.RmSandbox? || p.Finish? || p.StopDone?) }

  predicate LocksOk(x: Session) {
    && (x.cleanup <==> x.stop != NoStop)
    && x.stops == (if x.cleanup then 1 else 0)
    && (x.lock == ByStart <==> HoldsLock(x.start))
    && (x.lock == ByStop <==> StopHoldsLock(x.stop))
    && (x.start == RunSandbox || x.start == RunStreamer ==> x.stop == NoStop || x.stop == AwaitLock)
  }

  predicate ContainersOk(x: Session) {
    && (BeforeSandbox(x.start) ==> !x.sandbox)
    && (BeforeStreamer(x.start) ==> !x.streamer)
    && (x.start == FailRmSandbox ==> !x.streamer)
    && (x.start == StartDone(true) ==> !x.sandbox && !x.streamer)
    && ((x.stop.RmSandbox? || x.stop.Finish? || x.stop.StopDone?) ==> !x.streamer)
    && ((x.stop.Finish? || x.stop.StopDone?) ==> !x.sandbox)
  }

  predicate PhaseOk(x: Session) {
    && (x.start == SetRunning ==> x.phase == Starting)
    && (Torn(x.stop) ==> !Active(x))
    && ((x.start.FailRmStreamer? || x.start.FailRmSandbox?) || x.start == StartDone(true) ==> !Active(x))
    && (x.stop.StopDone? && x.preserve ==> Retired(x))
  }

  predicate SessionOk(x: Session) { LocksOk(x) && ContainersOk(x) && PhaseOk(x) }

  lemma SandboxKeeps(x: Session, a: Answer)
    requires SessionOk(x) && StartEnabled(x) && (BeforeSandbox(x.start) || x.start.RunSandbox?)
    ensures SessionOk(SandboxStep(x, a)) && (!Active(x) ==> !Active(SandboxStep(x, a)))
  {
    match x.start { case Prepare => case MakeDirs => case EnterSandbox => case CheckSandbox => case RunSandbox => }
  }

  lemma StreamerKeeps(x: Session, a: Answer)
    requires SessionOk(x) && StartEnabled(x)
    requires x.start.BetweenRuns? || x.start.EnterStreamer? || x.start.CheckStreamer? || x.start.RunStreamer?
    ensures SessionOk(StreamerStep(x, a)) && (!Active(x) ==> !Active(StreamerStep(x, a)))
  {
    match x.start { case BetweenRuns => case EnterStreamer => case CheckStreamer => case RunStreamer => }
  }

  lemma SettleKeeps(x: Session, a: Answer)
    requires SessionOk(x) && StartEnabled(x) && !BeforeStreamer(x.start) && !x.start.RunStreamer?
    ensures SessionOk(SettleStep(x, a)) && (!Active(x) ==> !Active(SettleStep(x, a)))
  {
    match x.start {
      case AwaitReady => case CheckRunning => case SetRunning =>
      case FailPhase => case FailRmStreamer => case FailRmSandbox =>
    }
  }

  /** A start step keeps the invariant and never makes a session active that is not. */
  lemma StartKeeps(x: Session, a: Answer)
    requires SessionOk(x) && StartEnabled(x)
    ensures SessionOk(StartStep(x, a)) && (!Active(x) ==> !Active(StartStep(x, a)))
  {
    hide SessionOk, Active, SandboxStep, StreamerStep, SettleStep;
    if BeforeSandbox(x.start) || x.start.RunSandbox? {
      SandboxKeeps(x, a);
    } else if x.start.BetweenRuns? || x.start.EnterStreamer? || x.start.CheckStreamer? || x.start.RunStreamer? {
      StreamerKeeps(x, a);
    } else {
      SettleKeeps(x, a);
    }
  }

  lemma StopRequestKeeps(x: Session, preserve: bool)
    requires SessionOk(x)
    ensures SessionOk(StopRequest(x, preserve)) && Active(StopRequest(x, preserve)) == Active(x)
  {
  }

  lemma StopKeeps(x: Session)
    requires SessionOk(x) && StopEnabled(x)
    ensures SessionOk(StopStep(x)) && (!Active(x) ==> !Active(StopStep(x)))
  {
  }

  // ----- the session manager -----

  /** SessionManager::create holds the table's mutex from its scan to its insertion; the scan
      reads one session at a time. */
  datatype Creation = Idle | Scanning(scanned: set<nat>, active: nat, ports: set<int>)

  /** `sessions` holds every session object ever made, `table` the ones that can be looked up,
      `pending` the token the housekeeper has decided to erase. */
  datatype System = System(
    sessions: map<nat, Session>, table: map<string, nat>, creation: Creation, pending: set<string>, max: nat)

  function Listed(s: System): set<nat> { s.table.Values }

  function Initial(max: nat): System { System(map[], map[], Idle, {}, max) }

  function NewSession(token: string, vnc: int, sig: int): Session {
    Session(token, vnc, sig, Starting, false, Free, false, false, Prepare, NoStop, false, 0)
  }

  datatype Event =
    | CreateBegin
    | CreateScan(id: nat)
    | CreateRefuse
    | CreateInsert(id: nat, token: string, vnc: int, sig: int)
    | Start(id: nat, answer: Answer)
    | StopAsk(id: nat, preserve: bool)      // close, heartbeat timeout, expiry
    | StopGo(id: nat)
    | Decide(id: nat)                       // the housekeeper finds a retention over
    | Erase(token: string)

  predicate Scanned(s: System) { s.creation.Scanning? && s.creation.scanned == Listed(s) }

  predicate Enabled(s: System, e: Event) {
    match e
    case CreateBegin => s.creation.Idle?
    case CreateScan(id) =>
      && s.creation.Scanning? && id in Listed(s) && id !in s.creation.scanned
      && id in s.sessions && MutexFree(s.sessions[id])
    case CreateRefuse => Scanned(s) && s.creation.active >= s.max
    case CreateInsert(id, token, vnc, sig) =>
      && Scanned(s) && s.creation.active < s.max
      && id !in s.sessions && token !in s.table
      && vnc !in s.creation.ports && sig !in s.creation.ports && sig != vnc
    case Start(id, _) => id in s.sessions && StartEnabled(s.sessions[id])
    case StopAsk(id, _) => id in s.sessions
    case StopGo(id) =>
      && id in s.sessions && StopEnabled(s.sessions[id])
      && (s.sessions[id].stop == Finish && !s.sessions[id].preserve ==> s.creation.Idle?)
    case Decide(id) =>
      s.pending == {} && id in s.sessions && MutexFree(s.sessions[id]) && Retired(s.sessions[id])
    case Erase(token) => token in s.pending && s.creation.Idle?
  }

  function SetSession(s: System, id: nat, x: Session): System { s.(sessions := s.sessions[id := x]) }

  // The table after a stop worker that does not preserve: its own entry is gone.
  function Unlist(s: System, id: nat): System
    requires id in s.sessions
  {
    var t := s.sessions[id].token;
    if t in s.table && s.table[t] == id then s.(table := s.table - {t}) else s
  }

  function ScanOne(c: Creation, id: nat, x: Session): Creation
    requires c.Scanning?
  {
    Scanning(c.scanned + {id}, c.active + (if Active(x) then 1 else 0), c.ports + {x.vnc, x.sig})
  }

  function Step(s: System, e: Event): System
    requires Enabled(s, e)
  {
    match e
    case CreateBegin => s.(creation := Scanning({}, 0, {}))
    case CreateScan(id) => s.(creation := ScanOne(s.creation, id, s.sessions[id]))
    case CreateRefuse => s.(creation := Idle)
    case CreateInsert(id, token, vnc, sig) =>
      s.(sessions := s.sessions[id := NewSession(token, vnc, sig)], table := s.table[token := id], creation := Idle)
    case Start(id, a) => SetSession(s, id, StartStep(s.sessions[id], a))
    case StopAsk(id, preserve) => SetSession(s, id, StopRequest(s.sessions[id], preserve))
    case StopGo(id) =>
      var x := s.sessions[id];
      var s1 := if x.stop == Finish && !x.preserve then Unlist(s, id) else s;
      SetSession(s1, id, StopStep(x))
    case Decide(id) => s.(pending := s.pending + {s.sessions[id].token})
    case Erase(token) => s.(table := s.table - {token}, pending := s.pending - {token})
  }

  // ----- what every run keeps -----

  function ActiveAmong(s: System, ids: set<nat>): set<nat> {
    set id | id in ids && id in s.sessions && Active(s.sessions[id])
  }

  predicate TableOk(s: System) {
    forall t :: t in s.table ==> s.table[t] in s.sessions && s.sessions[s.table[t]].token == t
  }

  predicate SharePort(x: Session, y: Session) {
    x.vnc == y.vnc || x.vnc == y.sig || x.sig == y.vnc || x.sig == y.sig
  }

  predicate PortsOk(s: System) {
    && (forall i :: i in Listed(s) && i in s.sessions ==> s.sessions[i].vnc != s.sessions[i].sig)
    && forall i, j :: i in Listed(s) && j in Listed(s) && i in s.sessions && j in s.sessions && i != j ==>
         !SharePort(s.sessions[i], s.sessions[j])
  }

  predicate CreationOk(s: System) {
    s.creation.Scanning? ==>
      && s.creation.scanned <= Listed(s)
      && |ActiveAmong(s, s.creation.scanned)| <= s.creation.active
      && forall i :: i in s.creation.scanned && i in s.sessions ==>
           s.sessions[i].vnc in s.creation.ports && s.sessions[i].sig in s.creation.ports
  }

  predicate SessionsOk(s: System) { forall i :: i in s.sessions ==> SessionOk(s.sessions[i]) }

  /** The invariant: no more active sessions than allowed, tokens and ports distinct in the table,
      and each session's workers in a consistent state. */
  predicate Inv(s: System) {
    && SessionsOk(s) && TableOk(s) && PortsOk(s) && CreationOk(s)
    && |ActiveAmong(s, Listed(s))| <= s.max
  }

  // A session's identity does not change, and it does not become active again.
  predicate Evolves(x: Session, y: Session) {
    y.token == x.token && y.vnc == x.vnc && y.sig == x.sig && (!Active(x) ==> !Active(y))
  }

  predicate SameIdentity(x: Session, y: Session) { y.token == x.token && y.vnc == x.vnc && y.sig == x.sig }

  lemma SandboxIdentity(x: Session, a: Answer)
    ensures SameIdentity(x, SandboxStep(x, a))
  {
  }

  lemma StreamerIdentity(x: Session, a: Answer)
    ensures SameIdentity(x, StreamerStep(x, a))
  {
  }

  lemma SettleIdentity(x: Session, a: Answer)
    ensures SameIdentity(x, SettleStep(x, a))
  {
  }

  lemma StartEvolves(x: Session, a: Answer)
    requires SessionOk(x) && StartEnabled(x)
    ensures Evolves(x, StartStep(x, a))
  {
    StartKeeps(x, a);
    hide SessionOk, Active, StartEnabled, SandboxStep, StreamerStep, SettleStep, BeforeSandbox;
    SandboxIdentity(x, a);
    StreamerIdentity(x, a);
    SettleIdentity(x, a);
  }

  lemma StopEvolves(x: Session)
    requires SessionOk(x) && StopEnabled(x)
    ensures Evolves(x, StopStep(x))
  {
  }

  lemma EvolvedCount(s: System, id: nat, y: Session, ids: set<nat>)
    requires id in s.sessions && Evolves(s.sessions[id], y)
    ensures |ActiveAmong(SetSession(s, id, y), ids)| <= |ActiveAmong(s, ids)|
  {
    hide Active;
    SubsetSize(ActiveAmong(SetSession(s, id, y), ids), ActiveAmong(s, ids));
  }

  lemma SetPorts(s: System, id: nat, y: Session)
    requires PortsOk(s) && id in s.sessions && Evolves(s.sessions[id], y)
    ensures PortsOk(SetSession(s, id, y))
  {
    hide Active;
    assert Listed(SetSession(s, id, y)) == Listed(s);
  }

  lemma SetTable(s: System, id: nat, y: Session)
    requires SessionsOk(s) && TableOk(s) && id in s.sessions && SessionOk(y) && Evolves(s.sessions[id], y)
    ensures SessionsOk(SetSession(s, id, y)) && TableOk(SetSession(s, id, y))
  {
    hide SessionOk, Active;
  }

  lemma SetCreation(s: System, id: nat, y: Session)
    requires CreationOk(s) && id in s.sessions && Evolves(s.sessions[id], y)
    ensures CreationOk(SetSession(s, id, y))
  {
    if s.creation.Scanning? {
      EvolvedCount(s, id, y, s.creation.scanned);
    }
    hide Active, ActiveAmong;
    assert Listed(SetSession(s, id, y)) == Listed(s);
  }

  // Replacing a session by what it evolved to.
  lemma SetKeeps(s: System, id: nat, y: Session)
    requires Inv(s) && id in s.sessions && SessionOk(y) && Evolves(s.sessions[id], y)
    ensures Inv(SetSession(s, id, y))
  {
    SetPorts(s, id, y);
    SetTable(s, id, y);
    SetCreation(s, id, y);
    EvolvedCount(s, id, y, Listed(s));
    hide SessionsOk, TableOk, PortsOk, CreationOk, ActiveAmong, Evolves, SessionOk;
  }

  // Taking an entry out of the table while no creation is under way.
  lemma RemoveKeeps(s: System, t: string, pending: set<string>)
    requires Inv(s) && s.creation.Idle?
    ensures Inv(s.(table := s.table - {t}, pending := pending))
  {
    hide SessionOk, Active;
    var s' := s.(table := s.table - {t}, pending := pending);
    assert Listed(s') <= Listed(s) by {
      forall i | i in Listed(s') ensures i in Listed(s) {
        var u :| u in s'.table && s'.table[u] == i;
        assert s.table[u] == i;
      }
    }
    SubsetSize(ActiveAmong(s', Listed(s')), ActiveAmong(s, Listed(s)));
  }

  // The count of active sessions never falls below those scanned and still active.
  lemma ScanCounts(s: System, id: nat)
    requires id in s.sessions && s.creation.Scanning?
    ensures |ActiveAmong(s, s.creation.scanned + {id})|
         <= |ActiveAmong(s, s.creation.scanned)| + (if Active(s.sessions[id]) then 1 else 0)
  {
    hide Active;
    var before, after := ActiveAmong(s, s.creation.scanned), ActiveAmong(s, s.creation.scanned + {id});
    if Active(s.sessions[id]) {
      assert after == before + {id};
    } else {
      assert after == before;
    }
  }

  lemma ScanKeepsCreation(s: System, id: nat)
    requires CreationOk(s) && Enabled(s, CreateScan(id))
    ensures CreationOk(Step(s, CreateScan(id)))
  {
    ScanCounts(s, id);
    hide Active, Listed, MutexFree;
    var s' := Step(s, CreateScan(id));
    assert ActiveAmong(s', s'.creation.scanned) == ActiveAmong(s, s.creation.scanned + {id});
    assert Listed(s') == Listed(s) by { SameListed(s, s'); }
  }

  lemma SameListed(s: System, s': System)
    requires s'.table == s.table
    ensures Listed(s') == Listed(s)
  {
  }

  lemma ScanKeeps(s: System, id: nat)
    requires Inv(s) && Enabled(s, CreateScan(id))
    ensures Inv(Step(s, CreateScan(id)))
  {
    ScanKeepsCreation(s, id);
    hide SessionOk, Active, CreationOk, SharePort;
    var s' := Step(s, CreateScan(id));
    assert s'.sessions == s.sessions && s'.table == s.table;
    SameTable(s, s');
  }

  // What depends on the sessions and the table alone.
  lemma SameTable(s: System, s': System)
    requires Inv(s) && s'.sessions == s.sessions && s'.table == s.table && s'.max == s.max && CreationOk(s')
    ensures Inv(s')
  {
    hide SessionOk, Active, CreationOk, SharePort;
    assert ActiveAmong(s', Listed(s')) == ActiveAmong(s, Listed(s));
  }

  lemma ListedAfterInsert(s: System, token: string, id: nat)
    requires token !in s.table
    ensures (s.table[token := id]).Values == s.table.Values + {id}
  {
    var m := s.table[token := id];
    forall i | i in s.table.Values ensures i in m.Values {
      var t :| t in s.table && s.table[t] == i;
      assert m[t] == i;
    }
    assert m[token] == id;
  }

  // The scan saw every listed session, so the count it compared with the limit was no smaller
  // than the number still active.
  lemma InsertKeepsLimit(s: System, id: nat, token: string, vnc: int, sig: int)
    requires CreationOk(s) && Enabled(s, CreateInsert(id, token, vnc, sig))
    ensures var s' := Step(s, CreateInsert(id, token, vnc, sig));
      |ActiveAmong(s', Listed(s'))| <= s'.max
  {
    hide Active;
    var s' := Step(s, CreateInsert(id, token, vnc, sig));
    ListedAfterInsert(s, token, id);
    var before, after := ActiveAmong(s, Listed(s)), ActiveAmong(s', Listed(s'));
    assert after <= before + {id};
    SubsetSize(after, before + {id});
  }

  lemma InsertKeepsTable(s: System, id: nat, token: string, vnc: int, sig: int)
    requires SessionsOk(s) && TableOk(s) && Enabled(s, CreateInsert(id, token, vnc, sig))
    ensures var s' := Step(s, CreateInsert(id, token, vnc, sig)); SessionsOk(s') && TableOk(s')
  {
    var x := NewSession(token, vnc, sig);
    assert SessionOk(x);
    hide SessionOk;
  }

  lemma InsertKeeps(s: System, id: nat, token: string, vnc: int, sig: int)
    requires Inv(s) && Enabled(s, CreateInsert(id, token, vnc, sig))
    ensures Inv(Step(s, CreateInsert(id, token, vnc, sig)))
  {
    InsertKeepsPorts(s, id, token, vnc, sig);
    InsertKeepsTable(s, id, token, vnc, sig);
    InsertKeepsLimit(s, id, token, vnc, sig);
    hide SessionsOk, TableOk, PortsOk, ActiveAmong, Listed;
  }

  lemma InsertKeepsPorts(s: System, id: nat, token: string, vnc: int, sig: int)
    requires Inv(s) && Enabled(s, CreateInsert(id, token, vnc, sig))
    ensures PortsOk(Step(s, CreateInsert(id, token, vnc, sig)))
  {
    hide SessionOk, Active, TableOk, SessionsOk;
    var s' := Step(s, CreateInsert(id, token, vnc, sig));
    ListedAfterInsert(s, token, id);
    forall i | i in Listed(s) && i in s.sessions
      ensures !SharePort(s.sessions[i], s'.sessions[id]) && !SharePort(s'.sessions[id], s.sessions[i])
    {
      assert i in s.creation.scanned;
    }
  }

  lemma StopGoKeeps(s: System, id: nat)
    requires Inv(s) && Enabled(s, StopGo(id))
    ensures Inv(Step(s, StopGo(id)))
  {
    var x := s.sessions[id];
    StopKeeps(x);
    StopEvolves(x);
    hide SessionOk, Active, StopStep, Evolves, PortsOk, TableOk, CreationOk, SessionsOk;
    if x.stop == Finish && !x.preserve {
      RemoveKeeps(s, x.token, s.pending);
      var s1 := Unlist(s, id);
      assert s1 == s || s1 == s.(table := s.table - {x.token}, pending := s.pending);
      SetKeeps(s1, id, StopStep(x));
    } else {
      SetKeeps(s, id, StopStep(x));
    }
  }

  /** Every step of every thread keeps the invariant. */
  lemma StepKeeps(s: System, e: Event)
    requires Inv(s) && Enabled(s, e)
    ensures Inv(Step(s, e))
  {
    match e {
      case CreateScan(id) => ScanKeeps(s, id);
      case CreateInsert(id, token, vnc, sig) => InsertKeeps(s, id, token, vnc, sig);
      case StopGo(id) => StopGoKeeps(s, id);
      case Erase(token) => RemoveKeeps(s, token, s.pending - {token});
      case CreateBegin => SimpleStepKeeps(s, e);
      case CreateRefuse => SimpleStepKeeps(s, e);
      case Start(_, _) => SimpleStepKeeps(s, e);
      case StopAsk(_, _) => SimpleStepKeeps(s, e);
      case Decide(_) => SimpleStepKeeps(s, e);
    }
  }

  lemma SimpleStepKeeps(s: System, e: Event)
    requires Inv(s) && Enabled(s, e)
    requires e.CreateBegin? || e.CreateRefuse? || e.Start? || e.StopAsk? || e.Decide?
    ensures Inv(Step(s, e))
  {
    match e {
      case Start(id, a) =>
        StartKeeps(s.sessions[id], a);
        StartEvolves(s.sessions[id], a);
        hide SessionOk, Active, StartStep, PortsOk, TableOk, CreationOk, StartEnabled;
        SetKeeps(s, id, StartStep(s.sessions[id], a));
      case StopAsk(id, preserve) =>
        StopRequestKeeps(s.sessions[id], preserve);
        hide SessionOk, Active, PortsOk, TableOk, CreationOk;
        SetKeeps(s, id, StopRequest(s.sessions[id], preserve));
      case CreateBegin => OnlyCreationChanged(s, e);
      case CreateRefuse => OnlyCreationChanged(s, e);
      case Decide(_) => OnlyCreationChanged(s, e);
    }
  }

  lemma OnlyCreationChanged(s: System, e: Event)
    requires Inv(s) && Enabled(s, e) && (e.CreateBegin? || e.CreateRefuse? || e.Decide?)
    ensures Inv(Step(s, e))
  {
    hide SessionOk, Active, SharePort;
    var s' := Step(s, e);
    if e.CreateBegin? {
      assert ActiveAmong(s', {}) == {};
    } else if e.Decide? && s.creation.Scanning? {
      assert ActiveAmong(s', s.creation.scanned) == ActiveAmong(s, s.creation.scanned);
    }
    SameTable(s, s');
  }

  // ----- whole runs -----

  predicate Possible(s: System, run: seq<Event>)
    decreases |run|
  {
    run == [] || (Enabled(s, run[0]) && Possible(Step(s, run[0]), run[1..]))
  }

  function After(s: System, run: seq<Event>): System
    requires Possible(s, run)
    decreases |run|
  {
    if run == [] then s else After(Step(s, run[0]), run[1..])
  }

  lemma {:induction false} RunKeeps(s: System, run: seq<Event>)
    requires Inv(s) && Possible(s, run)
    ensures Inv(After(s, run))
    decreases |run|
  {
    hide Inv, Enabled, Step;
    if run != [] {
      StepKeeps(s, run[0]);
      RunKeeps(Step(s, run[0]), run[1..]);
    }
  }

  lemma InitialOk(max: nat)
    ensures Inv(Initial(max))
  {
    assert ActiveAmong(Initial(max), {}) == {};
  }

  /** In every interleaving from the empty manager: at most max_connections listed sessions are
      starting or running; two entries of the table are different sessions with different tokens
      and four different ports; no session's stop body was entered twice. */
  lemma TableSafety(max: nat, run: seq<Event>)
    requires Possible(Initial(max), run)
    ensures var s := After(Initial(max), run);
      && |ActiveAmong(s, Listed(s))| <= max
      && (forall i :: i in s.sessions ==> s.sessions[i].stops <= 1)
      && forall t, u :: t in s.table && u in s.table && t != u ==>
           && s.table[t] in s.sessions && s.table[u] in s.sessions && s.table[t] != s.table[u]
           && s.sessions[s.table[t]].token != s.sessions[s.table[u]].token
           && !SharePort(s.sessions[s.table[t]], s.sessions[s.table[u]])
           && s.sessions[s.table[t]].vnc != s.sessions[s.table[t]].sig
  {
    InitialOk(max);
    RunKeeps(Initial(max), run);
    LimitUnchanged(Initial(max), run);
    var s := After(Initial(max), run);
    hide Possible, After, ContainersOk, PhaseOk, ActiveAmong, SharePort;
    forall t, u | t in s.table && u in s.table && t != u
      ensures s.table[t] in Listed(s) && s.table[u] in Listed(s) && s.table[t] != s.table[u]
    {
    }
  }

  lemma {:induction false} LimitUnchanged(s: System, run: seq<Event>)
    requires Possible(s, run)
    ensures After(s, run).max == s.max
    decreases |run|
  {
    if run != [] {
      LimitUnchanged(Step(s, run[0]), run[1..]);
    }
  }

  // The stop worker has the lifecycle lock, or is done with it.
  predicate Sealed(p: StopPc) { StopHoldsLock(p) || p.StopDone? }

  predicate Emptied(p: StopPc) { p.Finish? || p.StopDone? }

  predicate NothingLaunched(x: Session, y: Session) { (y.sandbox ==> x.sandbox) && (y.streamer ==> x.streamer) }

  /** What time can do to a session: it never becomes active again, a finished start worker stays
      finished, and once the stop worker holds the lifecycle lock nothing is launched. */
  predicate Later(x: Session, y: Session) {
    && Evolves(x, y)
    && (x.start.StartDone? ==> y.start == x.start && NothingLaunched(x, y))
    && (Sealed(x.stop) ==> Sealed(y.stop) && NothingLaunched(x, y))
    && (Emptied(x.stop) ==> Emptied(y.stop))
  }

  lemma StartLater(x: Session, a: Answer)
    requires SessionOk(x) && StartEnabled(x)
    ensures Later(x, StartStep(x, a))
  {
    StartEvolves(x, a);
    StartLaunch(x, a);
    hide SessionOk, StartStep, Evolves, Sealed, NothingLaunched, Emptied;
  }

  lemma SandboxLaunch(x: Session, a: Answer)
    requires LocksOk(x)
    ensures SandboxStep(x, a).stop == x.stop
    ensures Sealed(x.stop) ==> NothingLaunched(x, SandboxStep(x, a))
  {
  }

  lemma StreamerLaunch(x: Session, a: Answer)
    requires LocksOk(x)
    ensures StreamerStep(x, a).stop == x.stop
    ensures Sealed(x.stop) ==> NothingLaunched(x, StreamerStep(x, a))
  {
  }

  lemma StartLaunch(x: Session, a: Answer)
    requires LocksOk(x)
    ensures StartStep(x, a).stop == x.stop
    ensures Sealed(x.stop) ==> NothingLaunched(x, StartStep(x, a))
  {
    SandboxLaunch(x, a);
    StreamerLaunch(x, a);
    hide LocksOk, SandboxStep, StreamerStep, BeforeSandbox, Sealed;
  }

  lemma StopLater(x: Session)
    requires SessionOk(x) && StopEnabled(x)
    ensures Later(x, StopStep(x))
  {
    StopEvolves(x);
    hide SessionOk, Evolves;
  }

  lemma AskLater(x: Session, preserve: bool)
    requires LocksOk(x)
    ensures Later(x, x) && Later(x, StopRequest(x, preserve))
  {
  }

  // The session a step may change.
  lemma StepTouches(s: System, e: Event, id: nat)
    requires Enabled(s, e) && id in s.sessions
    ensures id in Step(s, e).sessions
    ensures var x, y := s.sessions[id], Step(s, e).sessions[id];
      if e.Start? && e.id == id then StartEnabled(x) && y == StartStep(x, e.answer)
      else if e.StopGo? && e.id == id then StopEnabled(x) && y == StopStep(x)
      else if e.StopAsk? && e.id == id then y == StopRequest(x, e.preserve)
      else y == x
  {
    hide StartStep, StopStep, StopRequest, StartEnabled, StopEnabled, MutexFree, Active;
  }

  lemma StepLater(s: System, e: Event, id: nat)
    requires Inv(s) && Enabled(s, e) && id in s.sessions
    ensures id in Step(s, e).sessions && Later(s.sessions[id], Step(s, e).sessions[id])
  {
    var x := s.sessions[id];
    assert SessionOk(x);
    hide Inv, Enabled, Step, Later, LocksOk, ContainersOk, PhaseOk, StartStep, StopStep, StopRequest, StartEnabled,
         StopEnabled;
    StepTouches(s, e, id);
    if e.Start? && e.id == id {
      StartLater(x, e.answer);
    } else if e.StopGo? && e.id == id {
      StopLater(x);
    } else {
      AskLater(x, e.StopAsk? && e.preserve);
    }
  }

  lemma {:induction false} RunLater(s: System, run: seq<Event>, id: nat)
    requires Inv(s) && Possible(s, run) && id in s.sessions
    ensures id in After(s, run).sessions && Later(s.sessions[id], After(s, run).sessions[id])
    decreases |run|
  {
    hide Inv, Enabled, Step, Active;
    if run != [] {
      StepKeeps(s, run[0]);
      StepLater(s, run[0], id);
      RunLater(Step(s, run[0]), run[1..], id);
    }
  }

  lemma {:induction false} RunSplit(s: System, before: seq<Event>, after: seq<Event>)
    requires Possible(s, before + after)
    ensures Possible(s, before) && Possible(After(s, before), after)
    ensures After(s, before + after) == After(After(s, before), after)
    decreases |before|
  {
    hide Enabled, Step;
    if before == [] {
      assert before + after == after;
    } else {
      assert (before + after)[1..] == before[1..] + after;
      RunSplit(Step(s, before[0]), before[1..], after);
    }
  }

  /** No container outlives a stop: whatever interleaving led to a session whose stop worker has
      removed its containers, or whose start worker ended in failure, the session has no
      container then and none in any continuation, and it is never starting or running again. */
  lemma NoContainerOutlives(max: nat, before: seq<Event>, after: seq<Event>, id: nat)
    requires Possible(Initial(max), before + after)
    ensures Possible(Initial(max), before)
    ensures var s, s' := After(Initial(max), before), After(Initial(max), before + after);
      id in s.sessions && (Emptied(s.sessions[id].stop) || s.sessions[id].start == StartDone(true)) ==>
        && id in s'.sessions
        && !s'.sessions[id].sandbox && !s'.sessions[id].streamer && !Active(s'.sessions[id])
  {
    RunSplit(Initial(max), before, after);
    InitialOk(max);
    RunKeeps(Initial(max), before);
    var s := After(Initial(max), before);
    if id in s.sessions {
      RunKeeps(s, after);
      RunLater(s, after, id);
      assert SessionOk(s.sessions[id]);
    }
    hide Possible, After, Inv, LocksOk;
  }

  /** Once the stop worker holds the lifecycle lock, no continuation launches a container, and a
      session that is neither starting nor running never is again. */
  lemma NothingLaunchedOnceSealed(max: nat, before: seq<Event>, after: seq<Event>, id: nat)
    requires Possible(Initial(max), before + after)
    ensures Possible(Initial(max), before)
    ensures var s, s' := After(Initial(max), before), After(Initial(max), before + after);
      id in s.sessions ==>
        && id in s'.sessions
        && (Sealed(s.sessions[id].stop) ==> NothingLaunched(s.sessions[id], s'.sessions[id]))
        && (!Active(s.sessions[id]) ==> !Active(s'.sessions[id]))
  {
    RunSplit(Initial(max), before, after);
    InitialOk(max);
    RunKeeps(Initial(max), before);
    var s := After(Initial(max), before);
    if id in s.sessions {
      RunLater(s, after, id);
    }
    hide Possible, After, Inv, Active, NothingLaunched, Sealed;
  }

  // ----- no entry is left behind -----

  // A session whose stop did not preserve it is out of the table.
  predicate Gone(s: System) {
    forall i :: i in s.sessions && s.sessions[i].stop.StopDone? && !s.sessions[i].preserve ==> i !in Listed(s)
  }

  lemma UnlistRemoves(s: System, id: nat)
    requires TableOk(s) && id in s.sessions
    ensures Listed(Unlist(s, id)) <= Listed(s) - {id}
  {
    hide Active;
    var s' := Unlist(s, id);
    forall i | i in Listed(s') ensures i in Listed(s) && i != id {
      var t :| t in s'.table && s'.table[t] == i;
      assert t in s.table && s.table[t] == i;
    }
  }

  lemma StopGoGone(s: System, id: nat)
    requires TableOk(s) && Gone(s) && Enabled(s, StopGo(id))
    ensures Gone(Step(s, StopGo(id)))
  {
    var x := s.sessions[id];
    assert StopStep(x).stop.StopDone? && !StopStep(x).preserve ==> x.stop == Finish && !x.preserve;
    UnlistRemoves(s, id);
    hide StopStep, StopEnabled, TableOk, Unlist;
  }

  lemma WorkerGone(s: System, e: Event)
    requires SessionsOk(s) && Gone(s) && Enabled(s, e) && (e.Start? || e.StopAsk?)
    ensures Gone(Step(s, e))
  {
    var x := s.sessions[e.id];
    assert SessionOk(x);
    if e.Start? {
      StartPreserve(x, e.answer);
      hide SessionsOk, SessionOk, StartStep, StartEnabled;
      assert Listed(Step(s, e)) == Listed(s);
    } else {
      hide SessionsOk, SessionOk;
      assert Listed(Step(s, e)) == Listed(s);
    }
  }

  lemma StartPreserve(x: Session, a: Answer)
    ensures StartStep(x, a).stop == x.stop && StartStep(x, a).preserve == x.preserve
  {
    SandboxPreserve(x, a);
    StreamerPreserve(x, a);
    hide SandboxStep, StreamerStep, BeforeSandbox;
  }

  lemma SandboxPreserve(x: Session, a: Answer)
    ensures SandboxStep(x, a).stop == x.stop && SandboxStep(x, a).preserve == x.preserve
  {
  }

  lemma StreamerPreserve(x: Session, a: Answer)
    ensures StreamerStep(x, a).stop == x.stop && StreamerStep(x, a).preserve == x.preserve
  {
  }

  lemma ManagerGone(s: System, e: Event)
    requires Gone(s) && Enabled(s, e) && !e.StopGo? && !e.Start? && !e.StopAsk?
    ensures Gone(Step(s, e))
  {
    hide MutexFree, Retired;
    var s' := Step(s, e);
    if e.CreateInsert? {
      ListedAfterInsert(s, e.token, e.id);
    } else {
      forall i | i in Listed(s') ensures i in Listed(s) {
        var t :| t in s'.table && s'.table[t] == i;
        assert t in s.table && s.table[t] == i;
      }
    }
  }

  lemma StepGone(s: System, e: Event)
    requires Inv(s) && Gone(s) && Enabled(s, e)
    ensures Gone(Step(s, e))
  {
    hide Gone, Enabled, Step, SessionsOk, TableOk, PortsOk, CreationOk, ActiveAmong;
    if e.StopGo? {
      StopGoGone(s, e.id);
    } else if e.Start? || e.StopAsk? {
      WorkerGone(s, e);
    } else {
      ManagerGone(s, e);
    }
  }

  lemma {:induction false} RunGone(s: System, run: seq<Event>)
    requires Inv(s) && Gone(s) && Possible(s, run)
    ensures Inv(After(s, run)) && Gone(After(s, run))
    decreases |run|
  {
    hide Inv, Gone, Enabled, Step;
    if run != [] {
      StepKeeps(s, run[0]);
      StepGone(s, run[0]);
      RunGone(Step(s, run[0]), run[1..]);
    }
  }

  /** A session whose stop is done is out of the table, unless it was preserved, and then it is in
      a phase in which the housekeeper drops it: no run leaves an entry behind for good. */
  lemma StoppedIsGone(max: nat, run: seq<Event>, id: nat)
    requires Possible(Initial(max), run)
    ensures var s := After(Initial(max), run);
      id in s.sessions && s.sessions[id].stop.StopDone? ==>
        if s.sessions[id].preserve then Retired(s.sessions[id]) else id !in Listed(s)
  {
    InitialOk(max);
    RunGone(Initial(max), run);
    var s := After(Initial(max), run);
    if id in s.sessions {
      assert SessionOk(s.sessions[id]);
    }
    hide Possible, After, Inv, LocksOk, ContainersOk, Listed;
  }

  // ----- counting the sessions outside the table too -----

  predicate AllListed(s: System) {
    forall i :: i in s.sessions && Active(s.sessions[i]) ==>
      s.sessions[i].token in s.table && s.table[s.sessions[i].token] == i
  }

  /** The housekeeper erases by token, without looking which session the entry holds: here it takes
      a starting or running one. */
  predicate Orphans(s: System, e: Event) {
    && e.Erase? && e.token in s.table && s.table[e.token] in s.sessions
    && Active(s.sessions[s.table[e.token]])
  }

  lemma SetListed(s: System, id: nat, y: Session)
    requires AllListed(s) && id in s.sessions && Evolves(s.sessions[id], y)
    ensures AllListed(SetSession(s, id, y))
  {
    hide Active;
  }

  lemma StopGoListed(s: System, id: nat)
    requires AllListed(s) && SessionsOk(s) && Enabled(s, StopGo(id))
    ensures AllListed(Step(s, StopGo(id)))
  {
    var x := s.sessions[id];
    assert x.stop == Finish ==> !Active(x) by {
      assert SessionOk(x);
    }
    StopEvolves(x);
    hide SessionsOk, SessionOk, StopStep, Active, StopEnabled, Evolves;
    if x.stop == Finish && !x.preserve {
      assert AllListed(Unlist(s, id));
      hide AllListed;
      SetListed(Unlist(s, id), id, StopStep(x));
    } else {
      hide AllListed;
      SetListed(s, id, StopStep(x));
    }
  }

  lemma WorkerListed(s: System, e: Event)
    requires AllListed(s) && SessionsOk(s) && Enabled(s, e) && (e.Start? || e.StopAsk?)
    ensures AllListed(Step(s, e))
  {
    var x := s.sessions[e.id];
    if e.Start? {
      StartEvolves(x, e.answer);
      hide SessionsOk, AllListed, SessionOk, StartStep, StartEnabled, Evolves;
      SetListed(s, e.id, StartStep(x, e.answer));
    } else {
      hide SessionsOk, AllListed, SessionOk;
      SetListed(s, e.id, StopRequest(x, e.preserve));
    }
  }

  lemma EraseListed(s: System, e: Event)
    requires AllListed(s) && TableOk(s) && Enabled(s, e) && e.Erase?
    ensures AllListed(Step(s, e)) <==> !Orphans(s, e)
  {
    hide Active;
    if Orphans(s, e) {
      var i := s.table[e.token];
      assert i in Step(s, e).sessions && Active(Step(s, e).sessions[i]) && s.sessions[i].token == e.token;
    }
  }

  /** Every step but an orphaning one leaves all active sessions in the table. */
  lemma StepListed(s: System, e: Event)
    requires Inv(s) && AllListed(s) && Enabled(s, e)
    ensures AllListed(Step(s, e)) <==> !Orphans(s, e)
  {
    if e.StopGo? {
      hide AllListed, Enabled, Step, SessionsOk, TableOk;
      StopGoListed(s, e.id);
    } else if e.Start? || e.StopAsk? {
      hide AllListed, Enabled, Step, SessionsOk, TableOk;
      WorkerListed(s, e);
    } else if e.Erase? {
      hide AllListed, Orphans, Enabled, Step, SessionsOk, TableOk;
      EraseListed(s, e);
    } else {
      hide Inv, Active, MutexFree, Retired;
    }
  }

  predicate AlwaysListed(s: System, run: seq<Event>)
    requires Possible(s, run)
    decreases |run|
  {
    AllListed(s) && (run == [] || AlwaysListed(Step(s, run[0]), run[1..]))
  }

  predicate NoOrphans(s: System, run: seq<Event>)
    requires Possible(s, run)
    decreases |run|
  {
    run == [] || (!Orphans(s, run[0]) && NoOrphans(Step(s, run[0]), run[1..]))
  }

  /** In any run, all active sessions stay listed exactly as long as no erasure orphans one. */
  lemma {:induction false} ListedExactly(s: System, run: seq<Event>)
    requires Inv(s) && AllListed(s) && Possible(s, run)
    ensures AlwaysListed(s, run) <==> NoOrphans(s, run)
    ensures NoOrphans(s, run) ==> AllListed(After(s, run))
    decreases |run|
  {
    hide Inv, AllListed, Orphans, Enabled, Step;
    if run != [] {
      StepKeeps(s, run[0]);
      StepListed(s, run[0]);
      if !Orphans(s, run[0]) {
        ListedExactly(Step(s, run[0]), run[1..]);
      } else {
        NotListedAtFirst(Step(s, run[0]), run[1..]);
      }
    }
  }

  lemma NotListedAtFirst(s: System, run: seq<Event>)
    requires Possible(s, run) && !AllListed(s)
    ensures !AlwaysListed(s, run)
  {
  }

  // Every session that is starting or running, listed or not.
  function Total(s: System): nat { |ActiveAmong(s, s.sessions.Keys)| }

  lemma ListedWithinLimit(s: System)
    requires Inv(s) && AllListed(s)
    ensures Total(s) <= s.max
  {
    hide Active, SessionsOk, TableOk, PortsOk, CreationOk;
    assert ActiveAmong(s, s.sessions.Keys) <= ActiveAmong(s, Listed(s));
    SubsetSize(ActiveAmong(s, s.sessions.Keys), ActiveAmong(s, Listed(s)));
  }

  /** The limit covers every session object, in the table or not, in every run that orphans none. */
  lemma LimitCoversAll(s: System, run: seq<Event>)
    requires Inv(s) && AllListed(s) && Possible(s, run) && NoOrphans(s, run)
    ensures Total(After(s, run)) <= s.max
  {
    RunKeeps(s, run);
    ListedExactly(s, run);
    LimitUnchanged(s, run);
    hide Possible, NoOrphans, After, Inv, AllListed, Total;
    ListedWithinLimit(After(s, run));
  }

  // ----- new tokens orphan nothing -----

  // Every inserted token is new, as 24 random bytes are in practice.
  predicate TokensNew(s: System, run: seq<Event>)
    requires Possible(s, run)
    decreases |run|
  {
    run == [] ||
    ((run[0].CreateInsert? ==> forall i :: i in s.sessions ==> s.sessions[i].token != run[0].token) &&
     TokensNew(Step(s, run[0]), run[1..]))
  }

  predicate DistinctTokens(s: System) {
    forall i, j :: i in s.sessions && j in s.sessions && i != j ==> s.sessions[i].token != s.sessions[j].token
  }

  predicate PendingKnown(s: System) {
    forall t :: t in s.pending ==> exists i :: i in s.sessions && s.sessions[i].token == t
  }

  predicate PendingInactive(s: System) {
    forall i :: i in s.sessions && s.sessions[i].token in s.pending ==> !Active(s.sessions[i])
  }

  predicate Whole(s: System) { DistinctTokens(s) && PendingKnown(s) && PendingInactive(s) }

  // A step that replaces one session by what it evolved to.
  lemma SetWhole(s: System, id: nat, y: Session)
    requires Whole(s) && id in s.sessions && Evolves(s.sessions[id], y)
    ensures Whole(SetSession(s, id, y))
  {
    hide Active;
    var s' := SetSession(s, id, y);
    forall t | t in s'.pending ensures exists i :: i in s'.sessions && s'.sessions[i].token == t {
      var i :| i in s.sessions && s.sessions[i].token == t;
      assert s'.sessions[i].token == t;
    }
  }

  lemma SameWhole(s: System, s': System)
    requires Whole(s) && s'.sessions == s.sessions && s'.pending <= s.pending
    ensures Whole(s')
  {
    hide Active;
  }

  lemma StopGoWhole(s: System, id: nat)
    requires Whole(s) && SessionsOk(s) && Enabled(s, StopGo(id))
    ensures Whole(Step(s, StopGo(id)))
  {
    var x := s.sessions[id];
    StopEvolves(x);
    hide SessionsOk, SessionOk, StopStep, Active, StopEnabled, Evolves, Whole;
    SameWhole(s, Unlist(s, id));
    SetWhole(Unlist(s, id), id, StopStep(x));
    SetWhole(s, id, StopStep(x));
  }

  lemma WorkerWhole(s: System, e: Event)
    requires Whole(s) && SessionsOk(s) && Enabled(s, e) && (e.Start? || e.StopAsk?)
    ensures Whole(Step(s, e))
  {
    var x := s.sessions[e.id];
    if e.Start? {
      StartEvolves(x, e.answer);
      hide SessionsOk, Whole, SessionOk, StartStep, StartEnabled, Evolves;
      SetWhole(s, e.id, StartStep(x, e.answer));
    } else {
      hide SessionsOk, Whole, SessionOk;
      SetWhole(s, e.id, StopRequest(x, e.preserve));
    }
  }

  lemma ManagerWhole(s: System, e: Event)
    requires Whole(s) && Enabled(s, e) && !e.StopGo? && !e.Start? && !e.StopAsk? && !e.CreateInsert?
    ensures Whole(Step(s, e))
  {
    if e.Decide? {
      hide MutexFree;
    } else {
      hide Whole, Active, MutexFree, Retired;
      SameWhole(s, Step(s, e));
    }
  }

  lemma InsertWhole(s: System, e: Event)
    requires Whole(s) && Enabled(s, e) && e.CreateInsert?
    requires forall i :: i in s.sessions ==> s.sessions[i].token != e.token
    ensures Whole(Step(s, e))
  {
    hide Active;
    var s' := Step(s, e);
    forall t | t in s'.pending ensures exists i :: i in s'.sessions && s'.sessions[i].token == t {
      var i :| i in s.sessions && s.sessions[i].token == t;
      assert s'.sessions[i].token == t;
    }
  }

  lemma StepWhole(s: System, e: Event)
    requires Whole(s) && Inv(s) && Enabled(s, e)
    requires e.CreateInsert? ==> forall i :: i in s.sessions ==> s.sessions[i].token != e.token
    ensures Whole(Step(s, e)) && !Orphans(s, e)
  {
    hide Enabled, Step, SessionsOk, PortsOk, CreationOk, DistinctTokens, PendingKnown, Active;
    if e.Erase? {
      ErasePending(s, e);
    }
    hide Whole, TableOk;
    if e.StopGo? {
      StopGoWhole(s, e.id);
    } else if e.Start? || e.StopAsk? {
      WorkerWhole(s, e);
    } else if e.CreateInsert? {
      InsertWhole(s, e);
    } else {
      ManagerWhole(s, e);
    }
  }

  lemma ErasePending(s: System, e: Event)
    requires e.Erase? && Enabled(s, e)
    ensures e.token in s.pending
  {
  }

  /** When no token is ever drawn twice, no erasure orphans a session, so the limit covers all. */
  lemma {:induction false} NewTokensOrphanNone(s: System, run: seq<Event>)
    requires Whole(s) && Inv(s) && Possible(s, run) && TokensNew(s, run)
    ensures NoOrphans(s, run)
    decreases |run|
  {
    hide Whole, Inv, Enabled, Step, Orphans;
    if run != [] {
      StepKeeps(s, run[0]);
      StepWhole(s, run[0]);
      NewTokensOrphanNone(Step(s, run[0]), run[1..]);
    }
  }

  // ----- an orphan breaks the limit -----

  ghost predicate Reaches(s0: System, s: System) {
    exists run :: Possible(s0, run) && After(s0, run) == s
  }

  lemma ReachesItself(s: System)
    ensures Reaches(s, s)
  {
    assert Possible(s, []) && After(s, []) == s;
  }

  lemma {:induction false} RunExtend(s: System, run: seq<Event>, e: Event)
    requires Possible(s, run) && Enabled(After(s, run), e)
    ensures Possible(s, run + [e]) && After(s, run + [e]) == Step(After(s, run), e)
    decreases |run|
  {
    hide Enabled, Step;
    if run == [] {
      assert [e][1..] == [];
      assert [] + [e] == [e];
    } else {
      assert (run + [e])[1..] == run[1..] + [e];
      RunExtend(Step(s, run[0]), run[1..], e);
    }
  }

  lemma ReachesStep(s0: System, s: System, e: Event)
    requires Reaches(s0, s) && Enabled(s, e)
    ensures Reaches(s0, Step(s, e))
  {
    hide Enabled, Step;
    var run :| Possible(s0, run) && After(s0, run) == s;
    RunExtend(s0, run, e);
  }

  // A state with a session that is active and not listed.
  predicate Crowded(s: System, u: nat) {
    Inv(s) && u in s.sessions && u !in Listed(s) && Active(s.sessions[u])
  }

  // What a scan that nothing else interrupts leaves alone.
  predicate Calm(s: System, s': System) {
    && s'.table == s.table && s'.max == s.max && s'.sessions.Keys == s.sessions.Keys
    && forall i :: i in s.sessions ==> Active(s'.sessions[i]) == Active(s.sessions[i])
  }

  lemma CalmCounts(s: System, s': System, ids: set<nat>)
    requires Calm(s, s')
    ensures ActiveAmong(s', ids) == ActiveAmong(s, ids)
  {
    hide Active;
    assert forall i :: i in s.sessions <==> i in s'.sessions;
  }

  // A session mutex held by a start worker is soon released.
  lemma Release(s0: System, s: System, id: nat) returns (s': System)
    requires Reaches(s0, s) && Inv(s) && id in s.sessions
    ensures Reaches(s0, s') && Inv(s') && Calm(s, s') && s'.creation == s.creation && MutexFree(s'.sessions[id])
  {
    hide Reaches;
    s' := s;
    if !MutexFree(s.sessions[id]) {
      var e := Start(id, Answer(true, false));
      assert SessionOk(s.sessions[id]);
      hide Inv;
      ReachesStep(s0, s, e);
      StepKeeps(s, e);
      s' := Step(s, e);
    }
  }

  // The count is that of the sessions scanned.
  predicate Counting(s: System) { s.creation.Scanning? && s.creation.active == |ActiveAmong(s, s.creation.scanned)| }

  // One more session is scanned.
  lemma ScanNext(s0: System, s: System, id: nat) returns (s': System)
    requires Reaches(s0, s) && Inv(s) && Counting(s) && id in Listed(s) && id !in s.creation.scanned
    ensures Reaches(s0, s') && Inv(s') && Counting(s') && Calm(s, s')
    ensures s'.creation.scanned == s.creation.scanned + {id}
  {
    hide Reaches, ActiveAmong;
    assert id in s.sessions by {
      assert TableOk(s);
    }
    var s1 := Release(s0, s, id);
    CalmCounts(s, s1, s.creation.scanned);
    var e := CreateScan(id);
    assert Enabled(s1, e) by { SameListed(s, s1); }
    ReachesStep(s0, s1, e);
    StepKeeps(s1, e);
    s' := Step(s1, e);
    hide Inv, Active;
    ScanExact(s1, id);
    CalmCounts(s1, s', s'.creation.scanned);
  }

  lemma ScanExact(s: System, id: nat)
    requires id in s.sessions && s.creation.Scanning? && id !in s.creation.scanned
    ensures |ActiveAmong(s, s.creation.scanned + {id})|
         == |ActiveAmong(s, s.creation.scanned)| + (if Active(s.sessions[id]) then 1 else 0)
  {
    hide Active;
    var before, after := ActiveAmong(s, s.creation.scanned), ActiveAmong(s, s.creation.scanned + {id});
    assert after == before + if Active(s.sessions[id]) then {id} else {};
  }

  lemma CalmTwice(a: System, b: System, c: System)
    requires Calm(a, b) && Calm(b, c)
    ensures Calm(a, c)
  {
    hide Active;
  }

  lemma {:induction false} ScanAll(s0: System, s: System) returns (s': System)
    requires Reaches(s0, s) && Inv(s) && Counting(s)
    ensures Reaches(s0, s') && Inv(s') && Counting(s') && Calm(s, s') && Scanned(s')
    decreases |Listed(s) - s.creation.scanned|
  {
    hide Reaches, ActiveAmong, Inv, Calm, Listed, Scanned;
    var rest := Listed(s) - s.creation.scanned;
    if rest == {} {
      s' := s;
      ScannedAll(s);
    } else {
      var id :| id in rest;
      var s1 := ScanNext(s0, s, id);
      CalmListed(s, s1);
      assert Listed(s1) - s1.creation.scanned == rest - {id};
      s' := ScanAll(s0, s1);
      CalmTwice(s, s1, s');
    }
  }

  lemma CalmListed(s: System, s': System)
    requires Calm(s, s')
    ensures Listed(s') == Listed(s)
  {
    SameListed(s, s');
  }

  lemma ScannedAll(s: System)
    requires Inv(s) && Counting(s) && Listed(s) - s.creation.scanned == {}
    ensures Scanned(s) && Calm(s, s)
  {
    hide Active, ActiveAmong, SessionsOk, TableOk, PortsOk, Listed;
    var scanned, listed := s.creation.scanned, Listed(s);
    assert scanned <= listed;
    assert listed == scanned + (listed - scanned);
  }

  // ----- filling the table -----

  lemma {:induction false} AboveAll(xs: set<int>) returns (n: int)
    ensures n >= 0 && forall x :: x in xs ==> x < n
  {
    if y :| y in xs {
      n := AboveAll(xs - {y});
      n := if y < n then n else y + 1;
      assert forall x :: x in xs ==> x == y || x in xs - {y};
    } else {
      n := 0;
    }
  }

  lemma UnusedId(s: System) returns (id: nat)
    ensures id !in s.sessions
  {
    var ids: set<int> := set i | i in s.sessions;
    id := AboveAll(ids);
    assert id !in ids;
  }

  function Repeated(n: nat): (t: string)
    ensures |t| == n
  {
    if n == 0 then "" else "a" + Repeated(n - 1)
  }

  lemma UnusedToken(s: System) returns (t: string)
    ensures t !in s.table
  {
    var lengths: set<int> := set x | x in s.table :: |x|;
    var n := AboveAll(lengths);
    t := Repeated(n);
    assert n !in lengths;
  }

  // A creation with nothing else going on.
  lemma CreateOne(s0: System, s: System) returns (s': System, id: nat)
    requires Reaches(s0, s) && Inv(s) && s.creation.Idle? && |ActiveAmong(s, Listed(s))| < s.max
    ensures Reaches(s0, s') && Inv(s') && s'.creation.Idle? && s'.max == s.max
    ensures |ActiveAmong(s', Listed(s'))| == |ActiveAmong(s, Listed(s))| + 1
    ensures id !in s.sessions && Listed(s') == Listed(s) + {id} && s'.sessions.Keys == s.sessions.Keys + {id}
    ensures exists token, vnc, sig :: s'.sessions[id] == NewSession(token, vnc, sig)
    ensures forall u :: u in s.sessions ==> Active(s'.sessions[u]) == Active(s.sessions[u])
  {
    var s1 := Begin(s0, s);
    var s2 := ScanAll(s0, s1);
    CalmTwice(s, s1, s2);
    CalmListed(s, s2);
    CalmCounts(s, s2, Listed(s));
    hide Inv, Active, ActiveAmong, NewSession, Listed;
    s', id := Insert(s0, s2);
  }

  lemma Begin(s0: System, s: System) returns (s': System)
    requires Reaches(s0, s) && Inv(s) && s.creation.Idle?
    ensures Reaches(s0, s') && Inv(s') && Counting(s') && Calm(s, s')
  {
    hide Reaches, Active;
    ReachesStep(s0, s, CreateBegin);
    StepKeeps(s, CreateBegin);
    s' := Step(s, CreateBegin);
    hide Inv;
    assert ActiveAmong(s', {}) == {};
  }

  lemma Insert(s0: System, s: System) returns (s': System, id: nat)
    requires Reaches(s0, s) && Inv(s) && Counting(s) && Scanned(s) && s.creation.active < s.max
    ensures Reaches(s0, s') && Inv(s') && s'.creation.Idle? && s'.max == s.max
    ensures |ActiveAmong(s', Listed(s'))| == |ActiveAmong(s, Listed(s))| + 1
    ensures id !in s.sessions && Listed(s') == Listed(s) + {id} && s'.sessions.Keys == s.sessions.Keys + {id}
    ensures exists token, vnc, sig :: s'.sessions[id] == NewSession(token, vnc, sig)
    ensures forall u :: u in s.sessions ==> s'.sessions[u] == s.sessions[u]
  {
    hide Reaches, Active, ActiveAmong, Listed, NewSession;
    id := UnusedId(s);
    var token := UnusedToken(s);
    var port := AboveAll(s.creation.ports);
    var e := CreateInsert(id, token, port, port + 1);
    assert Enabled(s, e);
    ReachesStep(s0, s, e);
    StepKeeps(s, e);
    s' := Step(s, e);
    NotYetListed(s, id);
    Inserted(s, e);
    hide Inv, Enabled;
  }

  lemma Inserted(s: System, e: Event)
    requires Enabled(s, e) && e.CreateInsert? && e.id !in Listed(s)
    ensures var s' := Step(s, e);
      && |ActiveAmong(s', Listed(s'))| == |ActiveAmong(s, Listed(s))| + 1
      && Listed(s') == Listed(s) + {e.id} && s'.creation.Idle? && s'.max == s.max
  {
    var s' := Step(s, e);
    ListedAfterInsert(s, e.token, e.id);
    assert Active(NewSession(e.token, e.vnc, e.sig));
    hide Active, NewSession;
    assert s'.sessions == s.sessions[e.id := NewSession(e.token, e.vnc, e.sig)] && Listed(s') == Listed(s) + {e.id};
    hide Listed, Enabled;
    OneMoreActive(s, s', e.id, Listed(s));
  }

  lemma OneMoreActive(s: System, s': System, id: nat, ids: set<nat>)
    requires id in s'.sessions && Active(s'.sessions[id]) && id !in ids
    requires s'.sessions == s.sessions[id := s'.sessions[id]]
    ensures |ActiveAmong(s', ids + {id})| == |ActiveAmong(s, ids)| + 1
  {
    hide Active;
    assert ActiveAmong(s', ids + {id}) == ActiveAmong(s, ids) + {id};
  }

  lemma NotYetListed(s: System, id: nat)
    requires Inv(s) && id !in s.sessions
    ensures id !in Listed(s)
  {
    hide SessionsOk, PortsOk, CreationOk, ActiveAmong;
  }

  // With the table full, the unlisted session is one too many.
  lemma OneTooMany(s: System, u: nat)
    requires Crowded(s, u) && |ActiveAmong(s, Listed(s))| >= s.max
    ensures Total(s) > s.max
  {
    hide SessionsOk, PortsOk, CreationOk, Active;
    var listed := ActiveAmong(s, Listed(s));
    assert u !in listed;
    SubsetSize(listed + {u}, ActiveAmong(s, s.sessions.Keys));
  }

  lemma StillCrowded(s: System, s': System, u: nat, id: nat)
    requires Crowded(s, u) && Inv(s') && Listed(s') == Listed(s) + {id} && id !in s.sessions
    requires u in s'.sessions && Active(s'.sessions[u]) == Active(s.sessions[u])
    ensures Crowded(s', u)
  {
    hide Inv, Active, Listed;
  }

  lemma {:induction false} Fill(s0: System, s: System, u: nat) returns (s': System)
    requires Reaches(s0, s) && Crowded(s, u) && s.creation.Idle?
    ensures Reaches(s0, s') && Total(s') > s'.max && s'.max == s.max
    decreases s.max - |ActiveAmong(s, Listed(s))|
  {
    hide Reaches, Inv, Active, ActiveAmong, Listed, Total;
    if |ActiveAmong(s, Listed(s))| >= s.max {
      s' := s;
      OneTooMany(s, u);
    } else {
      var s1, id := CreateOne(s0, s);
      StillCrowded(s, s1, u, id);
      s' := Fill(s0, s1, u);
    }
  }

  /** And only those: after any erasure that orphans a session, whatever the rest of the state, some
      continuation exceeds the limit. */
  lemma OrphanExceedsLimit(s: System, e: Event) returns (s': System)
    requires Inv(s) && Enabled(s, e) && Orphans(s, e)
    ensures Reaches(Step(s, e), s') && Total(s') > s.max
  {
    StepKeeps(s, e);
    var s1, u := Step(s, e), s.table[e.token];
    OrphanCrowds(s, e);
    hide Inv, Enabled, Orphans;
    ReachesItself(s1);
    s' := Fill(s1, s1, u);
  }

  lemma OrphanCrowds(s: System, e: Event)
    requires Inv(s) && Enabled(s, e) && Orphans(s, e) && Inv(Step(s, e))
    ensures Crowded(Step(s, e), s.table[e.token]) && Step(s, e).creation.Idle? && Step(s, e).max == s.max
  {
    hide SessionsOk, PortsOk, CreationOk, Active, ActiveAmong;
    assert TableOk(s);
  }

  // ----- and such an erasure can come -----

  // A creation that finds the table empty.
  lemma ReachedCreation(s0: System, s: System, id: nat, token: string, vnc: int, sig: int) returns (s': System)
    requires Reaches(s0, s) && s.table == map[] && s.creation.Idle? && 0 < s.max && id !in s.sessions && vnc != sig
    ensures s' == s.(sessions := s.sessions[id := NewSession(token, vnc, sig)], table := map[token := id])
    ensures Reaches(s0, s')
  {
    hide Reaches;
    ReachesStep(s0, s, CreateBegin);
    s' := Step(s, CreateBegin);
    ReachesStep(s0, s', CreateInsert(id, token, vnc, sig));
    s' := Step(s', CreateInsert(id, token, vnc, sig));
  }

  // What a stop worker makes of a session it alone works on.
  function Stopped(x: Session): Session {
    var kept := x.preserve && !Retired(x);
    x.(phase := if kept then Expired else Closing, preserve := kept, sandbox := false, streamer := false,
       stop := StopDone)
  }

  /** A stop worker left to itself runs to its end: both containers are removed, and the session
      expires if it was to be preserved and was neither expired nor failed, or else is erased. */
  lemma StopRuns(s0: System, s: System, id: nat) returns (s': System)
    requires Reaches(s0, s) && id in s.sessions && s.creation.Idle?
    requires var x := s.sessions[id]; x.stop.AwaitLock? && x.lock == Free && MutexFree(x)
    ensures Reaches(s0, s')
    ensures s' == (if Stopped(s.sessions[id]).preserve then s else Unlist(s, id))
                  .(sessions := s.sessions[id := Stopped(s.sessions[id])])
  {
    hide Reaches, Unlist;
    var x := s.sessions[id];
    s' := s;
    for k := 0 to 6
      invariant Reaches(s0, s') && id in s'.sessions && s' == s.(sessions := s.sessions[id := s'.sessions[id]])
      invariant s'.sessions[id] == AfterStops(x, k)
    {
      StopGoes(x, k);
      hide AfterStops, StopStep, StopEnabled;
      ReachesStep(s0, s', StopGo(id));
      s' := Step(s', StopGo(id));
    }
    ReachesStep(s0, s', StopGo(id));
    UnlistSame(s, s', id);
    s' := Step(s', StopGo(id));
  }

  lemma StopGoes(x: Session, k: nat)
    requires k < 6 && x.stop.AwaitLock? && x.lock == Free && MutexFree(x)
    ensures var y := AfterStops(x, k);
      StopEnabled(y) && !y.stop.Finish? && StopStep(y) == AfterStops(x, k + 1)
  {
  }

  // The session after k steps of its stop worker.
  function AfterStops(x: Session, k: nat): Session
    requires x.stop.AwaitLock? && k <= 6
  {
    var kept := x.preserve && !Retired(x);
    if k == 0 then x
    else if k == 1 then x.(lock := ByStop, stop := ReadPhase)
    else if k == 2 then x.(lock := ByStop, preserve := kept, stop := Archive)
    else if k == 3 then x.(lock := ByStop, preserve := kept, stop := SetClosing)
    else if k == 4 then x.(lock := ByStop, preserve := kept, phase := Closing, stop := RmStreamer)
    else if k == 5 then x.(lock := ByStop, preserve := kept, phase := Closing, streamer := false, stop := RmSandbox)
    else x.(lock := ByStop, preserve := kept, phase := Closing, streamer := false, sandbox := false, stop := Finish)
  }

  lemma UnlistSame(s: System, s': System, id: nat)
    requires id in s.sessions && id in s'.sessions && s'.sessions[id].token == s.sessions[id].token
    requires s' == s.(sessions := s'.sessions)
    ensures Unlist(s', id) == Unlist(s, id).(sessions := s'.sessions)
  {
  }

  lemma ReachedFailure() returns (s: System)
    ensures Reaches(Initial(1), s) && s.creation.Idle? && s.pending == {} && s.max == 1
    ensures s.table == map["t" := 0]
    ensures s.sessions == map[0 := NewSession("t", 1, 2).(phase := Failed, start := StartDone(true))]
  {
    var s0 := Initial(1);
    ReachesItself(s0);
    hide Reaches;
    s := ReachedCreation(s0, s0, 0, "t", 1, 2);
    ReachesStep(s0, s, Start(0, Answer(false, false)));
    s := Step(s, Start(0, Answer(false, false)));
  }

  // The first session fails, is marked for erasure, and is closed by its user meanwhile.
  lemma ReachedErasure() returns (s: System)
    ensures Reaches(Initial(1), s) && s.table == map[] && s.creation.Idle? && s.sessions.Keys == {0}
    ensures s.pending == {"t"} && s.max == 1
  {
    hide Reaches;
    var s0 := Initial(1);
    s := ReachedFailure();
    ReachesStep(s0, s, Decide(0));
    s := Step(s, Decide(0));
    ReachesStep(s0, s, StopAsk(0, false));
    s := Step(s, StopAsk(0, false));
    s := StopRuns(s0, s, 0);
  }

  /** A token drawn again between the housekeeper's decision and its erasure takes a starting
      session out of the table, and with a limit of one two sessions are starting on the same
      ports. */
  lemma ReusedTokenBreaksLimit()
    ensures exists s ::
      && Reaches(Initial(1), s) && {1, 2} <= ActiveAmong(s, s.sessions.Keys)
      && 1 in s.sessions && 2 in s.sessions && SharePort(s.sessions[1], s.sessions[2])
  {
    hide Reaches;
    var s0 := Initial(1);
    var s := ReachedErasure();
    s := ReachedCreation(s0, s, 1, "t", 1, 2);
    ReachesStep(s0, s, Erase("t"));
    s := Step(s, Erase("t"));
    assert s.table == map[];
    s := ReachedCreation(s0, s, 2, "u", 1, 2);
  }
}
