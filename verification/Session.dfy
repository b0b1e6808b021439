/** One DrKonqi process's debugger session: BacktraceGenerator, DebuggerManager and KCrashBackend (default mode),
    driven by every event that can reach them. */
module Session {

  datatype State = NotLoaded | Loading | Loaded | Failed | FailedToPrepare | FailedToStart | MemoryPressure

  /** m_proc, with QProcess's own state. */
  datatype Process = NoProcess | Starting | Running

  /** m_lockWatcher, and what its thread has found out so far. */
  datatype Watcher = NoWatcher | Waiting | Acquired | GaveUp

  datatype BackendState = ProcessRunning | ProcessStopped | DebuggerRunning

  datatype ProcessError = ErrorFailedToStart | ErrorCrashed | ErrorTimedout | ErrorRead | ErrorWrite | ErrorUnknown
  {
    /** After the other two there is no process any more. */
    predicate LeavesProcess() {
      !ErrorFailedToStart? && !ErrorCrashed?
    }
  }

  datatype Manager = Manager(
    debuggerRunning: bool, // DebuggerManager::Private::debuggerRunning
    backend: BackendState, // KCrashBackend::m_state
    stopped: bool)         // the crashed process is stopped by SIGSTOP

  datatype Generator = Generator(
    state: State,
    proc: Process,
    lingering: bool,       // a process discarded alive still runs until its deferred deletion
    temp: bool,            // m_temp is set
    hasLockFile: bool,     // m_lockFile is set
    isLocked: bool,        // m_lockFile->isLocked()
    watcher: Watcher,
    prepareAsked: bool,    // the backend owes an answer to preparing()
    fenceAsked: bool,      // the memory fence owes a loaded() to surroundMe()
    timedOut: bool,        // this run began after its wait for the lock had timed out
    gone: bool,            // the objects have been destroyed
    manager: Manager)

  function FreshGenerator(hasLockFile: bool): Generator {
    Generator(NotLoaded, NoProcess, false, false, hasLockFile, false, NoWatcher, false, false, false, false,
              Manager(false, ProcessRunning, false))
  }

  /** A generator and whether anybody holds the lock file. */
  datatype Local = Local(g: Generator, held: bool)

  // ---- KCrashBackend ----

  function StopAttached(m: Manager): Manager {
    if m.backend.ProcessRunning? then m.(stopped := true, backend := ProcessStopped) else m
  }

  function ContinueAttached(m: Manager): Manager {
    if m.backend.ProcessStopped? then m.(stopped := false, backend := ProcessRunning) else m
  }

  // ---- DebuggerManager, forwarding to the backend ----

  function DebuggerStarting(m: Manager): Manager {
    ContinueAttached(m.(debuggerRunning := true)).(backend := DebuggerRunning)
  }

  function DebuggerFinished(m: Manager): Manager {
    StopAttached(m.(debuggerRunning := false, backend := ProcessRunning))
  }

  // ---- BacktraceGenerator ----

  function Unlock(l: Local): Local {
    if l.g.hasLockFile && l.g.isLocked then Local(l.g.(isLocked := false), false) else l
  }

  function ResetProcessAndUnlock(l: Local): Local {
    Unlock(l.(g := l.g.(proc := NoProcess, temp := false)))
  }

  /** A run is over: the new state is announced and the manager told. */
  function Settle(l: Local, state: State): Local {
    l.(g := l.g.(state := state, manager := DebuggerFinished(l.g.manager)))
  }

  function Start(l: Local, usable: bool): Local
    requires l.g.proc == NoProcess && !l.g.temp
  {
    var m := l.(g := l.g.(timedOut := false));
    if usable then m.(g := m.g.(state := Loading, prepareAsked := true)) else Settle(m, FailedToStart)
  }

  function StartProcess(l: Local): Local
    requires l.g.proc == NoProcess && !l.g.temp && l.g.state == Loading
  {
    l.(g := l.g.(manager := DebuggerStarting(l.g.manager), fenceAsked := true))
  }

  function SetBackendPrepared(l: Local): Local
    requires l.g.proc == NoProcess && !l.g.temp && l.g.state == Loading
  {
    var m := l.(g := l.g.(prepareAsked := false));
    if !m.g.hasLockFile || m.g.isLocked then StartProcess(m)
    else if m.g.watcher != NoWatcher then m
    else if m.held then m.(g := m.g.(watcher := Waiting))
    else StartProcess(Local(m.g.(isLocked := true), true))
  }

  function SetBackendFailedToPrepare(l: Local): Local
    requires l.g.proc == NoProcess && !l.g.temp
  {
    Settle(l.(g := l.g.(prepareAsked := false)), FailedToPrepare)
  }

  /** The waiting thread's tryLock succeeds. */
  function WaitAcquires(l: Local): Local {
    Local(l.g.(watcher := Acquired, isLocked := true), true)
  }

  /** The future's finished signal: the result of tryLock is not looked at. */
  function WaitFinished(l: Local): Local
    requires l.g.proc == NoProcess && !l.g.temp && l.g.state == Loading
  {
    StartProcess(l.(g := l.g.(timedOut := l.g.watcher == GaveUp, watcher := NoWatcher)))
  }

  function StartProcessInternal(l: Local): Local {
    l.(g := l.g.(fenceAsked := false, proc := Starting, temp := true))
  }

  function ProcessExited(l: Local, ok: bool, highPressure: bool): Local {
    var m := ResetProcessAndUnlock(l);
    Settle(m, if ok then Loaded else if highPressure then MemoryPressure else Failed)
  }

  /** The session forgets a process that had an error, dead or alive. */
  function Discarded(l: Local, error: ProcessError): Local {
    ResetProcessAndUnlock(l.(g := l.g.(lingering := l.g.lingering || error.LeavesProcess())))
  }

  function ErrorOccurred(l: Local, error: ProcessError, highPressure: bool): Local {
    if l.g.proc == NoProcess then l
    else
      Settle(Discarded(l, error),
             if highPressure then MemoryPressure
             else if error.ErrorFailedToStart? then FailedToStart
             else Failed)
  }

  /** lldb has announced that it detached: a process still there half a second after terminate() is killed, not waited
      for, and counts as exited. (One that ends in time reports its exit itself.) */
  function Detached(l: Local): Local {
    ProcessExited(l.(g := l.g.(lingering := true)), true, false)
  }

  /** The generator's destructor: only a Running debugger is terminated, and if it does not finish within ten seconds it
      is killed and left to deleteLater(); the lock is freed in any case. */
  function GeneratorDestroyed(l: Local, finishes: bool): Local {
    Unlock(if l.g.proc == Running
           then l.(g := l.g.(proc := NoProcess, lingering := l.g.lingering || !finishes, temp := false))
           else l)
  }

  /** The backend's destructor continues the process, the manager's takes the generator along. */
  function Destroyed(l: Local, finishes: bool): Local {
    var m := GeneratorDestroyed(l.(g := l.g.(manager := ContinueAttached(l.g.manager))), finishes);
    m.(g := m.g.(gone := true, prepareAsked := false, fenceAsked := false))
  }

  // ---- Events ----

  datatype Event =
    | EvStart(usable: bool)
    | EvPrepared
    | EvFailedToPrepare
    | EvWaitAcquires
    | EvWaitTimesOut
    | EvWaitFinished
    | EvFenceLoaded
    | EvProcessStarted
    | EvExited(ok: bool, highPressure: bool)
    | EvError(error: ProcessError, highPressure: bool)
    | EvStopTimer
    | EvDeferredDelete
    | EvDetached
    | EvDestroyed(finishes: bool)

  /** What the surroundings may do: start outside Loading, answer each request once, and report about a live process. */
  predicate Enabled(l: Local, e: Event) {
    && (l.g.gone ==> e.EvDeferredDelete?)
    && match e
       case EvStart(_) => l.g.state != Loading
       case EvPrepared => l.g.prepareAsked
       case EvFailedToPrepare => l.g.prepareAsked
       case EvWaitAcquires => l.g.watcher == Waiting && !l.held
       case EvWaitTimesOut => l.g.watcher == Waiting
       case EvWaitFinished => l.g.watcher == Acquired || l.g.watcher == GaveUp
       case EvFenceLoaded => l.g.fenceAsked
       case EvProcessStarted => l.g.proc == Starting
       case EvExited(_, _) => l.g.proc != NoProcess
       case EvError(_, _) => l.g.proc != NoProcess
       case EvStopTimer => true
       case EvDeferredDelete => l.g.lingering
       case EvDetached => l.g.proc == Running
       case EvDestroyed(_) => l.g.watcher == NoWatcher
  }

  /** Exactly one party owes the session its next move while it is Loading, and nobody does otherwise. */
  function Owed(g: Generator): nat {
    (if g.prepareAsked then 1 else 0) + (if g.watcher != NoWatcher then 1 else 0)
    + (if g.fenceAsked then 1 else 0) + (if g.proc != NoProcess then 1 else 0)
  }

  predicate HasRun(g: Generator) {
    g.fenceAsked || g.proc != NoProcess
  }

  predicate LockDiscipline(g: Generator) {
    && (g.isLocked ==> g.hasLockFile && (g.watcher == Acquired || HasRun(g)))
    && (g.watcher == Acquired ==> g.isLocked)
    && (g.watcher != NoWatcher ==> g.hasLockFile)
    && (HasRun(g) && g.hasLockFile && !g.isLocked ==> g.timedOut)
  }

  predicate BackendAgrees(m: Manager) {
    && (m.stopped <==> m.backend == ProcessStopped)
    && (m.debuggerRunning <==> m.backend == DebuggerRunning)
  }

  predicate Inv(g: Generator) {
    if g.gone then
      !g.isLocked && !g.manager.stopped && g.proc != Running && g.watcher == NoWatcher
    else
      && Owed(g) == (if g.state == Loading then 1 else 0)
      && (g.temp <==> g.proc != NoProcess)
      && LockDiscipline(g)
      && BackendAgrees(g.manager)
      && (g.manager.debuggerRunning <==> HasRun(g))
  }

  /** A crash of the debugger is reported twice: by the error signal and, at once, by the finished signal. */
  function React(l: Local, e: Event): Local
    requires Inv(l.g) && Enabled(l, e)
  {
    match e
    case EvStart(usable) => Start(l, usable)
    case EvPrepared => SetBackendPrepared(l)
    case EvFailedToPrepare => SetBackendFailedToPrepare(l)
    case EvWaitAcquires => WaitAcquires(l)
    case EvWaitTimesOut => l.(g := l.g.(watcher := GaveUp))
    case EvWaitFinished => WaitFinished(l)
    case EvFenceLoaded => StartProcessInternal(l)
    case EvProcessStarted => l.(g := l.g.(proc := Running))
    case EvExited(ok, highPressure) => ProcessExited(l, ok, highPressure)
    case EvError(error, highPressure) =>
      var m := ErrorOccurred(l, error, highPressure);
      if error.ErrorCrashed? then ProcessExited(m, false, highPressure) else m
    case EvStopTimer => l.(g := l.g.(manager := StopAttached(l.g.manager)))
    case EvDeferredDelete => l.(g := l.g.(lingering := false))
    case EvDetached => Detached(l)
    case EvDestroyed(finishes) => Destroyed(l, finishes)
  }
}
