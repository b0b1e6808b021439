/** The session's transitions written out field by field, as a second definition of what every event does. */
module SessionTable {
  import opened Session

  /** The crashed process at the mercy of a debugger, and stopped after it. */
  const DEBUGGED := Manager(true, DebuggerRunning, false)
  const STOPPED := Manager(false, ProcessStopped, true)
  const CONTINUED := Manager(false, ProcessRunning, false)

  /** The end of a run: process, temporary file and lock are gone, and the crashed process is stopped again. */
  function Ended(l: Local, state: State, leftAlive: bool): Local {
    Local(l.g.(state := state, proc := NoProcess, lingering := l.g.lingering || leftAlive, temp := false,
               isLocked := false, manager := STOPPED),
          l.held && !l.g.isLocked)
  }

  /** A debugger is let off as soon as the memory fence has answered. */
  function LetOff(g: Generator): Generator {
    g.(fenceAsked := true, manager := DEBUGGED)
  }

  function OnPrepared(l: Local): Local {
    var g := l.g.(prepareAsked := false);
    if !g.hasLockFile then Local(LetOff(g), l.held)
    else if l.held then Local(g.(watcher := Waiting), true)
    else Local(LetOff(g.(isLocked := true)), true)
  }

  function OnDestroyed(l: Local, finishes: bool): Local {
    var g := l.g.(gone := true, prepareAsked := false, fenceAsked := false, isLocked := false,
                  manager := if l.g.manager.stopped then CONTINUED else l.g.manager);
    Local(if g.proc == Running then g.(proc := NoProcess, temp := false, lingering := g.lingering || !finishes) else g,
          l.held && !l.g.isLocked)
  }

  function StateOnError(error: ProcessError, highPressure: bool): State {
    if highPressure then MemoryPressure else if error == ErrorFailedToStart then FailedToStart else Failed
  }

  function Expected(l: Local, e: Event): Local {
    var g := l.g;
    match e
    case EvStart(usable) =>
      l.(g := if usable then g.(timedOut := false, state := Loading, prepareAsked := true)
              else g.(timedOut := false, state := FailedToStart, manager := STOPPED))
    case EvPrepared => OnPrepared(l)
    case EvFailedToPrepare => l.(g := g.(prepareAsked := false, state := FailedToPrepare, manager := STOPPED))
    case EvWaitAcquires => Local(g.(watcher := Acquired, isLocked := true), true)
    case EvWaitTimesOut => l.(g := g.(watcher := GaveUp))
    case EvWaitFinished => l.(g := LetOff(g.(watcher := NoWatcher, timedOut := g.watcher == GaveUp)))
    case EvFenceLoaded => l.(g := g.(fenceAsked := false, proc := Starting, temp := true))
    case EvProcessStarted => l.(g := g.(proc := Running))
    case EvExited(ok, highPressure) =>
      Ended(l, if ok then Loaded else if highPressure then MemoryPressure else Failed, false)
    case EvError(error, highPressure) =>
      Ended(l, StateOnError(error, highPressure), error != ErrorFailedToStart && error != ErrorCrashed)
    case EvDetached => Ended(l, Loaded, true)
    case EvStopTimer => l.(g := if g.manager.debuggerRunning then g else g.(manager := STOPPED))
    case EvDeferredDelete => l.(g := g.(lingering := false))
    case EvDestroyed(finishes) => OnDestroyed(l, finishes)
  }

  predicate InOrder(l: Local) {
    Inv(l.g) && (l.g.isLocked ==> l.held)
  }

  lemma StartIs(l: Local, usable: bool)
    requires InOrder(l) && Enabled(l, EvStart(usable))
    ensures React(l, EvStart(usable)) == Expected(l, EvStart(usable))
  {
  }

  lemma PreparedIs(l: Local)
    requires InOrder(l) && Enabled(l, EvPrepared)
    ensures React(l, EvPrepared) == Expected(l, EvPrepared)
  {
  }

  lemma WaitFinishedIs(l: Local)
    requires InOrder(l) && Enabled(l, EvWaitFinished)
    ensures React(l, EvWaitFinished) == Expected(l, EvWaitFinished)
  {
  }

  lemma ResetIs(l: Local)
    requires l.g.isLocked ==> l.g.hasLockFile
    ensures ResetProcessAndUnlock(l)
         == Local(l.g.(proc := NoProcess, temp := false, isLocked := false), l.held && !l.g.isLocked)
  {
  }

  lemma ExitIs(l: Local, ok: bool, highPressure: bool)
    requires l.g.isLocked ==> l.g.hasLockFile
    ensures ProcessExited(l, ok, highPressure)
         == Ended(l, if ok then Loaded else if highPressure then MemoryPressure else Failed, false)
  {
    ResetIs(l);
  }

  lemma ErrorIs(l: Local, error: ProcessError, highPressure: bool)
    requires (l.g.isLocked ==> l.g.hasLockFile) && l.g.proc != NoProcess
    ensures ErrorOccurred(l, error, highPressure)
         == Ended(l, StateOnError(error, highPressure), error != ErrorFailedToStart && error != ErrorCrashed)
  {
    ResetIs(l.(g := l.g.(lingering := l.g.lingering || error.LeavesProcess())));
  }

  lemma CrashIs(l: Local, highPressure: bool)
    requires (l.g.isLocked ==> l.g.hasLockFile) && l.g.proc != NoProcess
    ensures ProcessExited(ErrorOccurred(l, ErrorCrashed, highPressure), false, highPressure)
         == Ended(l, StateOnError(ErrorCrashed, highPressure), false)
  {
    ErrorIs(l, ErrorCrashed, highPressure);
    ExitIs(ErrorOccurred(l, ErrorCrashed, highPressure), false, highPressure);
  }

  lemma DetachedIs(l: Local)
    requires l.g.isLocked ==> l.g.hasLockFile
    ensures Detached(l) == Ended(l, Loaded, true)
  {
    ExitIs(l.(g := l.g.(lingering := true)), true, false);
  }

  lemma DestroyedIs(l: Local, finishes: bool)
    requires InOrder(l) && Enabled(l, EvDestroyed(finishes))
    ensures Destroyed(l, finishes) == OnDestroyed(l, finishes)
  {
  }

  lemma OtherEvents(l: Local, e: Event)
    requires InOrder(l) && Enabled(l, e)
    requires e.EvFailedToPrepare? || e.EvWaitAcquires? || e.EvWaitTimesOut? || e.EvFenceLoaded? || e.EvProcessStarted?
             || e.EvStopTimer? || e.EvDeferredDelete?
    ensures React(l, e) == Expected(l, e)
  {
  }

  /** Every event does to every session in order exactly what the table says. */
  lemma ReactIsExpected(l: Local, e: Event)
    requires InOrder(l) && Enabled(l, e)
    ensures React(l, e) == Expected(l, e)
  {
    match e
    case EvStart(usable) => StartIs(l, usable);
    case EvPrepared => PreparedIs(l);
    case EvWaitFinished => WaitFinishedIs(l);
    case EvExited(ok, highPressure) => ExitIs(l, ok, highPressure);
    case EvError(error, highPressure) =>
      if error.ErrorCrashed? {
        CrashIs(l, highPressure);
      } else {
        ErrorIs(l, error, highPressure);
      }
    case EvDetached => DetachedIs(l);
    case EvDestroyed(finishes) => DestroyedIs(l, finishes);
    case _ => OtherEvents(l, e);
  }
}
