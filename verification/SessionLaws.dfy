/** Every event keeps a session's invariant and its manners towards the shared lock. */
module SessionLaws {
  import opened Session

  /** A generator takes the lock only while it is free, gives back only its own, and leaves it alone otherwise. */
  predicate LockManners(l: Local, r: Local) {
    && (r.g.isLocked && !l.g.isLocked ==> !l.held && r.held)
    && (!r.g.isLocked && l.g.isLocked ==> !r.held)
    && (r.g.isLocked == l.g.isLocked ==> r.held == l.held)
    && r.g.hasLockFile == l.g.hasLockFile
  }

  /** A session that is still there and agrees with the lock. */
  predicate Alive(l: Local) {
    !l.g.gone && Inv(l.g) && (l.g.isLocked ==> l.held)
  }

  predicate Kept(l: Local, r: Local) {
    Inv(r.g) && LockManners(l, r)
  }

  lemma StartKeeps(l: Local, usable: bool)
    requires Alive(l) && l.g.state != Loading
    ensures Kept(l, Start(l, usable))
  {
  }

  lemma PreparedKeeps(l: Local)
    requires Alive(l) && l.g.prepareAsked
    ensures Kept(l, SetBackendPrepared(l))
  {
  }

  lemma FailedToPrepareKeeps(l: Local)
    requires Alive(l) && l.g.prepareAsked
    ensures Kept(l, SetBackendFailedToPrepare(l))
  {
  }

  lemma WaitAcquiresKeeps(l: Local)
    requires Alive(l) && l.g.watcher == Waiting && !l.held
    ensures Kept(l, WaitAcquires(l))
  {
  }

  lemma WaitFinishedKeeps(l: Local)
    requires Alive(l) && (l.g.watcher == Acquired || l.g.watcher == GaveUp)
    ensures Kept(l, WaitFinished(l))
  {
  }

  lemma FenceLoadedKeeps(l: Local)
    requires Alive(l) && l.g.fenceAsked
    ensures Kept(l, StartProcessInternal(l))
  {
  }

  lemma ExitKeeps(l: Local, ok: bool, highPressure: bool)
    requires Alive(l) && l.g.proc != NoProcess
    ensures Kept(l, ProcessExited(l, ok, highPressure))
  {
  }

  lemma ErrorKeeps(l: Local, error: ProcessError, highPressure: bool)
    requires Alive(l) && l.g.proc != NoProcess
    ensures Kept(l, ErrorOccurred(l, error, highPressure))
  {
  }

  lemma CrashKeeps(l: Local, highPressure: bool)
    requires Alive(l) && l.g.proc != NoProcess
    ensures Kept(l, ProcessExited(ErrorOccurred(l, ErrorCrashed, highPressure), false, highPressure))
  {
  }

  lemma DetachKeeps(l: Local)
    requires Alive(l) && l.g.proc == Running
    ensures Kept(l, Detached(l))
  {
  }

  lemma DestroyKeeps(l: Local, finishes: bool)
    requires Alive(l) && l.g.watcher == NoWatcher
    ensures Kept(l, Destroyed(l, finishes))
  {
  }

  lemma TimeOutKeeps(l: Local)
    requires Alive(l) && l.g.watcher == Waiting
    ensures Kept(l, l.(g := l.g.(watcher := GaveUp)))
  {
  }

  lemma ProcessStartedKeeps(l: Local)
    requires Alive(l) && l.g.proc == Starting
    ensures Kept(l, l.(g := l.g.(proc := Running)))
  {
  }

  lemma StopTimerKeeps(l: Local)
    requires Alive(l)
    ensures Kept(l, l.(g := l.g.(manager := StopAttached(l.g.manager))))
  {
  }

  lemma DeferredDeleteKeeps(l: Local)
    requires Inv(l.g) && l.g.lingering
    ensures Kept(l, l.(g := l.g.(lingering := false)))
  {
  }

  /** Every event keeps the invariant. That the source's assertions hold is part of React being well defined. */
  lemma ReactKeeps(l: Local, e: Event)
    requires Inv(l.g) && (l.g.isLocked ==> l.held) && Enabled(l, e)
    ensures Kept(l, React(l, e))
  {
    match e
    case EvStart(usable) => StartKeeps(l, usable);
    case EvPrepared => PreparedKeeps(l);
    case EvFailedToPrepare => FailedToPrepareKeeps(l);
    case EvWaitAcquires => WaitAcquiresKeeps(l);
    case EvWaitTimesOut => TimeOutKeeps(l);
    case EvWaitFinished => WaitFinishedKeeps(l);
    case EvFenceLoaded => FenceLoadedKeeps(l);
    case EvProcessStarted => ProcessStartedKeeps(l);
    case EvExited(ok, highPressure) => ExitKeeps(l, ok, highPressure);
    case EvError(error, highPressure) =>
      if error.ErrorCrashed? {
        CrashKeeps(l, highPressure);
      } else {
        ErrorKeeps(l, error, highPressure);
      }
    case EvStopTimer => StopTimerKeeps(l);
    case EvDeferredDelete => DeferredDeleteKeeps(l);
    case EvDetached => DetachKeeps(l);
    case EvDestroyed(finishes) => DestroyKeeps(l, finishes);
  }

  /** A debugger still starting outlives its DrKonqi: the destructor frees the lock, but ends only a running process. */
  lemma DestroyedWhileStarting(l: Local, finishes: bool)
    requires Alive(l) && l.g.proc == Starting
    ensures Enabled(l, EvDestroyed(finishes))
    ensures var r := React(l, EvDestroyed(finishes));
            r.g.proc == Starting && !r.g.isLocked && (l.g.isLocked ==> !r.held)
  {
  }
}
