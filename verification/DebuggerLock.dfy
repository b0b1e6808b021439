/** Any number of DrKonqi processes around the one debugger.lock file, in any interleaving. */
module DebuggerLock {
  import opened Sequences
  import opened Session
  import opened SessionLaws

  datatype System = System(gens: map<nat, Generator>, holder: Option<nat>)

  function View(s: System, i: nat): Local
    requires i in s.gens
  {
    Local(s.gens[i], s.holder.Some?)
  }

  predicate Initial(s: System) {
    s.holder == None && forall i :: i in s.gens ==> s.gens[i] == FreshGenerator(s.gens[i].hasLockFile)
  }

  /** Each session is in order, and the lock file belongs to exactly the generator that thinks it does. */
  predicate SystemInv(s: System) {
    && (forall i :: i in s.gens ==> Inv(s.gens[i]))
    && (forall i :: i in s.gens ==> (s.gens[i].isLocked <==> s.holder == Some(i)))
    && (s.holder.Some? ==> s.holder.value in s.gens)
  }

  predicate Possible(s: System, i: nat, e: Event) {
    i in s.gens && Enabled(View(s, i), e)
  }

  /** Process i handles one event; the lock changes hands only through it. */
  function Step(s: System, i: nat, e: Event): System
    requires SystemInv(s) && Possible(s, i, e)
  {
    var r := React(View(s, i), e);
    System(s.gens[i := r.g], if !r.held then None else if s.holder.Some? then s.holder else Some(i))
  }

  predicate SameLockFiles(s: System, t: System) {
    t.gens.Keys == s.gens.Keys && forall i :: i in s.gens ==> t.gens[i].hasLockFile == s.gens[i].hasLockFile
  }

  /** A session that kept its manners leaves the whole in order. */
  lemma Replaced(s: System, i: nat, r: Local, holder: Option<nat>)
    requires SystemInv(s) && i in s.gens && Kept(View(s, i), r)
    requires holder == if !r.held then None else if s.holder.Some? then s.holder else Some(i)
    ensures SystemInv(System(s.gens[i := r.g], holder)) && SameLockFiles(s, System(s.gens[i := r.g], holder))
  {
    var t := System(s.gens[i := r.g], holder);
    forall j | j in t.gens
      ensures Inv(t.gens[j]) && (t.gens[j].isLocked <==> t.holder == Some(j))
    {
      if j != i {
        assert t.gens[j] == s.gens[j];
      }
    }
  }

  lemma StepKeeps(s: System, i: nat, e: Event)
    requires SystemInv(s) && Possible(s, i, e)
    ensures SystemInv(Step(s, i, e)) && SameLockFiles(s, Step(s, i, e))
  {
    ReactKeeps(View(s, i), e);
    Replaced(s, i, React(View(s, i), e), Step(s, i, e).holder);
  }

  /** t is reached from s by the given events of the given processes. (SystemInv is no restriction here:
      it holds initially, and every Step keeps it.) */
  predicate Run(s: System, trace: seq<(nat, Event)>, t: System)
    decreases |trace|
  {
    if trace == [] then s == t
    else
      && SystemInv(s) && Possible(s, trace[0].0, trace[0].1)
      && Run(Step(s, trace[0].0, trace[0].1), trace[1..], t)
  }

  lemma InitialInv(s: System)
    requires Initial(s)
    ensures SystemInv(s)
  {
    forall i | i in s.gens
      ensures Inv(s.gens[i])
    {
      assert s.gens[i] == FreshGenerator(s.gens[i].hasLockFile);
    }
  }

  lemma {:induction false} RunKeeps(s: System, trace: seq<(nat, Event)>, t: System)
    requires SystemInv(s) && Run(s, trace, t)
    ensures SystemInv(t) && SameLockFiles(s, t)
    decreases |trace|
  {
    if trace != [] {
      var i, e := trace[0].0, trace[0].1;
      StepKeeps(s, i, e);
      RunKeeps(Step(s, i, e), trace[1..], t);
    }
  }

  /** A debugger runs, whether or not the session still knows it. */
  predicate HasDebugger(g: Generator) {
    g.proc != NoProcess || g.lingering
  }

  /** A debugger that runs without the lock: the wait timed out, there was no lock file to wait for, its DrKonqi was
      destroyed while the process was still starting, or it was discarded without waiting for its end. */
  predicate Unguarded(g: Generator) {
    g.timedOut || !g.hasLockFile || g.gone || g.lingering
  }

  /** In every run from the start, a live debugger belongs to the lock holder or is unguarded. */
  lemma DebuggerHoldsLock(s: System, trace: seq<(nat, Event)>, t: System, i: nat)
    requires Initial(s) && Run(s, trace, t)
    requires i in t.gens && HasDebugger(t.gens[i])
    ensures t.holder == Some(i) || Unguarded(t.gens[i])
  {
    InitialInv(s);
    RunKeeps(s, trace, t);
  }

  /** So two debuggers run at the same time only if one of them is unguarded. */
  lemma OneDebuggerAtATime(s: System, trace: seq<(nat, Event)>, t: System, i: nat, j: nat)
    requires Initial(s) && Run(s, trace, t)
    requires i in t.gens && j in t.gens && i != j && HasDebugger(t.gens[i]) && HasDebugger(t.gens[j])
    ensures Unguarded(t.gens[i]) || Unguarded(t.gens[j])
  {
    DebuggerHoldsLock(s, trace, t, i);
    DebuggerHoldsLock(s, trace, t, j);
  }

  /** A live process or a held lock means Loading; in every other state a retry finds everything released. */
  lemma RetryIsPossible(s: System, trace: seq<(nat, Event)>, t: System, i: nat, usable: bool)
    requires Initial(s) && Run(s, trace, t)
    requires i in t.gens && !t.gens[i].gone && t.gens[i].state != Loading
    ensures t.gens[i].proc == NoProcess && !t.gens[i].temp && t.holder != Some(i) && !t.gens[i].manager.debuggerRunning
    ensures Possible(t, i, EvStart(usable))
  {
    InitialInv(s);
    RunKeeps(s, trace, t);
  }

  /** A Loading session is never stuck: somebody owes it an event. */
  lemma LoadingGoesOn(s: System, trace: seq<(nat, Event)>, t: System, i: nat)
    requires Initial(s) && Run(s, trace, t)
    requires i in t.gens && !t.gens[i].gone && t.gens[i].state == Loading
    ensures exists e :: Possible(t, i, e) && MovesOn(e)
  {
    InitialInv(s);
    RunKeeps(s, trace, t);
    var e := NextMove(View(t, i));
    assert Possible(t, i, e);
  }

  predicate MovesOn(e: Event) {
    !e.EvStopTimer? && !e.EvDeferredDelete? && !e.EvDestroyed?
  }

  /** An event owed to a Loading session. */
  function NextMove(l: Local): (e: Event)
    requires Inv(l.g) && !l.g.gone && l.g.state == Loading
    ensures Enabled(l, e) && MovesOn(e)
  {
    if l.g.prepareAsked then EvPrepared
    else if l.g.watcher == Waiting then EvWaitTimesOut
    else if l.g.watcher != NoWatcher then EvWaitFinished
    else if l.g.fenceAsked then EvFenceLoaded
    else EvExited(true, false)
  }

  /** The crashed process is signal-stopped exactly when the backend says so, never while its debugger runs,
      and is running again once DrKonqi is gone. */
  lemma StoppedExactlyWhenNoted(s: System, trace: seq<(nat, Event)>, t: System, i: nat)
    requires Initial(s) && Run(s, trace, t)
    requires i in t.gens
    ensures !t.gens[i].gone ==> (t.gens[i].manager.stopped <==> t.gens[i].manager.backend == ProcessStopped)
    ensures t.gens[i].proc != NoProcess || t.gens[i].gone ==> !t.gens[i].manager.stopped
    ensures !t.gens[i].gone && t.gens[i].manager.debuggerRunning ==>
              t.gens[i].state == Loading && !t.gens[i].manager.stopped
  {
    InitialInv(s);
    RunKeeps(s, trace, t);
  }
}
