/** When one debugger at a time can be relied on: the exact condition, over all runs. */
module DebuggerExclusion {
  import opened Sequences
  import opened Session
  import opened DebuggerLock

  /** What the surroundings may do to the sessions, beyond what they do every day. */
  datatype Surroundings = Surroundings(
    waitsTimeOut: bool,           // a wait for the lock may run into its time limit
    destroyedWhileStarting: bool, // DrKonqi may be destroyed while its debugger is starting
    survivableErrors: bool,       // QProcess may report an error that leaves the debugger running
    outlivesDestructor: bool,     // a debugger may ignore terminate() for the destructor's ten seconds
    outlivesDetach: bool)         // lldb may detach and ignore terminate() for half a second

  predicate Allowed(p: Surroundings, g: Generator, e: Event) {
    && (e.EvWaitTimesOut? ==> p.waitsTimeOut)
    && (e.EvDestroyed? && g.proc == Starting ==> p.destroyedWhileStarting)
    && (e.EvError? && e.error.LeavesProcess() ==> p.survivableErrors)
    && (e.EvDestroyed? && g.proc == Running && !e.finishes ==> p.outlivesDestructor)
    && (e.EvDetached? ==> p.outlivesDetach)
  }

  /** A Run of nothing but allowed events. */
  predicate RunUnder(p: Surroundings, s: System, trace: seq<(nat, Event)>, t: System)
    decreases |trace|
  {
    if trace == [] then s == t
    else
      && SystemInv(s) && Possible(s, trace[0].0, trace[0].1)
      && Allowed(p, s.gens[trace[0].0], trace[0].1)
      && RunUnder(p, Step(s, trace[0].0, trace[0].1), trace[1..], t)
  }

  /** No two processes have a debugger, and none has two. */
  predicate AtMostOne(s: System) {
    && (forall i, j :: i in s.gens && j in s.gens && HasDebugger(s.gens[i]) && HasDebugger(s.gens[j]) ==> i == j)
    && (forall i :: i in s.gens ==> s.gens[i].proc == NoProcess || !s.gens[i].lingering)
  }

  ghost predicate Exclusive(p: Surroundings, s: System) {
    forall trace, t :: RunUnder(p, s, trace, t) ==> AtMostOne(t)
  }

  predicate AllHaveLockFiles(s: System) {
    forall i :: i in s.gens ==> s.gens[i].hasLockFile
  }

  /** No debugger gets around the lock or outlives it. */
  predicate Calm(p: Surroundings) {
    !p.waitsTimeOut && !Outlives(p)
  }

  predicate Outlives(p: Surroundings) {
    p.destroyedWhileStarting || p.survivableErrors || p.outlivesDestructor || p.outlivesDetach
  }

  // ---- Calm surroundings keep every debugger under the lock ----

  predicate Guarded(g: Generator) {
    && g.hasLockFile && !g.timedOut && !g.lingering && g.watcher != GaveUp
    && (g.gone ==> g.proc == NoProcess)
  }

  predicate AllGuarded(s: System) {
    forall i :: i in s.gens ==> Guarded(s.gens[i])
  }

  lemma ReactGuards(p: Surroundings, l: Local, e: Event)
    requires Inv(l.g) && Enabled(l, e) && Guarded(l.g) && Calm(p) && Allowed(p, l.g, e)
    ensures Guarded(React(l, e).g)
  {
  }

  lemma StepGuards(p: Surroundings, s: System, i: nat, e: Event)
    requires SystemInv(s) && Possible(s, i, e) && AllGuarded(s) && Calm(p) && Allowed(p, s.gens[i], e)
    ensures AllGuarded(Step(s, i, e))
  {
    ReactGuards(p, View(s, i), e);
  }

  lemma {:induction false} RunGuards(p: Surroundings, s: System, trace: seq<(nat, Event)>, t: System)
    requires SystemInv(s) && RunUnder(p, s, trace, t) && AllGuarded(s) && Calm(p)
    ensures SystemInv(t) && AllGuarded(t)
    decreases |trace|
  {
    if trace != [] {
      var i, e := trace[0].0, trace[0].1;
      StepKeeps(s, i, e);
      StepGuards(p, s, i, e);
      RunGuards(p, Step(s, i, e), trace[1..], t);
    }
  }

  lemma GuardedHoldsLock(s: System, i: nat)
    requires SystemInv(s) && AllGuarded(s) && i in s.gens && HasDebugger(s.gens[i])
    ensures s.holder == Some(i)
  {
  }

  lemma CalmIsExclusive(p: Surroundings, s: System)
    requires Initial(s) && AllHaveLockFiles(s) && Calm(p)
    ensures Exclusive(p, s)
  {
    InitialInv(s);
    forall trace, t | RunUnder(p, s, trace, t)
      ensures AtMostOne(t)
    {
      RunGuards(p, s, trace, t);
      forall i | i in t.gens && HasDebugger(t.gens[i])
        ensures t.holder == Some(i)
      {
        GuardedHoldsLock(t, i);
      }
    }
  }

  // ---- Each exception is real ----

  /** One process handles these events while all others rest. */
  predicate Alone(p: Surroundings, l: Local, es: seq<Event>, r: Local)
    decreases |es|
  {
    if es == [] then l == r
    else
      && Inv(l.g) && (l.g.isLocked ==> l.held) && Enabled(l, es[0]) && Allowed(p, l.g, es[0])
      && Alone(p, React(l, es[0]), es[1..], r)
  }

  lemma RunUnderCons(p: Surroundings, s: System, i: nat, e: Event, trace: seq<(nat, Event)>, t: System)
    requires SystemInv(s) && Possible(s, i, e) && Allowed(p, s.gens[i], e) && RunUnder(p, Step(s, i, e), trace, t)
    ensures RunUnder(p, s, [(i, e)] + trace, t)
  {
    assert ([(i, e)] + trace)[1..] == trace;
  }

  ghost predicate CanReach(p: Surroundings, s: System, t: System) {
    exists trace :: RunUnder(p, s, trace, t)
  }

  /** Whatever t goes on to, s can get there by way of t. */
  ghost predicate Reached(p: Surroundings, s: System, t: System) {
    SystemInv(t) && forall u :: CanReach(p, t, u) ==> CanReach(p, s, u)
  }

  lemma StepReaches(p: Surroundings, t: System, i: nat, e: Event, u: System)
    requires SystemInv(t) && Possible(t, i, e) && Allowed(p, t.gens[i], e) && CanReach(p, Step(t, i, e), u)
    ensures CanReach(p, t, u)
  {
    var trace :| RunUnder(p, Step(t, i, e), trace, u);
    RunUnderCons(p, t, i, e, trace, u);
  }

  lemma ReachedNext(p: Surroundings, s: System, t: System, i: nat, e: Event)
    requires Reached(p, s, t) && Possible(t, i, e) && Allowed(p, t.gens[i], e)
    ensures Reached(p, s, Step(t, i, e))
  {
    StepKeeps(t, i, e);
    forall u | CanReach(p, Step(t, i, e), u)
      ensures CanReach(p, t, u)
    {
      StepReaches(p, t, i, e, u);
    }
  }

  lemma ReachedIsReachable(p: Surroundings, s: System, t: System)
    requires Reached(p, s, t)
    ensures CanReach(p, s, t)
  {
    assert RunUnder(p, t, [], t);
  }

  /** Its own step is all that changes for process i. */
  lemma StepIsOwn(t: System, i: nat, e: Event, g: Generator)
    requires SystemInv(t) && Possible(t, i, e)
    ensures View(Step(t, i, e), i) == React(View(t, i), e)
    ensures Step(t, i, e).gens[i := g] == t.gens[i := g]
  {
  }

  lemma ActsFirst(p: Surroundings, s: System, t: System, i: nat, es: seq<Event>, r: Local) returns (v: System)
    requires Reached(p, s, t) && i in t.gens && es != [] && Alone(p, View(t, i), es, r)
    ensures Reached(p, s, v) && i in v.gens && Alone(p, View(v, i), es[1..], r)
    ensures v.gens[i := r.g] == t.gens[i := r.g]
  {
    v := Step(t, i, es[0]);
    ReachedNext(p, s, t, i, es[0]);
    StepIsOwn(t, i, es[0], r.g);
  }

  /** What a process does alone it can do in any reachable system. */
  lemma {:induction false} Acts(p: Surroundings, s: System, t: System, i: nat, es: seq<Event>, r: Local)
    returns (u: System)
    requires Reached(p, s, t) && i in t.gens && Alone(p, View(t, i), es, r)
    ensures Reached(p, s, u) && u.gens == t.gens[i := r.g] && u.holder.Some? == r.held
    decreases |es|
  {
    if es == [] {
      u := t;
      assert t.gens == t.gens[i := r.g];
    } else {
      var v := ActsFirst(p, s, t, i, es, r);
      u := Acts(p, s, v, i, es[1..], r);
    }
  }

  lemma AloneNext(p: Surroundings, l: Local, e: Event, es: seq<Event>, r: Local)
    requires Inv(l.g) && (l.g.isLocked ==> l.held) && Enabled(l, e) && Allowed(p, l.g, e)
    requires Alone(p, React(l, e), es, r)
    ensures Alone(p, l, [e] + es, r)
  {
    assert ([e] + es)[1..] == es;
  }

  /** A session whose debugger is starting. */
  function Debugging(hasLockFile: bool): Generator {
    FreshGenerator(hasLockFile).(state := Loading, proc := Starting, temp := true,
                                 manager := Manager(true, DebuggerRunning, false))
  }

  function Preparing(hasLockFile: bool): Generator {
    FreshGenerator(hasLockFile).(state := Loading, prepareAsked := true)
  }

  function Fenced(hasLockFile: bool): Generator {
    Debugging(hasLockFile).(proc := NoProcess, temp := false, fenceAsked := true)
  }

  const WAITING := FreshGenerator(true).(state := Loading, watcher := Waiting)
  const WAITED := WAITING.(watcher := GaveUp)

  const LOAD := [EvFenceLoaded]
  const PREPARE := [EvPrepared] + LOAD
  const BEGINNING := [EvStart(true)] + PREPARE

  const FINISH_WAIT := [EvWaitFinished] + LOAD
  const VAIN := [EvWaitTimesOut] + FINISH_WAIT
  const IMPATIENT := [EvStart(true)] + ([EvPrepared] + VAIN)

  lemma Prepares(p: Surroundings, hasLockFile: bool, held: bool, es: seq<Event>, r: Local)
    requires Alone(p, Local(Preparing(hasLockFile), held), es, r)
    ensures Alone(p, Local(FreshGenerator(hasLockFile), held), [EvStart(true)] + es, r)
  {
    AloneNext(p, Local(FreshGenerator(hasLockFile), held), EvStart(true), es, r);
  }

  lemma Loads(p: Surroundings, g: Generator, held: bool)
    requires Inv(g) && (g.isLocked ==> held) && !g.gone && g.fenceAsked
    ensures Alone(p, Local(g, held), LOAD, Local(g.(fenceAsked := false, proc := Starting, temp := true), held))
  {
    var r := React(Local(g, held), EvFenceLoaded);
    assert Alone(p, r, [], r);
    AloneNext(p, Local(g, held), EvFenceLoaded, [], r);
    assert [EvFenceLoaded] + [] == LOAD;
  }

  /** A free lock is taken, and nobody waits for a lock file that is missing. */
  lemma Begins(p: Surroundings, hasLockFile: bool, held: bool)
    requires hasLockFile ==> !held
    ensures Alone(p, Local(FreshGenerator(hasLockFile), held), BEGINNING,
                  Local(Debugging(hasLockFile).(isLocked := hasLockFile), held || hasLockFile))
  {
    var r := Local(Debugging(hasLockFile).(isLocked := hasLockFile), held || hasLockFile);
    Loads(p, Fenced(hasLockFile).(isLocked := hasLockFile), held || hasLockFile);
    AloneNext(p, Local(Preparing(hasLockFile), held), EvPrepared, LOAD, r);
    Prepares(p, hasLockFile, held, PREPARE, r);
  }

  lemma WaitsInVain(p: Surroundings)
    requires p.waitsTimeOut
    ensures Alone(p, Local(WAITING, true), VAIN, Local(Debugging(true).(timedOut := true), true))
  {
    var r := Local(Debugging(true).(timedOut := true), true);
    Loads(p, Fenced(true).(timedOut := true), true);
    AloneNext(p, Local(WAITED, true), EvWaitFinished, LOAD, r);
    AloneNext(p, Local(WAITING, true), EvWaitTimesOut, FINISH_WAIT, r);
  }

  lemma BeginsAfterTimeout(p: Surroundings)
    requires p.waitsTimeOut
    ensures Alone(p, Local(FreshGenerator(true), true), IMPATIENT, Local(Debugging(true).(timedOut := true), true))
  {
    var r := Local(Debugging(true).(timedOut := true), true);
    WaitsInVain(p);
    AloneNext(p, Local(Preparing(true), true), EvPrepared, VAIN, r);
    Prepares(p, true, true, [EvPrepared] + VAIN, r);
  }

  /** Events that take the lock from a starting debugger, but not its life. */
  function Ordeal(p: Surroundings): seq<Event>
    requires Outlives(p)
  {
    if p.destroyedWhileStarting then [EvDestroyed(true)]
    else if p.survivableErrors then [EvError(ErrorRead, false)]
    else [EvProcessStarted] + (if p.outlivesDestructor then [EvDestroyed(false)] else [EvDetached])
  }

  predicate Survivor(l: Local) {
    HasDebugger(l.g) && !l.held
  }

  const LOCKED := Debugging(true).(isLocked := true)

  lemma AloneOnce(p: Surroundings, l: Local, e: Event)
    requires Inv(l.g) && (l.g.isLocked ==> l.held) && Enabled(l, e) && Allowed(p, l.g, e)
    ensures Alone(p, l, [e], React(l, e))
  {
    AloneNext(p, l, e, [], React(l, e));
    assert [e] + [] == [e];
  }

  lemma StartingSurvives(p: Surroundings) returns (r: Local)
    requires p.destroyedWhileStarting || p.survivableErrors
    ensures Alone(p, Local(LOCKED, true), Ordeal(p), r) && Survivor(r)
  {
    var e := if p.destroyedWhileStarting then EvDestroyed(true) else EvError(ErrorRead, false);
    r := React(Local(LOCKED, true), e);
    AloneOnce(p, Local(LOCKED, true), e);
  }

  lemma RunningSurvives(p: Surroundings) returns (r: Local)
    requires p.outlivesDestructor || p.outlivesDetach
    requires !p.destroyedWhileStarting && !p.survivableErrors
    ensures Alone(p, Local(LOCKED, true), Ordeal(p), r) && Survivor(r)
  {
    var e := if p.outlivesDestructor then EvDestroyed(false) else EvDetached;
    var running := Local(LOCKED.(proc := Running), true);
    r := React(running, e);
    AloneOnce(p, running, e);
    AloneNext(p, Local(LOCKED, true), EvProcessStarted, [e], r);
  }

  lemma TwoMeet(p: Surroundings, s: System, t: System, i: nat, j: nat)
    requires Reached(p, s, t) && i in t.gens && j in t.gens && i != j
    requires HasDebugger(t.gens[i]) && HasDebugger(t.gens[j])
    ensures !Exclusive(p, s)
  {
    ReachedIsReachable(p, s, t);
    assert !AtMostOne(t);
  }

  lemma Starts(p: Surroundings, s: System)
    requires Initial(s)
    ensures Reached(p, s, s)
  {
    InitialInv(s);
  }

  /** The process without a lock file starts next to any other. */
  lemma MissingLockFileBreaks(p: Surroundings, s: System, i: nat, j: nat)
    requires Initial(s) && i in s.gens && j in s.gens && i != j && !s.gens[j].hasLockFile
    ensures !Exclusive(p, s)
  {
    Starts(p, s);
    Begins(p, s.gens[i].hasLockFile, false);
    var has := s.gens[i].hasLockFile;
    var t := Acts(p, s, s, i, BEGINNING, Local(Debugging(has).(isLocked := has), has));
    Begins(p, false, t.holder.Some?);
    var u := Acts(p, s, t, j, BEGINNING, Local(Debugging(false), t.holder.Some?));
    TwoMeet(p, s, u, i, j);
  }

  /** The first of two processes with lock files starts its debugger. */
  lemma FirstBegins(p: Surroundings, s: System, i: nat) returns (t: System)
    requires Initial(s) && i in s.gens && s.gens[i].hasLockFile
    ensures Reached(p, s, t) && t.gens == s.gens[i := Debugging(true).(isLocked := true)] && t.holder.Some?
  {
    Starts(p, s);
    Begins(p, true, false);
    t := Acts(p, s, s, i, BEGINNING, Local(Debugging(true).(isLocked := true), true));
  }

  lemma TimeoutBreaks(p: Surroundings, s: System, i: nat, j: nat)
    requires Initial(s) && i in s.gens && j in s.gens && i != j && s.gens[i].hasLockFile && s.gens[j].hasLockFile
    requires p.waitsTimeOut
    ensures !Exclusive(p, s)
  {
    var t := FirstBegins(p, s, i);
    BeginsAfterTimeout(p);
    var u := Acts(p, s, t, j, IMPATIENT, Local(Debugging(true).(timedOut := true), true));
    TwoMeet(p, s, u, i, j);
  }

  /** Once a debugger has outlived its lock, the next process takes the lock and starts another. */
  lemma SurvivorBreaks(p: Surroundings, s: System, t: System, i: nat, j: nat, es: seq<Event>, r: Local)
    requires Reached(p, s, t) && i in t.gens && j in t.gens && i != j && t.gens[j] == FreshGenerator(true)
    requires Alone(p, View(t, i), es, r) && Survivor(r)
    ensures !Exclusive(p, s)
  {
    var u := Acts(p, s, t, i, es, r);
    Begins(p, true, false);
    var v := Acts(p, s, u, j, BEGINNING, Local(Debugging(true).(isLocked := true), true));
    TwoMeet(p, s, v, i, j);
  }

  lemma SurvivalBreaks(p: Surroundings, s: System, i: nat, j: nat)
    requires Initial(s) && i in s.gens && j in s.gens && i != j && s.gens[i].hasLockFile && s.gens[j].hasLockFile
    requires Outlives(p)
    ensures !Exclusive(p, s)
  {
    var t := FirstBegins(p, s, i);
    var r;
    if p.destroyedWhileStarting || p.survivableErrors {
      r := StartingSurvives(p);
    } else {
      r := RunningSurvives(p);
    }
    SurvivorBreaks(p, s, t, i, j, Ordeal(p), r);
  }

  /** Among two or more processes, debuggers never overlap if and only if every process has its lock file, no wait times
      out, no DrKonqi is destroyed while its debugger is starting, and no debugger survives an error, the destructor's
      terminate() or a detachment's. */
  lemma ExclusiveExactlyWhen(p: Surroundings, s: System, i: nat, j: nat)
    requires Initial(s) && i in s.gens && j in s.gens && i != j
    ensures Exclusive(p, s) <==> AllHaveLockFiles(s) && Calm(p)
  {
    if !AllHaveLockFiles(s) {
      var k :| k in s.gens && !s.gens[k].hasLockFile;
      MissingLockFileBreaks(p, s, if k == i then j else i, k);
    } else if p.waitsTimeOut {
      TimeoutBreaks(p, s, i, j);
    } else if !Calm(p) {
      SurvivalBreaks(p, s, i, j);
    } else {
      CalmIsExclusive(p, s);
    }
  }
}
