/** How debugger runs end, read off the events alone. */
module SessionOutcomes {
  import opened Sequences
  import opened Session
  import opened SessionTable
  import opened DebuggerLock

  /** The state after an event, given the state before. */
  function EndedAs(e: Event, before: State): State {
    match e
    case EvStart(usable) => if usable then Loading else FailedToStart
    case EvFailedToPrepare => FailedToPrepare
    case EvExited(ok, highPressure) => if ok then Loaded else if highPressure then MemoryPressure else Failed
    case EvError(ErrorFailedToStart, false) => FailedToStart
    case EvError(_, highPressure) => if highPressure then MemoryPressure else Failed
    case EvDetached => Loaded
    case _ => before
  }

  /** The state of process i after all these events of all processes. */
  function StateAfter(trace: seq<(nat, Event)>, i: nat, before: State): State
    decreases |trace|
  {
    if trace == [] then before
    else StateAfter(trace[1..], i, if trace[0].0 == i then EndedAs(trace[0].1, before) else before)
  }

  lemma ReactEnds(l: Local, e: Event)
    requires InOrder(l) && Enabled(l, e)
    ensures React(l, e).g.state == EndedAs(e, l.g.state)
  {
    ReactIsExpected(l, e);
  }

  lemma {:induction false} RunEnds(s: System, trace: seq<(nat, Event)>, t: System, i: nat)
    requires SystemInv(s) && Run(s, trace, t) && i in s.gens
    ensures i in t.gens && t.gens[i].state == StateAfter(trace, i, s.gens[i].state)
    decreases |trace|
  {
    if trace != [] {
      var j, e := trace[0].0, trace[0].1;
      StepKeeps(s, j, e);
      ReactEnds(View(s, j), e);
      RunEnds(Step(s, j, e), trace[1..], t, i);
    }
  }

  /** In every run of any number of processes, each one's state is the outcome of its own last start, failed
      preparation, exit, error or detachment. */
  lemma StateIsOutcome(s: System, trace: seq<(nat, Event)>, t: System, i: nat)
    requires Initial(s) && Run(s, trace, t) && i in s.gens
    ensures i in t.gens && t.gens[i].state == StateAfter(trace, i, NotLoaded)
  {
    InitialInv(s);
    RunEnds(s, trace, t, i);
  }
}
