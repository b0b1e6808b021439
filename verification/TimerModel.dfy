/** The timed automaton of ActivationCloseTimer: two timers, an idle flag and a pending counter. */
module TimerModel {
  import opened Sequences

  /** A timer that runs is its deadline. */
  datatype Timers = Timers(
    now: nat,
    idle: bool,
    pendingActivations: nat,
    close: Option<nat>,
    activation: Option<nat>,
    activationTimeout: nat,
    closeTimeout: nat)

  predicate Running(deadline: Option<nat>) {
    deadline.Some?
  }

  function Refreshed(t: Timers): Timers {
    if t.idle then t.(close := None)
    else if t.pendingActivations > 0 then t.(close := None)
    else if !Running(t.close) then t.(close := Some(t.now + t.closeTimeout))
    else t
  }

  function OnIdle(t: Timers): Timers {
    Refreshed(t.(idle := true))
  }

  function OnNotIdle(t: Timers): Timers {
    Refreshed(t.(idle := false))
  }

  function OnServiceLost(t: Timers): Timers {
    Refreshed(t.(pendingActivations := t.pendingActivations + 1, activation := Some(t.now + t.activationTimeout)))
  }

  function OnServiceBack(t: Timers): Timers {
    Refreshed(t.(pendingActivations := if t.pendingActivations > 0 then t.pendingActivations - 1 else 0,
                 activation := None))
  }

  /** The close timer is single shot. */
  function CloseFired(t: Timers): Timers {
    t.(close := None)
  }

  /** The activation timer repeats, and stops the close timer. */
  function ActivationFired(t: Timers): Timers
    requires Running(t.activation)
  {
    t.(close := None, activation := Some(t.activation.value + t.activationTimeout))
  }

  /** watchDBus reports every service that is missing already. */
  function ServicesLost(t: Timers, missing: nat): Timers {
    if missing == 0 then t else OnServiceLost(ServicesLost(t, missing - 1))
  }

  /** watchDBus, then watchIdle, which starts the close timer whatever watchDBus has found. */
  function Started(t: Timers, missing: nat, alreadyIdle: bool): Timers {
    var s := ServicesLost(t, missing);
    var u := s.(close := Some(s.now + s.closeTimeout));
    if alreadyIdle then OnIdle(u) else u
  }

  // ---- Timed runs ----

  datatype Event =
    | Wait(until: nat)
    | Idle
    | NotIdle
    | ServiceLost
    | ServiceBack
    | AutoClose
    | AutoActivate

  /** A timer fires at its deadline or later, and of two that are due the one due first goes first. */
  predicate Due(t: Timers, mine: Option<nat>, other: Option<nat>) {
    Running(mine) && mine.value <= t.now && (Running(other) ==> mine.value <= other.value)
  }

  predicate Possible(t: Timers, e: Event) {
    match e
    case Wait(until) => until >= t.now
    case AutoClose => Due(t, t.close, t.activation)
    case AutoActivate => Due(t, t.activation, t.close)
    case _ => true
  }

  function React(t: Timers, e: Event): Timers
    requires Possible(t, e)
  {
    match e
    case Wait(until) => t.(now := until)
    case Idle => OnIdle(t)
    case NotIdle => OnNotIdle(t)
    case ServiceLost => OnServiceLost(t)
    case ServiceBack => OnServiceBack(t)
    case AutoClose => CloseFired(t)
    case AutoActivate => ActivationFired(t)
  }

  predicate Quiet(t: Timers) {
    !t.idle && t.pendingActivations == 0
  }

  /** The timers together with an outside observer, who notes since when the session has been neither idle nor waiting
      for a service. */
  datatype Observed = Observed(t: Timers, quietSince: Option<nat>)

  function Observe(o: Observed, t: Timers): Observed {
    Observed(t, if !Quiet(t) then None else if o.quietSince.Some? then o.quietSince else Some(t.now))
  }

  function Begin(activationTimeout: nat, closeTimeout: nat, now: nat, missing: nat, alreadyIdle: bool): Observed {
    var t := Started(Timers(now, false, 0, None, None, activationTimeout, closeTimeout), missing, alreadyIdle);
    Observe(Observed(t, None), t)
  }

  predicate Run(o: Observed, trace: seq<Event>, p: Observed)
    decreases |trace|
  {
    if trace == [] then o == p
    else Possible(o.t, trace[0]) && Run(Observe(o, React(o.t, trace[0])), trace[1..], p)
  }
}
