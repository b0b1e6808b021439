/** What every signal does to ActivationCloseTimer's two timers, and that they do go off. */
module TimerProgress {
  import opened Sequences
  import opened TimerModel
  import opened TimerLaws

  /** The signals of the session and of the watched services. */
  predicate IsSignal(e: Event) {
    e.Idle? || e.NotIdle? || e.ServiceLost? || e.ServiceBack?
  }

  /** After every signal the close timer runs exactly when the session is quiet, and a timer that was running keeps its
      deadline. */
  lemma CloseTimerExactly(t: Timers, e: Event)
    requires IsSignal(e)
    ensures var u := React(t, e);
            && (u.close.Some? <==> Quiet(u))
            && (Quiet(u) ==> u.close == if t.close.Some? then t.close else Some(t.now + t.closeTimeout))
  {
  }

  /** Idleness, missing services and the activation timer after every signal; the clock and the timeouts stay. */
  lemma SignalsExactly(t: Timers, e: Event)
    requires IsSignal(e)
    ensures var u := React(t, e);
            && (u.idle <==> e.Idle? || (t.idle && !e.NotIdle?))
            && u.pendingActivations
               == t.pendingActivations + (if e.ServiceLost? then 1 else 0)
                  - (if e.ServiceBack? && t.pendingActivations > 0 then 1 else 0)
            && u.activation
               == (if e.ServiceLost? then Some(t.now + t.activationTimeout) else if e.ServiceBack? then None
                   else t.activation)
            && u.now == t.now && u.activationTimeout == t.activationTimeout && u.closeTimeout == t.closeTimeout
  {
  }

  /** The close timer fires once, the activation timer again and again; and whoever is activated is not closed. */
  lemma FiringsExactly(t: Timers)
    ensures Possible(t, AutoClose) ==> React(t, AutoClose) == t.(close := None)
    ensures Possible(t, AutoActivate) ==>
              React(t, AutoActivate)
              == t.(close := None, activation := Some(t.activation.value + t.activationTimeout))
  {
  }

  /** Deadlines are never further away than their timeout, and activation is for missing services only. */
  predicate Near(t: Timers) {
    && (t.close.Some? ==> t.close.value <= t.now + t.closeTimeout)
    && (t.activation.Some? ==> t.pendingActivations > 0 && t.activation.value <= t.now + t.activationTimeout)
  }

  lemma ReactStaysNear(t: Timers, e: Event)
    requires Near(t) && Possible(t, e)
    ensures Near(React(t, e))
  {
  }

  lemma {:induction false} RunStaysNear(o: Observed, trace: seq<Event>, p: Observed)
    requires Near(o.t) && Run(o, trace, p)
    ensures Near(p.t)
    decreases |trace|
  {
    if trace != [] {
      ReactStaysNear(o.t, trace[0]);
      RunStaysNear(Observe(o, React(o.t, trace[0])), trace[1..], p);
    }
  }

  /** Nothing happens but that time passes. */
  function Later(t: Timers, until: nat): Timers {
    t.(now := until)
  }

  /** In every reachable situation: a signal that leaves the session quiet leads to a close, unless something else
      happens first; it is due within one close timeout, and possible from then on and not before. */
  lemma QuietSessionsClose(activationTimeout: nat, closeTimeout: nat, now: nat, missing: nat, alreadyIdle: bool,
                           trace: seq<Event>, p: Observed, e: Event) returns (due: nat)
    requires Run(Begin(activationTimeout, closeTimeout, now, missing, alreadyIdle), trace, p)
    requires IsSignal(e) && Quiet(React(p.t, e))
    ensures due <= p.t.now + p.t.closeTimeout
    ensures p.t.close.None? ==> due == p.t.now + p.t.closeTimeout
    ensures forall until: nat :: Possible(Later(React(p.t, e), until), AutoClose) <==> due <= until
  {
    BeginIs(activationTimeout, closeTimeout, now, missing, alreadyIdle);
    RunStaysNear(Begin(activationTimeout, closeTimeout, now, missing, alreadyIdle), trace, p);
    ReactStaysNear(p.t, e);
    CloseTimerExactly(p.t, e);
    due := React(p.t, e).close.value;
  }

  /** A lost service leads to an activation, unless something else happens first: possible once the activation timeout
      has passed and not before. */
  lemma LostServicesActivate(t: Timers, until: nat)
    ensures Possible(Later(React(t, ServiceLost), until), AutoActivate) <==> t.now + t.activationTimeout <= until
    ensures !Possible(Later(React(t, ServiceLost), until), AutoClose)
  {
  }

  /** No timer runs, so nothing will happen by itself. */
  predicate Stuck(t: Timers) {
    t.close.None? && t.activation.None?
  }

  /** When a signal leaves nothing to wait for: the session is not quiet, and the activation timer is off. That is so
      whenever one of several missing services comes back, although others are still missing. */
  lemma StuckExactly(t: Timers, e: Event)
    requires IsSignal(e)
    ensures Stuck(React(t, e))
       <==> !Quiet(React(t, e)) && (e.ServiceBack? || (t.activation.None? && !e.ServiceLost?))
  {
  }

  lemma StuckStays(t: Timers, until: nat)
    requires Stuck(t)
    ensures !Possible(Later(t, until), AutoClose) && !Possible(Later(t, until), AutoActivate)
  {
  }
}
