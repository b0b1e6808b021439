/** When ActivationCloseTimer may close the notifier. */
module TimerLaws {
  import opened Sequences
  import opened TimerModel

  /** While the close timer runs, nobody is idle, and a pending activation has the earlier deadline. */
  predicate Ordered(t: Timers) {
    && (Running(t.activation) ==> t.pendingActivations > 0)
    && (Running(t.close) ==>
          && !t.idle
          && (t.pendingActivations > 0 ==> Running(t.activation) && t.activation.value < t.close.value))
  }

  lemma {:induction false} LostFromTheStart(t: Timers, missing: nat)
    requires !t.idle && t.pendingActivations == 0 && t.close == None && t.activation == None
    ensures ServicesLost(t, missing)
         == t.(pendingActivations := missing,
               activation := if missing == 0 then None else Some(t.now + t.activationTimeout))
  {
    if missing > 0 {
      LostFromTheStart(t, missing - 1);
    }
  }

  lemma BeginIs(activationTimeout: nat, closeTimeout: nat, now: nat, missing: nat, alreadyIdle: bool)
    ensures Begin(activationTimeout, closeTimeout, now, missing, alreadyIdle) == Observed(
              Timers(now, alreadyIdle, missing,
                     if alreadyIdle then None else Some(now + closeTimeout),
                     if missing == 0 then None else Some(now + activationTimeout),
                     activationTimeout, closeTimeout),
              if missing == 0 && !alreadyIdle then Some(now) else None)
  {
    LostFromTheStart(Timers(now, false, 0, None, None, activationTimeout, closeTimeout), missing);
  }

  lemma ReactKeepsOrder(t: Timers, e: Event)
    requires Ordered(t) && Possible(t, e)
    ensures Ordered(React(t, e))
  {
  }

  lemma {:induction false} RunKeepsOrder(o: Observed, trace: seq<Event>, p: Observed)
    requires Ordered(o.t) && Run(o, trace, p)
    ensures Ordered(p.t)
    decreases |trace|
  {
    if trace != [] {
      ReactKeepsOrder(o.t, trace[0]);
      RunKeepsOrder(Observe(o, React(o.t, trace[0])), trace[1..], p);
    }
  }

  /** Is the session never idle and no service missing when the close timer may fire? */
  ghost predicate NeverClosesTooEarly(o: Observed) {
    forall trace, p :: Run(o, trace, p) && Possible(p.t, AutoClose) ==> Quiet(p.t)
  }

  lemma OrderedNeverClosesTooEarly(o: Observed)
    requires Ordered(o.t)
    ensures NeverClosesTooEarly(o)
  {
    forall trace, p | Run(o, trace, p) && Possible(p.t, AutoClose)
      ensures Quiet(p.t)
    {
      RunKeepsOrder(o, trace, p);
    }
  }

  /** A close timeout no longer than the activation timeout closes the notifier while services are missing. */
  lemma ShortCloseTimeout(activationTimeout: nat, closeTimeout: nat, now: nat, missing: nat)
    requires closeTimeout <= activationTimeout && missing > 0
    ensures var o := Begin(activationTimeout, closeTimeout, now, missing, false);
            !NeverClosesTooEarly(o) && !WaitsFullTimeout(o)
  {
    BeginIs(activationTimeout, closeTimeout, now, missing, false);
    var o := Begin(activationTimeout, closeTimeout, now, missing, false);
    var trace := [Wait(now + closeTimeout)];
    var p := Observe(o, React(o.t, trace[0]));
    assert Run(p, trace[1..], p);
    assert Run(o, trace, p);
    assert Possible(p.t, AutoClose);
  }

  /** Main safety result, for every timed run with timers firing in order but arbitrarily late: the notifier never
      closes while the session is idle or a service is missing exactly when the activation timeout is the shorter one,
      or the close timer's unconditional start meets a session with every service present or already idle. */
  lemma ClosesOnlyWhenQuiet(activationTimeout: nat, closeTimeout: nat, now: nat, missing: nat, alreadyIdle: bool)
    ensures NeverClosesTooEarly(Begin(activationTimeout, closeTimeout, now, missing, alreadyIdle))
       <==> activationTimeout < closeTimeout || missing == 0 || alreadyIdle
  {
    BeginIs(activationTimeout, closeTimeout, now, missing, alreadyIdle);
    if activationTimeout < closeTimeout || missing == 0 || alreadyIdle {
      OrderedNeverClosesTooEarly(Begin(activationTimeout, closeTimeout, now, missing, alreadyIdle));
    } else {
      ShortCloseTimeout(activationTimeout, closeTimeout, now, missing);
    }
  }

  /** The close timer runs only over one unbroken quiet stretch, or while two services are still missing. */
  predicate Patient(o: Observed) {
    && Ordered(o.t)
    && (Running(o.t.close) && o.t.pendingActivations < 2 ==>
          o.quietSince.Some? && o.quietSince.value + o.t.closeTimeout <= o.t.close.value)
    && (o.quietSince.Some? <==> Quiet(o.t))
    && (o.quietSince.Some? ==> o.quietSince.value <= o.t.now)
  }

  lemma ReactStaysPatient(o: Observed, e: Event)
    requires Patient(o) && Possible(o.t, e)
    ensures Patient(Observe(o, React(o.t, e)))
    ensures React(o.t, e).closeTimeout == o.t.closeTimeout
  {
    ReactKeepsOrder(o.t, e);
  }

  lemma {:induction false} RunStaysPatient(o: Observed, trace: seq<Event>, p: Observed)
    requires Patient(o) && Run(o, trace, p)
    ensures Patient(p) && p.t.closeTimeout == o.t.closeTimeout
    decreases |trace|
  {
    if trace != [] {
      ReactStaysPatient(o, trace[0]);
      RunStaysPatient(Observe(o, React(o.t, trace[0])), trace[1..], p);
    }
  }

  /** Has the session been quiet for a whole close timeout whenever the close timer may fire? */
  ghost predicate WaitsFullTimeout(o: Observed) {
    forall trace, p :: Run(o, trace, p) && Possible(p.t, AutoClose) ==>
      p.quietSince.Some? && p.quietSince.value + o.t.closeTimeout <= p.t.now
  }

  lemma PatientWaits(o: Observed)
    requires Patient(o)
    ensures WaitsFullTimeout(o)
  {
    forall trace, p | Run(o, trace, p) && Possible(p.t, AutoClose)
      ensures p.quietSince.Some? && p.quietSince.value + o.t.closeTimeout <= p.t.now
    {
      RunStaysPatient(o, trace, p);
    }
  }

  /** One service missing at the start and back one tick later: closed before a full quiet timeout. */
  lemma OneMissingClosesEarly(activationTimeout: nat, closeTimeout: nat, now: nat)
    requires activationTimeout < closeTimeout
    ensures !WaitsFullTimeout(Begin(activationTimeout, closeTimeout, now, 1, false))
  {
    BeginIs(activationTimeout, closeTimeout, now, 1, false);
    var o := Begin(activationTimeout, closeTimeout, now, 1, false);
    var later := Observe(o, o.t.(now := now + 1));
    var back := Observe(later, OnServiceBack(later.t));
    var p := Observe(back, back.t.(now := now + closeTimeout));
    var trace := [Wait(now + 1), ServiceBack, Wait(now + closeTimeout)];
    assert trace[1..] == [ServiceBack, Wait(now + closeTimeout)];
    assert trace[1..][1..] == [Wait(now + closeTimeout)];
    assert Run(p, [], p);
    assert Run(back, [Wait(now + closeTimeout)], p);
    assert Run(later, trace[1..], p);
    assert Run(o, trace, p);
    assert Possible(p.t, AutoClose);
    assert p.quietSince == Some(now + 1);
  }

  /** Exactly when a close always comes after a full quiet timeout: watchIdle starts the close timer without looking
      at the pending counter, and with a single missing service that start survives until the service is back. */
  lemma ClosesOnlyAfterFullTimeout(activationTimeout: nat, closeTimeout: nat, now: nat, missing: nat, alreadyIdle: bool)
    ensures WaitsFullTimeout(Begin(activationTimeout, closeTimeout, now, missing, alreadyIdle))
       <==> alreadyIdle || missing == 0 || (missing >= 2 && activationTimeout < closeTimeout)
  {
    BeginIs(activationTimeout, closeTimeout, now, missing, alreadyIdle);
    if alreadyIdle || missing == 0 || (missing >= 2 && activationTimeout < closeTimeout) {
      PatientWaits(Begin(activationTimeout, closeTimeout, now, missing, alreadyIdle));
    } else if activationTimeout < closeTimeout {
      OneMissingClosesEarly(activationTimeout, closeTimeout, now);
    } else {
      ShortCloseTimeout(activationTimeout, closeTimeout, now, missing);
    }
  }
}
