/** src/statusnotifier_activationclosetimer.cpp as an object that its signals update in place. */
module ActivationCloseTimer {
  import opened Sequences
  import opened TimerModel

  class ActivationCloseTimer {
    var m_pendingActivations: nat
    var m_idle: bool
    var m_closeDeadline: Option<nat>      // m_closeTimer, when active
    var m_activationDeadline: Option<nat> // activationTimer, when active
    var m_activationTimeout: nat
    var m_closeTimeout: nat
    var clock: nat

    ghost function View(): Timers
      reads this
    {
      Timers(clock, m_idle, m_pendingActivations, m_closeDeadline, m_activationDeadline, m_activationTimeout,
             m_closeTimeout)
    }

    constructor (clock: nat)
      ensures View() == Timers(clock, false, 0, None, None, 10000, 60000)
    {
      this.clock := clock;
      m_pendingActivations, m_idle := 0, false;
      m_closeDeadline, m_activationDeadline := None, None;
      m_activationTimeout, m_closeTimeout := 10000, 60000;
    }

    method Refresh()
      modifies this
      ensures View() == Refreshed(old(View()))
    {
      if m_idle {
        m_closeDeadline := None;
      } else {
        if m_pendingActivations > 0 {
          m_closeDeadline := None;
        } else if m_closeDeadline.None? {
          m_closeDeadline := Some(clock + m_closeTimeout);
        }
      }
    }

    method OnIdle()
      modifies this
      ensures View() == TimerModel.OnIdle(old(View()))
    {
      m_idle := true;
      Refresh();
    }

    method OnNotIdle()
      modifies this
      ensures View() == TimerModel.OnNotIdle(old(View()))
    {
      m_idle := false;
      Refresh();
    }

    method OnServiceUnregistered()
      modifies this
      ensures View() == OnServiceLost(old(View()))
    {
      m_pendingActivations := m_pendingActivations + 1;
      m_activationDeadline := Some(clock + m_activationTimeout);
      Refresh();
    }

    method OnServiceRegistered()
      modifies this
      ensures View() == OnServiceBack(old(View()))
    {
      if m_pendingActivations > 0 {
        m_pendingActivations := m_pendingActivations - 1;
      }
      m_activationDeadline := None;
      Refresh();
    }

    method OnCloseTimeout()
      modifies this
      ensures View() == CloseFired(old(View()))
    {
      m_closeDeadline := None;
    }

    method OnActivationTimeout()
      requires m_activationDeadline.Some?
      modifies this
      ensures View() == ActivationFired(old(View()))
    {
      m_activationDeadline := Some(m_activationDeadline.value + m_activationTimeout);
      m_closeDeadline := None;
    }

    /** The service watcher's start loops over the watched names and reports the missing ones. */
    method WatchDBus(registered: seq<bool>)
      modifies this
      ensures View() == ServicesLost(old(View()), Missing(registered))
    {
      for i := 0 to |registered|
        invariant View() == ServicesLost(old(View()), Missing(registered[..i]))
      {
        assert registered[..i + 1][..i] == registered[..i];
        if !registered[i] {
          OnServiceUnregistered();
        }
      }
      assert registered[..|registered|] == registered;
    }

    method WatchIdle(alreadyIdle: bool)
      modifies this
      ensures var armed := old(View()).(close := Some(old(View()).now + old(View()).closeTimeout));
              View() == if alreadyIdle then TimerModel.OnIdle(armed) else armed
    {
      m_closeDeadline := Some(clock + m_closeTimeout);
      if alreadyIdle {
        OnIdle();
      }
    }

    method Start(registered: seq<bool>, alreadyIdle: bool)
      modifies this
      ensures View() == Started(old(View()), Missing(registered), alreadyIdle)
    {
      WatchDBus(registered);
      WatchIdle(alreadyIdle);
    }
  }

  function Missing(registered: seq<bool>): nat {
    if registered == [] then 0
    else Missing(registered[..|registered| - 1]) + (if registered[|registered| - 1] then 0 else 1)
  }

  lemma {:induction false} MissingExactly(registered: seq<bool>) returns (ps: seq<nat>)
    ensures Increasing(ps) && (forall i: nat :: i in ps <==> i < |registered| && !registered[i])
    ensures Missing(registered) == |ps|
  {
    if registered == [] {
      ps := [];
    } else {
      var n := |registered| - 1;
      var front := MissingExactly(registered[..n]);
      ps := front;
      if !registered[n] {
        assert forall k :: 0 <= k < |front| ==> front[k] in front;
        IncreasingSnoc(front, n);
        ps := front + [n];
      }
    }
  }
}
