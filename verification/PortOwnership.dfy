/** Acquiring and releasing the port: any number of threads compete for it, sleeping on it at
    the command gate while it is taken. Every step runs with the gate closed. */
module PortOwnership {
  type Thread = nat

  datatype Port = Port(acquired: bool, offline: bool, holders: set<Thread>, asleep: set<Thread>, ready: set<Thread>)

  datatype Action =
    /** `sleep`: wait if busy; `opens`: the provider lets the port open; `pick`: whom a wakeup of one thread selects */
    | Acquire(t: Thread, sleep: bool, opens: bool, pick: Thread)
    | Resume(t: Thread, awakened: bool, gone: bool, opens: bool, pick: Thread)
    /** any thread may release an acquired port, whoever holds it */
    | Release(t: Thread, pick: Thread)
    | SetOffline(offline: bool)
    | Terminate

  /** Waking one sleeper needs a sleeper to pick, if there is any. */
  predicate CanPick(p: Port, pick: Thread) { p.asleep == {} || pick in p.asleep }

  function Wakeup(p: Port, oneThread: bool, pick: Thread): Port
  {
    if oneThread then p.(asleep := p.asleep - {pick}, ready := p.ready + (p.asleep * {pick}))
    else p.(asleep := {}, ready := p.ready + p.asleep)
  }

  /** Every failed acquire passes a wakeup on. */
  function Fail(p: Port, pick: Thread): Port { Wakeup(p, !p.offline, pick) }

  function TakeIfOpens(p: Port, t: Thread, opens: bool, pick: Thread): Port
  {
    if opens then p.(acquired := true, holders := p.holders + {t}) else Fail(p, pick)
  }

  predicate Enabled(p: Port, a: Action)
  {
    match a
    case Acquire(t, _, _, pick) => t !in p.asleep && t !in p.ready && CanPick(p, pick)
    case Resume(t, awakened, _, _, pick) =>
      CanPick(p.(asleep := p.asleep - {t}), pick) && (t in p.ready || (t in p.asleep && !awakened))
    case Release(_, pick) => CanPick(p, pick)
    case _ => true
  }

  /** Nothing but the thread itself keeps a step from happening: a thread that does not wait can acquire, an
      awakened one can run, a sleeping one can be interrupted, and anyone can release. */
  lemma {:induction false} CanHappen(p: Port, t: Thread) returns (pick: Thread)
    ensures forall sleep, opens :: t !in p.asleep && t !in p.ready ==> Enabled(p, Acquire(t, sleep, opens, pick))
    ensures forall awakened, gone, opens :: t in p.ready && t !in p.asleep ==>
        Enabled(p, Resume(t, awakened, gone, opens, pick))
    ensures forall gone, opens :: t in p.asleep ==> Enabled(p, Resume(t, false, gone, opens, pick))
    ensures t !in p.asleep ==> Enabled(p, Release(t, pick))
  {
    pick := t;
    if p.asleep - {t} != {} {
      pick :| pick in p.asleep - {t};
    }
  }

  function Step(p: Port, a: Action): Port
    requires Enabled(p, a)
  {
    match a
    case Acquire(t, sleep, opens, pick) =>
      if p.offline then p
      else if p.acquired then (if sleep then p.(asleep := p.asleep + {t}) else Fail(p, pick))
      else TakeIfOpens(p, t, opens, pick)
    case Resume(t, awakened, gone, opens, pick) =>
      var q := p.(asleep := p.asleep - {t}, ready := p.ready - {t});
      if p.offline || gone || !awakened then Fail(q, pick)
      else if q.acquired then q.(asleep := q.asleep + {t})
      else TakeIfOpens(q, t, opens, pick)
    case Release(_, pick) =>
      if !p.acquired then p
      else Wakeup(p, !p.offline, pick).(acquired := false, holders := {})
    case SetOffline(offline) => p.(offline := offline)
    case Terminate => Wakeup(p.(offline := true), false, 0)
  }

  /** At most one holder, and a free port nobody sleeps on without an awakened acquirer. */
  ghost predicate Owned(p: Port)
  {
    && (forall t, u :: t in p.holders && u in p.holders ==> t == u)
    && (p.acquired <==> p.holders != {})
    && (!p.acquired && p.asleep != {} ==> p.ready != {})
  }

  lemma {:induction false} WakeupReadies(p: Port, oneThread: bool, pick: Thread)
    requires CanPick(p, pick)
    ensures Wakeup(p, oneThread, pick).asleep != {} ==> Wakeup(p, oneThread, pick).ready != {}
  {
    if p.asleep != {} {
      assert oneThread ==> pick in Wakeup(p, oneThread, pick).ready;
    }
  }

  lemma {:induction false} StepKeepsOwned(p: Port, a: Action)
    requires Owned(p) && Enabled(p, a)
    ensures Owned(Step(p, a))
  {
    match a
    case Acquire(t, _, _, pick) => WakeupReadies(p, !p.offline, pick);
    case Resume(t, _, _, _, pick) =>
      WakeupReadies(p.(asleep := p.asleep - {t}, ready := p.ready - {t}), !p.offline, pick);
    case Release(t, pick) => WakeupReadies(p, !p.offline, pick);
    case _ =>
  }

  ghost predicate Legal(p: Port, run: seq<Action>)
    decreases |run|
  {
    run == [] || (Enabled(p, run[0]) && Legal(Step(p, run[0]), run[1..]))
  }

  ghost function Run(p: Port, run: seq<Action>): Port
    requires Legal(p, run)
    decreases |run|
  {
    if run == [] then p else Run(Step(p, run[0]), run[1..])
  }

  /** For any number of acquirers and every interleaving of their steps. */
  lemma {:induction false} OwnedEver(p: Port, run: seq<Action>)
    requires Owned(p) && Legal(p, run)
    ensures Owned(Run(p, run))
    decreases |run|
  {
    if run != [] {
      StepKeepsOwned(p, run[0]);
      OwnedEver(Step(p, run[0]), run[1..]);
    }
  }

  /** A free port with a sleeper is never stuck: resuming any awakened thread whose open succeeds takes it. */
  lemma {:induction false} FreePortIsTaken(p: Port, run: seq<Action>) returns (t: Thread, pick: Thread)
    requires Owned(p) && Legal(p, run)
    requires var q := Run(p, run); !q.acquired && !q.offline && q.asleep != {}
    ensures var q := Run(p, run); var a := Resume(t, true, false, true, pick);
            Enabled(q, a) && Step(q, a).holders == {t}
  {
    OwnedEver(p, run);
    var q := Run(p, run);
    t :| t in q.ready;
    pick := t;
    if q.asleep - {t} != {} {
      pick :| pick in q.asleep - {t};
    }
  }

  // ----- acquirers that have not been answered --------------------------------------

  datatype Outcome = Sleeping | Success | Offline | ExclusiveAccess | NotAwakened

  /** What an acquirer is told when its step ends. */
  ghost function Reply(p: Port, a: Action): Outcome
    requires a.Acquire? || a.Resume?
  {
    if p.offline || (a.Resume? && a.gone) then Offline
    else if a.Resume? && !a.awakened then NotAwakened
    else if p.acquired then (if a.Resume? || a.sleep then Sleeping else ExclusiveAccess)
    else if a.opens then Success else ExclusiveAccess
  }

  /** Acquirers told to sleep that have not been told anything else since. */
  ghost function Unanswered(p: Port, run: seq<Action>, waiting: set<Thread>): set<Thread>
    requires Legal(p, run)
    decreases |run|
  {
    if run == [] then waiting else Unanswered(Step(p, run[0]), run[1..], UnansweredAfter(p, run[0], waiting))
  }

  ghost function UnansweredAfter(p: Port, a: Action, waiting: set<Thread>): set<Thread>
  {
    if !a.Acquire? && !a.Resume? then waiting
    else if Reply(p, a) == Sleeping then waiting + {a.t}
    else if a.Resume? then waiting - {a.t}
    else waiting
  }

  /** Each of them is asleep or awakened, not both, and nobody else is. */
  ghost predicate Accounted(p: Port, waiting: set<Thread>)
  {
    p.asleep !! p.ready && p.asleep + p.ready == waiting
  }

  lemma {:induction false} StepAccounts(p: Port, a: Action, waiting: set<Thread>)
    requires Accounted(p, waiting) && Enabled(p, a)
    ensures Accounted(Step(p, a), UnansweredAfter(p, a, waiting))
  {
    if a.Resume? {
      var q := p.(asleep := p.asleep - {a.t}, ready := p.ready - {a.t});
      assert Accounted(q, waiting - {a.t});
    }
  }

  /** No acquirer is lost in any run: the threads asleep and the threads awakened are exactly the
      acquirers that have not been answered. */
  lemma {:induction false} AcquirersKept(p: Port, run: seq<Action>, waiting: set<Thread>)
    requires Accounted(p, waiting) && Legal(p, run)
    ensures Accounted(Run(p, run), Unanswered(p, run, waiting))
    decreases |run|
  {
    hide Step, Enabled, Accounted, UnansweredAfter;
    if run != [] {
      StepAccounts(p, run[0], waiting);
      AcquirersKept(Step(p, run[0]), run[1..], UnansweredAfter(p, run[0], waiting));
    }
  }

  /** Giving up the port awakens exactly one sleeper of an online port, and every one of a port
      that is going away. */
  lemma {:induction false} GivingUpAwakens(p: Port, a: Action)
    requires Enabled(p, a) && p.asleep != {} && p.asleep !! p.ready
    requires (a.Release? && p.acquired) || (a.Acquire? && Reply(p, a) == ExclusiveAccess)
    ensures var q := Step(p, a);
            && (!p.offline ==> a.pick in p.asleep && q.asleep == p.asleep - {a.pick} && q.ready == p.ready + {a.pick})
            && (p.offline ==> q.asleep == {} && q.ready == p.ready + p.asleep)
  {
    assert a.pick in p.asleep ==> p.asleep * {a.pick} == {a.pick};
  }

  /** Taking the port away awakens every acquirer, and each is told so when it runs. */
  lemma {:induction false} TerminateAwakens(p: Port, waiting: set<Thread>)
    requires Accounted(p, waiting)
    ensures var q := Step(p, Terminate); q.asleep == {} && q.ready == waiting && q.offline
    ensures forall a: Action :: a.Resume? ==> Reply(Step(p, Terminate), a) == Offline
  {
  }

  // ----- who believes to hold the port ---------------------------------------------

  /** Threads that were given the port and have not released it themselves. */
  ghost function Believers(p: Port, run: seq<Action>, believers: set<Thread>): set<Thread>
    requires Legal(p, run)
    decreases |run|
  {
    if run == [] then believers
    else
      var q := Step(p, run[0]);
      var more := if run[0].Release? then believers - {run[0].t} else believers + (q.holders - p.holders);
      Believers(q, run[1..], more)
  }

  /** An acquired port is only released by its holder. */
  ghost predicate Proper(p: Port, run: seq<Action>)
    requires Legal(p, run)
    decreases |run|
  {
    run == [] || ((run[0].Release? && p.acquired ==> run[0].t in p.holders) && Proper(Step(p, run[0]), run[1..]))
  }

  /** Then those who believe to hold the port are its holders, at most one. */
  lemma {:induction false} BelieversHold(p: Port, run: seq<Action>)
    requires Owned(p) && Legal(p, run) && Proper(p, run)
    ensures Believers(p, run, p.holders) == Run(p, run).holders
    ensures forall t, u :: t in Believers(p, run, p.holders) && u in Believers(p, run, p.holders) ==> t == u
    decreases |run|
  {
    if run != [] {
      var q := Step(p, run[0]);
      StepKeepsOwned(p, run[0]);
      BelieversHold(q, run[1..]);
      assert q.holders == if run[0].Release? then p.holders - {run[0].t} else p.holders + (q.holders - p.holders);
    }
  }

  /** A release by another thread lets a second one in beside the first. */
  lemma {:induction false} ForeignRelease(a: Thread, b: Thread, c: Thread, pick: Thread)
    requires a != b && a != c
    ensures var p, run := Port(false, false, {}, {}, {}), [Acquire(a, false, true, pick), Release(b, pick),
                                                           Acquire(c, false, true, pick)];
            Legal(p, run) && Believers(p, run, {}) >= {a, c}
  {
    var p := Port(false, false, {}, {}, {});
    var run := [Acquire(a, false, true, pick), Release(b, pick), Acquire(c, false, true, pick)];
    var p1 := Step(p, run[0]);
    var p2 := Step(p1, run[1]);
    var p3 := Step(p2, run[2]);
    assert run[1..] == [run[1], run[2]] && run[1..][1..] == [run[2]] && run[1..][1..][1..] == [];
    assert p1 == Port(true, false, {a}, {}, {}) && p2 == Port(false, false, {}, {}, {}) && p3.holders == {c};
    assert Legal(p2, run[1..][1..]) && Legal(p1, run[1..]);
    assert Believers(p3, [], {a, c}) == {a, c};
    assert Believers(p2, run[1..][1..], {a}) == {a} + {c};
    assert Believers(p1, run[1..], {a}) == Believers(p2, run[1..][1..], {a} - {b});
  }

  // ----- the driver's methods ------------------------------------------------------

  class Driver {
    var acquired: bool
    var offLine: bool
    /** The command gate's sleepers on `acquired`, and those woken but not yet running. */
    var asleep: set<Thread>
    var ready: set<Thread>
    ghost var holders: set<Thread>

    constructor ()
      ensures Owned(Model()) && Model() == Port(false, false, {}, {}, {})
    {
      acquired, offLine, asleep, ready, holders := false, false, {}, {}, {};
    }

    ghost function Model(): Port
      reads this
    {
      Port(acquired, offLine, holders, asleep, ready)
    }

    method CommandWakeup(oneThread: bool, pick: Thread)
      modifies this`asleep, this`ready
      ensures Model() == Wakeup(old(Model()), oneThread, pick)
      ensures asleep + ready == old(asleep + ready)
      ensures oneThread ==> asleep == old(asleep) - {pick}
      ensures !oneThread ==> asleep == {}
    {
      if oneThread {
        ready := ready + (asleep * {pick});
        asleep := asleep - {pick};
      } else {
        ready := ready + asleep;
        asleep := {};
      }
    }

    /** The loop of an acquire, from its test of `acquired` to its next sleep or its return. */
    method TryAcquire(t: Thread, sleep: bool, opens: bool, pick: Thread) returns (r: Outcome)
      modifies this
      ensures Model() == if old(acquired)
          then (if sleep then old(Model()).(asleep := old(asleep) + {t}) else Fail(old(Model()), pick))
                         else TakeIfOpens(old(Model()), t, opens, pick)
      ensures r == Success <==> !old(acquired) && opens
      ensures r == Sleeping <==> old(acquired) && sleep
      ensures r in {Success, Sleeping, ExclusiveAccess}
    {
      if acquired {
        if sleep {
          asleep := asleep + {t};
          return Sleeping;
        }
        CommandWakeup(!offLine, pick);
        return ExclusiveAccess;
      }
      if !opens {
        CommandWakeup(!offLine, pick);
        return ExclusiveAccess;
      }
      acquired := true;
      holders := holders + {t};
      r := Success;
    }

    method AcquirePortGated(t: Thread, sleep: bool, opens: bool, pick: Thread) returns (r: Outcome)
      requires Owned(Model()) && Enabled(Model(), Acquire(t, sleep, opens, pick))
      modifies this
      ensures Owned(Model()) && Model() == Step(old(Model()), Acquire(t, sleep, opens, pick))
      ensures r == Success <==> !old(offLine) && !old(acquired) && opens
      ensures r == Success ==> holders == {t}
      ensures r == Reply(old(Model()), Acquire(t, sleep, opens, pick))
      ensures asleep + ready == old(asleep + ready) + (if r == Sleeping then {t} else {})
    {
      StepKeepsOwned(Model(), Acquire(t, sleep, opens, pick));
      if offLine {
        return Offline;
      }
      r := TryAcquire(t, sleep, opens, pick);
    }

    /** A sleeping acquirer runs again. */
    method ResumeAcquire(t: Thread, awakened: bool, gone: bool, opens: bool, pick: Thread) returns (r: Outcome)
      requires Owned(Model()) && Enabled(Model(), Resume(t, awakened, gone, opens, pick))
      modifies this
      ensures Owned(Model()) && Model() == Step(old(Model()), Resume(t, awakened, gone, opens, pick))
      ensures r == Success <==> !old(offLine) && !gone && awakened && !old(acquired) && opens
      ensures r == Success ==> holders == {t}
      ensures r == Reply(old(Model()), Resume(t, awakened, gone, opens, pick))
      ensures asleep + ready == old(asleep + ready) - {t} + (if r == Sleeping then {t} else {})
    {
      StepKeepsOwned(Model(), Resume(t, awakened, gone, opens, pick));
      asleep, ready := asleep - {t}, ready - {t};
      if offLine || gone {
        CommandWakeup(!offLine, pick);
        return Offline;
      }
      if !awakened {
        CommandWakeup(!offLine, pick);
        return NotAwakened;
      }
      r := TryAcquire(t, true, opens, pick);
    }

    method ReleasePortGated(t: Thread, pick: Thread)
      requires Owned(Model()) && Enabled(Model(), Release(t, pick))
      modifies this
      ensures Owned(Model()) && Model() == Step(old(Model()), Release(t, pick))
      ensures !acquired && holders == {}
      ensures asleep + ready == old(asleep + ready)
      ensures old(acquired) ==> asleep == if offLine then {} else old(asleep) - {pick}
    {
      StepKeepsOwned(Model(), Release(t, pick));
      if !acquired {
        return;
      }
      CommandWakeup(!offLine, pick);
      acquired := false;
      holders := {};
    }
  }
}
