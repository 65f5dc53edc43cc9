/** Sleeping on the port state: any number of threads watch bits of the state word while
    other threads and the interrupt handler change it. Every step below runs with the command
    gate closed; sleeping opens the gate, waking only makes a thread ready to close it again. */
module StateWatch {
  type Thread = nat

  /** A 32-bit word as the set of its one bits: `x | y` is `x + y`, `x & y` is `x * y`,
      `x & ~y` is `x - y`. */
  type Word = set<nat>

  function Xor(x: Word, y: Word): Word { (x - y) + (y - x) }

  /** Bits of the state word the protocol itself refers to. */
  datatype Bits = Bits(active: nat, acquired: nat, txBusy: nat)

  /** What a thread waits for: some bit of `mask` equal to that bit of `want`. */
  datatype Watch = Watch(want: Word, mask: Word, forInactive: bool)

  datatype Port =
    Port(state: Word, watchMask: Word, offline: bool, asleep: map<Thread, Watch>, ready: map<Thread, Watch>)

  datatype Wake = Awakened | TimedOut | Interrupted

  datatype Action =
    | WatchState(t: Thread, want: Word, mask: Word)
    | Resume(t: Thread, reason: Wake)
    | SetState(value: Word, mask: Word)
    | Interrupt(value: Word, delta: Word)
    | StartTx
    | SetOffline(offline: bool)
    | Terminate

  function MaskMux(a: Word, b: Word, m: Word): Word { (a - m) + (b * m) }

  /** `mask & ~(want ^ state)` is not zero */
  predicate Matches(w: Watch, state: Word) { w.mask - Xor(w.want, state) != {} }

  function WakeAll(p: Port): Port { p.(asleep := map[], ready := p.ready + p.asleep) }

  /** A watch that names neither acquisition nor activity also ends when the port goes inactive. */
  function Prepare(b: Bits, want: Word, mask: Word): Watch
  {
    if mask * {b.acquired, b.active} == {} then Watch(want - {b.active}, mask + {b.active}, true)
    else Watch(want, mask, false)
  }

  /** Leaving the watch: the mask cannot be undone for one thread, so it is cleared and every
      sleeper is woken to register again. */
  function Leave(p: Port): Port { WakeAll(p.(watchMask := {})) }

  /** One turn of the watch loop. */
  function Turn(p: Port, t: Thread, w: Watch): Port
  {
    if Matches(w, p.state) then Leave(p)
    else p.(watchMask := p.watchMask + w.mask, asleep := p.asleep[t := w])
  }

  function StartTxEngine(b: Bits, p: Port): Port
  {
    if p.offline then p else p.(state := p.state + {b.txBusy})
  }

  function Publish(p: Port, value: Word, delta: Word): Port
  {
    var q := p.(state := value);
    if delta * p.watchMask != {} then WakeAll(q) else q
  }

  /** Steps that are not enabled change nothing. */
  function Step(b: Bits, p: Port, a: Action): Port
  {
    match a
    case WatchState(t, want, mask) =>
      if t in p.asleep || t in p.ready then p else Turn(p, t, Prepare(b, want, mask))
    case Resume(t, reason) =>
      if t in p.ready then
        var q := p.(ready := p.ready - {t});
        if p.offline then q else if reason.Awakened? then Turn(q, t, p.ready[t]) else Leave(q)
      else if t in p.asleep && !reason.Awakened? then
        var q := p.(asleep := p.asleep - {t});
        if p.offline then q else Leave(q)
      else p
    case SetState(value, mask) =>
      var v := MaskMux(p.state, value, mask);
      StartTxEngine(b, Publish(p, v, Xor(v, p.state)))
    case Interrupt(value, delta) =>
      if p.offline then p else Publish(p, value, delta + Xor(p.state, value))
    case StartTx => StartTxEngine(b, p)
    case SetOffline(offline) => p.(offline := offline)
    case Terminate => WakeAll(p.(offline := true))
  }

  /** A sleeper is safe: its bits are registered, and none of them has the wanted value. The one
      bit this cannot cover is a transmitter-busy bit waited for to become set, because starting
      the transmit engine sets it without waking anyone. */
  ghost predicate Safe(b: Bits, p: Port, w: Watch)
  {
    && w.mask <= p.watchMask
    && forall bit :: bit in w.mask && (bit in w.want <==> bit in p.state) ==> bit == b.txBusy && bit in w.want
  }

  ghost predicate NoLostWakeup(b: Bits, p: Port)
  {
    forall t :: t in p.asleep ==> Safe(b, p, p.asleep[t])
  }

  lemma {:induction false} TurnKeeps(b: Bits, p: Port, t: Thread, w: Watch)
    requires NoLostWakeup(b, p)
    ensures NoLostWakeup(b, Turn(p, t, w))
  {
    var q := Turn(p, t, w);
    forall u | u in q.asleep ensures Safe(b, q, q.asleep[u]) {
      if u != t {
        assert Safe(b, p, p.asleep[u]);
      } else {
        assert forall bit :: bit in w.mask && (bit in w.want <==> bit in p.state) ==>
            bit in w.mask - Xor(w.want, p.state);
      }
    }
  }

  /** Bits outside `delta` did not change, and every watched bit is outside it. */
  lemma {:induction false} PublishKeeps(b: Bits, p: Port, value: Word, delta: Word)
    requires NoLostWakeup(b, p) && Xor(p.state, value) <= delta
    ensures NoLostWakeup(b, Publish(p, value, delta))
  {
    var q := Publish(p, value, delta);
    forall u | u in q.asleep ensures Safe(b, q, q.asleep[u]) {
      var w := p.asleep[u];
      assert Safe(b, p, w);
      forall bit | bit in w.mask ensures bit in value <==> bit in p.state {
        assert bit !in delta * p.watchMask;
        assert bit !in Xor(p.state, value);
      }
    }
  }

  lemma {:induction false} StartTxKeeps(b: Bits, p: Port)
    requires NoLostWakeup(b, p)
    ensures NoLostWakeup(b, StartTxEngine(b, p))
  {
    var q := StartTxEngine(b, p);
    forall u | u in q.asleep ensures Safe(b, q, q.asleep[u]) {
      assert Safe(b, p, p.asleep[u]);
    }
  }

  lemma {:induction false} StepKeeps(b: Bits, p: Port, a: Action)
    requires NoLostWakeup(b, p)
    ensures NoLostWakeup(b, Step(b, p, a))
  {
    hide Safe, Turn, Publish, StartTxEngine;
    match a
    case WatchState(t, want, mask) => TurnKeeps(b, p, t, Prepare(b, want, mask));
    case Resume(t, _) =>
      if t in p.ready {
        var q := p.(ready := p.ready - {t});
        SameSafety(b, p, q);
        TurnKeeps(b, q, t, p.ready[t]);
      } else {
        SameSafety(b, p, p.(asleep := p.asleep - {t}));
      }
    case SetState(value, mask) =>
      var v := MaskMux(p.state, value, mask);
      PublishKeeps(b, p, v, Xor(v, p.state));
      StartTxKeeps(b, Publish(p, v, Xor(v, p.state)));
    case Interrupt(value, delta) => PublishKeeps(b, p, value, delta + Xor(p.state, value));
    case StartTx => StartTxKeeps(b, p);
    case SetOffline(offline) => SameSafety(b, p, p.(offline := offline));
    case Terminate =>
  }

  /** Safety depends on the state word, the mask and the sleepers only. */
  lemma {:induction false} SameSafety(b: Bits, p: Port, q: Port)
    requires NoLostWakeup(b, p) && q.state == p.state && q.watchMask == p.watchMask
    requires q.asleep.Keys <= p.asleep.Keys && forall t :: t in q.asleep ==> q.asleep[t] == p.asleep[t]
    ensures NoLostWakeup(b, q)
  {
    forall t | t in q.asleep ensures Safe(b, q, q.asleep[t]) {
      assert Safe(b, p, p.asleep[t]);
    }
  }

  function Run(b: Bits, p: Port, run: seq<Action>): Port
  {
    if run == [] then p else Step(b, Run(b, p, run[..|run| - 1]), run[|run| - 1])
  }

  function Idle(state: Word): Port { Port(state, {}, false, map[], map[]) }

  /** For any number of threads and any interleaving of steps at the gate. */
  lemma {:induction false} NoLostWakeupEver(b: Bits, state: Word, run: seq<Action>)
    ensures NoLostWakeup(b, Run(b, Idle(state), run))
  {
    hide Step;
    if run != [] {
      NoLostWakeupEver(b, state, run[..|run| - 1]);
      StepKeeps(b, Run(b, Idle(state), run[..|run| - 1]), run[|run| - 1]);
    }
  }

  // ----- calls that have not returned ------------------------------------------------

  /** What a caller asked for, in its own words. */
  datatype Call = Call(want: Word, mask: Word)

  datatype Outcome = Sleeping | Success(state: Word) | Offline | Timeout | Aborted

  /** One of the caller's bits has the wanted value. */
  ghost predicate OwnMatch(c: Call, state: Word)
  {
    exists bit :: bit in c.mask && (bit in c.want <==> bit in state)
  }

  /** The port is not active, which ends every watch that names neither acquisition nor activity. */
  ghost predicate WentInactive(b: Bits, c: Call, state: Word)
  {
    b.acquired !in c.mask && b.active !in c.mask && b.active !in state
  }

  ghost function Verdict(b: Bits, c: Call, state: Word): Outcome
  {
    if WentInactive(b, c, state) then Offline else if OwnMatch(c, state) then Success(state) else Sleeping
  }

  /** What a caller is told when its thread runs again. */
  ghost function Reply(b: Bits, c: Call, state: Word, offline: bool, reason: Wake): Outcome
  {
    if offline then Offline
    else match reason
      case Awakened => Verdict(b, c, state)
      case TimedOut => Timeout
      case Interrupted => Aborted
  }

  /** The prepared watch ends exactly when the caller's verdict is in. */
  lemma {:induction false} PreparedMeans(b: Bits, c: Call, state: Word)
    ensures var w := Prepare(b, c.want, c.mask);
            && (Matches(w, state) <==> Verdict(b, c, state) != Sleeping)
            && (w.forInactive && b.active !in state <==> Verdict(b, c, state) == Offline)
  {
    var w := Prepare(b, c.want, c.mask);
    var left := w.mask - Xor(w.want, state);
    if Matches(w, state) {
      var bit :| bit in left;
      assert WentInactive(b, c, state) || bit in c.mask;
    } else {
      assert forall bit :: bit in w.mask ==> bit !in left;
    }
  }

  /** The calls that have not returned after one more step: a call is added when it is told to
      sleep and removed when it is told anything else. A thread runs again only when it was
      awakened, or when its sleep timed out or was interrupted. */
  ghost function CallsAfter(b: Bits, p: Port, calls: map<Thread, Call>, a: Action): map<Thread, Call>
  {
    match a
    case WatchState(t, want, mask) =>
      if t !in calls && Verdict(b, Call(want, mask), p.state) == Sleeping then calls[t := Call(want, mask)]
      else calls
    case Resume(t, reason) =>
      if t in calls && (reason.Awakened? ==> t in p.ready) &&
        Reply(b, calls[t], p.state, p.offline, reason) != Sleeping then calls - {t}
      else calls
    case _ => calls
  }

  ghost function Calls(b: Bits, state: Word, run: seq<Action>): map<Thread, Call>
  {
    if run == [] then map[]
    else
      var before := run[..|run| - 1];
      CallsAfter(b, Run(b, Idle(state), before), Calls(b, state, before), run[|run| - 1])
  }

  /** Every call that has not returned is kept once, asleep or awakened, with its own watch, and
      no other thread is. */
  ghost predicate Accounted(b: Bits, p: Port, calls: map<Thread, Call>)
  {
    && p.asleep.Keys !! p.ready.Keys
    && p.asleep.Keys + p.ready.Keys == calls.Keys
    && forall t :: t in calls ==> KeptWatch(p, t) == Prepare(b, calls[t].want, calls[t].mask)
  }

  ghost function KeptWatch(p: Port, t: Thread): Watch
  {
    if t in p.asleep then p.asleep[t] else if t in p.ready then p.ready[t] else Watch({}, {}, false)
  }

  lemma {:induction false} TurnAccounts(b: Bits, p: Port, calls: map<Thread, Call>, t: Thread, c: Call)
    requires Accounted(b, p, calls) && t !in calls
    ensures Accounted(b, Turn(p, t, Prepare(b, c.want, c.mask)),
                      if Verdict(b, c, p.state) == Sleeping then calls[t := c] else calls)
  {
    hide Prepare, Matches, Verdict;
    PreparedMeans(b, c, p.state);
  }

  lemma {:induction false} WakeAllAccounts(b: Bits, p: Port, q: Port, calls: map<Thread, Call>)
    requires Accounted(b, p, calls)
    requires (q.asleep == map[] && q.ready == p.ready + p.asleep) || (q.asleep == p.asleep && q.ready == p.ready)
    ensures Accounted(b, q, calls)
  {
    hide Prepare;
    assert forall t :: KeptWatch(q, t) == KeptWatch(p, t);
  }

  lemma {:induction false} ResumeAccounts(b: Bits, p: Port, calls: map<Thread, Call>, t: Thread, reason: Wake)
    requires Accounted(b, p, calls)
    ensures Accounted(b, Step(b, p, Resume(t, reason)), CallsAfter(b, p, calls, Resume(t, reason)))
  {
    hide Prepare, Matches, Verdict, Turn, WakeAll, Accounted;
    ResumeRemoves(b, p, calls, t);
    if t in p.ready {
      var q := p.(ready := p.ready - {t});
      if p.offline {
      } else if reason.Awakened? {
        TurnAccounts(b, q, calls - {t}, t, calls[t]);
        assert (calls - {t})[t := calls[t]] == calls;
      } else {
        LeaveAccounts(b, q, calls - {t});
      }
    } else if t in p.asleep && !reason.Awakened? {
      LeaveAccounts(b, p.(asleep := p.asleep - {t}), calls - {t});
    }
  }

  lemma {:induction false} LeaveAccounts(b: Bits, p: Port, calls: map<Thread, Call>)
    requires Accounted(b, p, calls)
    ensures Accounted(b, Leave(p), calls)
  {
    hide Accounted;
    WakeAllAccounts(b, p, Leave(p), calls);
  }

  /** A thread that is taken out of the account is out of it once. */
  lemma {:induction false} ResumeRemoves(b: Bits, p: Port, calls: map<Thread, Call>, t: Thread)
    requires Accounted(b, p, calls)
    ensures t in calls <==> t in p.ready || t in p.asleep
    ensures t in p.ready ==> Accounted(b, p.(ready := p.ready - {t}), calls - {t})
    ensures t in p.ready ==> p.ready[t] == Prepare(b, calls[t].want, calls[t].mask)
    ensures t in p.asleep ==> t !in p.ready && Accounted(b, p.(asleep := p.asleep - {t}), calls - {t})
  {
    hide Prepare;
    assert t in calls <==> t in p.asleep.Keys + p.ready.Keys;
  }

  lemma {:induction false} StepAccounts(b: Bits, p: Port, calls: map<Thread, Call>, a: Action)
    requires Accounted(b, p, calls)
    ensures Accounted(b, Step(b, p, a), CallsAfter(b, p, calls, a))
  {
    hide Prepare, Matches, Verdict, Turn, MaskMux, Xor, Accounted;
    match a {
      case WatchState(t, want, mask) =>
        ResumeRemoves(b, p, calls, t);
        if t !in calls {
          TurnAccounts(b, p, calls, t, Call(want, mask));
        }
      case Resume(t, reason) => ResumeAccounts(b, p, calls, t, reason);
      case _ => WakeAllAccounts(b, p, Step(b, p, a), calls);
    }
  }

  /** No call is ever lost: in every run the threads asleep and the threads awakened are exactly
      the calls that have not returned, none of them twice, each with the watch it asked for. */
  lemma {:induction false} CallsKept(b: Bits, state: Word, run: seq<Action>)
    ensures Accounted(b, Run(b, Idle(state), run), Calls(b, state, run))
  {
    hide Step, CallsAfter;
    if run != [] {
      var before := run[..|run| - 1];
      CallsKept(b, state, before);
      StepAccounts(b, Run(b, Idle(state), before), Calls(b, state, before), run[|run| - 1]);
    }
  }

  /** A thread leaves the sleepers only by running again or by being awakened, and an awakened
      thread stays so until it runs. */
  lemma {:induction false} SleepEnds(b: Bits, p: Port, a: Action, t: Thread)
    requires p.asleep.Keys !! p.ready.Keys && !(a.Resume? && a.t == t)
    ensures var q := Step(b, p, a);
            && (t in p.asleep ==> KeptWatch(q, t) == p.asleep[t] && (t in q.asleep || t in q.ready))
            && (t in p.ready ==> t in q.ready && q.ready[t] == p.ready[t])
  {
    hide Prepare, Matches, MaskMux, Xor;
  }

  /** What a step does to each bit of the state word. */
  ghost predicate BitAfter(b: Bits, p: Port, a: Action, bit: nat)
  {
    match a
    case SetState(value, mask) =>
      (if bit in mask then bit in value else bit in p.state) || (bit == b.txBusy && !p.offline)
    case Interrupt(value, _) => if p.offline then bit in p.state else bit in value
    case StartTx => bit in p.state || (bit == b.txBusy && !p.offline)
    case _ => bit in p.state
  }

  lemma {:induction false} StateBits(b: Bits, p: Port, a: Action, bit: nat)
    ensures bit in Step(b, p, a).state <==> BitAfter(b, p, a, bit)
  {
    hide Prepare, Matches, Xor;
  }

  /** The bit is changed by what a step publishes, not only by starting the transmit engine. */
  ghost predicate Published(b: Bits, p: Port, a: Action, bit: nat)
  {
    match a
    case SetState(value, mask) => bit in mask && (bit in value <==> bit !in p.state)
    case Interrupt(value, _) => !p.offline && (bit in value <==> bit !in p.state)
    case _ => false
  }

  /** Publishing a change of a bit that a sleeper waits for awakens it, with its watch. */
  lemma {:induction false} MatchAwakens(b: Bits, p: Port, a: Action, t: Thread, bit: nat)
    requires NoLostWakeup(b, p) && t in p.asleep
    requires bit in p.asleep[t].mask && Published(b, p, a, bit)
    ensures var q := Step(b, p, a); t !in q.asleep && t in q.ready && q.ready[t] == p.asleep[t]
  {
    assert Safe(b, p, p.asleep[t]);
    match a
    case SetState(value, mask) =>
      var v := MaskMux(p.state, value, mask);
      assert bit in Xor(v, p.state) * p.watchMask;
    case Interrupt(value, delta) =>
      assert bit in (delta + Xor(p.state, value)) * p.watchMask;
  }

  /** A change that touches no registered bit awakens nobody. */
  lemma {:induction false} UnconcernedSleepOn(b: Bits, p: Port, a: Action)
    requires a.SetState? || a.Interrupt?
    requires forall bit :: bit in p.watchMask ==> !Published(b, p, a, bit) && (a.Interrupt? ==> bit !in a.delta)
    ensures Step(b, p, a).asleep == p.asleep && Step(b, p, a).ready == p.ready
  {
    match a
    case SetState(value, mask) =>
      assert Xor(MaskMux(p.state, value, mask), p.state) * p.watchMask == {};
    case Interrupt(value, delta) =>
      if !p.offline {
        assert (delta + Xor(p.state, value)) * p.watchMask == {};
      }
  }

  ghost predicate NeverRuns(t: Thread, run: seq<Action>)
  {
    forall i :: 0 <= i < |run| ==> !(run[i].Resume? && run[i].t == t)
  }

  /** An awakened thread keeps its watch, whatever others do, until it runs. */
  lemma {:induction false} AwakenedWaits(b: Bits, p: Port, run: seq<Action>, t: Thread)
    requires t in p.ready && p.asleep.Keys !! p.ready.Keys && NeverRuns(t, run)
    ensures var q := Run(b, p, run); t in q.ready && q.ready[t] == p.ready[t] && q.asleep.Keys !! q.ready.Keys
  {
    hide Step;
    if run != [] {
      var before := run[..|run| - 1];
      AwakenedWaits(b, p, before, t);
      SleepEnds(b, Run(b, p, before), run[|run| - 1], t);
      StepApart(b, Run(b, p, before), run[|run| - 1]);
    }
  }

  lemma {:induction false} StepApart(b: Bits, p: Port, a: Action)
    requires p.asleep.Keys !! p.ready.Keys
    ensures Step(b, p, a).asleep.Keys !! Step(b, p, a).ready.Keys
  {
    hide Prepare, Matches, MaskMux, Xor;
  }

  /** From a published match to the return, in any run: the sleeper is awakened, stays awakened
      whatever others do, and when it runs on an online port it goes back to sleep exactly when
      by then nothing it asked for holds. */
  lemma {:induction false} PublishedMatchReturns(b: Bits, state: Word, run: seq<Action>, a: Action, later: seq<Action>,
                                                 t: Thread, bit: nat)
    requires t in Run(b, Idle(state), run).asleep && bit in Run(b, Idle(state), run).asleep[t].mask
    requires Published(b, Run(b, Idle(state), run), a, bit) && NeverRuns(t, later)
    ensures var p := Run(b, Idle(state), run);
            var c := Calls(b, state, run);
            var q := Run(b, Step(b, p, a), later);
            var end := Step(b, q, Resume(t, Awakened));
            && t in c && t in q.ready
            && (!q.offline ==> (t in end.asleep <==> !WentInactive(b, c[t], q.state) && !OwnMatch(c[t], q.state)))
            && t !in end.ready
  {
    hide Run, Calls, Step, Prepare, Accounted;
    var p := Run(b, Idle(state), run);
    var c := Calls(b, state, run);
    NoLostWakeupEver(b, state, run);
    CallsKept(b, state, run);
    AccountedAt(b, p, c, t);
    MatchAwakens(b, p, a, t, bit);
    StepApart(b, p, a);
    AwakenedWaits(b, Step(b, p, a), later, t);
    ResumeReturns(b, Run(b, Step(b, p, a), later), t, c[t]);
  }

  lemma {:induction false} AccountedAt(b: Bits, p: Port, calls: map<Thread, Call>, t: Thread)
    requires Accounted(b, p, calls) && t in p.asleep
    ensures t in calls && p.asleep[t] == Prepare(b, calls[t].want, calls[t].mask)
    ensures p.asleep.Keys !! p.ready.Keys
  {
    assert t in p.asleep.Keys + p.ready.Keys;
  }

  lemma {:induction false} ResumeReturns(b: Bits, p: Port, t: Thread, c: Call)
    requires t in p.ready && p.asleep.Keys !! p.ready.Keys && p.ready[t] == Prepare(b, c.want, c.mask)
    ensures var end := Step(b, p, Resume(t, Awakened));
            && (!p.offline ==> (t in end.asleep <==> !WentInactive(b, c, p.state) && !OwnMatch(c, p.state)))
            && t !in end.ready
  {
    hide Prepare, Matches;
    PreparedMeans(b, c, p.state);
  }

  /** Taking the port away awakens every caller, and each is told so when it runs. */
  lemma {:induction false} TerminateAwakens(b: Bits, p: Port, calls: map<Thread, Call>)
    requires Accounted(b, p, calls)
    ensures var q := Step(b, p, Terminate); q.offline && q.asleep == map[] && q.ready.Keys == calls.Keys
    ensures forall t, reason :: t in calls ==> Reply(b, calls[t], p.state, true, reason) == Offline
  {
  }

  /** Every registered bit is one that a call which has not returned asked to have registered. */
  ghost predicate MaskOwned(p: Port)
  {
    forall bit :: bit in p.watchMask ==> exists t :: Waits(p, t, bit)
  }

  ghost predicate Waits(p: Port, t: Thread, bit: nat)
  {
    (t in p.asleep && bit in p.asleep[t].mask) || (t in p.ready && bit in p.ready[t].mask)
  }

  /** While the port is not taken away, each return clears the mask it leaves behind. */
  lemma {:induction false} MaskOwnedEver(b: Bits, state: Word, run: seq<Action>)
    requires forall i :: 0 <= i < |run| ==> !run[i].SetOffline? && !run[i].Terminate?
    ensures var p := Run(b, Idle(state), run); MaskOwned(p) && !p.offline && p.asleep.Keys !! p.ready.Keys
  {
    hide Step, MaskOwned;
    if run == [] {
      assert Idle(state).watchMask == {};
      OwnedIfEmpty(Idle(state));
    } else {
      MaskOwnedEver(b, state, run[..|run| - 1]);
      StepMaskOwned(b, Run(b, Idle(state), run[..|run| - 1]), run[|run| - 1]);
    }
  }

  lemma {:induction false} OwnedIfEmpty(p: Port)
    requires p.watchMask == {}
    ensures MaskOwned(p)
  {
  }

  /** Waking changes nobody's watch. */
  lemma {:induction false} SameOwned(p: Port, q: Port)
    requires MaskOwned(p) && q.watchMask == p.watchMask && p.asleep.Keys !! p.ready.Keys
    requires (q.asleep == map[] && q.ready == p.ready + p.asleep) || (q.asleep == p.asleep && q.ready == p.ready)
    ensures MaskOwned(q)
  {
    forall bit | bit in q.watchMask ensures exists t :: Waits(q, t, bit) {
      var t :| Waits(p, t, bit);
      assert Waits(q, t, bit);
    }
  }

  /** A turn without a match registers the thread again; `p` is the port without it. */
  lemma {:induction false} TurnOwned(p: Port, t: Thread, w: Watch)
    requires t !in p.asleep && t !in p.ready
    requires forall bit :: bit in p.watchMask ==> bit in w.mask || exists u :: Waits(p, u, bit)
    ensures MaskOwned(Turn(p, t, w))
  {
    hide Matches;
    var q := Turn(p, t, w);
    if !Matches(w, p.state) {
      forall bit | bit in q.watchMask ensures exists u :: Waits(q, u, bit) {
        if bit in w.mask {
          assert Waits(q, t, bit);
        } else {
          var u :| Waits(p, u, bit);
          assert Waits(q, u, bit);
        }
      }
    }
  }

  lemma {:induction false} ResumeOwned(p: Port, t: Thread)
    requires MaskOwned(p) && p.asleep.Keys !! p.ready.Keys && t in p.ready
    ensures MaskOwned(Turn(p.(ready := p.ready - {t}), t, p.ready[t]))
  {
    hide Turn;
    var q := p.(ready := p.ready - {t});
    forall bit | bit in q.watchMask && bit !in p.ready[t].mask ensures exists u :: Waits(q, u, bit) {
      var u :| Waits(p, u, bit);
      assert Waits(q, u, bit);
    }
    TurnOwned(q, t, p.ready[t]);
  }

  lemma {:induction false} StepMaskOwned(b: Bits, p: Port, a: Action)
    requires MaskOwned(p) && !p.offline && p.asleep.Keys !! p.ready.Keys && !a.SetOffline? && !a.Terminate?
    ensures var q := Step(b, p, a); MaskOwned(q) && !q.offline && q.asleep.Keys !! q.ready.Keys
  {
    hide MaskOwned, Matches, Prepare, MaskMux, Xor;
    StepApart(b, p, a);
    match a {
      case WatchState(t, want, mask) =>
        if t !in p.asleep && t !in p.ready {
          OwnedBits(p);
          TurnOwned(p, t, Prepare(b, want, mask));
        }
      case Resume(t, reason) =>
        if t in p.ready && reason.Awakened? {
          ResumeOwned(p, t);
        } else if Step(b, p, a) != p {
          OwnedIfEmpty(Step(b, p, a));
        }
      case _ => SameOwned(p, Step(b, p, a));
    }
  }

  lemma {:induction false} OwnedBits(p: Port)
    requires MaskOwned(p)
    ensures forall bit :: bit in p.watchMask ==> exists u :: Waits(p, u, bit)
  {
  }

  ghost predicate IsPrepared(b: Bits, w: Watch)
  {
    exists want, mask :: w == Prepare(b, want, mask)
  }

  ghost predicate AllPrepared(b: Bits, p: Port)
  {
    && (forall t :: t in p.asleep ==> IsPrepared(b, p.asleep[t]))
    && (forall t :: t in p.ready ==> IsPrepared(b, p.ready[t]))
  }

  /** In every run all watches kept are ones some caller asked for. */
  lemma {:induction false} PreparedEver(b: Bits, state: Word, run: seq<Action>)
    ensures AllPrepared(b, Run(b, Idle(state), run))
  {
    hide Step, IsPrepared;
    if run != [] {
      PreparedEver(b, state, run[..|run| - 1]);
      StepPrepared(b, Run(b, Idle(state), run[..|run| - 1]), run[|run| - 1]);
    }
  }

  lemma {:induction false} StepPrepared(b: Bits, p: Port, a: Action)
    requires AllPrepared(b, p)
    ensures AllPrepared(b, Step(b, p, a))
  {
    hide Matches, IsPrepared, Prepare, MaskMux, Xor;
    match a
    case WatchState(t, want, mask) => JustPrepared(b, want, mask);
    case _ =>
  }

  lemma {:induction false} JustPrepared(b: Bits, want: Word, mask: Word)
    ensures IsPrepared(b, Prepare(b, want, mask))
  {
  }

  /** A watch that does not wait for the busy bit to be set sleeps only while nothing matches. */
  lemma {:induction false} SleepersDoNotMatch(b: Bits, state: Word, run: seq<Action>, t: Thread)
    requires t in Run(b, Idle(state), run).asleep
    requires b.txBusy !in Run(b, Idle(state), run).asleep[t].mask ||
        b.txBusy !in Run(b, Idle(state), run).asleep[t].want
    ensures var p := Run(b, Idle(state), run);
            p.asleep[t].mask <= p.watchMask && !Matches(p.asleep[t], p.state)
  {
    hide Run;
    NoLostWakeupEver(b, state, run);
    var p := Run(b, Idle(state), run);
    assert Safe(b, p, p.asleep[t]);
  }

  /** The watch asked for, its thread asleep, while one of its bits has the wanted value. */
  ghost predicate SleepsThrough(b: Bits, state: Word, run: seq<Action>, t: Thread, want: Word, mask: Word)
  {
    var p := Run(b, Idle(state), run);
    t in p.asleep && p.asleep[t] == Prepare(b, want, mask) && Matches(p.asleep[t], p.state)
  }

  /** The excluded case is real for every such watch: from a state in which nothing matches, the
      transmit engine sets the busy bit and the thread sleeps on. */
  lemma {:induction false} BusyWatchSleepsOn(b: Bits, t: Thread, want: Word, mask: Word)
    requires b.txBusy in Prepare(b, want, mask).mask && b.txBusy in Prepare(b, want, mask).want
    ensures var w := Prepare(b, want, mask);
            SleepsThrough(b, w.mask - w.want, [WatchState(t, want, mask), StartTx], t, want, mask)
  {
    var w := Prepare(b, want, mask);
    var run := [WatchState(t, want, mask), StartTx];
    var p0 := Idle(w.mask - w.want);
    assert !Matches(w, p0.state);
    var p1 := Turn(p0, t, w);
    assert run[..1] == [WatchState(t, want, mask)];
    assert run[..1][..0] == [];
    assert Run(b, p0, run[..1]) == p1;
    var p2 := StartTxEngine(b, p1);
    assert Run(b, p0, run) == p2;
    assert b.txBusy in w.mask - Xor(w.want, p2.state);
  }

  /** A watch can be slept through in some run exactly when it waits for the busy bit to be set. */
  lemma {:induction false} SleptThroughIff(b: Bits, t: Thread, want: Word, mask: Word)
    ensures (exists state, run :: SleepsThrough(b, state, run, t, want, mask))
            <==> b.txBusy in Prepare(b, want, mask).mask && b.txBusy in Prepare(b, want, mask).want
  {
    hide Run, Matches, Prepare;
    var w := Prepare(b, want, mask);
    if b.txBusy in w.mask && b.txBusy in w.want {
      BusyWatchSleepsOn(b, t, want, mask);
    } else {
      forall state, run ensures !SleepsThrough(b, state, run, t, want, mask) {
        if SleepsThrough(b, state, run, t, want, mask) {
          SleepersDoNotMatch(b, state, run, t);
        }
      }
    }
  }

  /** A watch that ends with success ends because one of the caller's own bits matched, never
      merely because the port is inactive. */
  lemma {:induction false} SuccessMeansMatch(b: Bits, want: Word, mask: Word, state: Word)
    requires Matches(Prepare(b, want, mask), state)
    requires !(Prepare(b, want, mask).forInactive && b.active !in state)
    ensures mask - Xor(want, state) != {}
  {
    var w := Prepare(b, want, mask);
    var bit :| bit in w.mask - Xor(w.want, state);
    assert bit in mask - Xor(want, state);
  }

  // ----- the driver's methods, as they update its fields ---------------------------

  /** Nobody is lost between two moments: who slept still sleeps or is awakened, with its watch,
      and who was awakened still is. */
  ghost predicate NobodyLost(before: Port, after: Port)
  {
    && (forall t :: t in before.asleep ==>
          KeptWatch(after, t) == before.asleep[t] && (t in after.asleep || t in after.ready))
    && (forall t :: t in before.ready && t !in before.asleep ==> t in after.ready && after.ready[t] == before.ready[t])
  }

  /** Who slept on a bit that changed is awakened, with its watch. */
  ghost predicate SleepersAwakened(before: Port, after: Port, changed: Word)
  {
    forall t, bit :: t in before.asleep && bit in before.asleep[t].mask && bit in changed ==>
        t !in after.asleep && t in after.ready && after.ready[t] == before.asleep[t]
  }

  ghost function Without(p: Port, t: Thread): Port { p.(asleep := p.asleep - {t}, ready := p.ready - {t}) }

  /** The result is the reply to whatever was asked for with the thread's watch. */
  ghost predicate RepliesTo(b: Bits, t: Thread, p: Port, reason: Wake, r: Outcome)
  {
    forall c: Call :: KeptWatch(p, t) == Prepare(b, c.want, c.mask) ==> r == Reply(b, c, p.state, p.offline, reason)
  }

  lemma {:induction false} PublishAwakens(b: Bits, p: Port, a: Action, changed: Word)
    requires a.SetState? || a.Interrupt?
    requires forall bit :: bit in changed ==> Published(b, p, a, bit)
    ensures NobodyLost(p, Step(b, p, a))
    ensures NoLostWakeup(b, p) ==> SleepersAwakened(p, Step(b, p, a), changed)
  {
    assert NobodyLost(p, Step(b, p, a)) by {
      hide Xor, MaskMux;
    }
    hide Step, NoLostWakeup, Published;
    if NoLostWakeup(b, p) {
      forall t, bit | t in p.asleep && bit in p.asleep[t].mask && bit in changed
        ensures t !in Step(b, p, a).asleep && t in Step(b, p, a).ready && Step(b, p, a).ready[t] == p.asleep[t]
      {
        MatchAwakens(b, p, a, t, bit);
      }
    }
  }

  /** The watch loop's result for an awakened thread. */
  lemma {:induction false} TurnReplies(b: Bits, t: Thread, p: Port, r: Outcome)
    requires (t in p.ready || t in p.asleep) && p.asleep.Keys !! p.ready.Keys && !p.offline
    requires var w := KeptWatch(p, t);
      r == if !Matches(w, p.state) then Sleeping
           else if w.forInactive && b.active !in p.state then Offline else Success(p.state)
    ensures RepliesTo(b, t, p, Awakened, r)
  {
    hide Matches, Prepare, Verdict;
    forall c: Call | KeptWatch(p, t) == Prepare(b, c.want, c.mask)
      ensures r == Reply(b, c, p.state, p.offline, Awakened)
    {
      PreparedMeans(b, c, p.state);
      VerdictState(b, c, p.state);
    }
  }

  lemma {:induction false} VerdictState(b: Bits, c: Call, state: Word)
    ensures Verdict(b, c, state) in {Sleeping, Offline, Success(state)}
  {
  }

  lemma {:induction false} ResumeLosesNobody(b: Bits, p: Port, t: Thread, reason: Wake)
    requires t in p.ready || (t in p.asleep && !reason.Awakened?)
    ensures p.asleep.Keys !! p.ready.Keys ==> NobodyLost(Without(p, t), Step(b, p, Resume(t, reason)))
  {
    hide Matches;
  }

  class Driver {
    const b: Bits
    var state: Word
    var watchStateMask: Word
    var offLine: bool
    /** The command gate's sleepers on the state word, and those woken but not yet running. */
    var asleep: map<Thread, Watch>
    var ready: map<Thread, Watch>

    constructor (bits: Bits, initial: Word)
      ensures b == bits && Model() == Idle(initial)
    {
      b, state, watchStateMask, offLine := bits, initial, {}, false;
      asleep, ready := map[], map[];
    }

    ghost function Model(): Port
      reads this
    {
      Port(state, watchStateMask, offLine, asleep, ready)
    }

    method CommandWakeup()
      modifies this`asleep, this`ready
      ensures Model() == WakeAll(old(Model()))
      ensures asleep == map[] && NobodyLost(old(Model()), Model())
    {
      ready := ready + asleep;
      asleep := map[];
    }

    method StartTxEngine()
      modifies this`state
      ensures Model() == Step(b, old(Model()), StartTx)
    {
      if !offLine {
        state := state + {b.txBusy};
      }
    }

    method SetStateGated(value: Word, mask: Word)
      modifies this
      ensures Model() == Step(b, old(Model()), SetState(value, mask))
      ensures NoLostWakeup(b, old(Model())) ==> NoLostWakeup(b, Model())
      ensures forall bit :: bit in state <==>
          (if bit in mask then bit in value else bit in old(state)) || (bit == b.txBusy && !offLine)
      ensures NobodyLost(old(Model()), Model())
      ensures NoLostWakeup(b, old(Model())) ==>
          SleepersAwakened(old(Model()), Model(), (value - old(state)) * mask + (old(state) - value) * mask)
      ensures (forall bit :: bit in old(watchStateMask) && bit in mask ==> (bit in value <==> bit in old(state))) ==>
          asleep == old(asleep)
    {
      if forall bit :: bit in watchStateMask && bit in mask ==> (bit in value <==> bit in state) {
        UnconcernedSleepOn(b, Model(), SetState(value, mask));
      }
      StepKeepsIf(b, Model(), SetState(value, mask));
      PublishAwakens(b, Model(), SetState(value, mask), (value - state) * mask + (state - value) * mask);
      var v := MaskMux(state, value, mask);
      var delta := Xor(v, state);
      state := v;
      if delta * watchStateMask != {} {
        CommandWakeup();
      }
      StartTxEngine();
    }

    /** The end of the interrupt handler: publish the state it computed. */
    method FinishInterrupt(value: Word, changed: Word)
      modifies this
      ensures Model() == Step(b, old(Model()), Interrupt(value, changed))
      ensures NoLostWakeup(b, old(Model())) ==> NoLostWakeup(b, Model())
      ensures state == if old(offLine) then old(state) else value
      ensures NobodyLost(old(Model()), Model())
      ensures NoLostWakeup(b, old(Model())) && !offLine ==>
          SleepersAwakened(old(Model()), Model(), (value - old(state)) + (old(state) - value))
      ensures (forall bit :: bit in old(watchStateMask) ==> bit !in changed && (bit in value <==> bit in old(state)))
          ==> asleep == old(asleep)
    {
      if forall bit :: bit in watchStateMask ==> bit !in changed && (bit in value <==> bit in state) {
        UnconcernedSleepOn(b, Model(), Interrupt(value, changed));
      }
      StepKeepsIf(b, Model(), Interrupt(value, changed));
      PublishAwakens(b, Model(), Interrupt(value, changed),
                     if offLine then {} else (value - state) + (state - value));
      if offLine {
        return;
      }
      var delta := changed + Xor(state, value);
      state := value;
      if delta * watchStateMask != {} {
        CommandWakeup();
      }
    }

    /** One turn of the watch loop for thread `t`: return, or register and sleep. */
    method WatchTurn(t: Thread, w: Watch) returns (r: Outcome)
      modifies this
      ensures Model() == Turn(old(Model()), t, w)
      ensures r == Sleeping <==> !Matches(w, old(state))
      ensures r.Success? ==> r.state == old(state) && !(w.forInactive && b.active !in old(state))
      ensures r == Offline <==> Matches(w, old(state)) && w.forInactive && b.active !in old(state)
      ensures r == Sleeping || r.Success? || r == Offline
    {
      if w.mask - Xor(w.want, state) != {} {
        r := if w.forInactive && b.active !in state then Offline else Success(state);
        watchStateMask := {};
        CommandWakeup();
        return;
      }
      watchStateMask := watchStateMask + w.mask;
      asleep := asleep[t := w];
      r := Sleeping;
    }

    /** A call to watch the state, up to its return or its first sleep. */
    method WatchStateGated(t: Thread, want: Word, mask: Word) returns (r: Outcome)
      requires t !in asleep && t !in ready
      modifies this
      ensures Model() == Step(b, old(Model()), WatchState(t, want, mask))
      ensures NoLostWakeup(b, old(Model())) ==> NoLostWakeup(b, Model())
      ensures r.Success? ==> r.state == old(state) && mask - Xor(want, r.state) != {}
      ensures r == Sleeping <==> !Matches(Prepare(b, want, mask), old(state))
      ensures r == Verdict(b, Call(want, mask), old(state))
      ensures NobodyLost(old(Model()), Model()) && t !in ready
      ensures t in asleep <==> r == Sleeping
      ensures r != Sleeping ==> asleep == map[] && watchStateMask == {}
    {
      StepKeepsIf(b, Model(), WatchState(t, want, mask));
      PreparedMeans(b, Call(want, mask), state);
      ghost var before := state;
      var w := Prepare(b, want, mask);
      r := WatchTurn(t, w);
      if r.Success? {
        SuccessMeansMatch(b, want, mask, before);
      }
    }

    /** A watching thread runs again: woken, timed out or interrupted. */
    method ResumeWatch(t: Thread, reason: Wake) returns (r: Outcome)
      requires t in ready || (t in asleep && !reason.Awakened?)
      modifies this
      ensures Model() == Step(b, old(Model()), Resume(t, reason))
      ensures NoLostWakeup(b, old(Model())) ==> NoLostWakeup(b, Model())
      ensures old(offLine) ==> r == Offline
      ensures !old(offLine) && reason == TimedOut ==> r == Timeout
      ensures !old(offLine) && reason == Interrupted ==> r == Aborted
      ensures r.Success? ==> r.state == old(state) && (t in old(ready) ==> OwnBitMatches(b, old(ready)[t], r.state))
      ensures r == Sleeping <==> !old(offLine) && reason == Awakened && !Matches(old(ready)[t], old(state))
      ensures old(asleep).Keys !! old(ready).Keys ==>
          && RepliesTo(b, t, old(Model()), reason, r)
          && NobodyLost(Without(old(Model()), t), Model())
          && t !in ready && (t in asleep <==> r == Sleeping)
    {
      hide OwnBitMatches, NobodyLost, NoLostWakeup;
      ghost var before := Model();
      StepKeepsIf(b, before, Resume(t, reason));
      ResumeLosesNobody(b, before, t, reason);
      var w;
      if t in ready {
        w := ready[t];
        ready := ready - {t};
      } else {
        w := asleep[t];
        asleep := asleep - {t};
      }
      if offLine {
        return Offline;
      }
      match reason
      case Awakened =>
        r := WatchTurn(t, w);
        if before.asleep.Keys !! before.ready.Keys {
          TurnReplies(b, t, before, r);
        }
        if r.Success? {
          SuccessIsOwn(b, w, r.state);
        }
      case TimedOut =>
        watchStateMask := {};
        CommandWakeup();
        r := Timeout;
      case Interrupted =>
        watchStateMask := {};
        CommandWakeup();
        r := Aborted;
    }
  }

  /** Whatever was asked for with this watch, one of its own bits has the wanted value. */
  ghost predicate OwnBitMatches(b: Bits, w: Watch, state: Word)
  {
    forall want, mask :: w == Prepare(b, want, mask) ==> mask - Xor(want, state) != {}
  }

  lemma {:induction false} SuccessIsOwn(b: Bits, w: Watch, state: Word)
    requires Matches(w, state) && !(w.forInactive && b.active !in state)
    ensures OwnBitMatches(b, w, state)
  {
    forall want, mask | w == Prepare(b, want, mask) ensures mask - Xor(want, state) != {} {
      SuccessMeansMatch(b, want, mask, state);
    }
  }

  lemma {:induction false} StepKeepsIf(b: Bits, p: Port, a: Action)
    ensures NoLostWakeup(b, p) ==> NoLostWakeup(b, Step(b, p, a))
  {
    hide Safe, Step;
    if NoLostWakeup(b, p) {
      StepKeeps(b, p, a);
    }
  }
}
