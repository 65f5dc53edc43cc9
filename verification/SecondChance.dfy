/** Reading the shared PS/2 data port: keyboard and mouse bytes arrive interleaved, and a read
    that expects a particular byte gives its device a second chance. */
module SecondChance {
  import opened Memory
  import opened KeyStream

  const TIMEOUT := 10000

  datatype Device = Keyboard | Mouse

  /** What one look at the status port shows. */
  datatype Poll = NotReady | Ready(from: Device, byte: Byte)

  function Other(d: Device): Device { if d == Keyboard then Mouse else Keyboard }

  /** The bytes of one device among some polls, in order. */
  function From(polls: seq<Poll>, d: Device): seq<Byte>
  {
    if polls == [] then []
    else From(polls[..|polls| - 1], d) + PollBytes(polls[|polls| - 1], d)
  }

  function PollBytes(p: Poll, d: Device): seq<Byte>
  {
    if p.Ready? && p.from == d then [p.byte] else []
  }

  function IdlePolls(polls: seq<Poll>): nat
  {
    if polls == [] then 0
    else IdlePolls(polls[..|polls| - 1]) + if polls[|polls| - 1].NotReady? then 1 else 0
  }

  lemma {:induction false} PollAppend(polls: seq<Poll>, p: Poll, d: Device)
    ensures From(polls + [p], d) == From(polls, d) + PollBytes(p, d)
    ensures IdlePolls(polls + [p]) == IdlePolls(polls) + if p.NotReady? then 1 else 0
  {
    assert (polls + [p])[..|polls|] == polls;
  }

  // ----- what the requested stream's bytes lead to ---------------------------------

  /** The byte returned, given the bytes of the requested stream that were consumed. */
  function Answer(seen: seq<Byte>, expected: Byte): Byte
  {
    if seen == [] then 0
    else if |seen| >= 2 && seen[1] == expected then expected
    else seen[0]
  }

  /** The byte passed on to the requested device's own interrupt handler. */
  function PassedOn(seen: seq<Byte>, expected: Byte): seq<Byte>
  {
    if |seen| < 2 then [] else if seen[1] == expected then [seen[0]] else [seen[1]]
  }

  /** Bytes a read may have consumed: a second one only after a first that was not expected. */
  predicate Plausible(seen: seq<Byte>, expected: Byte)
  {
    |seen| <= 2 && (|seen| == 2 ==> seen[0] != expected)
  }

  /** Nothing is lost or duplicated, and the expected byte comes back exactly when it was among
      the bytes seen, except that 0 is also the answer of a timeout without data. */
  lemma {:induction false} ReturnedOrPassedOn(seen: seq<Byte>, expected: Byte)
    requires Plausible(seen, expected)
    ensures seen != [] ==> multiset{Answer(seen, expected)} + multiset(PassedOn(seen, expected)) == multiset(seen)
    ensures seen == [] ==> PassedOn(seen, expected) == []
    ensures Answer(seen, expected) == expected <==> expected in seen || (seen == [] && expected == 0)
  {
    if |seen| == 1 {
      assert seen == [seen[0]];
    } else if |seen| == 2 {
      assert seen == [seen[0], seen[1]];
    }
  }

  // ----- the controller ------------------------------------------------------------

  class Controller {
    /** What the status and data ports will show, and what the keyboard interrupt handler will be
        given before each turn of a loop. */
    var polls: seq<Poll>
    var irqs: seq<seq<Byte>>
    /** Keyboard bytes already taken off the port at interrupt time. */
    var keyboardQueue: seq<Byte>
    /** Bytes dispatched to the two drivers so far. */
    var toKeyboard: seq<Byte>
    var toMouse: seq<Byte>
    /** What happened to keyboard bytes. */
    ghost var history: seq<Action>

    /** Between two calls no read holds a keyboard byte. */
    ghost predicate Valid()
      reads this
    {
      Tracks(history, keyboardQueue, toKeyboard, [])
    }

    constructor (polls0: seq<Poll>, irqs0: seq<seq<Byte>>)
      ensures Valid() && history == [] && keyboardQueue == toKeyboard == toMouse == [] && polls == polls0
      ensures irqs == irqs0
    {
      polls, irqs, keyboardQueue, toKeyboard, toMouse, history := polls0, irqs0, [], [], [], [];
    }

    ghost function Log(d: Device): seq<Byte>
      reads this`toKeyboard, this`toMouse
    {
      if d == Keyboard then toKeyboard else toMouse
    }

    method DispatchDriverInterrupt(d: Device, data: Byte)
      modifies this`toKeyboard, this`toMouse
      ensures Log(d) == old(Log(d)) + [data] && Log(Other(d)) == old(Log(Other(d)))
    {
      if d == Mouse {
        toMouse := toMouse + [data];
      } else {
        toKeyboard := toKeyboard + [data];
      }
    }

    /** At interrupt time; a byte that finds no free element is dropped. */
    method EnqueueKeyboardData(key: Byte, ghost held: seq<Byte>) returns (ghost queued: seq<Byte>)
      requires Tracks(history, keyboardQueue, toKeyboard, held)
      modifies this`keyboardQueue, this`history
      ensures Tracks(history, keyboardQueue, toKeyboard, held)
      ensures keyboardQueue == Filled(old(keyboardQueue), [key]) == old(keyboardQueue) + queued
      ensures Tally(old(history), history, queued, [], [key]) && OnlyQueued(history, |old(history)|)
      ensures NeverOvertaken(old(history)) ==> NeverOvertaken(history)
    {
      hide Tracks, Filled, NeverOvertaken;
      FilledOne(keyboardQueue, key);
      ghost var a := if |keyboardQueue| < KEYBOARD_QUEUE_SIZE then Queue(key) else Drop(key);
      TrackArrival(history, keyboardQueue, toKeyboard, held, a);
      NotOvertaken(history, keyboardQueue, toKeyboard, held, a);
      history := history + [a];
      queued := Arrives(a);
      if |keyboardQueue| < KEYBOARD_QUEUE_SIZE {
        keyboardQueue := keyboardQueue + [key];
      }
    }

    method DequeueKeyboardData() returns (ok: bool, key: Byte)
      modifies this`keyboardQueue
      ensures ok <==> old(keyboardQueue) != []
      ensures ok ==> old(keyboardQueue) == [key] + keyboardQueue
      ensures !ok ==> keyboardQueue == []
    {
      ok, key := keyboardQueue != [], 0;
      if ok {
        key := keyboardQueue[0];
        keyboardQueue := keyboardQueue[1..];
      }
    }

    /** Interrupts are enabled between two turns: the keyboard handler queues the bytes it is given,
        as many as find room. */
    method KeyboardInterrupts(ghost held: seq<Byte>) returns (ghost queued: seq<Byte>, ghost given: seq<seq<Byte>>)
      requires Tracks(history, keyboardQueue, toKeyboard, held)
      modifies this`keyboardQueue, this`history, this`irqs
      ensures Tracks(history, keyboardQueue, toKeyboard, held)
      ensures old(irqs) == given + irqs && |given| <= 1 && (given == [] ==> old(irqs) == [])
      ensures keyboardQueue == Filled(old(keyboardQueue), Flat(given)) == old(keyboardQueue) + queued
      ensures Tally(old(history), history, queued, [], Flat(given)) && OnlyQueued(history, |old(history)|)
      ensures NeverOvertaken(old(history)) ==> NeverOvertaken(history)
    {
      hide Tracks, Filled, Tally, NeverOvertaken;
      queued, given := [], [];
      NothingGiven(keyboardQueue);
      TallyNone(history);
      assert keyboardQueue + [] == keyboardQueue && [] + irqs == irqs;
      if irqs != [] {
        given := irqs[..1];
        assert given[..0] == [] && Flat(given) == irqs[0];
        queued := QueueAll(irqs[0], held);
        irqs := irqs[1..];
      }
    }

    method QueueAll(bytes: seq<Byte>, ghost held: seq<Byte>) returns (ghost queued: seq<Byte>)
      requires Tracks(history, keyboardQueue, toKeyboard, held)
      modifies this`keyboardQueue, this`history
      ensures Tracks(history, keyboardQueue, toKeyboard, held)
      ensures keyboardQueue == Filled(old(keyboardQueue), bytes) == old(keyboardQueue) + queued
      ensures Tally(old(history), history, queued, [], bytes) && OnlyQueued(history, |old(history)|)
      ensures NeverOvertaken(old(history)) ==> NeverOvertaken(history)
    {
      hide Tracks, Filled, Tally, NeverOvertaken;
      queued := [];
      NothingGiven(keyboardQueue);
      TallyNone(history);
      assert keyboardQueue + [] == keyboardQueue;
      for i := 0 to |bytes|
        invariant Tracks(history, keyboardQueue, toKeyboard, held)
        invariant keyboardQueue == Filled(old(keyboardQueue), bytes[..i]) == old(keyboardQueue) + queued
        invariant |old(history)| <= |history| && Tally(old(history), history, queued, [], bytes[..i])
        invariant OnlyQueued(history, |old(history)|)
        invariant NeverOvertaken(old(history)) ==> NeverOvertaken(history)
      {
        FilledTwice(old(keyboardQueue), bytes[..i], [bytes[i]]);
        assert bytes[..i + 1] == bytes[..i] + [bytes[i]];
        ghost var one, none: seq<Byte>, h := [], [], history;
        one := EnqueueKeyboardData(bytes[i], held);
        assert old(keyboardQueue) + (queued + one) == (old(keyboardQueue) + queued) + one;
        TallyThen(old(history), h, history, queued, none, bytes[..i], one, none, [bytes[i]]);
        assert none + none == none;
        StillQueued(old(history), h, history, one, [bytes[i]]);
        queued := queued + one;
      }
      assert bytes[..|bytes|] == bytes;
    }

    /** Wait until a byte is on the port and take it, or until `counter` idle looks have passed.
        A port that shows nothing more is idle. */
    method TakeFromPort(counter: nat) returns (left: nat, status: Poll, ghost idle: seq<Poll>)
      modifies this`polls
      ensures left <= counter && AllIdle(idle)
      ensures left > 0 ==> status.Ready? && old(polls) == idle + [status] + polls && |idle| == counter - left
      ensures left == 0 ==> old(polls) == idle + polls && |idle| <= counter && (polls != [] ==> |idle| == counter)
    {
      left, status, idle := counter, NotReady, [];
      while left > 0 && (polls == [] || polls[0].NotReady?)
        invariant left <= counter && AllIdle(idle)
        invariant old(polls) == idle + polls
        invariant |idle| <= counter - left && (polls != [] ==> |idle| == counter - left)
        decreases left
      {
        left := left - 1;
        if polls != [] {
          idle := idle + [polls[0]];
          polls := polls[1..];
        }
      }
      if left > 0 {
        status := polls[0];
        polls := polls[1..];
      }
    }

    /** One turn of a read: the next byte of either device, queued keyboard bytes first when the
        keyboard is read. `held` are the keyboard bytes the read holds already, `more` the looks at the
        port this took, `given` what the keyboard interrupt handler was given meanwhile. */
    method NextByte(device: Device, counter: nat, ghost held: seq<Byte>)
      returns (left: nat, requested: bool, byte: Byte, ghost more: seq<Poll>, ghost arrived: seq<Byte>,
               ghost given: seq<seq<Byte>>)
      requires counter > 0 && Tracks(history, keyboardQueue, toKeyboard, held)
      modifies this`polls, this`irqs, this`keyboardQueue, this`history
      ensures Tracks(history, keyboardQueue, toKeyboard,
                     held + if left > 0 && requested && device == Keyboard then [byte] else [])
      ensures left <= counter && old(polls) == more + polls
      ensures Tally(old(history), history, arrived, if device == Keyboard then From(more, Keyboard) else [],
                    Flat(given))
      ensures IdlePolls(more) <= counter - left && (left > 0 || polls != [] ==> IdlePolls(more) == counter - left)
      ensures left > 0 && requested && device == Keyboard ==> [byte] + keyboardQueue == old(keyboardQueue) + arrived
      ensures (left == 0 || !requested || device == Mouse) ==> keyboardQueue == old(keyboardQueue) + arrived
      ensures old(irqs) == given + irqs && |given| <= 1
      ensures device == Mouse ==> keyboardQueue == Filled(old(keyboardQueue), Flat(given))
      ensures device == Mouse ==> From(more, Mouse) == if left > 0 && requested then [byte] else []
      ensures From(more, Other(device)) == if left > 0 && !requested then [byte] else []
      ensures left > 0 && !requested ==> |polls| < |old(polls)|
      ensures device == Mouse ==> OnlyQueued(history, |old(history)|)
      ensures NeverOvertaken(old(history)) ==> NeverOvertaken(history)
    {
      hide From, IdlePolls, Tracks, Filled, NeverOvertaken, Tally, Flat, OnlyQueued;
      arrived, given := KeyboardInterrupts(held);
      more, left := [], counter;
      NoPolls(device);
      ghost var queue, h := keyboardQueue, history;
      if device == Keyboard {
        var ok, key := DequeueKeyboardData();
        if ok {
          TrackRemoval(history, queue, toKeyboard, held, Fetch);
          NotOvertaken(history, queue, toKeyboard, held, Fetch);
          assert queue[1..] == keyboardQueue;
          history := history + [Fetch];
          TallyThen(old(history), h, history, arrived, [], Flat(given), [], [], []);
          assert arrived + [] == arrived && [] + [] == From([], Keyboard) && Flat(given) + [] == Flat(given);
          return counter, true, key, [], arrived, given;
        }
      }
      assert keyboardQueue == queue;
      var status;
      ghost var idle;
      left, status, idle := TakeFromPort(counter);
      IdleBytes(idle, device);
      if left == 0 {
        assert held + [] == held;
        return 0, false, 0, idle, arrived, given;
      }
      PollAppend(idle, status, device);
      PollAppend(idle, status, Other(device));
      more := idle + [status];
      requested, byte := status.from == device, status.byte;
      if requested && device == Keyboard {
        TrackArrival(history, keyboardQueue, toKeyboard, held, Take(byte));
        NotOvertaken(history, queue, toKeyboard, held, Take(byte));
        history := history + [Take(byte)];
        TallyThen(old(history), h, history, arrived, [], Flat(given), [byte], [byte], []);
        assert [] + [byte] == From(more, Keyboard) && Flat(given) + [] == Flat(given);
        assert [byte] + keyboardQueue == old(keyboardQueue) + (arrived + [byte]);
        arrived := arrived + [byte];
      } else {
        assert held + [] == held;
      }
    }

    /** The same turn, with its part in the accounts of the read. */
    method Turn(device: Device, counter: nat, ghost seen: seq<Byte>, ghost all: seq<Poll>, ghost arrived: seq<Byte>,
                ghost given: seq<seq<Byte>>,
                ghost polls0: seq<Poll>, ghost h0: seq<Action>, ghost irqs0: seq<seq<Byte>>, ghost queue0: seq<Byte>)
      returns (left: nat, requested: bool, byte: Byte, ghost step: seq<Byte>, ghost all': seq<Poll>,
               ghost new_: seq<Byte>, ghost given': seq<seq<Byte>>)
      requires counter > 0 && Tracks(history, keyboardQueue, toKeyboard, HeldBy(device, seen))
      requires Account(device, polls0, queue0, all, polls, arrived, keyboardQueue, seen, counter)
      requires Progress(device, h0, history, irqs0, irqs, given, queue0, keyboardQueue, arrived, From(all, Keyboard))
      modifies this`polls, this`irqs, this`keyboardQueue, this`history
      ensures step == (if left > 0 && requested then [byte] else []) && left <= counter
      ensures Tracks(history, keyboardQueue, toKeyboard, HeldBy(device, seen + step))
      ensures Account(device, polls0, queue0, all', polls, arrived + new_, keyboardQueue, seen + step, left)
      ensures Progress(device, h0, history, irqs0, irqs, given', queue0, keyboardQueue, arrived + new_,
                       From(if device == Keyboard then all' else all, Keyboard))
      ensures From(all', Other(device)) == From(all, Other(device)) + if left > 0 && !requested then [byte] else []
      ensures device == Mouse && (left == 0 || requested) ==> From(all', Keyboard) == From(all, Keyboard)
      ensures left > 0 && !requested ==> |polls| < |old(polls)|
    {
      hide From, IdlePolls, Account, Tracks, Progress, Tally, Filled, Flat, NeverOvertaken;
      ghost var queue, polls1, irqs1, h1 := keyboardQueue, polls, irqs, history;
      ghost var more, batch;
      left, requested, byte, more, new_, batch := NextByte(device, counter, HeldBy(device, seen));
      step := if left > 0 && requested then [byte] else [];
      AddToAccount(device, polls0, queue0, all, polls1, arrived, queue, seen, counter, more, polls, new_, keyboardQueue,
                   step, left);
      AddProgress(device, h0, h1, history, irqs0, irqs1, irqs, given, batch, queue0, queue, keyboardQueue, arrived,
                  new_,
                  From(all, Keyboard), if device == Keyboard then From(more, Keyboard) else []);
      FromConcat(all, more, Keyboard);
      FromConcat(all, more, Other(device));
      assert From(all, Keyboard) + [] == From(all, Keyboard);
      assert HeldBy(device, seen + step) == HeldBy(device, seen) + HeldBy(device, step);
      all', given' := all + more, given + batch;
    }

    /** A byte of the requested stream is there: it, or with it a held first byte, may settle the
        read; otherwise it becomes the held one. */
    method Judge(device: Device, expected: Byte, firstByteHeld: bool, firstByte: Byte,
                 readByte: Byte)
      returns (done: bool, r: Byte)
      requires firstByteHeld ==> firstByte != expected
      modifies this`toKeyboard, this`toMouse
      ensures done <==> readByte == expected || firstByteHeld
      ensures var seen := (if firstByteHeld then [firstByte] else []) + [readByte];
              if done then r == Answer(seen, expected) && Log(device) == old(Log(device)) + PassedOn(seen, expected)
              else Log(device) == old(Log(device))
      ensures Log(Other(device)) == old(Log(Other(device)))
      ensures device == Mouse || !done ==> toKeyboard == old(toKeyboard)
      ensures done && device == Keyboard ==>
                toKeyboard == old(toKeyboard) + PassedOn((if firstByteHeld then [firstByte] else []) + [readByte],
                                                         expected)
    {
      if readByte == expected {
        if firstByteHeld {
          DispatchDriverInterrupt(device, firstByte);
        }
        return true, readByte;
      }
      if firstByteHeld {
        DispatchDriverInterrupt(device, readByte);
        return true, firstByte;
      }
      done, r := false, 0;
    }

    /** The end of a read: a keyboard read lets go of what it holds, one byte of it having been dispatched
        if there are two. */
    ghost method LetGo(device: Device, seen: seq<Byte>, expected: Byte, driver: seq<Byte>)
      requires |seen| <= 2 && Tracks(history, keyboardQueue, driver, HeldBy(device, seen))
      requires toKeyboard == driver + if device == Keyboard then PassedOn(seen, expected) else []
      modifies this`history
      ensures Tracks(history, keyboardQueue, toKeyboard, []) && Tally(old(history), history, [], [], [])
      ensures device == Mouse ==> history == old(history)
      ensures NeverOvertaken(old(history)) ==> NeverOvertaken(history)
    {
      hide Tracks, Tally, NeverOvertaken;
      assert driver + [] == driver;
      TallyNone(history);
      if device == Keyboard {
        var a := if |seen| < 2 then Return else Hand(if seen[1] == expected then 0 else 1);
        TrackEnd(history, keyboardQueue, driver, seen, a);
        NotOvertaken(history, keyboardQueue, driver, seen, a);
        assert toKeyboard == if a.Hand? then driver + [seen[a.k]] else driver;
        history := history + [a];
      }
    }

    ghost method End(device: Device, seen: seq<Byte>, expected: Byte, driver: seq<Byte>, h0: seq<Action>,
                     irqs0: seq<seq<Byte>>,
                     given: seq<seq<Byte>>, queue0: seq<Byte>, arrived: seq<Byte>, taken: seq<Byte>)
      requires |seen| <= 2 && Tracks(history, keyboardQueue, driver, HeldBy(device, seen))
      requires toKeyboard == driver + if device == Keyboard then PassedOn(seen, expected) else []
      requires Progress(device, h0, history, irqs0, irqs, given, queue0, keyboardQueue, arrived, taken)
      modifies this`history
      ensures Valid() && Tally(h0, history, arrived, taken, Flat(given)) && irqs0 == given + irqs
      ensures device == Mouse ==> keyboardQueue == Filled(queue0, Flat(given)) && MouseActions(history, |h0|)
      ensures device == Keyboard && NeverOvertaken(h0) ==> NeverOvertaken(history)
    {
      hide Tracks, Tally, Filled, Flat, NeverOvertaken, PassedOn;
      ghost var h := history;
      LetGo(device, seen, expected, driver);
      TallyThen(h0, h, history, arrived, taken, Flat(given), [], [], []);
      assert arrived + [] == arrived && taken + [] == taken && Flat(given) + [] == Flat(given);
    }

    /** The other device's byte is dispatched; for a mouse read that is a keyboard byte off the port. */
    method DispatchOther(device: Device, byte: Byte)
      requires Tracks(history, keyboardQueue, toKeyboard, []) || device == Keyboard
      modifies this`toKeyboard, this`toMouse, this`history
      ensures Log(Other(device)) == old(Log(Other(device))) + [byte] && Log(device) == old(Log(device))
      ensures device == Mouse ==>
                Tracks(history, keyboardQueue, toKeyboard, []) && history == old(history) + [Pass(byte)]
      ensures device == Mouse ==> Tally(old(history), history, [byte], [byte], [])
      ensures device == Keyboard ==> history == old(history) && toKeyboard == old(toKeyboard)
    {
      hide Tracks, Tally;
      if device == Mouse {
        TrackArrival(history, keyboardQueue, toKeyboard, [], Pass(byte));
        history := history + [Pass(byte)];
      }
      DispatchDriverInterrupt(Other(device), byte);
    }

    /** The plain read: the first byte of the requested stream, or 0 at the timeout. */
    method ReadDataPort(device: Device)
      returns (r: Byte, ghost seen: seq<Byte>, ghost all: seq<Poll>, ghost arrived: seq<Byte>,
               ghost given: seq<seq<Byte>>)
      requires Valid()
      modifies this
      ensures Valid()
      ensures |seen| <= 1 && r == if seen == [] then 0 else seen[0]
      ensures old(polls) == all + polls && Log(device) == old(Log(device))
      ensures Log(Other(device)) == old(Log(Other(device))) + From(all, Other(device))
      ensures device == Mouse ==> seen == From(all, Mouse)
      ensures device == Keyboard ==> seen + keyboardQueue == old(keyboardQueue) + arrived
      ensures Tally(old(history), history, arrived, From(all, Keyboard), Flat(given)) && old(irqs) == given + irqs
      ensures device == Mouse ==> keyboardQueue == Filled(old(keyboardQueue), Flat(given))
      ensures device == Mouse ==> MouseActions(history, |old(history)|)
      ensures device == Keyboard && NeverOvertaken(old(history)) ==> NeverOvertaken(history)
      ensures seen != [] ==> IdlePolls(all) < TIMEOUT
      ensures seen == [] ==> polls == [] || IdlePolls(all) == TIMEOUT
    {
      hide From, IdlePolls, Log, Account, Tracks, Progress, Tally, Filled, Flat,
           NeverOvertaken, MouseActions;
      var timeoutCounter: nat := TIMEOUT;
      seen, all, arrived, given := [], [], [], [];
      NoPolls(device);
      StartAccount(device, polls, keyboardQueue);
      StartProgress(device, history, irqs, keyboardQueue);
      while true
        invariant timeoutCounter > 0 && seen == []
        invariant Tracks(history, keyboardQueue, toKeyboard, HeldBy(device, seen))
        invariant Log(device) == old(Log(device))
        invariant Log(Other(device)) == old(Log(Other(device))) + From(all, Other(device))
        invariant Account(device, old(polls), old(keyboardQueue), all, polls, arrived, keyboardQueue, seen,
                          timeoutCounter)
        invariant Progress(device, old(history), history, old(irqs), irqs, given, old(keyboardQueue), keyboardQueue,
                           arrived,
                           From(all, Keyboard))
        decreases |polls|
      {
        var requested, readByte;
        ghost var new_, step, before := [], [], From(all, Keyboard);
        timeoutCounter, requested, readByte, step, all, new_, given :=
          Turn(device, timeoutCounter, seen, all, arrived, given, old(polls), old(history), old(irqs),
               old(keyboardQueue));
        seen, arrived := seen + step, arrived + new_;
        CloseAccount(device, old(polls), old(keyboardQueue), all, polls, arrived, keyboardQueue, seen, timeoutCounter);
        if timeoutCounter == 0 || requested {
          End(device, seen, 0, toKeyboard, old(history), old(irqs), given, old(keyboardQueue), arrived,
              From(all, Keyboard));
          return if timeoutCounter == 0 then 0 else readByte, seen, all, arrived, given;
        }
        if device == Mouse {
          MouseArrival(old(polls), old(keyboardQueue), all, polls, arrived, keyboardQueue, seen, timeoutCounter,
                       readByte);
          PassProgress(old(history), history, old(irqs), irqs, given, old(keyboardQueue), keyboardQueue, arrived,
                       toKeyboard, readByte,
                       before);
          arrived := arrived + [readByte];
        }
        DispatchOther(device, readByte);
      }
    }

    /** The work loop serves an interrupt: first the queued keyboard bytes, then what the port shows,
        until neither has any. It never overtakes, and leaves the queue empty. */
    method InterruptOccurred() returns (ghost all: seq<Poll>, ghost arrived: seq<Byte>, ghost given: seq<seq<Byte>>)
      requires Valid()
      modifies this
      ensures Valid() && keyboardQueue == []
      ensures old(polls) == all + polls && toMouse == old(toMouse) + From(all, Mouse)
      ensures toKeyboard == old(toKeyboard) + old(keyboardQueue) + arrived
      ensures Tally(old(history), history, arrived, From(all, Keyboard), Flat(given)) && old(irqs) == given + irqs
      ensures NeverOvertaken(old(history)) ==> NeverOvertaken(history)
    {
      hide From, Tracks, Tally, Filled, NeverOvertaken, Flat;
      all, arrived, given := [], [], [];
      NoPolls(Mouse);
      NothingGiven([]);
      TallyNone(history);
      ghost var start := toKeyboard + keyboardQueue;
      assert [] + irqs == irqs;
      while true
        invariant Tracks(history, keyboardQueue, toKeyboard, [])
        invariant old(polls) == all + polls && toMouse == old(toMouse) + From(all, Mouse)
        invariant Tally(old(history), history, arrived, From(all, Keyboard), Flat(given)) && old(irqs) == given + irqs
        invariant toKeyboard + keyboardQueue == start + arrived
        invariant NeverOvertaken(old(history)) ==> NeverOvertaken(history)
        decreases |irqs|, |keyboardQueue| + |polls|
      {
        arrived, given := ServeInterrupts(old(history), old(irqs), start, all, arrived, given);
        ghost var h := history;
        if keyboardQueue != [] {
          DispatchQueued();
          TallyThen(old(history), h, history, arrived, From(all, Keyboard), Flat(given), [], [], []);
          assert arrived + [] == arrived && From(all, Keyboard) + [] == From(all, Keyboard) &&
              Flat(given) + [] == Flat(given);
        } else {
          assert toKeyboard + keyboardQueue == toKeyboard;
          var found;
          ghost var looks, byte;
          found, looks, byte := DispatchFromPort();
          FromConcat(all, looks, Mouse);
          FromConcat(all, looks, Keyboard);
          TallyThen(old(history), h, history, arrived, From(all, Keyboard), Flat(given), byte, byte, []);
          assert Flat(given) + [] == Flat(given);
          assert toKeyboard + keyboardQueue == toKeyboard == start + (arrived + byte);
          all, arrived := all + looks, arrived + byte;
          if !found {
            return;
          }
        }
      }
    }

    /** The keyboard interrupts before a turn of the drain. */
    method ServeInterrupts(ghost h0: seq<Action>, ghost irqs0: seq<seq<Byte>>, ghost start: seq<Byte>,
                           ghost all: seq<Poll>,
                           ghost arrived: seq<Byte>, ghost given: seq<seq<Byte>>)
      returns (ghost arrived': seq<Byte>, ghost given': seq<seq<Byte>>)
      requires Tracks(history, keyboardQueue, toKeyboard, []) && toKeyboard + keyboardQueue == start + arrived
      requires Tally(h0, history, arrived, From(all, Keyboard), Flat(given)) && irqs0 == given + irqs
      modifies this`keyboardQueue, this`history, this`irqs
      ensures Tracks(history, keyboardQueue, toKeyboard, []) && toKeyboard + keyboardQueue == start + arrived'
      ensures Tally(h0, history, arrived', From(all, Keyboard), Flat(given')) && irqs0 == given' + irqs
      ensures |irqs| < |old(irqs)| || (irqs == old(irqs) && keyboardQueue == old(keyboardQueue))
      ensures NeverOvertaken(old(history)) ==> NeverOvertaken(history)
    {
      hide From, Tracks, Tally, Filled, NeverOvertaken, Flat;
      NothingGiven(keyboardQueue);
      ghost var line, h := toKeyboard + keyboardQueue, history;
      ghost var queued, batch;
      queued, batch := KeyboardInterrupts([]);
      assert toKeyboard + keyboardQueue == line + queued == start + (arrived + queued);
      TallyThen(h0, h, history, arrived, From(all, Keyboard), Flat(given), queued, [], Flat(batch));
      FlatAppend(given, batch);
      assert From(all, Keyboard) + [] == From(all, Keyboard) && given + (batch + irqs) == (given + batch) + irqs;
      arrived', given' := arrived + queued, given + batch;
    }

    /** The oldest queued byte goes to the driver. */
    method DispatchQueued()
      requires Valid() && keyboardQueue != []
      modifies this`keyboardQueue, this`toKeyboard, this`toMouse, this`history
      ensures Valid() && toKeyboard + keyboardQueue == old(toKeyboard) + old(keyboardQueue)
      ensures |keyboardQueue| < |old(keyboardQueue)|
      ensures toMouse == old(toMouse) && Tally(old(history), history, [], [], [])
      ensures NeverOvertaken(old(history)) ==> NeverOvertaken(history)
    {
      hide Tracks, Tally, NeverOvertaken;
      TrackRemoval(history, keyboardQueue, toKeyboard, [], Drain);
      NotOvertaken(history, keyboardQueue, toKeyboard, [], Drain);
      var ok, key := DequeueKeyboardData();
      assert old(keyboardQueue)[0] == key && old(keyboardQueue)[1..] == keyboardQueue;
      history := history + [Drain];
      DispatchDriverInterrupt(Keyboard, key);
    }

    /** Two looks at the port: a mouse byte at the first, else a keyboard byte at the second. */
    method DispatchFromPort() returns (found: bool, ghost looks: seq<Poll>, ghost byte: seq<Byte>)
      requires Valid() && keyboardQueue == []
      modifies this`polls, this`toKeyboard, this`toMouse, this`history
      ensures Valid() && old(polls) == looks + polls && (found ==> |polls| < |old(polls)|)
      ensures toMouse == old(toMouse) + From(looks, Mouse)
      ensures toKeyboard == old(toKeyboard) + byte && byte == From(looks, Keyboard)
      ensures Tally(old(history), history, byte, byte, [])
      ensures NeverOvertaken(old(history)) ==> NeverOvertaken(history)
    {
      hide Tracks, Tally, NeverOvertaken, From, IdlePolls;
      found, looks, byte := true, [], [];
      TallyNone(history);
      var status;
      status, looks := Look();
      IdleBytes(looks, Mouse);
      if status.Ready? && status.from == Mouse {
        PollAppend(looks, status, Mouse);
        PollAppend(looks, status, Keyboard);
        looks := looks + [status];
        polls := polls[1..];
        DispatchDriverInterrupt(Mouse, status.byte);
        return;
      }
      ghost var idle;
      status, idle := Look();
      IdleBytes(idle, Mouse);
      FromConcat(looks, idle, Mouse);
      FromConcat(looks, idle, Keyboard);
      looks := looks + idle;
      found := status.Ready? && status.from == Keyboard;
      if found {
        PollAppend(looks, status, Mouse);
        PollAppend(looks, status, Keyboard);
        looks := looks + [status];
        polls := polls[1..];
        byte := [status.byte];
        NotOvertaken(history, keyboardQueue, toKeyboard, [], Pass(status.byte));
        DispatchOther(Mouse, status.byte);
      }
    }

    /** One look at the status port; a byte that is ready stays there. */
    method Look() returns (status: Poll, ghost idle: seq<Poll>)
      modifies this`polls
      ensures old(polls) == idle + polls && AllIdle(idle)
      ensures status.Ready? ==> polls != [] && polls[0] == status
    {
      status, idle := NotReady, [];
      if polls != [] {
        status := polls[0];
        if status.NotReady? {
          idle := [status];
          polls := polls[1..];
        }
      }
    }

    /** The read that expects a byte. `seen` are the bytes of the requested stream it consumed,
        `all` the looks at the port it took, `arrived` the keyboard bytes that came in meanwhile, `given`
        what the keyboard interrupt handler was given. */
    method ReadDataPortExpecting(device: Device, expected: Byte)
      returns (r: Byte, ghost seen: seq<Byte>, ghost all: seq<Poll>, ghost arrived: seq<Byte>,
               ghost given: seq<seq<Byte>>)
      requires Valid()
      modifies this
      ensures Valid()
      ensures Plausible(seen, expected) && r == Answer(seen, expected)
      // every byte consumed is returned or dispatched once, to its own device
      ensures old(polls) == all + polls
      ensures Log(device) == old(Log(device)) + PassedOn(seen, expected)
      ensures Log(Other(device)) == old(Log(Other(device))) + From(all, Other(device))
      // the requested stream is consumed in arrival order
      ensures device == Mouse ==> seen == From(all, Mouse)
      ensures device == Keyboard ==> seen + keyboardQueue == old(keyboardQueue) + arrived
      // and what came in is what the port showed and the interrupt handler was given, less drops
      ensures Tally(old(history), history, arrived, From(all, Keyboard), Flat(given)) && old(irqs) == given + irqs
      // a mouse read leaves the queue to the interrupt handler, a keyboard read never overtakes it
      ensures device == Mouse ==> keyboardQueue == Filled(old(keyboardQueue), Flat(given))
      ensures device == Mouse ==> MouseActions(history, |old(history)|)
      ensures device == Keyboard && NeverOvertaken(old(history)) ==> NeverOvertaken(history)
      // it stops early only for the expected byte, a second byte or the timeout
      ensures (|seen| == 2 || (|seen| == 1 && seen[0] == expected)) ==> IdlePolls(all) < TIMEOUT
      ensures !(|seen| == 2 || (|seen| == 1 && seen[0] == expected)) ==> polls == [] || IdlePolls(all) == TIMEOUT
    {
      hide From, IdlePolls, Answer, PassedOn, Log, Account, Tracks, Progress, Tally, Filled, Flat,
           NeverOvertaken, MouseActions;
      var firstByte: Byte, firstByteHeld, timeoutCounter: nat := 0, false, TIMEOUT;
      seen, all, arrived, given := [], [], [], [];
      NoPolls(device);
      StartAccount(device, polls, keyboardQueue);
      StartProgress(device, history, irqs, keyboardQueue);
      while true
        invariant timeoutCounter > 0
        invariant seen == if firstByteHeld then [firstByte] else []
        invariant firstByteHeld ==> firstByte != expected
        invariant Tracks(history, keyboardQueue, toKeyboard, HeldBy(device, seen))
        invariant Log(device) == old(Log(device))
        invariant Log(Other(device)) == old(Log(Other(device))) + From(all, Other(device))
        invariant Account(device, old(polls), old(keyboardQueue), all, polls, arrived, keyboardQueue, seen,
                          timeoutCounter)
        invariant Progress(device, old(history), history, old(irqs), irqs, given, old(keyboardQueue), keyboardQueue,
                           arrived,
                           From(all, Keyboard))
        decreases 2 - |seen|, |polls|
      {
        var requested, readByte;
        ghost var new_, step, before := [], [], From(all, Keyboard);
        timeoutCounter, requested, readByte, step, all, new_, given :=
          Turn(device, timeoutCounter, seen, all, arrived, given, old(polls), old(history), old(irqs),
               old(keyboardQueue));
        seen, arrived := seen + step, arrived + new_;
        CloseAccount(device, old(polls), old(keyboardQueue), all, polls, arrived, keyboardQueue, seen, timeoutCounter);
        if timeoutCounter == 0 {
          NoSecondByte(seen, expected);
          End(device, seen, expected, toKeyboard, old(history), old(irqs), given, old(keyboardQueue), arrived,
              From(all, Keyboard));
          return if firstByteHeld then firstByte else 0, seen, all, arrived, given;
        }
        if requested {
          var done;
          ghost var driver := toKeyboard;
          done, r := Judge(device, expected, firstByteHeld, firstByte, readByte);
          assert seen == (if firstByteHeld then [firstByte] else []) + [readByte];
          if done {
            End(device, seen, expected, driver, old(history), old(irqs), given, old(keyboardQueue), arrived,
                From(all, Keyboard));
            return r, seen, all, arrived, given;
          }
          firstByteHeld, firstByte := true, readByte;
          assert seen == [firstByte];
        } else {
          if device == Mouse {
            MouseArrival(old(polls), old(keyboardQueue), all, polls, arrived, keyboardQueue, seen, timeoutCounter,
                         readByte);
            PassProgress(old(history), history, old(irqs), irqs, given, old(keyboardQueue), keyboardQueue, arrived,
                         toKeyboard, readByte,
                       before);
            arrived := arrived + [readByte];
          }
          DispatchOther(device, readByte);
        }
      }
    }
  }

  function HeldBy(device: Device, seen: seq<Byte>): seq<Byte> { if device == Keyboard then seen else [] }

  ghost predicate OnlyQueued(h: seq<Action>, n: nat)
  {
    forall i :: n <= i < |h| ==> h[i].Queue? || h[i].Drop?
  }

  lemma {:induction false} StillQueued(h0: seq<Action>, h1: seq<Action>, h: seq<Action>, arrived: seq<Byte>,
                                       offered: seq<Byte>)
    requires |h0| <= |h1| && OnlyQueued(h1, |h0|) && OnlyQueued(h, |h1|) && Tally(h1, h, arrived, [], offered)
    ensures |h0| <= |h| && OnlyQueued(h, |h0|)
  {
    assert h1 <= h;
    forall i | |h0| <= i < |h| ensures h[i].Queue? || h[i].Drop? {
      assert i < |h1| ==> h[i] == h1[i];
    }
  }

  /** What a read has done to keyboard bytes so far. */
  ghost predicate Progress(device: Device, h0: seq<Action>, h: seq<Action>, irqs0: seq<seq<Byte>>, irqs: seq<seq<Byte>>,
                           given: seq<seq<Byte>>, queue0: seq<Byte>, queue: seq<Byte>, arrived: seq<Byte>,
                           taken: seq<Byte>)
  {
    && Tally(h0, h, arrived, taken, Flat(given)) && irqs0 == given + irqs
    && (device == Mouse ==> queue == Filled(queue0, Flat(given)) && MouseActions(h, |h0|))
    && (device == Keyboard && NeverOvertaken(h0) ==> NeverOvertaken(h))
  }

  lemma {:induction false} StartProgress(device: Device, h: seq<Action>, irqs: seq<seq<Byte>>, queue: seq<Byte>)
    ensures Progress(device, h, h, irqs, irqs, [], queue, queue, [], [])
  {
    hide Filled, NeverOvertaken, Tally;
    NothingGiven(queue);
    TallyNone(h);
    assert [] + irqs == irqs;
  }

  lemma {:induction false} AddProgress(device: Device, h0: seq<Action>, h1: seq<Action>, h: seq<Action>,
                                       irqs0: seq<seq<Byte>>,
                                       irqs1: seq<seq<Byte>>, irqs: seq<seq<Byte>>, given: seq<seq<Byte>>,
                                       batch: seq<seq<Byte>>, queue0: seq<Byte>, queue1: seq<Byte>, queue: seq<Byte>,
                                       arrived: seq<Byte>, more: seq<Byte>, taken: seq<Byte>, taken': seq<Byte>)
    requires Progress(device, h0, h1, irqs0, irqs1, given, queue0, queue1, arrived, taken)
    requires Tally(h1, h, more, taken', Flat(batch)) && irqs1 == batch + irqs && |batch| <= 1
    requires device == Mouse ==> OnlyQueued(h, |h1|) && queue == Filled(queue1, Flat(batch))
    requires NeverOvertaken(h1) ==> NeverOvertaken(h)
    ensures Progress(device, h0, h, irqs0, irqs, given + batch, queue0, queue, arrived + more, taken + taken')
  {
    assert h1 <= h && h0 <= h1;
    hide Filled, NeverOvertaken, Flat, Tally;
    MoreGiven(queue0, given, batch);
    FlatAppend(given, batch);
    TallyThen(h0, h1, h, arrived, taken, Flat(given), more, taken', Flat(batch));
    assert given + (batch + irqs) == (given + batch) + irqs;
  }

  lemma {:induction false} PassProgress(h0: seq<Action>, h: seq<Action>, irqs0: seq<seq<Byte>>, irqs: seq<seq<Byte>>,
                                        given: seq<seq<Byte>>, queue0: seq<Byte>, queue: seq<Byte>, arrived: seq<Byte>,
                                        driver: seq<Byte>, b: Byte, taken: seq<Byte>)
    requires Progress(Mouse, h0, h, irqs0, irqs, given, queue0, queue, arrived, taken) && Tracks(h, queue, driver, [])
    ensures Progress(Mouse, h0, h + [Pass(b)], irqs0, irqs, given, queue0, queue, arrived + [b], taken + [b])
  {
    assert h0 <= h;
    PassIsMouseAction(h, |h0|, b);
    hide Filled, NeverOvertaken, Flat, Tracks, Tally, MouseActions;
    TrackArrival(h, queue, driver, [], Pass(b));
    TallyThen(h0, h, h + [Pass(b)], arrived, taken, Flat(given), [b], [b], []);
    assert Flat(given) + [] == Flat(given);
  }

  /** What a read has consumed so far: looks at the port, bytes of the requested stream in
      arrival order, idle looks. */
  ghost predicate Account(device: Device, polls0: seq<Poll>, queue0: seq<Byte>, all: seq<Poll>, polls: seq<Poll>,
                          arrived: seq<Byte>, queue: seq<Byte>, seen: seq<Byte>, counter: nat)
  {
    && polls0 == all + polls
    && (device == Mouse ==> seen == From(all, Mouse))
    && (device == Keyboard ==> seen + queue == queue0 + arrived)
    && IdlePolls(all) + counter <= TIMEOUT
    && (counter > 0 || polls != [] ==> IdlePolls(all) + counter == TIMEOUT)
  }

  lemma {:induction false} StartAccount(device: Device, polls: seq<Poll>, queue: seq<Byte>)
    ensures Account(device, polls, queue, [], polls, [], queue, [], TIMEOUT)
  {
    assert [] + polls == polls;
  }

  lemma {:induction false} AddToAccount(device: Device, polls0: seq<Poll>, queue0: seq<Byte>, all: seq<Poll>,
                                        polls: seq<Poll>,
                                        arrived: seq<Byte>, queue: seq<Byte>, seen: seq<Byte>, counter: nat,
                                        more: seq<Poll>, polls': seq<Poll>, new_: seq<Byte>, queue': seq<Byte>,
                                        step: seq<Byte>, counter': nat)
    requires Account(device, polls0, queue0, all, polls, arrived, queue, seen, counter) && counter > 0
    requires polls == more + polls' && counter' <= counter
    requires device == Mouse ==> From(more, Mouse) == step
    requires device == Keyboard ==> step + queue' == queue + new_
    requires IdlePolls(more) <= counter - counter'
    requires (counter' > 0 || polls' != [] ==> IdlePolls(more) == counter - counter')
    ensures Account(device, polls0, queue0, all + more, polls', arrived + new_, queue', seen + step, counter')
  {
    hide From, IdlePolls;
    FromConcat(all, more, Mouse);
    IdleConcat(all, more);
    assert all + (more + polls') == (all + more) + polls';
    assert (seen + queue) + new_ == seen + (queue + new_);
    assert (queue0 + arrived) + new_ == queue0 + (arrived + new_);
    assert (seen + step) + queue' == seen + (step + queue');
  }

  /** What arrives does not matter to the account of a mouse read. */
  lemma {:induction false} MouseArrival(polls0: seq<Poll>, queue0: seq<Byte>, all: seq<Poll>, polls: seq<Poll>,
                                        arrived: seq<Byte>, queue: seq<Byte>, seen: seq<Byte>, counter: nat, b: Byte)
    requires Account(Mouse, polls0, queue0, all, polls, arrived, queue, seen, counter)
    ensures Account(Mouse, polls0, queue0, all, polls, arrived + [b], queue, seen, counter)
  {
  }

  lemma {:induction false} CloseAccount(device: Device, polls0: seq<Poll>, queue0: seq<Byte>, all: seq<Poll>,
                                        polls: seq<Poll>,
                                        arrived: seq<Byte>, queue: seq<Byte>, seen: seq<Byte>, counter: nat)
    requires Account(device, polls0, queue0, all, polls, arrived, queue, seen, counter)
    ensures polls0 == all + polls
    ensures device == Mouse ==> seen == From(all, Mouse)
    ensures device == Keyboard ==> seen + queue == queue0 + arrived
    ensures counter > 0 ==> IdlePolls(all) < TIMEOUT
    ensures counter == 0 ==> polls == [] || IdlePolls(all) == TIMEOUT
  {
  }

  ghost predicate AllIdle(polls: seq<Poll>)
  {
    forall i :: 0 <= i < |polls| ==> polls[i] == NotReady
  }

  lemma {:induction false} NoSecondByte(seen: seq<Byte>, expected: Byte)
    requires |seen| < 2
    ensures Answer(seen, expected) == (if seen == [] then 0 else seen[0]) && PassedOn(seen, expected) == []
  {
  }

  lemma {:induction false} NoPolls(d: Device)
    ensures From([], d) == [] && From([], Other(d)) == [] && IdlePolls([]) == 0
  {
  }

  lemma {:induction false} IdleBytes(idle: seq<Poll>, d: Device)
    requires AllIdle(idle)
    ensures From(idle, d) == [] && From(idle, Other(d)) == [] && IdlePolls(idle) == |idle|
  {
    if idle != [] {
      IdleBytes(idle[..|idle| - 1], d);
    }
  }

  lemma {:induction false} FromConcat(a: seq<Poll>, b: seq<Poll>, d: Device)
    ensures From(a + b, d) == From(a, d) + From(b, d)
  {
    hide PollBytes;
    if b == [] {
      assert a + b == a;
    } else {
      var n := |b| - 1;
      FromConcat(a, b[..n], d);
      assert (a + b)[..|a + b| - 1] == a + b[..n];
      assert (From(a, d) + From(b[..n], d)) + PollBytes(b[n], d) == From(a, d) + (From(b[..n], d) + PollBytes(b[n], d));
    }
  }

  lemma {:induction false} IdleConcat(a: seq<Poll>, b: seq<Poll>)
    ensures IdlePolls(a + b) == IdlePolls(a) + IdlePolls(b)
  {
    if b == [] {
      assert a + b == a;
    } else {
      IdleConcat(a, b[..|b| - 1]);
      assert (a + b)[..|a + b| - 1] == a + b[..|b| - 1];
    }
  }

  /** A mouse read that meets a keyboard byte while another is queued: the driver gets the later byte
      first, and the earlier one when the queue is next served. */
  method OvertakingRead(c: Controller, first: Byte, later: Byte, answer: Byte)
    requires c.Valid() && c.irqs == [] && c.keyboardQueue == [first]
    requires c.polls == [Ready(Keyboard, later), Ready(Mouse, answer)]
    modifies c
    ensures c.Valid() && c.toKeyboard == old(c.toKeyboard) + [later] && c.keyboardQueue == [first]
    ensures !InOrder(After(c.history)) && !NeverOvertaken(c.history)
  {
    hide Tracks, Answer, PassedOn;
    ghost var h, driver := c.history, c.toKeyboard;
    assert c.Valid();
    var r;
    ghost var seen, all, arrived, given;
    r, seen, all, arrived, given := c.ReadDataPortExpecting(Mouse, answer);
    NothingGiven([first]);
    assert given == [];
    BothLooks(all, c.polls, later, answer);
    MouseReadBreaksOrder(h, [first], driver, c.history, c.keyboardQueue, c.toKeyboard);
  }

  /** A read that waits for `answer` looks at both. */
  lemma {:induction false} BothLooks(all: seq<Poll>, left: seq<Poll>, later: Byte, answer: Byte)
    requires all + left == [Ready(Keyboard, later), Ready(Mouse, answer)]
    requires From(all, Mouse) == [] ==> left == [] || IdlePolls(all) == TIMEOUT
    ensures From(all, Keyboard) == [later]
  {
    var k, m := Ready(Keyboard, later), Ready(Mouse, answer);
    assert forall i :: 0 <= i < |all| ==> all[i] == [k, m][i];
    NoPolls(Mouse);
    assert From([k], Mouse) == [] && From([k], Keyboard) == [later] && IdlePolls([k]) == 0 by {
      assert [k][..0] == [];
    }
    assert all == [] || all == [k] || all == [k, m];
    assert [k, m][..1] == [k];
  }

  /** A keyboard that answers at once is heard, whatever it says. */
  method PromptAnswer(c: Controller, b: Byte) returns (r: Byte)
    requires c.Valid() && c.irqs == [] && c.keyboardQueue == [] && c.polls == [Ready(Keyboard, b)]
    modifies c
    ensures r == b && c.keyboardQueue == [] && c.polls == [] && c.toKeyboard == old(c.toKeyboard)
  {
    hide Tracks, Tally;
    ghost var h, driver := c.history, c.toKeyboard;
    assert c.Valid();
    ghost var seen, all, arrived, given;
    r, seen, all, arrived, given := c.ReadDataPortExpecting(Keyboard, b);
    assert given == [] && Flat(given) == [];
    NothingOffered(h, c.history, arrived, From(all, Keyboard));
    NoPolls(Keyboard);
    assert all == [] || all == [Ready(Keyboard, b)] by {
      assert forall i :: 0 <= i < |all| ==> all[i] == Ready(Keyboard, b);
    }
    assert [Ready(Keyboard, b)][..0] == [];
    assert From([Ready(Keyboard, b)], Keyboard) == [b];
    QueueNotLonger(h, c.history, [], c.keyboardQueue, driver, c.toKeyboard, arrived, From(all, Keyboard));
  }
}
