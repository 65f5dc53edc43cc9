/** The transmit half of the interrupt handler: moving queued data into the chip's transmit
    FIFO without overflowing it. */
module TransmitEngine {
  import opened Memory
  import FlowControl

  datatype TxEvent = Data(byte: Byte) | Control(code: Byte)

  /** A 32-bit word as the set of its one bits. */
  type Word = set<nat>

  /** The port state, the flow control that was asked for and its two characters. */
  datatype Flow = Flow(state: Word, control: Word, xOn: Byte, xOff: Byte)

  /** Bits of these words: the signals that transmission can be made to wait for, and its enable bit. */
  datatype FlowBits = FlowBits(auto: Word, enable: nat)
  {
    /** What has to be up for data to be sent. */
    function Required(control: Word): Word { auto * control + {enable} }

    predicate Open(f: Flow) { Required(f.control) <= f.state }
  }

  /** A byte written to the data register; for data, the words under which it was. */
  datatype Written = DataByte(byte: Byte, under: Flow) | FlowChar(flow: FlowControl.Char, byte: Byte)

  /** `fifo` is what the chip has not yet moved to its shift register, `free` how many bytes the
      driver believes it may still write. The last two fields record history. */
  datatype Tx = Tx(bits: FlowBits, flow: Flow, fifo: seq<Byte>, free: nat, queue: seq<TxEvent>, xo: FlowControl.XO,
                   out: seq<Written>, taken: seq<TxEvent>)

  /** What one pass finds: the line status read last, the delay timer, and what executing a control
      event does: flush the queue, change the words. */
  datatype Env = Env(dataEmpty: bool, idle: bool, delayRunning: bool, autoRxo: bool, flushes: bool, after: Flow)

  /** The line status never claims room that is not there. */
  predicate Consistent(s: Tx, e: Env)
  {
    e.dataEmpty || e.idle ==> s.fifo == []
  }

  function CharByte(f: Flow, c: FlowControl.Char): Byte { if c.XOn? then f.xOn else f.xOff }

  function WriteData(s: Tx, b: Byte): Tx
  {
    s.(fifo := s.fifo + [b], out := s.out + [DataByte(b, s.flow)])
  }

  function WriteChar(s: Tx, c: FlowControl.Char): Tx
  {
    s.(fifo := s.fifo + [CharByte(s.flow, c)], out := s.out + [FlowChar(c, CharByte(s.flow, c))])
  }

  function Take(s: Tx): Tx
    requires s.queue != []
  {
    s.(queue := s.queue[1..], taken := s.taken + [s.queue[0]])
  }

  /** One byte of a burst. */
  function BurstByte(s: Tx): Tx
    requires s.free > 0 && s.queue != [] && s.queue[0].Data?
  {
    WriteData(Take(s), s.queue[0].byte).(free := s.free - 1)
  }

  /** Move data events while the driver believes there is room. */
  function Burst(s: Tx): Tx
    decreases s.free
  {
    if s.free > 0 && s.queue != [] && s.queue[0].Data? then Burst(BurstByte(s)) else s
  }

  /** The state in which the pass looks at the transmit queue. */
  function Refill(s: Tx, e: Env, size: nat): Tx
  {
    if e.idle then s.(free := size) else s
  }

  function FlowTurn(s: Tx): Tx
    requires s.xo.Code() > 0
  {
    WriteChar(s, FlowControl.Sent(s.xo)[0])
      .(xo := FlowControl.AfterTransmit(s.xo), free := if s.free > 0 then s.free - 1 else 0)
  }

  function QueueTurn(s: Tx, e: Env): Tx
  {
    if s.queue == [] then s.(free := 0)
    else if s.queue[0].Data? then
      if !s.bits.Open(s.flow) then s.(free := 0) else Burst(s)
    else if e.idle then
      var t := Take(s).(free := 0, flow := e.after);
      if e.flushes then t.(queue := []) else t
    else s.(free := 0)
  }

  function Pass(s: Tx, e: Env, size: nat): Tx
  {
    if s.free == 0 && !e.dataEmpty then s
    else
      var t := Refill(s, e, size);
      if e.autoRxo && t.xo.Code() > 0 then FlowTurn(t)
      else if e.delayRunning then t.(free := 0)
      else QueueTurn(t, e)
  }

  /** The driver never believes in more room than there is. */
  predicate Fits(s: Tx, size: nat)
  {
    |s.fifo| + s.free <= size
  }

  lemma {:induction false} BurstFits(s: Tx, size: nat)
    requires Fits(s, size)
    ensures Fits(Burst(s), size)
    decreases s.free
  {
    if s.free > 0 && s.queue != [] && s.queue[0].Data? {
      BurstFits(BurstByte(s), size);
    }
  }

  /** A pass writes only into room that is there. Since a pass only adds to the FIFO, the bound
      at its end also holds after each single write. */
  lemma {:induction false} PassFits(s: Tx, e: Env, size: nat)
    requires size > 0 && Fits(s, size) && Consistent(s, e)
    ensures Fits(Pass(s, e, size), size)
  {
    if !(s.free == 0 && !e.dataEmpty) {
      BurstFits(Refill(s, e, size), size);
    }
  }

  function EventData(e: TxEvent): seq<Byte> { if e.Data? then [e.byte] else [] }

  function WrittenData(w: Written): seq<Byte> { if w.DataByte? then [w.byte] else [] }

  function DataTaken(events: seq<TxEvent>): seq<Byte>
  {
    if events == [] then [] else EventData(events[0]) + DataTaken(events[1..])
  }

  function DataWritten(out: seq<Written>): seq<Byte>
  {
    if out == [] then [] else WrittenData(out[0]) + DataWritten(out[1..])
  }

  lemma {:induction false} DataTakenAppend(events: seq<TxEvent>, e: TxEvent)
    ensures DataTaken(events + [e]) == DataTaken(events) + EventData(e)
  {
    hide EventData;
    if events == [] {
      assert [] + [e] == [e];
      assert DataTaken([e]) == EventData(e) + DataTaken([]);
    } else {
      assert (events + [e])[1..] == events[1..] + [e];
      DataTakenAppend(events[1..], e);
      var a, b, c := EventData(events[0]), DataTaken(events[1..]), EventData(e);
      assert (a + b) + c == a + (b + c);
    }
  }

  lemma {:induction false} DataWrittenAppend(out: seq<Written>, w: Written)
    ensures DataWritten(out + [w]) == DataWritten(out) + WrittenData(w)
  {
    hide WrittenData;
    if out == [] {
      assert [] + [w] == [w];
      assert DataWritten([w]) == WrittenData(w) + DataWritten([]);
    } else {
      assert (out + [w])[1..] == out[1..] + [w];
      DataWrittenAppend(out[1..], w);
      var a, b, c := WrittenData(out[0]), DataWritten(out[1..]), WrittenData(w);
      assert (a + b) + c == a + (b + c);
    }
  }

  /** Data bytes written are the data events taken, in order, and none was written against
      flow control. */
  ghost predicate Faithful(s: Tx)
  {
    && DataWritten(s.out) == DataTaken(s.taken)
    && forall i :: 0 <= i < |s.out| && s.out[i].DataByte? ==> s.bits.Open(s.out[i].under)
  }

  lemma {:induction false} BurstByteFaithful(s: Tx)
    requires s.free > 0 && s.queue != [] && s.queue[0].Data? && Faithful(s) && s.bits.Open(s.flow)
    ensures Faithful(BurstByte(s)) && BurstByte(s).taken + BurstByte(s).queue == s.taken + s.queue
  {
    hide DataTaken, DataWritten;
    DataTakenAppend(s.taken, s.queue[0]);
    DataWrittenAppend(s.out, DataByte(s.queue[0].byte, s.flow));
    assert s.taken + s.queue == (s.taken + [s.queue[0]]) + s.queue[1..];
  }

  lemma {:induction false} BurstFaithful(s: Tx)
    requires Faithful(s) && s.bits.Open(s.flow)
    ensures Faithful(Burst(s)) && Burst(s).taken + Burst(s).queue == s.taken + s.queue
    decreases s.free
  {
    hide Faithful;
    if s.free > 0 && s.queue != [] && s.queue[0].Data? {
      BurstByteFaithful(s);
      BurstFaithful(BurstByte(s));
    }
  }

  lemma {:induction false} PassFaithful(s: Tx, e: Env, size: nat)
    requires Faithful(s)
    ensures Faithful(Pass(s, e, size))
    ensures !e.flushes ==> Pass(s, e, size).taken + Pass(s, e, size).queue == s.taken + s.queue
  {
    hide DataTaken, DataWritten, Burst;
    var t := Refill(s, e, size);
    if t.bits.Open(t.flow) {
      BurstFaithful(t);
    }
    if t.xo.Code() > 0 {
      var c := FlowControl.Sent(t.xo)[0];
      DataWrittenAppend(t.out, FlowChar(c, CharByte(t.flow, c)));
    }
    if t.queue != [] {
      DataTakenAppend(t.taken, t.queue[0]);
      assert t.taken + t.queue == (t.taken + [t.queue[0]]) + t.queue[1..];
    }
  }

  // ----- what a pass sends ----------------------------------------------------------

  /** The queue begins with exactly `k` data events. */
  ghost predicate Leading(queue: seq<TxEvent>, k: nat)
  {
    && k <= |queue|
    && (forall i :: 0 <= i < k ==> queue[i].Data?)
    && (k < |queue| ==> !queue[k].Data?)
  }

  /** The first `n` data events of the queue have moved to the end of the FIFO, and nothing else
      has changed in either. */
  ghost predicate Moved(fifo: seq<Byte>, queue: seq<TxEvent>, fifo': seq<Byte>, queue': seq<TxEvent>, n: nat)
  {
    && n <= |queue| && queue' == queue[n..]
    && |fifo'| == |fifo| + n && fifo'[..|fifo|] == fifo
    && forall i :: 0 <= i < n ==> queue[i].Data? && fifo'[|fifo| + i] == queue[i].byte
  }

  function Min(a: nat, b: nat): nat { if a <= b then a else b }

  lemma {:induction false} LeadingExists(queue: seq<TxEvent>) returns (k: nat)
    ensures Leading(queue, k)
  {
    k := 0;
    while k < |queue| && queue[k].Data?
      invariant k <= |queue| && forall i :: 0 <= i < k ==> queue[i].Data?
    {
      k := k + 1;
    }
  }

  lemma {:induction false} MovedOne(fifo: seq<Byte>, queue: seq<TxEvent>, fifo': seq<Byte>, queue': seq<TxEvent>,
                                    n: nat)
    requires queue != [] && queue[0].Data?
    requires Moved(fifo + [queue[0].byte], queue[1..], fifo', queue', n)
    ensures Moved(fifo, queue, fifo', queue', n + 1)
  {
    var mid := fifo + [queue[0].byte];
    assert fifo'[..|fifo|] == fifo by {
      assert fifo'[..|mid|][..|fifo|] == fifo;
    }
    assert fifo'[|fifo|] == fifo'[..|mid|][|fifo|];
    forall i | 0 <= i < n + 1 ensures queue[i].Data? && fifo'[|fifo| + i] == queue[i].byte {
      if i > 0 {
        assert queue[i] == queue[1..][i - 1];
      }
    }
  }

  /** A burst moves as many of the leading data events as there is room for. */
  lemma {:induction false} BurstMoves(s: Tx, k: nat)
    requires Leading(s.queue, k)
    ensures var t := Burst(s); var n := Min(s.free, k);
            Moved(s.fifo, s.queue, t.fifo, t.queue, n) && t.free == s.free - n && t.xo == s.xo && t.flow == s.flow
    decreases s.free
  {
    if s.free > 0 && s.queue != [] && s.queue[0].Data? {
      assert Leading(s.queue[1..], k - 1);
      var t := BurstByte(s);
      BurstMoves(t, k - 1);
      MovedOne(s.fifo, s.queue, Burst(s).fifo, Burst(s).queue, Min(t.free, k - 1));
    } else {
      assert Moved(s.fifo, s.queue, s.fifo, s.queue, 0);
    }
  }

  /** The pass gets as far as deciding what to send. */
  predicate Proceeds(s: Tx, e: Env) { s.free > 0 || e.dataEmpty }

  /** The room it then counts on. */
  ghost function Room(s: Tx, e: Env, size: nat): nat { if e.idle then size else s.free }

  /** A flow character goes ahead of everything else. */
  predicate CharDue(s: Tx, e: Env) { e.autoRxo && (s.xo.XOnNeeded? || s.xo.XOffNeeded?) }

  /** Every signal that automatic flow control waits for is up, and transmission is enabled. */
  ghost predicate FlowOpen(s: Tx)
  {
    s.bits.enable in s.flow.state && forall bit :: bit in s.bits.auto && bit in s.flow.control ==> bit in s.flow.state
  }

  /** Data is at the head of the queue and nothing holds it up. */
  ghost predicate DataDue(s: Tx, e: Env)
  {
    !CharDue(s, e) && !e.delayRunning && s.queue != [] && s.queue[0].Data? && FlowOpen(s)
  }

  lemma {:induction false} FlowOpenIff(s: Tx)
    ensures s.bits.Open(s.flow) <==> FlowOpen(s)
  {
    var required := s.bits.Required(s.flow.control);
    if FlowOpen(s) {
      assert forall bit :: bit in required ==> bit in s.flow.state;
    }
  }

  /** A pass that nothing holds up sends the leading data events, as many as there is room for. */
  lemma {:induction false} PassSendsData(s: Tx, e: Env, size: nat, k: nat)
    requires Proceeds(s, e) && DataDue(s, e) && Leading(s.queue, k)
    ensures var t := Pass(s, e, size); var n := Min(Room(s, e, size), k);
            Moved(s.fifo, s.queue, t.fifo, t.queue, n) && t.free == Room(s, e, size) - n && t.xo == s.xo
            && t.flow == s.flow
  {
    hide Burst;
    var t := Refill(s, e, size);
    FlowOpenIff(t);
    BurstMoves(t, k);
  }

  /** A pass with a flow character due sends that character alone and marks it sent. */
  lemma {:induction false} PassSendsChar(s: Tx, e: Env, size: nat)
    requires Proceeds(s, e) && CharDue(s, e)
    ensures var t := Pass(s, e, size);
            && t.fifo == s.fifo + [if s.xo.XOnNeeded? then s.flow.xOn else s.flow.xOff]
            && t.queue == s.queue
            && t.xo == (if s.xo.XOnNeeded? then FlowControl.XOnSent else FlowControl.XOffSent)
            && t.free == (if Room(s, e, size) > 0 then Room(s, e, size) - 1 else 0)
            && t.out == s.out + [if s.xo.XOnNeeded? then FlowChar(FlowControl.XOn, s.flow.xOn)
                                 else FlowChar(FlowControl.XOff, s.flow.xOff)]
  {
  }

  /** A pass that decides and finds nothing to send gives up the room it counted on, which ends the
      handler's loop. */
  lemma {:induction false} NothingDue(s: Tx, e: Env, size: nat)
    requires Proceeds(s, e) && !CharDue(s, e) && !DataDue(s, e)
    ensures var t := Pass(s, e, size); t.free == 0 && t.fifo == s.fifo && t.out == s.out && t.xo == s.xo
  {
    hide Burst;
    FlowOpenIff(s);
  }

  /** A pass writes nothing exactly when it cannot decide, or no flow character is due and either
      no data is due or there is no room for it. */
  lemma {:induction false} WritesNothingIff(s: Tx, e: Env, size: nat)
    ensures Pass(s, e, size).fifo == s.fifo <==>
            !Proceeds(s, e) || (!CharDue(s, e) && (!DataDue(s, e) || Room(s, e, size) == 0))
  {
    hide Burst, Moved, Leading;
    FlowOpenIff(s);
    if Proceeds(s, e) && CharDue(s, e) {
      PassSendsChar(s, e, size);
    } else if Proceeds(s, e) && DataDue(s, e) {
      var k := LeadingExists(s.queue);
      PassSendsData(s, e, size, k);
      MovedSome(s, Pass(s, e, size), k, Min(Room(s, e, size), k));
    }
  }

  lemma {:induction false} MovedSome(s: Tx, t: Tx, k: nat, n: nat)
    requires s.queue != [] && s.queue[0].Data? && Leading(s.queue, k)
    requires Moved(s.fifo, s.queue, t.fifo, t.queue, n)
    ensures k > 0 && (t.fifo == s.fifo <==> n == 0)
  {
    if n == 0 {
      assert t.fifo == t.fifo[..|s.fifo|];
    }
  }

  /** A control event is taken only from an idle transmitter, and then by itself. */
  lemma {:induction false} ControlWaitsForIdle(s: Tx, e: Env, size: nat)
    requires Proceeds(s, e) && !CharDue(s, e) && !e.delayRunning && s.queue != [] && s.queue[0].Control?
    ensures var t := Pass(s, e, size);
            && t.fifo == s.fifo && t.free == 0
            && t.queue == (if !e.idle then s.queue else if e.flushes then [] else s.queue[1..])
            && t.flow == (if e.idle then e.after else s.flow)
  {
  }

  /** The flow characters of a history. */
  function FlowChars(out: seq<Written>): seq<FlowControl.Char>
  {
    if out == [] then []
    else FlowChars(out[..|out| - 1]) + if out[|out| - 1].FlowChar? then [out[|out| - 1].flow] else []
  }

  lemma {:induction false} BurstSendsNoChar(s: Tx)
    ensures FlowChars(Burst(s).out) == FlowChars(s.out) && Burst(s).xo == s.xo
    decreases s.free
  {
    if s.free > 0 && s.queue != [] && s.queue[0].Data? {
      var t := BurstByte(s);
      assert t.out[..|t.out| - 1] == s.out;
      BurstSendsNoChar(t);
    }
  }

  lemma {:induction false} FlowCharsAppend(out: seq<Written>, w: Written)
    ensures FlowChars(out + [w]) == FlowChars(out) + if w.FlowChar? then [w.flow] else []
  {
    assert (out + [w])[..|out|] == out;
  }

  /** What a pass adds to the flow characters: the one that was due, if it got to it. */
  lemma {:induction false} PassChars(s: Tx, e: Env, size: nat)
    ensures var t := Pass(s, e, size);
            var sent := if Proceeds(s, e) && CharDue(s, e) then FlowControl.Sent(s.xo) else [];
            && FlowChars(t.out) == FlowChars(s.out) + sent
            && t.xo == if Proceeds(s, e) && CharDue(s, e) then FlowControl.AfterTransmit(s.xo) else s.xo
  {
    hide Burst, FlowChars, Pass;
    var t := Pass(s, e, size);
    if Proceeds(s, e) && CharDue(s, e) {
      PassSendsChar(s, e, size);
      FlowCharsAppend(s.out, t.out[|s.out|]);
    } else {
      PassSendsNoChar(s, e, size);
    }
  }

  lemma {:induction false} PassSendsNoChar(s: Tx, e: Env, size: nat)
    requires !(Proceeds(s, e) && CharDue(s, e))
    ensures FlowChars(Pass(s, e, size).out) == FlowChars(s.out) && Pass(s, e, size).xo == s.xo
  {
    hide Burst, FlowChars;
    BurstSendsNoChar(Refill(s, e, size));
  }

  // ----- whole runs ----------------------------------------------------------------

  datatype Action =
    | Begin                    // the handler is entered: it knows of no free room yet
    | OnePass(env: Env)
    | Drain(n: nat)            // the chip sends bytes
    | Feed(event: TxEvent)     // a client queues an event
    | Level(band: FlowControl.Band)
    | SetFlow(flow: Flow)      // signals change, or flow control is asked for differently

  function Step(s: Tx, a: Action, size: nat): Tx
  {
    match a
    case Begin => s.(free := 0)
    case OnePass(e) => if Consistent(s, e) then Pass(s, e, size) else s
    case Drain(n) => s.(fifo := if n <= |s.fifo| then s.fifo[n..] else [])
    case Feed(event) => s.(queue := s.queue + [event])
    case Level(band) => s.(xo := FlowControl.Evaluate(s.xo, band))
    case SetFlow(flow) => s.(flow := flow)
  }

  function Run(s: Tx, run: seq<Action>, size: nat): Tx
    decreases |run|
  {
    if run == [] then s else Run(Step(s, run[0], size), run[1..], size)
  }

  function Fed(run: seq<Action>): seq<TxEvent>
  {
    if run == [] then [] else (if run[0].Feed? then [run[0].event] else []) + Fed(run[1..])
  }

  predicate Flushes(run: seq<Action>)
  {
    exists i :: 0 <= i < |run| && run[i].OnePass? && run[i].env.flushes
  }

  lemma {:induction false} StepSafe(s: Tx, a: Action, size: nat)
    requires size > 0 && Fits(s, size) && Faithful(s)
    ensures Fits(Step(s, a, size), size) && Faithful(Step(s, a, size))
    ensures !(a.OnePass? && a.env.flushes) ==>
              Step(s, a, size).taken + Step(s, a, size).queue == s.taken + s.queue + if a.Feed? then [a.event] else []
  {
    hide Pass, DataTaken, DataWritten;
    if a.OnePass? && Consistent(s, a.env) {
      PassFits(s, a.env, size);
      PassFaithful(s, a.env, size);
    }
  }

  /** Over every run of interrupt passes, transmissions and new events: the FIFO never overflows,
      the data bytes written are the data events taken in order, each under words in which every
      signal that flow control waits for is up and transmission is enabled, and no queued event is
      lost or reordered unless a control event flushes. */
  lemma {:induction false} TransmitSafe(s: Tx, run: seq<Action>, size: nat)
    requires size > 0 && Fits(s, size) && Faithful(s)
    ensures Fits(Run(s, run, size), size) && Faithful(Run(s, run, size))
    ensures !Flushes(run) ==> Run(s, run, size).taken + Run(s, run, size).queue == s.taken + s.queue + Fed(run)
    decreases |run|
  {
    hide Fits, Faithful;
    if run != [] {
      var s' := Step(s, run[0], size);
      StepSafe(s, run[0], size);
      TransmitSafe(s', run[1..], size);
      if !Flushes(run) {
        assert run[0] == run[0 + 0];
        assert forall i :: 0 <= i < |run| - 1 ==> run[1..][i] == run[i + 1];
        var fed := if run[0].Feed? then [run[0].event] else [];
        assert (s.taken + s.queue + fed) + Fed(run[1..]) == s.taken + s.queue + (fed + Fed(run[1..]));
      }
    }
  }

  /** What a run means to the flow control machine: the fill levels, and a transmission at each pass that has
      a flow character due and gets to it. */
  function FlowOps(s: Tx, run: seq<Action>, size: nat): seq<FlowControl.Op>
    decreases |run|
  {
    if run == [] then [] else FlowOp(s, run[0]) + FlowOps(Step(s, run[0], size), run[1..], size)
  }

  function FlowOp(s: Tx, a: Action): seq<FlowControl.Op>
  {
    match a
    case Level(band) => [FlowControl.Level(band)]
    case OnePass(e) =>
      if Consistent(s, e) && Proceeds(s, e) && CharDue(s, e) then [FlowControl.Transmit] else []
    case _ => []
  }

  lemma {:induction false} StepRefines(s: Tx, a: Action, size: nat)
    ensures var t := Step(s, a, size);
            && FlowChars(t.out) == FlowChars(s.out) + FlowControl.Wire(s.xo, FlowOp(s, a))
            && t.xo == FlowControl.Final(s.xo, FlowOp(s, a))
  {
    hide Pass, FlowChars, Proceeds, CharDue;
    var ops := FlowOp(s, a);
    assert ops != [] ==> ops[1..] == [];
    assert FlowControl.Wire(FlowControl.AfterTransmit(s.xo), []) == [];
    if a.OnePass? && Consistent(s, a.env) {
      PassChars(s, a.env, size);
    }
  }

  lemma {:induction false} WireAppend(x: FlowControl.XO, a: seq<FlowControl.Op>, b: seq<FlowControl.Op>)
    ensures FlowControl.Wire(x, a + b) == FlowControl.Wire(x, a) + FlowControl.Wire(FlowControl.Final(x, a), b)
    ensures FlowControl.Final(x, a + b) == FlowControl.Final(FlowControl.Final(x, a), b)
    decreases |a|
  {
    hide FlowControl.Sent, FlowControl.Step;
    if a == [] {
      assert a + b == b;
    } else {
      assert (a + b)[1..] == a[1..] + b;
      WireAppend(FlowControl.Step(x, a[0]), a[1..], b);
    }
  }

  /** Over every run the flow characters written, among any data, are exactly those of the flow control
      machine; so they strictly alternate. */
  lemma {:induction false} CharsRefine(s: Tx, run: seq<Action>, size: nat)
    ensures var t := Run(s, run, size); var ops := FlowOps(s, run, size);
            && FlowChars(t.out) == FlowChars(s.out) + FlowControl.Wire(s.xo, ops)
            && t.xo == FlowControl.Final(s.xo, ops)
    decreases |run|
  {
    hide Step, FlowChars, FlowOp, FlowControl.Wire, FlowControl.Final;
    if run == [] {
      NoOps(s.xo);
    } else {
      StepRefines(s, run[0], size);
      CharsRefine(Step(s, run[0], size), run[1..], size);
      WireAppend(s.xo, FlowOp(s, run[0]), FlowOps(Step(s, run[0], size), run[1..], size));
    }
  }

  lemma {:induction false} NoOps(x: FlowControl.XO)
    ensures FlowControl.Wire(x, []) == [] && FlowControl.Final(x, []) == x
  {
  }

  lemma {:induction false} CharsAlternate(s: Tx, run: seq<Action>, size: nat, last: FlowControl.Char)
    requires FlowControl.Tied(s.xo, last) && FlowChars(s.out) == []
    ensures FlowControl.Alternating(last, FlowChars(Run(s, run, size).out))
  {
    hide FlowOps, FlowChars, Run;
    CharsRefine(s, run, size);
    var wire := FlowControl.Wire(s.xo, FlowOps(s, run, size));
    assert [] + wire == wire;
    FlowControl.FlowCharactersAlternate(s.xo, last, FlowOps(s, run, size));
  }

  // ----- what goes out on the line ---------------------------------------------------

  function Bytes(out: seq<Written>): (r: seq<Byte>)
    ensures |r| == |out| && forall i :: 0 <= i < |out| ==> r[i] == out[i].byte
  {
    seq(|out|, i requires 0 <= i < |out| => out[i].byte)
  }

  /** What the chip takes from its FIFO over a run. */
  function OnLine(s: Tx, run: seq<Action>, size: nat): seq<Byte>
    decreases |run|
  {
    if run == [] then []
    else
      Taken(s, run[0]) + OnLine(Step(s, run[0], size), run[1..], size)
  }

  /** A pass writes to the FIFO what it records. */
  ghost predicate Recorded(s: Tx, t: Tx)
  {
    s.out <= t.out && t.fifo == s.fifo + Bytes(t.out[|s.out|..])
  }

  lemma {:induction false} Tails(a: seq<Written>, b: seq<Written>, c: seq<Written>)
    requires a <= b <= c
    ensures a <= c && c[|a|..] == b[|a|..] + c[|b|..] && Bytes(c[|a|..]) == Bytes(b[|a|..]) + Bytes(c[|b|..])
  {
    assert b == c[..|b|];
    assert c[|a|..] == c[..|b|][|a|..] + c[|b|..];
  }

  lemma {:induction false} RecordedThen(s: Tx, t: Tx, u: Tx)
    requires Recorded(s, t) && Recorded(t, u)
    ensures Recorded(s, u)
  {
    hide Bytes;
    Tails(s.out, t.out, u.out);
  }

  lemma {:induction false} OneRecorded(s: Tx, t: Tx, w: Written)
    requires t.out == s.out + [w] && t.fifo == s.fifo + [w.byte]
    ensures Recorded(s, t)
  {
    assert t.out[|s.out|..] == [w];
    assert Bytes([w]) == [w.byte];
  }

  lemma {:induction false} BurstRecorded(s: Tx)
    ensures Recorded(s, Burst(s))
    decreases s.free
  {
    hide Recorded;
    if s.free > 0 && s.queue != [] && s.queue[0].Data? {
      OneRecorded(s, BurstByte(s), DataByte(s.queue[0].byte, s.flow));
      BurstRecorded(BurstByte(s));
      RecordedThen(s, BurstByte(s), Burst(s));
    } else {
      NothingRecorded(s, s);
    }
  }

  lemma {:induction false} NothingRecorded(s: Tx, t: Tx)
    requires t.out == s.out && t.fifo == s.fifo
    ensures Recorded(s, t)
  {
    assert Bytes(t.out[|s.out|..]) == [];
  }

  lemma {:induction false} PassRecorded(s: Tx, e: Env, size: nat)
    ensures Recorded(s, Pass(s, e, size))
  {
    hide Burst, Recorded;
    var r, t := Refill(s, e, size), Pass(s, e, size);
    NothingRecorded(s, r);
    if t == Burst(r) {
      BurstRecorded(r);
      RecordedThen(s, r, t);
    } else if Proceeds(s, e) && CharDue(s, e) {
      PassSendsChar(s, e, size);
      OneRecorded(s, t, t.out[|s.out|]);
    } else {
      NothingRecorded(s, t);
    }
  }

  /** What one step takes from the FIFO. */
  function Taken(s: Tx, a: Action): seq<Byte>
  {
    if a.Drain? then s.fifo[..Min(a.n, |s.fifo|)] else []
  }

  lemma {:induction false} StepLine(s: Tx, a: Action, size: nat)
    ensures var t := Step(s, a, size);
            s.out <= t.out && Taken(s, a) + t.fifo == s.fifo + Bytes(t.out[|s.out|..])
  {
    hide Pass, Bytes;
    var t := Step(s, a, size);
    if a.OnePass? && Consistent(s, a.env) {
      PassRecorded(s, a.env, size);
      assert [] + t.fifo == t.fifo;
    } else {
      NothingRecorded(s, s);
      assert Taken(s, a) + t.fifo == s.fifo;
    }
  }

  /** What is drained and what is left in the FIFO is what was in it and what was written, in order. */
  lemma {:induction false} LineInOrder(s: Tx, run: seq<Action>, size: nat)
    ensures var t := Run(s, run, size);
            s.out <= t.out && OnLine(s, run, size) + t.fifo == s.fifo + Bytes(t.out[|s.out|..])
    decreases |run|
  {
    hide Step, Bytes, Taken;
    if run == [] {
      NothingRecorded(s, s);
    } else {
      var m, t := Step(s, run[0], size), Run(s, run, size);
      StepLine(s, run[0], size);
      LineInOrder(m, run[1..], size);
      Tails(s.out, m.out, t.out);
      var d, rest := Taken(s, run[0]), OnLine(m, run[1..], size);
      assert (d + rest) + t.fifo == d + (rest + t.fifo);
      assert d + (m.fifo + Bytes(t.out[|m.out|..])) == (d + m.fifo) + Bytes(t.out[|m.out|..]);
    }
  }

  /** A change of the words stays in force until the next one or a control event. */
  lemma {:induction false} FlowInForce(s: Tx, flow: Flow, run: seq<Action>, size: nat)
    requires forall i :: 0 <= i < |run| ==> !run[i].SetFlow? && (run[i].OnePass? ==> !run[i].env.idle)
    ensures Run(Step(s, SetFlow(flow), size), run, size).flow == flow
  {
    hide Pass;
    FlowKept(Step(s, SetFlow(flow), size), run, size);
  }

  lemma {:induction false} FlowKept(s: Tx, run: seq<Action>, size: nat)
    requires forall i :: 0 <= i < |run| ==> !run[i].SetFlow? && (run[i].OnePass? ==> !run[i].env.idle)
    ensures Run(s, run, size).flow == s.flow
    decreases |run|
  {
    hide Pass;
    if run != [] {
      if run[0].OnePass? {
        PassKeepsFlow(s, run[0].env, size);
      }
      FlowKept(Step(s, run[0], size), run[1..], size);
    }
  }

  lemma {:induction false} PassKeepsFlow(s: Tx, e: Env, size: nat)
    requires !e.idle
    ensures Pass(s, e, size).flow == s.flow
  {
    hide Burst;
    BurstKeepsBits(Refill(s, e, size));
  }

  /** On entry the handler counts on no room: it decides nothing before the chip reports some. */
  lemma {:induction false} EntryKnowsNoRoom(s: Tx, e: Env, size: nat)
    ensures Proceeds(Step(s, Begin, size), e) <==> e.dataEmpty
  {
  }

  /** The chip empties its FIFO and the handler makes a pass, `n` times over. */
  ghost function Rounds(n: nat, e: Env, size: nat): seq<Action>
  {
    if n == 0 then [] else [Drain(size), OnePass(e)] + Rounds(n - 1, e, size)
  }

  lemma {:induction false} OneRound(s: Tx, e: Env, size: nat, k: nat)
    requires size > 0 && Fits(s, size) && e.idle && e.dataEmpty && DataDue(s, e) && Leading(s.queue, k)
    ensures var t := Step(Step(s, Drain(size), size), OnePass(e), size);
            && t.queue == s.queue[Min(size, k)..]
            && Fits(t, size) && t.xo == s.xo && t.flow == s.flow && t.bits == s.bits && k > 0
  {
    hide Pass, Moved;
    var d := Step(s, Drain(size), size);
    assert d.fifo == [];
    PassFits(d, e, size);
    PassSendsData(d, e, size, k);
    PassKeepsBits(d, e, size);
    MovedRest(d, Pass(d, e, size), Min(size, k));
  }

  lemma {:induction false} MovedRest(s: Tx, t: Tx, n: nat)
    requires Moved(s.fifo, s.queue, t.fifo, t.queue, n)
    ensures n <= |s.queue| && t.queue == s.queue[n..]
  {
  }

  lemma {:induction false} BurstKeepsBits(s: Tx)
    ensures Burst(s).bits == s.bits && Burst(s).flow == s.flow
    decreases s.free
  {
    if s.free > 0 && s.queue != [] && s.queue[0].Data? {
      BurstKeepsBits(BurstByte(s));
    }
  }

  lemma {:induction false} PassKeepsBits(s: Tx, e: Env, size: nat)
    ensures Pass(s, e, size).bits == s.bits
  {
    hide Burst;
    BurstKeepsBits(Refill(s, e, size));
  }

  /** Progress: while flow control lets it and the transmitter keeps falling idle, each round sends
      a whole FIFO of the data that leads the queue, until none of that data is left. */
  lemma {:induction false} KeepsSending(s: Tx, e: Env, size: nat, k: nat, n: nat)
    requires size > 0 && Fits(s, size) && e.idle && e.dataEmpty && DataDue(s, e) && Leading(s.queue, k)
    requires n > 0 && (n - 1) * size < k
    ensures Run(s, Rounds(n, e, size), size).queue == s.queue[if n * size < k then n * size else k..]
    decreases n
  {
    hide Step, Fits, DataDue;
    var t := Step(Step(s, Drain(size), size), OnePass(e), size);
    OneRound(s, e, size, k);
    var more := Rounds(n - 1, e, size);
    RunTwo(s, Drain(size), OnePass(e), more, size);
    if n > 1 {
      assert size <= (n - 1) * size;
      LeadingRest(s, t, e, k, size);
      assert (n - 2) * size == (n - 1) * size - size && (n - 1) * size == n * size - size;
      KeepsSending(t, e, size, k - size, n - 1);
    }
  }

  lemma {:induction false} RunTwo(s: Tx, a: Action, b: Action, more: seq<Action>, size: nat)
    ensures Run(s, [a, b] + more, size) == Run(Step(Step(s, a, size), b, size), more, size)
  {
    hide Step;
    var run := [a, b] + more;
    assert run[1..] == [b] + more && run[1..][1..] == more;
  }

  lemma {:induction false} LeadingRest(s: Tx, t: Tx, e: Env, k: nat, m: nat)
    requires DataDue(s, e) && Leading(s.queue, k) && m < k && t.queue == s.queue[m..]
    requires t.xo == s.xo && t.flow == s.flow && t.bits == s.bits
    ensures DataDue(t, e) && Leading(t.queue, k - m)
  {
  }

  /** `~state & required` is zero exactly when all of `required` is up. */
  lemma {:induction false} NothingMissing(required: Word, state: Word)
    ensures required - state == {} <==> required <= state
  {
    if required - state == {} {
      forall bit | bit in required ensures bit in state {
        assert bit !in required - state;
      }
    }
  }

  /** What a pass from `s` to `t` sends: the leading data events as far as there is room, if data is due; the
      flow character alone, if one is due; nothing exactly if it cannot decide or neither is due or there is
      no room for data. With nothing due it gives up its room. */
  ghost predicate SentAsDue(s: Tx, t: Tx, e: Env, size: nat)
  {
    && (Proceeds(s, e) && DataDue(s, e) ==> forall k :: Leading(s.queue, k) ==>
          Moved(s.fifo, s.queue, t.fifo, t.queue, Min(Room(s, e, size), k)))
    && (Proceeds(s, e) && CharDue(s, e) ==>
          t.queue == s.queue && t.fifo == s.fifo + [if s.xo.XOnNeeded? then s.flow.xOn else s.flow.xOff])
    && (t.fifo == s.fifo <==> !Proceeds(s, e) || (!CharDue(s, e) && (!DataDue(s, e) || Room(s, e, size) == 0)))
    && (Proceeds(s, e) && !CharDue(s, e) && !DataDue(s, e) ==> t.free == 0)
  }

  lemma {:induction false} PassSends(s: Tx, e: Env, size: nat)
    ensures SentAsDue(s, Pass(s, e, size), e, size)
  {
    hide Pass, Moved, Leading, DataDue, Proceeds, CharDue;
    WritesNothingIff(s, e, size);
    if Proceeds(s, e) && CharDue(s, e) {
      PassSendsChar(s, e, size);
    }
    if Proceeds(s, e) && !CharDue(s, e) && !DataDue(s, e) {
      NothingDue(s, e, size);
    }
    if Proceeds(s, e) && DataDue(s, e) {
      forall k | Leading(s.queue, k)
        ensures Moved(s.fifo, s.queue, Pass(s, e, size).fifo, Pass(s, e, size).queue, Min(Room(s, e, size), k))
      {
        PassSendsData(s, e, size, k);
      }
    }
  }

  // ----- the driver's pass ---------------------------------------------------------

  class Driver {
    const fifoSize: nat
    const bits: FlowBits
    var state: Word
    var flowControl: Word
    var xOnChar: Byte
    var xOffChar: Byte
    var fifoFree: nat
    var txQ: seq<TxEvent>
    var rxoState: FlowControl.XO
    /** The chip's transmit FIFO. */
    var fifo: seq<Byte>
    ghost var out: seq<Written>
    ghost var taken: seq<TxEvent>

    ghost function CurrentFlow(): Flow
      reads this
    {
      Flow(state, flowControl, xOnChar, xOffChar)
    }

    ghost function Model(): Tx
      reads this
    {
      Tx(bits, CurrentFlow(), fifo, fifoFree, txQ, rxoState, out, taken)
    }

    /** Writing the data register; the FIFO must have room. */
    method Outb(b: Byte)
      requires |fifo| < fifoSize
      modifies this`fifo
      ensures fifo == old(fifo) + [b]
    {
      fifo := fifo + [b];
    }

    /** Move data events into the FIFO while there is room. */
    method SendBurst()
      requires Fits(Model(), fifoSize)
      modifies this
      ensures Model() == Burst(old(Model()))
    {
      while fifoFree > 0 && txQ != [] && txQ[0].Data?
        invariant Fits(Model(), fifoSize)
        invariant Burst(Model()) == Burst(old(Model()))
        decreases fifoFree
      {
        var b := txQ[0].byte;
        taken := taken + [txQ[0]];
        txQ := txQ[1..];
        Outb(b);
        out := out + [DataByte(b, CurrentFlow())];
        fifoFree := fifoFree - 1;
      }
    }

    /** One pass of the transmit half of the interrupt loop. The result is the `again` flag. */
    method TransmitPass(e: Env) returns (again: bool)
      requires fifoSize > 0 && Fits(Model(), fifoSize) && Consistent(Model(), e)
      modifies this
      ensures Fits(Model(), fifoSize) && Model() == Pass(old(Model()), e, fifoSize)
      ensures again ==> e.idle && fifoFree == 0
      ensures SentAsDue(old(Model()), Model(), e, fifoSize)
    {
      hide Burst, SentAsDue;
      PassFits(Model(), e, fifoSize);
      PassSends(Model(), e, fifoSize);
      again := false;
      if fifoFree == 0 && !e.dataEmpty {
        return;
      }
      if e.idle {
        fifoFree := fifoSize;
      }
      if e.autoRxo && rxoState.Code() > 0 {
        var flow := if rxoState.XOnNeeded? then FlowControl.XOn else FlowControl.XOff;
        var b := if flow.XOn? then xOnChar else xOffChar;
        Outb(b);
        out := out + [FlowChar(flow, b)];
        rxoState := FlowControl.FromCode(-rxoState.Code());
        if fifoFree > 0 {
          fifoFree := fifoFree - 1;
        }
      } else if e.delayRunning {
        fifoFree := 0;
      } else if txQ == [] {
        fifoFree := 0;
      } else if txQ[0].Data? {
        var required := bits.auto * flowControl + {bits.enable};
        NothingMissing(required, state);
        if required - state != {} {
          fifoFree := 0;
        } else {
          SendBurst();
        }
      } else {
        fifoFree := 0;
        if e.idle {
          taken := taken + [txQ[0]];
          txQ := if e.flushes then [] else txQ[1..];
          state, flowControl := e.after.state, e.after.control;
          xOnChar, xOffChar := e.after.xOn, e.after.xOff;
          again := true;
        }
      }
    }
  }
}
