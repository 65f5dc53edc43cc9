/** Receive-side software flow control: the XON/XOFF state machine driven by the fill level of
    the receive queue and by the transmitter. */
module FlowControl {
  import EventQueue
  import opened Wrappers

  type Band = EventQueue.Band

  datatype XO = XOnSent | XOffSent | Idle | XOffNeeded | XOnNeeded
  {
    /** The enumeration values; a need is positive, its negation is the same character sent. */
    function Code(): int
    {
      match this
      case XOnSent => -2
      case XOffSent => -1
      case Idle => 0
      case XOffNeeded => 1
      case XOnNeeded => 2
    }
  }

  function FromCode(c: int): XO
    requires -2 <= c <= 2
  {
    if c == -2 then XOnSent else if c == -1 then XOffSent else if c == 0 then Idle else if c == 1 then XOffNeeded
        else XOnNeeded
  }

  datatype Char = XOn | XOff

  /** A fill level is re-evaluated: an unsent need for the opposite character is cancelled. */
  function Evaluate(x: XO, band: Band): XO
  {
    match band
    case Empty => Resumed(x)
    case Low => Resumed(x)
    case High => Stopped(x)
    case Full => Stopped(x)
    case Medium => x
  }

  function Resumed(x: XO): XO
  {
    match x
    case XOffSent => XOnNeeded
    case Idle => XOnNeeded
    case XOffNeeded => XOnSent
    case _ => x
  }

  function Stopped(x: XO): XO
  {
    match x
    case XOnSent => XOffNeeded
    case Idle => XOffNeeded
    case XOnNeeded => XOffSent
    case _ => x
  }

  /** The transmitter sends a needed character, if any, and marks it sent. */
  function Sent(x: XO): seq<Char>
  {
    if x.Code() > 0 then [if x == XOnNeeded then XOn else XOff] else []
  }

  function AfterTransmit(x: XO): XO
  {
    if x.Code() > 0 then FromCode(-x.Code()) else x
  }

  // ----- runs ----------------------------------------------------------------------

  datatype Op = Level(band: Band) | Transmit

  function Step(x: XO, op: Op): XO
  {
    match op
    case Level(band) => Evaluate(x, band)
    case Transmit => AfterTransmit(x)
  }

  function Wire(x: XO, ops: seq<Op>): seq<Char>
    decreases |ops|
  {
    if ops == [] then []
    else (if ops[0].Transmit? then Sent(x) else []) + Wire(Step(x, ops[0]), ops[1..])
  }

  function Final(x: XO, ops: seq<Op>): XO
    decreases |ops|
  {
    if ops == [] then x else Final(Step(x, ops[0]), ops[1..])
  }

  /** The state is tied to the wire: the last character was XOFF exactly in these two states. */
  predicate Tied(x: XO, last: Char)
  {
    x != Idle && (last == XOff <==> x == XOffSent || x == XOnNeeded)
  }

  /** The last character after more have been sent. */
  function Last(last: Char, wire: seq<Char>): Char
  {
    if wire == [] then last else wire[|wire| - 1]
  }

  predicate Alternating(last: Char, wire: seq<Char>)
    decreases |wire|
  {
    wire == [] || (wire[0] != last && Alternating(wire[0], wire[1..]))
  }

  lemma {:induction false} AlternatingAppend(last: Char, head: seq<Char>, tail: seq<Char>)
    requires Alternating(last, head) && Alternating(Last(last, head), tail)
    ensures Alternating(last, head + tail)
    decreases |head|
  {
    if head == [] {
      assert head + tail == tail;
    } else {
      assert (head + tail)[1..] == head[1..] + tail;
      AlternatingAppend(head[0], head[1..], tail);
    }
  }

  /** Every run keeps the tie, and flow characters strictly alternate on the wire. */
  lemma {:induction false} FlowCharactersAlternate(x: XO, last: Char, ops: seq<Op>)
    requires Tied(x, last)
    ensures Alternating(last, Wire(x, ops))
    ensures Tied(Final(x, ops), Last(last, Wire(x, ops)))
    decreases |ops|
  {
    if ops != [] {
      var sent := if ops[0].Transmit? then Sent(x) else [];
      var x' := Step(x, ops[0]);
      FlowCharactersAlternate(x', Last(last, sent), ops[1..]);
      AlternatingAppend(last, sent, Wire(x', ops[1..]));
    }
  }

  // ----- reference: send a character only when the wanted one differs from the last -

  /** What the fill level last asked for. */
  function Wanted(x: XO): Char
  {
    if x == XOffSent || x == XOffNeeded then XOff else XOn
  }

  function WantedAfter(wanted: Char, band: Band): Char
  {
    match band
    case Empty => XOn
    case Low => XOn
    case High => XOff
    case Full => XOff
    case Medium => wanted
  }

  function ReferenceWire(wanted: Char, last: Char, ops: seq<Op>): seq<Char>
    decreases |ops|
  {
    if ops == [] then []
    else
      match ops[0]
      case Level(band) => ReferenceWire(WantedAfter(wanted, band), last, ops[1..])
      case Transmit => (if wanted != last then [wanted] else []) + ReferenceWire(wanted, wanted, ops[1..])
  }

  /** The five-state machine sends exactly what remembering the wanted and the last character
      would: at each transmission the wanted character if it is not the last one sent. */
  lemma {:induction false} RefinesWantedCharacter(x: XO, last: Char, ops: seq<Op>)
    requires Tied(x, last)
    ensures Wire(x, ops) == ReferenceWire(Wanted(x), last, ops)
    decreases |ops|
  {
    if ops != [] {
      var last' := if ops[0].Transmit? then Last(last, Sent(x)) else last;
      RefinesWantedCharacter(Step(x, ops[0]), last', ops[1..]);
    }
  }

  // ----- from idle: nothing sent and nothing wanted yet ------------------------------

  function Other(c: Char): Char { if c == XOn then XOff else XOn }

  /** What should be sent, remembering also that nothing was wanted or sent yet. */
  function IdealWire(wanted: Option<Char>, last: Option<Char>, ops: seq<Op>): seq<Char>
    decreases |ops|
  {
    if ops == [] then []
    else
      match ops[0]
      case Level(band) =>
        IdealWire(if band.Medium? then wanted else Some(WantedAfter(XOn, band)), last, ops[1..])
      case Transmit =>
        (if wanted.Some? && wanted != last then [wanted.value] else []) +
        IdealWire(wanted, if wanted.Some? then wanted else last, ops[1..])
  }

  lemma {:induction false} IdealIsReference(wanted: Char, last: Char, ops: seq<Op>)
    ensures IdealWire(Some(wanted), Some(last), ops) == ReferenceWire(wanted, last, ops)
    decreases |ops|
  {
    if ops != [] {
      match ops[0]
      case Level(band) => IdealIsReference(WantedAfter(wanted, band), last, ops[1..]);
      case Transmit => IdealIsReference(wanted, wanted, ops[1..]);
    }
  }

  /** What is wanted when the transmitter first runs. */
  function FirstSendable(wanted: Char, ops: seq<Op>): Option<Char>
    decreases |ops|
  {
    if ops == [] then None
    else
      match ops[0]
      case Level(band) => FirstSendable(WantedAfter(wanted, band), ops[1..])
      case Transmit => Some(wanted)
  }

  /** The first want was `first`; the machine takes its opposite for sent. */
  lemma {:induction false} FirstWantAssumed(first: Char, wanted: Char, ops: seq<Op>)
    ensures ReferenceWire(wanted, Other(first), ops) == IdealWire(Some(wanted), None, ops)
            <==> FirstSendable(wanted, ops) != Some(Other(first))
    decreases |ops|
  {
    if ops != [] {
      match ops[0]
      case Level(band) => FirstWantAssumed(first, WantedAfter(wanted, band), ops[1..]);
      case Transmit =>
        var tail := IdealWire(Some(wanted), Some(wanted), ops[1..]);
        IdealIsReference(wanted, wanted, ops[1..]);
        assert |[wanted] + tail| == |tail| + 1;
    }
  }

  /** Where the first want arises: the index of the first level that asks for something. */
  function FirstWant(ops: seq<Op>): nat
    decreases |ops|
  {
    if ops == [] || (ops[0].Level? && !ops[0].band.Medium?) then 0 else 1 + FirstWant(ops[1..])
  }

  /** The first want is replaced by its opposite before the transmitter runs. */
  predicate FirstWantReversed(ops: seq<Op>)
  {
    var n := FirstWant(ops);
    n < |ops| && ops[n].Level? &&
    var first := WantedAfter(XOn, ops[n].band); FirstSendable(first, ops[n + 1..]) == Some(Other(first))
  }

  lemma {:induction false} WantLater(ops: seq<Op>)
    requires ops != [] && !(ops[0].Level? && !ops[0].band.Medium?)
    ensures FirstWantReversed(ops) <==> FirstWantReversed(ops[1..])
  {
    hide FirstSendable;
    var n := FirstWant(ops[1..]);
    assert FirstWant(ops) == n + 1;
    if n < |ops| - 1 {
      assert ops[1..][n] == ops[n + 1] && ops[1..][n + 1..] == ops[n + 2..];
    }
  }

  /** From idle the machine sends what it should exactly when the first want is not reversed before the
      transmitter runs; if it is, the machine takes the reversed want for sent already. */
  lemma {:induction false} FromIdle(ops: seq<Op>)
    ensures Wire(Idle, ops) == IdealWire(None, None, ops) <==> !FirstWantReversed(ops)
    decreases |ops|
  {
    hide FirstSendable;
    if ops != [] {
      if ops[0].Level? && !ops[0].band.Medium? {
        assert FirstWant(ops) == 0;
        var first := WantedAfter(XOn, ops[0].band);
        var x := Evaluate(Idle, ops[0].band);
        assert Tied(x, Other(first)) && Wanted(x) == first;
        RefinesWantedCharacter(x, Other(first), ops[1..]);
        FirstWantAssumed(first, first, ops[1..]);
      } else {
        FromIdle(ops[1..]);
        WantLater(ops);
        assert Wire(Idle, ops) == Wire(Idle, ops[1..]) && IdealWire(None, None, ops) == IdealWire(None, None, ops[1..]);
      }
    }
  }

  /** The queue fills up before an XON could be sent: no XOFF is sent, although one is wanted. */
  lemma {:induction false} LostXOff()
    ensures Wire(Idle, [Level(EventQueue.Low), Level(EventQueue.High), Transmit]) == []
    ensures IdealWire(None, None, [Level(EventQueue.Low), Level(EventQueue.High), Transmit]) == [XOff]
  {
    var ops := [Level(EventQueue.Low), Level(EventQueue.High), Transmit];
    assert ops[1..] == [Level(EventQueue.High), Transmit] && ops[1..][1..] == [Transmit];
    assert Wire(XOffSent, ops[1..][1..]) == [] && Wire(XOnNeeded, ops[1..]) == [];
    assert IdealWire(Some(XOff), None, ops[1..][1..]) == [XOff];
    assert IdealWire(Some(XOn), None, ops[1..]) == [XOff];
  }

  /** A need that is withdrawn before the transmitter runs is never sent. */
  lemma {:induction false} NeedIsCancelled(x: XO, last: Char, up: Band, down: Band)
    requires Tied(x, last) && (x == XOnSent || x == XOffSent)
    requires WantedAfter(Wanted(x), up) != Wanted(x) && WantedAfter(Wanted(x), down) == Wanted(x) && !down.Medium?
    ensures Final(x, [Level(up), Level(down)]) == x && Wire(x, [Level(up), Level(down), Transmit]) == []
  {
    var ops := [Level(up), Level(down), Transmit];
    assert ops[1..] == [Level(down), Transmit] && ops[1..][1..] == [Transmit];
    var two := [Level(up), Level(down)];
    assert two[1..] == [Level(down)] && two[1..][1..] == [];
    assert Step(Step(x, Level(up)), Level(down)) == x;
    assert Final(Step(x, Level(up)), two[1..]) == x;
    assert Wire(x, ops[1..][1..]) == [];
    assert Wire(Step(x, Level(up)), ops[1..]) == [];
  }

  // ----- the driver's methods ------------------------------------------------------

  class Driver {
    var rxoState: XO
    /** Automatic flow control selected: by RFR, by XON/XOFF. */
    var autoRfr: bool
    var autoRxo: bool

    /** The flow-control half of computing the receive queue's status bits. */
    method GenerateRxQState(fifostate: Band)
      modifies this`rxoState
      ensures rxoState == if !autoRfr && autoRxo then Evaluate(old(rxoState), fifostate) else old(rxoState)
    {
      match fifostate {
        case Empty | Low =>
          if !autoRfr && autoRxo {
            match rxoState
            case XOffSent | Idle => rxoState := XOnNeeded;
            case XOffNeeded => rxoState := XOnSent;
            case _ =>
          }
        case High | Full =>
          if !autoRfr && autoRxo {
            match rxoState
            case XOnSent | Idle => rxoState := XOffNeeded;
            case XOnNeeded => rxoState := XOffSent;
            case _ =>
          }
        case Medium =>
      }
    }

    /** The transmitter's turn: send a needed flow character ahead of any data. */
    method TransmitFlowCharacter() returns (out: seq<Char>)
      modifies this`rxoState
      ensures autoRxo ==> out == Sent(old(rxoState)) && rxoState == AfterTransmit(old(rxoState))
      ensures !autoRxo ==> out == [] && rxoState == old(rxoState)
    {
      out := [];
      if autoRxo && rxoState.Code() > Idle.Code() {
        out := [if rxoState == XOnNeeded then XOn else XOff];
        rxoState := FromCode(-rxoState.Code());
      }
    }
  }
}
