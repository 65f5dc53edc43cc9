/** Serial-port events, the 16-bit words they are queued as, and the abstract queue:
    a FIFO that marks each burst of lost events in place. */
module EventFifo {
  import opened Bits
  import opened Memory

  type Word = w: nat | w < 0x1_0000

  /** What the driver takes from the serial stream protocol: the size code of an event
      (the event masked with PD_DATA_MASK), the software overrun marker and the code
      reported for an empty queue. */
  datatype Protocol = Protocol(sizeCode: Byte -> nat, overrun: Byte, eoq: Byte)
  {
    ghost predicate Valid()
    {
      (forall c: Byte :: sizeCode(c) <= 3) && sizeCode(overrun) <= 1
    }

    /** Words an event occupies: its size code, but at least one. */
    function Words(code: Byte): nat
    {
      if sizeCode(code) == 0 then 1 else sizeCode(code)
    }
  }

  datatype Event = Event(code: Byte, data: nat)

  // ----- words ---------------------------------------------------------------------

  function HeadWord(code: Byte, data: nat): Word
  {
    Or(code, Shl(data, 8)) % 0x1_0000
  }

  lemma {:induction false} HeadWordValue(code: Byte, data: nat)
    ensures HeadWord(code, data) == code + 256 * (data % 256)
  {
    hide And, Or;
    assert Pow2(8) == 256;
    LowHighDisjoint(code, data, 8);
    OrDisjoint(code, Shl(data, 8));
    DivModUnique(code + 256 * data, 0x1_0000, data / 256, code + 256 * (data % 256));
  }

  /** The first word carries the code and the low data byte side by side. */
  lemma {:induction false} HeadWordSplit(code: Byte, data: nat)
    ensures var w := HeadWord(code, data);
            w % 256 == And(w, 0xff) == code && w / 256 == Shr(w, 8) == data % 256
  {
    hide And, HeadWord;
    var w := HeadWord(code, data);
    assert Pow2(8) == 256;
    HeadWordValue(code, data);
    AndLowMask(w, 8);
  }

  lemma {:induction false} LongData(data: nat)
    requires data < 0x1_0000_0000
    ensures Or(data % 0x1_0000, Shl(data / 0x1_0000, 16)) == data
  {
    Pow2Values();
    LowHighDisjoint(data % 0x1_0000, data / 0x1_0000, 16);
    OrDisjoint(data % 0x1_0000, Shl(data / 0x1_0000, 16));
  }

  /** The data of an event as the queue keeps it: cut to its size class. */
  function Stored(p: Protocol, e: Event): Event
  {
    e.(data := if p.sizeCode(e.code) <= 1 then e.data % 0x100
               else if p.sizeCode(e.code) == 2 then e.data % 0x1_0000
               else e.data % 0x1_0000_0000)
  }

  /** The data of an event as a caller sees it: an event of size 0 delivers none. */
  function Seen(p: Protocol, e: Event): Event
  {
    if p.sizeCode(e.code) == 0 then e.(data := 0) else Stored(p, e)
  }

  /** The data of an event is of its size class: none, a byte, 16 bits or 32 bits. */
  ghost predicate OfItsSize(p: Protocol, e: Event)
    requires p.Valid()
  {
    match p.sizeCode(e.code)
    case 0 => e.data == 0
    case 1 => e.data <= 0xff
    case 2 => e.data <= 0xffff
    case 3 => e.data <= 0xffff_ffff
  }

  /** A caller gets back exactly what was queued if and only if the data was of the event's size. */
  lemma {:induction false} SeenWholeIff(p: Protocol, e: Event)
    requires p.Valid()
    ensures Seen(p, Stored(p, e)) == e <==> OfItsSize(p, e)
    ensures Seen(p, Stored(p, e)) == Seen(p, e)
  {
    assert p.sizeCode(e.code) <= 3;
  }

  function ToWords(p: Protocol, e: Event): (ws: seq<Word>)
    requires p.Valid()
    ensures |ws| == p.Words(e.code) && 1 <= |ws| <= 3
    ensures ws[0] == HeadWord(e.code, e.data)
  {
    [HeadWord(e.code, e.data)] +
    (if p.sizeCode(e.code) > 1 then [e.data % 0x1_0000] else []) +
    (if p.sizeCode(e.code) > 2 then [e.data / 0x1_0000 % 0x1_0000] else [])
  }

  function AllWords(p: Protocol, es: seq<Event>): (ws: seq<Word>)
    requires p.Valid()
    ensures |ws| >= |es|
  {
    if es == [] then [] else ToWords(p, es[0]) + AllWords(p, es[1..])
  }

  function WordsData(ws: seq<Word>, n: nat): nat
    requires 1 <= n <= 3 && n <= |ws|
  {
    if n == 1 then ws[0] / 256
    else if n == 2 then ws[1]
    else
      var lo: nat, hi: nat := ws[1], ws[2];
      lo + 0x1_0000 * hi
  }

  lemma {:induction false} WordsDataPrefix(ws: seq<Word>, n: nat)
    requires 1 <= n <= 3 && n <= |ws|
    ensures WordsData(ws[..n], n) == WordsData(ws, n)
  {
  }

  lemma {:induction false} WordsDataOf(p: Protocol, e: Event)
    requires p.Valid() && Stored(p, e) == e
    ensures WordsData(ToWords(p, e), p.Words(e.code)) == e.data
    ensures ToWords(p, e)[0] % 256 == e.code
  {
    hide HeadWord, And, Shr;
    HeadWordSplit(e.code, e.data);
  }

  /** Read a queue's words back as whole events; `None` if they end inside one. */
  function Parse(p: Protocol, ws: seq<Word>): (r: Result)
    requires p.Valid()
  {
    if ws == [] then Parsed([])
    else
      var code: Byte := ws[0] % 256;
      var n := p.Words(code);
      if |ws| < n then Malformed
      else
        var data := WordsData(ws, n);
        match Parse(p, ws[n..])
        case Malformed => Malformed
        case Parsed(es) => Parsed([Event(code, data)] + es)
  }

  datatype Result = Malformed | Parsed(events: seq<Event>)

  lemma {:induction false} ParseAllWords(p: Protocol, es: seq<Event>)
    requires p.Valid() && forall i :: 0 <= i < |es| ==> Stored(p, es[i]) == es[i]
    ensures Parse(p, AllWords(p, es)) == Parsed(es)
  {
    hide HeadWord, ToWords, Stored, WordsData;
    if es != [] {
      var ws := AllWords(p, es);
      var n := p.Words(es[0].code);
      WordsDataOf(p, es[0]);
      assert ws[n..] == AllWords(p, es[1..]);
      assert ws[..n] == ToWords(p, es[0]);
      WordsDataPrefix(ws, n);
      assert ws[0] == ws[..n][0];
      ParseAllWords(p, es[1..]);
      assert es == [es[0]] + es[1..];
    }
  }

  lemma {:induction false} AllWordsAppend(p: Protocol, es: seq<Event>, e: Event)
    requires p.Valid()
    ensures AllWords(p, es + [e]) == AllWords(p, es) + ToWords(p, e)
  {
    hide HeadWord;
    if es == [] {
      assert AllWords(p, [e]) == ToWords(p, e) + AllWords(p, []);
      assert [] + [e] == [e];
    } else {
      AllWordsAppend(p, es[1..], e);
      assert (es + [e])[1..] == es[1..] + [e];
      assert (ToWords(p, es[0]) + AllWords(p, es[1..])) + ToWords(p, e) == ToWords(p, es[0]) +
          (AllWords(p, es[1..]) + ToWords(p, e));
    }
  }

  // ----- the abstract queue --------------------------------------------------------

  datatype Fifo = Fifo(size: nat, events: seq<Event>, overRun: bool)
  {
    ghost predicate Valid(p: Protocol)
      requires p.Valid()
    {
      && |AllWords(p, events)| <= size
      && forall i :: 0 <= i < |events| ==> Stored(p, events[i]) == events[i]
    }
  }

  function Marker(p: Protocol): Event { Event(p.overrun, 0) }

  predicate Accepts(p: Protocol, q: Fifo, code: Byte)
    requires p.Valid()
  {
    !q.overRun && |AllWords(p, q.events)| + p.Words(code) <= q.size
  }

  /** A refused event is lost; the loss is remembered until there is room for the marker. */
  function Enqueue(p: Protocol, q: Fifo, e: Event): Fifo
    requires p.Valid()
  {
    if Accepts(p, q, e.code) then q.(events := q.events + [Stored(p, e)]) else q.(overRun := true)
  }

  /** The marker of a pending loss takes the room just made. */
  function Dequeue(p: Protocol, q: Fifo): Fifo
  {
    if q.events == [] then q
    else if q.overRun then q.(events := q.events[1..] + [Marker(p)], overRun := false)
    else q.(events := q.events[1..])
  }

  lemma {:induction false} EnqueueKeepsValid(p: Protocol, q: Fifo, e: Event)
    requires p.Valid() && q.Valid(p)
    ensures Enqueue(p, q, e).Valid(p)
  {
    hide ToWords, AllWords;
    AllWordsAppend(p, q.events, Stored(p, e));
  }

  lemma {:induction false} DequeueKeepsValid(p: Protocol, q: Fifo)
    requires p.Valid() && q.Valid(p)
    ensures Dequeue(p, q).Valid(p)
  {
    hide ToWords;
    if q.events != [] {
      assert |AllWords(p, q.events)| == p.Words(q.events[0].code) + |AllWords(p, q.events[1..])|;
      AllWordsAppend(p, q.events[1..], Marker(p));
    }
  }

  lemma {:induction false} StepKeepsValid(p: Protocol, q: Fifo, op: Op)
    requires p.Valid() && q.Valid(p)
    ensures Step(p, q, op).Valid(p)
  {
    match op
    case Enq(e) => EnqueueKeepsValid(p, q, e);
    case Deq => DequeueKeepsValid(p, q);
  }

  // ----- whole runs ----------------------------------------------------------------

  datatype Op = Enq(event: Event) | Deq

  /** What a user of the queue observes of one operation. */
  datatype Observation = Accepted(event: Event) | Dropped(event: Event) | Delivered(event: Event) | Nothing

  function Step(p: Protocol, q: Fifo, op: Op): Fifo
    requires p.Valid()
  {
    match op
    case Enq(e) => Enqueue(p, q, e)
    case Deq => Dequeue(p, q)
  }

  function Observe(p: Protocol, q: Fifo, op: Op): Observation
    requires p.Valid()
  {
    match op
    case Enq(e) => if Accepts(p, q, e.code) then Accepted(e) else Dropped(e)
    case Deq => if q.events == [] then Nothing else Delivered(Seen(p, q.events[0]))
  }

  function Run(p: Protocol, q: Fifo, ops: seq<Op>): Fifo
    requires p.Valid()
    decreases |ops|
  {
    if ops == [] then q else Run(p, Step(p, q, ops[0]), ops[1..])
  }

  function Trace(p: Protocol, q: Fifo, ops: seq<Op>): seq<Observation>
    requires p.Valid()
    decreases |ops|
  {
    if ops == [] then [] else [Observe(p, q, ops[0])] + Trace(p, Step(p, q, ops[0]), ops[1..])
  }

  function Deliveries(trace: seq<Observation>): seq<Event>
  {
    if trace == [] then []
    else (if trace[0].Delivered? then [trace[0].event] else []) + Deliveries(trace[1..])
  }

  /** The loss burst going on after one more observation: a drop opens or continues it, an
      accepted event or a delivery closes it. */
  predicate BurstAfter(o: Observation, burst: bool)
  {
    o.Dropped? || (o.Nothing? && burst)
  }

  function NewlyOwed(p: Protocol, o: Observation, burst: bool): seq<Event>
  {
    match o
    case Accepted(e) => [Seen(p, e)]
    case Dropped(_) => if burst then [] else [Marker(p)]
    case _ => []
  }

  /** The input with every burst of drops replaced by one marker at its place. */
  function MarkLosses(p: Protocol, trace: seq<Observation>, burst: bool): seq<Event>
  {
    if trace == [] then []
    else
      NewlyOwed(p, trace[0], burst) + MarkLosses(p, trace[1..], BurstAfter(trace[0], burst))
  }

  function AllSeen(p: Protocol, es: seq<Event>): seq<Event>
  {
    if es == [] then [] else [Seen(p, es[0])] + AllSeen(p, es[1..])
  }

  lemma {:induction false} AllSeenAppend(p: Protocol, es: seq<Event>, e: Event)
    ensures AllSeen(p, es + [e]) == AllSeen(p, es) + [Seen(p, e)]
  {
    if es == [] {
      assert [] + [e] == [e];
    } else {
      assert (es + [e])[1..] == es[1..] + [e];
      AllSeenAppend(p, es[1..], e);
    }
  }

  /** Everything the queue still owes its reader, a pending loss included. */
  function Owed(p: Protocol, q: Fifo): seq<Event>
  {
    AllSeen(p, q.events) + if q.overRun then [Marker(p)] else []
  }

  /** One operation: what is delivered plus what is owed afterwards is what was owed
      before plus what the operation added. */
  lemma {:induction false} StepConserves(p: Protocol, q: Fifo, op: Op)
    requires p.Valid() && q.Valid(p)
    ensures var o := Observe(p, q, op);
            && Deliveries([o]) + Owed(p, Step(p, q, op)) == Owed(p, q) + MarkLosses(p, [o], q.overRun)
            && Step(p, q, op).overRun == BurstAfter(o, q.overRun)
  {
    hide HeadWord, AllWords, Stored, Seen;
    var o := Observe(p, q, op);
    assert Deliveries([o]) == if o.Delivered? then [o.event] else [];
    assert MarkLosses(p, [o], q.overRun) == NewlyOwed(p, o, q.overRun);
    match op
    case Enq(e) =>
      SeenStored(p, e);
      AllSeenAppend(p, q.events, Stored(p, e));
    case Deq =>
      if q.events != [] {
        SeenStored(p, Marker(p));
        AllSeenAppend(p, q.events[1..], Marker(p));
      }
  }

  lemma {:induction false} SeenStored(p: Protocol, e: Event)
    ensures Seen(p, Stored(p, e)) == Seen(p, e)
    ensures Seen(p, Marker(p)) == Marker(p)
  {
  }

  lemma {:induction false} TraceSplit(p: Protocol, o: Observation, rest: seq<Observation>, burst: bool)
    ensures Deliveries([o] + rest) == Deliveries([o]) + Deliveries(rest)
    ensures MarkLosses(p, [o] + rest, burst) == MarkLosses(p, [o], burst) + MarkLosses(p, rest, BurstAfter(o, burst))
  {
    var t := [o] + rest;
    assert t[1..] == rest;
    assert [o][1..] == [];
  }

  /** Every run of enqueues and dequeues: the events delivered followed by the events owed are
      the initial ones followed by the input, cut to size class and with each burst of losses
      replaced by exactly one marker at its place. */
  lemma {:induction false} FifoWithMarkedLosses(p: Protocol, q: Fifo, ops: seq<Op>)
    requires p.Valid() && q.Valid(p)
    ensures Run(p, q, ops).Valid(p)
    ensures Deliveries(Trace(p, q, ops)) + Owed(p, Run(p, q, ops))
         == Owed(p, q) + MarkLosses(p, Trace(p, q, ops), q.overRun)
    decreases |ops|
  {
    if ops != [] {
      hide HeadWord, AllWords, Owed, Deliveries, MarkLosses, Step, Observe, BurstAfter;
      var o, q' := Observe(p, q, ops[0]), Step(p, q, ops[0]);
      var rest := Trace(p, q', ops[1..]);
      StepConserves(p, q, ops[0]);
      StepKeepsValid(p, q, ops[0]);
      FifoWithMarkedLosses(p, q', ops[1..]);
      TraceSplit(p, o, rest, q.overRun);
      Regroup(Deliveries([o]), Deliveries(rest), Owed(p, Run(p, q, ops)), Owed(p, q'), MarkLosses(p, rest, q'.overRun),
              Owed(p, q), MarkLosses(p, [o], q.overRun));
    }
  }

  /** Concatenation bookkeeping for `FifoWithMarkedLosses`. */
  lemma {:induction false} Regroup(d: seq<Event>, ds: seq<Event>, end: seq<Event>, mid: seq<Event>, ls: seq<Event>,
                                   start: seq<Event>, l: seq<Event>)
    requires ds + end == mid + ls && d + mid == start + l
    ensures (d + ds) + end == start + (l + ls)
  {
    assert (d + ds) + end == d + (ds + end) == (d + mid) + ls;
    assert (start + l) + ls == start + (l + ls);
  }

  // ----- emptying the queue ----------------------------------------------------------

  /** `n` dequeues. */
  function Dequeues(n: nat): (r: seq<Op>)
    ensures |r| == n
  {
    if n == 0 then [] else [Deq] + Dequeues(n - 1)
  }

  /** A dequeue delivers the oldest event and, if a loss is pending, puts its marker last. */
  lemma {:induction false} DequeueDelivers(p: Protocol, q: Fifo)
    requires p.Valid() && q.events != []
    ensures Observe(p, q, Deq) == Delivered(Seen(p, q.events[0]))
    ensures Step(p, q, Deq).events == q.events[1..] + (if q.overRun then [Event(p.overrun, 0)] else [])
    ensures !Step(p, q, Deq).overRun
  {
  }

  /** As many dequeues as events are owed deliver all of them, in order, and leave the queue empty, unless
      the queue is empty and yet has lost something, as one of size 0 has. */
  lemma {:induction false} DrainDelivers(p: Protocol, q: Fifo)
    requires p.Valid() && (q.events != [] || !q.overRun)
    ensures var run := Dequeues(|Owed(p, q)|);
            Deliveries(Trace(p, q, run)) == Owed(p, q) && Run(p, q, run) == Fifo(q.size, [], false)
    decreases |Owed(p, q)|
  {
    hide Seen;
    if q.events != [] {
      var o, q' := Observe(p, q, Deq), Step(p, q, Deq);
      DequeueDelivers(p, q);
      OwedAfter(p, q);
      DrainDelivers(p, q');
      var run := Dequeues(|Owed(p, q)|);
      assert run[0] == Deq && run[1..] == Dequeues(|Owed(p, q')|);
      var rest := Trace(p, q', run[1..]);
      assert Trace(p, q, run) == [o] + rest;
      TraceSplit(p, o, rest, false);
      assert Deliveries([o]) == [o.event];
    }
  }

  lemma {:induction false} OwedAfter(p: Protocol, q: Fifo)
    requires p.Valid() && q.events != []
    ensures Owed(p, q) == [Seen(p, q.events[0])] + Owed(p, Step(p, q, Deq))
  {
    hide Seen;
    if q.overRun {
      SeenStored(p, Marker(p));
      AllSeenAppend(p, q.events[1..], Marker(p));
    }
  }

  // ----- bursts of the input -------------------------------------------------------

  /** The burst of the input alone: only an accepted event closes it. */
  predicate InputBurstAfter(o: Observation, burst: bool)
  {
    o.Dropped? || (burst && !o.Accepted?)
  }

  /** The input with every maximal run of lost events replaced by one marker, whatever is delivered. */
  function MarkInput(p: Protocol, trace: seq<Observation>, burst: bool): seq<Event>
  {
    if trace == [] then []
    else NewlyOwed(p, trace[0], burst) + MarkInput(p, trace[1..], InputBurstAfter(trace[0], burst))
  }

  /** A loss goes on at `i` of a trace; before its start it does if `burst` says so. */
  predicate LossAt(trace: seq<Observation>, burst: bool, i: int)
  {
    if i == -1 then burst else 0 <= i < |trace| && trace[i].Dropped?
  }

  ghost predicate NoneAccepted(trace: seq<Observation>, i: int, k: int)
  {
    forall n :: i < n < k && 0 <= n < |trace| ==> !trace[n].Accepted?
  }

  predicate DeliveredAt(trace: seq<Observation>, j: int) { 0 <= j < |trace| && trace[j].Delivered? }

  predicate DroppedAt(trace: seq<Observation>, k: int) { 0 <= k < |trace| && trace[k].Dropped? }

  /** A delivery falls between two losses with nothing accepted between them. */
  ghost predicate Interrupted(trace: seq<Observation>, burst: bool)
  {
    exists i, j, k :: LossAt(trace, burst, i) && DeliveredAt(trace, j) && DroppedAt(trace, k) && i < j < k &&
        NoneAccepted(trace, i, k)
  }

  /** The next loss comes before the next accepted event. */
  ghost predicate LossComes(trace: seq<Observation>)
  {
    exists k :: DroppedAt(trace, k) && NoneAccepted(trace, -1, k)
  }

  /** One more observation in front shifts every index by one. */
  lemma {:induction false} Shift(o: Observation, rest: seq<Observation>, i: int, k: int)
    requires -1 <= i
    ensures NoneAccepted(rest, i, k) <==> NoneAccepted([o] + rest, i + 1, k + 1)
    ensures i == -1 ==> (NoneAccepted([o] + rest, -1, k + 1) <==> NoneAccepted(rest, -1, k) && (k < 0 || !o.Accepted?))
    ensures DroppedAt([o] + rest, k + 1) <==> DroppedAt(rest, k) || (k == -1 && o.Dropped?)
  {
    var t := [o] + rest;
    assert forall n :: 0 <= n < |rest| ==> rest[n] == t[n + 1];
    assert t[0] == o;
    if NoneAccepted(t, i + 1, k + 1) {
      forall n | i < n < k && 0 <= n < |rest| ensures !rest[n].Accepted? {
        assert !t[n + 1].Accepted?;
      }
    }
    if NoneAccepted(t, -1, k + 1) {
      forall n | -1 < n < k && 0 <= n < |rest| ensures !rest[n].Accepted? {
        assert !t[n + 1].Accepted?;
      }
      assert k >= 0 ==> !t[0].Accepted?;
    }
  }

  lemma {:induction false} InterruptedTail(o: Observation, rest: seq<Observation>, burst: bool)
    requires Interrupted([o] + rest, burst)
    ensures Interrupted(rest, InputBurstAfter(o, burst)) || (burst && o.Delivered? && LossComes(rest))
  {
    var t, b' := [o] + rest, InputBurstAfter(o, burst);
    var i, j, k :| LossAt(t, burst, i) && DeliveredAt(t, j) && DroppedAt(t, k) && i < j < k && NoneAccepted(t, i, k);
    hide NoneAccepted;
    Shift(o, rest, if i == -1 then -1 else i - 1, k - 1);
    if j == 0 {
      assert DroppedAt(rest, k - 1) && NoneAccepted(rest, -1, k - 1);
    } else {
      assert LossAt(rest, b', if i == -1 then -1 else i - 1) && DeliveredAt(rest, j - 1);
    }
  }

  lemma {:induction false} InterruptedHead(o: Observation, rest: seq<Observation>, burst: bool)
    requires Interrupted(rest, InputBurstAfter(o, burst)) || (burst && o.Delivered? && LossComes(rest))
    ensures Interrupted([o] + rest, burst)
  {
    var t, b' := [o] + rest, InputBurstAfter(o, burst);
    if Interrupted(rest, b') {
      var i, j, k :| LossAt(rest, b', i) && DeliveredAt(rest, j) && DroppedAt(rest, k) && i < j < k &&
          NoneAccepted(rest, i, k);
      hide NoneAccepted;
      Shift(o, rest, i, k);
      assert LossAt(t, burst, if i == -1 && !o.Dropped? then -1 else i + 1) && DeliveredAt(t, j + 1);
    } else {
      var k :| DroppedAt(rest, k) && NoneAccepted(rest, -1, k);
      hide NoneAccepted;
      Shift(o, rest, -1, k);
      assert LossAt(t, burst, -1) && DeliveredAt(t, 0);
    }
  }

  lemma {:induction false} LossComesStep(o: Observation, rest: seq<Observation>)
    ensures LossComes([o] + rest) <==> o.Dropped? || (!o.Accepted? && LossComes(rest))
  {
    var t := [o] + rest;
    if LossComes(t) {
      var k :| DroppedAt(t, k) && NoneAccepted(t, -1, k);
      Shift(o, rest, -1, k - 1);
    }
    if o.Dropped? {
      Shift(o, rest, -1, -1);
      assert NoneAccepted(t, -1, 0);
    } else if !o.Accepted? && LossComes(rest) {
      var k :| DroppedAt(rest, k) && NoneAccepted(rest, -1, k);
      Shift(o, rest, -1, k);
      assert DroppedAt(t, k + 1) && NoneAccepted(t, -1, k + 1);
    }
  }

  /** The two ways of marking agree exactly on uninterrupted losses; else the queue marks more. `cut`: a
      delivery has closed the queue's burst but not the input's. */
  lemma {:induction false} MarkingsAgree(p: Protocol, trace: seq<Observation>, burst: bool, cut: bool)
    requires cut ==> burst
    ensures var interrupted := Interrupted(trace, burst) || (cut && LossComes(trace));
            if interrupted then |MarkLosses(p, trace, burst && !cut)| > |MarkInput(p, trace, burst)|
            else MarkLosses(p, trace, burst && !cut) == MarkInput(p, trace, burst)
    decreases |trace|
  {
    hide Interrupted, LossComes, Seen;
    if trace == [] {
      NoLosses(burst);
    } else {
      var o, rest := trace[0], trace[1..];
      assert trace == [o] + rest;
      var burst' := InputBurstAfter(o, burst);
      if Interrupted(trace, burst) {
        InterruptedTail(o, rest, burst);
      }
      if Interrupted(rest, burst') || (burst && o.Delivered? && LossComes(rest)) {
        InterruptedHead(o, rest, burst);
      }
      LossComesStep(o, rest);
      var cut' := burst' && !BurstAfter(o, burst && !cut);
      MarkingsAgree(p, rest, burst', cut');
    }
  }

  lemma {:induction false} NoLosses(burst: bool)
    ensures !Interrupted([], burst) && !LossComes([])
  {
  }

  /** Over every run, one marker at the place of each maximal run of lost input events is what the
      queue delivers and owes, exactly when no delivery interrupts such a run. */
  lemma {:induction false} OneMarkerPerInputBurst(p: Protocol, q: Fifo, ops: seq<Op>)
    requires p.Valid() && q.Valid(p)
    ensures var t := Trace(p, q, ops);
            Deliveries(t) + Owed(p, Run(p, q, ops)) == Owed(p, q) + MarkInput(p, t, q.overRun)
            <==> !Interrupted(t, q.overRun)
  {
    hide Deliveries, Owed, Run, MarkInput, MarkLosses, Interrupted, LossComes, Trace;
    var t := Trace(p, q, ops);
    FifoWithMarkedLosses(p, q, ops);
    MarkingsAgree(p, t, q.overRun, false);
    SameTail(Owed(p, q), MarkLosses(p, t, q.overRun), MarkInput(p, t, q.overRun));
  }

  lemma {:induction false} SameTail(a: seq<Event>, b: seq<Event>, c: seq<Event>)
    ensures a + b == a + c <==> b == c
  {
    if a + b == a + c {
      assert b == (a + b)[|a|..] == (a + c)[|a|..] == c;
    }
  }

  /** Losses that are adjacent in the input may still leave two markers side by side: on a full
      queue a delivery between them closes the first burst. */
  lemma {:induction false} AdjacentMarkers(p: Protocol, q: Fifo, lost: Event, alsoLost: Event)
    requires p.Valid() && q.Valid(p) && !q.overRun && |AllWords(p, q.events)| == q.size
    requires |q.events| >= 2 && p.Words(q.events[0].code) == 1
    ensures var q' := Run(p, q, [Enq(lost), Deq, Enq(alsoLost), Deq]);
            q'.events == q.events[2..] + [Marker(p), Marker(p)] && !q'.overRun
  {
    hide HeadWord;
    var q1 := Step(p, q, Enq(lost));
    var q2 := Step(p, q1, Deq);
    assert q2.events == q.events[1..] + [Marker(p)];
    AllWordsAppend(p, q.events[1..], Marker(p));
    assert |AllWords(p, q2.events)| == q.size;
    var q3 := Step(p, q2, Enq(alsoLost));
    var q4 := Step(p, q3, Deq);
    assert q4.events == q.events[2..] + [Marker(p), Marker(p)];
    var ops := [Enq(lost), Deq, Enq(alsoLost), Deq];
    assert ops[1..] == [Deq, Enq(alsoLost), Deq];
    assert ops[1..][1..] == [Enq(alsoLost), Deq];
    assert ops[1..][1..][1..] == [Deq];
    assert Run(p, q3, [Deq]) == q4;
    assert Run(p, q2, ops[1..][1..]) == q4;
    assert Run(p, q1, ops[1..]) == q4;
  }
}
