/** The way of keyboard bytes through the controller. Every arrival is known by its number, so that
    equal bytes are told apart. */
module KeyStream {
  import opened Memory

  const KEYBOARD_QUEUE_SIZE := 32

  /** Bytes that arrived; which of them the keyboard driver was given, a read holds, the queue holds. */
  datatype Keys = Keys(arrivals: seq<Byte>, driver: seq<nat>, held: seq<nat>, queue: seq<nat>)

  datatype Action =
    | Queue(byte: Byte)    // the interrupt handler queues an arrival
    | Drop(byte: Byte)     // the interrupt handler finds no room for an arrival
    | Pass(byte: Byte)     // an arrival is taken off the port and dispatched at once
    | Take(byte: Byte)     // a keyboard read takes an arrival off the port
    | Fetch                // a keyboard read takes the oldest queued byte
    | Drain                // the oldest queued byte is dispatched
    | Hand(k: nat)         // a keyboard read ends, one byte it holds being dispatched
    | Return               // a keyboard read ends

  /** Reads and dispatches happen one at a time in the work loop; the port is only read for the
      keyboard when the queue is empty. */
  predicate Enabled(s: Keys, a: Action)
  {
    match a
    case Queue(_) => |s.queue| < KEYBOARD_QUEUE_SIZE
    case Drop(_) => |s.queue| >= KEYBOARD_QUEUE_SIZE
    case Pass(_) => s.held == []
    case Take(_) => s.queue == []
    case Fetch => s.queue != []
    case Drain => s.queue != [] && s.held == []
    case Hand(k) => k < |s.held|
    case Return => true
  }

  function Act(s: Keys, a: Action): Keys
    requires Enabled(s, a)
  {
    var n := |s.arrivals|;
    match a
    case Queue(b) => s.(arrivals := s.arrivals + [b], queue := s.queue + [n])
    case Drop(_) => s
    case Pass(b) => s.(arrivals := s.arrivals + [b], driver := s.driver + [n])
    case Take(b) => s.(arrivals := s.arrivals + [b], held := s.held + [n])
    case Fetch => s.(queue := s.queue[1..], held := s.held + [s.queue[0]])
    case Drain => s.(queue := s.queue[1..], driver := s.driver + [s.queue[0]])
    case Hand(k) => s.(held := [], driver := s.driver + [s.held[k]])
    case Return => s.(held := [])
  }

  const START := Keys([], [], [], [])

  ghost predicate Legal(h: seq<Action>)
    decreases |h|, 0
  {
    h == [] || (Legal(h[..|h| - 1]) && Enabled(After(h[..|h| - 1]), h[|h| - 1]))
  }

  ghost function After(h: seq<Action>): Keys
    requires Legal(h)
    decreases |h|, 1
  {
    if h == [] then START else Act(After(h[..|h| - 1]), h[|h| - 1])
  }

  lemma {:induction false} OneMore(h: seq<Action>, a: Action)
    requires Legal(h) && Enabled(After(h), a)
    ensures Legal(h + [a]) && After(h + [a]) == Act(After(h), a)
  {
    assert (h + [a])[..|h|] == h;
  }

  lemma {:induction false} LegalPrefix(h: seq<Action>, i: nat)
    requires Legal(h) && i <= |h|
    ensures Legal(h[..i])
  {
    if i < |h| {
      LegalPrefix(h[..|h| - 1], i);
      assert h[..|h| - 1][..i] == h[..i];
    } else {
      assert h[..i] == h;
    }
  }

  ghost predicate Increasing(s: seq<nat>)
  {
    forall i, j :: 0 <= i < j < |s| ==> s[i] < s[j]
  }

  /** What the driver was given, followed by what it will be given from the queue, is in arrival order. */
  ghost predicate InOrder(s: Keys)
  {
    Increasing(s.driver + s.queue)
  }

  /** Bytes in a reader's hands included, and nothing numbered beyond the arrivals. */
  ghost predicate AllInOrder(s: Keys)
  {
    Increasing(Line(s))
  }

  function Line(s: Keys): seq<nat>
  {
    s.driver + s.held + (s.queue + [|s.arrivals|])
  }

  /** Action `i` dispatches a byte off the port ahead of queued ones. */
  ghost predicate OvertakesAt(h: seq<Action>, i: nat)
    requires Legal(h)
  {
    i < |h| && h[i].Pass? && (LegalPrefix(h, i); After(h[..i]).queue != [])
  }

  ghost predicate InOrderAt(h: seq<Action>, i: nat)
    requires Legal(h)
  {
    i <= |h| ==> (LegalPrefix(h, i); InOrder(After(h[..i])))
  }

  /** How an action that does not overtake changes the line. */
  lemma {:induction false} StepLine(s: Keys, a: Action)
    requires Enabled(s, a) && !(a.Pass? && s.queue != [])
    ensures var n := |s.arrivals|;
            match a
            case Hand(k) => Line(Act(s, a)) == s.driver + [s.held[k]] + (s.queue + [n])
            case Return => Line(Act(s, a)) == s.driver + [] + (s.queue + [n])
            case Fetch => Line(Act(s, a)) == Line(s)
            case Drain => Line(Act(s, a)) == Line(s)
            case Drop(_) => Line(Act(s, a)) == Line(s)
            case _ => Line(Act(s, a)) == Line(s) + [n + 1]
  {
  }

  lemma {:induction false} StepInOrder(s: Keys, a: Action)
    requires AllInOrder(s) && Enabled(s, a) && !(a.Pass? && s.queue != [])
    ensures AllInOrder(Act(s, a))
  {
    StepLine(s, a);
    var n, was := |s.arrivals|, Line(s);
    assert was[|was| - 1] == n;
    hide Act, Line, Increasing;
    match a
    case Hand(k) => LineParts(s); Without(s.driver, s.held, [s.held[k]], s.queue + [n]);
    case Return => LineParts(s); Without(s.driver, s.held, [], s.queue + [n]);
    case Fetch =>
    case Drain =>
    case Drop(_) =>
    case _ => OneAfter(was, n + 1);
  }

  lemma {:induction false} LineParts(s: Keys)
    ensures Line(s) == s.driver + s.held + (s.queue + [|s.arrivals|])
  {
  }

  lemma {:induction false} OneAfter(s: seq<nat>, n: nat)
    requires Increasing(s) && s != [] && s[|s| - 1] < n
    ensures Increasing(s + [n])
  {
  }

  /** Leaving out all or all but one of some elements keeps a sequence increasing. */
  lemma {:induction false} Without(a: seq<nat>, b: seq<nat>, c: seq<nat>, d: seq<nat>)
    requires Increasing(a + b + d) && (c == [] || (|c| == 1 && c[0] in b))
    ensures Increasing(a + c + d)
  {
    var s, t := a + b + d, a + c + d;
    var k := 0;
    if c != [] {
      k :| 0 <= k < |b| && b[k] == c[0];
      assert s[|a| + k] == c[0];
    }
    forall i, j | 0 <= i < j < |t| ensures t[i] < t[j] {
      var i' := if i < |a| then i else if i < |a| + |c| then |a| + k else i - |c| + |b|;
      var j' := if j < |a| then j else if j < |a| + |c| then |a| + k else j - |c| + |b|;
      assert t[i] == s[i'] && t[j] == s[j'];
    }
  }

  lemma {:induction false} AllIsMore(s: Keys)
    requires AllInOrder(s)
    ensures InOrder(s)
  {
    Without(s.driver, s.held, [], s.queue + [|s.arrivals|]);
    var t := s.driver + [] + (s.queue + [|s.arrivals|]);
    assert s.driver + s.queue == t[..|t| - 1];
  }

  /** Without overtaking everything stays in order. */
  lemma {:induction false} StaysInOrder(h: seq<Action>)
    requires Legal(h) && forall i: nat :: !OvertakesAt(h, i)
    ensures AllInOrder(After(h))
  {
    hide AllInOrder, Act;
    if h == [] {
      StartInOrder();
    } else {
      var g := h[..|h| - 1];
      forall i: nat ensures !OvertakesAt(g, i) {
        if i < |g| {
          assert g[..i] == h[..i];
          assert !OvertakesAt(h, i);
        }
      }
      StaysInOrder(g);
      assert !OvertakesAt(h, |g|);
      StepInOrder(After(g), h[|g|]);
    }
  }

  lemma {:induction false} StartInOrder()
    ensures AllInOrder(START)
  {
  }

  lemma {:induction false} PassBreaks(s: Keys, b: Byte)
    requires Enabled(s, Pass(b)) && s.queue != [] && InQueueNumbers(s)
    ensures !InOrder(Act(s, Pass(b)))
  {
    var t := Act(s, Pass(b));
    var d := t.driver + t.queue;
    assert d[|s.driver|] == |s.arrivals| && d[|s.driver| + 1] == s.queue[0];
  }

  ghost predicate InQueueNumbers(s: Keys)
  {
    && (forall i :: 0 <= i < |s.driver| ==> s.driver[i] < |s.arrivals|)
    && (forall i :: 0 <= i < |s.held| ==> s.held[i] < |s.arrivals|)
    && (forall i :: 0 <= i < |s.queue| ==> s.queue[i] < |s.arrivals|)
  }

  lemma {:induction false} NumbersOfArrivals(h: seq<Action>)
    requires Legal(h)
    ensures InQueueNumbers(After(h))
  {
    if h != [] {
      NumbersOfArrivals(h[..|h| - 1]);
    }
  }

  /** Over every run of the controller the driver's bytes stay in arrival order, counting those still
      queued, exactly when no keyboard byte is ever taken off the port and dispatched while others
      are queued. */
  lemma {:induction false} KeyboardOrder(h: seq<Action>)
    requires Legal(h)
    ensures (forall i: nat :: InOrderAt(h, i)) <==> NeverOvertakes(h)
  {
    if forall i: nat :: !OvertakesAt(h, i) {
      forall i: nat ensures InOrderAt(h, i) {
        if i <= |h| {
          LegalPrefix(h, i);
          PrefixNeverOvertakes(h, i);
          StaysInOrder(h[..i]);
          AllIsMore(After(h[..i]));
        }
      }
    } else {
      var i: nat :| OvertakesAt(h, i);
      LegalPrefix(h, i);
      LegalPrefix(h, i + 1);
      assert h[..i + 1][..i] == h[..i];
      NumbersOfArrivals(h[..i]);
      PassBreaks(After(h[..i]), h[i].byte);
      assert !InOrderAt(h, i + 1);
    }
  }

  lemma {:induction false} PrefixNeverOvertakes(h: seq<Action>, n: nat)
    requires Legal(h) && n <= |h| && forall i: nat :: !OvertakesAt(h, i)
    ensures Legal(h[..n]) && forall i: nat :: !OvertakesAt(h[..n], i)
  {
    LegalPrefix(h, n);
    forall i: nat ensures !OvertakesAt(h[..n], i) {
      if i < n {
        assert h[..n][..i] == h[..i];
        assert !OvertakesAt(h, i);
      }
    }
  }

  ghost predicate NeverOvertakes(h: seq<Action>)
    requires Legal(h)
  {
    forall i: nat :: !OvertakesAt(h, i)
  }

  lemma {:induction false} StillNeverOvertakes(h: seq<Action>, a: Action)
    requires Legal(h) && Enabled(After(h), a) && !(a.Pass? && After(h).queue != []) && NeverOvertakes(h)
    ensures Legal(h + [a]) && NeverOvertakes(h + [a])
  {
    hide After;
    OneMore(h, a);
    var g := h + [a];
    forall i: nat ensures !OvertakesAt(g, i) {
      if i < |h| {
        assert g[..i] == h[..i];
        assert !OvertakesAt(h, i);
      } else if i == |h| {
        assert g[..i] == h;
      }
    }
  }

  /** From `n` on, only what a mouse read does to keyboard bytes. */
  ghost predicate MouseActions(h: seq<Action>, n: nat)
  {
    forall i :: n <= i < |h| ==> h[i].Queue? || h[i].Drop? || h[i].Pass?
  }

  lemma {:induction false} PassIsMouseAction(h: seq<Action>, n: nat, b: Byte)
    requires MouseActions(h, n) && n <= |h|
    ensures MouseActions(h + [Pass(b)], n)
  {
  }

  /** A mouse read that meets a keyboard byte while others are queued puts it ahead of them. */
  lemma {:induction false} MouseReadOvertakes(h: seq<Action>, n: nat)
    requires Legal(h) && n <= |h| && MouseActions(h, n)
    ensures Legal(h[..n])
    ensures var s, t := After(h[..n]), After(h);
            && s.queue <= t.queue && s.driver <= t.driver && |s.arrivals| <= |t.arrivals|
            && (forall i :: |s.driver| <= i < |t.driver| ==> |s.arrivals| <= t.driver[i])
            && (s.queue != [] && |s.driver| < |t.driver| ==> !InOrder(t))
  {
    LegalPrefix(h, n);
    NumbersOfArrivals(h[..n]);
    if n == |h| {
      assert h[..n] == h;
    } else {
      var g := h[..|h| - 1];
      assert g[..n] == h[..n];
      MouseReadOvertakes(g, n);
      assert h[|h| - 1].Queue? || h[|h| - 1].Drop? || h[|h| - 1].Pass?;
    }
    LaterInDriver(After(h[..n]), After(h));
  }

  lemma {:induction false} LaterInDriver(s: Keys, t: Keys)
    requires InQueueNumbers(s) && s.queue <= t.queue && s.driver <= t.driver
    requires forall i :: |s.driver| <= i < |t.driver| ==> |s.arrivals| <= t.driver[i]
    ensures s.queue != [] && |s.driver| < |t.driver| ==> !InOrder(t)
  {
    if s.queue != [] && |s.driver| < |t.driver| {
      var d := t.driver + t.queue;
      assert d[|s.driver|] >= |s.arrivals| && d[|t.driver|] == s.queue[0];
    }
  }

  // ----- the controller's bytes ----------------------------------------------------

  ghost predicate Numbered(arrivals: seq<Byte>, numbers: seq<nat>, bytes: seq<Byte>)
  {
    |numbers| == |bytes| && forall i :: 0 <= i < |bytes| ==> numbers[i] < |arrivals| && arrivals[numbers[i]] == bytes[i]
  }

  /** The bytes queued, dispatched to the driver and held by a read are those the history says. */
  ghost predicate Tracks(h: seq<Action>, queue: seq<Byte>, driver: seq<Byte>, held: seq<Byte>)
  {
    && Legal(h) && |queue| <= KEYBOARD_QUEUE_SIZE
    && var s := After(h);
       Numbered(s.arrivals, s.queue, queue) && Numbered(s.arrivals, s.driver, driver) &&
           Numbered(s.arrivals, s.held, held)
  }

  // ----- counting bytes ------------------------------------------------------------

  /** The byte an action brings in, to the queue, a reader or the driver. */
  function Arrives(a: Action): seq<Byte> { if a.Queue? || a.Pass? || a.Take? then [a.byte] else [] }

  /** The byte an action takes off the port. */
  function Taken(a: Action): seq<Byte> { if a.Pass? || a.Take? then [a.byte] else [] }

  /** The byte the interrupt handler was given. */
  function Offered(a: Action): seq<Byte> { if a.Queue? || a.Drop? then [a.byte] else [] }

  /** The byte lost because the queue was full. */
  function Dropped(a: Action): seq<Byte> { if a.Drop? then [a.byte] else [] }

  function All(h: seq<Action>, of: Action -> seq<Byte>): seq<Byte>
  {
    if h == [] then [] else All(h[..|h| - 1], of) + of(h[|h| - 1])
  }

  /** From history `h0` to `h`: the bytes that came in, those taken off the port and those the interrupt
      handler was given, each in order. */
  ghost predicate Tally(h0: seq<Action>, h: seq<Action>, arrived: seq<Byte>, taken: seq<Byte>, offered: seq<Byte>)
  {
    && h0 <= h && All(h, Arrives) == All(h0, Arrives) + arrived
    && All(h, Taken) == All(h0, Taken) + taken && All(h, Offered) == All(h0, Offered) + offered
  }

  lemma {:induction false} AllAppend(h: seq<Action>, a: Action, of: Action -> seq<Byte>)
    ensures All(h + [a], of) == All(h, of) + of(a)
  {
    assert (h + [a])[..|h|] == h;
  }

  lemma {:induction false} TallyNone(h: seq<Action>)
    ensures Tally(h, h, [], [], [])
  {
    hide All;
  }

  lemma {:induction false} TallyOne(h: seq<Action>, a: Action)
    ensures Tally(h, h + [a], Arrives(a), Taken(a), Offered(a))
  {
    hide All;
    AllAppend(h, a, Arrives);
    AllAppend(h, a, Taken);
    AllAppend(h, a, Offered);
  }

  lemma {:induction false} TallyThen(h0: seq<Action>, h1: seq<Action>, h: seq<Action>, arrived: seq<Byte>,
                                     taken: seq<Byte>,
                                     offered: seq<Byte>, arrived': seq<Byte>, taken': seq<Byte>, offered': seq<Byte>)
    requires Tally(h0, h1, arrived, taken, offered) && Tally(h1, h, arrived', taken', offered')
    ensures Tally(h0, h, arrived + arrived', taken + taken', offered + offered')
  {
    hide All;
    assert (All(h0, Arrives) + arrived) + arrived' == All(h0, Arrives) + (arrived + arrived');
    assert (All(h0, Taken) + taken) + taken' == All(h0, Taken) + (taken + taken');
    assert (All(h0, Offered) + offered) + offered' == All(h0, Offered) + (offered + offered');
  }

  /** Bytes that came in and bytes dropped are, together, those taken off the port and those the
      interrupt handler was given. */
  lemma {:induction false} Balance(h: seq<Action>)
    ensures multiset(All(h, Arrives)) + multiset(All(h, Dropped)) == multiset(All(h, Taken)) + multiset(All(h, Offered))
  {
    if h != [] {
      hide All, Arrives, Dropped, Taken, Offered;
      var g, a := h[..|h| - 1], h[|h| - 1];
      assert h == g + [a];
      Balance(g);
      AllAppend(g, a, Arrives);
      AllAppend(g, a, Dropped);
      AllAppend(g, a, Taken);
      AllAppend(g, a, Offered);
      OneBalances(a);
      BothBalance(All(g, Arrives), All(g, Dropped), All(g, Taken), All(g, Offered), Arrives(a), Dropped(a), Taken(a),
                  Offered(a));
    }
  }

  lemma {:induction false} BothBalance(p: seq<Byte>, q: seq<Byte>, r: seq<Byte>, s: seq<Byte>,
                                       p': seq<Byte>, q': seq<Byte>, r': seq<Byte>, s': seq<Byte>)
    requires multiset(p) + multiset(q) == multiset(r) + multiset(s)
    requires multiset(p') + multiset(q') == multiset(r') + multiset(s')
    ensures multiset(p + p') + multiset(q + q') == multiset(r + r') + multiset(s + s')
  {
    var both := (multiset(p) + multiset(q)) + (multiset(p') + multiset(q'));
    assert multiset(p + p') + multiset(q + q') == both;
    assert multiset(r + r') + multiset(s + s') == both;
  }

  lemma {:induction false} OneBalances(a: Action)
    ensures multiset(Arrives(a)) + multiset(Dropped(a)) == multiset(Taken(a)) + multiset(Offered(a))
  {
  }

  /** A byte is dropped only while the queue is full. */
  lemma {:induction false} DroppedWhenFull(h: seq<Action>, i: nat)
    requires Legal(h) && i < |h| && h[i].Drop?
    ensures Legal(h[..i]) && |After(h[..i]).queue| >= KEYBOARD_QUEUE_SIZE
  {
    LegalPrefix(h, i);
    LegalPrefix(h, i + 1);
    assert h[..i + 1][..i] == h[..i];
  }

  /** Where the interrupt handler is given nothing, what came in is what was taken off the port. */
  lemma {:induction false} NothingOffered(h0: seq<Action>, h: seq<Action>, arrived: seq<Byte>, taken: seq<Byte>)
    requires Tally(h0, h, arrived, taken, [])
    ensures arrived == taken
  {
    TakenOnly(h0, h);
    var d :| All(h, Arrives) == All(h0, Arrives) + d && All(h, Taken) == All(h0, Taken) + d;
    assert arrived == All(h, Arrives)[|All(h0, Arrives)|..] == d;
    assert taken == All(h, Taken)[|All(h0, Taken)|..] == d;
  }

  lemma {:induction false} TakenOnly(h0: seq<Action>, h: seq<Action>)
    requires h0 <= h
    ensures |All(h0, Offered)| <= |All(h, Offered)|
    ensures All(h, Offered) == All(h0, Offered) ==>
              exists d :: All(h, Arrives) == All(h0, Arrives) + d && All(h, Taken) == All(h0, Taken) + d
    decreases |h|
  {
    hide Arrives, Taken, Offered;
    if h == h0 {
      assert All(h, Arrives) == All(h0, Arrives) + [] && All(h, Taken) == All(h0, Taken) + [];
    } else {
      hide All;
      var g, a := h[..|h| - 1], h[|h| - 1];
      assert h == g + [a];
      AllAppend(g, a, Arrives);
      AllAppend(g, a, Taken);
      AllAppend(g, a, Offered);
      TakenOnly(h0, g);
      if All(h, Offered) == All(h0, Offered) {
        assert Offered(a) == [] && All(g, Offered) == All(h0, Offered);
        NotOffered(a);
        var d :| All(g, Arrives) == All(h0, Arrives) + d && All(g, Taken) == All(h0, Taken) + d;
        assert All(h, Arrives) == All(h0, Arrives) + (d + Taken(a));
        assert All(h, Taken) == All(h0, Taken) + (d + Taken(a));
      }
    }
  }

  lemma {:induction false} NotOffered(a: Action)
    requires Offered(a) == []
    ensures Arrives(a) == Taken(a)
  {
  }

  /** Only what the interrupt handler is given can make the queue longer. */
  lemma {:induction false} QueueGrowth(h0: seq<Action>, h: seq<Action>)
    requires h0 <= h && Legal(h)
    ensures Legal(h0) && |After(h).queue| <= |After(h0).queue| + |All(h, Offered)| - |All(h0, Offered)|
    decreases |h|
  {
    if h != h0 {
      QueueGrowth(h0, h[..|h| - 1]);
    }
  }

  lemma {:induction false} QueueNotLonger(h0: seq<Action>, h: seq<Action>, queue0: seq<Byte>, queue: seq<Byte>,
                                          driver0: seq<Byte>, driver: seq<Byte>, arrived: seq<Byte>, taken: seq<Byte>)
    requires Tracks(h0, queue0, driver0, []) && Tracks(h, queue, driver, []) && Tally(h0, h, arrived, taken, [])
    ensures |queue| <= |queue0|
  {
    QueueGrowth(h0, h);
  }

  /** The numbered arrivals are the bytes that came in. */
  lemma {:induction false} NumberedAreArrivals(h: seq<Action>)
    requires Legal(h)
    ensures After(h).arrivals == All(h, Arrives)
  {
    if h != [] {
      NumberedAreArrivals(h[..|h| - 1]);
    }
  }

  // ----- one action in terms of bytes ----------------------------------------------

  lemma {:induction false} TrackArrival(h: seq<Action>, queue: seq<Byte>, driver: seq<Byte>, held: seq<Byte>, a: Action)
    requires Tracks(h, queue, driver, held) && (a.Queue? || a.Drop? || a.Pass? || a.Take?) && Can(queue, held, a)
    ensures Tally(h, h + [a], Arrives(a), Taken(a), Offered(a))
    ensures Tracks(h + [a], if a.Queue? then queue + [a.byte] else queue, if a.Pass? then driver + [a.byte] else driver,
                   if a.Take? then held + [a.byte] else held)
  {
    hide After, Legal, Tally;
    OneMore(h, a);
    TallyOne(h, a);
  }

  lemma {:induction false} TrackRemoval(h: seq<Action>, queue: seq<Byte>, driver: seq<Byte>, held: seq<Byte>, a: Action)
    requires Tracks(h, queue, driver, held) && (a.Fetch? || a.Drain?) && Can(queue, held, a)
    ensures Tally(h, h + [a], [], [], [])
    ensures Tracks(h + [a], queue[1..], if a.Drain? then driver + [queue[0]] else driver,
                   if a.Fetch? then held + [queue[0]] else held)
  {
    hide After, Legal, Tally;
    OneMore(h, a);
    TallyOne(h, a);
  }

  lemma {:induction false} TrackEnd(h: seq<Action>, queue: seq<Byte>, driver: seq<Byte>, held: seq<Byte>, a: Action)
    requires Tracks(h, queue, driver, held) && (a.Hand? || a.Return?) && Can(queue, held, a)
    ensures Tally(h, h + [a], [], [], [])
    ensures Tracks(h + [a], queue, if a.Hand? then driver + [held[a.k]] else driver, [])
  {
    hide After, Legal, Tally;
    OneMore(h, a);
    TallyOne(h, a);
  }

  /** What is enabled, in terms of the bytes. */
  predicate Can(queue: seq<Byte>, held: seq<Byte>, a: Action)
  {
    match a
    case Queue(_) => |queue| < KEYBOARD_QUEUE_SIZE
    case Drop(_) => |queue| >= KEYBOARD_QUEUE_SIZE
    case Pass(_) => held == []
    case Take(_) => queue == []
    case Fetch => queue != []
    case Drain => queue != [] && held == []
    case Hand(k) => k < |held|
    case Return => true
  }

  ghost predicate NeverOvertaken(h: seq<Action>)
  {
    Legal(h) && NeverOvertakes(h)
  }

  lemma {:induction false} NotOvertaken(h: seq<Action>, queue: seq<Byte>, driver: seq<Byte>, held: seq<Byte>, a: Action)
    requires Tracks(h, queue, driver, held) && Can(queue, held, a) && (a.Pass? ==> queue == [])
    ensures NeverOvertaken(h) ==> NeverOvertaken(h + [a])
  {
    hide NeverOvertakes, After, Legal;
    assert Enabled(After(h), a);
    if NeverOvertaken(h) {
      StillNeverOvertakes(h, a);
    }
  }

  /** A mouse read that dispatches any keyboard byte while one is queued breaks the arrival order. */
  lemma {:induction false} MouseReadBreaksOrder(h: seq<Action>, queue: seq<Byte>, driver: seq<Byte>, h': seq<Action>,
                                                queue': seq<Byte>, driver': seq<Byte>)
    requires Tracks(h, queue, driver, []) && Tracks(h', queue', driver', []) && h <= h' && MouseActions(h', |h|)
    requires queue != [] && |driver| < |driver'|
    ensures Legal(h') && !InOrder(After(h')) && !NeverOvertaken(h')
  {
    hide After, Legal, InOrder, NeverOvertakes;
    assert h'[..|h|] == h;
    MouseReadOvertakes(h', |h|);
    KeyboardOrder(h');
    assert h'[..|h'|] == h';
    assert !InOrderAt(h', |h'|);
  }

  // ----- the queue's capacity ------------------------------------------------------

  /** The queue after some bytes were offered to it: as many as find room. */
  function Filled(queue: seq<Byte>, bytes: seq<Byte>): (r: seq<Byte>)
    ensures queue <= r
  {
    var room := if |queue| < KEYBOARD_QUEUE_SIZE then KEYBOARD_QUEUE_SIZE - |queue| else 0;
    queue + if |bytes| <= room then bytes else bytes[..room]
  }

  lemma {:induction false} FilledTwice(queue: seq<Byte>, a: seq<Byte>, b: seq<Byte>)
    ensures Filled(Filled(queue, a), b) == Filled(queue, a + b)
  {
  }

  lemma {:induction false} FilledOne(queue: seq<Byte>, b: Byte)
    ensures Filled(queue, [b]) == if |queue| < KEYBOARD_QUEUE_SIZE then queue + [b] else queue
    ensures Filled(queue, []) == queue
  {
  }

  /** Batches of bytes, one after the other. */
  function Flat(batches: seq<seq<Byte>>): seq<Byte>
  {
    if batches == [] then [] else Flat(batches[..|batches| - 1]) + batches[|batches| - 1]
  }

  lemma {:induction false} FlatAppend(batches: seq<seq<Byte>>, more: seq<seq<Byte>>)
    requires |more| <= 1
    ensures Flat(batches + more) == Flat(batches) + Flat(more)
  {
    if more == [] {
      assert batches + more == batches;
    } else {
      assert (batches + more)[..|batches|] == batches;
      assert more[..0] == [];
    }
  }

  lemma {:induction false} NothingGiven(queue: seq<Byte>)
    ensures Flat([]) == [] && Filled(queue, []) == queue
  {
  }

  lemma {:induction false} MoreGiven(queue: seq<Byte>, given: seq<seq<Byte>>, batch: seq<seq<Byte>>)
    requires |batch| <= 1
    ensures Filled(Filled(queue, Flat(given)), Flat(batch)) == Filled(queue, Flat(given + batch))
  {
    hide Filled, Flat;
    FlatAppend(given, batch);
    FilledTwice(queue, Flat(given), Flat(batch));
  }
}
