/** The controller command byte, changed by many drivers through a test-and-set loop built on
    requests that the controller executes one at a time. */
module CommandByte {
  import opened Bits
  import opened Memory
  import opened SecondChance

  // ----- requests ------------------------------------------------------------------

  /** Command codes of the controller; only their being different matters. */
  datatype Codes = Codes(getCommandByte: Byte, setCommandByte: Byte)
  {
    predicate Valid() { getCommandByte != setCommandByte }
  }

  datatype Kind = ReadDataPort | ReadDataPortAndCompare | WriteDataPort | WriteCommandPort

  datatype Command = Command(kind: Kind, inOrOut: Byte)

  /** The controller as its ports show it: it answers a get by putting the command byte on the
      output, and stores the data byte that follows a set. */
  datatype Chip = Chip(commandByte: Byte, output: seq<Byte>, storing: bool)

  function WriteCommand(k: Codes, c: Chip, b: Byte): Chip
  {
    if b == k.getCommandByte then c.(output := c.output + [c.commandByte])
    else if b == k.setCommandByte then c.(storing := true)
    else c
  }

  function WriteData(c: Chip, b: Byte): Chip
  {
    if c.storing then c.(commandByte := b, storing := false) else c
  }

  /** Bytes a plain read consumes: the first one, if there is any. */
  function PlainRead(output: seq<Byte>): nat { if output == [] then 0 else 1 }

  /** Bytes a comparing read consumes: a second one if the first is not the expected one. */
  function ComparingRead(output: seq<Byte>, expected: Byte): nat
  {
    if |output| >= 2 && output[0] != expected then 2 else PlainRead(output)
  }

  /** One command: the chip afterwards, the command with its input filled in, and success. */
  function Execute(k: Codes, c: Chip, cmd: Command): (Chip, Command, bool)
  {
    match cmd.kind
    case ReadDataPort =>
      var n := PlainRead(c.output);
      (c.(output := c.output[n..]), cmd.(inOrOut := Answer(c.output[..n], 0)), true)
    case ReadDataPortAndCompare =>
      var n := ComparingRead(c.output, cmd.inOrOut);
      (c.(output := c.output[n..]), cmd, Answer(c.output[..n], cmd.inOrOut) == cmd.inOrOut)
    case WriteDataPort => (WriteData(c, cmd.inOrOut), cmd, true)
    case WriteCommandPort => (WriteCommand(k, c, cmd.inOrOut), cmd, true)
  }

  /** What single commands do: a plain read takes the first byte, or fills in 0 when there is none, and a
      comparing read succeeds exactly when the first byte, or the one after it, is the one compared with. */
  lemma {:induction false} ReadsMean(k: Codes, c: Chip, b: Byte)
    ensures var (c', cmd, ok) := Execute(k, c, Command(ReadDataPort, b));
            && ok && cmd == Command(ReadDataPort, if c.output == [] then 0 else c.output[0])
            && c' == c.(output := if c.output == [] then [] else c.output[1..])
    ensures var (c', cmd, ok) := Execute(k, c, Command(ReadDataPortAndCompare, b));
            && cmd == Command(ReadDataPortAndCompare, b)
            && (c.output == [] ==> (ok <==> b == 0))
            && (c.output != [] ==> (ok <==> c.output[0] == b || (|c.output| > 1 && c.output[1] == b)))
            && c' == c.(output := if |c.output| > 1 && c.output[0] != b then c.output[2..]
                                  else if c.output == [] then [] else c.output[1..])
  {
    var out := c.output;
    assert |out| >= 1 ==> out[..1] == [out[0]];
    assert |out| >= 2 ==> out[..2] == [out[0], out[1]];
  }

  datatype Processed = Processed(chip: Chip, commands: seq<Command>, count: nat)

  /** A request from command `i` on: commands run in order and the first failure stops it, its
      index becoming the count. */
  function Process(k: Codes, c: Chip, commands: seq<Command>, i: nat): Processed
    requires i <= |commands|
    decreases |commands| - i
  {
    if i == |commands| then Processed(c, commands, i)
    else
      var (c', cmd, ok) := Execute(k, c, commands[i]);
      if ok then Process(k, c', commands[i := cmd], i + 1) else Processed(c', commands, i)
  }

  class Request {
    var commands: seq<Command>
    var commandsCount: nat
  }

  class Controller {
    const k: Codes
    var chip: Chip

    /** Run a request to completion; a failing command's index becomes the request's count. */
    method ProcessRequest(request: Request)
      requires request.commandsCount == |request.commands|
      modifies this, request
      ensures Processed(chip, request.commands, request.commandsCount) == old(Process(k, chip, request.commands, 0))
    {
      var index, failed := 0, false;
      while index < request.commandsCount
        invariant 0 <= index <= |request.commands| && request.commandsCount == |request.commands| && !failed
        invariant Process(k, chip, request.commands, index) == old(Process(k, chip, request.commands, 0))
        decreases |request.commands| - index
      {
        var (c, cmd, ok) := Execute(k, chip, request.commands[index]);
        chip := c;
        request.commands := request.commands[index := cmd];
        if !ok {
          failed := true;
          break;
        }
        index := index + 1;
      }
      if failed {
        request.commandsCount := index;
      }
    }

    /** Requests of other callers run here; together they give the byte new values, one after the other. */
    method OthersRun(changes: seq<seq<Byte>>, used: nat) returns (used': nat)
      requires used <= |changes| && chip.output == [] && !chip.storing
      modifies this`chip
      ensures used <= used' <= |changes| && used' <= used + 1 && (used' == used ==> used == |changes|)
      ensures chip == Chip(Latest(old(chip.commandByte), Since(changes, used, used')), [], false)
    {
      used' := used;
      if used < |changes| {
        chip := chip.(commandByte := Latest(chip.commandByte, changes[used]));
        used' := used + 1;
      }
    }

    /** The loop of one caller. `changes` are the values other callers give the command byte between its
        requests, `used` how often they had a turn before its successful test. The update is
        applied to the value the byte has right then. */
    method SetCommandByte(setBits: Byte, clearBits: Byte, changes: seq<seq<Byte>>) returns (used: nat)
      requires k.Valid() && chip.output == [] && !chip.storing
      modifies this
      ensures used <= |changes|
      ensures chip == Chip(Update(Latest(old(chip.commandByte), All(changes[..used])), setBits, clearBits), [], false)
      ensures BitsUpdated(Latest(old(chip.commandByte), All(changes[..used])), setBits, clearBits, chip.commandByte)
    {
      hide Update, Process, BitsUpdated;
      var request := new Request;
      used := 0;
      ghost var b := chip.commandByte;
      while true
        invariant fresh(request) && used <= |changes| && chip == Chip(Latest(b, All(changes[..used])), [], false)
        decreases |changes| - used
      {
        ghost var from := used;
        used := OthersRun(changes, used);
        MoreChanges(b, changes, from, used);
        request.commands := ReadRequest(k);
        request.commandsCount := 2;
        ReadRequestReads(k, chip);
        ProcessRequest(request);
        var commandByte := request.commands[1].inOrOut;
        var commandByteNew := Update(commandByte, setBits, clearBits);
        from := used;
        used := OthersRun(changes, used);
        MoreChanges(b, changes, from, used);
        request.commands := TestAndSetRequest(k, commandByte, commandByteNew);
        request.commandsCount := 4;
        TestAndSetIsAtomic(k, chip, commandByte, commandByteNew);
        ProcessRequest(request);
        if request.commandsCount == 4 {
          UpdateBits(commandByte, setBits, clearBits);
          return;
        }
      }
    }
  }

  /** The value of the byte after the given changes. */
  function Latest(b: Byte, changes: seq<Byte>): Byte { if changes == [] then b else changes[|changes| - 1] }

  function All(changes: seq<seq<Byte>>): seq<Byte>
  {
    if changes == [] then [] else All(changes[..|changes| - 1]) + changes[|changes| - 1]
  }

  function Since(changes: seq<seq<Byte>>, from: nat, to: nat): seq<Byte>
    requires from <= to <= |changes| && to <= from + 1
  {
    if from == to then [] else changes[from]
  }

  lemma {:induction false} MoreChanges(b: Byte, changes: seq<seq<Byte>>, from: nat, to: nat)
    requires from <= to <= |changes| && to <= from + 1
    ensures Latest(Latest(b, All(changes[..from])), Since(changes, from, to)) == Latest(b, All(changes[..to]))
  {
    if from < to {
      assert changes[..to][..from] == changes[..from];
    }
  }

  function ReadRequest(k: Codes): seq<Command>
  {
    [Command(WriteCommandPort, k.getCommandByte), Command(ReadDataPort, 0)]
  }

  function TestAndSetRequest(k: Codes, old_: Byte, new_: Byte): seq<Command>
  {
    [Command(WriteCommandPort, k.getCommandByte), Command(ReadDataPortAndCompare, old_),
     Command(WriteCommandPort, k.setCommandByte), Command(WriteDataPort, new_)]
  }

  /** The bits `set` set and the bits `clear` cleared. */
  function Update(b: Byte, setBits: Byte, clear: Byte): Byte
  {
    assert Pow2(8) == 256;
    AndBound(Or(b, setBits), Not(clear, 8));
    And(Or(b, setBits), Not(clear, 8))
  }

  /** Each bit of the new byte: cleared if it is to be cleared, else as it was or set. */
  ghost predicate BitsUpdated(b: Byte, setBits: Byte, clear: Byte, b': Byte)
  {
    forall n :: 0 <= n < 8 ==> (Bit(b', n) <==> !Bit(clear, n) && (Bit(b, n) || Bit(setBits, n)))
  }

  lemma {:induction false} UpdateBits(b: Byte, setBits: Byte, clear: Byte)
    ensures BitsUpdated(b, setBits, clear, Update(b, setBits, clear))
  {
    assert Pow2(8) == 256;
    hide And, Or, Bit, Pow2;
    forall n | 0 <= n < 8
      ensures Bit(Update(b, setBits, clear), n) <==> !Bit(clear, n) && (Bit(b, n) || Bit(setBits, n))
    {
      BitAnd(Or(b, setBits), Not(clear, 8), n);
      BitOr(b, setBits, n);
      BitNot(clear, 8, n);
    }
  }

  /** What the keyboard stream holds once a get is answered: stray bytes come first. */
  function Answered(c: Chip): (out: seq<Byte>)
    ensures out != []
  {
    c.output + [c.commandByte]
  }

  /** The read request takes the first byte of the stream, whatever it is. */
  lemma {:induction false} ReadRequestTakesFirst(k: Codes, c: Chip)
    requires k.Valid() && !c.storing
    ensures Process(k, c, ReadRequest(k), 0) ==
            Processed(c.(output := Answered(c)[1..]), ReadRequest(k)[1 := Command(ReadDataPort, Answered(c)[0])], 2)
  {
    var r, out := ReadRequest(k), Answered(c);
    var c1, c2 := c.(output := out), c.(output := out[1..]);
    assert Execute(k, c, r[0]) == (c1, r[0], true);
    assert out[..1] == [out[0]];
    var r2 := r[1 := Command(ReadDataPort, out[0])];
    assert Execute(k, c1, r[1]) == (c2, r2[1], true);
    assert r[0 := r[0]] == r;
    assert Process(k, c2, r2, 2) == Processed(c2, r2, 2);
    assert Process(k, c1, r, 1) == Processed(c2, r2, 2);
  }

  lemma {:induction false} ReadRequestReads(k: Codes, c: Chip)
    requires k.Valid() && c.output == [] && !c.storing
    ensures Process(k, c, ReadRequest(k), 0) == Processed(c, ReadRequest(k)[1 := Command(ReadDataPort, c.commandByte)],
                                                          2)
  {
    hide Process;
    ReadRequestTakesFirst(k, c);
    assert Answered(c) == [c.commandByte] && Answered(c)[1..] == [];
  }

  /** The comparing read is content: with the first byte, or with the second after a stray one. */
  predicate Content(out: seq<Byte>, expected: Byte)
  {
    (|out| >= 1 && out[0] == expected) || (|out| >= 2 && out[1] == expected)
  }

  /** The test-and-set request with any stray bytes before the answer: it stores exactly when one of the
      first two bytes of the stream is the compared value. */
  lemma {:induction false} TestAndSetStores(k: Codes, c: Chip, old_: Byte, new_: Byte)
    requires k.Valid() && !c.storing
    ensures var out := Answered(c);
            var left := out[ComparingRead(out, old_)..];
            Process(k, c, TestAndSetRequest(k, old_, new_), 0) ==
            (if Content(out, old_) then Processed(Chip(new_, left, false), TestAndSetRequest(k, old_, new_), 4)
             else Processed(Chip(c.commandByte, left, false), TestAndSetRequest(k, old_, new_), 1))
  {
    var r, out := TestAndSetRequest(k, old_, new_), Answered(c);
    var n := ComparingRead(out, old_);
    var c1, c2 := c.(output := out), c.(output := out[n..]);
    assert Execute(k, c, r[0]) == (c1, r[0], true);
    assert n == 1 ==> out[..n] == [out[0]];
    assert n == 2 ==> out[..n] == [out[0], out[1]];
    assert Execute(k, c1, r[1]) == (c2, r[1], Content(out, old_));
    assert forall i :: 0 <= i < |r| ==> r[i := r[i]] == r;
    var c3 := c2.(storing := true);
    var c4 := c2.(commandByte := new_);
    assert Execute(k, c2, r[2]) == (c3, r[2], true);
    assert Execute(k, c3, r[3]) == (c4, r[3], true);
    hide Execute, ComparingRead, Content, Answered;
    StoresFrom(k, c2, c3, c4, r);
    assert Process(k, c1, r, 1) == if Content(out, old_) then Processed(c4, r, 4) else Processed(c2, r, 1);
  }

  lemma {:induction false} StoresFrom(k: Codes, c2: Chip, c3: Chip, c4: Chip, r: seq<Command>)
    requires |r| == 4 && Execute(k, c2, r[2]) == (c3, r[2], true) && Execute(k, c3, r[3]) == (c4, r[3], true)
    ensures Process(k, c2, r, 2) == Processed(c4, r, 4)
  {
    hide Execute;
    assert forall i :: 0 <= i < |r| ==> r[i := r[i]] == r;
    assert Process(k, c4, r, 4) == Processed(c4, r, 4);
    assert Process(k, c3, r, 3) == Processed(c4, r, 4);
  }

  /** The second request compares and stores in one go: it completes all four commands exactly
      when the byte still has the compared value, and changes nothing otherwise. */
  lemma {:induction false} TestAndSetIsAtomic(k: Codes, c: Chip, old_: Byte, new_: Byte)
    requires k.Valid() && c.output == [] && !c.storing
    ensures Process(k, c, TestAndSetRequest(k, old_, new_), 0) ==
            Processed(if c.commandByte == old_ then c.(commandByte := new_) else c, TestAndSetRequest(k, old_, new_),
                      if c.commandByte == old_ then 4 else 1)
  {
    hide Process;
    TestAndSetStores(k, c, old_, new_);
    assert Answered(c) == [c.commandByte] && Answered(c)[1..] == [];
  }

  /** The request stores although the byte was changed since it was read, so that the change is lost,
      exactly when one of the first two stray bytes happens to be the compared value. */
  lemma {:induction false} ChangeLostIff(k: Codes, c: Chip, old_: Byte, new_: Byte)
    requires k.Valid() && !c.storing && c.commandByte != old_
    ensures Process(k, c, TestAndSetRequest(k, old_, new_), 0).count == 4 <==> Content(c.output, old_)
    ensures Content(c.output, old_) ==> Process(k, c, TestAndSetRequest(k, old_, new_), 0).chip.commandByte == new_
  {
    hide Process, ComparingRead;
    TestAndSetStores(k, c, old_, new_);
  }

  /** The second chance: one stray byte, not the compared value, does not disturb the request. */
  lemma {:induction false} OneStrayByte(k: Codes, c: Chip, old_: Byte, new_: Byte)
    requires k.Valid() && !c.storing && |c.output| == 1 && c.output[0] != old_
    ensures Process(k, c, TestAndSetRequest(k, old_, new_), 0) ==
            Processed(Chip(if c.commandByte == old_ then new_ else c.commandByte, [], false),
                      TestAndSetRequest(k, old_, new_),
                      if c.commandByte == old_ then 4 else 1)
  {
    hide Process;
    TestAndSetStores(k, c, old_, new_);
    assert Answered(c) == [c.output[0], c.commandByte] && Answered(c)[2..] == [];
  }

  // ----- any number of callers -----------------------------------------------------

  type Caller = nat

  datatype Change = Change(setBits: Byte, clearBits: Byte)

  datatype Phase = Reading | Testing(seen: Byte) | Finished

  /** `log`: callers in the order of their successful test-and-sets. */
  datatype System = System(chip: Chip, callers: map<Caller, Phase>, log: seq<Caller>)

  /** Requests execute one at a time; `Other` is any request that leaves the command byte alone, `Stray` a
      byte of the keyboard's own that gets into the stream. */
  datatype Action = Read(i: Caller) | TestAndSet(i: Caller) | Other | Stray(byte: Byte)

  /** A step of caller `i` is the execution of its current request. */
  ghost function Step(k: Codes, want: map<Caller, Change>, s: System, a: Action): System
  {
    match a
    case Read(i) =>
      if i in s.callers && s.callers[i].Reading? then
        var p := Process(k, s.chip, ReadRequest(k), 0);
        if |p.commands| == 2 then s.(chip := p.chip, callers := s.callers[i := Testing(p.commands[1].inOrOut)]) else s
      else s
    case TestAndSet(i) =>
      if i in s.callers && s.callers[i].Testing? && i in want then
        var seen := s.callers[i].seen;
        var p := Process(k, s.chip, TestAndSetRequest(k, seen, Update(seen, want[i].setBits, want[i].clearBits)), 0);
        if p.count == 4 then System(p.chip, s.callers[i := Finished], s.log + [i])
        else System(p.chip, s.callers[i := Reading], s.log)
      else s
    case Other => s
    case Stray(x) => s.(chip := s.chip.(output := s.chip.output + [x]))
  }

  /** The byte after applying the updates of the callers in `log`, in that order. */
  function Composed(b: Byte, want: map<Caller, Change>, log: seq<Caller>): Byte
    requires forall i :: i in log ==> i in want
  {
    if log == [] then b
    else
      var last := log[|log| - 1];
      Update(Composed(b, want, log[..|log| - 1]), want[last].setBits, want[last].clearBits)
  }

  /** Each finished caller is logged exactly once, nobody else is. */
  ghost predicate Logged(want: map<Caller, Change>, s: System)
  {
    && !s.chip.storing && s.callers.Keys <= want.Keys
    && (forall i :: i in s.log ==> i in want)
    && (forall i :: i in s.log <==> i in s.callers && s.callers[i].Finished?)
    && (forall m, n :: 0 <= m < n < |s.log| ==> s.log[m] != s.log[n])
  }

  /** The byte is the composition of the logged updates. */
  ghost predicate ByteComposed(b: Byte, want: map<Caller, Change>, s: System)
  {
    (forall i :: i in s.log ==> i in want) && s.chip.commandByte == Composed(b, want, s.log)
  }

  /** A test-and-set that stores over a byte on which its update would have given something else. */
  ghost predicate StaleStore(want: map<Caller, Change>, s: System, a: Action)
  {
    && a.TestAndSet? && a.i in s.callers && s.callers[a.i].Testing? && a.i in want
    && var seen, ch := s.callers[a.i].seen, want[a.i];
       Content(Answered(s.chip), seen)
       && Update(seen, ch.setBits, ch.clearBits) != Update(s.chip.commandByte, ch.setBits, ch.clearBits)
  }

  lemma {:induction false} StepLogged(k: Codes, want: map<Caller, Change>, s: System, a: Action, b: Byte)
    requires k.Valid() && Logged(want, s) && ByteComposed(b, want, s)
    ensures Logged(want, Step(k, want, s, a))
    ensures ByteComposed(b, want, Step(k, want, s, a)) <==> !StaleStore(want, s, a)
  {
    hide Process, Update, Content, ComparingRead, Answered;
    match a
    case Read(i) => ReadRequestTakesFirst(k, s.chip);
    case TestAndSet(i) =>
      if i in s.callers && s.callers[i].Testing? && i in want {
        var seen := s.callers[i].seen;
        TestAndSetStores(k, s.chip, seen, Update(seen, want[i].setBits, want[i].clearBits));
        assert (s.log + [i])[..|s.log|] == s.log;
      }
    case Other =>
    case Stray(_) =>
  }

  lemma {:induction false} StepStaysLogged(k: Codes, want: map<Caller, Change>, s: System, a: Action)
    requires k.Valid() && Logged(want, s)
    ensures Logged(want, Step(k, want, s, a))
  {
    hide Process, Update, Content, ComparingRead, Answered;
    match a
    case Read(i) => ReadRequestTakesFirst(k, s.chip);
    case TestAndSet(i) =>
      if i in s.callers && s.callers[i].Testing? && i in want {
        var seen := s.callers[i].seen;
        TestAndSetStores(k, s.chip, seen, Update(seen, want[i].setBits, want[i].clearBits));
      }
    case Other =>
    case Stray(_) =>
  }

  ghost function Run(k: Codes, want: map<Caller, Change>, s: System, run: seq<Action>): System
  {
    if run == [] then s else Step(k, want, Run(k, want, s, run[..|run| - 1]), run[|run| - 1])
  }

  function Initial(b: Byte, want: map<Caller, Change>): System
  {
    System(Chip(b, [], false), map i | i in want :: Reading, [])
  }

  ghost predicate ComposedAt(k: Codes, want: map<Caller, Change>, b: Byte, run: seq<Action>, n: nat)
  {
    n <= |run| ==> ByteComposed(b, want, Run(k, want, Initial(b, want), run[..n]))
  }

  ghost predicate StaleAt(k: Codes, want: map<Caller, Change>, b: Byte, run: seq<Action>, n: nat)
  {
    n < |run| && StaleStore(want, Run(k, want, Initial(b, want), run[..n]), run[n])
  }

  lemma {:induction false} LoggedEver(k: Codes, want: map<Caller, Change>, b: Byte, run: seq<Action>)
    requires k.Valid()
    ensures Logged(want, Run(k, want, Initial(b, want), run))
  {
    hide Step;
    if run != [] {
      LoggedEver(k, want, b, run[..|run| - 1]);
      StepStaysLogged(k, want, Run(k, want, Initial(b, want), run[..|run| - 1]), run[|run| - 1]);
    }
  }

  /** Any number of callers, any interleaving of their requests and of stray bytes: the byte is at every
      point the composition of the updates of the callers that finished, exactly when no
      test-and-set stores over a byte on which its update would have given something else. */
  lemma {:induction false} ComposedIff(k: Codes, want: map<Caller, Change>, b: Byte, run: seq<Action>)
    requires k.Valid()
    ensures (forall n: nat :: ComposedAt(k, want, b, run, n)) <==> (forall n: nat :: !StaleAt(k, want, b, run, n))
  {
    hide Step, ByteComposed, StaleStore, Logged;
    if forall n: nat :: ComposedAt(k, want, b, run, n) {
      forall n: nat ensures !StaleAt(k, want, b, run, n) {
        if n < |run| {
          assert ComposedAt(k, want, b, run, n) && ComposedAt(k, want, b, run, n + 1);
          StepAt(k, want, b, run, n);
        }
      }
    }
    if forall n: nat :: !StaleAt(k, want, b, run, n) {
      forall n: nat ensures ComposedAt(k, want, b, run, n) {
        if n <= |run| {
          ComposedUpTo(k, want, b, run, n);
        }
      }
    }
  }

  lemma {:induction false} StepAt(k: Codes, want: map<Caller, Change>, b: Byte, run: seq<Action>, n: nat)
    requires k.Valid() && n < |run| && ComposedAt(k, want, b, run, n)
    ensures ComposedAt(k, want, b, run, n + 1) <==> !StaleAt(k, want, b, run, n)
  {
    hide Step, ByteComposed, StaleStore, Logged;
    var s := Run(k, want, Initial(b, want), run[..n]);
    LoggedEver(k, want, b, run[..n]);
    assert run[..n + 1][..n] == run[..n];
    StepLogged(k, want, s, run[n], b);
  }

  lemma {:induction false} ComposedUpTo(k: Codes, want: map<Caller, Change>, b: Byte, run: seq<Action>, n: nat)
    requires k.Valid() && n <= |run| && forall i: nat :: !StaleAt(k, want, b, run, i)
    ensures ComposedAt(k, want, b, run, n)
  {
    if n == 0 {
      assert run[..0] == [];
    } else {
      hide Step, ByteComposed, StaleStore;
      ComposedUpTo(k, want, b, run, n - 1);
      StepAt(k, want, b, run, n - 1);
    }
  }

  /** A store is stale only over stray bytes, one of the first two being the compared value. */
  lemma {:induction false} StaleNeedsStray(want: map<Caller, Change>, s: System, a: Action)
    requires StaleStore(want, s, a)
    ensures Content(s.chip.output, s.callers[a.i].seen)
  {
    hide Update;
    var out := Answered(s.chip);
    assert |out| == |s.chip.output| + 1 && out[|out| - 1] == s.chip.commandByte;
  }

  /** Two stray bytes and nobody else: the caller's update is applied to a byte that never was. */
  lemma {:induction false} StrayBytesWin(k: Codes, i: Caller, ch: Change, b: Byte, x: Byte)
    requires k.Valid()
    ensures var s := Run(k, map[i := ch], Initial(b, map[i := ch]), [Stray(x), Stray(x), Read(i), TestAndSet(i)]);
            s.log == [i] && s.chip.commandByte == Update(x, ch.setBits, ch.clearBits)
  {
    hide Process, Update;
    var want, run := map[i := ch], [Stray(x), Stray(x), Read(i), TestAndSet(i)];
    var s0 := Initial(b, want);
    assert run[..3] == [Stray(x), Stray(x), Read(i)] && run[..3][..2] == [Stray(x), Stray(x)];
    assert run[..3][..2][..1] == [Stray(x)] && run[..3][..2][..1][..0] == [];
    var s2 := s0.(chip := Chip(b, [x, x], false));
    assert Run(k, want, s0, [Stray(x)]).chip.output == [x];
    assert Run(k, want, s0, run[..3][..2]) == s2;
    ReadRequestTakesFirst(k, s2.chip);
    var s3 := System(Chip(b, Answered(s2.chip)[1..], false), s2.callers[i := Testing(x)], []);
    assert Run(k, want, s0, run[..3]) == s3;
    TestAndSetStores(k, s3.chip, x, Update(x, ch.setBits, ch.clearBits));
    assert Answered(s3.chip)[0] == x;
  }

  /** No stray bytes in a run. */
  predicate Clean(run: seq<Action>) { forall n :: 0 <= n < |run| ==> !run[n].Stray? }

  lemma {:induction false} CleanStream(k: Codes, want: map<Caller, Change>, b: Byte, run: seq<Action>)
    requires k.Valid() && Clean(run)
    ensures Run(k, want, Initial(b, want), run).chip.output == []
  {
    hide Process, Update;
    if run != [] {
      var s, a := Run(k, want, Initial(b, want), run[..|run| - 1]), run[|run| - 1];
      CleanStream(k, want, b, run[..|run| - 1]);
      LoggedEver(k, want, b, run[..|run| - 1]);
      assert !run[|run| - 1].Stray?;
      if a.Read? {
        ReadRequestReads(k, s.chip);
      } else if a.TestAndSet? && a.i in s.callers && s.callers[a.i].Testing? && a.i in want {
        var seen := s.callers[a.i].seen;
        TestAndSetIsAtomic(k, s.chip, seen, Update(seen, want[a.i].setBits, want[a.i].clearBits));
      }
    }
  }

  /** Any number of callers, any interleaving of their requests on a clean stream: no update is lost or
      doubled. */
  lemma {:induction false} NoUpdateLostEver(k: Codes, want: map<Caller, Change>, b: Byte, run: seq<Action>)
    requires k.Valid() && Clean(run)
    ensures var s := Run(k, want, Initial(b, want), run); Logged(want, s) && ByteComposed(b, want, s)
  {
    hide Step, ByteComposed, Logged, Update;
    LoggedEver(k, want, b, run);
    forall n: nat ensures !StaleAt(k, want, b, run, n) {
      if n < |run| {
        CleanStream(k, want, b, run[..n]);
        NotStale(want, Run(k, want, Initial(b, want), run[..n]), run[n]);
      }
    }
    ComposedIff(k, want, b, run);
    assert ComposedAt(k, want, b, run, |run|);
    assert run[..|run|] == run;
  }

  lemma {:induction false} NotStale(want: map<Caller, Change>, s: System, a: Action)
    requires s.chip.output == []
    ensures !StaleStore(want, s, a)
  {
    hide Update;
    assert Answered(s.chip) == [s.chip.commandByte];
  }

  /** On a clean stream a caller reads the byte as it is; its test-and-set then finishes it, each bit of the
      byte updated, exactly when the byte is still the one it read, and otherwise changes nothing
      and sends it back to reading. */
  lemma {:induction false} CallerSteps(k: Codes, want: map<Caller, Change>, s: System, i: Caller)
    requires k.Valid() && s.chip.output == [] && !s.chip.storing && i in s.callers && i in want
    ensures s.callers[i].Reading? ==>
              Step(k, want, s, Read(i)) == s.(callers := s.callers[i := Testing(s.chip.commandByte)])
    ensures s.callers[i].Testing? ==>
              var t := Step(k, want, s, TestAndSet(i));
              && (s.callers[i].seen != s.chip.commandByte ==> t == s.(callers := s.callers[i := Reading]))
              && (s.callers[i].seen == s.chip.commandByte ==>
                    && t.callers == s.callers[i := Finished] && t.log == s.log + [i] && t.chip.output == []
                    && BitsUpdated(s.chip.commandByte, want[i].setBits, want[i].clearBits, t.chip.commandByte))
  {
    hide Process, Update, BitsUpdated;
    ReadRequestReads(k, s.chip);
    if s.callers[i].Testing? {
      var seen, ch := s.callers[i].seen, want[i];
      TestAndSetIsAtomic(k, s.chip, seen, Update(seen, ch.setBits, ch.clearBits));
      UpdateBits(seen, ch.setBits, ch.clearBits);
    }
  }

  // ----- single bits of the byte ---------------------------------------------------

  /** The change sets or clears bit `n`. */
  predicate Touches(ch: Change, n: nat) { Bit(ch.setBits, n) || Bit(ch.clearBits, n) }

  /** Bit `n` of a byte is decided by the last caller of `log` that sets or clears it, clearing being
      stronger; else it is as in `b`. */
  ghost predicate DecidedByLast(b: Byte, want: map<Caller, Change>, log: seq<Caller>, n: nat, bit: bool)
    requires forall i :: i in log ==> i in want
  {
    && (forall m :: LastTouch(want, log, n, m) ==> (bit <==> !Bit(want[log[m]].clearBits, n)))
    && ((forall m :: 0 <= m < |log| ==> !Touches(want[log[m]], n)) ==> (bit <==> Bit(b, n)))
  }

  ghost predicate LastTouch(want: map<Caller, Change>, log: seq<Caller>, n: nat, m: int)
    requires forall i :: i in log ==> i in want
  {
    0 <= m < |log| && Touches(want[log[m]], n) && forall l :: m < l < |log| ==> !Touches(want[log[l]], n)
  }

  /** One caller more: it decides the bit, or leaves the decision as it was. */
  lemma {:induction false} DecidedByOneMore(b: Byte, want: map<Caller, Change>, front: seq<Caller>, i: Caller, n: nat,
                                            before: bool, after: bool)
    requires (forall c :: c in front ==> c in want) && i in want && DecidedByLast(b, want, front, n, before)
    requires after <==> !Bit(want[i].clearBits, n) && (before || Bit(want[i].setBits, n))
    ensures forall c :: c in front + [i] ==> c in want
    ensures DecidedByLast(b, want, front + [i], n, after)
  {
    hide Bit;
    var log := front + [i];
    assert log[|front|] == i && forall m :: 0 <= m < |front| ==> log[m] == front[m];
    if Touches(want[i], n) {
      forall m | LastTouch(want, log, n, m) ensures m == |front| {
      }
    } else {
      forall m | LastTouch(want, log, n, m) ensures LastTouch(want, front, n, m) {
      }
    }
  }

  lemma {:induction false} ComposedBit(b: Byte, want: map<Caller, Change>, log: seq<Caller>, n: nat)
    requires (forall i :: i in log ==> i in want) && n < 8
    ensures DecidedByLast(b, want, log, n, Bit(Composed(b, want, log), n))
  {
    hide Bit, Update;
    if log != [] {
      var front, i := log[..|log| - 1], log[|log| - 1];
      var before := Composed(b, want, front);
      ComposedBit(b, want, front, n);
      UpdateBits(before, want[i].setBits, want[i].clearBits);
      hide DecidedByLast;
      DecidedByOneMore(b, want, front, i, n, Bit(before, n), Bit(Composed(b, want, log), n));
      assert log == front + [i];
    }
  }

  /** Over every clean run, each bit of the command byte is decided by the last finished caller that
      sets or clears it. */
  lemma {:induction false} BitDecidedEver(k: Codes, want: map<Caller, Change>, b: Byte, run: seq<Action>, n: nat)
    requires k.Valid() && Clean(run) && n < 8
    ensures var s := Run(k, want, Initial(b, want), run);
            && (forall i :: i in s.log ==> i in want)
            && DecidedByLast(b, want, s.log, n, Bit(s.chip.commandByte, n))
  {
    hide Run, DecidedByLast, Composed, Bit;
    NoUpdateLostEver(k, want, b, run);
    ComposedBit(b, want, Run(k, want, Initial(b, want), run).log, n);
  }
}
