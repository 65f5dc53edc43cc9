/** Compressed rebase streams: what an opcode stream names, and what applying it does to memory. */
module Rebase {
  import opened Bits
  import opened Memory
  import opened Layout
  import U = Uleb
  import opened Wrappers

  // ----- streams -------------------------------------------------------------------

  /** A pointer slot: an offset in a segment. */
  datatype Slot = Slot(seg: nat, off: nat)

  datatype Op =
    | SetSegment(seg: nat, off: nat)
    | Advance(n: nat)
    | Repeat(n: nat)              // n slots, one after the other
    | Once(skip: nat)             // one slot, then skip
    | RepeatSkip(n: nat, skip: nat)
    | Nothing

  datatype Head = Head(op: Op, next: nat)

  /** The opcode at `p` with its operands, or None where the operands are malformed. */
  function ParseHead(data: seq<Byte>, p: nat): (r: Option<Head>)
    requires p < |data|
    ensures r.Some? ==> p < r.value.next <= |data|
  {
    var imm := data[p] % 16;
    match data[p] / 16
    case 2 => Operand1(data, p, (v: nat) => SetSegment(imm, v))
    case 3 => Operand1(data, p, (v: nat) => Advance(v))
    case 4 => Some(Head(Advance(imm * 8), p + 1))
    case 5 => Some(Head(Repeat(imm), p + 1))
    case 6 => Operand1(data, p, (v: nat) => Repeat(v))
    case 7 => Operand1(data, p, (v: nat) => Once(v))
    case 8 =>
      (match U.Operand64(data, p + 1)
       case None => None
       case Some(n) =>
         match U.Operand64(data, n.next)
         case None => None
         case Some(skip) => Some(Head(RepeatSkip(n.value, skip.value), skip.next)))
    case _ => Some(Head(Nothing, p + 1))
  }

  function Operand1(data: seq<Byte>, p: nat, make: nat -> Op): (r: Option<Head>)
    requires p < |data|
    ensures r.Some? ==> p < r.value.next <= |data|
  {
    match U.Operand64(data, p + 1)
    case None => None
    case Some(v) => Some(Head(make(v.value), v.next))
  }

  /** The opcodes from `p` up to a stop opcode or `end`. */
  function Parse(data: seq<Byte>, p: nat, end: nat): Option<seq<Op>>
    requires end <= |data|
    decreases end - p
  {
    if p >= end || data[p] / 16 == 0 then Some([])
    else
      match ParseHead(data, p)
      case None => None
      case Some(h) =>
        match Parse(data, h.next, end)
        case None => None
        case Some(ops) => Some([h.op] + ops)
  }

  // ----- meaning -------------------------------------------------------------------

  /** `n` slots from `cur` on, `skip` bytes apart. */
  function Run(n: nat, skip: nat, cur: Slot): seq<Slot>
  {
    if n == 0 then [] else [cur] + Run(n - 1, skip, Move(cur, skip + 8))
  }

  function AfterRun(n: nat, skip: nat, cur: Slot): Slot
  {
    if n == 0 then cur else AfterRun(n - 1, skip, Move(cur, skip + 8))
  }

  /** Offsets are 64-bit words. */
  function Move(cur: Slot, n: nat): Slot { cur.(off := (cur.off + n) % WORD) }

  function OpSlots(op: Op, cur: Slot): seq<Slot>
  {
    match op
    case Repeat(n) => Run(n, 0, cur)
    case Once(_) => [cur]
    case RepeatSkip(n, skip) => Run(n, skip, cur)
    case _ => []
  }

  function OpAfter(op: Op, cur: Slot): Slot
  {
    match op
    case SetSegment(seg, off) => Slot(seg, off)
    case Advance(n) => Move(cur, n)
    case Repeat(n) => AfterRun(n, 0, cur)
    case Once(skip) => Move(cur, skip + 8)
    case RepeatSkip(n, skip) => AfterRun(n, skip, cur)
    case Nothing => cur
  }

  /** The slots a stream names, in order. */
  function Expand(ops: seq<Op>, cur: Slot): seq<Slot>
    decreases |ops|
  {
    if ops == [] then [] else OpSlots(ops[0], cur) + Expand(ops[1..], OpAfter(ops[0], cur))
  }

  function After(ops: seq<Op>, cur: Slot): Slot
    decreases |ops|
  {
    if ops == [] then cur else After(ops[1..], OpAfter(ops[0], cur))
  }

  lemma {:induction false} ExpandAppend(a: seq<Op>, b: seq<Op>, cur: Slot)
    ensures Expand(a + b, cur) == Expand(a, cur) + Expand(b, After(a, cur))
    ensures After(a + b, cur) == After(b, After(a, cur))
    decreases |a|
  {
    hide OpSlots, OpAfter;
    if a == [] {
      assert a + b == b;
    } else {
      assert (a + b)[1..] == a[1..] + b;
      ExpandAppend(a[1..], b, OpAfter(a[0], cur));
    }
  }

  // ----- run-length opcodes are repetitions ----------------------------------------

  /** One slot and a skip, `n` times over, with the single-slot opcode only. */
  function Unrolled(n: nat, skip: nat): seq<Op>
  {
    if n == 0 then [] else [Repeat(1), Advance(skip)] + Unrolled(n - 1, skip)
  }

  function Desugar(op: Op): seq<Op>
  {
    match op
    case Repeat(n) => Unrolled(n, 0)
    case Once(skip) => Unrolled(1, skip)
    case RepeatSkip(n, skip) => Unrolled(n, skip)
    case _ => [op]
  }

  function DesugarAll(ops: seq<Op>): seq<Op>
  {
    if ops == [] then [] else Desugar(ops[0]) + DesugarAll(ops[1..])
  }

  lemma {:induction false} SingleSlot(skip: nat, cur: Slot)
    ensures Expand([Repeat(1), Advance(skip)], cur) == [cur]
    ensures After([Repeat(1), Advance(skip)], cur) == Move(cur, skip + 8)
  {
    var two := [Repeat(1), Advance(skip)];
    assert two[1..] == [Advance(skip)] && two[1..][1..] == [];
    assert Run(1, 0, cur) == [cur] + Run(0, 0, Move(cur, 8)) == [cur];
    assert AfterRun(1, 0, cur) == AfterRun(0, 0, Move(cur, 8)) == Move(cur, 8);
    assert Expand(two[1..], Move(cur, 8)) == [];
    assert After(two[1..], Move(cur, 8)) == Move(Move(cur, 8), skip);
    assert ((cur.off + 8) % WORD + skip) % WORD == (cur.off + skip + 8) % WORD;
  }

  lemma {:induction false} UnrolledRuns(n: nat, skip: nat, cur: Slot)
    ensures Expand(Unrolled(n, skip), cur) == Run(n, skip, cur)
    ensures After(Unrolled(n, skip), cur) == AfterRun(n, skip, cur)
    decreases n
  {
    hide Expand, After;
    if n == 0 {
      EmptyStream(cur);
    } else {
      SingleSlot(skip, cur);
      UnrolledRuns(n - 1, skip, Move(cur, skip + 8));
      ExpandAppend([Repeat(1), Advance(skip)], Unrolled(n - 1, skip), cur);
    }
  }

  lemma {:induction false} EmptyStream(cur: Slot)
    ensures Expand([], cur) == [] && After([], cur) == cur
  {
  }

  lemma {:induction false} OneOp(op: Op, cur: Slot)
    ensures Expand([op], cur) == OpSlots(op, cur) && After([op], cur) == OpAfter(op, cur)
  {
    hide OpSlots, OpAfter;
    var next := OpAfter(op, cur);
    EmptyStream(next);
    assert [op][1..] == [];
    assert OpSlots(op, cur) + [] == OpSlots(op, cur);
  }

  lemma {:induction false} DesugarSame(op: Op, cur: Slot)
    ensures Expand(Desugar(op), cur) == OpSlots(op, cur)
    ensures After(Desugar(op), cur) == OpAfter(op, cur)
  {
    hide Expand, After, Unrolled;
    match op
    case Repeat(n) => UnrolledRuns(n, 0, cur);
    case Once(skip) =>
      UnrolledRuns(1, skip, cur);
      assert Run(1, skip, cur) == [cur] + Run(0, skip, Move(cur, skip + 8));
      assert AfterRun(1, skip, cur) == AfterRun(0, skip, Move(cur, skip + 8));
    case RepeatSkip(n, skip) => UnrolledRuns(n, skip, cur);
    case _ => OneOp(op, cur);
  }

  /** A stream names the same slots as the stream with every run-length and skipping opcode
      written out as repetitions of the single-slot opcode. */
  lemma {:induction false} StreamMeansExpansion(ops: seq<Op>, cur: Slot)
    ensures Expand(DesugarAll(ops), cur) == Expand(ops, cur)
    decreases |ops|
  {
    hide Desugar, OpSlots, OpAfter, After;
    if ops != [] {
      DesugarSame(ops[0], cur);
      ExpandAppend(Desugar(ops[0]), DesugarAll(ops[1..]), cur);
      StreamMeansExpansion(ops[1..], OpAfter(ops[0], cur));
    }
  }

  // ----- the meaning of each opcode, in closed form ---------------------------------

  /** The slot `i` strides after `at`; offsets are 64-bit words. */
  function Further(at: Slot, i: nat, stride: nat): Slot { Slot(at.seg, (at.off + i * stride) % WORD) }

  /** `n` slots from `at` on, `stride` bytes apart. */
  function Progression(at: Slot, n: nat, stride: nat): (r: seq<Slot>)
    ensures |r| == n && forall i :: 0 <= i < n ==> r[i] == Further(at, i, stride)
  {
    seq(n, i requires 0 <= i < n => Further(at, i, stride))
  }

  lemma {:induction false} MoveOn(off: nat, stride: nat, i: nat)
    ensures ((off + stride) % WORD + i * stride) % WORD == (off + (i + 1) * stride) % WORD
  {
    var a := off + stride;
    assert (i + 1) * stride == i * stride + stride;
    assert a == WORD * (a / WORD) + a % WORD;
    ModShift(a % WORD + i * stride, a / WORD);
  }

  lemma {:induction false} ModShift(x: nat, q: nat)
    ensures (x + WORD * q) % WORD == x % WORD
  {
    DivModUnique(x + WORD * q, WORD, x / WORD + q, x % WORD);
  }

  lemma {:induction false} FurtherStep(cur: Slot, i: nat, stride: nat)
    ensures cur.off < WORD ==> Further(cur, 0, stride) == cur
    ensures Further(Move(cur, stride), i, stride) == Further(cur, i + 1, stride)
  {
    MoveOn(cur.off, stride, i);
  }

  /** The first slot and the progression after it. */
  lemma {:induction false} ProgressionStep(cur: Slot, n: nat, stride: nat)
    requires cur.off < WORD && n > 0
    ensures Progression(cur, n, stride) == [cur] + Progression(Move(cur, stride), n - 1, stride)
  {
    hide Progression, Further, Move;
    var rest := Progression(Move(cur, stride), n - 1, stride);
    FurtherStep(cur, 0, stride);
    forall i | 0 < i < n ensures Progression(cur, n, stride)[i] == rest[i - 1] {
      FurtherStep(cur, i - 1, stride);
    }
  }

  lemma {:induction false} RunMeans(n: nat, skip: nat, cur: Slot)
    requires cur.off < WORD
    ensures Run(n, skip, cur) == Progression(cur, n, skip + 8)
    ensures AfterRun(n, skip, cur) == Slot(cur.seg, (cur.off + n * (skip + 8)) % WORD)
  {
    hide Progression;
    if n != 0 {
      RunMeans(n - 1, skip, Move(cur, skip + 8));
      ProgressionStep(cur, n, skip + 8);
      MoveOn(cur.off, skip + 8, n - 1);
    }
  }

  /** Which slots an opcode names and where it leaves the position. */
  lemma {:induction false} OpMeans(op: Op, cur: Slot)
    requires cur.off < WORD
    ensures op.SetSegment? ==> OpSlots(op, cur) == [] && OpAfter(op, cur) == Slot(op.seg, op.off)
    ensures op.Advance? ==> OpSlots(op, cur) == [] && OpAfter(op, cur) == Slot(cur.seg, (cur.off + op.n) % WORD)
    ensures op.Repeat? ==>
              && OpSlots(op, cur) == Progression(cur, op.n, 8)
              && OpAfter(op, cur) == Slot(cur.seg, (cur.off + op.n * 8) % WORD)
    ensures op.Once? ==> OpSlots(op, cur) == [cur] && OpAfter(op, cur) == Slot(cur.seg, (cur.off + op.skip + 8) % WORD)
    ensures op.RepeatSkip? ==>
              && OpSlots(op, cur) == Progression(cur, op.n, op.skip + 8)
              && OpAfter(op, cur) == Slot(cur.seg, (cur.off + op.n * (op.skip + 8)) % WORD)
    ensures op.Nothing? ==> OpSlots(op, cur) == [] && OpAfter(op, cur) == cur
  {
    hide Run, AfterRun;
    if op.Repeat? {
      RunMeans(op.n, 0, cur);
    } else if op.RepeatSkip? {
      RunMeans(op.n, op.skip, cur);
    }
  }

  // ----- streams from bytes ---------------------------------------------------------

  /** Opcodes of one byte: the number in its high half, a small operand in its low half. */
  ghost predicate SpellsShort(b: Byte, op: Op)
  {
    match op
    case Advance(n) => n % 8 == 0 && n < 0x80 && b == 0x40 + n / 8
    case Repeat(n) => n < 0x10 && b == 0x50 + n
    case Nothing => 0x10 <= b < 0x20 || 0x90 <= b
    case _ => false
  }

  /** Opcodes with operands after the first byte. */
  ghost predicate SpellsLong(bytes: seq<Byte>, op: Op)
  {
    match op
    case SetSegment(seg, off) => seg < 16 && off < WORD && bytes == [0x20 + seg] + U.Encode(off)
    case Advance(n) => n < WORD && bytes == [0x30] + U.Encode(n)
    case Repeat(n) => n < WORD && bytes == [0x60] + U.Encode(n)
    case Once(skip) => skip < WORD && bytes == [0x70] + U.Encode(skip)
    case RepeatSkip(n, skip) => n < WORD && skip < WORD && bytes == [0x80] + U.Encode(n) + U.Encode(skip)
    case Nothing => false
  }

  /** The bytes of an opcode. */
  ghost predicate Spells(bytes: seq<Byte>, op: Op)
  {
    SpellsLong(bytes, op) || (|bytes| == 1 && SpellsShort(bytes[0], op))
  }

  lemma {:induction false} OperandAt(data: seq<Byte>, p: nat, v: nat)
    requires v < WORD && p + |U.Encode(v)| <= |data| && data[p..p + |U.Encode(v)|] == U.Encode(v)
    ensures U.Operand64(data, p) == Some(U.Operand(v, p + |U.Encode(v)|))
  {
    hide Pow2, U.Encode, U.Operand64;
    Pow2Values();
    var n := |U.Encode(v)|;
    assert data == data[..p] + U.Encode(v) + data[p + n..];
    U.RoundTrip(data[..p], v, data[p + n..]);
  }

  /** A byte with one operand after it. */
  lemma {:induction false} OneOperand(data: seq<Byte>, p: nat, b: Byte, v: nat)
    requires v < WORD && p + 1 + |U.Encode(v)| <= |data|
    requires data[p..p + 1 + |U.Encode(v)|] == [b] + U.Encode(v)
    ensures data[p] == b && U.Operand64(data, p + 1) == Some(U.Operand(v, p + 1 + |U.Encode(v)|))
  {
    hide U.Operand64, U.Encode;
    var n := |U.Encode(v)|;
    var all := data[p..p + 1 + n];
    assert data[p] == all[0];
    assert data[p + 1..p + 1 + n] == all[1..] == U.Encode(v);
    OperandAt(data, p + 1, v);
  }

  /** A byte with two operands after it. */
  lemma {:induction false} TwoOperands(data: seq<Byte>, p: nat, b: Byte, v: nat, w: nat)
    requires v < WORD && w < WORD && p + 1 + |U.Encode(v)| + |U.Encode(w)| <= |data|
    requires data[p..p + 1 + |U.Encode(v)| + |U.Encode(w)|] == [b] + U.Encode(v) + U.Encode(w)
    ensures data[p] == b && U.Operand64(data, p + 1) == Some(U.Operand(v, p + 1 + |U.Encode(v)|))
    ensures U.Operand64(data, p + 1 + |U.Encode(v)|) ==
            Some(U.Operand(w, p + 1 + |U.Encode(v)| + |U.Encode(w)|))
  {
    hide U.Operand64, U.Encode;
    var m, n := 1 + |U.Encode(v)|, |U.Encode(w)|;
    var all := data[p..p + m + n];
    assert data[p..p + m] == all[..m] == [b] + U.Encode(v);
    assert data[p + m..p + m + n] == all[m..] == U.Encode(w);
    OneOperand(data, p, b, v);
    OperandAt(data, p + m, w);
  }

  /** Opcodes with one operand. */
  ghost predicate TakesOne(b: Byte, v: nat, op: Op)
  {
    || (0x20 <= b < 0x30 && op == SetSegment(b - 0x20, v)) || (b == 0x30 && op == Advance(v))
    || (b == 0x60 && op == Repeat(v)) || (b == 0x70 && op == Once(v))
  }

  lemma {:induction false} HeadAt(data: seq<Byte>, p: nat, v: nat, next: nat, op: Op)
    requires p < |data| && TakesOne(data[p], v, op) && U.Operand64(data, p + 1) == Some(U.Operand(v, next))
    ensures ParseHead(data, p) == Some(Head(op, next))
  {
    hide U.Operand64, U.Length;
    var b: nat := data[p];
    if b < 0x30 {
      DivModUnique(b, 16, 2, b - 0x20);
    } else {
      assert b / 16 == 3 || b / 16 == 6 || b / 16 == 7;
    }
  }

  lemma {:induction false} ReadsOne(data: seq<Byte>, p: nat, b: Byte, v: nat, op: Op)
    requires v < WORD && p + 1 + |U.Encode(v)| <= |data|
    requires data[p..p + 1 + |U.Encode(v)|] == [b] + U.Encode(v)
    requires TakesOne(b, v, op)
    ensures ParseHead(data, p) == Some(Head(op, p + 1 + |U.Encode(v)|)) && data[p] == b
  {
    hide U.Operand64, U.Encode, ParseHead, TakesOne;
    OneOperand(data, p, b, v);
    HeadAt(data, p, v, p + 1 + |U.Encode(v)|, op);
  }

  lemma {:induction false} ReadsShort(data: seq<Byte>, p: nat, op: Op)
    requires p < |data| && SpellsShort(data[p], op)
    ensures ParseHead(data, p) == Some(Head(op, p + 1)) && data[p] / 16 != 0
  {
    hide U.Operand64;
  }

  lemma {:induction false} ReadsRepeatSkip(data: seq<Byte>, p: nat, n: nat, skip: nat)
    requires n < WORD && skip < WORD && p + 1 + |U.Encode(n)| + |U.Encode(skip)| <= |data|
    requires data[p..p + 1 + |U.Encode(n)| + |U.Encode(skip)|] == [0x80] + U.Encode(n) + U.Encode(skip)
    ensures data[p] == 0x80
    ensures ParseHead(data, p) == Some(Head(RepeatSkip(n, skip), p + 1 + |U.Encode(n)| + |U.Encode(skip)|))
  {
    hide U.Operand64, U.Encode;
    TwoOperands(data, p, 0x80, n, skip);
  }

  lemma {:induction false} ReadsLong(data: seq<Byte>, p: nat, bytes: seq<Byte>, op: Op)
    requires SpellsLong(bytes, op) && p + |bytes| <= |data| && data[p..p + |bytes|] == bytes
    ensures bytes != [] && ParseHead(data, p) == Some(Head(op, p + |bytes|)) && data[p] / 16 != 0
  {
    hide U.Operand64, U.Encode, ParseHead;
    match op {
      case SetSegment(seg, off) => ReadsOne(data, p, 0x20 + seg, off, op);
      case Advance(n) => ReadsOne(data, p, 0x30, n, op);
      case Repeat(n) => ReadsOne(data, p, 0x60, n, op);
      case Once(skip) => ReadsOne(data, p, 0x70, skip, op);
      case RepeatSkip(n, skip) => ReadsRepeatSkip(data, p, n, skip);
    }
  }

  /** Reading an opcode where it is spelled gives it back. */
  lemma {:induction false} ReadsSpelled(data: seq<Byte>, p: nat, bytes: seq<Byte>, op: Op)
    requires Spells(bytes, op) && p + |bytes| <= |data| && data[p..p + |bytes|] == bytes
    ensures bytes != [] && ParseHead(data, p) == Some(Head(op, p + |bytes|)) && data[p] / 16 != 0
  {
    hide SpellsLong, SpellsShort, ParseHead;
    if SpellsLong(bytes, op) {
      ReadsLong(data, p, bytes, op);
    } else {
      assert data[p] == bytes[0];
      ReadsShort(data, p, op);
    }
  }

  /** An opcode together with its bytes. */
  datatype Instruction = Instruction(op: Op, bytes: seq<Byte>)

  function Bytes(code: seq<Instruction>): seq<Byte>
  {
    if code == [] then [] else code[0].bytes + Bytes(code[1..])
  }

  function Ops(code: seq<Instruction>): (r: seq<Op>)
    ensures |r| == |code| && forall i :: 0 <= i < |code| ==> r[i] == code[i].op
  {
    seq(|code|, i requires 0 <= i < |code| => code[i].op)
  }

  /** The instructions stand at `p`, and after them the stream ends or a stop opcode follows. */
  ghost predicate Stands(data: seq<Byte>, p: nat, end: nat, code: seq<Instruction>)
  {
    var q := p + |Bytes(code)|;
    && (forall i :: 0 <= i < |code| ==> Spells(code[i].bytes, code[i].op))
    && q <= end <= |data| && data[p..q] == Bytes(code) && (q == end || data[q] / 16 == 0)
  }

  /** A stream of spelled opcodes reads as these opcodes. */
  lemma {:induction false} StreamReads(data: seq<Byte>, p: nat, end: nat, code: seq<Instruction>)
    requires Stands(data, p, end, code)
    ensures Parse(data, p, end) == Some(Ops(code))
    decreases |code|
  {
    hide ParseHead, Spells;
    if code != [] {
      var first, rest := code[0], code[1..];
      var q := p + |Bytes(code)|;
      var mid := p + |first.bytes|;
      assert data[p..mid] == data[p..q][..|first.bytes|] == first.bytes;
      assert data[mid..q] == data[p..q][|first.bytes|..] == Bytes(rest);
      ReadsSpelled(data, p, first.bytes, first.op);
      StreamReads(data, mid, end, rest);
      assert Ops(code) == [first.op] + Ops(rest);
    }
  }

  // ----- writing slots --------------------------------------------------------------

  /** One way to write down some slots, from an offset of a segment on. */
  datatype Item =
    | Adjacent(at: Slot, n: nat)                // in the immediate
    | ManyAdjacent(at: Slot, n: nat)
    | Spread(at: Slot, n: nat, skip: nat)
    | Pair(at: Slot, skip: nat)                 // one slot, a skip, another slot
    | Ahead(at: Slot, n: nat)                   // a slot some bytes further on
    | WordsAhead(at: Slot, words: nat)          // a slot some words further on, in the immediate

  predicate Writable(item: Item)
  {
    && item.at.seg < 16 && item.at.off < WORD
    && match item
       case Adjacent(_, n) => n < 16
       case ManyAdjacent(_, n) => n < WORD
       case Spread(_, n, skip) => n < WORD && skip < WORD
       case Pair(_, skip) => skip < WORD
       case Ahead(_, n) => n < WORD
       case WordsAhead(_, words) => words < 16
  }

  /** The slots meant. */
  function ItemSlots(item: Item): seq<Slot>
  {
    match item
    case Adjacent(at, n) => Progression(at, n, 8)
    case ManyAdjacent(at, n) => Progression(at, n, 8)
    case Spread(at, n, skip) => Progression(at, n, skip + 8)
    case Pair(at, skip) => Progression(at, 2, skip + 8)
    case Ahead(at, n) => [Slot(at.seg, (at.off + n) % WORD)]
    case WordsAhead(at, words) => [Slot(at.seg, (at.off + words * 8) % WORD)]
  }

  /** The bytes written. */
  function ItemBytes(item: Item): seq<Byte>
    requires Writable(item)
  {
    [0x20 + item.at.seg] + U.Encode(item.at.off) +
    match item
    case Adjacent(_, n) => [0x50 + n]
    case ManyAdjacent(_, n) => [0x60] + U.Encode(n)
    case Spread(_, n, skip) => [0x80] + U.Encode(n) + U.Encode(skip)
    case Pair(_, skip) => [0x70] + U.Encode(skip) + [0x51]
    case Ahead(_, n) => [0x30] + U.Encode(n) + [0x51]
    case WordsAhead(_, words) => [0x40 + words, 0x51]
  }

  function ListSlots(items: seq<Item>): seq<Slot>
  {
    if items == [] then [] else ItemSlots(items[0]) + ListSlots(items[1..])
  }

  function ListBytes(items: seq<Item>): seq<Byte>
    requires forall i :: 0 <= i < |items| ==> Writable(items[i])
  {
    if items == [] then [] else ItemBytes(items[0]) + ListBytes(items[1..])
  }

  /** The opcodes that write an item. */
  ghost function ItemCode(item: Item): seq<Instruction>
    requires Writable(item)
  {
    [Instruction(SetSegment(item.at.seg, item.at.off), [0x20 + item.at.seg] + U.Encode(item.at.off))] +
    match item
    case Adjacent(_, n) => [Instruction(Repeat(n), [0x50 + n])]
    case ManyAdjacent(_, n) => [Instruction(Repeat(n), [0x60] + U.Encode(n))]
    case Spread(_, n, skip) => [Instruction(RepeatSkip(n, skip), [0x80] + U.Encode(n) + U.Encode(skip))]
    case Pair(_, skip) => [Instruction(Once(skip), [0x70] + U.Encode(skip)), Instruction(Repeat(1), [0x51])]
    case Ahead(_, n) => [Instruction(Advance(n), [0x30] + U.Encode(n)), Instruction(Repeat(1), [0x51])]
    case WordsAhead(_, words) => [Instruction(Advance(words * 8), [0x40 + words]), Instruction(Repeat(1), [0x51])]
  }

  ghost function ListCode(items: seq<Item>): seq<Instruction>
    requires forall i :: 0 <= i < |items| ==> Writable(items[i])
  {
    if items == [] then [] else ItemCode(items[0]) + ListCode(items[1..])
  }

  lemma {:induction false} BytesAppend(a: seq<Instruction>, b: seq<Instruction>)
    ensures Bytes(a + b) == Bytes(a) + Bytes(b)
  {
    if a == [] {
      assert a + b == b;
    } else {
      assert (a + b)[1..] == a[1..] + b;
      BytesAppend(a[1..], b);
    }
  }

  ghost predicate AllSpelled(code: seq<Instruction>)
  {
    forall i :: 0 <= i < |code| ==> Spells(code[i].bytes, code[i].op)
  }

  lemma {:induction false} ItemIsSpelled(item: Item)
    requires Writable(item)
    ensures AllSpelled(ItemCode(item)) && Bytes(ItemCode(item)) == ItemBytes(item)
  {
    hide U.Encode;
    var code := ItemCode(item);
    assert code[1..][0] == code[1];
    if |code| == 2 {
      assert code[1..][1..] == [];
      assert Bytes(code[1..]) == code[1].bytes;
    } else {
      assert code[1..][1..][0] == code[2] && code[1..][1..][1..] == [];
      assert Bytes(code[1..][1..]) == code[2].bytes;
      assert Bytes(code[1..]) == code[1].bytes + code[2].bytes;
    }
    assert Bytes(code) == code[0].bytes + Bytes(code[1..]);
  }

  lemma {:induction false} ListIsSpelled(items: seq<Item>)
    requires forall i :: 0 <= i < |items| ==> Writable(items[i])
    ensures AllSpelled(ListCode(items)) && Bytes(ListCode(items)) == ListBytes(items)
  {
    hide ItemCode, ItemBytes, Spells, Writable;
    if items != [] {
      ItemIsSpelled(items[0]);
      ListIsSpelled(items[1..]);
      BytesAppend(ItemCode(items[0]), ListCode(items[1..]));
    }
  }

  /** The slots of two opcodes after a change of segment. */
  lemma {:induction false} AfterSegment(at: Slot, ops: seq<Op>, cur: Slot)
    requires 1 <= |ops| <= 2
    ensures Expand([SetSegment(at.seg, at.off)] + ops, cur) ==
            OpSlots(ops[0], at) + if |ops| == 2 then OpSlots(ops[1], OpAfter(ops[0], at)) else []
  {
    hide OpSlots;
    var set_ := SetSegment(at.seg, at.off);
    assert OpSlots(set_, cur) == [] by {
      SegmentNamesNone(at, cur);
    }
    assert Expand([set_] + ops, cur) == OpSlots(set_, cur) + Expand(ops, at) by {
      ExpandStep(set_, ops, cur);
    }
    hide OpAfter;
    assert ops == [ops[0]] + ops[1..];
    ExpandStep(ops[0], ops[1..], at);
    if |ops| == 2 {
      assert ops[1..] == [ops[1]];
      OneOp(ops[1], OpAfter(ops[0], at));
    } else {
      EmptyStream(OpAfter(ops[0], at));
    }
  }

  lemma {:induction false} SegmentNamesNone(at: Slot, cur: Slot)
    ensures OpSlots(SetSegment(at.seg, at.off), cur) == []
  {
  }

  /** A single slot after another opcode. */
  lemma {:induction false} ThenOne(at: Slot, op: Op, cur: Slot)
    requires at.off < WORD && OpAfter(op, at).off < WORD
    ensures Expand([SetSegment(at.seg, at.off)] + [op, Repeat(1)], cur) == OpSlots(op, at) + [OpAfter(op, at)]
  {
    hide Expand, OpSlots, OpAfter;
    var next := OpAfter(op, at);
    AfterSegment(at, [op, Repeat(1)], cur);
    OpMeans(Repeat(1), next);
    assert Progression(next, 1, 8) == [next];
  }

  lemma {:induction false} ProgressionTwo(at: Slot, stride: nat)
    requires at.off < WORD
    ensures Progression(at, 2, stride) == [at] + [Slot(at.seg, (at.off + stride) % WORD)]
  {
    ProgressionStep(at, 2, stride);
    ProgressionStep(Move(at, stride), 1, stride);
    assert Progression(Move(Move(at, stride), stride), 0, stride) == [];
  }

  /** The opcodes of an item after its change of segment. */
  ghost function TailOps(item: Item): seq<Op>
  {
    match item
    case Adjacent(_, n) => [Repeat(n)]
    case ManyAdjacent(_, n) => [Repeat(n)]
    case Spread(_, n, skip) => [RepeatSkip(n, skip)]
    case Pair(_, skip) => [Once(skip), Repeat(1)]
    case Ahead(_, n) => [Advance(n), Repeat(1)]
    case WordsAhead(_, words) => [Advance(words * 8), Repeat(1)]
  }

  lemma {:induction false} TailNames(item: Item, cur: Slot)
    requires item.at.off < WORD
    ensures Expand([SetSegment(item.at.seg, item.at.off)] + TailOps(item), cur) == ItemSlots(item)
  {
    hide Expand, OpSlots, OpAfter, Progression;
    var op := TailOps(item)[0];
    OpMeans(op, item.at);
    if item.Pair? || item.Ahead? || item.WordsAhead? {
      ThenOne(item.at, op, cur);
      if item.Pair? {
        ProgressionTwo(item.at, item.skip + 8);
      }
    } else {
      AfterSegment(item.at, [op], cur);
    }
  }

  lemma {:induction false} ItemNames(item: Item, cur: Slot)
    requires Writable(item)
    ensures Expand(Ops(ItemCode(item)), cur) == ItemSlots(item)
  {
    hide Expand, U.Encode, ItemSlots;
    TailNames(item, cur);
    assert Ops(ItemCode(item)) == [SetSegment(item.at.seg, item.at.off)] + TailOps(item);
  }

  lemma {:induction false} ListNames(items: seq<Item>, cur: Slot)
    requires forall i :: 0 <= i < |items| ==> Writable(items[i])
    ensures Expand(Ops(ListCode(items)), cur) == ListSlots(items)
  {
    hide ItemCode, ItemSlots, Writable;
    if items == [] {
      assert Ops(ListCode(items)) == [];
    } else {
      var a, b := ItemCode(items[0]), ListCode(items[1..]);
      assert Ops(a + b) == Ops(a) + Ops(b);
      ExpandAppend(Ops(a), Ops(b), cur);
      ItemNames(items[0], cur);
      ListNames(items[1..], After(Ops(a), cur));
    }
  }

  /** The stream at `start` is how these items are written, up to its end or a stop opcode. */
  ghost predicate WrittenAs(data: seq<Byte>, start: nat, end: nat, items: seq<Item>)
  {
    && (forall i :: 0 <= i < |items| ==> Writable(items[i]))
    && var q := start + |ListBytes(items)|;
       q <= end <= |data| && data[start..q] == ListBytes(items) && (q == end || data[q] / 16 == 0)
  }

  /** From bytes to slots: a stream that writes a list of items names exactly their slots, in order. */
  lemma {:induction false} WrittenNames(data: seq<Byte>, start: nat, end: nat, items: seq<Item>)
    requires WrittenAs(data, start, end, items)
    ensures Parse(data, start, end).Some?
    ensures Expand(Parse(data, start, end).value, Slot(0, 0)) == ListSlots(items)
  {
    hide Writable, ListCode, ListBytes, Spells, Parse, Expand;
    ListIsSpelled(items);
    StreamReads(data, start, end, ListCode(items));
    ListNames(items, Slot(0, 0));
  }

  /** Any list of slots can be written, each by its segment, its offset and one opcode. */
  ghost function OneByOne(slots: seq<Slot>): (items: seq<Item>)
    ensures |items| == |slots| && forall i :: 0 <= i < |slots| ==> items[i] == Adjacent(slots[i], 1)
  {
    seq(|slots|, i requires 0 <= i < |slots| => Adjacent(slots[i], 1))
  }

  lemma {:induction false} OneByOneNames(slots: seq<Slot>)
    requires forall i :: 0 <= i < |slots| ==> slots[i].off < WORD
    ensures ListSlots(OneByOne(slots)) == slots
  {
    if slots != [] {
      OneByOneNames(slots[1..]);
      assert OneByOne(slots)[1..] == OneByOne(slots[1..]);
      assert Progression(slots[0], 1, 8) == [slots[0]];
    }
  }

  // ----- applying ------------------------------------------------------------------

  /** Where a slot lies in the cache buffer, if its segment exists and it is inside. The sum of its
      segment's place and its offset is a 64-bit word. */
  function Locate(segs: seq<Seg>, len: nat, slot: Slot): (r: Option<nat>)
    ensures r.Some? ==> r.value + 8 <= len
  {
    if slot.seg >= |segs| then None
    else
      var off := (segs[slot.seg].cacheFileOff + slot.off) % WORD;
      if off + 8 > len then None else Some(off)
  }

  predicate Translates(segs: seq<Seg>, v: nat) { v != 0 && Find(segs, v).Some? }

  /** The value a pointer gets: slid with the segment it points into, else as it is. */
  function Rebased(segs: seq<Seg>, v: nat): nat
  {
    if Translates(segs, v) then Translate(segs, v) % WORD else v
  }

  function RebaseAt(m: seq<Byte>, segs: seq<Seg>, off: nat): (m': seq<Byte>)
    requires off + 8 <= |m|
    ensures |m'| == |m|
  {
    var v := Load(m, off, 8);
    if Translates(segs, v) then Store(m, off, 8, Rebased(segs, v)) else m
  }

  function RebaseSlot(m: seq<Byte>, segs: seq<Seg>, slot: Slot): (m': seq<Byte>)
    ensures |m'| == |m|
  {
    match Locate(segs, |m|, slot) case None => m case Some(off) => RebaseAt(m, segs, off)
  }

  function RebaseAll(m: seq<Byte>, segs: seq<Seg>, slots: seq<Slot>): (m': seq<Byte>)
    ensures |m'| == |m|
  {
    if slots == [] then m else RebaseSlot(RebaseAll(m, segs, slots[..|slots| - 1]), segs, slots[|slots| - 1])
  }

  /** The slot's segment exists, and its place in the file and the offset, added as 64-bit words, give `off`. */
  ghost predicate LiesAt(segs: seq<Seg>, slot: Slot, off: nat)
  {
    slot.seg < |segs| && off == (segs[slot.seg].cacheFileOff + slot.off) % 0x1_0000_0000_0000_0000
  }

  /** Segment `s` is the first to hold `v`. */
  ghost predicate FirstHolds(segs: seq<Seg>, s: nat, v: nat)
  {
    && s < |segs| && segs[s].origVmaddr <= v < segs[s].origVmaddr + segs[s].vmsize
    && forall t :: 0 <= t < s ==> !(segs[t].origVmaddr <= v < segs[t].origVmaddr + segs[t].vmsize)
  }

  /** The new value of a pointer: as far into its segment's place in the cache as it was into the segment;
      null and pointers into no segment stay. */
  ghost predicate MovedPointer(segs: seq<Seg>, v: nat, v': nat)
  {
    && (v == 0 || (forall s: nat :: !FirstHolds(segs, s, v)) ==> v' == v)
    && forall s: nat :: v != 0 && FirstHolds(segs, s, v) ==>
        v' == (segs[s].cacheVmaddr + (v - segs[s].origVmaddr)) % 0x1_0000_0000_0000_0000
  }

  lemma {:induction false} LocateMeans(segs: seq<Seg>, len: nat, slot: Slot, off: nat)
    ensures Locate(segs, len, slot) == Some(off) <==> LiesAt(segs, slot, off) && off + 8 <= len
  {
  }

  lemma {:induction false} RebasedMeans(segs: seq<Seg>, v: nat)
    ensures MovedPointer(segs, v, Rebased(segs, v))
    ensures Translates(segs, v) <==> v != 0 && exists s: nat :: FirstHolds(segs, s, v)
  {
    var at := Find(segs, v);
    if at.Some? {
      FindFirst(segs, v);
      assert FirstHolds(segs, at.value, v) by {
        assert forall t :: 0 <= t < at.value ==> !segs[t].Holds(v);
      }
      forall s: nat | FirstHolds(segs, s, v) ensures s == at.value {
        assert segs[s].Holds(v) && segs[at.value].Holds(v);
      }
    } else {
      forall s: nat ensures !FirstHolds(segs, s, v) {
        assert s < |segs| ==> !segs[s].Holds(v);
      }
    }
  }

  lemma {:induction false} RebaseAllAppend(m: seq<Byte>, segs: seq<Seg>, xs: seq<Slot>, ys: seq<Slot>)
    ensures RebaseAll(m, segs, xs + ys) == RebaseAll(RebaseAll(m, segs, xs), segs, ys)
    decreases |ys|
  {
    hide RebaseSlot;
    if ys == [] {
      assert xs + ys == xs;
    } else {
      var n := |ys| - 1;
      RebaseAllAppend(m, segs, xs, ys[..n]);
      assert (xs + ys)[..|xs + ys| - 1] == xs + ys[..n];
    }
  }

  // ----- the result depends only on the set of slots -------------------------------

  /** Translated addresses are 64-bit, not null, and not source addresses of the library. */
  ghost predicate SourceApartFromCache(segs: seq<Seg>)
  {
    forall s :: 0 <= s < |segs| ==>
      && 0 < segs[s].cacheVmaddr && segs[s].cacheVmaddr + segs[s].vmsize <= WORD
      && forall t :: 0 <= t < |segs| ==> Disjoint(segs[t].origVmaddr, segs[t].vmsize, segs[s].cacheVmaddr,
                                                  segs[s].vmsize)
  }

  /** Rebasing twice is rebasing once. */
  lemma {:induction false} RebasedTwice(segs: seq<Seg>, v: nat)
    requires SourceApartFromCache(segs) && v < WORD
    ensures Rebased(segs, v) < WORD
    ensures !Translates(segs, Rebased(segs, v)) || !Translates(segs, v)
    ensures Rebased(segs, Rebased(segs, v)) == Rebased(segs, v)
  {
    if Translates(segs, v) {
      var s := Find(segs, v).value;
      var w := Translate(segs, v);
      assert segs[s].cacheVmaddr <= w < segs[s].cacheVmaddr + segs[s].vmsize;
      assert w % WORD == w;
      forall t | 0 <= t < |segs| ensures !segs[t].Holds(w) {
        assert Disjoint(segs[t].origVmaddr, segs[t].vmsize, segs[s].cacheVmaddr, segs[s].vmsize);
      }
    }
  }

  /** Buffer offsets of the slots of a list that are inside the buffer. */
  function Offsets(segs: seq<Seg>, len: nat, slots: seq<Slot>): (r: set<nat>)
    ensures forall off :: off in r ==> off + 8 <= len
  {
    if slots == [] then {}
    else
      Offsets(segs, len, slots[..|slots| - 1]) +
      match Locate(segs, len, slots[|slots| - 1]) { case None => {} case Some(off) => {off} }
  }

  /** Exactly the places of the listed slots that are inside the buffer. */
  lemma {:induction false} OffsetsMean(segs: seq<Seg>, len: nat, slots: seq<Slot>, off: nat)
    ensures off in Offsets(segs, len, slots) <==>
            off + 8 <= len && exists i :: 0 <= i < |slots| && LiesAt(segs, slots[i], off)
  {
    hide LiesAt, Locate;
    if slots != [] {
      var n := |slots| - 1;
      OffsetsMean(segs, len, slots[..n], off);
      LocateMeans(segs, len, slots[n], off);
      assert forall i :: 0 <= i < n ==> slots[..n][i] == slots[i];
    }
  }

  /** Every named slot rebased once, every other byte as before. */
  ghost predicate RebasedOnce(m: seq<Byte>, m': seq<Byte>, segs: seq<Seg>, offs: set<nat>)
    requires forall off :: off in offs ==> off + 8 <= |m|
  {
    && |m'| == |m|
    && (forall off :: off in offs ==> Load(m', off, 8) == Rebased(segs, Load(m, off, 8)))
    && (forall k :: 0 <= k < |m| && (forall off :: off in offs ==> !(off <= k < off + 8)) ==> m'[k] == m[k])
  }

  lemma {:induction false} LoadIsWord(m: seq<Byte>, off: nat)
    requires off + 8 <= |m|
    ensures Load(m, off, 8) < WORD
  {
    hide Load, Pow2;
    LoadBound(m, off, 8);
    Pow2Values();
  }

  /** One more slot: new ones are rebased from their original value, old ones stay. */
  lemma {:induction false} RebaseOneMore(m: seq<Byte>, m1: seq<Byte>, segs: seq<Seg>, offs: set<nat>, off: nat)
    requires (forall o :: o in offs ==> o + 8 <= |m|) && off + 8 <= |m|
    requires SourceApartFromCache(segs) && Apart(offs + {off}) && RebasedOnce(m, m1, segs, offs)
    ensures RebasedOnce(m, RebaseAt(m1, segs, off), segs, offs + {off})
  {
    hide Load, Store, Rebased, Translates, SourceApartFromCache, Pow2;
    var m2 := RebaseAt(m1, segs, off);
    var v := Load(m, off, 8);
    LoadIsWord(m, off);
    LoadIsWord(m1, off);
    RebasedTwice(segs, v);
    if off in offs {
      assert offs + {off} == offs;
      assert Load(m1, off, 8) == Rebased(segs, v);
      StoredSame(m1, segs, off, v);
    } else {
      assert Load(m1, off, 8) == v by {
        forall k | off <= k < off + 8 ensures m1[k] == m[k] {
          assert forall o :: o in offs ==> Disjoint(o, 8, off, 8);
        }
        LoadCongruent(m, m1, off, 8);
      }
      RebasedNow(m1, segs, off);
      forall o | o in offs ensures Load(m2, o, 8) == Rebased(segs, Load(m, o, 8)) {
        assert Disjoint(o, 8, off, 8);
        OtherKept(m1, segs, off, o);
      }
      OutsideKept(m1, segs, off);
    }
  }

  lemma {:induction false} StoredSame(m1: seq<Byte>, segs: seq<Seg>, off: nat, v: nat)
    requires off + 8 <= |m1| && SourceApartFromCache(segs) && v < WORD && Load(m1, off, 8) == Rebased(segs, v)
    ensures RebaseAt(m1, segs, off) == m1
  {
    hide Load, Store, SourceApartFromCache;
    RebasedTwice(segs, v);
  }

  lemma {:induction false} RebasedNow(m: seq<Byte>, segs: seq<Seg>, off: nat)
    requires off + 8 <= |m| && SourceApartFromCache(segs)
    ensures Load(RebaseAt(m, segs, off), off, 8) == Rebased(segs, Load(m, off, 8))
  {
    hide Load, Store, Rebased, Translates, SourceApartFromCache, Pow2;
    var v := Load(m, off, 8);
    LoadIsWord(m, off);
    RebasedTwice(segs, v);
    Pow2Values();
    LoadAfterStore(m, off, 8, Rebased(segs, v));
    NotTranslated(segs, v);
  }

  lemma {:induction false} NotTranslated(segs: seq<Seg>, v: nat)
    ensures !Translates(segs, v) ==> Rebased(segs, v) == v
  {
  }

  lemma {:induction false} OtherKept(m: seq<Byte>, segs: seq<Seg>, off: nat, o: nat)
    requires off + 8 <= |m| && o + 8 <= |m| && Disjoint(o, 8, off, 8)
    ensures Load(RebaseAt(m, segs, off), o, 8) == Load(m, o, 8)
  {
    hide Load, Store, Rebased, Translates;
    LoadAfterDisjointStore(m, o, 8, off, 8, Rebased(segs, Load(m, off, 8)));
  }

  lemma {:induction false} OutsideKept(m: seq<Byte>, segs: seq<Seg>, off: nat)
    requires off + 8 <= |m|
    ensures forall k :: 0 <= k < |m| && !(off <= k < off + 8) ==> RebaseAt(m, segs, off)[k] == m[k]
  {
    hide Load, Rebased, Translates;
  }

  lemma {:induction false} RebaseAllPointwise(m: seq<Byte>, segs: seq<Seg>, slots: seq<Slot>)
    requires SourceApartFromCache(segs) && Apart(Offsets(segs, |m|, slots))
    ensures RebasedOnce(m, RebaseAll(m, segs, slots), segs, Offsets(segs, |m|, slots))
  {
    hide Load, Store, Rebased, Translates, SourceApartFromCache, RebaseAt;
    if slots != [] {
      var n := |slots| - 1;
      RebaseAllPointwise(m, segs, slots[..n]);
      var at := Locate(segs, |m|, slots[n]);
      if at.Some? {
        RebaseOneMore(m, RebaseAll(m, segs, slots[..n]), segs, Offsets(segs, |m|, slots[..n]), at.value);
      }
    }
  }

  lemma {:induction false} RebasedOnceUnique(m: seq<Byte>, a: seq<Byte>, b: seq<Byte>, segs: seq<Seg>, offs: set<nat>)
    requires forall off :: off in offs ==> off + 8 <= |m|
    requires RebasedOnce(m, a, segs, offs) && RebasedOnce(m, b, segs, offs)
    ensures a == b
  {
    hide Load, Rebased;
    forall k | 0 <= k < |m| ensures a[k] == b[k] {
      if off :| off in offs && off <= k < off + 8 {
        LoadDeterminesBytes(a, b, off, 8);
        assert a[k] == a[off..off + 8][k - off];
        assert b[k] == b[off..off + 8][k - off];
      }
    }
  }

  /** Two streams that name the same slots leave the same memory, whatever the order and however
      often a slot is named. */
  lemma {:induction false} OrderAndRepetitionIrrelevant(m: seq<Byte>, segs: seq<Seg>, xs: seq<Slot>, ys: seq<Slot>)
    requires SourceApartFromCache(segs) && Apart(Offsets(segs, |m|, xs))
    requires Offsets(segs, |m|, xs) == Offsets(segs, |m|, ys)
    ensures RebaseAll(m, segs, xs) == RebaseAll(m, segs, ys)
  {
    RebaseAllPointwise(m, segs, xs);
    RebaseAllPointwise(m, segs, ys);
    RebasedOnceUnique(m, RebaseAll(m, segs, xs), RebaseAll(m, segs, ys), segs, Offsets(segs, |m|, xs));
  }

  // ----- locations recorded for slide info -----------------------------------------

  /** The location recorded when a slot is rebased in memory `m`: only if its pointer is translated
      and it lies in a data segment. */
  function Recorded1(m: seq<Byte>, segs: seq<Seg>, slot: Slot): seq<nat>
  {
    match Locate(segs, |m|, slot)
    case None => []
    case Some(off) => if Translates(segs, Load(m, off, 8)) && segs[slot.seg].region == Data then [off] else []
  }

  function Recorded(m: seq<Byte>, segs: seq<Seg>, slots: seq<Slot>): seq<nat>
  {
    if slots == [] then []
    else
      var n := |slots| - 1;
      Recorded(m, segs, slots[..n]) + Recorded1(RebaseAll(m, segs, slots[..n]), segs, slots[n])
  }

  lemma {:induction false} RecordedAppend(m: seq<Byte>, segs: seq<Seg>, xs: seq<Slot>, ys: seq<Slot>)
    ensures Recorded(m, segs, xs + ys) == Recorded(m, segs, xs) + Recorded(RebaseAll(m, segs, xs), segs, ys)
    decreases |ys|
  {
    hide Recorded1, RebaseAll;
    if ys == [] {
      assert xs + ys == xs;
    } else {
      var n := |ys| - 1;
      RecordedAppend(m, segs, xs, ys[..n]);
      RebaseAllAppend(m, segs, xs, ys[..n]);
      assert (xs + ys)[..|xs + ys| - 1] == xs + ys[..n];
    }
  }

  ghost predicate EachOnce(r: seq<nat>, offs: set<nat>)
  {
    && (forall i :: 0 <= i < |r| ==> r[i] in offs)
    && (forall i, j :: 0 <= i < j < |r| ==> r[i] != r[j])
  }

  lemma {:induction false} EachOnceAppend(r: seq<nat>, new_: seq<nat>, offs: set<nat>, more: set<nat>)
    requires EachOnce(r, offs) && (new_ == [] || (|new_| == 1 && new_[0] in more && new_[0] !in offs))
    ensures EachOnce(r + new_, offs + more)
  {
  }

  /** However often a stream names a slot, it is recorded at most once. */
  lemma {:induction false} RecordedOnce(m: seq<Byte>, segs: seq<Seg>, slots: seq<Slot>)
    requires SourceApartFromCache(segs) && Apart(Offsets(segs, |m|, slots))
    ensures EachOnce(Recorded(m, segs, slots), Offsets(segs, |m|, slots))
  {
    hide Load, Store, Rebased, Translates, SourceApartFromCache, RebaseAll;
    if slots != [] {
      var n := |slots| - 1;
      RecordedOnce(m, segs, slots[..n]);
      RebaseAllPointwise(m, segs, slots[..n]);
      var m1, at := RebaseAll(m, segs, slots[..n]), Locate(segs, |m|, slots[n]);
      if at.Some? && at.value in Offsets(segs, |m|, slots[..n]) {
        LoadIsWord(m, at.value);
        NotTwice(segs, Load(m, at.value, 8));
        assert Recorded1(m1, segs, slots[n]) == [];
      }
      var before, new_ := Recorded(m, segs, slots[..n]), Recorded1(m1, segs, slots[n]);
      assert new_ == [] || (at.Some? && new_ == [at.value] && at.value !in Offsets(segs, |m|, slots[..n]));
      EachOnceAppend(before, new_, Offsets(segs, |m|, slots[..n]), if at.Some? then {at.value} else {});
    }
  }

  lemma {:induction false} NotTwice(segs: seq<Seg>, v: nat)
    requires SourceApartFromCache(segs) && v < WORD
    ensures !Translates(segs, Rebased(segs, v))
  {
    hide SourceApartFromCache;
    RebasedTwice(segs, v);
  }

  /** All slots of a list at one place of the buffer are in data segments. */
  ghost predicate DataOnly(segs: seq<Seg>, len: nat, slots: seq<Slot>, off: nat)
  {
    forall k :: 0 <= k < |slots| && Locate(segs, len, slots[k]) == Some(off) ==> segs[slots[k].seg].region == Data
  }

  /** Only named slots are recorded whose original pointer is translated; and if all slots at a named
      place are in data segments, it is recorded exactly then. */
  lemma {:induction false} RecordedMeans(m: seq<Byte>, segs: seq<Seg>, slots: seq<Slot>, off: nat)
    requires SourceApartFromCache(segs) && Apart(Offsets(segs, |m|, slots)) && off + 8 <= |m|
    ensures off in Recorded(m, segs, slots) ==> off in Offsets(segs, |m|, slots) && Translates(segs, Load(m, off, 8))
    ensures off in Offsets(segs, |m|, slots) && DataOnly(segs, |m|, slots, off) && Translates(segs, Load(m, off, 8)) ==>
              off in Recorded(m, segs, slots)
  {
    hide Load, Store, Rebased, Translates, SourceApartFromCache, RebaseAll;
    if slots != [] {
      var n := |slots| - 1;
      var front := slots[..n];
      RecordedMeans(m, segs, front, off);
      RebaseAllPointwise(m, segs, front);
      var m1, at := RebaseAll(m, segs, front), Locate(segs, |m|, slots[n]);
      if at == Some(off) {
        LoadIsWord(m, off);
        NotTwice(segs, Load(m, off, 8));
        if off !in Offsets(segs, |m|, front) {
          OtherSlotSame(m, m1, segs, Offsets(segs, |m|, front), off, Offsets(segs, |m|, slots));
        }
      }
      if DataOnly(segs, |m|, slots, off) {
        assert DataOnly(segs, |m|, front, off) by {
          assert forall k :: 0 <= k < n ==> front[k] == slots[k];
        }
        assert at == Some(off) ==> segs[slots[n].seg].region == Data;
      }
    }
  }

  /** A slot apart from those rebased still holds what it held. */
  lemma {:induction false} OtherSlotSame(m: seq<Byte>, m': seq<Byte>, segs: seq<Seg>, offs: set<nat>, off: nat,
                                         all: set<nat>)
    requires (forall o :: o in offs ==> o + 8 <= |m|) && RebasedOnce(m, m', segs, offs) && off + 8 <= |m|
    requires Apart(all) && offs <= all && off in all && off !in offs
    ensures Load(m', off, 8) == Load(m, off, 8)
  {
    hide Load, Rebased;
    forall k | off <= k < off + 8 ensures m'[k] == m[k] {
      forall o | o in offs ensures !(o <= k < o + 8) {
        assert Disjoint(o, 8, off, 8);
      }
    }
    LoadCongruent(m, m', off, 8);
  }

  /** One slot done: its pointer moved, the rest of the buffer as before, and its place noted exactly if it
      is in a data segment and its pointer was one into a segment. */
  ghost predicate SlotDone(m: seq<Byte>, m': seq<Byte>, segs: seq<Seg>, slot: Slot, off: nat, recorded: seq<nat>)
    requires off + 8 <= |m|
  {
    && slot.seg < |segs| && |m'| == |m| && MovedPointer(segs, Load(m, off, 8), Load(m', off, 8))
    && (forall k :: 0 <= k < |m| && !(off <= k < off + 8) ==> m'[k] == m[k])
    && recorded == if segs[slot.seg].region == Data && Load(m, off, 8) != 0 &&
                      (exists s: nat :: FirstHolds(segs, s, Load(m, off, 8))) then [off] else []
  }

  /** A slot inside the buffer is done, any other leaves everything as it was. */
  ghost predicate DoneOrLeft(m: seq<Byte>, m': seq<Byte>, segs: seq<Seg>, slot: Slot, recorded: seq<nat>)
  {
    && ((forall off: nat :: off + 8 <= |m| ==> !LiesAt(segs, slot, off)) ==> m' == m && recorded == [])
    && forall off: nat :: off + 8 <= |m| && LiesAt(segs, slot, off) ==> SlotDone(m, m', segs, slot, off, recorded)
  }

  lemma {:induction false} DoneMeans(m: seq<Byte>, segs: seq<Seg>, slot: Slot)
    ensures DoneOrLeft(m, RebaseSlot(m, segs, slot), segs, slot, Recorded1(m, segs, slot))
  {
    hide Load, Store, LiesAt, MovedPointer, Rebased, Locate, Translates, FirstHolds;
    var at := Locate(segs, |m|, slot);
    if at.Some? {
      LocateMeans(segs, |m|, slot, at.value);
    }
    forall off: nat | off + 8 <= |m| && LiesAt(segs, slot, off)
      ensures SlotDone(m, RebaseSlot(m, segs, slot), segs, slot, off, Recorded1(m, segs, slot))
    {
      LocateMeans(segs, |m|, slot, off);
      LiesInside(segs, slot, off);
      var v := Load(m, off, 8);
      RebasedMeans(segs, v);
      RebasedIsWord(segs, m, off);
      Pow2Values();
      LoadAfterStore(m, off, 8, Rebased(segs, v));
      NotTranslated(segs, v);
    }
  }

  lemma {:induction false} LiesInside(segs: seq<Seg>, slot: Slot, off: nat)
    requires LiesAt(segs, slot, off)
    ensures slot.seg < |segs|
  {
  }

  lemma {:induction false} RebasedIsWord(segs: seq<Seg>, m: seq<Byte>, off: nat)
    requires off + 8 <= |m|
    ensures Rebased(segs, Load(m, off, 8)) < WORD
  {
    hide Load;
    LoadIsWord(m, off);
  }

  // ----- the interpreter -----------------------------------------------------------

  /** Rebase one slot in place; the result is the location to record, if any. */
  method DoRebase(buf: array<Byte>, segs: seq<Seg>, slot: Slot) returns (recorded: seq<nat>)
    modifies buf
    ensures buf[..] == RebaseSlot(old(buf[..]), segs, slot)
    ensures recorded == Recorded1(old(buf[..]), segs, slot)
    ensures DoneOrLeft(old(buf[..]), buf[..], segs, slot, recorded)
  {
    hide Load, Store, DoneOrLeft;
    DoneMeans(buf[..], segs, slot);
    recorded := [];
    var loc := Locate(segs, buf.Length, slot);
    if loc.None? {
      return;
    }
    var val := Read(buf, loc.value, 8);
    if val == 0 {
      return;
    }
    var s := Find(segs, val);
    if s.Some? {
      var newVal := (val + segs[s.value].Slide()) % WORD;
      Write(buf, loc.value, 8, newVal);
      if segs[slot.seg].region == Data {
        recorded := [loc.value];
      }
    }
  }

  method RebaseRun(buf: array<Byte>, segs: seq<Seg>, n: nat, skip: nat, cur: Slot)
    returns (next: Slot, recorded: seq<nat>)
    modifies buf
    ensures buf[..] == RebaseAll(old(buf[..]), segs, Run(n, skip, cur))
    ensures recorded == Recorded(old(buf[..]), segs, Run(n, skip, cur))
    ensures next == AfterRun(n, skip, cur)
  {
    hide RebaseAll, Recorded, RebaseSlot, Recorded1;
    ghost var m := buf[..];
    ghost var done: seq<Slot> := [];
    next, recorded := cur, [];
    NoSlots(m, segs);
    for j := 0 to n
      invariant done + Run(n - j, skip, next) == Run(n, skip, cur)
      invariant AfterRun(n - j, skip, next) == AfterRun(n, skip, cur)
      invariant buf[..] == RebaseAll(m, segs, done) && recorded == Recorded(m, segs, done)
    {
      OneMoreSlot(m, segs, done, next);
      var more := DoRebase(buf, segs, next);
      recorded := recorded + more;
      assert done + Run(n - j, skip, next) == (done + [next]) + Run(n - j - 1, skip, Move(next, skip + 8));
      done := done + [next];
      next := Move(next, skip + 8);
    }
    assert done + Run(0, skip, next) == done;
  }

  lemma {:induction false} NoSlots(m: seq<Byte>, segs: seq<Seg>)
    ensures RebaseAll(m, segs, []) == m && Recorded(m, segs, []) == []
  {
  }

  lemma {:induction false} OneMoreSlot(m: seq<Byte>, segs: seq<Seg>, done: seq<Slot>, slot: Slot)
    ensures RebaseAll(m, segs, done + [slot]) == RebaseSlot(RebaseAll(m, segs, done), segs, slot)
    ensures Recorded(m, segs, done + [slot]) == Recorded(m, segs, done) +
        Recorded1(RebaseAll(m, segs, done), segs, slot)
  {
    assert (done + [slot])[..|done|] == done;
  }

  /** Interpret the stream in `data[p..end]`, applying each opcode as it is read. */
  method ApplyRebases(buf: array<Byte>, segs: seq<Seg>, data: seq<Byte>, start: nat,
                      end: nat)
    returns (recorded: seq<nat>)
    requires start <= end <= |data| && Parse(data, start, end).Some?
    modifies buf
    ensures var slots := Expand(Parse(data, start, end).value, Slot(0, 0));
            buf[..] == RebaseAll(old(buf[..]), segs, slots) && recorded == Recorded(old(buf[..]), segs, slots)
    ensures forall items :: WrittenAs(data, start, end, items) ==>
        && buf[..] == RebaseAll(old(buf[..]), segs, ListSlots(items))
        && recorded == Recorded(old(buf[..]), segs, ListSlots(items))
  {
    hide RebaseAll, Recorded, ParseHead, Expand, Run, AfterRun, WrittenAs, ListSlots;
    ghost var m := buf[..];
    ghost var all := Expand(Parse(data, start, end).value, Slot(0, 0));
    ghost var done: seq<Slot> := [];
    var p, cur := start, Slot(0, 0);
    recorded := [];
    NoSlots(m, segs);
    assert done + all == all;
    while p < end && data[p] / 16 != 0
      invariant Parse(data, p, end).Some?
      invariant done + Expand(Parse(data, p, end).value, cur) == all
      invariant buf[..] == RebaseAll(m, segs, done) && recorded == Recorded(m, segs, done)
      decreases end - p
    {
      var h := ReadHead(data, p);
      ghost var rest := Parse(data, h.next, end).value;
      ExpandStep(h.op, rest, cur);
      RebaseAllAppend(m, segs, done, OpSlots(h.op, cur));
      RecordedAppend(m, segs, done, OpSlots(h.op, cur));
      var next, more := Perform(buf, segs, h.op, cur);
      recorded := recorded + more;
      assert (done + OpSlots(h.op, cur)) + Expand(rest, next) == done + (OpSlots(h.op, cur) + Expand(rest, next));
      done := done + OpSlots(h.op, cur);
      p, cur := h.next, next;
    }
    EmptyStream(cur);
    assert done + [] == done;
    forall items | WrittenAs(data, start, end, items) ensures all == ListSlots(items) {
      WrittenNames(data, start, end, items);
    }
  }

  lemma {:induction false} ExpandStep(op: Op, rest: seq<Op>, cur: Slot)
    ensures Expand([op] + rest, cur) == OpSlots(op, cur) + Expand(rest, OpAfter(op, cur))
  {
    assert ([op] + rest)[1..] == rest;
  }

  /** Read one opcode and its operands. */
  method ReadHead(data: seq<Byte>, p: nat) returns (h: Head)
    requires p < |data| && ParseHead(data, p).Some?
    ensures h == ParseHead(data, p).value
  {
    var imm := data[p] % 16;
    var code := data[p] / 16;
    if code == 4 {
      return Head(Advance(imm * 8), p + 1);
    } else if code == 5 {
      return Head(Repeat(imm), p + 1);
    } else if code in {2, 3, 6, 7} {
      var v, next := U.ReadUleb128(data, p + 1);
      return Head(if code == 2 then SetSegment(imm, v) else if code == 3 then Advance(v) else if code == 6
                  then Repeat(v) else Once(v), next);
    } else if code == 8 {
      var n, mid := U.ReadUleb128(data, p + 1);
      var skip, next := U.ReadUleb128(data, mid);
      return Head(RepeatSkip(n, skip), next);
    }
    h := Head(Nothing, p + 1);
  }

  method Perform(buf: array<Byte>, segs: seq<Seg>, op: Op, cur: Slot) returns (next: Slot, recorded: seq<nat>)
    modifies buf
    ensures buf[..] == RebaseAll(old(buf[..]), segs, OpSlots(op, cur))
    ensures recorded == Recorded(old(buf[..]), segs, OpSlots(op, cur)) && next == OpAfter(op, cur)
  {
    hide RebaseAll, Recorded;
    NoSlots(buf[..], segs);
    next, recorded := cur, [];
    match op {
      case SetSegment(seg, off) => next := Slot(seg, off);
      case Advance(n) => next := Move(cur, n);
      case Repeat(n) => next, recorded := RebaseRun(buf, segs, n, 0, cur);
      case Once(skip) =>
        assert Run(1, skip, cur) == [cur] + Run(0, skip, Move(cur, skip + 8)) == [cur];
        assert AfterRun(1, skip, cur) == AfterRun(0, skip, Move(cur, skip + 8));
        next, recorded := RebaseRun(buf, segs, 1, skip, cur);
      case RepeatSkip(n, skip) => next, recorded := RebaseRun(buf, segs, n, skip, cur);
      case Nothing =>
    }
  }
}
