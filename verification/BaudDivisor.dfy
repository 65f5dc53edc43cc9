/** The baud-rate divisor: its choice from the master clock and its trip through the chip's
    two divisor registers. Rates are in half-bits per second. */
module BaudDivisor {
  import opened Bits
  import opened Memory
  import opened SerialMacros

  const CLOCK_1X := 1843200
  const MIN_BAUD := 100
  const MAX_BAUD := 230400

  /** The clock inferred from the median time of a looped-back byte, in nanoseconds, of at
      least three samples; without them, the original clock. */
  function MasterClock(samples: nat, median: nat): (clock: nat)
    ensures IsMasterClock(clock)
  {
    if samples < 3 then CLOCK_1X
    else if median < 10000 then 10 * CLOCK_1X
    else if median < 15000 then 8 * CLOCK_1X
    else if median < 30000 then 4 * CLOCK_1X
    else if median < 70000 then 5 * CLOCK_1X / 3
    else CLOCK_1X
  }

  /** A longer median never gives a faster clock. */
  lemma {:induction false} LongerIsSlower(samples: nat, a: nat, b: nat)
    requires a <= b
    ensures MasterClock(samples, b) <= MasterClock(samples, a)
  {
  }

  /** At divisor 1 a clock of `c` sends a frame of ten bits in 160 clock periods. A median within seven
      percent of that time gives the clock. */
  lemma {:induction false} ClockIdentified(samples: nat, median: nat, clock: nat)
    requires samples >= 3 && IsMasterClock(clock)
    requires 93 * 160_000_000_000 <= 100 * (median * clock) <= 107 * 160_000_000_000
    ensures MasterClock(samples, median) == clock
  {
    if clock == CLOCK_1X {
      assert median * clock == 1843200 * median;
    } else if clock == 5 * CLOCK_1X / 3 {
      assert median * clock == 3072000 * median;
    } else if clock == 4 * CLOCK_1X {
      assert median * clock == 7372800 * median;
    } else if clock == 8 * CLOCK_1X {
      assert median * clock == 14745600 * median;
    } else {
      assert median * clock == 18432000 * median;
    }
  }

  /** Which medians give which clock. */
  lemma {:induction false} ClockRanges(samples: nat, median: nat)
    requires samples >= 3
    ensures MasterClock(samples, median) == 10 * CLOCK_1X <==> median < 10_000
    ensures MasterClock(samples, median) == 8 * CLOCK_1X <==> 10_000 <= median < 15_000
    ensures MasterClock(samples, median) == 4 * CLOCK_1X <==> 15_000 <= median < 30_000
    ensures MasterClock(samples, median) == 5 * CLOCK_1X / 3 <==> 30_000 <= median < 70_000
    ensures MasterClock(samples, median) == CLOCK_1X <==> 70_000 <= median
  {
  }

  // ----- the median ----------------------------------------------------------------

  /** Positions above `i` hold nothing smaller than any before them. */
  ghost predicate Settled(s: seq<nat>, i: nat)
  {
    forall p, q :: 0 <= p < q < |s| && i < q ==> s[p] <= s[q]
  }

  function Swapped(s: seq<nat>, j: nat): (t: seq<nat>)
    requires j + 1 < |s|
    ensures |t| == |s|
  {
    s[j := s[j + 1]][j + 1 := s[j]]
  }

  /** Nothing before position `j` is larger. */
  ghost predicate MaxAt(s: seq<nat>, j: nat)
  {
    j < |s| && forall p :: 0 <= p < j ==> s[p] <= s[j]
  }

  /** One comparison and, if needed, exchange. */
  function Compared(s: seq<nat>, j: nat): (t: seq<nat>)
    requires j + 1 < |s|
    ensures |t| == |s|
  {
    if s[j + 1] < s[j] then Swapped(s, j) else s
  }

  lemma {:induction false} ComparedKeeps(s: seq<nat>, j: nat, i: nat)
    requires j + 1 < |s| && j < i && MaxAt(s, j) && Settled(s, i)
    ensures multiset(Compared(s, j)) == multiset(s) && MaxAt(Compared(s, j), j + 1) && Settled(Compared(s, j), i)
  {
    var t := Compared(s, j);
    assert forall k :: 0 <= k < |s| && k != j && k != j + 1 ==> t[k] == s[k];
  }

  lemma {:induction false} OneMoreSettled(s: seq<nat>, i: nat)
    requires i > 0 && MaxAt(s, i) && Settled(s, i)
    ensures Settled(s, i - 1)
  {
  }

  lemma {:induction false} LastSettled(s: seq<nat>)
    requires s != []
    ensures Settled(s, |s| - 1) && MaxAt(s, 0)
  {
  }

  /** Sort the first `n` samples in place. */
  method BubbleSort(sample: array<nat>, n: nat)
    requires 0 < n <= sample.Length
    modifies sample
    ensures Settled(sample[..n], 0) && multiset(sample[..n]) == multiset(old(sample[..n]))
  {
    hide Settled, MaxAt;
    var i := n - 1;
    LastSettled(sample[..n]);
    while i > 0
      invariant 0 <= i < n && Settled(sample[..n], i) && multiset(sample[..n]) == multiset(old(sample[..n]))
    {
      BubbleUp(sample, n, i);
      OneMoreSettled(sample[..n], i);
      i := i - 1;
    }
  }

  method BubbleUp(sample: array<nat>, n: nat, i: nat)
    requires i < n <= sample.Length && Settled(sample[..n], i)
    modifies sample
    ensures Settled(sample[..n], i) && MaxAt(sample[..n], i) && multiset(sample[..n]) == multiset(old(sample[..n]))
  {
    hide Settled, MaxAt;
    LastSettled(sample[..n]);
    for j := 0 to i
      invariant Settled(sample[..n], i) && MaxAt(sample[..n], j) && multiset(sample[..n]) == multiset(old(sample[..n]))
    {
      ghost var s := sample[..n];
      ComparedKeeps(s, j, i);
      if sample[j + 1] < sample[j] {
        sample[j], sample[j + 1] := sample[j + 1], sample[j];
        assert sample[..n] == Swapped(s, j);
      }
      assert sample[..n] == Compared(s, j);
    }
  }

  predicate IsMasterClock(clock: nat)
  {
    clock in {10 * CLOCK_1X, 8 * CLOCK_1X, 4 * CLOCK_1X, 5 * CLOCK_1X / 3, CLOCK_1X}
  }

  /** Half-bits per second that divisor `d` yields. */
  function Rate(clock: nat, d: nat): nat
    requires d > 0
  {
    DivNonNegative(clock, 8 * d);
    clock / (8 * d)
  }

  function Error(clock: nat, baud: nat, d: nat): nat
    requires d > 0
  {
    var r := Rate(clock, d);
    if r >= baud then r - baud else baud - r
  }

  lemma {:induction false} QuotientAtLeast(n: nat, a: nat, q: nat)
    requires a > 0 && a * q <= n
    ensures q <= n / a
  {
    var p := n / a;
    assert n == a * p + n % a;
    if p < q {
      MulMonotone(a, p + 1, q);
    }
  }

  lemma {:induction false} QuotientBelow(n: nat, a: nat, q: nat)
    requires a > 0 && n < a * q
    ensures n / a < q
  {
    var p := n / a;
    assert n == a * p + n % a;
    if q <= p {
      MulMonotone(a, q, p);
    }
  }

  lemma {:induction false} RateAntitone(clock: nat, a: nat, b: nat)
    requires 0 < a <= b
    ensures Rate(clock, b) <= Rate(clock, a)
  {
    var q := Rate(clock, b);
    assert clock == (8 * b) * q + clock % (8 * b);
    MulMonotone(q, 8 * a, 8 * b);
    QuotientAtLeast(clock, 8 * a, q);
  }

  /** The truncated quotient and its successor bracket the wanted rate. */
  lemma {:induction false} Bracket(clock: nat, baud: nat)
    requires 0 < baud && 8 * baud <= clock
    ensures var d := clock / (8 * baud);
            d >= 1 && Rate(clock, d) >= baud && Rate(clock, d + 1) <= baud
  {
    var d := clock / (8 * baud);
    QuotientAtLeast(clock, 8 * baud, 1);
    assert clock == (8 * baud) * d + clock % (8 * baud);
    assert (8 * baud) * d == (8 * d) * baud;
    QuotientAtLeast(clock, 8 * d, baud);
    assert (8 * baud) * d + 8 * baud == (8 * (d + 1)) * baud;
    QuotientBelow(clock, 8 * (d + 1), baud);
  }

  /** The better of the two bracketing divisors is the best of all. */
  lemma {:induction false} BetterOfTwoIsBest(clock: nat, baud: nat, d: nat, other: nat)
    requires d > 0 && other > 0 && Rate(clock, d) >= baud && Rate(clock, d + 1) <= baud
    ensures Error(clock, baud, d) <= Error(clock, baud, other) || Error(clock, baud, d + 1) <= Error(clock, baud, other)
  {
    if other <= d {
      RateAntitone(clock, other, d);
    } else {
      RateAntitone(clock, d + 1, other);
    }
  }

  /** Every clock and every constrained rate give a divisor that fits the registers. */
  lemma {:induction false} QuotientRange(clock: nat, baud: nat)
    requires IsMasterClock(clock) && MIN_BAUD <= baud <= MAX_BAUD
    ensures 8 * baud <= clock && 1 <= clock / (8 * baud) <= 23040
  {
    QuotientAtLeast(clock, 8 * baud, 1);
    QuotientBelow(clock, 8 * baud, 23041);
  }

  class Uart {
    var baudRate: nat
    var masterClock: nat
    var divisor: nat
    // the chip: the divisor registers share their addresses with data and interrupt enable
    var divisorLsb: Byte
    var divisorMsb: Byte
    var data: Byte
    var irqEnable: Byte
    var lineControl: Byte

    /** Infer the clock from the times of looped-back bytes; `sorted` are the same times in order, of which
        the middle one counts. */
    method DetermineMasterClock(sample: array<nat>, samples: nat) returns (ghost sorted: seq<nat>)
      requires samples <= sample.Length
      modifies this`masterClock, sample
      ensures |sorted| == samples && multiset(sorted) == multiset(old(sample[..samples]))
      ensures samples >= 3 ==> Settled(sorted, 0) && masterClock == MasterClock(samples, sorted[samples / 2])
      ensures samples < 3 ==> masterClock == CLOCK_1X
      ensures IsMasterClock(masterClock)
    {
      sorted := sample[..samples];
      if samples < 3 {
        masterClock := CLOCK_1X;
        return;
      }
      BubbleSort(sample, samples);
      sorted := sample[..samples];
      masterClock := MasterClock(samples, sample[samples / 2]);
    }

    method Outb(reg: nat, val: Byte)
      requires reg in {0, 1, 3}
      modifies this
      ensures reg == 3 ==> lineControl == val && unchanged(`divisorLsb, `divisorMsb, `data, `irqEnable)
      ensures reg == 0 && DivisorAccess(old(lineControl)) ==>
                divisorLsb == val && unchanged(`divisorMsb, `data, `irqEnable, `lineControl)
      ensures reg == 1 && DivisorAccess(old(lineControl)) ==>
                divisorMsb == val && unchanged(`divisorLsb, `data, `irqEnable, `lineControl)
      ensures unchanged(`baudRate, `masterClock, `divisor)
    {
      if reg == 3 {
        lineControl := val;
      } else if reg == 0 {
        if DivisorAccess(lineControl) { divisorLsb := val; } else { data := val; }
      } else {
        if DivisorAccess(lineControl) { divisorMsb := val; } else { irqEnable := val; }
      }
    }

    method Inb(reg: nat) returns (val: Byte)
      requires reg in {0, 1, 3}
      ensures reg == 3 ==> val == lineControl
      ensures reg == 0 ==> val == if DivisorAccess(lineControl) then divisorLsb else data
      ensures reg == 1 ==> val == if DivisorAccess(lineControl) then divisorMsb else irqEnable
    {
      val := if reg == 3 then lineControl
             else if reg == 0 then (if DivisorAccess(lineControl) then divisorLsb else data)
             else if DivisorAccess(lineControl) then divisorMsb else irqEnable;
    }

    /** Write the divisor registers and leave every other register as it was. */
    method SetDivisor(div: nat)
      modifies this
      ensures divisorLsb == Constrain(1, div, 0xffff) % 256
      ensures divisorMsb == Constrain(1, div, 0xffff) % 0xff00 / 256
      ensures unchanged(`data, `irqEnable, `lineControl, `baudRate, `masterClock, `divisor)
    {
      var d := Constrain(1, div, 0xffff);
      var lcr := Inb(3);
      AccessBit(lcr);
      Outb(3, Or(lcr, 0x80));
      Outb(0, d % 256);
      Outb(1, d % 0xff00 / 256);
      Outb(3, lcr);
    }

    method GetDivisor() returns (div: nat)
      modifies this
      ensures div == Or(divisorLsb, Shl(divisorMsb, 8))
      ensures unchanged(`divisorLsb, `divisorMsb, `data, `irqEnable, `lineControl, `baudRate, `masterClock, `divisor)
    {
      var lcr := Inb(3);
      AccessBit(lcr);
      Outb(3, Or(lcr, 0x80));
      var lsb := Inb(0);
      var msb := Inb(1);
      div := Or(lsb, Shl(msb, 8));
      Outb(3, lcr);
    }

    /** Writing a divisor and reading it back: it survives exactly below 0xff00, because the
        high byte is taken modulo 0xff00. */
    method WriteReadBack(div: nat) returns (back: nat)
      modifies this
      ensures back == Constrain(1, div, 0xffff) <==> Constrain(1, div, 0xffff) < 0xff00
    {
      SetDivisor(div);
      back := GetDivisor();
      ReadBack(Constrain(1, div, 0xffff));
    }

    /** The divisor part of programming the chip: no divisor in the register's range comes
        closer to the wanted rate, and the registers hold the one chosen. */
    method ProgramDivisor()
      requires IsMasterClock(masterClock)
      modifies this
      ensures baudRate == Constrain(MIN_BAUD, old(baudRate), MAX_BAUD) && masterClock == old(masterClock)
      ensures 1 <= divisor <= 23041
      ensures forall d :: 1 <= d <= 0xffff ==> Error(masterClock, baudRate, divisor) <= Error(masterClock, baudRate, d)
      ensures divisor != old(divisor) ==> Or(divisorLsb, Shl(divisorMsb, 8)) == divisor
      ensures divisor == old(divisor) ==> divisorLsb == old(divisorLsb) && divisorMsb == old(divisorMsb)
      ensures unchanged(`data, `irqEnable, `lineControl)
    {
      hide Or;
      baudRate := Constrain(MIN_BAUD, baudRate, MAX_BAUD);
      var dlr := Choose(masterClock, baudRate);
      if dlr != divisor {
        divisor := dlr;
        SetDivisor(dlr);
        ReadBack(dlr);
      }
    }
  }

  predicate DivisorAccess(lcr: Byte) { And(lcr, 0x80) != 0 }

  /** The divisor registers are selected by the highest bit of the line control register. */
  lemma {:induction false} AccessIsHighBit(lcr: Byte)
    ensures DivisorAccess(lcr) <==> lcr >= 128
  {
    assert Pow2(7) == 128;
    hide And, Pow2;
    var top := lcr / 128;
    assert lcr == lcr % 128 + Shl(top, 7);
    LowHighDisjoint(lcr % 128, top, 7);
    OrDisjoint(lcr % 128, Shl(top, 7));
    AndOrDistributes(lcr % 128, Shl(top, 7), 128);
    assert Shl(1, 7) == 128;
    LowHighDisjoint(lcr % 128, 1, 7);
    AndShl(top, 1, 7);
    assert And(top, 1) == top by {
      OneOrNone(top);
    }
  }

  lemma {:induction false} OneOrNone(top: nat)
    requires top < 2
    ensures And(top, 1) == top
  {
  }

  method Choose(clock: nat, baud: nat) returns (dlr: nat)
    requires IsMasterClock(clock) && MIN_BAUD <= baud <= MAX_BAUD
    ensures 1 <= dlr <= 23041
    ensures forall d :: 1 <= d <= 0xffff ==> Error(clock, baud, dlr) <= Error(clock, baud, d)
  {
    hide Rate;
    QuotientRange(clock, baud);
    Bracket(clock, baud);
    dlr := clock / (baud * 8) % 0x1_0000;
    ghost var low := dlr;
    var errLo := Rate(clock, dlr) - baud;
    var errHi := baud - Rate(clock, dlr + 1);
    if errLo > errHi {
      dlr := dlr + 1;
    }
    forall d | 1 <= d <= 0xffff ensures Error(clock, baud, dlr) <= Error(clock, baud, d) {
      BetterOfTwoIsBest(clock, baud, low, d);
    }
  }

  lemma {:induction false} AccessBit(lcr: Byte)
    ensures Or(lcr, 0x80) < 256 && And(Or(lcr, 0x80), 0x80) == 0x80
  {
    hide And, Or;
    assert Pow2(7) == 0x80 && Pow2(8) == 256;
    AndOrDistributes(lcr, Pow2(7), Pow2(7));
    AndSame(Pow2(7));
    OneBit(lcr, 7);
    OrBound(lcr, 0x80, 8);
  }

  /** Or of two words below 2^w stays below 2^w. */
  lemma {:induction false} OrBound(x: nat, y: nat, w: nat)
    requires x < Pow2(w) && y < Pow2(w)
    ensures Or(x, y) < Pow2(w)
  {
    if w > 0 {
      OrStep(x, y);
      OrBound(x / 2, y / 2, w - 1);
    }
  }

  lemma {:induction false} OneBit(x: nat, k: nat)
    ensures And(x, Pow2(k)) == 0 || And(x, Pow2(k)) == Pow2(k)
    ensures Or(And(x, Pow2(k)), Pow2(k)) == Pow2(k)
  {
    if k == 0 {
      AndStep(x, 1);
      AndZero(x / 2);
    } else {
      OneBit(x / 2, k - 1);
      AndStep(x, Pow2(k));
      OrStep(And(x, Pow2(k)), Pow2(k));
    }
  }

  lemma {:induction false} ReadBack(d: nat)
    requires 1 <= d <= 0xffff
    ensures Or(d % 256, Shl(d % 0xff00 / 256, 8)) == d <==> d < 0xff00
  {
    hide Or;
    assert Pow2(8) == 256;
    LowHigh(d % 256, d % 0xff00 / 256);
  }

  lemma {:induction false} LowHigh(lo: Byte, hi: nat)
    ensures Or(lo, Shl(hi, 8)) == lo + 256 * hi
  {
    hide Or, And;
    assert Pow2(8) == 256;
    LowHighDisjoint(lo, hi, 8);
    OrDisjoint(lo, Shl(hi, 8));
  }
}
