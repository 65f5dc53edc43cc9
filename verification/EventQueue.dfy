/** The driver's event queue: a ring of 16-bit words updated in place, with water marks. */
module EventQueue {
  import opened Bits
  import opened Memory
  import opened SerialMacros
  import opened EventFifo

  const BIGGEST_EVENT := 3
  const QUEUE_SIZE_MINIMUM := 64
  const QUEUE_SIZE_MAXIMUM := 32768

  datatype Band = Empty | Low | Medium | High | Full

  /** Unsigned 32-bit subtraction. */
  function Sub32(a: nat, b: nat): nat
    requires a < 0x1_0000_0000 && b < 0x1_0000_0000
  {
    if b <= a then a - b else a + 0x1_0000_0000 - b
  }

  /** `n` words of a ring from index `from` on, across the wrap. */
  function RingWords(ring: seq<Word>, from: nat, n: nat): (ws: seq<Word>)
    requires n <= |ring| && (from < |ring| || from == n == 0)
    ensures |ws| == n
  {
    if from + n <= |ring| then ring[from..from + n] else ring[from..] + ring[..from + n - |ring|]
  }

  /** The band of a fill level between the marks. */
  function BandOf(count: nat, low: nat, high: nat, size: nat, overRun: bool): Band
  {
    if count < low then (if count == 0 then Empty else Low)
    else if count > high then (if !overRun && count < size then High else Full)
    else Medium
  }

  /** Marks that leave room for the biggest event on every side. */
  predicate MarksOk(low: nat, high: nat, size: nat)
  {
    BIGGEST_EVENT <= low && low + BIGGEST_EVENT <= high && high + BIGGEST_EVENT <= size
  }

  class Queue {
    const p: Protocol
    var highWater: nat
    var lowWater: nat
    var size: nat
    var count: nat
    var enqueueIndex: nat
    var dequeueIndex: nat
    var enqueueThreshold: nat
    var dequeueThreshold: nat
    var words: array<Word>
    var overRun: bool
    ghost var events: seq<Event>

    /** The ring is well formed: both indices inside, `count` words apart. */
    ghost predicate Ring()
      reads this
    {
      && p.Valid()
      && words.Length == size && count <= size && (size == 0 || QUEUE_SIZE_MINIMUM <= size <= QUEUE_SIZE_MAXIMUM)
      && (size == 0 ==> enqueueIndex == dequeueIndex == 0)
      && (size > 0 ==> enqueueIndex < size && dequeueIndex < size)
      && (dequeueIndex + count == enqueueIndex || dequeueIndex + count == enqueueIndex + size)
    }

    /** The queued words, oldest first, across the wrap. */
    ghost function Contents(): (ws: seq<Word>)
      requires Ring()
      reads this, words
      ensures |ws| == count
    {
      RingWords(words[..], dequeueIndex, count)
    }

    /** The words are exactly those of the queued events. */
    ghost predicate Valid()
      reads this, words
    {
      && Ring()
      && Contents() == AllWords(p, events)
      && forall i :: 0 <= i < |events| ==> Stored(p, events[i]) == events[i]
    }

    /** The abstract queue this object stands for. */
    ghost function Model(): Fifo
      reads this
    {
      Fifo(size, events, overRun)
    }

    constructor (protocol: Protocol)
      requires protocol.Valid()
      ensures p == protocol && Valid() && Model() == Fifo(0, [], false) && fresh(words)
    {
      p := protocol;
      words := new Word[0];
      highWater, lowWater, size, count := 0, 0, 0, 0;
      enqueueIndex, dequeueIndex, enqueueThreshold, dequeueThreshold := 0, 0, 0, 0;
      overRun := false;
      events := [];
    }

    // ----- words -------------------------------------------------------------------

    method PushWord(data: Word)
      requires Ring() && count < size
      modifies this`enqueueIndex, this`count, words
      ensures Ring() && Contents() == old(Contents()) + [data] && count == old(count) + 1
    {
      hide AllWords, Stored;
      RingPush(words[..], dequeueIndex, count, enqueueIndex, data);
      words[enqueueIndex] := data;
      enqueueIndex := enqueueIndex + 1;
      if enqueueIndex >= size {
        enqueueIndex := 0;
      }
      count := count + 1;
      assert words[..] == old(words[..])[old(enqueueIndex) := data];
    }

    method PullWord() returns (data: Word)
      requires Ring() && count > 0
      modifies this`dequeueIndex, this`count
      ensures Ring() && old(Contents()) == [data] + Contents() && count == old(count) - 1
    {
      hide AllWords, Stored;
      RingPull(words[..], dequeueIndex, count);
      data := words[dequeueIndex];
      dequeueIndex := dequeueIndex + 1;
      if dequeueIndex >= size {
        dequeueIndex := 0;
      }
      count := count - 1;
    }

    // ----- events ------------------------------------------------------------------

    /** Queue the event if it fits and no loss is pending; no loss is recorded here. */
    method EnqueueEventTry(event: Byte, data: nat) returns (ok: bool)
      requires Valid() && data < 0x1_0000_0000
      modifies this`enqueueIndex, this`count, this`events, words
      ensures Valid()
      ensures ok == Accepts(p, old(Model()), event)
      ensures ok <==> !overRun && old(count) + (if p.sizeCode(event) == 0 then 1 else p.sizeCode(event)) <= size
      ensures count == old(count) + if !ok then 0 else if p.sizeCode(event) == 0 then 1 else p.sizeCode(event)
      ensures events == if ok then old(events) + [Stored(p, Event(event, data))] else old(events)
    {
      hide HeadWord, AllWords, RingWords, ToWords, Stored;
      var n := p.sizeCode(event);
      if overRun || size - count < (if n != 0 then n else 1) {
        return false;
      }
      ghost var before := Contents();
      ghost var e := Stored(p, Event(event, data));
      StoredWords(p, Event(event, data));
      PushWord(HeadWord(event, data));
      if n > 1 {
        PushWord(data % 0x1_0000);
        if n > 2 {
          PushWord(data / 0x1_0000);
        }
      }
      assert Contents() == before + ToWords(p, e);
      AllWordsAppend(p, events, e);
      events := events + [e];
      ok := true;
    }

    /** Queue the event, or drop it and establish the overrun condition. */
    method EnqueueEvent(event: Byte, data: nat)
      requires Valid() && data < 0x1_0000_0000
      modifies this`enqueueIndex, this`count, this`events, this`overRun, words
      ensures Valid() && Model() == Enqueue(p, old(Model()), Event(event, data))
      ensures overRun <==>
          old(overRun) || old(count) + (if p.sizeCode(event) == 0 then 1 else p.sizeCode(event)) > size
    {
      hide AllWords, Stored, RingWords;
      var ok := EnqueueEventTry(event, data);
      overRun := !ok;
    }

    /** Take the words of the oldest event; `data` is what they carry, whatever the size code. */
    method PullEvent() returns (event: Byte, data: nat)
      requires Valid() && count > 0
      modifies this`dequeueIndex, this`count, this`events
      ensures Valid() && old(events) != [] && events == old(events)[1..] && count < old(count)
      ensures event == old(events)[0].code
      ensures p.sizeCode(event) != 0 ==> Event(event, data) == Seen(p, old(events)[0])
    {
      hide HeadWord, AllWords, ToWords, Stored, Seen, RingWords, And, Or, Shl, Shr;
      NonEmptyWords(p, events);
      ghost var e := events[0];
      HeadOfWords(p, events);
      assert Stored(p, e) == e;
      ghost var ws, rest := ToWords(p, e), AllWords(p, events[1..]);
      DequeuedData(p, e);
      var word := PullWord();
      PulledFrom(word, Contents(), ws, rest);
      data := Shr(word, 8);
      HeadWordSplit(e.code, e.data);
      event := EventCode(word);
      var n := p.sizeCode(event);
      if n > 1 {
        data := PullWord();
        PulledFrom(data, Contents(), ws[1..], rest);
        if n > 2 {
          var hi := PullWord();
          PulledFrom(hi, Contents(), ws[1..][1..], rest);
          data := Or(data, Shl(hi, 16));
        }
      }
      assert Contents() == rest;
      events := events[1..];
    }

    /** Take the oldest event; a pending loss gets its marker into the room just made. */
    method DequeueEvent() returns (event: Byte, data: nat)
      requires Valid()
      modifies this`enqueueIndex, this`dequeueIndex, this`count, this`events, this`overRun, words
      ensures Valid() && Model() == Dequeue(p, old(Model()))
      ensures old(events) == [] ==> event == p.eoq
      ensures old(events) != [] ==> Event(event, data) == Seen(p, old(events)[0])
      ensures old(events) != [] ==>
          && events == old(events)[1..] + (if old(overRun) then [Event(p.overrun, 0)] else []) && !overRun
          && event == old(events)[0].code
      ensures old(events) != [] ==> data == if p.sizeCode(event) == 0 then 0 else old(events)[0].data
    {
      hide HeadWord, AllWords, ToWords, Stored, RingWords;
      data := 0;
      if count > 0 {
        NonEmptyWords(p, events);
        assert Stored(p, events[0]) == events[0];
        var d;
        event, d := PullEvent();
        if overRun {
          MarkerWords(p);
          AllWordsAppend(p, events, Marker(p));
          PushWord(p.overrun);
          events := events + [Marker(p)];
          overRun := false;
        }
        if p.sizeCode(event) != 0 {
          data := d;
        }
      } else {
        EmptyWords(p, events);
        event := p.eoq;
      }
    }

    /** Where the first word of queued event `k` lies in the ring. */
    ghost function IndexOf(k: nat): nat
      requires p.Valid() && k <= |events|
      reads this
    {
      Wrap(dequeueIndex + |AllWords(p, events[..k])|, size)
    }

    lemma {:induction false} StartAt()
      requires Valid() && size > 0
      ensures IndexOf(0) == dequeueIndex
    {
      hide RingWords, Stored;
      assert events[..0] == [];
    }

    lemma {:induction false} CodeAt(k: nat)
      requires Valid() && k < |events|
      ensures IndexOf(k) < size && EventCode(words[IndexOf(k)]) == events[k].code
    {
      hide HeadWord, AllWords, RingWords, Stored, And;
      HeadAt(p, events, k);
      RingWordAt(words[..], dequeueIndex, count, |AllWords(p, events[..k])|);
      HeadWordSplit(events[k].code, events[k].data);
    }

    lemma {:induction false} NextAt(k: nat)
      requires Valid() && k < |events|
      ensures IndexOf(k + 1) == Wrap(IndexOf(k) + p.Words(events[k].code), size) < size
      ensures k + 1 < |events| ==> IndexOf(k + 1) != dequeueIndex
    {
      hide HeadWord, AllWords, RingWords, Stored;
      NextHead(p, events, k);
      HeadAt(p, events, k);
      if k + 1 < |events| {
        HeadAt(p, events, k + 1);
      } else {
        assert events[..k + 1] == events;
      }
    }

    /** After the last event the walk is where the next word will go; on a full ring that is its start. */
    lemma {:induction false} EndAt()
      requires Valid() && count > 0
      ensures IndexOf(|events|) == enqueueIndex && (IndexOf(|events|) == dequeueIndex <==> count == size)
    {
      hide HeadWord, AllWords, RingWords, Stored;
      assert events[..|events|] == events;
    }

    /** The code `depth` events ahead. Past the last event it is the empty code on a full ring and at depths
        of at least the number of words; else the walk goes on over stale words as if they were events. */
    method PeekEvent(depth: nat) returns (event: Byte)
      requires Valid()
      ensures depth < |events| ==> event == events[depth].code
      ensures depth >= count || (depth >= |events| && count == size) ==> event == p.eoq
      ensures depth == |events| < count < size ==> event == EventCode(words[enqueueIndex])
      ensures depth < count ==> event == Walked(p, words[..], dequeueIndex, dequeueIndex, depth)
    {
      hide AllWords, EventCode, Stored, Wrap, RingWords;
      if depth >= count {
        assert |AllWords(p, events)| >= |events|;
        return p.eoq;
      }
      NonEmptyWords(p, events);
      EndAt();
      var tmp: nat, left: nat := dequeueIndex, depth;
      StartAt();
      while true
        invariant tmp < size && 0 <= left <= depth
        invariant depth - left <= |events| ==> tmp == IndexOf(depth - left)
        invariant count == size ==> depth - left < |events|
        invariant Walked(p, words[..], dequeueIndex, tmp, left) ==
            Walked(p, words[..], dequeueIndex, dequeueIndex, depth)
        decreases left
      {
        if depth - left < |events| {
          CodeAt(depth - left);
          NextAt(depth - left);
        }
        event := EventCode(words[tmp]);
        if left == 0 {
          return event;
        }
        left := left - 1;
        WrapInside(tmp, p.Words(event), size);
        tmp := Wrap(tmp + p.Words(event), size);
        if tmp == dequeueIndex {
          return p.eoq;
        }
      }
    }

    // ----- fill level --------------------------------------------------------------

    /** Report the band and set the levels at which it has to be looked at again. */
    method GetState() returns (status: Band)
      requires Valid() && lowWater < 0x1_0000_0000 && highWater < 0x1_0000_0000
      modifies this`enqueueThreshold, this`dequeueThreshold
      ensures status == BandOf(count, lowWater, highWater, size, overRun)
      ensures status == Empty <==> count == 0 < lowWater
      ensures status == Low <==> 0 < count < lowWater
      ensures status == Full <==> lowWater <= count && highWater < count && (overRun || count == size)
      ensures status == High <==> lowWater <= count && highWater < count < size && !overRun
      ensures (enqueueThreshold, dequeueThreshold) == Thresholds(status, count, lowWater, highWater, size)
      ensures Valid()
    {
      hide AllWords, RingWords, Stored;
      if count < lowWater {
        dequeueThreshold := 1;
        if count == 0 {
          status := Empty;
          enqueueThreshold := 0;
        } else {
          status := Low;
          enqueueThreshold := Sub32(lowWater, 1);
        }
      } else if count > highWater {
        enqueueThreshold := Sub32(size, BIGGEST_EVENT);
        if !overRun && count < size {
          status := High;
          dequeueThreshold := highWater;
        } else {
          status := Full;
          dequeueThreshold := count;
        }
      } else {
        status := Medium;
        enqueueThreshold := Sub32(highWater, 1);
        dequeueThreshold := lowWater;
      }
    }

    method Flush()
      requires p.Valid() && words.Length == size && (size == 0 || QUEUE_SIZE_MINIMUM <= size <= QUEUE_SIZE_MAXIMUM)
      modifies this`enqueueIndex, this`dequeueIndex, this`count, this`enqueueThreshold, this`dequeueThreshold,
               this`overRun, this`events
      ensures Valid() && Model() == Fifo(size, [], false)
      ensures enqueueThreshold == 0 && dequeueThreshold == (if size == 0 then 0 else 1)
    {
      enqueueIndex, dequeueIndex, count, enqueueThreshold := 0, 0, 0, 0;
      dequeueThreshold := if size < 1 then size else 1;
      overRun := false;
      events := [];
    }

    method SetLowWater(low: nat)
      requires Valid() && low < 0x1_0000_0000 && highWater < 0x1_0000_0000 && lowWater < 0x1_0000_0000
      modifies this`lowWater, this`highWater, this`enqueueThreshold, this`dequeueThreshold
      ensures Valid() && lowWater < 0x1_0000_0000 && highWater < 0x1_0000_0000
      ensures lowWater == Constrain(BIGGEST_EVENT, if low == 0 then size / 3 else low, Sub32(size, BIGGEST_EVENT * 2))
      ensures highWater == if lowWater + BIGGEST_EVENT > old(highWater) then lowWater + BIGGEST_EVENT
          else old(highWater)
      ensures size > 0 && MarksOk(old(lowWater), old(highWater), size) ==> MarksOk(lowWater, highWater, size)
    {
      hide AllWords, RingWords, Stored;
      var want := if low == 0 then size / 3 else low;
      lowWater := Constrain(BIGGEST_EVENT, want, Sub32(size, BIGGEST_EVENT * 2));
      if lowWater + BIGGEST_EVENT > highWater {
        highWater := lowWater + BIGGEST_EVENT;
      }
      var _ := GetState();
    }

    method SetHighWater(high: nat)
      requires Valid() && high < 0x1_0000_0000 && highWater < 0x1_0000_0000 && lowWater < 0x1_0000_0000
      modifies this`lowWater, this`highWater, this`enqueueThreshold, this`dequeueThreshold
      ensures Valid() && lowWater < 0x1_0000_0000 && highWater < 0x1_0000_0000
      ensures highWater == Constrain(BIGGEST_EVENT * 2, if high == 0 then size * 2 / 3 else high,
                                     Sub32(size, BIGGEST_EVENT))
      ensures lowWater == if old(lowWater) < highWater - BIGGEST_EVENT then old(lowWater) else highWater - BIGGEST_EVENT
      ensures size > 0 && BIGGEST_EVENT <= old(lowWater) ==> MarksOk(lowWater, highWater, size)
    {
      hide AllWords, RingWords, Stored;
      var want := if high == 0 then size * 2 / 3 else high;
      highWater := Constrain(BIGGEST_EVENT * 2, want, Sub32(size, BIGGEST_EVENT));
      if highWater - BIGGEST_EVENT < lowWater {
        lowWater := highWater - BIGGEST_EVENT;
      }
      var _ := GetState();
    }

    /** Resize and empty the queue; a non-zero size also resets both marks. */
    method SetSize(newSize: nat)
      requires Valid() && newSize < 0x1_0000_0000 && highWater < 0x1_0000_0000 && lowWater < 0x1_0000_0000
      modifies this
      ensures Valid() && lowWater < 0x1_0000_0000 && highWater < 0x1_0000_0000
      ensures Model() == Fifo(if newSize == 0 then 0 else Constrain(QUEUE_SIZE_MINIMUM, newSize, QUEUE_SIZE_MAXIMUM),
                              [], false)
      ensures newSize > 0 ==> MarksOk(lowWater, highWater, size)
      ensures lowWater == size / 3 && highWater == size * 2 / 3
      ensures words == old(words) || fresh(words)
    {
      hide AllWords, RingWords, Stored;
      if newSize > 0 {
        if newSize != size {
          size := Constrain(QUEUE_SIZE_MINIMUM, newSize, QUEUE_SIZE_MAXIMUM);
          words := new Word[size];
        }
        Flush();
        SetLowWater(0);
        SetHighWater(0);
      } else {
        words := new Word[0];
        highWater, lowWater, size := 0, 0, 0;
        Flush();
      }
    }
  }

  /** The levels `GetState` leaves behind for a band. */
  function Thresholds(band: Band, count: nat, low: nat, high: nat, size: nat): (nat, nat)
    requires low < 0x1_0000_0000 && high < 0x1_0000_0000 && size < 0x1_0000_0000
  {
    match band
    case Empty => (0, 1)
    case Low => (Sub32(low, 1), 1)
    case Medium => (Sub32(high, 1), low)
    case High => (Sub32(size, BIGGEST_EVENT), high)
    case Full => (Sub32(size, BIGGEST_EVENT), count)
  }

  /** While neither threshold fires, the band last reported is still the current one, with a
      single exception: High is kept when the level is back at the high water mark. */
  lemma {:induction false} QuietBand(reported: nat, now: nat, low: nat, high: nat, size: nat)
    requires MarksOk(low, high, size) && size <= QUEUE_SIZE_MAXIMUM && reported <= size && now <= size
    ensures var band := BandOf(reported, low, high, size, false);
            var t := Thresholds(band, reported, low, high, size);
            !(now > t.0) && !(now < t.1) ==>
              (BandOf(now, low, high, size, false) == band <==> !(band == High && now == high))
  {
  }

  /** `word & 0xff` */
  function EventCode(word: Word): Byte
  {
    assert Pow2(8) == 256;
    AndLowMask(word, 8);
    And(word, 0xff)
  }

  function Wrap(i: nat, size: nat): nat
  {
    if i >= size then i - size else i
  }

  /** The code found `left` steps from `tmp` on, each step skipping the words its code says; the empty code
      on coming back to `start`. */
  function Walked(p: Protocol, ring: seq<Word>, start: nat, tmp: nat, left: nat): Byte
    requires p.Valid() && tmp < |ring| && |ring| >= 3
    decreases left
  {
    var event := EventCode(ring[tmp]);
    WrapInside(tmp, p.Words(event), |ring|);
    var next := Wrap(tmp + p.Words(event), |ring|);
    if left == 0 then event else if next == start then p.eoq else Walked(p, ring, start, next, left - 1)
  }

  lemma {:induction false} WrapInside(i: nat, n: nat, size: nat)
    requires i < size && n <= size
    ensures Wrap(i + n, size) < size
  {
  }

  lemma {:induction false} RingPush(ring: seq<Word>, from: nat, n: nat, end: nat, data: Word)
    requires n < |ring| && from < |ring| && end == Wrap(from + n, |ring|)
    ensures RingWords(ring[end := data], from, n + 1) == RingWords(ring, from, n) + [data]
  {
  }

  lemma {:induction false} RingPull(ring: seq<Word>, from: nat, n: nat)
    requires 0 < n <= |ring| && from < |ring|
    ensures RingWords(ring, from, n) == [ring[from]] + RingWords(ring, Wrap(from + 1, |ring|), n - 1)
  {
  }

  lemma {:induction false} RingWordAt(ring: seq<Word>, from: nat, n: nat, k: nat)
    requires n <= |ring| && from < |ring| && k < n
    ensures RingWords(ring, from, n)[k] == ring[Wrap(from + k, |ring|)]
  {
  }

  /** Event `k` starts at the word right after the words of the events before it. */
  lemma {:induction false} HeadAt(p: Protocol, es: seq<Event>, k: nat)
    requires p.Valid() && k < |es|
    ensures var pos := |AllWords(p, es[..k])|;
            pos < |AllWords(p, es)| && AllWords(p, es)[pos] == HeadWord(es[k].code, es[k].data)
  {
    hide HeadWord;
    if k == 0 {
      assert es[..0] == [];
    } else {
      HeadAt(p, es[1..], k - 1);
      assert es[..k][1..] == es[1..][..k - 1];
      assert es[1..][k - 1] == es[k];
    }
  }

  lemma {:induction false} NextHead(p: Protocol, es: seq<Event>, k: nat)
    requires p.Valid() && k < |es|
    ensures |AllWords(p, es[..k + 1])| == |AllWords(p, es[..k])| + p.Words(es[k].code)
  {
    hide HeadWord;
    assert es[..k + 1] == es[..k] + [es[k]];
    AllWordsAppend(p, es[..k], es[k]);
  }

  /** Truncation to the size class does not change the words pushed. */
  lemma {:induction false} StoredWords(p: Protocol, e: Event)
    requires p.Valid() && e.data < 0x1_0000_0000
    ensures var s := Stored(p, e);
            && Stored(p, s) == s
            && ToWords(p, s) == [HeadWord(e.code, e.data)]
                 + (if p.sizeCode(e.code) > 1 then [e.data % 0x1_0000] else [])
                 + (if p.sizeCode(e.code) > 2 then [e.data / 0x1_0000] else [])
  {
    hide HeadWord;
    assert Stored(p, e).data % 256 == e.data % 256;
    HeadWordValue(e.code, e.data);
    HeadWordValue(e.code, Stored(p, e).data);
  }

  lemma {:induction false} PulledFrom(data: Word, left: seq<Word>, ws: seq<Word>, rest: seq<Word>)
    requires ws != [] && [data] + left == ws + rest
    ensures data == ws[0] && left == ws[1..] + rest
  {
    assert ([data] + left)[0] == (ws + rest)[0];
    assert ([data] + left)[1..] == (ws + rest)[1..];
  }

  lemma {:induction false} EmptyWords(p: Protocol, es: seq<Event>)
    requires p.Valid() && AllWords(p, es) == []
    ensures es == []
  {
  }

  lemma {:induction false} NonEmptyWords(p: Protocol, es: seq<Event>)
    requires p.Valid() && |AllWords(p, es)| > 0
    ensures es != []
  {
  }

  lemma {:induction false} HeadOfWords(p: Protocol, es: seq<Event>)
    requires p.Valid() && es != []
    ensures AllWords(p, es) == ToWords(p, es[0]) + AllWords(p, es[1..])
    ensures AllWords(p, es)[0] == HeadWord(es[0].code, es[0].data)
  {
    hide HeadWord;
  }

  lemma {:induction false} MarkerWords(p: Protocol)
    requires p.Valid()
    ensures ToWords(p, Marker(p)) == [p.overrun] && Stored(p, Marker(p)) == Marker(p)
  {
    hide HeadWord;
    HeadWordValue(p.overrun, 0);
  }

  /** What `DequeueEvent` assembles from the words of an event is its data. */
  lemma {:induction false} DequeuedData(p: Protocol, e: Event)
    requires p.Valid() && Stored(p, e) == e
    ensures var ws, n := ToWords(p, e), p.sizeCode(e.code);
            && (n == 0 ==> Seen(p, e) == Event(e.code, 0))
            && (n == 1 ==> Seen(p, e) == Event(e.code, e.data % 256))
            && (n == 2 ==> |ws| == 2 && Seen(p, e) == Event(e.code, ws[1]))
            && (n == 3 ==> |ws| == 3 && Seen(p, e) == Event(e.code, Or(ws[1], Shl(ws[2], 16))))
  {
    hide HeadWord, Or, Shl;
    if p.sizeCode(e.code) == 3 {
      LongData(e.data);
    }
  }
}
