/** The shared-memory ring of communication records.

    Several training processes push records under a lock; the local controller clears the ring and
    iterates over it.  The ring is an array of 64-bit words: seven words of metadata, then one group of
    `numFields` words per record slot. */
module RecordRing {
  import opened Wrappers

  const TWO64: int := 0x1_0000_0000_0000_0000
  const META: nat := 7
  const MAGIC: int := 0xdeadbeef

  type Word = w: int | 0 <= w < TWO64

  type Record = seq<Word>

  // ----- Layout -----

  function SlotStart(nf: nat, s: nat): nat {
    META + s * nf
  }

  lemma SlotsInOrder(nf: nat, s: nat, t: nat)
    requires s < t
    ensures SlotStart(nf, s) + nf <= SlotStart(nf, t)
  {
    assert t * nf == s * nf + (t - s) * nf;
    assert (t - s) * nf >= nf by {
      assert (t - s) * nf == nf + (t - s - 1) * nf;
    }
  }

  /** The words of the record in slot `s`. */
  function Slot(words: seq<Word>, nf: nat, max: nat, s: nat): (r: Record)
    requires s < max && |words| == SlotStart(nf, max)
    ensures |r| == nf
  {
    SlotsInOrder(nf, s, max);
    words[SlotStart(nf, s)..SlotStart(nf, s) + nf]
  }

  /** Reduction modulo the capacity for the indices the ring uses. */
  lemma Modulo(x: nat, m: nat)
    requires m > 0 && x < 2 * m
    ensures x % m == if x < m then x else x - m
  {
    if x >= m {
      assert x == m * 1 + (x - m);
    }
  }

  /** The words form a ring: sizes, a record count within capacity, and the position of the first free
      slot.  Before the ring has filled up, the first record is in slot 0. */
  ghost predicate IsRing(words: seq<Word>, nf: nat, max: nat) {
    && nf > 0 && max > 0 && |words| == SlotStart(nf, max)
    && words[0] == nf && words[1] == max
    && words[2] <= max && words[3] < max && words[4] == (words[3] as int + words[2] as int) % max
    && (words[2] < max ==> words[3] == 0)
    && words[5] == MAGIC
  }

  /** Slot of the `i`-th record. */
  function SlotOf(max: nat, head: nat, i: nat): (s: nat)
    requires max > 0
    ensures s < max
  {
    (head + i) % max
  }

  /** The records in the order in which iteration yields them. */
  ghost function Contents(words: seq<Word>, nf: nat, max: nat): (c: seq<Record>)
    requires IsRing(words, nf, max)
    ensures |c| == words[2]
  {
    seq(words[2], i requires 0 <= i < words[2] => Slot(words, nf, max, SlotOf(max, words[3], i)))
  }

  // ----- What a push and a clear do to the contents -----

  /** The event number goes into the last cell of the record. */
  function Stamp(r: Record, id: Word): Record
    requires |r| > 0
  {
    r[|r| - 1 := id]
  }

  /** `stored` is `record` with `id` in its last cell and everything else as it was. */
  ghost predicate IsNumbered(stored: Record, record: Record, id: int) {
    && |stored| == |record| > 0 && stored[|stored| - 1] == id
    && forall j :: 0 <= j < |record| - 1 ==> stored[j] == record[j]
  }

  lemma StampNumbers(record: Record, id: Word)
    requires |record| > 0
    ensures IsNumbered(Stamp(record, id), record, id)
  {
  }

  function Increment(id: Word): Word {
    (id + 1) % TWO64
  }

  /** The contents after a push: the oldest record makes room when the ring is full. */
  function Pushed(c: seq<Record>, r: Record, max: nat): seq<Record>
    requires max > 0
  {
    (if |c| == max then c[1..] else c) + [r]
  }

  /** The slot written by a push. */
  ghost predicate SlotWritten(words: seq<Word>, words': seq<Word>, nf: nat, max: nat, t: nat, r: Record) {
    && |words| == |words'| == SlotStart(nf, max) && t < max && |r| == nf
    && Slot(words', nf, max, t) == r
    && (forall s :: 0 <= s < max && s != t ==> Slot(words', nf, max, s) == Slot(words, nf, max, s))
  }

  /** Writing word by word from the start of slot `t` changes that slot only. */
  lemma CopyWritesSlot(words: seq<Word>, words': seq<Word>, nf: nat, max: nat, t: nat, r: Record)
    requires t < max && |words| == |words'| == SlotStart(nf, max) && |r| == nf
    requires SlotStart(nf, t) + nf <= |words|
    requires forall j :: 0 <= j < nf ==> words'[SlotStart(nf, t) + j] == r[j]
    requires forall i :: 0 <= i < |words| && !(SlotStart(nf, t) <= i < SlotStart(nf, t) + nf) ==> words'[i] == words[i]
    ensures SlotWritten(words, words', nf, max, t, r)
  {
    assert Slot(words', nf, max, t) == r;
    forall s | 0 <= s < max && s != t ensures Slot(words', nf, max, s) == Slot(words, nf, max, s) {
      if s < t {
        SlotsInOrder(nf, s, t);
      } else {
        SlotsInOrder(nf, t, s);
      }
      SlotsInOrder(nf, s, max);
    }
  }

  lemma SliceBeyondMeta(words: seq<Word>, lo: nat, hi: nat)
    requires META <= lo <= hi <= |words|
    ensures words[lo..hi] == words[META..][lo - META..hi - META]
  {
  }

  lemma SlotsIgnoreMetadata(words: seq<Word>, words': seq<Word>, nf: nat, max: nat, s: nat)
    requires s < max && |words| == |words'| == SlotStart(nf, max)
    requires words[META..] == words'[META..]
    ensures Slot(words', nf, max, s) == Slot(words, nf, max, s)
  {
    SlotsInOrder(nf, s, max);
    var lo := SlotStart(nf, s);
    SliceBeyondMeta(words, lo, lo + nf);
    SliceBeyondMeta(words', lo, lo + nf);
  }

  /** The metadata words after a push that found `words`. */
  ghost predicate MetadataPushed(words: seq<Word>, words': seq<Word>, max: nat)
    requires |words| == |words'| >= META && max > 0
  {
    var num: int, head: int, tail: int := words[2], words[3], words[4];
    && words'[0] == words[0] && words'[1] == words[1] && words'[5] == words[5]
    && words'[2] == (if num < max then num + 1 else num)
    && words'[3] == (if num == max then (head + 1) % max else head)
    && words'[4] == (tail + 1) % max
    && words'[6] == Increment(words[6])
  }

  lemma PushKeepsRing(words: seq<Word>, words': seq<Word>, nf: nat, max: nat)
    requires IsRing(words, nf, max) && |words'| == |words| && MetadataPushed(words, words', max)
    ensures IsRing(words', nf, max)
  {
    var num: int, head: int, tail: int := words[2], words[3], words[4];
    var num': int, head': int := words'[2], words'[3];
    Modulo(head + num, max);
    Modulo(tail + 1, max);
    Modulo(head + 1, max);
    Modulo(head' + num', max);
  }

  /** Where the records sit after a push into a ring of `n` records that starts at `h`: the last one in
      the slot just written, the others where they were. */
  lemma PushSlots(max: nat, n: nat, h: nat, i: nat)
    requires n <= max && h < max && (n < max ==> h == 0) && i < if n < max then n + 1 else max
    ensures var h' := if n == max then (h + 1) % max else h;
            var t := SlotOf(max, h, n);
            var last := if n < max then n else max - 1;
            if i == last then SlotOf(max, h', i) == t
            else SlotOf(max, h', i) == SlotOf(max, h, if n == max then i + 1 else i) != t
  {
    Modulo(h + n, max);
    Modulo(h + 1, max);
    Modulo(h + i, max);
    Modulo(h + i + 1, max);
    if n == max {
      Modulo((h + 1) % max + i, max);
    }
  }

  /** Slot and metadata together: the contents gain the new record at the end. */
  lemma PushedRecord(words: seq<Word>, words': seq<Word>, nf: nat, max: nat, r: Record, i: nat)
    requires IsRing(words, nf, max) && SlotWritten(words, words', nf, max, words[4], r)
    requires MetadataPushed(words, words', max) && IsRing(words', nf, max) && i < words'[2]
    ensures |Pushed(Contents(words, nf, max), r, max)| == words'[2] as int
    ensures Contents(words', nf, max)[i] == Pushed(Contents(words, nf, max), r, max)[i]
  {
    PushSlots(max, words[2], words[3], i);
  }

  lemma PushContents(words: seq<Word>, words': seq<Word>, nf: nat, max: nat, r: Record)
    requires IsRing(words, nf, max) && SlotWritten(words, words', nf, max, words[4], r)
    requires MetadataPushed(words, words', max) && IsRing(words', nf, max)
    ensures Contents(words', nf, max) == Pushed(Contents(words, nf, max), r, max)
  {
    var c, c' := Pushed(Contents(words, nf, max), r, max), Contents(words', nf, max);
    assert |c| == |c'|;
    forall i | 0 <= i < |c'| ensures c'[i] == c[i] {
      PushedRecord(words, words', nf, max, r, i);
    }
  }

  lemma CopyKeepsMeta(words: seq<Word>, words': seq<Word>, nf: nat, t: nat)
    requires |words| == |words'| >= META
    requires forall i :: 0 <= i < |words| && !(SlotStart(nf, t) <= i < SlotStart(nf, t) + nf) ==> words'[i] == words[i]
    ensures words'[..META] == words[..META]
  {
    assert SlotStart(nf, t) >= META;
  }

  lemma TailIsSlot(words: seq<Word>, nf: nat, max: nat)
    requires IsRing(words, nf, max)
    ensures words[4] < max && |words| >= META
  {
  }

  lemma MetaKept(words: seq<Word>, copied: seq<Word>)
    requires |words| == |copied| >= META && words[..META] == copied[..META]
    ensures forall i :: 0 <= i < META ==> copied[i] == words[i]
  {
    assert forall i :: 0 <= i < META ==> copied[i] == copied[..META][i] && words[i] == words[..META][i];
  }

  /** The copy into the slot followed by the metadata update. */
  lemma PushCorrect(words: seq<Word>, copied: seq<Word>, words': seq<Word>, nf: nat, max: nat, r: Record)
    requires IsRing(words, nf, max) && |words'| == |words| && |r| == nf
    requires SlotWritten(words, copied, nf, max, words[4], r)
    requires copied[META..] == words'[META..] && MetadataPushed(words, words', max)
    ensures IsRing(words', nf, max)
    ensures Contents(words', nf, max) == Pushed(Contents(words, nf, max), r, max)
  {
    forall s | 0 <= s < max ensures Slot(words', nf, max, s) == Slot(copied, nf, max, s) {
      SlotsIgnoreMetadata(copied, words', nf, max, s);
    }
    PushKeepsRing(words, words', nf, max);
    PushContents(words, words', nf, max, r);
  }

  // ----- The writer -----

  /** One process's view of the ring: a copy of the metadata beside the shared words. */
  class RecordBuffer {
    const addr: array<Word>
    var numFields: nat
    var maxRecords: nat
    var numRecords: nat
    var head: nat
    var tail: nat
    var eventID: Word

    /** A process attaches to the shared words.  The first one finds no magic number and writes the
        metadata; the event counter is left as it is. */
    constructor (numFields: Word, maxRecords: Word, addr: array<Word>)
      requires numFields > 0 && maxRecords > 0 && addr.Length == SlotStart(numFields, maxRecords)
      requires addr[5] == MAGIC ==> IsRing(addr[..], numFields, maxRecords)
      modifies addr
      ensures this.addr == addr && this.numFields == numFields && this.maxRecords == maxRecords
      ensures IsRing(addr[..], numFields, maxRecords)
      ensures old(addr[5]) == MAGIC ==> addr[..] == old(addr[..])
      ensures old(addr[5]) != MAGIC ==> Contents(addr[..], numFields, maxRecords) == [] && addr[6] == old(addr[6])
    {
      this.addr := addr;
      this.numFields, this.maxRecords := numFields, maxRecords;
      this.numRecords, this.head, this.tail, this.eventID := 0, 0, 0, 0;
      new;
      if addr[5] != MAGIC {
        addr[5] := MAGIC;
        addr[0], addr[1], addr[2], addr[3], addr[4] := numFields, maxRecords, 0, 0, 0;
      }
    }

    method LoadMeta()
      requires addr.Length >= META
      modifies this
      ensures numFields == addr[0] && maxRecords == addr[1] && numRecords == addr[2]
      ensures head == addr[3] && tail == addr[4] && eventID == addr[6]
    {
      numFields := addr[0];
      maxRecords := addr[1];
      numRecords := addr[2];
      head := addr[3];
      tail := addr[4];
      eventID := addr[6];
    }

    method UpdateMeta()
      requires addr.Length >= META
      requires numFields < TWO64 && maxRecords < TWO64 && numRecords < TWO64 && head < TWO64 && tail < TWO64
      modifies addr
      ensures addr[0] == numFields && addr[1] == maxRecords && addr[2] == numRecords
      ensures addr[3] == head && addr[4] == tail && addr[5] == old(addr[5]) && addr[6] == Increment(eventID)
      ensures addr[META..] == old(addr[META..])
    {
      addr[0] := numFields;
      addr[1] := maxRecords;
      addr[2] := numRecords;
      addr[3] := head;
      addr[4] := tail;
      addr[6] := Increment(eventID);
    }

    /** `memcpy` of the record into the slot at `start`. */
    method CopyRecord(r: Record, start: nat)
      requires META <= start && start + |r| <= addr.Length
      modifies addr
      ensures forall j :: 0 <= j < |r| ==> addr[start + j] == r[j]
      ensures forall i :: 0 <= i < addr.Length && !(start <= i < start + |r|) ==> addr[i] == old(addr[i])
    {
      for j := 0 to |r|
        invariant forall k :: 0 <= k < j ==> addr[start + k] == r[k]
        invariant forall i :: 0 <= i < addr.Length && !(start <= i < start + j) ==> addr[i] == old(addr[i])
      {
        addr[start + j] := r[j];
      }
    }

    /** Head, tail and count after one more record. */
    method Advance()
      requires numRecords <= maxRecords && head < maxRecords
      modifies this
      ensures numFields == old(numFields) && maxRecords == old(maxRecords) && eventID == old(eventID)
      ensures numRecords == if old(numRecords) < maxRecords then old(numRecords) + 1 else old(numRecords)
      ensures head == if old(numRecords) == maxRecords then (old(head) + 1) % maxRecords else old(head)
      ensures tail == (old(tail) + 1) % maxRecords
      ensures head < maxRecords && tail < maxRecords && numRecords <= maxRecords
    {
      tail := (tail + 1) % maxRecords;
      if numRecords == maxRecords {
        head := (head + 1) % maxRecords;
      }
      if numRecords < maxRecords {
        numRecords := numRecords + 1;
      }
    }

    /** The record goes into the slot at the tail; nothing else changes. */
    method StoreRecord(r: Record)
      requires addr.Length == SlotStart(numFields, maxRecords) && tail < maxRecords && |r| == numFields
      modifies addr
      ensures SlotWritten(old(addr[..]), addr[..], numFields, maxRecords, tail, r)
      ensures addr[..META] == old(addr[..META])
    {
      ghost var words := addr[..];
      SlotsInOrder(numFields, tail, maxRecords);
      CopyRecord(r, SlotStart(numFields, tail));
      CopyWritesSlot(words, addr[..], numFields, maxRecords, tail, r);
      CopyKeepsMeta(words, addr[..], numFields, tail);
    }

    /** `push`, called with the lock held. */
    method Push(record: Record)
      requires |record| == numFields && IsRing(addr[..], numFields, maxRecords)
      modifies this, addr
      ensures numFields == old(numFields) && maxRecords == old(maxRecords)
      ensures IsRing(addr[..], numFields, maxRecords)
      ensures Contents(addr[..], numFields, maxRecords)
              == Pushed(old(Contents(addr[..], numFields, maxRecords)), Stamp(record, old(addr[6])), maxRecords)
      ensures IsNumbered(Stamp(record, old(addr[6])), record, old(addr[6]))
      ensures addr[6] == Increment(old(addr[6]))
    {
      ghost var words := addr[..];
      TailIsSlot(words, numFields, maxRecords);
      StampNumbers(record, words[6]);
      LoadMeta();
      StoreRecord(Stamp(record, eventID));
      ghost var copied := addr[..];
      MetaKept(words, copied);
      Advance();
      UpdateMeta();
      PushCorrect(words, copied, addr[..], numFields, maxRecords, Stamp(record, words[6]));
    }
  }

  // ----- The reader -----

  /** `NcclRecord.clear`: the counter, the sizes and the slots stay. */
  method Clear(addr: array<Word>, ghost nf: nat, ghost max: nat)
    requires IsRing(addr[..], nf, max)
    modifies addr
    ensures IsRing(addr[..], nf, max) && Contents(addr[..], nf, max) == []
    ensures addr[6] == old(addr[6])
  {
    addr[2] := 0;
    addr[3] := 0;
    addr[4] := 0;
    Modulo(0, max);
  }

  /** `NcclRecord.__getitem__`; `None` when it raises StopIteration. */
  method GetItem(addr: array<Word>, nf: nat, max: nat, idx: nat) returns (r: Option<Record>)
    requires IsRing(addr[..], nf, max)
    ensures r == if idx < |Contents(addr[..], nf, max)| then Some(Contents(addr[..], nf, max)[idx]) else None
  {
    if idx >= addr[2] {
      return None;
    }
    var head := addr[3];
    var s := SlotOf(max, head, idx);
    SlotsInOrder(nf, s, max);
    var start := SlotStart(nf, s);
    assert addr[..][start..start + nf] == addr[start..start + nf];
    r := Some(addr[start..start + nf]);
  }

  /** Iterating over the ring: items 0, 1, ... until one is missing. */
  method Iterate(addr: array<Word>, nf: nat, max: nat) returns (records: seq<Record>)
    requires IsRing(addr[..], nf, max)
    ensures records == Contents(addr[..], nf, max)
  {
    ghost var c := Contents(addr[..], nf, max);
    records := [];
    var next := GetItem(addr, nf, max, 0);
    while next.Some?
      invariant |records| <= |c| && records == c[..|records|]
      invariant next == if |records| < |c| then Some(c[|records|]) else None
      decreases |c| - |records|
    {
      records := records + [next.value];
      next := GetItem(addr, nf, max, |records|);
    }
  }

  // ----- Whole histories -----

  datatype Event = Pushing(process: nat, record: Record) | Clearing

  /** All pushes of a history, in order, stamped with the number of pushes before them. */
  ghost function Stamped(events: seq<Event>): seq<Record>
    requires forall e :: e in events && e.Pushing? ==> |e.record| > 0
  {
    if events == [] then []
    else
      var before := Stamped(events[..|events| - 1]);
      match events[|events| - 1]
      case Pushing(_, r) => before + [Stamp(r, |before| % TWO64)]
      case Clearing => before
  }

  /** The records of all pushes of a history, in order, as they were handed over. */
  ghost function Raw(events: seq<Event>): seq<Record> {
    if events == [] then []
    else
      var before := Raw(events[..|events| - 1]);
      match events[|events| - 1]
      case Pushing(_, r) => before + [r]
      case Clearing => before
  }

  /** What is stored of the k-th push is its record, with the number of the push in the last cell. */
  lemma {:induction false} StampedIsNumbered(events: seq<Event>, nf: nat, k: nat)
    requires nf > 0 && Fits(events, nf)
    ensures |Stamped(events)| == |Raw(events)|
    ensures k < |Raw(events)| ==> |Raw(events)[k]| == nf && IsNumbered(Stamped(events)[k], Raw(events)[k], k % TWO64)
  {
    if events != [] {
      var before, e := events[..|events| - 1], events[|events| - 1];
      StampedIsNumbered(before, nf, k);
      assert e in events;
      if e.Pushing? {
        StampNumbers(e.record, |Stamped(before)| % TWO64);
      }
    }
  }

  /** Number of pushes after the last clear. */
  ghost function SinceClear(events: seq<Event>): nat {
    if events == [] then 0
    else
      match events[|events| - 1]
      case Pushing(_, _) => SinceClear(events[..|events| - 1]) + 1
      case Clearing => 0
  }

  ghost predicate Fits(events: seq<Event>, nf: nat) {
    forall e :: e in events && e.Pushing? ==> |e.record| == nf
  }

  lemma {:induction false} SinceClearBound(events: seq<Event>, nf: nat)
    requires nf > 0 && Fits(events, nf)
    ensures SinceClear(events) <= |Stamped(events)|
  {
    if events != [] {
      SinceClearBound(events[..|events| - 1], nf);
    }
  }

  /** The last `min(pushes since the last clear, capacity)` records of the history. */
  ghost function Window(events: seq<Event>, nf: nat, max: nat): (w: seq<Record>)
    requires nf > 0 && Fits(events, nf)
  {
    SinceClearBound(events, nf);
    var k := if SinceClear(events) <= max then SinceClear(events) else max;
    Stamped(events)[|Stamped(events)| - k..]
  }

  lemma WindowPush(events: seq<Event>, nf: nat, max: nat, e: Event)
    requires nf > 0 && max > 0 && e.Pushing? && Fits(events + [e], nf) && Fits(events, nf)
    ensures Window(events + [e], nf, max)
            == Pushed(Window(events, nf, max), Stamp(e.record, |Stamped(events)| % TWO64), max)
    ensures |Stamped(events + [e])| == |Stamped(events)| + 1
  {
    SinceClearBound(events, nf);
    assert (events + [e])[..|events|] == events;
  }

  lemma WindowClear(events: seq<Event>, nf: nat, max: nat)
    requires nf > 0 && Fits(events + [Clearing], nf) && Fits(events, nf)
    ensures Window(events + [Clearing], nf, max) == []
    ensures Stamped(events + [Clearing]) == Stamped(events)
  {
    assert (events + [Clearing])[..|events|] == events;
  }

  /** The event number of a push is its place in the history, whatever clears lie between. */
  lemma {:induction false} EventNumbers(events: seq<Event>, nf: nat, k: nat)
    requires nf > 0 && Fits(events, nf) && k < |Stamped(events)|
    ensures |Stamped(events)[k]| == nf && Stamped(events)[k][nf - 1] == k % TWO64
  {
    var m := |events| - 1;
    if k < |Stamped(events[..m])| {
      EventNumbers(events[..m], nf, k);
    } else {
      assert events[m] in events;
    }
  }

  /** The records in the ring carry consecutive event numbers ending just before the counter. */
  lemma WindowNumbers(events: seq<Event>, nf: nat, max: nat, i: nat)
    requires nf > 0 && Fits(events, nf) && i < |Window(events, nf, max)|
    ensures |Window(events, nf, max)[i]| == nf
    ensures |Window(events, nf, max)| <= |Stamped(events)|
    ensures Window(events, nf, max)[i][nf - 1] == (|Stamped(events)| - |Window(events, nf, max)| + i) % TWO64
  {
    SinceClearBound(events, nf);
    EventNumbers(events, nf, |Stamped(events)| - |Window(events, nf, max)| + i);
  }

  /** No two of fewer than 2^64 successive pushes share an event number. */
  lemma NumbersNeverRepeat(events: seq<Event>, nf: nat, a: nat, b: nat)
    requires nf > 0 && Fits(events, nf) && a < b < |Stamped(events)| && b - a < TWO64
    ensures |Stamped(events)[a]| == |Stamped(events)[b]| == nf
    ensures Stamped(events)[a][nf - 1] != Stamped(events)[b][nf - 1]
  {
    EventNumbers(events, nf, a);
    EventNumbers(events, nf, b);
  }

  /** The ring holds the window of the history, and the counter is the number of its pushes. */
  ghost predicate Holds(words: seq<Word>, nf: nat, max: nat, events: seq<Event>) {
    && IsRing(words, nf, max) && Fits(events, nf)
    && Contents(words, nf, max) == Window(events, nf, max)
    && words[6] == |Stamped(events)| % TWO64
  }

  lemma FitsPush(past: seq<Event>, nf: nat, e: Event)
    requires Fits(past, nf) && (e.Pushing? ==> |e.record| == nf)
    ensures Fits(past + [e], nf)
  {
  }

  lemma CounterCounts(pushes: nat)
    ensures Increment(pushes % TWO64) == (pushes + 1) % TWO64
  {
  }

  lemma HistoryPush(contents: seq<Record>, counter: Word, nf: nat, max: nat, past: seq<Event>, e: Event)
    requires nf > 0 && max > 0 && Fits(past, nf) && e.Pushing? && |e.record| == nf
    requires contents == Window(past, nf, max) && counter == |Stamped(past)| % TWO64
    ensures Fits(past + [e], nf)
    ensures Pushed(contents, Stamp(e.record, counter), max) == Window(past + [e], nf, max)
    ensures Increment(counter) == |Stamped(past + [e])| % TWO64
  {
    FitsPush(past, nf, e);
    WindowPush(past, nf, max, e);
    CounterCounts(|Stamped(past)|);
  }

  lemma HoldsAfterPush(words: seq<Word>, words': seq<Word>, nf: nat, max: nat, past: seq<Event>, e: Event)
    requires Holds(words, nf, max, past) && e.Pushing? && |e.record| == nf
    requires IsRing(words', nf, max) && words'[6] == Increment(words[6])
    requires Contents(words', nf, max) == Pushed(Contents(words, nf, max), Stamp(e.record, words[6]), max)
    ensures Holds(words', nf, max, past + [e])
  {
    HistoryPush(Contents(words, nf, max), words[6], nf, max, past, e);
  }

  lemma HoldsAfterClear(words: seq<Word>, words': seq<Word>, nf: nat, max: nat, past: seq<Event>)
    requires Holds(words, nf, max, past)
    requires IsRing(words', nf, max) && words'[6] == words[6] && Contents(words', nf, max) == []
    ensures Holds(words', nf, max, past + [Clearing])
  {
    FitsPush(past, nf, Clearing);
    WindowClear(past, nf, max);
  }

  /** The ring holds the last records of the history that were pushed since the last clear, as many as
      it has room for, in push order, each as it was handed over but for its number. */
  ghost predicate HoldsLast(words: seq<Word>, nf: nat, max: nat, events: seq<Event>) {
    && IsRing(words, nf, max)
    && var c, raw := Contents(words, nf, max), Raw(events);
    && |c| == (if SinceClear(events) <= max then SinceClear(events) else max) && |c| <= |raw|
    && forall i :: 0 <= i < |c| ==> IsNumbered(c[i], raw[|raw| - |c| + i], (|raw| - |c| + i) % TWO64)
  }

  lemma HoldsMeansLast(words: seq<Word>, nf: nat, max: nat, events: seq<Event>)
    requires Holds(words, nf, max, events)
    ensures HoldsLast(words, nf, max, events)
  {
    var c, n := Contents(words, nf, max), |Stamped(events)|;
    SinceClearBound(events, nf);
    StampedIsNumbered(events, nf, 0);
    forall i | 0 <= i < |c| ensures IsNumbered(c[i], Raw(events)[n - |c| + i], (n - |c| + i) % TWO64) {
      StampedIsNumbered(events, nf, n - |c| + i);
    }
  }

  ghost predicate Attached(processes: seq<RecordBuffer>, addr: array<Word>, nf: nat, max: nat)
    reads processes
  {
    forall p :: 0 <= p < |processes| ==> processes[p].addr == addr && processes[p].numFields == nf && processes[p].maxRecords == max
  }

  method PushBy(p: RecordBuffer, addr: array<Word>, nf: nat, max: nat, record: Record)
    requires p.addr == addr && p.numFields == nf && p.maxRecords == max && |record| == nf && IsRing(addr[..], nf, max)
    modifies p, addr
    ensures p.numFields == nf && p.maxRecords == max
    ensures IsRing(addr[..], nf, max) && addr[6] == Increment(old(addr[6]))
    ensures Contents(addr[..], nf, max) == Pushed(old(Contents(addr[..], nf, max)), Stamp(record, old(addr[6])), max)
  {
    p.Push(record);
  }

  method ServePush(processes: seq<RecordBuffer>, addr: array<Word>, nf: nat, max: nat, e: Event, ghost past: seq<Event>)
    requires Holds(addr[..], nf, max, past) && Attached(processes, addr, nf, max)
    requires e.Pushing? && e.process < |processes| && |e.record| == nf
    modifies addr, processes
    ensures Holds(addr[..], nf, max, past + [e]) && Attached(processes, addr, nf, max)
  {
    ghost var words := addr[..];
    PushBy(processes[e.process], addr, nf, max, e.record);
    HoldsAfterPush(words, addr[..], nf, max, past, e);
  }

  method ServeClear(processes: seq<RecordBuffer>, addr: array<Word>, nf: nat, max: nat, ghost past: seq<Event>)
    requires Holds(addr[..], nf, max, past) && Attached(processes, addr, nf, max)
    modifies addr
    ensures Holds(addr[..], nf, max, past + [Clearing]) && Attached(processes, addr, nf, max)
  {
    ghost var words := addr[..];
    Clear(addr, nf, max);
    HoldsAfterClear(words, addr[..], nf, max, past);
  }

  lemma HoldsAtStart(words: seq<Word>, nf: nat, max: nat)
    requires IsRing(words, nf, max) && Contents(words, nf, max) == [] && words[6] == 0
    ensures Holds(words, nf, max, [])
  {
    assert Stamped([]) == [] && SinceClear([]) == 0;
    assert Window([], nf, max) == [];
    assert 0 % TWO64 == 0;
  }

  ghost predicate Possible(e: Event, processes: nat, nf: nat) {
    e.Pushing? ==> e.process < processes && |e.record| == nf
  }

  method ServeOne(processes: seq<RecordBuffer>, addr: array<Word>, nf: nat, max: nat, e: Event, ghost past: seq<Event>)
    requires Holds(addr[..], nf, max, past) && Attached(processes, addr, nf, max) && Possible(e, |processes|, nf)
    modifies addr, processes
    ensures Holds(addr[..], nf, max, past + [e]) && Attached(processes, addr, nf, max)
  {
    if e.Pushing? {
      ServePush(processes, addr, nf, max, e, past);
    } else {
      ServeClear(processes, addr, nf, max, past);
    }
  }

  /** Any history of lock-serialised pushes by any processes and clears by the reader, on a ring that
      starts empty with its counter at zero (HoldsAtStart), leaves the window of the history in the ring. */
  method Serve(processes: seq<RecordBuffer>, addr: array<Word>, nf: nat, max: nat, events: seq<Event>)
    requires Holds(addr[..], nf, max, []) && Attached(processes, addr, nf, max)
    requires forall i :: 0 <= i < |events| ==> Possible(events[i], |processes|, nf)
    modifies addr, processes
    ensures Holds(addr[..], nf, max, events) && HoldsLast(addr[..], nf, max, events)
  {
    ghost var past := [];
    for i := 0 to |events|
      invariant past == events[..i]
      invariant Holds(addr[..], nf, max, past) && Attached(processes, addr, nf, max)
    {
      ServeOne(processes, addr, nf, max, events[i], past);
      past := past + [events[i]];
    }
    assert past == events;
    HoldsMeansLast(addr[..], nf, max, events);
  }

  /** The processes attach to zero-filled shared memory, the first one making it a ring. */
  method Attach(nf: Word, max: Word, count: nat) returns (processes: seq<RecordBuffer>, addr: array<Word>)
    requires nf > 0 && max > 0 && count > 0
    ensures fresh(addr) && |processes| == count && (forall p :: 0 <= p < count ==> fresh(processes[p]))
    ensures Attached(processes, addr, nf, max)
    ensures IsRing(addr[..], nf, max) && Contents(addr[..], nf, max) == [] && addr[6] == 0
  {
    addr := new Word[SlotStart(nf, max)](_ => 0);
    var first := new RecordBuffer(nf, max, addr);
    processes := [first];
    while |processes| < count
      invariant 1 <= |processes| <= count && forall p :: 0 <= p < |processes| ==> fresh(processes[p])
      invariant Attached(processes, addr, nf, max)
      invariant IsRing(addr[..], nf, max) && Contents(addr[..], nf, max) == [] && addr[6] == 0
      decreases count - |processes|
    {
      var next := new RecordBuffer(nf, max, addr);
      processes := processes + [next];
    }
  }

  /** From zero-filled memory on: any number of processes attach, and then any history leaves its window. */
  method ServeFresh(nf: Word, max: Word, count: nat, events: seq<Event>) returns (addr: array<Word>)
    requires nf > 0 && max > 0 && count > 0
    requires forall i :: 0 <= i < |events| ==> Possible(events[i], count, nf)
    ensures Holds(addr[..], nf, max, events) && HoldsLast(addr[..], nf, max, events)
  {
    var processes;
    processes, addr := Attach(nf, max, count);
    HoldsAtStart(addr[..], nf, max);
    Serve(processes, addr, nf, max, events);
  }
}
