/** Reading the record ring without taking its lock.

    The reader copies the ring word by word and accepts the copy when the event counter reads the same
    before and after.  A writer that holds the lock meanwhile writes the words of one slot (in any
    order), then the metadata words, then the counter.  A run is any interleaving of single word
    accesses of the reader and of the writers; memory is sequentially consistent. */
module SnapshotReader {
  import opened RecordRing

  const ATTEMPTS: nat := 10

  /** `base` is the memory the push found; `written` are the words of the slot already copied; `stage`
      is the number of metadata words already written (words 0 to 4, then the counter, word 6). */
  datatype Writer = Idle | Busy(base: seq<Word>, record: Record, written: set<nat>, stage: nat)

  datatype Reader =
    | Start
    | GotCounter(before: Word)
    | GotFields(before: Word, nf: nat)
    | GotMax(before: Word, nf: nat, max: nat)
    | GotNum(before: Word, nf: nat, max: nat, num: nat)
    | Copying(before: Word, nf: nat, max: nat, num: nat, head: nat, done: seq<Record>, partial: seq<Word>)
    | Accepted(records: seq<Record>)
    | GaveUp

  /** `pushes` counts completed pushes and `since` is its value when the reader last read the counter;
      both only serve to state properties. */
  datatype System = System(mem: seq<Word>, writer: Writer, reader: Reader, attempt: nat, pushes: nat, since: nat)

  datatype Action = BeginPush(record: Record) | WriteSlot(field: nat) | WriteMeta | Read

  // ----- The writers -----

  /** The value a push that found `base` writes into metadata word `i`. */
  function NewMeta(base: seq<Word>, i: nat): Word
    requires |base| >= META && i < META && base[1] > 0
  {
    var max: int, num: int, head: int, tail: int := base[1], base[2], base[3], base[4];
    match i
    case 2 => if num < max then num + 1 else num
    case 3 => if num == max then (head + 1) % max else head
    case 4 => (tail + 1) % max
    case 6 => Increment(base[6])
    case _ => base[i]
  }

  /** There is a metadata area; always so for a ring. */
  predicate Sized(s: System) {
    |s.mem| >= META && (s.writer.Busy? ==> |s.writer.base| >= META && s.writer.base[1] > 0)
  }

  function WriterStep(s: System, a: Action): System
    requires Sized(s)
  {
    match a
    case BeginPush(record) =>
      if s.writer.Idle? && |record| == s.mem[0] && |record| > 0 then
        s.(writer := Busy(s.mem, Stamp(record, s.mem[6]), {}, 0))
      else s
    case WriteSlot(j) =>
      if s.writer.Busy? && s.writer.stage == 0 && j < |s.writer.record| then
        var at := SlotStart(s.writer.base[0], s.writer.base[4]) + j;
        if at < |s.mem| then
          s.(mem := s.mem[at := s.writer.record[j]], writer := s.writer.(written := s.writer.written + {j}))
        else s
      else s
    case WriteMeta =>
      if s.writer.Busy? && s.writer.stage <= 5 && (forall j :: 0 <= j < |s.writer.record| ==> j in s.writer.written) then
        var k := s.writer.stage;
        if k < 5 then
          s.(mem := s.mem[k := NewMeta(s.writer.base, k)], writer := s.writer.(stage := k + 1))
        else
          s.(mem := s.mem[6 := NewMeta(s.writer.base, 6)], writer := Idle, pushes := s.pushes + 1)
      else s
    case Read => s
  }

  // ----- The reader -----

  /** Word `j` of the record at position `i`, as the reader addresses it. */
  function WordAt(mem: seq<Word>, nf: nat, max: nat, head: nat, i: nat, j: nat): Word {
    if max > 0 && SlotStart(nf, SlotOf(max, head, i)) + j < |mem| then mem[SlotStart(nf, SlotOf(max, head, i)) + j] else 0
  }

  function ReadStep(s: System): System
    requires |s.mem| >= META
  {
    match s.reader
    case Start => s.(reader := GotCounter(s.mem[6]), since := s.pushes)
    case GotCounter(e) => s.(reader := GotFields(e, s.mem[0]))
    case GotFields(e, nf) => s.(reader := GotMax(e, nf, s.mem[1]))
    case GotMax(e, nf, max) => s.(reader := GotNum(e, nf, max, s.mem[2]))
    case GotNum(e, nf, max, num) => s.(reader := Copying(e, nf, max, num, s.mem[3], [], []))
    case Copying(e, nf, max, num, head, done, partial) =>
      if |done| < num then
        var partial' := partial + [WordAt(s.mem, nf, max, head, |done|, |partial|)];
        if |partial'| < nf then s.(reader := s.reader.(partial := partial'))
        else s.(reader := s.reader.(done := done + [partial'], partial := []))
      else if s.mem[6] == e then s.(reader := Accepted(done))
      else s.(reader := if s.attempt + 1 < ATTEMPTS then Start else GaveUp, attempt := s.attempt + 1)
    case Accepted(_) => s
    case GaveUp => s
  }

  // ----- The invariant of the writers -----

  /** The ring as the last completed push left it. */
  function Base(s: System): seq<Word> {
    if s.writer.Idle? then s.mem else s.writer.base
  }

  /** What word `i` holds while a push is under way. */
  ghost function Expected(w: Writer, i: nat): Word
    requires w.Busy? && |w.base| >= META && w.base[1] > 0 && i < |w.base|
  {
    var start := SlotStart(w.base[0], w.base[4]);
    if start <= i < start + |w.record| && i - start in w.written then w.record[i - start]
    else if i < 5 && i < w.stage then NewMeta(w.base, i)
    else w.base[i]
  }

  ghost predicate MemOk(s: System, nf: nat, max: nat) {
    && IsRing(Base(s), nf, max)
    && Base(s)[6] == s.pushes % TWO64
    && (s.writer.Busy? ==>
          && |s.writer.record| == nf && s.writer.stage <= 5
          && (s.writer.stage > 0 ==> forall j :: 0 <= j < nf ==> j in s.writer.written)
          && |s.mem| == |s.writer.base|
          && forall i :: 0 <= i < |s.mem| ==> s.mem[i] == Expected(s.writer, i))
  }

  /** The contents after the completed pushes, and after the one under way as well. */
  ghost function Committed(s: System, nf: nat, max: nat): seq<Record>
    requires MemOk(s, nf, max)
  {
    Contents(Base(s), nf, max)
  }

  ghost function Upcoming(s: System, nf: nat, max: nat): seq<Record>
    requires MemOk(s, nf, max) && s.writer.Busy?
  {
    Pushed(Committed(s, nf, max), s.writer.record, max)
  }

  lemma SlotsApart(nf: nat, slot: nat, t: nat, j: nat, max: nat)
    requires slot < max && t < max && j < nf
    ensures META <= SlotStart(nf, slot) && SlotStart(nf, slot) + j < SlotStart(nf, max)
    ensures SlotStart(nf, t) <= SlotStart(nf, slot) + j < SlotStart(nf, t) + nf <==> slot == t
  {
    SlotsInOrder(nf, slot, max);
    if slot < t {
      SlotsInOrder(nf, slot, t);
    } else if t < slot {
      SlotsInOrder(nf, t, slot);
    }
  }

  /** A word of a slot, while a push is under way: only the slot being written differs from the base. */
  lemma SlotWord(s: System, nf: nat, max: nat, slot: nat, j: nat)
    requires MemOk(s, nf, max) && s.writer.Busy? && slot < max && j < nf
    ensures SlotStart(nf, slot) + j < |s.mem| == |s.writer.base|
    ensures var at := SlotStart(nf, slot) + j;
            s.mem[at] == if slot == s.writer.base[4] && j in s.writer.written then s.writer.record[j] else s.writer.base[at]
  {
    SlotsApart(nf, slot, s.writer.base[4], j, max);
    assert s.mem[SlotStart(nf, slot) + j] == Expected(s.writer, SlotStart(nf, slot) + j);
  }

  lemma FinalSlot(s: System, nf: nat, max: nat, mem: seq<Word>, slot: nat)
    requires MemOk(s, nf, max) && s.writer.Busy? && s.writer.stage > 0 && slot < max
    requires |mem| == |s.mem| && mem[META..] == s.mem[META..]
    ensures Slot(mem, nf, max, slot) == if slot == s.writer.base[4] then s.writer.record else Slot(s.writer.base, nf, max, slot)
  {
    SlotsIgnoreMetadata(s.mem, mem, nf, max, slot);
    var expected := if slot == s.writer.base[4] then s.writer.record else Slot(s.writer.base, nf, max, slot);
    SlotsInOrder(nf, slot, max);
    forall j | 0 <= j < nf ensures Slot(s.mem, nf, max, slot)[j] == expected[j] {
      SlotWord(s, nf, max, slot, j);
    }
  }

  /** What word `i` of the metadata holds before the counter is written. */
  lemma MetaBeforeCounter(s: System, nf: nat, max: nat, i: nat)
    requires MemOk(s, nf, max) && s.writer.Busy? && s.writer.stage == 5 && i < META
    ensures |s.mem| == |s.writer.base| >= META && s.writer.base[1] > 0
    ensures s.mem[i] == if i < 5 then NewMeta(s.writer.base, i) else s.writer.base[i]
  {
    assert SlotStart(s.writer.base[0], s.writer.base[4]) >= META;
    assert s.mem[i] == Expected(s.writer, i);
  }

  lemma FinalMetadata(s: System, nf: nat, max: nat)
    requires MemOk(s, nf, max) && s.writer.Busy? && s.writer.stage == 5
    ensures var mem := s.mem[6 := NewMeta(s.writer.base, 6)];
            MetadataPushed(s.writer.base, mem, max) && mem[META..] == s.mem[META..]
  {
    MetaBeforeCounter(s, nf, max, 0);
    MetaBeforeCounter(s, nf, max, 1);
    MetaBeforeCounter(s, nf, max, 2);
    MetaBeforeCounter(s, nf, max, 3);
    MetaBeforeCounter(s, nf, max, 4);
    MetaBeforeCounter(s, nf, max, 5);
  }

  lemma FinalSlots(s: System, nf: nat, max: nat, mem: seq<Word>)
    requires MemOk(s, nf, max) && s.writer.Busy? && s.writer.stage == 5
    requires |mem| == |s.mem| && mem[META..] == s.mem[META..]
    ensures SlotWritten(s.writer.base, mem, nf, max, s.writer.base[4], s.writer.record)
  {
    forall slot | 0 <= slot < max
      ensures Slot(mem, nf, max, slot) == if slot == s.writer.base[4] then s.writer.record else Slot(s.writer.base, nf, max, slot)
    {
      FinalSlot(s, nf, max, mem, slot);
    }
  }

  lemma FinalRing(s: System, nf: nat, max: nat, mem: seq<Word>)
    requires MemOk(s, nf, max) && s.writer.Busy? && s.writer.stage == 5
    requires mem == s.mem[6 := NewMeta(s.writer.base, 6)]
    ensures IsRing(mem, nf, max) && Contents(mem, nf, max) == Upcoming(s, nf, max)
  {
    FinalMetadata(s, nf, max);
    FinalSlots(s, nf, max, mem);
    WholePush(s.writer.base, mem, nf, max, s.writer.record);
  }

  lemma WholePush(base: seq<Word>, mem: seq<Word>, nf: nat, max: nat, r: Record)
    requires IsRing(base, nf, max) && |mem| == |base| && MetadataPushed(base, mem, max)
    requires SlotWritten(base, mem, nf, max, base[4], r)
    ensures IsRing(mem, nf, max) && Contents(mem, nf, max) == Pushed(Contents(base, nf, max), r, max)
  {
    PushKeepsRing(base, mem, nf, max);
    PushContents(base, mem, nf, max, r);
  }

  lemma PushCompletes(s: System, nf: nat, max: nat)
    requires MemOk(s, nf, max) && s.writer.Busy? && s.writer.stage == 5
    ensures var s' := WriterStep(s, WriteMeta);
            MemOk(s', nf, max) && s'.writer.Idle? && Committed(s', nf, max) == Upcoming(s, nf, max)
  {
    FinalRing(s, nf, max, WriterStep(s, WriteMeta).mem);
    CounterCounts(s.pushes);
  }

  lemma WriteSlotKeepsMemOk(s: System, nf: nat, max: nat, j: nat)
    requires MemOk(s, nf, max) && s.writer.Busy?
    ensures MemOk(WriterStep(s, WriteSlot(j)), nf, max)
  {
    SlotsInOrder(nf, s.writer.base[4], max);
  }

  lemma WriteMetaWord(s: System, nf: nat, max: nat, i: nat)
    requires MemOk(s, nf, max) && s.writer.Busy? && s.writer.stage < 5 && i < |s.mem|
    ensures var s' := WriterStep(s, WriteMeta);
            |s'.mem| == |s.mem| && s'.writer.Busy? && s'.writer.base == s.writer.base && s'.mem[i] == Expected(s'.writer, i)
  {
    assert SlotStart(s.writer.base[0], s.writer.base[4]) >= META;
    assert s.mem[i] == Expected(s.writer, i);
  }

  lemma WriteMetaKeepsMemOk(s: System, nf: nat, max: nat)
    requires MemOk(s, nf, max) && s.writer.Busy? && s.writer.stage < 5
    ensures MemOk(WriterStep(s, WriteMeta), nf, max)
  {
    var s' := WriterStep(s, WriteMeta);
    forall i | 0 <= i < |s'.mem| ensures s'.mem[i] == Expected(s'.writer, i) {
      WriteMetaWord(s, nf, max, i);
    }
  }

  lemma WriterKeepsMemOk(s: System, nf: nat, max: nat, a: Action)
    requires MemOk(s, nf, max)
    ensures MemOk(WriterStep(s, a), nf, max)
  {
    if s.writer.Busy? {
      match a
      case WriteSlot(j) => WriteSlotKeepsMemOk(s, nf, max, j);
      case WriteMeta =>
        if s.writer.stage == 5 {
          PushCompletes(s, nf, max);
        } else {
          WriteMetaKeepsMemOk(s, nf, max);
        }
      case _ =>
    }
  }

  // ----- The invariant of the reader -----

  /** The reader has read the record count and head as they were before the push under way, if any. */
  ghost predicate OldView(s: System, num: nat, head: nat)
    requires |Base(s)| >= META
  {
    num == Base(s)[2] && head == Base(s)[3]
  }

  /** The reader has read the record count and head as the push under way leaves them. */
  ghost predicate NewView(s: System, max: nat, num: nat, head: nat)
    requires |Base(s)| >= META && max > 0
  {
    var n: int, h: int := Base(s)[2], Base(s)[3];
    && s.writer.Busy?
    && (n < max ==> s.writer.stage > 2 && num == n + 1 && head == h)
    && (n == max ==> s.writer.stage > 3 && num == n && head == (h + 1) % max)
  }

  /** A word the reader may hold for field `j` of the record at position `i`. */
  ghost predicate GoodWord(s: System, nf: nat, max: nat, old_: bool, i: nat, j: nat, w: Word)
    requires MemOk(s, nf, max)
  {
    if old_ then
      && i < |Committed(s, nf, max)| && j < nf
      && (|| w == Committed(s, nf, max)[i][j]
          || (|Committed(s, nf, max)| == max && i == 0 && s.writer.Busy? && w == s.writer.record[j]))
    else
      s.writer.Busy? && i < |Upcoming(s, nf, max)| && j < |Upcoming(s, nf, max)[i]| && w == Upcoming(s, nf, max)[i][j]
  }

  ghost predicate GoodRecord(s: System, nf: nat, max: nat, old_: bool, i: nat, r: seq<Word>)
    requires MemOk(s, nf, max)
  {
    forall j :: 0 <= j < |r| ==> GoodWord(s, nf, max, old_, i, j, r[j])
  }

  ghost predicate GoodCopy(s: System, nf: nat, max: nat, old_: bool, done: seq<Record>, partial: seq<Word>)
    requires MemOk(s, nf, max)
  {
    && (forall i :: 0 <= i < |done| ==> |done[i]| == nf && GoodRecord(s, nf, max, old_, i, done[i]))
    && GoodRecord(s, nf, max, old_, |done|, partial)
  }

  ghost predicate GoodView(s: System, nf: nat, max: nat, r: Reader)
    requires MemOk(s, nf, max) && r.Copying?
  {
    || (OldView(s, r.num, r.head) && GoodCopy(s, nf, max, true, r.done, r.partial))
    || (NewView(s, max, r.num, r.head) && GoodCopy(s, nf, max, false, r.done, r.partial))
  }

  ghost predicate ReaderOk(s: System, nf: nat, max: nat)
    requires MemOk(s, nf, max)
  {
    && s.since <= s.pushes
    && match s.reader
       case GotCounter(e) => e == s.since % TWO64
       case GotFields(e, f) => e == s.since % TWO64 && f == nf
       case GotMax(e, f, m) => e == s.since % TWO64 && f == nf && m == max
       case GotNum(e, f, m, num) =>
         && e == s.since % TWO64 && f == nf && m == max
         && (s.pushes == s.since ==>
               || num == Base(s)[2]
               || (s.writer.Busy? && s.writer.stage > 2 && Base(s)[2] < max && num == Base(s)[2] + 1))
       case Copying(e, f, m, num, _, done, partial) =>
         && e == s.since % TWO64 && f == nf && m == max
         && |done| <= num && |partial| < nf && (|done| == num ==> partial == [])
         && (s.pushes == s.since ==> GoodView(s, nf, max, s.reader))
       case _ => true
  }

  ghost predicate Inv(s: System, nf: nat, max: nat) {
    MemOk(s, nf, max) && ReaderOk(s, nf, max)
  }

  /** `s'` is `s` with the same completed pushes and the push under way, if any, further on. */
  ghost predicate Further(s: System, s': System) {
    && Base(s') == Base(s) && s'.pushes == s.pushes
    && (s.writer.Busy? ==> s'.writer.Busy? && s'.writer.record == s.writer.record && s.writer.stage <= s'.writer.stage)
  }

  lemma GoodRecordStable(s: System, s': System, nf: nat, max: nat, old_: bool, i: nat, r: seq<Word>)
    requires MemOk(s, nf, max) && MemOk(s', nf, max) && Further(s, s') && GoodRecord(s, nf, max, old_, i, r)
    ensures GoodRecord(s', nf, max, old_, i, r)
  {
    forall j | 0 <= j < |r| ensures GoodWord(s', nf, max, old_, i, j, r[j]) {
      assert GoodWord(s, nf, max, old_, i, j, r[j]);
    }
  }

  lemma GoodCopyStable(s: System, s': System, nf: nat, max: nat, old_: bool, done: seq<Record>, partial: seq<Word>)
    requires MemOk(s, nf, max) && MemOk(s', nf, max) && Further(s, s') && GoodCopy(s, nf, max, old_, done, partial)
    ensures GoodCopy(s', nf, max, old_, done, partial)
  {
    forall i | 0 <= i < |done| ensures GoodRecord(s', nf, max, old_, i, done[i]) {
      GoodRecordStable(s, s', nf, max, old_, i, done[i]);
    }
    GoodRecordStable(s, s', nf, max, old_, |done|, partial);
  }

  lemma ViewWhileCopying(s: System, nf: nat, max: nat) returns (old_: bool)
    requires Inv(s, nf, max) && s.reader.Copying? && s.pushes == s.since
    ensures GoodCopy(s, nf, max, old_, s.reader.done, s.reader.partial)
    ensures if old_ then OldView(s, s.reader.num, s.reader.head) else NewView(s, max, s.reader.num, s.reader.head)
  {
    old_ := OldView(s, s.reader.num, s.reader.head) && GoodCopy(s, nf, max, true, s.reader.done, s.reader.partial);
  }

  /** A view stays good while the push under way goes on. */
  lemma ViewGoesOn(s: System, s': System, nf: nat, max: nat, old_: bool)
    requires MemOk(s, nf, max) && MemOk(s', nf, max) && Further(s, s') && s'.reader == s.reader && s.reader.Copying?
    requires GoodCopy(s, nf, max, old_, s.reader.done, s.reader.partial)
    requires if old_ then OldView(s, s.reader.num, s.reader.head) else NewView(s, max, s.reader.num, s.reader.head)
    ensures GoodView(s', nf, max, s'.reader)
  {
    GoodCopyStable(s, s', nf, max, old_, s.reader.done, s.reader.partial);
  }

  lemma WriterKeepsInv(s: System, nf: nat, max: nat, a: Action)
    requires Inv(s, nf, max)
    ensures Inv(WriterStep(s, a), nf, max)
  {
    var s' := WriterStep(s, a);
    WriterKeepsMemOk(s, nf, max, a);
    if s'.pushes == s.pushes && s.reader.Copying? && s.pushes == s.since {
      assert Further(s, s');
      var old_ := ViewWhileCopying(s, nf, max);
      ViewGoesOn(s, s', nf, max, old_);
    }
  }

  // ----- Reading keeps the invariant -----

  lemma SlotField(words: seq<Word>, nf: nat, max: nat, slot: nat, j: nat)
    requires |words| == SlotStart(nf, max) && slot < max && j < nf
    ensures SlotStart(nf, slot) + j < |words| && Slot(words, nf, max, slot)[j] == words[SlotStart(nf, slot) + j]
  {
    SlotsInOrder(nf, slot, max);
  }

  /** The slot being written is read for the oldest record of a full ring only. */
  lemma ReadSlot(words: seq<Word>, nf: nat, max: nat, i: nat, slot: nat)
    requires IsRing(words, nf, max) && i < words[2] && slot == SlotOf(max, words[3], i)
    ensures slot == words[4] ==> i == 0 && words[2] == max
    ensures Contents(words, nf, max)[i] == Slot(words, nf, max, slot)
  {
    Modulo(words[3] as int + i, max);
    Modulo(words[3] as int + words[2] as int, max);
  }

  lemma OldRead(s: System, nf: nat, max: nat, i: nat, j: nat)
    requires MemOk(s, nf, max) && i < Base(s)[2] && j < nf
    ensures GoodWord(s, nf, max, true, i, j, WordAt(s.mem, nf, max, Base(s)[3], i, j))
  {
    var slot := SlotOf(max, Base(s)[3], i);
    ReadSlot(Base(s), nf, max, i, slot);
    SlotField(Base(s), nf, max, slot, j);
    if s.writer.Busy? {
      SlotWord(s, nf, max, slot, j);
    }
    assert WordAt(s.mem, nf, max, Base(s)[3], i, j) == s.mem[SlotStart(nf, slot) + j];
  }

  /** The record at position `i` of the pushed contents, by the slot it sits in. */
  lemma PushedSlot(words: seq<Word>, nf: nat, max: nat, r: Record, num: nat, head: nat, i: nat, slot: nat)
    requires IsRing(words, nf, max) && |r| == nf && i < num && slot == SlotOf(max, head, i)
    requires words[2] < max ==> num == words[2] + 1 && head == words[3]
    requires words[2] == max ==> num == max && head == (words[3] as int + 1) % max
    ensures num == |Pushed(Contents(words, nf, max), r, max)|
    ensures Pushed(Contents(words, nf, max), r, max)[i] == if slot == words[4] then r else Slot(words, nf, max, slot)
  {
    PushSlots(max, words[2], words[3], i);
    if i != num - 1 {
      assert Contents(words, nf, max)[if words[2] == max then i + 1 else i] == Slot(words, nf, max, slot);
    }
  }

  lemma NewRead(s: System, nf: nat, max: nat, num: nat, head: nat, i: nat, j: nat)
    requires MemOk(s, nf, max) && NewView(s, max, num, head) && i < num && j < nf
    ensures GoodWord(s, nf, max, false, i, j, WordAt(s.mem, nf, max, head, i, j))
  {
    var slot := SlotOf(max, head, i);
    PushedSlot(s.writer.base, nf, max, s.writer.record, num, head, i, slot);
    SlotWord(s, nf, max, slot, j);
    SlotField(s.writer.base, nf, max, slot, j);
    assert WordAt(s.mem, nf, max, head, i, j) == s.mem[SlotStart(nf, slot) + j];
    assert j in s.writer.written;
  }

  /** Appending a good word keeps the copy good, also when it completes a record. */
  lemma GoodCopyExtends(s: System, nf: nat, max: nat, old_: bool, done: seq<Record>, partial: seq<Word>, w: Word)
    requires MemOk(s, nf, max) && GoodCopy(s, nf, max, old_, done, partial) && |partial| < nf
    requires GoodWord(s, nf, max, old_, |done|, |partial|, w)
    ensures GoodCopy(s, nf, max, old_, done, partial + [w])
    ensures |partial| + 1 == nf ==> GoodCopy(s, nf, max, old_, done + [partial + [w]], [])
  {
    assert GoodRecord(s, nf, max, old_, |done|, partial + [w]);
  }

  lemma CopyStepExtends(s: System, nf: nat, max: nat, old_: bool)
    requires Inv(s, nf, max) && s.reader.Copying? && |s.reader.done| < s.reader.num
    requires GoodCopy(s, nf, max, old_, s.reader.done, s.reader.partial)
    requires GoodWord(s, nf, max, old_, |s.reader.done|, |s.reader.partial|,
                      WordAt(s.mem, nf, max, s.reader.head, |s.reader.done|, |s.reader.partial|))
    ensures var s' := ReadStep(s);
            && s'.reader.Copying? && s'.reader.num == s.reader.num && s'.reader.head == s.reader.head
            && GoodCopy(s, nf, max, old_, s'.reader.done, s'.reader.partial)
  {
    var r := s.reader;
    GoodCopyExtends(s, nf, max, old_, r.done, r.partial, WordAt(s.mem, nf, max, r.head, |r.done|, |r.partial|));
  }

  lemma CopyStepKeepsGood(s: System, nf: nat, max: nat, old_: bool)
    requires Inv(s, nf, max) && s.reader.Copying? && |s.reader.done| < s.reader.num
    requires GoodCopy(s, nf, max, old_, s.reader.done, s.reader.partial)
    requires if old_ then OldView(s, s.reader.num, s.reader.head) else NewView(s, max, s.reader.num, s.reader.head)
    ensures var s' := ReadStep(s);
            && s'.reader.Copying? && s'.reader.num == s.reader.num && s'.reader.head == s.reader.head
            && GoodCopy(s, nf, max, old_, s'.reader.done, s'.reader.partial)
  {
    var r := s.reader;
    if old_ {
      OldRead(s, nf, max, |r.done|, |r.partial|);
    } else {
      NewRead(s, nf, max, r.num, r.head, |r.done|, |r.partial|);
    }
    CopyStepExtends(s, nf, max, old_);
  }

  /** A view stays good when only the reader moves. */
  lemma ViewIgnoresReader(s: System, s': System, nf: nat, max: nat, old_: bool)
    requires MemOk(s, nf, max) && s'.reader.Copying? && s' == s.(reader := s'.reader)
    requires GoodCopy(s, nf, max, old_, s'.reader.done, s'.reader.partial)
    requires if old_ then OldView(s, s'.reader.num, s'.reader.head) else NewView(s, max, s'.reader.num, s'.reader.head)
    ensures MemOk(s', nf, max) && GoodView(s', nf, max, s'.reader)
  {
    GoodCopyStable(s, s', nf, max, old_, s'.reader.done, s'.reader.partial);
  }

  lemma CopyStepKeepsView(s: System, nf: nat, max: nat)
    requires Inv(s, nf, max) && s.reader.Copying? && |s.reader.done| < s.reader.num && s.pushes == s.since
    ensures MemOk(ReadStep(s), nf, max)
    ensures ReadStep(s).reader.Copying? && GoodView(ReadStep(s), nf, max, ReadStep(s).reader)
  {
    var old_ := ViewWhileCopying(s, nf, max);
    CopyStepKeepsGood(s, nf, max, old_);
    ViewIgnoresReader(s, ReadStep(s), nf, max, old_);
  }

  /** What the metadata words hold at any time. */
  lemma MetaWord(s: System, nf: nat, max: nat, i: nat)
    requires MemOk(s, nf, max) && i < META
    ensures |s.mem| >= META
    ensures s.mem[i] == if s.writer.Busy? && i < 5 && i < s.writer.stage then NewMeta(Base(s), i) else Base(s)[i]
  {
    if s.writer.Busy? {
      SlotsInOrder(nf, s.writer.base[4], max);
      assert s.mem[i] == Expected(s.writer, i);
    }
  }

  lemma HeadReadKeepsView(s: System, nf: nat, max: nat)
    requires Inv(s, nf, max) && s.reader.GotNum? && s.pushes == s.since
    ensures |s.mem| >= META && MemOk(ReadStep(s), nf, max)
    ensures ReadStep(s).reader.Copying? && GoodView(ReadStep(s), nf, max, ReadStep(s).reader)
  {
    MetaWord(s, nf, max, 3);
    var s' := ReadStep(s);
    assert GoodCopy(s', nf, max, true, [], []) && GoodCopy(s', nf, max, false, [], []);
  }

  lemma CopyingKeepsInv(s: System, nf: nat, max: nat)
    requires Inv(s, nf, max) && s.reader.Copying?
    ensures |s.mem| >= META && Inv(ReadStep(s), nf, max)
  {
    MetaWord(s, nf, max, 6);
    if |s.reader.done| < s.reader.num && s.pushes == s.since {
      CopyStepKeepsView(s, nf, max);
    }
  }

  lemma ReadKeepsInv(s: System, nf: nat, max: nat)
    requires Inv(s, nf, max)
    ensures |s.mem| >= META && Inv(ReadStep(s), nf, max)
  {
    MetaWord(s, nf, max, 0);
    match s.reader
    case Start => MetaWord(s, nf, max, 6);
    case GotFields(_, _) => MetaWord(s, nf, max, 1);
    case GotMax(_, _, _) => MetaWord(s, nf, max, 2);
    case GotNum(_, _, _, _) =>
      if s.pushes == s.since {
        HeadReadKeepsView(s, nf, max);
      }
    case Copying(_, _, _, _, _, _, _) => CopyingKeepsInv(s, nf, max);
    case _ =>
  }

  // ----- Every accepted snapshot -----

  function Step(s: System, a: Action): System {
    if !Sized(s) then s else if a.Read? then ReadStep(s) else WriterStep(s, a)
  }

  function Exec(s: System, actions: seq<Action>): System {
    if actions == [] then s else Step(Exec(s, actions[..|actions| - 1]), actions[|actions| - 1])
  }

  /** A ring nobody is using, with the event counter at `pushes`. */
  ghost predicate Quiescent(s: System, nf: nat, max: nat) {
    && IsRing(s.mem, nf, max) && s.mem[6] == s.pushes % TWO64
    && s.writer.Idle? && s.reader.Start? && s.attempt == 0 && s.since <= s.pushes
  }

  lemma {:induction false} ExecInv(s: System, actions: seq<Action>, nf: nat, max: nat)
    requires Inv(s, nf, max)
    ensures Inv(Exec(s, actions), nf, max)
  {
    if actions != [] {
      ExecInv(s, actions[..|actions| - 1], nf, max);
      var t, a := Exec(s, actions[..|actions| - 1]), actions[|actions| - 1];
      if a.Read? {
        ReadKeepsInv(t, nf, max);
      } else {
        WriterKeepsInv(t, nf, max, a);
      }
    }
  }

  /** The snapshot is the ring after the completed pushes, or after the one under way as well. */
  ghost predicate Exact(s: System, nf: nat, max: nat, records: seq<Record>)
    requires MemOk(s, nf, max)
  {
    || records == Committed(s, nf, max)
    || (s.writer.Busy? && records == Upcoming(s, nf, max))
  }

  /** The ring is full and only the oldest record may mix words of the old and the new record. */
  ghost predicate OldestTorn(s: System, nf: nat, max: nat, records: seq<Record>)
    requires MemOk(s, nf, max)
  {
    var c := Committed(s, nf, max);
    && s.writer.Busy? && |c| == |records| == max && records[1..] == c[1..] && |records[0]| == nf
    && forall j :: 0 <= j < nf ==> records[0][j] == c[0][j] || records[0][j] == s.writer.record[j]
  }

  lemma OldCopyIsGood(s: System, nf: nat, max: nat, records: seq<Record>)
    requires MemOk(s, nf, max) && |records| == |Committed(s, nf, max)| && GoodCopy(s, nf, max, true, records, [])
    ensures Exact(s, nf, max, records) || OldestTorn(s, nf, max, records)
    ensures |records| < max || s.writer.Idle? ==> records == Committed(s, nf, max)
  {
    var c := Committed(s, nf, max);
    forall i | 0 <= i < |records| ensures |records[i]| == nf && GoodRecord(s, nf, max, true, i, records[i]) {
    }
    forall i | 0 <= i < |records| && (i > 0 || |c| < max || s.writer.Idle?) ensures records[i] == c[i] {
      assert forall j :: 0 <= j < nf ==> GoodWord(s, nf, max, true, i, j, records[i][j]);
    }
    if |c| == max && s.writer.Busy? {
      assert forall j :: 0 <= j < nf ==> GoodWord(s, nf, max, true, 0, j, records[0][j]);
    }
  }

  lemma NewCopyIsGood(s: System, nf: nat, max: nat, records: seq<Record>)
    requires MemOk(s, nf, max) && s.writer.Busy? && |records| == |Upcoming(s, nf, max)| && GoodCopy(s, nf, max, false, records, [])
    ensures records == Upcoming(s, nf, max)
  {
    var c := Upcoming(s, nf, max);
    forall i | 0 <= i < |records| ensures records[i] == c[i] {
      assert GoodRecord(s, nf, max, false, i, records[i]);
      assert forall j :: 0 <= j < nf ==> GoodWord(s, nf, max, false, i, j, records[i][j]);
    }
  }

  /** Equal counters mean that no push completed in between, unless 2^64 of them did. */
  lemma CounterDetectsPushes(since: nat, pushes: nat)
    requires since <= pushes < since + TWO64 && since % TWO64 == pushes % TWO64
    ensures since == pushes
  {
  }

  /** In every interleaving, a snapshot whose two counter reads agree (and fewer than 2^64 pushes
      completed in between) is exact, except that when the ring is full its oldest record may be torn.
      Below capacity it is always exact. */
  lemma AcceptedSnapshot(s0: System, actions: seq<Action>, nf: nat, max: nat)
    requires Quiescent(s0, nf, max)
    requires var s := Exec(s0, actions); s.reader.Copying? && Step(s, Read).reader.Accepted? && s.pushes < s.since + TWO64
    ensures Inv(Exec(s0, actions), nf, max)
    ensures var s, records := Exec(s0, actions), Step(Exec(s0, actions), Read).reader.records;
            && s.pushes == s.since
            && (Exact(s, nf, max, records) || OldestTorn(s, nf, max, records))
            && (|Committed(s, nf, max)| < max ==> Exact(s, nf, max, records))
  {
    var s := Exec(s0, actions);
    ExecInv(s0, actions, nf, max);
    MetaWord(s, nf, max, 6);
    CounterDetectsPushes(s.since, s.pushes);
    var r := s.reader;
    if OldView(s, r.num, r.head) && GoodCopy(s, nf, max, true, r.done, r.partial) {
      OldCopyIsGood(s, nf, max, r.done);
    } else {
      NewCopyIsGood(s, nf, max, r.done);
    }
  }

  // ----- A full ring can tear -----

  lemma ExecLast(s: System, a: seq<Action>, x: Action)
    ensures Exec(s, a + [x]) == Step(Exec(s, a), x)
  {
    assert (a + [x])[..|a|] == a;
  }

  lemma SameStep(s: System, t: System, x: Action)
    requires s == t
    ensures Step(s, x) == Step(t, x)
  {
  }

  lemma ExecAppend(s: System, a: seq<Action>, front: seq<Action>, x: Action)
    ensures Exec(s, a + (front + [x])) == Step(Exec(s, a + front), x)
  {
    assert a + (front + [x]) == a + front + [x];
    ExecLast(s, a + front, x);
  }

  lemma {:induction false} ExecSplits(s: System, a: seq<Action>, b: seq<Action>)
    ensures Exec(s, a + b) == Exec(Exec(s, a), b)
  {
    if b == [] {
      assert a + b == a;
    } else {
      var front, x := b[..|b| - 1], b[|b| - 1];
      assert b == front + [x];
      ExecSplits(s, a, front);
      ExecAppend(s, a, front, x);
      ExecLast(Exec(s, a), front, x);
      SameStep(Exec(s, a + front), Exec(Exec(s, a), front), x);
    }
  }

  /** A push that has written the first `k` words of its slot and nothing else. */
  ghost predicate SlotHalfWritten(s0: System, s: System, record: Record, k: nat)
    requires |s0.mem| >= META && |record| > 0
  {
    && s.reader == s0.reader && s.pushes == s0.pushes && s.attempt == s0.attempt && s.since == s0.since
    && s.writer.Busy? && s.writer.base == s0.mem && s.writer.stage == 0
    && s.writer.record == Stamp(record, s0.mem[6])
    && forall j: nat :: j in s.writer.written <==> j < k
  }

  lemma StartPush(s0: System, nf: nat, max: nat, record: Record)
    requires Inv(s0, nf, max) && s0.writer.Idle? && |record| == nf
    ensures SlotHalfWritten(s0, Step(s0, BeginPush(record)), record, 0)
  {
  }

  lemma WriteOneMore(s0: System, s: System, nf: nat, max: nat, record: Record, k: nat)
    requires Inv(s0, nf, max) && s0.writer.Idle? && |record| == nf && k < nf
    requires MemOk(s, nf, max) && SlotHalfWritten(s0, s, record, k)
    ensures SlotHalfWritten(s0, Step(s, WriteSlot(k)), record, k + 1)
  {
    SlotsApart(nf, s.writer.base[4], s.writer.base[4], k, max);
    assert Sized(s);
    var s' := WriterStep(s, WriteSlot(k));
    assert s'.writer == s.writer.(written := s.writer.written + {k});
  }

  lemma {:induction false} WriteSlotAlone(s0: System, nf: nat, max: nat, record: Record, k: nat) returns (actions: seq<Action>)
    requires Inv(s0, nf, max) && s0.writer.Idle? && |record| == nf && k <= nf
    ensures SlotHalfWritten(s0, Exec(s0, actions), record, k)
  {
    if k == 0 {
      StartPush(s0, nf, max, record);
      actions := [BeginPush(record)];
      assert Exec(s0, []) == s0;
    } else {
      var before := WriteSlotAlone(s0, nf, max, record, k - 1);
      ExecInv(s0, before, nf, max);
      WriteOneMore(s0, Exec(s0, before), nf, max, record, k - 1);
      actions := before + [WriteSlot(k - 1)];
      assert actions[..|actions| - 1] == before;
    }
  }

  /** What an undisturbed reader copies. */
  ghost function ReadOut(mem: seq<Word>, nf: nat, max: nat): (r: seq<Record>)
    requires |mem| >= META
    ensures |r| == mem[2] && forall i :: 0 <= i < |r| ==> |r[i]| == nf
  {
    seq(mem[2], i requires 0 <= i < mem[2] => seq(nf, j requires 0 <= j < nf => WordAt(mem, nf, max, mem[3], i, j)))
  }

  /** The reader is part of the way through an undisturbed copy of `mem`. */
  ghost predicate CopyingOf(s: System, nf: nat, max: nat, done: nat, partial: nat)
    requires |s.mem| >= META
  {
    var r := ReadOut(s.mem, nf, max);
    && done <= |r| && partial < nf && (done == |r| ==> partial == 0)
    && s.reader == Copying(s.mem[6], nf, max, s.mem[2], s.mem[3], r[..done], if partial == 0 then [] else r[done][..partial])
  }

  lemma CopyOneWord(s: System, nf: nat, max: nat, done: nat, partial: nat)
    requires |s.mem| >= META && CopyingOf(s, nf, max, done, partial) && done < s.mem[2]
    ensures var s' := ReadStep(s);
            && s' == s.(reader := s'.reader)
            && if partial + 1 < nf then CopyingOf(s', nf, max, done, partial + 1) else CopyingOf(s', nf, max, done + 1, 0)
  {
    var r := ReadOut(s.mem, nf, max);
    var w := WordAt(s.mem, nf, max, s.mem[3], done, partial);
    assert s.reader.partial == r[done][..partial];
    assert r[done][..partial] + [w] == r[done][..partial + 1];
    assert r[..done] + [r[done]] == r[..done + 1];
    if partial + 1 == nf {
      assert r[done][..nf] == r[done];
    }
  }

  lemma {:induction false} CopyRest(s: System, nf: nat, max: nat, done: nat, partial: nat) returns (actions: seq<Action>)
    requires Sized(s) && CopyingOf(s, nf, max, done, partial)
    ensures var s' := Exec(s, actions); s' == s.(reader := s'.reader) && CopyingOf(s', nf, max, s.mem[2], 0)
    decreases s.mem[2] - done, nf - partial
  {
    if done == s.mem[2] {
      actions := [];
    } else {
      CopyOneWord(s, nf, max, done, partial);
      var s' := ReadStep(s);
      var rest;
      if partial + 1 < nf {
        rest := CopyRest(s', nf, max, done, partial + 1);
      } else {
        rest := CopyRest(s', nf, max, done + 1, 0);
      }
      ExecSplits(s, [Read], rest);
      assert Exec(s, []) == s && Exec(s, [Read]) == s';
      actions := [Read] + rest;
    }
  }

  /** A reader that starts alone first reads the five words before the records. */
  lemma FiveReads(s: System, nf: nat, max: nat)
    requires Sized(s) && s.reader.Start? && s.mem[0] == nf && s.mem[1] == max
    ensures Exec(s, [Read, Read, Read, Read, Read])
            == s.(reader := Copying(s.mem[6], nf, max, s.mem[2], s.mem[3], [], []), since := s.pushes)
  {
    var r1 := s.(reader := GotCounter(s.mem[6]), since := s.pushes);
    var r2 := r1.(reader := GotFields(s.mem[6], nf));
    var r3 := r2.(reader := GotMax(s.mem[6], nf, max));
    var r4 := r3.(reader := GotNum(s.mem[6], nf, max, s.mem[2]));
    assert Exec(s, []) == s;
    assert [Read][..0] == [] && [Read, Read][..1] == [Read] && [Read, Read, Read][..2] == [Read, Read];
    assert [Read, Read, Read, Read][..3] == [Read, Read, Read];
    assert [Read, Read, Read, Read, Read][..4] == [Read, Read, Read, Read];
    assert Exec(s, [Read]) == r1;
    assert Exec(s, [Read, Read]) == r2;
    assert Exec(s, [Read, Read, Read]) == r3;
    assert Exec(s, [Read, Read, Read, Read]) == r4;
  }

  /** Left alone, a reader that starts copies the memory as it stands. */
  lemma ReadAlone(s: System, nf: nat, max: nat) returns (actions: seq<Action>)
    requires Sized(s) && s.reader.Start? && s.mem[0] == nf > 0 && s.mem[1] == max
    ensures var s' := Exec(s, actions); s'.reader.Copying? && s'.mem == s.mem && s'.writer == s.writer && s'.pushes == s.pushes
    ensures Step(Exec(s, actions), Read).reader == Accepted(ReadOut(s.mem, nf, max))
  {
    var r, first := ReadOut(s.mem, nf, max), [Read, Read, Read, Read, Read];
    FiveReads(s, nf, max);
    assert r[..0] == [];
    var rest := CopyRest(Exec(s, first), nf, max, 0, 0);
    ExecSplits(s, first, rest);
    actions := first + rest;
    assert r[..|r|] == r;
  }

  /** The slot of the oldest record of a full ring is the one being written. */
  lemma OldestSlot(words: seq<Word>, nf: nat, max: nat, i: nat, slot: nat)
    requires IsRing(words, nf, max) && words[2] == max && i < max && slot == SlotOf(max, words[3], i)
    ensures slot == words[4] <==> i == 0
    ensures Contents(words, nf, max)[i] == Slot(words, nf, max, slot)
  {
    var h: int := words[3];
    Modulo(h + max, max);
    Modulo(h + i, max);
  }

  lemma TornRecord(s: System, nf: nat, max: nat, i: nat)
    requires MemOk(s, nf, max) && s.writer.Busy? && s.writer.stage == 0 && s.writer.base[2] == max && i < max
    requires forall j :: 0 <= j < nf ==> j in s.writer.written
    ensures |s.mem| >= META && s.mem[2] == max
    ensures ReadOut(s.mem, nf, max)[i] == if i == 0 then s.writer.record else Committed(s, nf, max)[i]
  {
    MetaWord(s, nf, max, 2);
    MetaWord(s, nf, max, 3);
    var slot := SlotOf(max, s.writer.base[3], i);
    OldestSlot(s.writer.base, nf, max, i, slot);
    SlotsInOrder(nf, slot, max);
    var expected := if i == 0 then s.writer.record else Slot(s.writer.base, nf, max, slot);
    forall j | 0 <= j < nf ensures ReadOut(s.mem, nf, max)[i][j] == expected[j] {
      SlotWord(s, nf, max, slot, j);
    }
  }

  lemma ReplacedFirst(r: seq<Record>, c: seq<Record>, x: Record)
    requires |r| == |c| > 0 && forall i :: 0 <= i < |r| ==> r[i] == if i == 0 then x else c[i]
    ensures r == [x] + c[1..]
  {
  }

  /** The copy of a full ring whose oldest slot has just been overwritten. */
  lemma TornCopy(s: System, nf: nat, max: nat)
    requires MemOk(s, nf, max) && s.writer.Busy? && s.writer.stage == 0 && s.writer.base[2] == max
    requires forall j :: 0 <= j < nf ==> j in s.writer.written
    ensures |s.mem| >= META && ReadOut(s.mem, nf, max) == [s.writer.record] + Committed(s, nf, max)[1..]
  {
    var c := Committed(s, nf, max);
    TornRecord(s, nf, max, 0);
    forall i | 0 <= i < max ensures ReadOut(s.mem, nf, max)[i] == if i == 0 then s.writer.record else c[i] {
      TornRecord(s, nf, max, i);
    }
    ReplacedFirst(ReadOut(s.mem, nf, max), c, s.writer.record);
  }

  /** No record in the ring carries the number the next push will use; see `RecordRing.WindowNumbers`. */
  ghost predicate NextNumberUnused(mem: seq<Word>, nf: nat, max: nat)
    requires IsRing(mem, nf, max)
  {
    forall i :: 0 <= i < |Contents(mem, nf, max)| ==> Contents(mem, nf, max)[i][nf - 1] != mem[6]
  }

  lemma HistoryLeavesNumberUnused(mem: seq<Word>, nf: nat, max: nat, events: seq<Event>)
    requires Holds(mem, nf, max, events)
    ensures NextNumberUnused(mem, nf, max)
  {
    var w, n := Window(events, nf, max), |Stamped(events)|;
    forall i | 0 <= i < |w| ensures w[i][nf - 1] != n % TWO64 {
      WindowNumbers(events, nf, max, i);
      if (n - |w| + i) % TWO64 == n % TWO64 {
        CounterDetectsPushes(n - |w| + i, n);
      }
    }
  }

  /** After `actions`, in which no push completed, the reader is about to accept a snapshot that is not
      exact: not the ring after any number of pushes. */
  ghost predicate Tears(s0: System, nf: nat, max: nat, actions: seq<Action>)
    requires Quiescent(s0, nf, max)
  {
    ExecInv(s0, actions, nf, max);
    var s := Exec(s0, actions);
    && s.reader.Copying? && Step(s, Read).reader.Accepted? && s.pushes == s0.pushes
    && !Exact(s, nf, max, Step(s, Read).reader.records)
  }

  /** A writer that has got `k` words into its slot, then an undisturbed reader. */
  lemma WriteThenRead(s0: System, nf: nat, max: nat, record: Record, k: nat) returns (actions: seq<Action>, s: System)
    requires Quiescent(s0, nf, max) && |record| == nf && k <= nf
    ensures SlotHalfWritten(s0, s, record, k) && Inv(s, nf, max) && Inv(Exec(s0, actions), nf, max)
    ensures var t := Exec(s0, actions);
            && t.reader.Copying? && Step(t, Read).reader == Accepted(ReadOut(s.mem, nf, max))
            && t.mem == s.mem && t.writer == s.writer && t.pushes == s0.pushes
  {
    var writes := WriteSlotAlone(s0, nf, max, record, k);
    s := Exec(s0, writes);
    ExecInv(s0, writes, nf, max);
    MetaWord(s, nf, max, 0);
    MetaWord(s, nf, max, 1);
    var reading := ReadAlone(s, nf, max);
    ExecSplits(s0, writes, reading);
    actions := writes + reading;
    ExecInv(s0, actions, nf, max);
  }

  /** Whenever the ring is full (and holds at least two records), whatever is pushed next, some
      interleaving makes the reader accept a snapshot that is not the ring after any number of pushes. */
  lemma FullRingCanTear(s0: System, nf: nat, max: nat, record: Record) returns (actions: seq<Action>)
    requires Quiescent(s0, nf, max) && s0.mem[2] == max >= 2 && |record| == nf
    requires NextNumberUnused(s0.mem, nf, max)
    ensures Tears(s0, nf, max, actions)
  {
    var s;
    actions, s := WriteThenRead(s0, nf, max, record, nf);
    TornCopy(s, nf, max);
    NotExact(Exec(s0, actions), nf, max, s.writer.record);
  }

  /** A full ring of one record tears when its records have at least two words and the pushed record
      starts with another word. */
  lemma SingleRingCanTear(s0: System, nf: nat, record: Record) returns (actions: seq<Action>)
    requires Quiescent(s0, nf, 1) && s0.mem[2] == 1 && |record| == nf >= 2
    requires NextNumberUnused(s0.mem, nf, 1) && record[0] != Contents(s0.mem, nf, 1)[0][0]
    ensures Tears(s0, nf, 1, actions)
  {
    var s;
    actions, s := WriteThenRead(s0, nf, 1, record, 1);
    SingleCopy(s, nf);
    var t, copy := Exec(s0, actions), ReadOut(s.mem, nf, 1);
    assert Committed(t, nf, 1) == Contents(s0.mem, nf, 1);
    assert copy[0][0] == record[0] && copy[0][nf - 1] != s0.mem[6];
    assert Upcoming(t, nf, 1)[0] == s.writer.record;
  }

  /** The copy of a one-record ring of which the writer has replaced the first word. */
  lemma SingleCopy(s: System, nf: nat)
    requires MemOk(s, nf, 1) && s.writer.Busy? && s.writer.stage == 0 && s.writer.base[2] == 1 && nf >= 2
    requires forall j: nat :: j in s.writer.written <==> j < 1
    ensures |s.mem| >= META && s.mem[2] == 1
    ensures ReadOut(s.mem, nf, 1)[0][0] == s.writer.record[0]
    ensures ReadOut(s.mem, nf, 1)[0][nf - 1] == Committed(s, nf, 1)[0][nf - 1]
  {
    MetaWord(s, nf, 1, 2);
    MetaWord(s, nf, 1, 3);
    OldestSlot(s.writer.base, nf, 1, 0, 0);
    SlotsInOrder(nf, 0, 1);
    SlotWord(s, nf, 1, 0, 0);
    SlotWord(s, nf, 1, 0, nf - 1);
  }

  /** A record of a single word cannot be torn. */
  lemma SingleWordIsExact(s: System, records: seq<Record>)
    requires MemOk(s, 1, 1) && OldestTorn(s, 1, 1, records)
    ensures Exact(s, 1, 1, records)
  {
    var c := Committed(s, 1, 1);
    if records[0][0] == c[0][0] {
      assert records[0] == c[0] && records == c;
    } else {
      assert records[0] == s.writer.record && records == [s.writer.record];
      assert Upcoming(s, 1, 1) == [s.writer.record];
    }
  }

  /** Since `s0` no push was undone; the reader's first counter read, once made, saw at least as many; and
      as long as none has completed, the ring as the last push left it stays. */
  ghost predicate Since(s0: System, s: System) {
    && s.pushes >= s0.pushes && (s.reader.Start? || s.since >= s0.pushes)
    && (s.pushes == s0.pushes ==> Base(s) == s0.mem)
  }

  lemma StepKeepsSince(s0: System, s: System, a: Action)
    requires Since(s0, s)
    ensures Since(s0, Step(s, a))
  {
    if Sized(s) && !a.Read? {
      assert Step(s, a) == WriterStep(s, a);
    }
  }

  lemma {:induction false} NothingCompleted(s0: System, actions: seq<Action>, nf: nat, max: nat)
    requires Quiescent(s0, nf, max)
    ensures Since(s0, Exec(s0, actions))
  {
    if actions != [] {
      NothingCompleted(s0, actions[..|actions| - 1], nf, max);
      StepKeepsSince(s0, Exec(s0, actions[..|actions| - 1]), actions[|actions| - 1]);
    }
  }

  lemma TearsOnlyWhenFull(s0: System, nf: nat, max: nat, actions: seq<Action>)
    requires Quiescent(s0, nf, max) && Tears(s0, nf, max, actions)
    ensures s0.mem[2] == max && (max >= 2 || nf >= 2)
  {
    var s := Exec(s0, actions);
    ExecInv(s0, actions, nf, max);
    NothingCompleted(s0, actions, nf, max);
    AcceptedSnapshot(s0, actions, nf, max);
    if max == 1 && nf == 1 {
      SingleWordIsExact(s, Step(s, Read).reader.records);
    }
  }

  /** From a ring nobody is using, some interleaving in which no push completes makes the reader accept
      a snapshot that mixes two ring states, exactly when the ring is full and is not a single word. */
  lemma TearsIff(s0: System, nf: nat, max: nat)
    requires Quiescent(s0, nf, max) && NextNumberUnused(s0.mem, nf, max)
    ensures (exists actions :: Tears(s0, nf, max, actions)) <==> s0.mem[2] == max && (max >= 2 || nf >= 2)
  {
    if s0.mem[2] == max && (max >= 2 || nf >= 2) {
      var actions;
      if max >= 2 {
        actions := FullRingCanTear(s0, nf, max, seq(nf, _ => 0));
      } else {
        actions := SingleRingCanTear(s0, nf, seq(nf, _ => if Contents(s0.mem, nf, 1)[0][0] == 0 then 1 else 0));
      }
    } else {
      forall actions ensures !Tears(s0, nf, max, actions) {
        if Tears(s0, nf, max, actions) {
          TearsOnlyWhenFull(s0, nf, max, actions);
        }
      }
    }
  }

  lemma NotExact(s: System, nf: nat, max: nat, r: Record)
    requires MemOk(s, nf, max) && s.writer.Busy? && s.writer.record == r && s.writer.base[2] == max >= 2
    requires NextNumberUnused(s.writer.base, nf, max) && r[nf - 1] == s.writer.base[6]
    ensures !Exact(s, nf, max, [r] + Committed(s, nf, max)[1..])
  {
    var c := Committed(s, nf, max);
    var torn := [r] + c[1..];
    assert c[0][nf - 1] != r[nf - 1] && c[1][nf - 1] != r[nf - 1];
    assert torn[0] == r;
    assert Upcoming(s, nf, max)[0] == c[1];
  }
}
