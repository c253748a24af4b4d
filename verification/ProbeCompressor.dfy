/** The communication probe in monitor state.

    Every large enough collective call becomes a record, except that a run of AllGather and
    ReduceScatter calls is folded into one record, which is written when the next other call arrives.
    Records made inside an NCCL group wait in a buffer until the group ends.  In monitor state no
    durations are measured, so every duration is zero. */
module ProbeCompressor {

  const TWO64: int := 0x1_0000_0000_0000_0000
  const MIN_RECORD_OP_SIZE: nat := 1024
  const NULL_COMM: nat := 0

  datatype Op = Send | Recv | Bcast | Broadcast | AllGather | ReduceScatter | AllReduce | Invalid

  /** One collective call with what the probe looks up about it: the time, the device and the number of
      devices of its communicator. */
  datatype Call = Call(op: Op, count: nat, comm: nat, buff1: nat, buff2: nat, datatype_: nat, aux: nat,
                       time: nat, device: nat, numDevices: nat)

  datatype Record = Record(comm: nat, op: Op, count: nat, buff1: nat, buff2: nat, datatype_: nat, pid: nat,
                           time: nat, device: nat, caller: nat, aux: nat, duration: nat, numDevices: nat)

  predicate CanCompress(op: Op) {
    op.AllGather? || op.ReduceScatter?
  }

  predicate TooSmall(count: nat) {
    count < MIN_RECORD_OP_SIZE
  }

  // ----- The run compression, independent of groups -----

  /** Length of the run of compressible calls at the front. */
  ghost function LeadingRun(calls: seq<Call>): (k: nat)
    ensures k <= |calls|
  {
    if calls == [] || !CanCompress(calls[0].op) then 0 else 1 + LeadingRun(calls[1..])
  }

  ghost function SumCounts(calls: seq<Call>): nat {
    if calls == [] then 0 else SumCounts(calls[..|calls| - 1]) + calls[|calls| - 1].count
  }

  ghost function PlainRecord(c: Call, pid: nat, rank: nat): Record {
    Record(c.comm, c.op, c.count, c.buff1, c.buff2, c.datatype_, pid, c.time, c.device, rank, c.aux, 0, c.numDevices)
  }

  /** A run is recorded with its total count and its last operation and communicator; everything else
      comes from the call that ended it. */
  ghost function RunRecord(run: seq<Call>, ender: Call, pid: nat, rank: nat): Record
    requires run != []
  {
    var last := run[|run| - 1];
    PlainRecord(ender, pid, rank).(comm := last.comm, op := last.op, count := SumCounts(run) % TWO64)
  }

  /** What a call that is not compressible adds after the run `run`. */
  ghost function Flush(run: seq<Call>, c: Call, pid: nat, rank: nat): seq<Record> {
    (if run == [] then [] else [RunRecord(run, c, pid, rank)]) + [PlainRecord(c, pid, rank)]
  }

  /** The records of a sequence of calls, run by run from the front. */
  ghost function Compress(calls: seq<Call>, pid: nat, rank: nat): seq<Record> {
    var k := LeadingRun(calls);
    if k == |calls| then []
    else Flush(calls[..k], calls[k], pid, rank) + Compress(calls[k + 1..], pid, rank)
  }

  /** The run that no call has ended yet. */
  ghost function PendingRun(calls: seq<Call>): seq<Call> {
    var k := LeadingRun(calls);
    if k == |calls| then calls else PendingRun(calls[k + 1..])
  }

  lemma {:induction false} LeadingRunAppend(calls: seq<Call>, c: Call)
    ensures LeadingRun(calls + [c]) ==
            if LeadingRun(calls) < |calls| then LeadingRun(calls) else |calls| + if CanCompress(c.op) then 1 else 0
  {
    if calls == [] {
      assert (calls + [c])[1..] == [];
    } else if CanCompress(calls[0].op) {
      LeadingRunAppend(calls[1..], c);
      assert (calls + [c])[1..] == calls[1..] + [c];
    }
  }

  /** One step of the recursion from the front. */
  lemma CompressUnfolds(calls: seq<Call>, k: nat, pid: nat, rank: nat)
    requires k == LeadingRun(calls) < |calls|
    ensures Compress(calls, pid, rank) == Flush(calls[..k], calls[k], pid, rank) + Compress(calls[k + 1..], pid, rank)
    ensures PendingRun(calls) == PendingRun(calls[k + 1..])
  {
  }

  lemma CompressRunOnly(calls: seq<Call>, pid: nat, rank: nat)
    requires LeadingRun(calls) == |calls|
    ensures Compress(calls, pid, rank) == [] && PendingRun(calls) == calls
  {
  }

  lemma AppendPrefix(calls: seq<Call>, c: Call, k: nat, pid: nat, rank: nat)
    requires k == LeadingRun(calls) < |calls|
    ensures Compress(calls + [c], pid, rank) ==
            Flush(calls[..k], calls[k], pid, rank) + Compress(calls[k + 1..] + [c], pid, rank)
    ensures PendingRun(calls + [c]) == PendingRun(calls[k + 1..] + [c])
  {
    var all := calls + [c];
    LeadingRunAppend(calls, c);
    CompressUnfolds(all, k, pid, rank);
    assert all[k + 1..] == calls[k + 1..] + [c] && all[..k] == calls[..k] && all[k] == calls[k];
  }

  lemma AppendRun(calls: seq<Call>, c: Call, pid: nat, rank: nat)
    requires LeadingRun(calls) == |calls|
    ensures Compress(calls + [c], pid, rank) == if CanCompress(c.op) then [] else Flush(calls, c, pid, rank)
    ensures PendingRun(calls + [c]) == if CanCompress(c.op) then calls + [c] else []
  {
    var k, all := |calls|, calls + [c];
    LeadingRunAppend(calls, c);
    if CanCompress(c.op) {
      CompressRunOnly(all, pid, rank);
    } else {
      CompressUnfolds(all, k, pid, rank);
      assert all[..k] == calls && all[k] == c && all[k + 1..] == [];
      CompressRunOnly([], pid, rank);
    }
  }

  /** The compression seen from the back: a compressible call extends the pending run, any other call
      flushes it. */
  lemma {:induction false} CompressAppend(calls: seq<Call>, c: Call, pid: nat, rank: nat)
    ensures Compress(calls + [c], pid, rank) ==
            Compress(calls, pid, rank) + if CanCompress(c.op) then [] else Flush(PendingRun(calls), c, pid, rank)
    ensures PendingRun(calls + [c]) == if CanCompress(c.op) then PendingRun(calls) + [c] else []
    decreases |calls|
  {
    var k := LeadingRun(calls);
    if k < |calls| {
      CompressAppend(calls[k + 1..], c, pid, rank);
      AppendPrefix(calls, c, k, pid, rank);
      CompressUnfolds(calls, k, pid, rank);
    } else {
      CompressRunOnly(calls, pid, rank);
      AppendRun(calls, c, pid, rank);
    }
  }

  // ----- The count is conserved -----

  ghost function SumRecords(records: seq<Record>): nat {
    if records == [] then 0 else SumRecords(records[..|records| - 1]) + records[|records| - 1].count
  }

  lemma {:induction false} SumRecordsConcat(a: seq<Record>, b: seq<Record>)
    ensures SumRecords(a + b) == SumRecords(a) + SumRecords(b)
  {
    if b == [] {
      assert a + b == a;
    } else {
      SumRecordsConcat(a, b[..|b| - 1]);
      assert (a + b)[..|a + b| - 1] == a + b[..|b| - 1];
    }
  }

  lemma SumFlush(run: seq<Call>, c: Call, pid: nat, rank: nat)
    ensures SumRecords(Flush(run, c, pid, rank)) == SumCounts(run) % TWO64 + c.count
  {
    var p := PlainRecord(c, pid, rank);
    assert [p][..0] == [] && SumRecords([p]) == c.count;
    if run != [] {
      var r := RunRecord(run, c, pid, rank);
      assert [r][..0] == [] && [r, p][..1] == [r];
      assert Flush(run, c, pid, rank) == [r, p];
    } else {
      assert Flush(run, c, pid, rank) == [p];
    }
  }

  lemma SumCountsAppend(calls: seq<Call>, c: Call)
    ensures SumCounts(calls + [c]) == SumCounts(calls) + c.count
  {
    assert (calls + [c])[..|calls|] == calls;
  }

  lemma ModuloAdd(x: nat, y: nat, c: nat)
    requires x % TWO64 == y % TWO64
    ensures (x + c) % TWO64 == (y + c) % TWO64
  {
  }

  lemma ModuloOfPending(a: nat, b: nat)
    ensures (a + b % TWO64) % TWO64 == (a + b) % TWO64
  {
  }

  /** The records and the pending count hold the total, modulo the width of the accumulator. */
  ghost predicate Balanced(records: nat, pending: nat, total: nat) {
    (records + pending) % TWO64 == total % TWO64
  }

  lemma BalancedRun(records: nat, pending: nat, total: nat, count: nat)
    requires Balanced(records, pending, total)
    ensures Balanced(records, pending + count, total + count)
  {
    ModuloAdd(records + pending, total, count);
  }

  lemma BalancedFlush(records: nat, pending: nat, total: nat, count: nat)
    requires Balanced(records, pending, total)
    ensures Balanced(records + (pending % TWO64 + count), 0, total + count)
  {
    ModuloOfPending(records + count, pending);
    ModuloAdd(records + pending, total, count);
  }

  /** Every count is in a record or in the pending run. */
  ghost predicate Conserved(calls: seq<Call>, pid: nat, rank: nat) {
    Balanced(SumRecords(Compress(calls, pid, rank)), SumCounts(PendingRun(calls)), SumCounts(calls))
  }

  lemma RunSums(calls: seq<Call>, c: Call, pid: nat, rank: nat)
    requires CanCompress(c.op)
    ensures Compress(calls + [c], pid, rank) == Compress(calls, pid, rank)
    ensures SumCounts(PendingRun(calls + [c])) == SumCounts(PendingRun(calls)) + c.count
  {
    CompressAppend(calls, c, pid, rank);
    SumCountsAppend(PendingRun(calls), c);
  }

  lemma ConservedByRun(calls: seq<Call>, c: Call, pid: nat, rank: nat)
    requires Conserved(calls, pid, rank) && CanCompress(c.op)
    ensures Conserved(calls + [c], pid, rank)
  {
    RunSums(calls, c, pid, rank);
    SumCountsAppend(calls, c);
    BalancedRun(SumRecords(Compress(calls, pid, rank)), SumCounts(PendingRun(calls)), SumCounts(calls), c.count);
  }

  lemma FlushSums(calls: seq<Call>, c: Call, pid: nat, rank: nat)
    requires !CanCompress(c.op)
    ensures SumRecords(Compress(calls + [c], pid, rank)) ==
            SumRecords(Compress(calls, pid, rank)) + (SumCounts(PendingRun(calls)) % TWO64 + c.count)
    ensures PendingRun(calls + [c]) == []
  {
    var records, run := Compress(calls, pid, rank), PendingRun(calls);
    CompressAppend(calls, c, pid, rank);
    SumRecordsConcat(records, Flush(run, c, pid, rank));
    SumFlush(run, c, pid, rank);
  }

  lemma ConservedByFlush(calls: seq<Call>, c: Call, pid: nat, rank: nat)
    requires Conserved(calls, pid, rank) && !CanCompress(c.op)
    ensures Conserved(calls + [c], pid, rank)
  {
    FlushSums(calls, c, pid, rank);
    SumCountsAppend(calls, c);
    assert SumCounts([]) == 0;
    BalancedFlush(SumRecords(Compress(calls, pid, rank)), SumCounts(PendingRun(calls)), SumCounts(calls), c.count);
  }

  lemma {:induction false} CountConserved(calls: seq<Call>, pid: nat, rank: nat)
    ensures Conserved(calls, pid, rank)
  {
    if calls == [] {
      CompressRunOnly(calls, pid, rank);
    } else {
      var before, c := calls[..|calls| - 1], calls[|calls| - 1];
      CountConserved(before, pid, rank);
      assert calls == before + [c];
      if CanCompress(c.op) {
        ConservedByRun(before, c, pid, rank);
      } else {
        ConservedByFlush(before, c, pid, rank);
      }
    }
  }

  // ----- The probe as a state machine -----

  /** The state the probe keeps between calls. */
  datatype Status = Status(inGroup: bool, lastCallId: Op, lastComm: nat, repeatedCallNum: nat,
                           accumulatedCount: nat, buffer: seq<Record>, storage: seq<Record>)

  datatype Event = Collective(call: Call) | Start | End

  const FRESH: Status := Status(false, Invalid, NULL_COMM, 0, 0, [], [])

  /** Into the group buffer inside a group, into the storage outside. */
  function Add(st: Status, r: Record): Status {
    if st.inGroup then st.(buffer := st.buffer + [r]) else st.(storage := st.storage + [r])
  }

  function Accumulate(st: Status, c: Call): Status {
    st.(repeatedCallNum := st.repeatedCallNum + 1, lastCallId := c.op, lastComm := c.comm,
        accumulatedCount := (st.accumulatedCount + c.count) % TWO64)
  }

  function Reset(st: Status, op: Op): Status {
    st.(repeatedCallNum := 0, accumulatedCount := 0, lastComm := NULL_COMM, lastCallId := op)
  }

  /** Writes the accumulated run, if there is one, when call `c` ends it. */
  function EndRun(st: Status, c: Call, pid: nat, rank: nat): Status {
    if CanCompress(st.lastCallId) then
      Reset(Add(st, Record(st.lastComm, st.lastCallId, st.accumulatedCount, c.buff1, c.buff2, c.datatype_, pid,
                           c.time, c.device, rank, c.aux, 0, c.numDevices)), c.op)
    else st
  }

  function Observed(st: Status, e: Event, pid: nat, rank: nat): Status {
    match e
    case Start => st.(inGroup := true)
    case End => st.(inGroup := false, buffer := [], storage := st.storage + st.buffer)
    case Collective(c) =>
      if TooSmall(c.count) then st
      else if CanCompress(c.op) then Accumulate(st, c)
      else Add(EndRun(st, c, pid, rank), Record(c.comm, c.op, c.count, c.buff1, c.buff2, c.datatype_, pid,
                                               c.time, c.device, rank, c.aux, 0, c.numDevices))
  }

  function AllObserved(events: seq<Event>, pid: nat, rank: nat): Status {
    if events == [] then FRESH
    else Observed(AllObserved(events[..|events| - 1], pid, rank), events[|events| - 1], pid, rank)
  }

  // ----- The state machine compresses -----

  /** The accumulators describe the run. */
  ghost predicate Accumulates(st: Status, run: seq<Call>) {
    && st.repeatedCallNum == |run| && st.accumulatedCount == SumCounts(run) % TWO64
    && (CanCompress(st.lastCallId) <==> run != [])
    && (run != [] ==> st.lastCallId == run[|run| - 1].op && st.lastComm == run[|run| - 1].comm)
    && (run == [] ==> st.lastComm == NULL_COMM)
  }

  /** Storage followed by the group buffer is `out`; outside of groups nothing is buffered. */
  ghost predicate Holds(st: Status, out: seq<Record>) {
    st.storage + st.buffer == out && (!st.inGroup ==> st.buffer == [])
  }

  lemma AddHolds(st: Status, out: seq<Record>, r: Record)
    requires Holds(st, out)
    ensures Holds(Add(st, r), out + [r])
  {
  }

  lemma AccumulateRun(st: Status, run: seq<Call>, c: Call)
    requires Accumulates(st, run) && CanCompress(c.op)
    ensures Accumulates(Accumulate(st, c), run + [c])
  {
    SumCountsAppend(run, c);
    ModuloOfPending(c.count, SumCounts(run));
  }

  lemma FlushRun(st: Status, out: seq<Record>, run: seq<Call>, c: Call, pid: nat, rank: nat)
    requires Holds(st, out) && Accumulates(st, run) && !TooSmall(c.count) && !CanCompress(c.op)
    ensures var st' := Observed(st, Collective(c), pid, rank);
            Holds(st', out + Flush(run, c, pid, rank)) && Accumulates(st', [])
  {
    var st1 := EndRun(st, c, pid, rank);
    assert SumCounts([]) == 0;
    if run != [] {
      var r := RunRecord(run, c, pid, rank);
      AddHolds(st, out, r);
      AddHolds(st1, out + [r], PlainRecord(c, pid, rank));
      assert out + Flush(run, c, pid, rank) == out + [r] + [PlainRecord(c, pid, rank)];
    } else {
      AddHolds(st, out, PlainRecord(c, pid, rank));
    }
  }

  ghost function LargeCall(e: Event): seq<Call> {
    if e.Collective? && !TooSmall(e.call.count) then [e.call] else []
  }

  /** The large enough calls among the events, in order. */
  ghost function LargeCalls(events: seq<Event>): seq<Call> {
    if events == [] then [] else LargeCalls(events[..|events| - 1]) + LargeCall(events[|events| - 1])
  }

  lemma ObservedCall(st: Status, calls: seq<Call>, c: Call, pid: nat, rank: nat)
    requires Holds(st, Compress(calls, pid, rank)) && Accumulates(st, PendingRun(calls)) && !TooSmall(c.count)
    ensures var st' := Observed(st, Collective(c), pid, rank);
            Holds(st', Compress(calls + [c], pid, rank)) && Accumulates(st', PendingRun(calls + [c]))
  {
    var out, run := Compress(calls, pid, rank), PendingRun(calls);
    CompressAppend(calls, c, pid, rank);
    if CanCompress(c.op) {
      AccumulateRun(st, run, c);
      assert out + [] == out;
    } else {
      FlushRun(st, out, run, c, pid, rank);
    }
  }

  lemma ObservedEvent(st: Status, calls: seq<Call>, e: Event, pid: nat, rank: nat)
    requires Holds(st, Compress(calls, pid, rank)) && Accumulates(st, PendingRun(calls))
    ensures var st' := Observed(st, e, pid, rank);
            && Holds(st', Compress(calls + LargeCall(e), pid, rank))
            && Accumulates(st', PendingRun(calls + LargeCall(e)))
  {
    if LargeCall(e) == [] {
      assert calls + [] == calls;
    } else {
      ObservedCall(st, calls, e.call, pid, rank);
    }
  }

  /** Whatever the events and however they are grouped: what is stored and buffered is the compression
      of the large calls, and the accumulators hold what has not been written yet. */
  lemma {:induction false} ProbeCompresses(events: seq<Event>, pid: nat, rank: nat)
    ensures var st := AllObserved(events, pid, rank);
            && Holds(st, Compress(LargeCalls(events), pid, rank))
            && Accumulates(st, PendingRun(LargeCalls(events)))
  {
    if events == [] {
      CompressRunOnly([], pid, rank);
    } else {
      var before, e := events[..|events| - 1], events[|events| - 1];
      ProbeCompresses(before, pid, rank);
      ObservedEvent(AllObserved(before, pid, rank), LargeCalls(before), e, pid, rank);
    }
  }

  /** No count is lost: records, buffer and accumulator together hold the sum of all large calls. */
  lemma ProbeConservesCount(events: seq<Event>, pid: nat, rank: nat)
    ensures var st := AllObserved(events, pid, rank);
            Balanced(SumRecords(st.storage + st.buffer), st.accumulatedCount, SumCounts(LargeCalls(events)))
  {
    var calls := LargeCalls(events);
    ProbeCompresses(events, pid, rank);
    CountConserved(calls, pid, rank);
    PendingBalance(AllObserved(events, pid, rank), Compress(calls, pid, rank), PendingRun(calls), SumCounts(calls));
  }

  lemma PendingBalance(st: Status, records: seq<Record>, run: seq<Call>, total: nat)
    requires Holds(st, records) && Accumulates(st, run) && Balanced(SumRecords(records), SumCounts(run), total)
    ensures Balanced(SumRecords(st.storage + st.buffer), st.accumulatedCount, total)
  {
    ModuloOfPending(SumRecords(records), SumCounts(run));
  }

  /** A call of fewer than 1024 elements leaves no trace. */
  lemma SmallCallIgnored(st: Status, c: Call, pid: nat, rank: nat)
    requires c.count < 1024
    ensures Observed(st, Collective(c), pid, rank) == st
  {
  }

  /** A first large call is stored as it is, unless it is an AllGather or a ReduceScatter, which waits. */
  lemma FirstCall(c: Call, pid: nat, rank: nat)
    requires c.count >= 1024
    ensures var st := AllObserved([Collective(c)], pid, rank);
            if c.op == AllGather || c.op == ReduceScatter then
              st.storage == [] && st.accumulatedCount == c.count % TWO64 && st.lastCallId == c.op && st.lastComm == c.comm
            else
              && |st.storage| == 1 && st.accumulatedCount == 0
              && var r := st.storage[0]; r.op == c.op && r.comm == c.comm && r.count == c.count
  {
    assert [Collective(c)][..0] == [];
    assert AllObserved([], pid, rank) == FRESH;
  }

  /** Grouping does not matter: outside of groups, equal calls leave equal storage. */
  lemma GroupsAreTransparent(a: seq<Event>, b: seq<Event>, pid: nat, rank: nat)
    requires LargeCalls(a) == LargeCalls(b)
    requires !AllObserved(a, pid, rank).inGroup && !AllObserved(b, pid, rank).inGroup
    ensures AllObserved(a, pid, rank).storage == AllObserved(b, pid, rank).storage
  {
    ProbeCompresses(a, pid, rank);
    ProbeCompresses(b, pid, rank);
    var s, t := AllObserved(a, pid, rank), AllObserved(b, pid, rank);
    assert s.storage + [] == s.storage && t.storage + [] == t.storage;
  }

  // ----- The probe as the program has it -----

  class GlobalStatus {
    const pid: nat
    const rank: nat
    var inGroup: bool
    var lastCallId: Op
    var lastComm: nat
    var repeatedCallNum: nat
    var accumulatedCount: nat
    var tmpRecordBuffer: seq<Record>
    var storage: seq<Record>

    ghost function Value(): Status
      reads this
    {
      Status(inGroup, lastCallId, lastComm, repeatedCallNum, accumulatedCount, tmpRecordBuffer, storage)
    }

    constructor (pid: nat, rank: nat)
      ensures Value() == FRESH && this.pid == pid && this.rank == rank
    {
      this.pid, this.rank := pid, rank;
      inGroup, lastCallId, lastComm, repeatedCallNum, accumulatedCount := false, Invalid, NULL_COMM, 0, 0;
      tmpRecordBuffer, storage := [], [];
    }

    method UpdateAccumulation(op: Op, count: nat, comm: nat)
      modifies this
      ensures Value() == old(Value()).(repeatedCallNum := old(repeatedCallNum) + 1, lastCallId := op, lastComm := comm,
                                       accumulatedCount := (old(accumulatedCount) + count) % TWO64)
    {
      repeatedCallNum := repeatedCallNum + 1;
      lastCallId := op;
      lastComm := comm;
      accumulatedCount := (accumulatedCount + count) % TWO64;
    }

    method ResetAccumulation(op: Op)
      modifies this
      ensures Value() == Reset(old(Value()), op)
    {
      repeatedCallNum := 0;
      accumulatedCount := 0;
      lastComm := NULL_COMM;
      lastCallId := op;
    }

    method AddRecord(r: Record)
      modifies this
      ensures Value() == Add(old(Value()), r)
    {
      if inGroup {
        tmpRecordBuffer := tmpRecordBuffer + [r];
      } else {
        storage := storage + [r];
      }
    }

    /** `log_event`. */
    method LogEvent(c: Call)
      modifies this
      ensures Value() == Observed(old(Value()), Collective(c), pid, rank)
    {
      if TooSmall(c.count) {
        return;
      }
      if CanCompress(c.op) {
        UpdateAccumulation(c.op, c.count, c.comm);
        return;
      }
      if CanCompress(lastCallId) {
        AddRecord(Record(lastComm, lastCallId, accumulatedCount, c.buff1, c.buff2, c.datatype_, pid,
                         c.time, c.device, rank, c.aux, 0, c.numDevices));
        ResetAccumulation(c.op);
      }
      AddRecord(Record(c.comm, c.op, c.count, c.buff1, c.buff2, c.datatype_, pid,
                       c.time, c.device, rank, c.aux, 0, c.numDevices));
    }

    method GroupStart()
      modifies this
      ensures Value() == Observed(old(Value()), Start, pid, rank)
    {
      inGroup := true;
    }

    /** The end of a group in monitor state: the buffered records are written one by one. */
    method GroupEnd()
      modifies this
      ensures Value() == Observed(old(Value()), End, pid, rank)
    {
      var i := 0;
      while i < |tmpRecordBuffer|
        invariant i <= |tmpRecordBuffer|
        invariant Value() == old(Value()).(storage := old(storage) + tmpRecordBuffer[..i])
      {
        storage := storage + [tmpRecordBuffer[i]];
        i := i + 1;
      }
      assert tmpRecordBuffer[..i] == tmpRecordBuffer;
      tmpRecordBuffer := [];
      inGroup := false;
    }
  }

  /** The program's probe, from its initial state, through any sequence of events. */
  method Observe(probe: GlobalStatus, events: seq<Event>)
    requires probe.Value() == FRESH
    modifies probe
    ensures probe.Value() == AllObserved(events, probe.pid, probe.rank)
    ensures Holds(probe.Value(), Compress(LargeCalls(events), probe.pid, probe.rank))
  {
    for i := 0 to |events|
      invariant probe.Value() == AllObserved(events[..i], probe.pid, probe.rank)
    {
      assert events[..i + 1][..i] == events[..i];
      match events[i]
      case Collective(c) => probe.LogEvent(c);
      case Start => probe.GroupStart();
      case End => probe.GroupEnd();
    }
    assert events[..|events|] == events;
    ProbeCompresses(events, probe.pid, probe.rank);
  }
}
