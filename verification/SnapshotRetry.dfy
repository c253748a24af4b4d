/** How often the snapshot reader tries.

    An attempt fails when the event counter has moved, and the reader gives up after ten of them: it takes
    ten pushes to make it give up, ten are enough, and left alone it succeeds with the ring as it stands. */
module SnapshotRetry {
  import opened RecordRing
  import opened SnapshotReader

  // ----- Failed attempts and pushes -----

  ghost predicate InAttempt(r: Reader) {
    !r.Start? && !r.Accepted? && !r.GaveUp?
  }

  /** Every failed attempt saw a push of its own, and the tenth is the last. */
  ghost predicate AttemptsPaid(s0: System, s: System) {
    && s.attempt <= 10 && (s.reader.GaveUp? <==> s.attempt == 10)
    && s.pushes >= s0.pushes + s.attempt
    && (InAttempt(s.reader) ==> s.since >= s0.pushes + s.attempt)
  }

  lemma ReadKeepsPaid(s0: System, s: System, nf: nat, max: nat)
    requires Inv(s, nf, max) && AttemptsPaid(s0, s)
    ensures |s.mem| >= META && AttemptsPaid(s0, ReadStep(s))
  {
    MetaWord(s, nf, max, 6);
  }

  lemma WriterKeepsPaid(s0: System, s: System, a: Action)
    requires Sized(s) && AttemptsPaid(s0, s)
    ensures AttemptsPaid(s0, WriterStep(s, a))
  {
  }

  lemma {:induction false} ExecPaid(s0: System, actions: seq<Action>, nf: nat, max: nat)
    requires Quiescent(s0, nf, max)
    ensures AttemptsPaid(s0, Exec(s0, actions))
  {
    if actions != [] {
      var before, a := actions[..|actions| - 1], actions[|actions| - 1];
      ExecPaid(s0, before, nf, max);
      ExecInv(s0, before, nf, max);
      if a.Read? {
        ReadKeepsPaid(s0, Exec(s0, before), nf, max);
      } else if Sized(Exec(s0, before)) {
        WriterKeepsPaid(s0, Exec(s0, before), a);
      }
    }
  }

  /** The reader gives up only after ten pushes, one for each attempt. */
  lemma GivingUpTakesTenPushes(s0: System, actions: seq<Action>, nf: nat, max: nat)
    requires Quiescent(s0, nf, max)
    ensures var s := Exec(s0, actions);
            (s.reader.GaveUp? ==> s.pushes >= s0.pushes + 10) && s.attempt <= 10 && s.pushes >= s0.pushes + s.attempt
  {
    ExecPaid(s0, actions, nf, max);
  }

  // ----- A reader that is left alone -----

  predicate OnlyReads(actions: seq<Action>) {
    forall i :: 0 <= i < |actions| ==> actions[i].Read?
  }

  /** No push has completed since the attempt, if one is under way, began. */
  ghost predicate Current(s: System) {
    InAttempt(s.reader) ==> s.pushes == s.since
  }

  /** Loads ahead of the reader in its attempt, the records of a copy apart. */
  function Stage(r: Reader): nat {
    match r
    case Start => 6
    case GotCounter(_) => 5
    case GotFields(_, _) => 4
    case GotMax(_, _, _) => 3
    case GotNum(_, _, _, _) => 2
    case Copying(_, _, _, _, _, _, _) => 1
    case _ => 0
  }

  function RecordsLeft(r: Reader): int {
    if r.Copying? then r.num - |r.done| else 0
  }

  function WordsLeft(r: Reader): int {
    if r.Copying? then r.nf - |r.partial| else 0
  }

  /** What the reader has copied when its last counter read agrees, no push being under way. */
  lemma AcceptsContents(s: System, nf: nat, max: nat)
    requires Inv(s, nf, max) && s.writer.Idle? && s.pushes == s.since
    requires s.reader.Copying? && |s.reader.done| == s.reader.num
    ensures |s.mem| >= META && ReadStep(s) == s.(reader := Accepted(Contents(s.mem, nf, max)))
  {
    MetaWord(s, nf, max, 6);
    var old_ := ViewWhileCopying(s, nf, max);
    OldCopyIsGood(s, nf, max, s.reader.done);
  }

  lemma RejectsWhenMoved(s: System, nf: nat, max: nat)
    requires Inv(s, nf, max) && s.since < s.pushes < s.since + TWO64
    requires s.reader.Copying? && |s.reader.done| == s.reader.num
    ensures |s.mem| >= META
    ensures ReadStep(s) == s.(reader := if s.attempt + 1 < 10 then Start else GaveUp, attempt := s.attempt + 1)
  {
    MetaWord(s, nf, max, 6);
    if s.since % TWO64 == s.pushes % TWO64 {
      CounterDetectsPushes(s.since, s.pushes);
    }
  }

  lemma ExecFirst(s: System, a: Action, rest: seq<Action>)
    ensures Exec(s, [a] + rest) == Exec(Step(s, a), rest)
  {
    ExecSplits(s, [a], rest);
    assert [a][..0] == [] && Exec(s, []) == s;
  }

  /** While the reader has not made up its mind, a load brings it closer. */
  lemma ReadProgress(s: System, nf: nat, max: nat)
    requires Inv(s, nf, max) && s.writer.Idle? && !s.reader.Accepted? && !s.reader.GaveUp?
    requires s.reader.Copying? ==> |s.reader.done| < s.reader.num
    ensures |s.mem| >= META
    ensures var s' := ReadStep(s);
            && s' == s.(reader := s'.reader, since := s'.since) && InAttempt(s'.reader) && s'.attempt == s.attempt
            && s'.since == (if s.reader.Start? then s.pushes else s.since)
            && (Stage(s'.reader) < Stage(s.reader) || (Stage(s'.reader) == Stage(s.reader)
                && (0 <= RecordsLeft(s'.reader) < RecordsLeft(s.reader)
                    || (RecordsLeft(s'.reader) == RecordsLeft(s.reader) && 0 <= WordsLeft(s'.reader) < WordsLeft(s.reader)))))
  {
  }

  /** Left alone in an attempt, or before one, the reader accepts the ring as it stands; if a push has
      completed since the attempt began, it does so in the next one. */
  lemma {:induction false} ReadsAccept(s: System, nf: nat, max: nat) returns (more: seq<Action>)
    requires Inv(s, nf, max) && s.writer.Idle? && !s.reader.Accepted? && !s.reader.GaveUp?
    requires s.attempt < 9 || Current(s)
    requires InAttempt(s.reader) ==> s.pushes < s.since + TWO64
    ensures OnlyReads(more) && IsRing(s.mem, nf, max) && Exec(s, more).mem == s.mem
    ensures Exec(s, more).reader == Accepted(Contents(s.mem, nf, max))
    decreases if Current(s) then 0 else 1, Stage(s.reader), RecordsLeft(s.reader), WordsLeft(s.reader)
  {
    ReadKeepsInv(s, nf, max);
    var s' := ReadStep(s);
    var rest := [];
    if s.reader.Copying? && |s.reader.done| == s.reader.num {
      if Current(s) {
        AcceptsContents(s, nf, max);
      } else {
        RejectsWhenMoved(s, nf, max);
        rest := ReadsAccept(s', nf, max);
      }
    } else {
      ReadProgress(s, nf, max);
      rest := ReadsAccept(s', nf, max);
    }
    ExecFirst(s, Read, rest);
    more := [Read] + rest;
  }

  /** From every reachable state in which no push is under way and fewer than nine attempts have failed,
      loads alone lead to a snapshot: the one the reader has already accepted, or the ring as it stands. */
  lemma IdleReaderSucceeds(s0: System, before: seq<Action>, nf: nat, max: nat) returns (more: seq<Action>)
    requires Quiescent(s0, nf, max)
    requires var s := Exec(s0, before); s.writer.Idle? && s.attempt < 9 && (InAttempt(s.reader) ==> s.pushes < s.since + TWO64)
    ensures OnlyReads(more) && IsRing(Exec(s0, before).mem, nf, max)
    ensures var s := Exec(s0, before);
            Exec(s, more).reader == if s.reader.Accepted? then s.reader else Accepted(Contents(s.mem, nf, max))
  {
    var s := Exec(s0, before);
    ExecInv(s0, before, nf, max);
    ExecPaid(s0, before, nf, max);
    if s.reader.Accepted? {
      more := [];
    } else {
      more := ReadsAccept(s, nf, max);
    }
  }

  // ----- Ten pushes are enough -----

  /** A reader whose attempt a push has spoiled fails it. */
  lemma {:induction false} ReadsReject(s: System, nf: nat, max: nat) returns (more: seq<Action>)
    requires Inv(s, nf, max) && s.writer.Idle? && InAttempt(s.reader) && s.pushes == s.since + 1
    ensures var t := Exec(s, more);
            && Inv(t, nf, max) && t.writer.Idle? && t.pushes == s.pushes && t.attempt == s.attempt + 1
            && t.reader == if s.attempt + 1 < 10 then Start else GaveUp
    decreases Stage(s.reader), RecordsLeft(s.reader), WordsLeft(s.reader)
  {
    ReadKeepsInv(s, nf, max);
    var s' := ReadStep(s);
    var rest := [];
    if s.reader.Copying? && |s.reader.done| == s.reader.num {
      RejectsWhenMoved(s, nf, max);
    } else {
      ReadProgress(s, nf, max);
      rest := ReadsReject(s', nf, max);
    }
    ExecFirst(s, Read, rest);
    more := [Read] + rest;
  }

  ghost predicate SameReader(s: System, t: System) {
    t.reader == s.reader && t.since == s.since && t.attempt == s.attempt
  }

  ghost predicate SlotWrittenAll(s: System) {
    s.writer.Busy? && forall j :: 0 <= j < |s.writer.record| ==> j in s.writer.written
  }

  /** The next metadata word of a push, or its last. */
  lemma MetaStep(s: System, nf: nat, max: nat)
    requires Inv(s, nf, max) && SlotWrittenAll(s)
    ensures s.writer.stage <= 5 && Sized(s)
    ensures var s' := WriterStep(s, WriteMeta);
            && Inv(s', nf, max) && SameReader(s, s')
            && if s.writer.stage < 5
               then SlotWrittenAll(s') && s'.writer.stage == s.writer.stage + 1 && s'.pushes == s.pushes
               else s'.writer.Idle? && s'.pushes == s.pushes + 1
  {
    WriterKeepsInv(s, nf, max, WriteMeta);
  }

  /** A writer that has filled its slot completes the push. */
  lemma {:induction false} MetaAlone(s: System, nf: nat, max: nat) returns (more: seq<Action>)
    requires Inv(s, nf, max) && SlotWrittenAll(s)
    ensures var t := Exec(s, more);
            Inv(t, nf, max) && t.writer.Idle? && t.pushes == s.pushes + 1 && SameReader(s, t)
    decreases 6 - s.writer.stage
  {
    MetaStep(s, nf, max);
    var rest := [];
    if s.writer.stage < 5 {
      rest := MetaAlone(WriterStep(s, WriteMeta), nf, max);
    }
    ExecFirst(s, WriteMeta, rest);
    more := [WriteMeta] + rest;
  }

  lemma FillSlot(s: System, nf: nat, max: nat) returns (more: seq<Action>)
    requires Inv(s, nf, max) && s.writer.Idle?
    ensures var t := Exec(s, more); Inv(t, nf, max) && SlotWrittenAll(t) && t.pushes == s.pushes && SameReader(s, t)
  {
    var record: Record := seq(nf, _ => 0);
    more := WriteSlotAlone(s, nf, max, record, nf);
    ExecInv(s, more, nf, max);
  }

  lemma PushAlone(s: System, nf: nat, max: nat) returns (more: seq<Action>)
    requires Inv(s, nf, max) && s.writer.Idle?
    ensures var t := Exec(s, more); Inv(t, nf, max) && t.writer.Idle? && t.pushes == s.pushes + 1 && SameReader(s, t)
  {
    var writes := FillSlot(s, nf, max);
    var rest := MetaAlone(Exec(s, writes), nf, max);
    ExecSplits(s, writes, rest);
    more := writes + rest;
  }

  lemma SpoilAttempt(s: System, nf: nat, max: nat) returns (more: seq<Action>)
    requires Inv(s, nf, max) && s.writer.Idle? && s.reader.Start?
    ensures var t := Exec(s, more);
            && Inv(t, nf, max) && t.writer.Idle? && t.pushes == s.pushes + 1 && t.attempt == s.attempt + 1
            && t.reader == if s.attempt + 1 < 10 then Start else GaveUp
  {
    ReadKeepsInv(s, nf, max);
    var s1 := ReadStep(s);
    var pushing := PushAlone(s1, nf, max);
    var s2 := Exec(s1, pushing);
    var reading := ReadsReject(s2, nf, max);
    ExecSplits(s1, pushing, reading);
    ExecFirst(s, Read, pushing + reading);
    more := [Read] + (pushing + reading);
  }

  lemma {:induction false} SpoilAll(s: System, nf: nat, max: nat) returns (more: seq<Action>)
    requires Inv(s, nf, max) && s.writer.Idle? && s.reader.Start? && s.attempt < 10
    ensures var t := Exec(s, more); t.reader.GaveUp? && t.pushes == s.pushes + (10 - s.attempt)
    decreases 10 - s.attempt
  {
    var first := SpoilAttempt(s, nf, max);
    var rest := [];
    if s.attempt + 1 < 10 {
      rest := SpoilAll(Exec(s, first), nf, max);
    }
    ExecSplits(s, first, rest);
    more := first + rest;
  }

  /** Ten pushes, one in each attempt, do make it give up. */
  lemma TenPushesCanSpoil(s0: System, nf: nat, max: nat) returns (actions: seq<Action>)
    requires Quiescent(s0, nf, max)
    ensures Exec(s0, actions).reader.GaveUp? && Exec(s0, actions).pushes == s0.pushes + 10
  {
    actions := SpoilAll(s0, nf, max);
  }
}
