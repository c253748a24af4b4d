/** The control-state broadcast.

    Rank 0 reads the control state from the key-value store and broadcasts a device cell; every rank
    takes its state from the cell.  The state VALIDATE sends a rank into a pause loop that repeats a
    broadcast until the cell reads zero.  A rank is described by the place of its next broadcast, its
    state and its cell; the cell is not initialised by the program, so it may start with any value. */
module ControlSignal {
  import opened Wrappers
  import opened TaskText

  const MONITOR: int := 0
  const VALIDATE: int := 2

  /** What a read of the `control_state` key returns; `None` when the reply is not a string. */
  type Stored = Option<string>

  /** `std::string::operator[](0)`: the terminator when the string is empty. */
  function FirstChar(s: string): char {
    if s == "" then '\0' else s[0]
  }

  /** The state rank 0 reads at the start of a check. */
  function MasterState(v: Stored): int {
    if v.Some? && FirstChar(v.value) != '\0' then FirstChar(v.value) as int - '0' as int else MONITOR
  }

  /** Rank 0 in the pause loop: may the ranks go on? */
  predicate MayContinue(v: Stored) {
    v.Some? && FirstChar(v.value) != '2'
  }

  /** The two places where a rank calls the broadcast. */
  datatype Place = Check | Pause

  datatype Rank = Rank(place: Place, state: int, cell: int)

  function Fresh(cell: int): Rank {
    Rank(Check, MONITOR, cell)
  }

  /** What every rank does with the broadcast value. */
  function Receive(p: Rank, value: int): Rank {
    match p.place
    case Check => Rank(if value == VALIDATE then Pause else Check, value, value)
    case Pause => Rank(if value == 0 then Check else Pause, p.state, value)
  }

  /** The value rank 0 broadcasts after reading `v`. */
  function CellToSend(p: Rank, v: Stored): int {
    match p.place
    case Check => if MasterState(v) != p.state then MasterState(v) else p.cell
    case Pause => if MayContinue(v) then 0 else p.cell
  }

  function RootStep(p: Rank, v: Stored): Rank {
    Receive(p, CellToSend(p, v))
  }

  /** Rank 0 after reading the values `seen`, one for each broadcast. */
  function Root(p: Rank, seen: seq<Stored>): Rank {
    if seen == [] then p else RootStep(Root(p, seen[..|seen| - 1]), seen[|seen| - 1])
  }

  /** Any other rank after receiving `values`. */
  function Follower(p: Rank, values: seq<int>): Rank {
    if values == [] then p else Receive(Follower(p, values[..|values| - 1]), values[|values| - 1])
  }

  lemma RootAppend(p: Rank, seen: seq<Stored>, v: Stored)
    ensures Root(p, seen + [v]) == RootStep(Root(p, seen), v)
  {
    assert (seen + [v])[..|seen|] == seen;
  }

  lemma FollowerAppend(p: Rank, values: seq<int>, value: int)
    ensures Follower(p, values + [value]) == Receive(Follower(p, values), value)
  {
    assert (values + [value])[..|values|] == values;
  }

  // ----- One control check, as the program runs it -----

  class EventHandler {
    var state: int
    var cell: int
    /** How many times the worker has looked for a validation task. */
    var fetches: nat

    constructor (cell: int)
      ensures this.state == MONITOR && this.cell == cell && fetches == 0
    {
      this.state, this.cell, this.fetches := MONITOR, cell, 0;
    }

    /** `handle_control_signal` on rank 0.  `seen` are the values the store returns, the first for the
        check itself and one for each turn of the pause loop; the loop stops when the ranks may go on
        or when no more reads are given.  `sent` are the broadcast values. */
    method HandleAsRoot(seen: seq<Stored>) returns (sent: seq<int>, paused: bool)
      requires seen != []
      modifies this
      ensures 1 <= |sent| <= |seen| && (!paused || |sent| == |seen|)
      ensures Rank(if paused then Pause else Check, state, cell)
              == Root(Rank(Check, old(state), old(cell)), seen[..|sent|])
      ensures Rank(if paused then Pause else Check, state, cell)
              == Follower(Rank(Check, old(state), old(cell)), sent)
      ensures forall i :: 1 <= i < |sent| ==> Root(Rank(Check, old(state), old(cell)), seen[..i]).place.Pause?
      ensures fetches == old(fetches) + |sent| - 1
    {
      ghost var start := Rank(Check, state, cell);
      var master := MasterState(seen[0]);
      if master != state {
        cell := master;
      }
      sent := [cell];
      state := cell;
      paused := cell == VALIDATE;
      assert seen[..1][..0] == [] && Root(start, seen[..0]) == start;
      assert Root(start, seen[..1]) == Rank(if paused then Pause else Check, state, cell);
      assert sent[..0] == [] && Follower(start, []) == start;
      while paused && |sent| < |seen|
        invariant 1 <= |sent| <= |seen|
        invariant Rank(if paused then Pause else Check, state, cell) == Root(start, seen[..|sent|])
        invariant Rank(if paused then Pause else Check, state, cell) == Follower(start, sent)
        invariant forall i :: 1 <= i < |sent| ==> Root(start, seen[..i]).place.Pause?
        invariant fetches == old(fetches) + |sent| - 1
        decreases |seen| - |sent|
      {
        fetches := fetches + 1;
        ghost var k := |sent|;
        if MayContinue(seen[|sent|]) {
          cell := 0;
        }
        sent := sent + [cell];
        if cell == 0 {
          paused := false;
        }
        RootAppend(start, seen[..k], seen[k]);
        FollowerAppend(start, sent[..k], cell);
        assert seen[..k + 1] == seen[..k] + [seen[k]] && sent == sent[..k] + [cell];
      }
    }

    /** `handle_control_signal` on any other rank; `values` are the broadcasts it takes part in. */
    method HandleAsFollower(values: seq<int>) returns (used: nat, paused: bool)
      requires values != []
      modifies this
      ensures 1 <= used <= |values| && (!paused || used == |values|)
      ensures Rank(if paused then Pause else Check, state, cell)
              == Follower(Rank(Check, old(state), old(cell)), values[..used])
      ensures fetches == old(fetches) + used - 1
    {
      ghost var start := Rank(Check, state, cell);
      cell := values[0];
      state := cell;
      used, paused := 1, state == VALIDATE;
      assert values[..1][..0] == [] && Follower(start, []) == start;
      while paused && used < |values|
        invariant 1 <= used <= |values|
        invariant Rank(if paused then Pause else Check, state, cell) == Follower(start, values[..used])
        invariant fetches == old(fetches) + used - 1
        decreases |values| - used
      {
        fetches := fetches + 1;
        cell := values[used];
        if cell == 0 {
          paused := false;
        }
        assert values[..used + 1][..used] == values[..used];
        used := used + 1;
      }
    }
  }

  // ----- All ranks together -----

  /** `done[r]` is the number of broadcasts rank `r` has completed.  Rank 0 may be ahead of the others
      by any number of them; `seen` and `sent` record what it read and broadcast. */
  datatype World = World(ranks: seq<Rank>, done: seq<nat>, seen: seq<Stored>, sent: seq<int>)

  datatype Action = Broadcast(stored: Stored) | Deliver(rank: nat)

  function Start(cells: seq<int>): World {
    World(seq(|cells|, i requires 0 <= i < |cells| => Fresh(cells[i])), seq(|cells|, _ => 0), [], [])
  }

  function Step(w: World, a: Action): World
    requires |w.ranks| == |w.done| && |w.ranks| > 0
  {
    match a
    case Broadcast(v) =>
      var value := CellToSend(w.ranks[0], v);
      World(w.ranks[0 := Receive(w.ranks[0], value)], w.done[0 := w.done[0] + 1], w.seen + [v], w.sent + [value])
    case Deliver(r) =>
      if 0 < r < |w.ranks| && w.done[r] < |w.sent| then
        w.(ranks := w.ranks[r := Receive(w.ranks[r], w.sent[w.done[r]])], done := w.done[r := w.done[r] + 1])
      else w
  }

  function Run(cells: seq<int>, actions: seq<Action>): (w: World)
    requires |cells| > 0
    ensures |w.ranks| == |w.done| == |cells|
  {
    if actions == [] then Start(cells)
    else Step(Run(cells, actions[..|actions| - 1]), actions[|actions| - 1])
  }

  /** Reading `seen` and receiving `sent` lead to the same rank after every broadcast. */
  ghost predicate Together(p: Rank, seen: seq<Stored>, sent: seq<int>) {
    |seen| == |sent| && forall k :: 0 <= k <= |sent| ==> Root(p, seen[..k]) == Follower(p, sent[..k])
  }

  /** Every rank is where the broadcasts it has completed put it. */
  ghost predicate Consistent(cells: seq<int>, w: World) {
    && |w.ranks| == |w.done| == |cells| > 0
    && w.done[0] == |w.sent| == |w.seen|
    && w.ranks[0] == Root(Fresh(cells[0]), w.seen)
    && (forall r :: 0 <= r < |w.ranks| ==>
          w.done[r] <= |w.sent| && w.ranks[r] == Follower(Fresh(cells[r]), w.sent[..w.done[r]]))
    && Together(Fresh(cells[0]), w.seen, w.sent)
  }

  /** One more broadcast keeps the root machine and the follower machine together. */
  lemma MachinesStayTogether(p: Rank, seen: seq<Stored>, sent: seq<int>, v: Stored)
    requires Root(p, seen) == Follower(p, sent)
    ensures var value := CellToSend(Root(p, seen), v);
            Receive(Root(p, seen), value) == Root(p, seen + [v]) == Follower(p, sent + [value])
  {
    RootAppend(p, seen, v);
    FollowerAppend(p, sent, CellToSend(Root(p, seen), v));
  }

  lemma TogetherAppend(p: Rank, seen: seq<Stored>, sent: seq<int>, v: Stored)
    requires Together(p, seen, sent)
    ensures Together(p, seen + [v], sent + [CellToSend(Root(p, seen), v)])
  {
    var n, seen', sent' := |sent|, seen + [v], sent + [CellToSend(Root(p, seen), v)];
    assert seen[..n] == seen && sent[..n] == sent;
    MachinesStayTogether(p, seen, sent, v);
    forall k | 0 <= k <= n + 1 ensures Root(p, seen'[..k]) == Follower(p, sent'[..k]) {
      assert if k <= n then seen'[..k] == seen[..k] && sent'[..k] == sent[..k] else seen'[..k] == seen' && sent'[..k] == sent';
    }
  }

  lemma BroadcastMovesRoot(cells: seq<int>, w: World, v: Stored)
    requires Consistent(cells, w)
    ensures var w' := Step(w, Broadcast(v));
            && Together(Fresh(cells[0]), w'.seen, w'.sent)
            && w'.ranks[0] == Root(Fresh(cells[0]), w'.seen) == Follower(Fresh(cells[0]), w'.sent)
  {
    var n := |w.sent|;
    assert w.sent[..n] == w.sent && w.seen[..n] == w.seen;
    MachinesStayTogether(Fresh(cells[0]), w.seen, w.sent, v);
    TogetherAppend(Fresh(cells[0]), w.seen, w.sent, v);
  }

  lemma BroadcastKeepsConsistent(cells: seq<int>, w: World, v: Stored)
    requires Consistent(cells, w)
    ensures Consistent(cells, Step(w, Broadcast(v)))
  {
    var w', n := Step(w, Broadcast(v)), |w.sent|;
    BroadcastMovesRoot(cells, w, v);
    forall r | 0 <= r < |w'.ranks|
      ensures w'.done[r] <= |w'.sent| && w'.ranks[r] == Follower(Fresh(cells[r]), w'.sent[..w'.done[r]])
    {
      assert if r == 0 then w'.sent[..n + 1] == w'.sent else w'.sent[..w.done[r]] == w.sent[..w.done[r]];
    }
  }

  lemma DeliverKeepsConsistent(cells: seq<int>, w: World, r: nat)
    requires Consistent(cells, w)
    ensures Consistent(cells, Step(w, Deliver(r)))
  {
    if 0 < r < |w.ranks| && w.done[r] < |w.sent| {
      var k := w.done[r];
      assert w.sent[..k + 1][..k] == w.sent[..k];
    }
  }

  lemma {:induction false} RunConsistent(cells: seq<int>, actions: seq<Action>)
    requires |cells| > 0
    ensures Consistent(cells, Run(cells, actions))
  {
    if actions != [] {
      RunConsistent(cells, actions[..|actions| - 1]);
      var w, a := Run(cells, actions[..|actions| - 1]), actions[|actions| - 1];
      match a
      case Broadcast(v) => BroadcastKeepsConsistent(cells, w, v);
      case Deliver(r) => DeliverKeepsConsistent(cells, w, r);
    }
  }

  /** The first broadcast makes a rank forget what its cell held. */
  lemma {:induction false} InitialCellForgotten(a: int, b: int, values: seq<int>)
    requires values != []
    ensures Follower(Fresh(a), values) == Follower(Fresh(b), values)
  {
    if |values| > 1 {
      InitialCellForgotten(a, b, values[..|values| - 1]);
    } else {
      assert values[..0] == [];
    }
  }

  /** Any two ranks that have completed the same broadcasts, at least one, agree in everything: they
      hold the same state, and they are both inside the pause loop or both outside of it. */
  lemma RanksAgree(cells: seq<int>, actions: seq<Action>, r: nat, q: nat)
    requires |cells| > 0 && r < |cells| && q < |cells|
    requires var w := Run(cells, actions); w.done[r] == w.done[q] > 0
    ensures Run(cells, actions).ranks[r] == Run(cells, actions).ranks[q]
  {
    var w := Run(cells, actions);
    RunConsistent(cells, actions);
    InitialCellForgotten(cells[r], cells[q], w.sent[..w.done[r]]);
  }

  lemma RunLast(cells: seq<int>, actions: seq<Action>, a: Action)
    requires |cells| > 0
    ensures Run(cells, actions + [a]) == Step(Run(cells, actions), a)
  {
    assert (actions + [a])[..|actions|] == actions;
  }

  /** Rank `r` has `left` broadcasts to complete. */
  ghost predicate Behind(w: World, r: nat, left: nat) {
    r < |w.done| && w.done[r] + left == |w.sent|
  }

  /** `w'` is `w` with only rank `r` further on. */
  ghost predicate OnlyRank(w: World, w': World, r: nat) {
    r < |w.done| == |w'.done| && w'.sent == w.sent && w'.seen == w.seen && w'.done == w.done[r := w'.done[r]]
  }

  lemma NotAhead(cells: seq<int>, actions: seq<Action>, r: nat) returns (left: nat)
    requires r < |cells|
    ensures Behind(Run(cells, actions), r, left)
  {
    RunConsistent(cells, actions);
    left := |Run(cells, actions).sent| - Run(cells, actions).done[r];
  }

  /** A rank that is behind completes one more broadcast. */
  lemma DeliverCompletesOne(cells: seq<int>, actions: seq<Action>, r: nat, left: nat)
    requires 0 < r < |cells| && left > 0 && Behind(Run(cells, actions), r, left)
    ensures var w, w' := Run(cells, actions), Run(cells, actions + [Deliver(r)]);
            OnlyRank(w, w', r) && Behind(w', r, left - 1)
  {
    RunLast(cells, actions, Deliver(r));
  }

  /** Any other rank can complete the broadcasts it has missed. */
  lemma {:induction false} RankCatchesUp(cells: seq<int>, actions: seq<Action>, r: nat, left: nat) returns (more: seq<Action>)
    requires 0 < r < |cells| && Behind(Run(cells, actions), r, left)
    ensures OnlyRank(Run(cells, actions), Run(cells, actions + more), r) && Behind(Run(cells, actions + more), r, 0)
    decreases left
  {
    more := [];
    assert actions + [] == actions;
    if left > 0 {
      DeliverCompletesOne(cells, actions, r, left);
      var rest := RankCatchesUp(cells, actions + [Deliver(r)], r, left - 1);
      more := [Deliver(r)] + rest;
      assert actions + more == actions + [Deliver(r)] + rest;
    }
  }

  /** From every reachable state the first `n` ranks can complete all broadcasts sent so far. */
  lemma {:induction false} RanksCatchUp(cells: seq<int>, actions: seq<Action>, n: nat) returns (more: seq<Action>)
    requires 0 < n <= |cells|
    ensures var w, w' := Run(cells, actions), Run(cells, actions + more);
            w'.sent == w.sent && w'.seen == w.seen && forall r :: 0 <= r < n ==> w'.done[r] == |w.sent|
  {
    if n == 1 {
      more := [];
      assert actions + [] == actions;
      RunConsistent(cells, actions);
    } else {
      var first := RanksCatchUp(cells, actions, n - 1);
      var left := NotAhead(cells, actions + first, n - 1);
      var rest := RankCatchesUp(cells, actions + first, n - 1, left);
      more := first + rest;
      assert actions + more == actions + first + rest;
    }
  }

  /** So from every reachable state some continuation without a further broadcast brings all ranks into
      agreement. */
  lemma CanAgree(cells: seq<int>, actions: seq<Action>) returns (more: seq<Action>)
    requires |cells| > 0 && Run(cells, actions).sent != []
    ensures var w := Run(cells, actions + more);
            w.sent == Run(cells, actions).sent && forall r :: 0 <= r < |w.ranks| ==> w.ranks[r] == w.ranks[0]
  {
    more := RanksCatchUp(cells, actions, |cells|);
    forall r | 0 <= r < |cells| ensures Run(cells, actions + more).ranks[r] == Run(cells, actions + more).ranks[0] {
      RanksAgree(cells, actions + more, r, 0);
    }
  }

  // ----- How long a stored state takes to be adopted -----

  /** Number of control checks that rank 0 starts while reading `seen`. */
  function ChecksStarted(p: Rank, seen: seq<Stored>): nat {
    if seen == [] then 0
    else ChecksStarted(p, seen[..|seen| - 1]) + if Root(p, seen[..|seen| - 1]).place.Check? then 1 else 0
  }

  ghost predicate AllReads(seen: seq<Stored>, v: Stored) {
    forall i :: 0 <= i < |seen| ==> seen[i] == v
  }

  /** The rank holds the wanted state and nothing will move it away while `v` stays stored. */
  ghost predicate Settled(p: Rank, v: Stored) {
    p.state == MasterState(v) == p.cell && (p.place.Pause? <==> p.state == VALIDATE)
  }

  /** Where rank 0 can be after one check of a new stored state. */
  ghost predicate Turning(p: Rank, v: Stored) {
    || Settled(p, v)
    || (p.place.Check? && p.cell == p.state)
    || (p.state == VALIDATE && MasterState(v) != VALIDATE)
  }

  lemma {:induction false} AdoptionInvariant(p: Rank, seen: seq<Stored>, v: Stored)
    requires p.place.Check? && v.Some? && AllReads(seen, v)
    ensures var k := ChecksStarted(p, seen);
            (k == 0 ==> seen == []) && (k == 1 ==> Turning(Root(p, seen), v)) && (k >= 2 ==> Settled(Root(p, seen), v))
  {
    if seen != [] {
      AdoptionInvariant(p, seen[..|seen| - 1], v);
    }
  }

  /** From whatever state and cell it starts, once two checks have been made while `v` stays stored,
      rank 0 holds the state `v` names. */
  lemma AdoptedWithinTwoChecks(p: Rank, seen: seq<Stored>, v: Stored)
    requires p.place.Check? && v.Some? && AllReads(seen, v)
    requires ChecksStarted(p, seen) >= 2
    ensures Root(p, seen).state == MasterState(v)
  {
    AdoptionInvariant(p, seen, v);
  }

  /** One check is enough exactly when the stored state is news or the cell is in step with the state. */
  lemma AdoptedAtOnceIff(p: Rank, v: Stored)
    requires p.place.Check?
    ensures RootStep(p, v).state == MasterState(v) <==> MasterState(v) != p.state || p.cell == p.state
  {
  }

  /** Out of step means: just out of a pause. */
  lemma {:induction false} OutOfStepOnlyAfterPause(seen: seq<Stored>)
    ensures var p := Root(Fresh(MONITOR), seen);
            p.cell == p.state || (p.place.Check? && p.state == VALIDATE && p.cell == MONITOR)
    ensures var p := Root(Fresh(MONITOR), seen); p.place.Pause? ==> p.state == VALIDATE
  {
    if seen != [] {
      OutOfStepOnlyAfterPause(seen[..|seen| - 1]);
    }
  }

  /** The whole cluster: when rank 0 starts a check after `i` broadcasts and then reads `v` for as long
      as it takes to start two checks, every rank that has completed those broadcasts holds the state
      `v` names. */
  lemma EveryRankAdopts(cells: seq<int>, actions: seq<Action>, i: nat, v: Stored, r: nat)
    requires |cells| > 0 && r < |cells| && v.Some?
    requires var w := Run(cells, actions); i <= w.done[r] <= |w.seen| && w.done[r] > 0
    requires var w := Run(cells, actions); var p := Root(Fresh(cells[0]), w.seen[..i]);
             p.place.Check? && AllReads(w.seen[i..w.done[r]], v) && ChecksStarted(p, w.seen[i..w.done[r]]) >= 2
    ensures Run(cells, actions).ranks[r].state == MasterState(v)
  {
    var w := Run(cells, actions);
    var k := w.done[r];
    RunConsistent(cells, actions);
    InitialCellForgotten(cells[0], cells[r], w.sent[..k]);
    RootSplits(Fresh(cells[0]), w.seen[..k], i);
    assert w.seen[..k][..i] == w.seen[..i] && w.seen[..k][i..] == w.seen[i..k];
    AdoptedWithinTwoChecks(Root(Fresh(cells[0]), w.seen[..i]), w.seen[i..k], v);
  }

  lemma {:induction false} RootSplits(p: Rank, seen: seq<Stored>, i: nat)
    requires i <= |seen|
    ensures Root(p, seen) == Root(Root(p, seen[..i]), seen[i..])
    decreases |seen|
  {
    if i < |seen| {
      var n := |seen| - 1;
      RootSplits(p, seen[..n], i);
      assert seen[..n][..i] == seen[..i] && seen[i..][..n - i] == seen[..n][i..];
    } else {
      assert seen[..i] == seen;
    }
  }

  // ----- What the stored text means -----

  lemma DecimalStart(n: nat)
    requires n < 10
    ensures Decimal(n) == [DigitChar(n)]
  {
  }

  /** The controller stores the state as a numeral: rank 0 reads back its number, and may go on exactly when
      it is not 2.  Nothing stored is the monitor state, and does not end a pause. */
  lemma StoredStateIsRead(n: nat)
    requires n < 10
    ensures MasterState(Some(Decimal(n))) == n
    ensures MayContinue(Some(Decimal(n))) <==> n != 2
    ensures MasterState(None) == MasterState(Some("")) == 0 && !MayContinue(None) && MayContinue(Some(""))
  {
    DecimalStart(n);
  }

  /** The stored text begins with a 2. */
  predicate AsksForPause(v: Stored) {
    v.Some? && v.value != "" && v.value[0] == '2'
  }

  /** A check pauses the ranks exactly when it reads a 2, unless a pause has just ended. */
  lemma PausesIff(p: Rank, v: Stored)
    requires p.place.Check? && p.cell == p.state != 2
    ensures RootStep(p, v).place.Pause? <==> AsksForPause(v)
    ensures RootStep(p, v).state == RootStep(p, v).cell
  {
  }

  /** From the start on, a pause ends with the first read of a stored text that does not begin with a 2, and
      goes on with every other read. */
  lemma PauseEndsIff(seen: seq<Stored>, v: Stored)
    requires Root(Fresh(MONITOR), seen).place.Pause?
    ensures Root(Fresh(MONITOR), seen + [v]).place.Check? <==> v.Some? && !AsksForPause(v)
    ensures Root(Fresh(MONITOR), seen + [v]).state == 2
  {
    OutOfStepOnlyAfterPause(seen);
    assert (seen + [v])[..|seen|] == seen;
  }
}
