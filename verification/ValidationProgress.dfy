/** Validation can always be finished: from every state the protocol can reach, some continuation takes
    the controller through all rounds.  No fairness is assumed; the continuation is one of many. */
module ValidationProgress {
  import opened TaskText
  import opened FiniteSets
  import opened ValidationProtocol

  /** The state after more actions. */
  function RunFrom(plan: seq<Round>, s: System, actions: seq<Action>): System
    decreases |actions|
  {
    if actions == [] then s else RunFrom(plan, Step(plan, s, actions[0]), actions[1..])
  }

  lemma {:induction false} ExecThenRun(plan: seq<Round>, size: nat, before: seq<Action>, more: seq<Action>)
    ensures Exec(plan, size, before + more) == RunFrom(plan, Exec(plan, size, before), more)
    decreases |more|
  {
    if more == [] {
      assert before + more == before;
    } else {
      var first := before + [more[0]];
      assert first[..|before|] == before;
      assert before + more == first + more[1..];
      ExecThenRun(plan, size, first, more[1..]);
    }
  }

  // ----- What is left to do -----

  /** Steps worker `r` still has to take for the task it is at or can see. */
  function Work(s: System, r: nat): nat
    requires r < |s.workers|
  {
    match s.workers[r]
    case Idle => if r in s.tasks && Takes(s.tasks[r].text) then 3 else 0
    case Fetched(_) => 2
    case Running(_) => 1
  }

  function TotalWork(s: System, n: nat): nat
    requires n <= |s.workers|
  {
    if n == 0 then 0 else TotalWork(s, n - 1) + Work(s, n - 1)
  }

  lemma {:induction false} WorkDecreases(s: System, s': System, r: nat, n: nat)
    requires n <= |s.workers| == |s'.workers| && r < |s.workers| && Work(s', r) < Work(s, r)
    requires forall q :: 0 <= q < |s.workers| && q != r ==> Work(s', q) == Work(s, q)
    ensures TotalWork(s', n) <= TotalWork(s, n) && (r < n ==> TotalWork(s', n) < TotalWork(s, n))
  {
    if n > 0 {
      WorkDecreases(s, s', r, n - 1);
    }
  }

  lemma {:induction false} SameWork(s: System, s': System, n: nat)
    requires n <= |s.workers| && s'.workers == s.workers && s'.tasks == s.tasks
    ensures TotalWork(s', n) == TotalWork(s, n)
  {
    if n > 0 {
      SameWork(s, s', n - 1);
    }
  }

  lemma {:induction false} SomeWork(s: System, n: nat) returns (r: nat)
    requires n <= |s.workers| && TotalWork(s, n) > 0
    ensures r < n && Work(s, r) > 0
  {
    if Work(s, n - 1) > 0 {
      r := n - 1;
    } else {
      r := SomeWork(s, n - 1);
    }
  }

  lemma {:induction false} NoWork(s: System, n: nat, r: nat)
    requires r < n <= |s.workers| && TotalWork(s, n) == 0
    ensures Work(s, r) == 0
  {
    if r < n - 1 {
      NoWork(s, n - 1, r);
    }
  }

  /** The phases of a round still ahead, the posts one by one. */
  function Phase(plan: seq<Round>, s: System): int {
    if s.round >= |plan| then 0
    else
      match s.ctl
      case Posting(k) => 2 + |plan[s.round].posts| - k
      case Awaiting(_, _, _) => 1
      case _ => 0
  }

  /** Some result from position `m` of the collection on is in the store. */
  predicate ResultAhead(s: System, collect: seq<nat>, m: nat) {
    exists i :: m <= i < |collect| && collect[i] in s.results
  }

  /** The controller's place within a phase in which the workers have nothing left to do. */
  function Place(plan: seq<Round>, s: System): (int, int, int) {
    if s.round >= |plan| then (0, 0, 0)
    else
      var rd := plan[s.round];
      match s.ctl
      case Awaiting(g, m, ok) =>
        (if ok then 0 else 1, |rd.waits| - g, if g < |rd.waits| then |rd.waits[g]| - m else 0)
      case Collecting(m) =>
        (|rd.collect| - |s.got|, if ResultAhead(s, rd.collect, m) then 0 else 1, |rd.collect| - m)
      case Deleting(_) => (|rd.collect| - |s.got|, 2, 0)
      case _ => (0, 0, 0)
  }

  // ----- Workers -----

  /** The step worker `r` takes next. */
  function WorkerAction(s: System, r: nat): Action
    requires r < |s.workers|
  {
    match s.workers[r]
    case Idle => Fetch(r)
    case Fetched(_) => Acknowledge(r)
    case Running(_) => Publish(r, Profile(0.0, 0.0, 0.0, 0.0))
  }

  lemma WorkerStepWorks(plan: seq<Round>, size: nat, s: System, r: nat)
    requires Inv(plan, size, s) && r < size && Work(s, r) > 0
    ensures var s' := Step(plan, s, WorkerAction(s, r));
            && |s'.workers| == |s.workers| && s'.round == s.round && s'.ctl == s.ctl
            && TotalWork(s', size) < TotalWork(s, size)
  {
    var s' := Step(plan, s, WorkerAction(s, r));
    assert RankOk(plan, s, r);
    WorkDecreases(s, s', r, size);
  }

  // ----- The controller, when the workers have nothing left to do -----

  /** Every rank that was posted to has acknowledged, and its result is published or collected. */
  lemma PostedSettled(plan: seq<Round>, size: nat, s: System, r: nat)
    requires WellFormedPlan(plan, size) && Inv(plan, size, s) && TotalWork(s, size) == 0
    requires s.round < |plan| && !s.ctl.Posting? && r in Jobs(plan[s.round].posts)
    ensures Acked(s, r) && (r !in s.got ==> r in s.results)
  {
    assert WellFormed(plan[s.round], size);
    JobsDomain(plan[s.round].posts, r);
    assert r < size;
    assert RankOk(plan, s, r);
    NoWork(s, size, r);
    JobIsTaken(plan[s.round].posts, size, r);
  }

  lemma {:induction false} JobIsTaken(posts: seq<Post>, size: nat, r: nat)
    requires r in Jobs(posts) && forall k :: 0 <= k < |posts| ==> posts[k].rank < size && Takes(posts[k].text)
    ensures Takes(Jobs(posts)[r])
  {
    var n := |posts| - 1;
    if posts[n].rank != r {
      JobIsTaken(posts[..n], size, r);
    }
  }

  /** No more results are collected than were asked for. */
  lemma CollectedBounded(plan: seq<Round>, size: nat, s: System)
    requires WellFormedPlan(plan, size) && Inv(plan, size, s) && s.round < |plan| && !s.ctl.Posting?
    ensures |s.got| <= |plan[s.round].collect|
    ensures |s.got| < |plan[s.round].collect| ==> exists r: nat :: r in Jobs(plan[s.round].posts) && r !in s.got
  {
    var rd := plan[s.round];
    var jobs := Jobs(rd.posts);
    assert WellFormed(rd, size);
    DistinctSize(rd.collect);
    assert Elements(rd.collect) == jobs.Keys;
    assert |s.got.Keys| == |s.got| && s.got.Keys <= jobs.Keys;
    SubsetSize(s.got.Keys, jobs.Keys);
    if forall r: nat :: r in jobs ==> r in s.got {
      assert jobs.Keys == s.got.Keys;
    }
  }

  lemma SubsetSize(a: set<nat>, b: set<nat>)
    requires a <= b
    ensures |a| <= |b|
  {
    assert |b - a| == |b| - |a|;
  }

  /** The later state is closer to the end: compared round first, then phase, then workers, then place. */
  ghost predicate Closer(plan: seq<Round>, size: nat, s': System, s: System)
    requires |s.workers| == |s'.workers| == size
  {
    var (a', b', c') := Place(plan, s');
    var (a, b, c) := Place(plan, s);
    || s.round < s'.round <= |plan|
    || (s'.round == s.round && 0 <= Phase(plan, s') < Phase(plan, s))
    || (s'.round == s.round && Phase(plan, s') == Phase(plan, s) && TotalWork(s', size) < TotalWork(s, size))
    || (s'.round == s.round && Phase(plan, s') == Phase(plan, s) && TotalWork(s', size) == TotalWork(s, size)
        && LexLess((a', b', c'), (a, b, c)))
  }

  predicate LexLess(x: (int, int, int), y: (int, int, int)) {
    || 0 <= x.0 < y.0
    || (x.0 == y.0 && 0 <= x.1 < y.1)
    || (x.0 == y.0 && x.1 == y.1 && 0 <= x.2 < y.2)
  }

  lemma PostCloser(plan: seq<Round>, size: nat, s: System)
    requires Inv(plan, size, s) && s.round < |plan| && s.ctl.Posting?
    ensures Closer(plan, size, ControlStep(plan, s), s)
  {
  }

  lemma AwaitCloser(plan: seq<Round>, size: nat, s: System)
    requires WellFormedPlan(plan, size) && Inv(plan, size, s) && TotalWork(s, size) == 0
    requires s.round < |plan| && s.ctl.Awaiting?
    ensures Closer(plan, size, ControlStep(plan, s), s)
  {
    var s', rd, g, m := ControlStep(plan, s), plan[s.round], s.ctl.group, s.ctl.member;
    SameWork(s, s', size);
    if g < |rd.waits| && m < |rd.waits[g]| {
      assert WellFormed(rd, size);
      PostedSettled(plan, size, s, rd.waits[g][m]);
    }
  }

  /** A result in the store is taken: one more is collected. */
  lemma TakeCloser(plan: seq<Round>, size: nat, s: System)
    requires WellFormedPlan(plan, size) && Inv(plan, size, s)
    requires s.round < |plan| && s.ctl.Collecting? && s.ctl.member < |plan[s.round].collect|
    requires plan[s.round].collect[s.ctl.member] in s.results
    ensures Place(plan, s).0 > Place(plan, ControlStep(plan, s)).0 >= 0
  {
    NewResult(plan, size, s);
    StepKeepsInv(plan, size, s, Control);
    CollectedBounded(plan, size, ControlStep(plan, s));
  }

  /** A rank without a result is passed over: those ahead stay ahead. */
  lemma PassCloser(plan: seq<Round>, s: System)
    requires s.round < |plan| && s.ctl.Collecting? && s.ctl.member < |plan[s.round].collect|
    requires plan[s.round].collect[s.ctl.member] !in s.results
    ensures LexLess(Place(plan, ControlStep(plan, s)), Place(plan, s))
  {
    var collect, m := plan[s.round].collect, s.ctl.member;
    assert ResultAhead(s, collect, m) <==> ResultAhead(s, collect, m + 1);
    assert ControlStep(plan, s) == s.(ctl := Collecting(m + 1));
  }

  lemma CollectCloser(plan: seq<Round>, size: nat, s: System)
    requires WellFormedPlan(plan, size) && Inv(plan, size, s) && TotalWork(s, size) == 0
    requires s.round < |plan| && s.ctl.Collecting? && s.ctl.member < |plan[s.round].collect|
    ensures Closer(plan, size, ControlStep(plan, s), s)
  {
    SameWork(s, ControlStep(plan, s), size);
    if plan[s.round].collect[s.ctl.member] in s.results {
      TakeCloser(plan, size, s);
    } else {
      PassCloser(plan, s);
    }
  }

  /** A result found in the store has not been collected before. */
  lemma NewResult(plan: seq<Round>, size: nat, s: System)
    requires WellFormedPlan(plan, size) && Inv(plan, size, s)
    requires s.round < |plan| && s.ctl.Collecting? && s.ctl.member < |plan[s.round].collect|
    requires plan[s.round].collect[s.ctl.member] in s.results
    ensures plan[s.round].collect[s.ctl.member] !in s.got
  {
    var rd := plan[s.round];
    var r := rd.collect[s.ctl.member];
    assert WellFormed(rd, size);
    JobsDomain(rd.posts, r);
    assert RankOk(plan, s, r);
  }

  lemma TurnCloser(plan: seq<Round>, size: nat, s: System)
    requires WellFormedPlan(plan, size) && Inv(plan, size, s) && TotalWork(s, size) == 0
    requires s.round < |plan| && s.ctl.Collecting? && s.ctl.member == |plan[s.round].collect|
    ensures Closer(plan, size, ControlStep(plan, s), s)
  {
    var s', rd := ControlStep(plan, s), plan[s.round];
    SameWork(s, s', size);
    CollectedBounded(plan, size, s);
    if |s.got| < |rd.collect| {
      var r: nat :| r in Jobs(rd.posts) && r !in s.got;
      PostedSettled(plan, size, s, r);
      assert WellFormed(rd, size);
      var i :| 0 <= i < |rd.collect| && rd.collect[i] == r;
      assert ResultAhead(s', rd.collect, 0);
    }
  }

  lemma DeleteCloser(plan: seq<Round>, size: nat, s: System)
    requires WellFormedPlan(plan, size) && Inv(plan, size, s)
    requires s.round < |plan| && s.ctl.Deleting?
    ensures Closer(plan, size, ControlStep(plan, s), s)
  {
    SameWork(s, ControlStep(plan, s), size);
    CollectedBounded(plan, size, s);
  }

  // ----- Finishing -----

  /** Some step brings a state that is not finished closer to the end. */
  lemma NextAction(plan: seq<Round>, size: nat, s: System) returns (a: Action)
    requires WellFormedPlan(plan, size) && Inv(plan, size, s) && s.round < |plan|
    ensures |Step(plan, s, a).workers| == size && Closer(plan, size, Step(plan, s, a), s)
  {
    a := Control;
    if s.ctl.Posting? {
      PostCloser(plan, size, s);
    } else if TotalWork(s, size) > 0 {
      var r := SomeWork(s, size);
      a := WorkerAction(s, r);
      WorkerCloser(plan, size, s, r);
    } else if s.ctl.Awaiting? {
      AwaitCloser(plan, size, s);
    } else if s.ctl.Deleting? {
      DeleteCloser(plan, size, s);
    } else if s.ctl.member < |plan[s.round].collect| {
      CollectCloser(plan, size, s);
    } else {
      TurnCloser(plan, size, s);
    }
  }

  lemma WorkerCloser(plan: seq<Round>, size: nat, s: System, r: nat)
    requires Inv(plan, size, s) && s.round < |plan| && r < size && Work(s, r) > 0
    ensures var s' := Step(plan, s, WorkerAction(s, r)); |s'.workers| == size && Closer(plan, size, s', s)
  {
    WorkerStepWorks(plan, size, s, r);
  }

  lemma {:induction false} CanFinishFrom(plan: seq<Round>, size: nat, s: System) returns (more: seq<Action>)
    requires WellFormedPlan(plan, size) && Inv(plan, size, s)
    ensures RunFrom(plan, s, more).ctl.Finished? && Inv(plan, size, RunFrom(plan, s, more))
    decreases |plan| - s.round, Phase(plan, s), TotalWork(s, size), Place(plan, s).0, Place(plan, s).1, Place(plan, s).2
  {
    if s.round == |plan| {
      more := [];
    } else {
      var a := NextAction(plan, size, s);
      StepKeepsInv(plan, size, s, a);
      var rest := CanFinishFrom(plan, size, Step(plan, s, a));
      more := [a] + rest;
      assert more[1..] == rest;
    }
  }

  /** From every reachable state of a well-formed plan some continuation finishes, with the results of all
      rounds collected. */
  lemma CanAlwaysFinish(plan: seq<Round>, size: nat, actions: seq<Action>) returns (more: seq<Action>)
    requires WellFormedPlan(plan, size)
    ensures var s := Exec(plan, size, actions + more); s.ctl.Finished? && |s.collected| == |plan|
  {
    ReachableInv(plan, size, actions);
    more := CanFinishFrom(plan, size, Exec(plan, size, actions));
    ExecThenRun(plan, size, actions, more);
  }
}
