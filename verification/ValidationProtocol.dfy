/** The validation protocol between the global controller and the paused workers.

    The controller works through a plan of rounds.  In each round it writes one task text per named
    rank, polls until all of them read as acknowledged, then polls for one result per rank, deleting
    each result it takes.  Each worker polls its own task key; when it finds a task it overwrites the
    key with the acknowledgement, runs the task and publishes a result.

    The protocol is a state machine: one action is one access to the key-value store by one party,
    and a run is any sequence of actions.  Two things are carried along only to state the properties:
    task texts and results remember the round in which the task was posted, and `log` records the
    executions. */
module ValidationProtocol {
  import opened TaskText
  import opened FiniteSets

  datatype Profile = Profile(minLat: real, maxLat: real, avgLat: real, stdLat: real)

  datatype Post = Post(rank: nat, text: string)

  /** `posts` in the order of the writes; `waits` the groups of keys polled together; `collect` the
      order in which results are polled. */
  datatype Round = Round(posts: seq<Post>, waits: seq<seq<nat>>, collect: seq<nat>)

  datatype Task = Task(text: string, round: nat)
  datatype Result = Result(profile: Profile, round: nat)
  datatype Execution = Execution(rank: nat, round: nat, text: string, profile: Profile)

  datatype Worker = Idle | Fetched(task: Task) | Running(task: Task)

  datatype Controller =
    | Posting(next: nat)
    | Awaiting(group: nat, member: nat, acked: bool)
    | Collecting(member: nat)
    | Deleting(member: nat)
    | Finished

  datatype System = System(
    round: nat,
    ctl: Controller,
    got: map<nat, Result>,
    tasks: map<nat, Task>,
    results: map<nat, Result>,
    workers: seq<Worker>,
    log: seq<Execution>,
    collected: seq<map<nat, Result>>)

  datatype Action = Control | Fetch(rank: nat) | Acknowledge(rank: nat) | Publish(rank: nat, profile: Profile)

  // ----- The parties -----

  function StartRound(plan: seq<Round>, n: nat): Controller {
    if n < |plan| then Posting(0) else Finished
  }

  /** Nothing posted, no result, every worker idle. */
  function Init(plan: seq<Round>, size: nat): System {
    System(0, StartRound(plan, 0), map[], map[], map[], seq(size, _ => Idle), [], [])
  }

  function Acked(s: System, r: nat): bool {
    r in s.tasks && s.tasks[r].text == TASK_ACKED
  }

  /** One step of `dispatch_comm_task` / `collect_comm_task_results` (and of `validate_computation`,
      which has the same three phases).  Polling a missing task key would raise: the step is stuck. */
  function ControlStep(plan: seq<Round>, s: System): System {
    if s.round >= |plan| then s else
    var rd := plan[s.round];
    match s.ctl
    case Finished => s
    case Posting(k) =>
      if k < |rd.posts| then
        s.(tasks := s.tasks[rd.posts[k].rank := Task(rd.posts[k].text, s.round)], ctl := Posting(k + 1))
      else s.(ctl := Awaiting(0, 0, true))
    case Awaiting(g, m, ok) =>
      if g >= |rd.waits| then s.(ctl := Collecting(0), got := map[])
      else if m < |rd.waits[g]| then
        if rd.waits[g][m] !in s.tasks then s
        else s.(ctl := Awaiting(g, m + 1, ok && Acked(s, rd.waits[g][m])))
      else s.(ctl := if ok then Awaiting(g + 1, 0, true) else Awaiting(g, 0, true))
    case Collecting(m) =>
      if m < |rd.collect| then
        var r := rd.collect[m];
        if r in s.results then s.(got := s.got[r := s.results[r]], ctl := Deleting(m))
        else s.(ctl := Collecting(m + 1))
      else if |s.got| == |rd.collect| then
        s.(collected := s.collected + [s.got], got := map[], round := s.round + 1, ctl := StartRound(plan, s.round + 1))
      else s.(ctl := Collecting(0))
    case Deleting(m) =>
      if m < |rd.collect| then s.(results := s.results - {rd.collect[m]}, ctl := Collecting(m + 1)) else s
  }

  /** One step of `fetech_and_exec_task` on rank `r`: read the key, acknowledge, publish. */
  function FetchStep(s: System, r: nat): System {
    if r < |s.workers| && s.workers[r].Idle? && r in s.tasks && Takes(s.tasks[r].text) then
      s.(workers := s.workers[r := Fetched(s.tasks[r])])
    else s
  }

  function AcknowledgeStep(s: System, r: nat): System {
    if r < |s.workers| && s.workers[r].Fetched? then
      var task := s.workers[r].task;
      s.(tasks := s.tasks[r := Task(TASK_ACKED, task.round)], workers := s.workers[r := Running(task)])
    else s
  }

  function PublishStep(s: System, r: nat, p: Profile): System {
    if r < |s.workers| && s.workers[r].Running? then
      var task := s.workers[r].task;
      s.(results := s.results[r := Result(p, task.round)], workers := s.workers[r := Idle],
         log := s.log + [Execution(r, task.round, task.text, p)])
    else s
  }

  function Step(plan: seq<Round>, s: System, a: Action): System {
    match a
    case Control => ControlStep(plan, s)
    case Fetch(r) => FetchStep(s, r)
    case Acknowledge(r) => AcknowledgeStep(s, r)
    case Publish(r, p) => PublishStep(s, r, p)
  }

  /** The state after any sequence of actions. */
  function Exec(plan: seq<Round>, size: nat, actions: seq<Action>): System {
    if actions == [] then Init(plan, size)
    else Step(plan, Exec(plan, size, actions[..|actions| - 1]), actions[|actions| - 1])
  }

  // ----- What the plan must satisfy -----

  /** The job each rank is given by a sequence of posts. */
  ghost function Jobs(posts: seq<Post>): map<nat, string> {
    if posts == [] then map[]
    else Jobs(posts[..|posts| - 1])[posts[|posts| - 1].rank := posts[|posts| - 1].text]
  }

  /** The round names each rank at most once. */
  ghost predicate DistinctRanks(rd: Round) {
    forall i, j :: 0 <= i < j < |rd.posts| ==> rd.posts[i].rank != rd.posts[j].rank
  }

  /** Every task has a text a worker takes; the round waits for all of the named ranks and collects
      from exactly them, each once. */
  ghost predicate Served(rd: Round, size: nat) {
    var jobs := Jobs(rd.posts);
    && (forall k :: 0 <= k < |rd.posts| ==> rd.posts[k].rank < size && Takes(rd.posts[k].text))
    && (forall g, m :: 0 <= g < |rd.waits| && 0 <= m < |rd.waits[g]| ==> rd.waits[g][m] in jobs)
    && (forall r :: r in jobs ==> AwaitedBefore(rd, |rd.waits|, r))
    && (forall i, j :: 0 <= i < j < |rd.collect| ==> rd.collect[i] != rd.collect[j])
    && (forall r :: r in jobs <==> r in rd.collect)
  }

  ghost predicate WellFormed(rd: Round, size: nat) {
    DistinctRanks(rd) && Served(rd, size)
  }

  /** Rank `r` is in one of the first `g` groups. */
  ghost predicate AwaitedBefore(rd: Round, g: nat, r: nat) {
    exists k :: 0 <= k < g && k < |rd.waits| && r in rd.waits[k]
  }

  ghost predicate WellFormedPlan(plan: seq<Round>, size: nat) {
    forall n :: 0 <= n < |plan| ==> WellFormed(plan[n], size)
  }

  // ----- The invariant -----

  /** The executions by rank `r` of tasks posted in round `n`. */
  ghost function Runs(log: seq<Execution>, r: nat, n: nat): seq<Execution> {
    if log == [] then []
    else
      var e := log[|log| - 1];
      Runs(log[..|log| - 1], r, n) + if e.rank == r && e.round == n then [e] else []
  }

  lemma RunsAppend(log: seq<Execution>, e: Execution, r: nat, n: nat)
    ensures Runs(log + [e], r, n) == Runs(log, r, n) + if e.rank == r && e.round == n then [e] else []
  {
    assert (log + [e])[..|log|] == log;
  }

  /** The jobs posted so far in the current round. */
  ghost function Posted(plan: seq<Round>, s: System): map<nat, string> {
    if s.round >= |plan| then map[]
    else if s.ctl.Posting? && s.ctl.next <= |plan[s.round].posts| then Jobs(plan[s.round].posts[..s.ctl.next])
    else Jobs(plan[s.round].posts)
  }

  /** No task is pending for the rank, its worker is idle and no result of its is in the store. */
  ghost predicate Quiet(s: System, r: nat)
    requires r < |s.workers|
  {
    s.workers[r].Idle? && r !in s.results && (r in s.tasks ==> Acked(s, r))
  }

  ghost predicate Waiting(s: System, r: nat, text: string)
    requires r < |s.workers|
  {
    var task := Task(text, s.round);
    && r in s.tasks && s.tasks[r] == task && r !in s.results
    && (s.workers[r] == Idle || s.workers[r] == Fetched(task))
    && Runs(s.log, r, s.round) == []
  }

  ghost predicate Busy(s: System, r: nat, text: string)
    requires r < |s.workers|
  {
    && Acked(s, r) && r !in s.results
    && s.workers[r] == Running(Task(text, s.round))
    && Runs(s.log, r, s.round) == []
  }

  /** `res` is the result of the one execution of round `n`'s job by rank `r`. */
  ghost predicate Sole(s: System, r: nat, n: nat, text: string, res: Result) {
    res.round == n && Runs(s.log, r, n) == [Execution(r, n, text, res.profile)]
  }

  ghost predicate Published(s: System, r: nat, text: string)
    requires r < |s.workers|
  {
    && Acked(s, r) && s.workers[r].Idle?
    && r in s.results && Sole(s, r, s.round, text, s.results[r])
  }

  ghost predicate Taken(s: System, r: nat, text: string)
    requires r < |s.workers|
  {
    && Acked(s, r) && s.workers[r].Idle? && r !in s.results
    && r in s.got && Sole(s, r, s.round, text, s.got[r])
  }

  /** The controller is between reading rank `r`'s result and deleting it. */
  ghost predicate Removing(plan: seq<Round>, s: System, r: nat) {
    && s.round < |plan| && s.ctl.Deleting? && s.ctl.member < |plan[s.round].collect|
    && plan[s.round].collect[s.ctl.member] == r
  }

  ghost predicate RankOk(plan: seq<Round>, s: System, r: nat)
    requires r < |s.workers|
  {
    var jobs := Posted(plan, s);
    if r !in jobs then
      Quiet(s, r) && r !in s.got && Runs(s.log, r, s.round) == []
    else if r !in s.got then
      Waiting(s, r, jobs[r]) || Busy(s, r, jobs[r]) || Published(s, r, jobs[r])
    else if Removing(plan, s, r) then
      Published(s, r, jobs[r]) && s.got[r] == s.results[r]
    else
      Taken(s, r, jobs[r])
  }

  /** What the controller knows at its place in the round. */
  ghost predicate ControlOk(plan: seq<Round>, s: System) {
    if s.round >= |plan| then s.round == |plan| && s.ctl.Finished? && s.got == map[]
    else
      var rd := plan[s.round];
      && s.got.Keys <= Posted(plan, s).Keys
      && match s.ctl
         case Finished => false
         case Posting(k) => k <= |rd.posts| && s.got == map[]
         case Awaiting(g, m, ok) =>
           && s.got == map[] && g <= |rd.waits|
           && (forall r :: AwaitedBefore(rd, g, r) ==> Acked(s, r))
           && (g < |rd.waits| ==>
                 && m <= |rd.waits[g]|
                 && (ok ==> forall i :: 0 <= i < m ==> Acked(s, rd.waits[g][i])))
         case Collecting(m) =>
           m <= |rd.collect| && forall r :: r in Posted(plan, s) ==> Acked(s, r)
         case Deleting(m) =>
           && m < |rd.collect| && (forall r :: r in Posted(plan, s) ==> Acked(s, r))
           && rd.collect[m] in s.got
  }

  /** Round `n` is over: its collected results are those of the one execution of each of its jobs. */
  ghost predicate RoundDone(plan: seq<Round>, s: System, n: nat)
    requires n < |plan| && n < |s.collected|
  {
    var jobs := Jobs(plan[n].posts);
    && s.collected[n].Keys == jobs.Keys
    && (forall r :: r in jobs ==> Sole(s, r, n, jobs[r], s.collected[n][r]))
    && (forall r :: r !in jobs ==> Runs(s.log, r, n) == [])
  }

  ghost predicate Inv(plan: seq<Round>, size: nat, s: System) {
    && |s.workers| == size
    && ControlOk(plan, s)
    && (forall r :: 0 <= r < size ==> RankOk(plan, s, r))
    && |s.collected| == s.round
    && (forall n :: 0 <= n < s.round ==> RoundDone(plan, s, n))
    && (forall r, n :: n > s.round ==> Runs(s.log, r, n) == [])
    && (forall r :: r >= size ==> Runs(s.log, r, s.round) == [])
  }

  lemma InitInv(plan: seq<Round>, size: nat)
    ensures Inv(plan, size, Init(plan, size))
  {
    if plan != [] {
      assert plan[0].posts[..0] == [];
    }
  }

  // ----- Worker steps keep the invariant -----

  /** A step that adds nothing to the log and finishes no round keeps the rest of the invariant. */
  lemma QuietStepKeepsInv(plan: seq<Round>, size: nat, s: System, s': System)
    requires Inv(plan, size, s) && |s'.workers| == size && ControlOk(plan, s')
    requires forall r :: 0 <= r < size ==> RankOk(plan, s', r)
    requires s'.round == s.round && s'.collected == s.collected && s'.log == s.log
    ensures Inv(plan, size, s')
  {
    forall n | 0 <= n < s.round ensures RoundDone(plan, s', n) {
      assert RoundDone(plan, s, n);
    }
  }

  lemma FetchKeepsRank(plan: seq<Round>, size: nat, s: System, r: nat, q: nat)
    requires Inv(plan, size, s) && q < size
    ensures RankOk(plan, FetchStep(s, r), q)
  {
    assert RankOk(plan, s, q);
  }

  lemma FetchKeepsInv(plan: seq<Round>, size: nat, s: System, r: nat)
    requires WellFormedPlan(plan, size) && Inv(plan, size, s)
    ensures Inv(plan, size, FetchStep(s, r))
  {
    var s' := FetchStep(s, r);
    forall q | 0 <= q < size ensures RankOk(plan, s', q) {
      FetchKeepsRank(plan, size, s, r, q);
    }
    QuietStepKeepsInv(plan, size, s, s');
  }

  lemma AcknowledgeKeepsRank(plan: seq<Round>, size: nat, s: System, r: nat, q: nat)
    requires Inv(plan, size, s) && q < size && r < size && s.workers[r].Fetched?
    ensures RankOk(plan, AcknowledgeStep(s, r), q)
    ensures Acked(s, q) ==> Acked(AcknowledgeStep(s, r), q)
  {
    assert RankOk(plan, s, q) && RankOk(plan, s, r);
  }

  lemma AcknowledgeKeepsInv(plan: seq<Round>, size: nat, s: System, r: nat)
    requires WellFormedPlan(plan, size) && Inv(plan, size, s)
    ensures Inv(plan, size, AcknowledgeStep(s, r))
  {
    var s' := AcknowledgeStep(s, r);
    if r < size && s.workers[r].Fetched? {
      forall q | 0 <= q < size ensures RankOk(plan, s', q) {
        AcknowledgeKeepsRank(plan, size, s, r, q);
      }
      assert ControlOk(plan, s') by {
        assert forall q :: Acked(s, q) ==> Acked(s', q);
      }
      forall n | 0 <= n < s.round ensures RoundDone(plan, s', n) {
        assert RoundDone(plan, s, n);
      }
    }
  }

  /** The log after a publication: one more run of the rank in this round. */
  lemma PublishedRuns(s: System, r: nat, p: Profile, q: nat, n: nat)
    requires r < |s.workers| && s.workers[r].Running? && s.workers[r].task.round == s.round
    ensures Runs(PublishStep(s, r, p).log, q, n) ==
            Runs(s.log, q, n) + if q == r && n == s.round then [Execution(r, s.round, s.workers[r].task.text, p)] else []
  {
    RunsAppend(s.log, Execution(r, s.round, s.workers[r].task.text, p), q, n);
  }

  lemma PublisherIsBusy(plan: seq<Round>, size: nat, s: System, r: nat)
    requires Inv(plan, size, s) && r < size && s.workers[r].Running?
    ensures r in Posted(plan, s) && r !in s.got && Busy(s, r, Posted(plan, s)[r])
    ensures s.workers[r].task == Task(Posted(plan, s)[r], s.round)
  {
    assert RankOk(plan, s, r);
  }

  lemma PublishedNow(plan: seq<Round>, size: nat, s: System, r: nat, p: Profile)
    requires r < |s.workers| && s.workers[r].Running? && s.workers[r].task.round == s.round
    requires r in Posted(plan, s) && r !in s.got && Busy(s, r, Posted(plan, s)[r])
    ensures RankOk(plan, PublishStep(s, r, p), r)
  {
    PublishedRuns(s, r, p, r, s.round);
    assert Posted(plan, PublishStep(s, r, p)) == Posted(plan, s);
  }

  lemma OthersUnaffected(plan: seq<Round>, s: System, r: nat, p: Profile, q: nat)
    requires r < |s.workers| && s.workers[r].Running? && s.workers[r].task.round == s.round
    requires q < |s.workers| && q != r && RankOk(plan, s, q)
    ensures RankOk(plan, PublishStep(s, r, p), q)
  {
    PublishedRuns(s, r, p, q, s.round);
    assert Posted(plan, PublishStep(s, r, p)) == Posted(plan, s);
  }

  lemma PublishKeepsRank(plan: seq<Round>, size: nat, s: System, r: nat, p: Profile, q: nat)
    requires Inv(plan, size, s) && r < size && q < size && s.workers[r].Running?
    ensures s.workers[r].task.round == s.round && RankOk(plan, PublishStep(s, r, p), q)
  {
    PublisherIsBusy(plan, size, s, r);
    if q == r {
      PublishedNow(plan, size, s, r, p);
    } else {
      OthersUnaffected(plan, s, r, p, q);
    }
  }

  lemma PublishKeepsDone(plan: seq<Round>, size: nat, s: System, r: nat, p: Profile, n: nat)
    requires Inv(plan, size, s) && r < size && n < s.round && n < |plan|
    requires s.workers[r].Running? && s.workers[r].task.round == s.round
    ensures RoundDone(plan, PublishStep(s, r, p), n)
  {
    assert RoundDone(plan, s, n);
    forall q ensures Runs(PublishStep(s, r, p).log, q, n) == Runs(s.log, q, n) {
      PublishedRuns(s, r, p, q, n);
    }
  }

  lemma PublishKeepsInv(plan: seq<Round>, size: nat, s: System, r: nat, p: Profile)
    requires WellFormedPlan(plan, size) && Inv(plan, size, s)
    ensures Inv(plan, size, PublishStep(s, r, p))
  {
    var s' := PublishStep(s, r, p);
    if r < size && s.workers[r].Running? {
      PublishKeepsRank(plan, size, s, r, p, r);
      forall q: nat, n: nat | n > s.round || q >= size ensures Runs(s'.log, q, n) == Runs(s.log, q, n) {
        PublishedRuns(s, r, p, q, n);
      }
      forall q | 0 <= q < size ensures RankOk(plan, s', q) {
        PublishKeepsRank(plan, size, s, r, p, q);
      }
      forall n | 0 <= n < s.round ensures RoundDone(plan, s', n) {
        PublishKeepsDone(plan, size, s, r, p, n);
      }
    }
  }

  // ----- Controller steps keep the invariant -----

  lemma JobsStep(posts: seq<Post>, k: nat)
    requires k < |posts|
    ensures Jobs(posts[..k + 1]) == Jobs(posts[..k])[posts[k].rank := posts[k].text]
    ensures posts[..|posts|] == posts
  {
    assert posts[..k + 1][..k] == posts[..k];
  }

  lemma {:induction false} JobsDomain(posts: seq<Post>, r: nat)
    ensures r in Jobs(posts) <==> exists k :: 0 <= k < |posts| && posts[k].rank == r
  {
    if posts != [] {
      JobsDomain(posts[..|posts| - 1], r);
    }
  }

  /** A rank that is posted to now was not posted to earlier in the round. */
  lemma FreshPost(rd: Round, size: nat, k: nat)
    requires WellFormed(rd, size) && k < |rd.posts|
    ensures rd.posts[k].rank !in Jobs(rd.posts[..k])
    ensures rd.posts[k].rank < size && Takes(rd.posts[k].text)
  {
    JobsDomain(rd.posts[..k], rd.posts[k].rank);
  }

  lemma PostKeepsRank(plan: seq<Round>, size: nat, s: System, q: nat)
    requires WellFormedPlan(plan, size) && Inv(plan, size, s)
    requires s.round < |plan| && s.ctl.Posting? && q < size
    ensures RankOk(plan, ControlStep(plan, s), q)
  {
    var rd, k := plan[s.round], s.ctl.next;
    assert RankOk(plan, s, q);
    if k < |rd.posts| {
      FreshPost(rd, size, k);
      JobsStep(rd.posts, k);
    } else {
      assert rd.posts[..k] == rd.posts;
    }
  }

  lemma PostKeepsControl(plan: seq<Round>, size: nat, s: System)
    requires Inv(plan, size, s) && s.round < |plan| && s.ctl.Posting?
    ensures ControlOk(plan, ControlStep(plan, s))
  {
  }

  lemma PostKeepsInv(plan: seq<Round>, size: nat, s: System)
    requires WellFormedPlan(plan, size) && Inv(plan, size, s)
    requires s.round < |plan| && s.ctl.Posting?
    ensures Inv(plan, size, ControlStep(plan, s))
  {
    var s' := ControlStep(plan, s);
    forall q | 0 <= q < size ensures RankOk(plan, s', q) {
      PostKeepsRank(plan, size, s, q);
    }
    PostKeepsControl(plan, size, s);
    QuietStepKeepsInv(plan, size, s, s');
  }

  lemma AwaitKeepsControl(plan: seq<Round>, size: nat, s: System)
    requires WellFormedPlan(plan, size) && Inv(plan, size, s)
    requires s.round < |plan| && s.ctl.Awaiting?
    ensures ControlOk(plan, ControlStep(plan, s))
  {
    var s', rd, g := ControlStep(plan, s), plan[s.round], s.ctl.group;
    if g < |rd.waits| && s.ctl.member == |rd.waits[g]| && s.ctl.acked {
      forall r | AwaitedBefore(rd, g + 1, r) ensures Acked(s', r) {
        if !AwaitedBefore(rd, g, r) {
          assert r in rd.waits[g];
        }
      }
    }
  }

  lemma AwaitKeepsRank(plan: seq<Round>, size: nat, s: System, q: nat)
    requires Inv(plan, size, s) && s.round < |plan| && s.ctl.Awaiting? && q < size
    ensures RankOk(plan, ControlStep(plan, s), q)
  {
    var s' := ControlStep(plan, s);
    assert RankOk(plan, s, q);
    assert s' == s.(ctl := s'.ctl) && Posted(plan, s') == Posted(plan, s);
  }

  lemma AwaitKeepsInv(plan: seq<Round>, size: nat, s: System)
    requires WellFormedPlan(plan, size) && Inv(plan, size, s)
    requires s.round < |plan| && s.ctl.Awaiting?
    ensures Inv(plan, size, ControlStep(plan, s))
  {
    var s' := ControlStep(plan, s);
    AwaitKeepsControl(plan, size, s);
    forall q | 0 <= q < size ensures RankOk(plan, s', q) {
      AwaitKeepsRank(plan, size, s, q);
    }
    QuietStepKeepsInv(plan, size, s, s');
  }

  lemma CollectKeepsControl(plan: seq<Round>, size: nat, s: System)
    requires WellFormedPlan(plan, size) && Inv(plan, size, s)
    requires s.round < |plan| && s.ctl.Collecting? && s.ctl.member < |plan[s.round].collect|
    ensures ControlOk(plan, ControlStep(plan, s))
  {
    assert plan[s.round].collect[s.ctl.member] in Posted(plan, s);
  }

  lemma CollectKeepsRank(plan: seq<Round>, size: nat, s: System, q: nat)
    requires WellFormedPlan(plan, size) && Inv(plan, size, s) && q < size
    requires s.round < |plan| && s.ctl.Collecting? && s.ctl.member < |plan[s.round].collect|
    ensures RankOk(plan, ControlStep(plan, s), q)
  {
    assert plan[s.round].collect[s.ctl.member] in Posted(plan, s);
    assert RankOk(plan, s, q);
  }

  lemma CollectKeepsInv(plan: seq<Round>, size: nat, s: System)
    requires WellFormedPlan(plan, size) && Inv(plan, size, s)
    requires s.round < |plan| && s.ctl.Collecting? && s.ctl.member < |plan[s.round].collect|
    ensures Inv(plan, size, ControlStep(plan, s))
  {
    var s' := ControlStep(plan, s);
    CollectKeepsControl(plan, size, s);
    forall q | 0 <= q < size ensures RankOk(plan, s', q) {
      CollectKeepsRank(plan, size, s, q);
    }
    QuietStepKeepsInv(plan, size, s, s');
  }

  lemma DeleteKeepsRank(plan: seq<Round>, size: nat, s: System, q: nat)
    requires Inv(plan, size, s) && s.round < |plan| && s.ctl.Deleting? && q < size
    requires WellFormedPlan(plan, size)
    ensures RankOk(plan, ControlStep(plan, s), q)
  {
    assert RankOk(plan, s, q);
  }

  lemma DeleteKeepsInv(plan: seq<Round>, size: nat, s: System)
    requires WellFormedPlan(plan, size) && Inv(plan, size, s)
    requires s.round < |plan| && s.ctl.Deleting?
    ensures Inv(plan, size, ControlStep(plan, s))
  {
    var s' := ControlStep(plan, s);
    forall q | 0 <= q < size ensures RankOk(plan, s', q) {
      DeleteKeepsRank(plan, size, s, q);
    }
    QuietStepKeepsInv(plan, size, s, s');
  }

  /** When as many results are in as ranks were asked, they are the results of all the ranks. */
  lemma AllCollected(plan: seq<Round>, size: nat, s: System)
    requires WellFormedPlan(plan, size) && Inv(plan, size, s)
    requires s.round < |plan| && s.ctl.Collecting? && |s.got| == |plan[s.round].collect|
    ensures s.got.Keys == Jobs(plan[s.round].posts).Keys
  {
    var jobs, asked := Jobs(plan[s.round].posts), Elements(plan[s.round].collect);
    DistinctSize(plan[s.round].collect);
    assert asked == jobs.Keys;
    assert |s.got.Keys| == |s.got|;
    FullSubset(s.got.Keys, jobs.Keys);
  }

  /** A rank is quiet when the next round begins. */
  lemma FinishKeepsRank(plan: seq<Round>, size: nat, s: System, q: nat)
    requires WellFormedPlan(plan, size) && Inv(plan, size, s) && q < size
    requires s.round < |plan| && s.ctl.Collecting? && s.ctl.member == |plan[s.round].collect|
    requires |s.got| == |plan[s.round].collect|
    ensures RankOk(plan, ControlStep(plan, s), q)
  {
    var s' := ControlStep(plan, s);
    AllCollected(plan, size, s);
    assert RankOk(plan, s, q);
    assert s'.round < |plan| ==> plan[s'.round].posts[..0] == [];
  }

  /** What one rank did in the round that ends. */
  lemma FinishedRank(plan: seq<Round>, size: nat, s: System, r: nat)
    requires WellFormedPlan(plan, size) && Inv(plan, size, s)
    requires s.round < |plan| && s.ctl.Collecting? && |s.got| == |plan[s.round].collect|
    ensures var jobs := Jobs(plan[s.round].posts);
            if r in jobs then r in s.got && Sole(s, r, s.round, jobs[r], s.got[r]) else Runs(s.log, r, s.round) == []
  {
    AllCollected(plan, size, s);
    assert WellFormed(plan[s.round], size);
    JobsDomain(plan[s.round].posts, r);
    if r < size {
      assert RankOk(plan, s, r);
    }
  }

  lemma FinishKeepsDone(plan: seq<Round>, size: nat, s: System, n: nat)
    requires WellFormedPlan(plan, size) && Inv(plan, size, s) && n <= s.round
    requires s.round < |plan| && s.ctl.Collecting? && s.ctl.member == |plan[s.round].collect|
    requires |s.got| == |plan[s.round].collect|
    ensures RoundDone(plan, ControlStep(plan, s), n)
  {
    if n < s.round {
      assert RoundDone(plan, s, n);
    } else {
      AllCollected(plan, size, s);
      forall r: nat ensures var jobs := Jobs(plan[s.round].posts);
        if r in jobs then r in s.got && Sole(s, r, s.round, jobs[r], s.got[r]) else Runs(s.log, r, s.round) == []
      {
        FinishedRank(plan, size, s, r);
      }
    }
  }

  lemma FinishKeepsInv(plan: seq<Round>, size: nat, s: System)
    requires WellFormedPlan(plan, size) && Inv(plan, size, s)
    requires s.round < |plan| && s.ctl.Collecting? && s.ctl.member == |plan[s.round].collect|
    requires |s.got| == |plan[s.round].collect|
    ensures Inv(plan, size, ControlStep(plan, s))
  {
    var s' := ControlStep(plan, s);
    forall q | 0 <= q < size ensures RankOk(plan, s', q) {
      FinishKeepsRank(plan, size, s, q);
    }
    forall n | 0 <= n < s'.round ensures RoundDone(plan, s', n) {
      FinishKeepsDone(plan, size, s, n);
    }
  }

  lemma ControlKeepsInv(plan: seq<Round>, size: nat, s: System)
    requires WellFormedPlan(plan, size) && Inv(plan, size, s)
    ensures Inv(plan, size, ControlStep(plan, s))
  {
    if s.round < |plan| {
      match s.ctl
      case Posting(_) => PostKeepsInv(plan, size, s);
      case Awaiting(_, _, _) => AwaitKeepsInv(plan, size, s);
      case Deleting(_) => DeleteKeepsInv(plan, size, s);
      case Collecting(m) =>
        if m < |plan[s.round].collect| {
          CollectKeepsInv(plan, size, s);
        } else if |s.got| == |plan[s.round].collect| {
          FinishKeepsInv(plan, size, s);
        } else {
          RestartKeepsInv(plan, size, s);
        }
    }
  }

  lemma RestartKeepsInv(plan: seq<Round>, size: nat, s: System)
    requires WellFormedPlan(plan, size) && Inv(plan, size, s)
    requires s.round < |plan| && s.ctl.Collecting?
    ensures Inv(plan, size, s.(ctl := Collecting(0)))
  {
    var s' := s.(ctl := Collecting(0));
    forall q | 0 <= q < size ensures RankOk(plan, s', q) {
      assert RankOk(plan, s, q);
    }
    forall n | 0 <= n < s.round ensures RoundDone(plan, s', n) {
      assert RoundDone(plan, s, n);
    }
  }

  lemma StepKeepsInv(plan: seq<Round>, size: nat, s: System, a: Action)
    requires WellFormedPlan(plan, size) && Inv(plan, size, s)
    ensures Inv(plan, size, Step(plan, s, a))
  {
    match a
    case Control => ControlKeepsInv(plan, size, s);
    case Fetch(r) => FetchKeepsInv(plan, size, s, r);
    case Acknowledge(r) => AcknowledgeKeepsInv(plan, size, s, r);
    case Publish(r, p) => PublishKeepsInv(plan, size, s, r, p);
  }

  lemma {:induction false} ReachableInv(plan: seq<Round>, size: nat, actions: seq<Action>)
    requires WellFormedPlan(plan, size)
    ensures Inv(plan, size, Exec(plan, size, actions))
  {
    if actions == [] {
      InitInv(plan, size);
    } else {
      ReachableInv(plan, size, actions[..|actions| - 1]);
      StepKeepsInv(plan, size, Exec(plan, size, actions[..|actions| - 1]), actions[|actions| - 1]);
    }
  }

  // ----- The properties of every run -----

  /** The step writes the task key of rank `r`. */
  ghost predicate Writes(plan: seq<Round>, s: System, a: Action, r: nat) {
    match a
    case Control =>
      && s.round < |plan| && s.ctl.Posting? && s.ctl.next < |plan[s.round].posts|
      && plan[s.round].posts[s.ctl.next].rank == r
    case Acknowledge(q) => q == r && r < |s.workers| && s.workers[r].Fetched?
    case _ => false
  }

  lemma OnlyWritersChangeTasks(plan: seq<Round>, s: System, a: Action, r: nat)
    requires !Writes(plan, s, a, r)
    ensures r in Step(plan, s, a).tasks <==> r in s.tasks
    ensures r in s.tasks ==> Step(plan, s, a).tasks[r] == s.tasks[r]
  {
  }

  /** The step writes over a task of rank `r` that nobody has acknowledged, and it is not the worker
      acknowledging just that task. */
  ghost predicate Overwrites(plan: seq<Round>, s: System, a: Action, r: nat) {
    && r in s.tasks && s.tasks[r].text != TASK_ACKED && Writes(plan, s, a, r)
    && !(a == Acknowledge(r) && s.workers[r] == Fetched(s.tasks[r]))
  }

  /** No run ever loses a posted task. */
  ghost predicate NeverOverwrites(plan: seq<Round>, size: nat) {
    forall actions, a, r :: !Overwrites(plan, Exec(plan, size, actions), a, r)
  }

  lemma TasksSurvive(plan: seq<Round>, size: nat, actions: seq<Action>, a: Action, r: nat)
    requires WellFormedPlan(plan, size)
    ensures !Overwrites(plan, Exec(plan, size, actions), a, r)
  {
    var s := Exec(plan, size, actions);
    ReachableInv(plan, size, actions);
    if a.Acknowledge? && a.rank == r && r < size {
      assert RankOk(plan, s, r);
    }
    if a.Control? && s.round < |plan| && s.ctl.Posting? && s.ctl.next < |plan[s.round].posts| {
      FreshPost(plan[s.round], size, s.ctl.next);
      assert RankOk(plan, s, plan[s.round].posts[s.ctl.next].rank);
    }
  }

  /** A published result stays in the store until the controller, holding a copy, deletes it. */
  lemma ResultsSurvive(plan: seq<Round>, size: nat, actions: seq<Action>, a: Action, r: nat)
    requires WellFormedPlan(plan, size)
    ensures var s := Exec(plan, size, actions);
            var s' := Step(plan, s, a);
            r in s.results && (r !in s'.results || s'.results[r] != s.results[r]) ==>
              a == Control && Removing(plan, s, r) && r in s.got && s.got[r] == s.results[r]
  {
    var s := Exec(plan, size, actions);
    ReachableInv(plan, size, actions);
    if a.Publish? && r < size {
      assert RankOk(plan, s, r);
    }
    if Removing(plan, s, r) {
      DeletionHoldsCopy(plan, size, s, r);
    }
  }

  lemma DeletionHoldsCopy(plan: seq<Round>, size: nat, s: System, r: nat)
    requires WellFormedPlan(plan, size) && Inv(plan, size, s) && Removing(plan, s, r)
    ensures r in s.got && r in s.results && s.got[r] == s.results[r]
  {
    JobsDomain(plan[s.round].posts, r);
    assert RankOk(plan, s, r);
  }

  /** Once collection of round `n` has returned, it holds one result for each named rank and no other,
      each rank has run that round's task exactly once, and the result is that of this run. */
  lemma CollectedExactlyOnce(plan: seq<Round>, size: nat, actions: seq<Action>, n: nat, r: nat)
    requires WellFormedPlan(plan, size)
    requires n < |Exec(plan, size, actions).collected|
    ensures n < |plan|
    ensures var s, jobs := Exec(plan, size, actions), Jobs(plan[n].posts);
            if r in jobs then
              && r in s.collected[n]
              && Runs(s.log, r, n) == [Execution(r, n, jobs[r], s.collected[n][r].profile)]
            else
              r !in s.collected[n] && Runs(s.log, r, n) == []
  {
    ReachableInv(plan, size, actions);
    assert RoundDone(plan, Exec(plan, size, actions), n);
  }

  /** While the controller polls a task key, the key is there. */
  lemma PollFindsTask(plan: seq<Round>, size: nat, actions: seq<Action>)
    requires WellFormedPlan(plan, size)
    ensures var s := Exec(plan, size, actions);
            s.round < |plan| && s.ctl.Awaiting? && s.ctl.group < |plan[s.round].waits|
            && s.ctl.member < |plan[s.round].waits[s.ctl.group]| ==>
              plan[s.round].waits[s.ctl.group][s.ctl.member] in s.tasks
  {
    var s := Exec(plan, size, actions);
    ReachableInv(plan, size, actions);
    if s.round < |plan| && s.ctl.Awaiting? && s.ctl.group < |plan[s.round].waits|
       && s.ctl.member < |plan[s.round].waits[s.ctl.group]|
    {
      var r := plan[s.round].waits[s.ctl.group][s.ctl.member];
      JobsDomain(plan[s.round].posts, r);
      assert RankOk(plan, s, r);
    }
  }

  // ----- Naming a rank twice loses a task -----

  function Controls(k: nat): (actions: seq<Action>)
    ensures |actions| == k
  {
    seq(k, _ => Control)
  }

  /** The first k tasks are posted and nobody has looked at them. */
  ghost predicate JustPosted(rd: Round, size: nat, s: System, k: nat)
    requires k <= |rd.posts|
  {
    && s.round == 0 && s.ctl == Posting(k) && s.workers == Init([rd], size).workers
    && (forall i :: 0 <= i < k ==> rd.posts[i].rank in s.tasks)
    && (forall r :: r in s.tasks ==> FromPost(rd, k, r, s.tasks[r]))
  }

  ghost predicate FromPost(rd: Round, k: nat, r: nat, task: Task)
    requires k <= |rd.posts|
  {
    exists i :: 0 <= i < k && task == Task(rd.posts[i].text, 0) && rd.posts[i].rank == r
  }

  lemma PostOneMore(rd: Round, size: nat, s: System, k: nat)
    requires k < |rd.posts| && JustPosted(rd, size, s, k)
    ensures JustPosted(rd, size, ControlStep([rd], s), k + 1)
  {
    var s' := ControlStep([rd], s);
    forall r | r in s'.tasks ensures FromPost(rd, k + 1, r, s'.tasks[r]) {
      if r != rd.posts[k].rank {
        assert FromPost(rd, k, r, s.tasks[r]);
      }
    }
  }

  lemma OneMoreControl(rd: Round, size: nat, k: nat)
    ensures Exec([rd], size, Controls(k + 1)) == ControlStep([rd], Exec([rd], size, Controls(k)))
  {
    assert Controls(k + 1)[..k] == Controls(k);
    assert Step([rd], Exec([rd], size, Controls(k)), Control) == ControlStep([rd], Exec([rd], size, Controls(k)));
  }

  lemma NothingPosted(rd: Round, size: nat)
    ensures JustPosted(rd, size, Exec([rd], size, Controls(0)), 0)
  {
    assert Exec([rd], size, Controls(0)) == Init([rd], size);
  }

  /** The controller posting alone, with every worker slow. */
  lemma {:induction false} PostingAlone(rd: Round, size: nat, k: nat)
    requires k <= |rd.posts|
    ensures JustPosted(rd, size, Exec([rd], size, Controls(k)), k)
  {
    if k == 0 {
      NothingPosted(rd, size);
    } else {
      PostingAlone(rd, size, k - 1);
      PostOneMore(rd, size, Exec([rd], size, Controls(k - 1)), k - 1);
      OneMoreControl(rd, size, k - 1);
    }
  }

  lemma RepeatedRankOverwrites(rd: Round, size: nat, i: nat, j: nat)
    requires i < j < |rd.posts| && rd.posts[i].rank == rd.posts[j].rank
    requires Served(rd, size)
    ensures Overwrites([rd], Exec([rd], size, Controls(j)), Control, rd.posts[j].rank)
  {
    PostingAlone(rd, size, j);
    assert FromPost(rd, j, rd.posts[j].rank, Exec([rd], size, Controls(j)).tasks[rd.posts[i].rank]);
  }

  /** A round is safe in every interleaving exactly when it names no rank twice. */
  lemma SafeIffDistinctRanks(rd: Round, size: nat)
    requires Served(rd, size)
    ensures NeverOverwrites([rd], size) <==> DistinctRanks(rd)
  {
    if DistinctRanks(rd) {
      forall actions, a, r: nat ensures !Overwrites([rd], Exec([rd], size, actions), a, r) {
        TasksSurvive([rd], size, actions, a, r);
      }
    } else {
      var i, j :| 0 <= i < j < |rd.posts| && rd.posts[i].rank == rd.posts[j].rank;
      RepeatedRankOverwrites(rd, size, i, j);
    }
  }
}
