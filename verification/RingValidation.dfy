/** Validating a whole ring: the rounds of `split_ring`, written out as tasks, run by the protocol. */
module RingValidation {
  import opened TaskText
  import Split = TaskSplit
  import Topo = GlobalTopo
  import opened ValidationProtocol

  /** `comm_addrs` and `group2global` of a clique. */
  datatype Clique = Clique(addrs: map<nat, nat>, global: map<nat, nat>)

  /** Every rank of the ring is known, different group ranks are different global ranks below the
      world size, and addresses are real addresses rather than single digits. */
  ghost predicate Describes(c: Clique, ring: seq<nat>, size: nat) {
    && (forall g :: g in ring ==> g in c.addrs && g in c.global && c.global[g] < size)
    && (forall g, h :: g in ring && h in ring && c.global[g] == c.global[h] ==> g == h)
    && (forall g :: g in ring ==> 10 <= c.addrs[g] <= ULONG_MAX && g <= INT_MAX)
  }

  /** The `i`-th write of `dispatch_comm_task`: for each pair, first the sender's task, then the receiver's. */
  function PostAt(c: Clique, task: Split.Round, i: nat): Post
    requires i < 2 * |task.senders| && |task.senders| == |task.recvers|
    requires forall g :: g in task.senders + task.recvers ==> g in c.addrs && g in c.global
  {
    var s, r := task.senders[i / 2], task.recvers[i / 2];
    assert s in task.senders + task.recvers && r in task.senders + task.recvers;
    if i % 2 == 0 then Post(c.global[s], CommText(ROLE_SENDER, r, c.addrs[s]))
    else Post(c.global[r], CommText(ROLE_RECVER, s, c.addrs[r]))
  }

  /** The keys polled together: the two ends of pair `i`. */
  function WaitAt(c: Clique, task: Split.Round, i: nat): seq<nat>
    requires i < |task.senders| && |task.senders| == |task.recvers|
    requires forall g :: g in task.senders + task.recvers ==> g in c.addrs && g in c.global
  {
    var s, r := task.senders[i], task.recvers[i];
    assert s in task.senders + task.recvers && r in task.senders + task.recvers;
    [c.global[s], c.global[r]]
  }

  /** `rd` is what the controller does for `task`; results are polled in some order of the set of ranks. */
  ghost predicate RoundOf(c: Clique, task: Split.Round, rd: Round) {
    var both := task.senders + task.recvers;
    && |task.senders| == |task.recvers|
    && (forall g :: g in both ==> g in c.addrs && g in c.global)
    && |rd.posts| == 2 * |task.senders|
    && (forall i :: 0 <= i < |rd.posts| ==> rd.posts[i] == PostAt(c, task, i))
    && |rd.waits| == |task.senders|
    && (forall i :: 0 <= i < |rd.waits| ==> rd.waits[i] == WaitAt(c, task, i))
    && (forall i, j :: 0 <= i < j < |rd.collect| ==> rd.collect[i] != rd.collect[j])
    && (forall q :: q in rd.collect <==> exists i :: 0 <= i < |both| && c.global[both[i]] == q)
  }

  /** Entry of `senders + recvers` that the `i`-th write is addressed to. */
  function EntryOf(w: nat, i: nat): nat {
    if i % 2 == 0 then i / 2 else w + i / 2
  }

  lemma PostRank(c: Clique, task: Split.Round, rd: Round, i: nat)
    requires RoundOf(c, task, rd) && i < |rd.posts|
    ensures var both := task.senders + task.recvers; var e := EntryOf(|task.senders|, i);
            e < |both| && both[e] in both && rd.posts[i].rank == c.global[both[e]]
  {
    var both, e := task.senders + task.recvers, EntryOf(|task.senders|, i);
    assert both[e] == if i % 2 == 0 then task.senders[i / 2] else task.recvers[i / 2];
  }

  /** Different writes go to different entries, so to different ranks. */
  lemma PostRanksDiffer(c: Clique, ring: seq<nat>, size: nat, task: Split.Round, rd: Round, i: nat, j: nat)
    requires Describes(c, ring, size) && RoundOf(c, task, rd) && Split.Matching(task) && i < j < |rd.posts|
    requires forall g :: g in task.senders + task.recvers ==> g in ring
    ensures rd.posts[i].rank != rd.posts[j].rank
  {
    PostRank(c, task, rd, i);
    PostRank(c, task, rd, j);
    assert EntryOf(|task.senders|, i) != EntryOf(|task.senders|, j);
  }

  lemma RoundNamesDistinctRanks(c: Clique, ring: seq<nat>, size: nat, task: Split.Round, rd: Round)
    requires Describes(c, ring, size) && RoundOf(c, task, rd) && Split.Matching(task)
    requires forall g :: g in task.senders + task.recvers ==> g in ring
    ensures DistinctRanks(rd)
  {
    forall i, j | 0 <= i < j < |rd.posts| ensures rd.posts[i].rank != rd.posts[j].rank {
      PostRanksDiffer(c, ring, size, task, rd, i, j);
    }
  }

  /** The ranks a round names are the global ranks of its senders and receivers. */
  lemma JobsOfRound(c: Clique, task: Split.Round, rd: Round, q: nat)
    requires RoundOf(c, task, rd)
    ensures var both := task.senders + task.recvers;
            q in Jobs(rd.posts) <==> exists e :: 0 <= e < |both| && c.global[both[e]] == q
  {
    var both, w := task.senders + task.recvers, |task.senders|;
    JobsDomain(rd.posts, q);
    if q in Jobs(rd.posts) {
      var i :| 0 <= i < |rd.posts| && rd.posts[i].rank == q;
      PostRank(c, task, rd, i);
    }
    if e :| 0 <= e < |both| && c.global[both[e]] == q {
      var i := if e < w then 2 * e else 2 * (e - w) + 1;
      assert EntryOf(w, i) == e;
      PostRank(c, task, rd, i);
    }
  }

  lemma RoundIsAwaited(c: Clique, task: Split.Round, rd: Round, q: nat)
    requires RoundOf(c, task, rd) && q in Jobs(rd.posts)
    ensures AwaitedBefore(rd, |rd.waits|, q)
  {
    var both, w := task.senders + task.recvers, |task.senders|;
    JobsOfRound(c, task, rd, q);
    var e :| 0 <= e < |both| && c.global[both[e]] == q;
    var k := if e < w then e else e - w;
    assert rd.waits[k] == WaitAt(c, task, k);
    assert q == rd.waits[k][if e < w then 0 else 1];
  }

  lemma WaitsForNamed(c: Clique, task: Split.Round, rd: Round, g: nat, m: nat)
    requires RoundOf(c, task, rd) && g < |rd.waits| && m < |rd.waits[g]|
    ensures rd.waits[g][m] in Jobs(rd.posts)
  {
    var both, w := task.senders + task.recvers, |task.senders|;
    var e := if m == 0 then g else w + g;
    assert rd.waits[g] == WaitAt(c, task, g);
    assert both[e] == if m == 0 then task.senders[g] else task.recvers[g];
    JobsOfRound(c, task, rd, rd.waits[g][m]);
  }

  lemma PostIsTaken(c: Clique, ring: seq<nat>, size: nat, task: Split.Round, rd: Round, i: nat)
    requires Describes(c, ring, size) && RoundOf(c, task, rd) && i < |rd.posts|
    requires forall g :: g in task.senders + task.recvers ==> g in ring
    ensures rd.posts[i].rank < size && Takes(rd.posts[i].text)
  {
    PostRank(c, task, rd, i);
    var s, r := task.senders[i / 2], task.recvers[i / 2];
    assert s in task.senders + task.recvers && r in task.senders + task.recvers;
    TakesCommText(ROLE_SENDER, r, c.addrs[s]);
    TakesCommText(ROLE_RECVER, s, c.addrs[r]);
  }

  /** The rounds of a ring without repeated ranks satisfy everything the protocol needs. */
  lemma MatchingRoundWellFormed(c: Clique, ring: seq<nat>, size: nat, task: Split.Round, rd: Round)
    requires Describes(c, ring, size) && RoundOf(c, task, rd) && Split.Matching(task)
    requires forall g :: g in task.senders + task.recvers ==> g in ring
    ensures WellFormed(rd, size)
  {
    RoundNamesDistinctRanks(c, ring, size, task, rd);
    forall i | 0 <= i < |rd.posts| ensures rd.posts[i].rank < size && Takes(rd.posts[i].text) {
      PostIsTaken(c, ring, size, task, rd, i);
    }
    forall g, m | 0 <= g < |rd.waits| && 0 <= m < |rd.waits[g]| ensures rd.waits[g][m] in Jobs(rd.posts) {
      WaitsForNamed(c, task, rd, g, m);
    }
    forall q: nat ensures q in Jobs(rd.posts) ==> AwaitedBefore(rd, |rd.waits|, q)
      ensures q in Jobs(rd.posts) <==> q in rd.collect
    {
      JobsOfRound(c, task, rd, q);
      if q in Jobs(rd.posts) {
        RoundIsAwaited(c, task, rd, q);
      }
    }
  }

  // ----- The computation round -----

  /** `validate_computation`: the same text to every rank, each polled by itself. */
  function ComputationRound(size: nat): Round {
    Round(seq(size, (i: nat) => Post(i, COMPUTATION_TEST)), seq(size, (i: nat) => [i]), seq(size, (i: nat) => i))
  }

  lemma ComputationRoundWellFormed(size: nat)
    ensures WellFormed(ComputationRound(size), size)
  {
    var rd := ComputationRound(size);
    TakesCommText(ROLE_SENDER, 0, 0);
    forall q: nat ensures q in Jobs(rd.posts) <==> q < size
      ensures q in Jobs(rd.posts) ==> AwaitedBefore(rd, |rd.waits|, q)
      ensures q in Jobs(rd.posts) <==> q in rd.collect
    {
      JobsDomain(rd.posts, q);
      if q < size {
        assert rd.posts[q].rank == q && rd.collect[q] == q && rd.waits[q] == [q];
      }
    }
  }

  // ----- The ring campaign -----

  /** From round `first` on, the plan holds the rounds `tasks`. */
  ghost predicate PlannedFrom(plan: seq<Round>, first: nat, c: Clique, tasks: seq<Split.Round>) {
    && first + |tasks| <= |plan|
    && forall k :: 0 <= k < |tasks| ==> RoundOf(c, tasks[k], plan[first + k])
  }

  /** From round `first` on, the plan holds the rounds of the ring. */
  ghost predicate Campaign(plan: seq<Round>, first: nat, c: Clique, ring: seq<nat>)
    requires |ring| >= 1
  {
    PlannedFrom(plan, first, c, Split.SplitRing(ring))
  }

  lemma RingRoundWellFormed(rd: Round, size: nat, c: Clique, ring: seq<nat>, k: nat)
    requires RingRoundAt(rd, size, c, ring, k)
    ensures WellFormed(rd, size)
  {
    var task := Split.SplitRing(ring)[k];
    Split.SplitShape(ring, 0);
    Split.SplitRoundsAreMatchings(ring, k);
    Split.SplitShape(ring, k);
    forall g | g in task.senders + task.recvers ensures g in ring {
      var e :| 0 <= e < |task.senders + task.recvers| && (task.senders + task.recvers)[e] == g;
      Split.SplitEntry(ring, k, e);
    }
    MatchingRoundWellFormed(c, ring, size, task, rd);
  }

  ghost predicate Knows(c: Clique, g: nat) {
    g in c.global && g in c.addrs
  }

  /** In round `n`, rank `g` of the clique ran its end of a transfer to or from `peer`, once and nothing else. */
  ghost predicate Ran(s: System, c: Clique, n: nat, role: nat, g: nat, peer: nat)
    requires Knows(c, g)
  {
    exists p :: Runs(s.log, c.global[g], n) == [Execution(c.global[g], n, CommText(role, peer, c.addrs[g]), p)]
  }

  /** In round `n`, rank `g` ran, among whatever it ran, an end of a transfer to or from `peer`. */
  ghost predicate Touched(s: System, c: Clique, n: nat, role: nat, g: nat, peer: nat)
    requires Knows(c, g)
  {
    exists e :: e in Runs(s.log, c.global[g], n) && e.text == CommText(role, peer, c.addrs[g])
  }

  lemma {:induction false} JobOfPost(posts: seq<Post>, i: nat)
    requires i < |posts| && forall i, j :: 0 <= i < j < |posts| ==> posts[i].rank != posts[j].rank
    ensures posts[i].rank in Jobs(posts) && Jobs(posts)[posts[i].rank] == posts[i].text
  {
    if i < |posts| - 1 {
      JobOfPost(posts[..|posts| - 1], i);
    }
  }

  lemma JobAt(c: Clique, task: Split.Round, rd: Round, i: nat)
    requires RoundOf(c, task, rd) && DistinctRanks(rd) && i < |rd.posts|
    ensures var p := PostAt(c, task, i); p.rank in Jobs(rd.posts) && Jobs(rd.posts)[p.rank] == p.text
  {
    JobOfPost(rd.posts, i);
  }

  lemma PostsOfPair(c: Clique, task: Split.Round, rd: Round, t: nat)
    requires RoundOf(c, task, rd) && t < |task.senders|
    ensures var a, b := task.senders[t], task.recvers[t];
            && Knows(c, a) && Knows(c, b)
            && PostAt(c, task, 2 * t) == Post(c.global[a], CommText(ROLE_SENDER, b, c.addrs[a]))
            && PostAt(c, task, 2 * t + 1) == Post(c.global[b], CommText(ROLE_RECVER, a, c.addrs[b]))
  {
    var a, b := task.senders[t], task.recvers[t];
    assert a in task.senders + task.recvers && b in task.senders + task.recvers;
  }

  /** The jobs a round gives to the two ends of its transfer `t`. */
  lemma PairJobs(c: Clique, task: Split.Round, rd: Round, t: nat)
    requires RoundOf(c, task, rd) && DistinctRanks(rd) && t < |task.senders|
    ensures var a, b, jobs := task.senders[t], task.recvers[t], Jobs(rd.posts);
            && Knows(c, a) && Knows(c, b)
            && c.global[a] in jobs && jobs[c.global[a]] == CommText(ROLE_SENDER, b, c.addrs[a])
            && c.global[b] in jobs && jobs[c.global[b]] == CommText(ROLE_RECVER, a, c.addrs[b])
  {
    PostsOfPair(c, task, rd, t);
    JobAt(c, task, rd, 2 * t);
    JobAt(c, task, rd, 2 * t + 1);
  }

  /** In a round that is done, both ends of each transfer have run, once. */
  lemma DoneRoundRan(plan: seq<Round>, s: System, n: nat, c: Clique, task: Split.Round, t: nat)
    requires n < |plan| && n < |s.collected| && RoundDone(plan, s, n)
    requires RoundOf(c, task, plan[n]) && DistinctRanks(plan[n]) && t < |task.senders|
    ensures LinkMeasured(s, c, n, task.senders[t], task.recvers[t])
  {
    PairJobs(c, task, plan[n], t);
    var q, q' := c.global[task.senders[t]], c.global[task.recvers[t]];
    assert Sole(s, q, n, Jobs(plan[n].posts)[q], s.collected[n][q]);
    assert Sole(s, q', n, Jobs(plan[n].posts)[q'], s.collected[n][q']);
  }

  /** What a rank has run in a round that is done is the text of some post to it. */
  lemma DoneRoundPosted(plan: seq<Round>, s: System, n: nat, e: Execution, q: nat) returns (j: nat)
    requires n < |plan| && n < |s.collected| && RoundDone(plan, s, n) && DistinctRanks(plan[n])
    requires e in Runs(s.log, q, n)
    ensures j < |plan[n].posts| && plan[n].posts[j] == Post(q, e.text)
  {
    var posts := plan[n].posts;
    JobsDomain(posts, q);
    assert q in Jobs(posts) && Sole(s, q, n, Jobs(posts)[q], s.collected[n][q]);
    j :| 0 <= j < |posts| && posts[j].rank == q;
    JobOfPost(posts, j);
  }

  /** In round `n`, each end of the link from `a` to `b` ran its task, once. */
  ghost predicate LinkMeasured(s: System, c: Clique, n: nat, a: nat, b: nat) {
    Knows(c, a) && Knows(c, b) && Ran(s, c, n, ROLE_SENDER, a, b) && Ran(s, c, n, ROLE_RECVER, b, a)
  }

  /** In round `n`, some end of the link from `a` to `b` ran a transfer over it. */
  ghost predicate LinkTouched(s: System, c: Clique, n: nat, a: nat, b: nat) {
    || (Knows(c, a) && Touched(s, c, n, ROLE_SENDER, a, b))
    || (Knows(c, b) && Touched(s, c, n, ROLE_RECVER, b, a))
  }

  // ----- Which transfer a post belongs to -----

  /** Tasks with different roles, peers or addresses have different texts. */
  lemma TextTells(role: nat, peer: nat, addr: nat, role': nat, peer': nat, addr': nat)
    requires role <= INT_MAX && peer <= INT_MAX && addr <= ULONG_MAX
    requires role' <= INT_MAX && peer' <= INT_MAX && addr' <= ULONG_MAX
    requires CommText(role, peer, addr) == CommText(role', peer', addr')
    ensures role == role' && peer == peer' && addr == addr'
  {
    TaskRoundTrip(role, peer, addr);
    TaskRoundTrip(role', peer', addr');
  }

  /** All ranks of the round are ranks of the ring. */
  ghost predicate Within(task: Split.Round, ring: seq<nat>) {
    |task.senders| == |task.recvers|
    && forall t :: 0 <= t < |task.senders| ==> task.senders[t] in ring && task.recvers[t] in ring
  }

  /** A post that tells rank `g` to send to (or receive from) `peer` comes from a transfer between them. */
  lemma PostTells(c: Clique, ring: seq<nat>, size: nat, task: Split.Round, j: nat, role: nat, g: nat, peer: nat)
    requires Describes(c, ring, size) && g in ring && peer in ring && Within(task, ring)
    requires role == ROLE_SENDER || role == ROLE_RECVER
    requires j < 2 * |task.senders| && forall h :: h in task.senders + task.recvers ==> Knows(c, h)
    requires PostAt(c, task, j) == Post(c.global[g], CommText(role, peer, c.addrs[g]))
    ensures Split.Transfers(task, j / 2, if role == ROLE_SENDER then (g, peer) else (peer, g))
  {
    var s, r := task.senders[j / 2], task.recvers[j / 2];
    if j % 2 == 0 {
      TextTells(role, peer, c.addrs[g], ROLE_SENDER, r, c.addrs[s]);
    } else {
      TextTells(role, peer, c.addrs[g], ROLE_RECVER, s, c.addrs[r]);
    }
  }

  /** Round `n` is done, and it is that of the ring's transfers `task`. */
  ghost predicate DoneFor(plan: seq<Round>, s: System, n: nat, c: Clique, task: Split.Round) {
    && n < |plan| && n < |s.collected| && RoundDone(plan, s, n) && DistinctRanks(plan[n])
    && RoundOf(c, task, plan[n])
  }

  /** A rank that ran an end of a transfer in a round that is done did so for one of its transfers. */
  lemma TouchedTransfer(plan: seq<Round>, s: System, n: nat, c: Clique, ring: seq<nat>, size: nat, task: Split.Round,
                        role: nat, g: nat, peer: nat) returns (t: nat)
    requires DoneFor(plan, s, n, c, task) && Within(task, ring)
    requires Describes(c, ring, size) && g in ring && peer in ring
    requires role == ROLE_SENDER || role == ROLE_RECVER
    requires Touched(s, c, n, role, g, peer)
    ensures Split.Transfers(task, t, if role == ROLE_SENDER then (g, peer) else (peer, g))
  {
    var e :| e in Runs(s.log, c.global[g], n) && e.text == CommText(role, peer, c.addrs[g]);
    var j := DoneRoundPosted(plan, s, n, e, c.global[g]);
    assert plan[n].posts[j] == PostAt(c, task, j);
    PostTells(c, ring, size, task, j, role, g, peer);
    t := j / 2;
  }

  /** A round without a transfer over the link leaves the link alone. */
  lemma OtherRoundUntouched(plan: seq<Round>, s: System, n: nat, c: Clique, ring: seq<nat>, size: nat, task: Split.Round,
                            a: nat, b: nat)
    requires DoneFor(plan, s, n, c, task) && Within(task, ring)
    requires Describes(c, ring, size) && a in ring && b in ring && !Split.Measures(task, (a, b))
    ensures !LinkTouched(s, c, n, a, b)
  {
    if Touched(s, c, n, ROLE_SENDER, a, b) {
      var t := TouchedTransfer(plan, s, n, c, ring, size, task, ROLE_SENDER, a, b);
    }
    if Touched(s, c, n, ROLE_RECVER, b, a) {
      var t := TouchedTransfer(plan, s, n, c, ring, size, task, ROLE_RECVER, b, a);
    }
  }

  lemma OwnRoundMeasures(plan: seq<Round>, s: System, n: nat, c: Clique, task: Split.Round, a: nat, b: nat)
    requires DoneFor(plan, s, n, c, task) && Split.Measures(task, (a, b))
    ensures LinkMeasured(s, c, n, a, b)
  {
    var t: nat :| Split.Transfers(task, t, (a, b));
    DoneRoundRan(plan, s, n, c, task, t);
  }

  // ----- All rounds of a ring -----

  /** Every collected round is done. */
  ghost predicate CollectedAreDone(plan: seq<Round>, s: System) {
    forall n :: 0 <= n < |s.collected| ==> n < |plan| && RoundDone(plan, s, n)
  }

  lemma ReachedAreDone(plan: seq<Round>, size: nat, actions: seq<Action>)
    requires WellFormedPlan(plan, size)
    ensures CollectedAreDone(plan, Exec(plan, size, actions))
  {
    ReachableInv(plan, size, actions);
  }

  /** The link was measured in one of the `rounds` rounds from `first` on, and untouched in the others. */
  ghost predicate MeasuredOnce(s: System, c: Clique, first: nat, rounds: nat, a: nat, b: nat) {
    exists m :: MeasuredOnlyIn(s, c, first, rounds, a, b, m)
  }

  ghost predicate MeasuredOnlyIn(s: System, c: Clique, first: nat, rounds: nat, a: nat, b: nat, m: nat) {
    && first <= m < first + rounds && LinkMeasured(s, c, m, a, b)
    && forall n :: first <= n < first + rounds && n != m ==> !LinkTouched(s, c, n, a, b)
  }

  /** The rounds `tasks`, from `first` on, are done. */
  ghost predicate CampaignDone(plan: seq<Round>, s: System, first: nat, c: Clique, tasks: seq<Split.Round>) {
    forall k :: 0 <= k < |tasks| ==> DoneFor(plan, s, first + k, c, tasks[k])
  }

  lemma CollectedIsDoneFor(plan: seq<Round>, size: nat, s: System, n: nat, c: Clique, task: Split.Round)
    requires WellFormedPlan(plan, size) && CollectedAreDone(plan, s) && n < |s.collected|
    requires n < |plan| && RoundOf(c, task, plan[n])
    ensures DoneFor(plan, s, n, c, task)
  {
    assert WellFormed(plan[n], size);
  }

  lemma CollectedCampaignIsDone(plan: seq<Round>, size: nat, s: System, first: nat, c: Clique, tasks: seq<Split.Round>)
    requires WellFormedPlan(plan, size) && CollectedAreDone(plan, s) && PlannedFrom(plan, first, c, tasks)
    requires first + |tasks| <= |s.collected|
    ensures CampaignDone(plan, s, first, c, tasks)
  {
    forall k | 0 <= k < |tasks| ensures DoneFor(plan, s, first + k, c, tasks[k]) {
      CollectedIsDoneFor(plan, size, s, first + k, c, tasks[k]);
    }
  }

  /** Round `m` has the transfer from `a` to `b`, and no other round has. */
  ghost predicate OnlyRound(tasks: seq<Split.Round>, a: nat, b: nat, m: nat) {
    m < |tasks| && forall k :: 0 <= k < |tasks| ==> (Split.Measures(tasks[k], (a, b)) <==> k == m)
  }

  lemma UntouchedAt(plan: seq<Round>, s: System, first: nat, c: Clique, ring: seq<nat>, size: nat,
                    tasks: seq<Split.Round>, a: nat, b: nat, k: nat)
    requires CampaignDone(plan, s, first, c, tasks) && k < |tasks| && Within(tasks[k], ring)
    requires Describes(c, ring, size) && a in ring && b in ring && !Split.Measures(tasks[k], (a, b))
    ensures !LinkTouched(s, c, first + k, a, b)
  {
    OtherRoundUntouched(plan, s, first + k, c, ring, size, tasks[k], a, b);
  }

  lemma UntouchedInRound(plan: seq<Round>, s: System, first: nat, c: Clique, ring: seq<nat>, size: nat,
                         tasks: seq<Split.Round>, a: nat, b: nat, m: nat, n: nat)
    requires CampaignDone(plan, s, first, c, tasks) && OnlyRound(tasks, a, b, m)
    requires Describes(c, ring, size) && a in ring && b in ring && AllWithin(tasks, ring)
    requires first <= n < first + |tasks| && n != first + m
    ensures !LinkTouched(s, c, n, a, b)
  {
    UntouchedAt(plan, s, first, c, ring, size, tasks, a, b, n - first);
  }

  lemma UntouchedElsewhere(plan: seq<Round>, s: System, first: nat, c: Clique, ring: seq<nat>, size: nat,
                           tasks: seq<Split.Round>, a: nat, b: nat, m: nat)
    requires CampaignDone(plan, s, first, c, tasks) && OnlyRound(tasks, a, b, m)
    requires Describes(c, ring, size) && a in ring && b in ring && AllWithin(tasks, ring)
    ensures forall n :: first <= n < first + |tasks| && n != first + m ==> !LinkTouched(s, c, n, a, b)
  {
    forall n: nat | first <= n < first + |tasks| && n != first + m ensures !LinkTouched(s, c, n, a, b) {
      UntouchedInRound(plan, s, first, c, ring, size, tasks, a, b, m, n);
    }
  }

  lemma MeasuredThere(plan: seq<Round>, s: System, first: nat, c: Clique, tasks: seq<Split.Round>, a: nat, b: nat, m: nat)
    requires CampaignDone(plan, s, first, c, tasks) && OnlyRound(tasks, a, b, m)
    ensures m < |tasks| && LinkMeasured(s, c, first + m, a, b)
  {
    OwnRoundMeasures(plan, s, first + m, c, tasks[m], a, b);
  }

  /** A link is measured in its round: the one rank runs, once, the sending end and the other, once, the
      receiving end.  In every other round, nothing that either of them runs is a transfer over it. */
  lemma DoneCampaignMeasures(plan: seq<Round>, s: System, first: nat, c: Clique, ring: seq<nat>, size: nat,
                             tasks: seq<Split.Round>, a: nat, b: nat, m: nat)
    requires CampaignDone(plan, s, first, c, tasks) && OnlyRound(tasks, a, b, m)
    requires Describes(c, ring, size) && a in ring && b in ring && AllWithin(tasks, ring)
    ensures MeasuredOnlyIn(s, c, first, |tasks|, a, b, first + m)
  {
    MeasuredThere(plan, s, first, c, tasks, a, b, m);
    UntouchedElsewhere(plan, s, first, c, ring, size, tasks, a, b, m);
  }

  ghost predicate AllWithin(tasks: seq<Split.Round>, ring: seq<nat>) {
    forall k :: 0 <= k < |tasks| ==> Within(tasks[k], ring)
  }

  lemma RingWithin(ring: seq<nat>)
    requires |ring| >= 2
    ensures AllWithin(Split.SplitRing(ring), ring)
  {
    forall k | 0 <= k < |Split.SplitRing(ring)| ensures Within(Split.SplitRing(ring)[k], ring) {
      RingRoundWithin(ring, k);
    }
  }

  lemma CollectedCampaignMeasures(plan: seq<Round>, size: nat, s: System, first: nat, c: Clique, ring: seq<nat>,
                                  tasks: seq<Split.Round>, a: nat, b: nat, m: nat)
    requires WellFormedPlan(plan, size) && CollectedAreDone(plan, s) && PlannedFrom(plan, first, c, tasks)
    requires first + |tasks| <= |s.collected| && OnlyRound(tasks, a, b, m)
    requires Describes(c, ring, size) && a in ring && b in ring && AllWithin(tasks, ring)
    ensures MeasuredOnlyIn(s, c, first, |tasks|, a, b, first + m)
  {
    CollectedCampaignIsDone(plan, size, s, first, c, tasks);
    DoneCampaignMeasures(plan, s, first, c, ring, size, tasks, a, b, m);
  }

  lemma RingRoundWithin(ring: seq<nat>, k: nat)
    requires |ring| >= 2 && k < |Split.SplitRing(ring)|
    ensures Within(Split.SplitRing(ring)[k], ring)
  {
    var task := Split.SplitRing(ring)[k];
    Split.SplitShape(ring, 0);
    Split.SplitShape(ring, k);
    forall t | 0 <= t < |task.senders| ensures task.senders[t] in ring && task.recvers[t] in ring {
      Split.SplitTransfer(ring, k, t);
    }
  }

  lemma RingLinkOnlyRound(ring: seq<nat>, i: nat)
    requires |ring| >= 2 && Split.NoDuplicates(ring) && i < |ring|
    ensures OnlyRound(Split.SplitRing(ring), Split.LinkAt(ring, i).0, Split.LinkAt(ring, i).1, Split.Slot(|ring|, i).0)
    ensures Split.LinkAt(ring, i).0 in ring && Split.LinkAt(ring, i).1 in ring
  {
    var (m, t) := Split.Slot(|ring|, i);
    Split.SplitShape(ring, 0);
    Split.SlotInRange(|ring|, i);
    Split.SplitMeasuresEachLinkOnce(ring, i, m, t);
    forall k, t' | 0 <= k < |Split.SplitRing(ring)| && 0 <= t' && Split.Transfers(Split.SplitRing(ring)[k], t', Split.LinkAt(ring, i))
      ensures k == m
    {
      Split.SplitMeasuresEachLinkOnce(ring, i, k, t');
    }
  }

  /** The link that leaves position `i` of the ring was measured in the round of its slot and left alone
      in the others. */
  ghost predicate PositionMeasured(s: System, c: Clique, first: nat, ring: seq<nat>, i: nat)
    requires |ring| >= 2 && i < |ring|
  {
    var (a, b) := Split.LinkAt(ring, i);
    exists m :: MeasuredOnlyIn(s, c, first, |Split.SplitRing(ring)|, a, b, m) && m == first + Split.Slot(|ring|, i).0
  }

  lemma CollectedPositionMeasured(plan: seq<Round>, size: nat, s: System, first: nat, c: Clique, ring: seq<nat>, i: nat)
    requires |ring| >= 2 && Split.NoDuplicates(ring) && Describes(c, ring, size) && i < |ring|
    requires WellFormedPlan(plan, size) && CollectedAreDone(plan, s) && Campaign(plan, first, c, ring)
    requires |s.collected| >= first + |Split.SplitRing(ring)|
    ensures PositionMeasured(s, c, first, ring, i)
  {
    var (a, b) := Split.LinkAt(ring, i);
    RingLinkOnlyRound(ring, i);
    RingWithin(ring);
    CollectedCampaignMeasures(plan, size, s, first, c, ring, Split.SplitRing(ring), a, b, Split.Slot(|ring|, i).0);
  }

  /** After the campaign has been collected, in whatever order its steps interleaved, the link that
      leaves position `i` of the ring was measured in the round of its slot and left alone in the others. */
  lemma CampaignMeasuresLink(plan: seq<Round>, first: nat, c: Clique, ring: seq<nat>, size: nat, actions: seq<Action>, i: nat)
    requires |ring| >= 2 && Split.NoDuplicates(ring) && Describes(c, ring, size) && i < |ring|
    requires WellFormedPlan(plan, size) && Campaign(plan, first, c, ring)
    requires |Exec(plan, size, actions).collected| >= first + |Split.SplitRing(ring)|
    ensures PositionMeasured(Exec(plan, size, actions), c, first, ring, i)
  {
    ReachedAreDone(plan, size, actions);
    CollectedPositionMeasured(plan, size, Exec(plan, size, actions), first, c, ring, i);
  }

  /** Nothing that either end of the link from position `i` ran in round `n` is a transfer over it. */
  ghost predicate PositionUntouched(s: System, c: Clique, n: nat, ring: seq<nat>, i: nat)
    requires i < |ring|
  {
    exists a, b :: (a, b) == Split.LinkAt(ring, i) && !LinkTouched(s, c, n, a, b)
  }

  /** A round of a campaign that is still under way, once collected, leaves alone the links of the others. */
  lemma CampaignMeasuresLinkOnce(plan: seq<Round>, first: nat, c: Clique, ring: seq<nat>, size: nat, actions: seq<Action>, i: nat, k: nat)
    requires |ring| >= 2 && Split.NoDuplicates(ring) && Describes(c, ring, size) && i < |ring|
    requires WellFormedPlan(plan, size) && Campaign(plan, first, c, ring)
    requires k < |Split.SplitRing(ring)| && k != Split.Slot(|ring|, i).0
    requires first + k < |Exec(plan, size, actions).collected|
    ensures PositionUntouched(Exec(plan, size, actions), c, first + k, ring, i)
  {
    ReachedAreDone(plan, size, actions);
    RoundAfterUntouched(plan, size, Exec(plan, size, actions), first, c, ring, i, k);
  }

  lemma RoundAfterUntouched(plan: seq<Round>, size: nat, s: System, first: nat, c: Clique, ring: seq<nat>, i: nat, k: nat)
    requires |ring| >= 2 && Split.NoDuplicates(ring) && Describes(c, ring, size) && i < |ring|
    requires WellFormedPlan(plan, size) && CollectedAreDone(plan, s) && Campaign(plan, first, c, ring)
    requires k < |Split.SplitRing(ring)| && k != Split.Slot(|ring|, i).0 && first + k < |s.collected|
    ensures PositionUntouched(s, c, first + k, ring, i)
  {
    var (a, b) := Split.LinkAt(ring, i);
    RoundAfterIsDone(plan, size, s, first + k, c, ring, Split.SplitRing(ring)[k], a, b, i, k);
  }

  lemma RoundAfterIsDone(plan: seq<Round>, size: nat, s: System, n: nat, c: Clique, ring: seq<nat>, task: Split.Round,
                         a: nat, b: nat, i: nat, k: nat)
    requires |ring| >= 2 && Split.NoDuplicates(ring) && Describes(c, ring, size) && i < |ring|
    requires WellFormedPlan(plan, size) && CollectedAreDone(plan, s) && n < |s.collected|
    requires k < |Split.SplitRing(ring)| && k != Split.Slot(|ring|, i).0 && task == Split.SplitRing(ring)[k]
    requires n < |plan| && RoundOf(c, task, plan[n]) && (a, b) == Split.LinkAt(ring, i)
    ensures !LinkTouched(s, c, n, a, b)
  {
    CollectedIsDoneFor(plan, size, s, n, c, task);
    RingLinkOnlyRound(ring, i);
    RingRoundWithin(ring, k);
    OtherRoundUntouched(plan, s, n, c, ring, size, task, a, b);
  }

  /** From the reported communicators to the measured links: when the ring was walked along the members'
      next pointers (`GlobalTopo.BuildRing`) and its campaign has been collected, the link from every
      member to the member it points to was measured in one round and left alone in the others. */
  lemma ReportedPointerMeasured(plan: seq<Round>, first: nat, c: Clique, comms: seq<Topo.Member>, ring: seq<nat>, size: nat,
                                actions: seq<Action>, r: nat)
    requires Topo.CycleOf(comms, ring) && |comms| >= 2 && r in ring
    requires Describes(c, ring, size) && WellFormedPlan(plan, size) && Campaign(plan, first, c, ring)
    requires |Exec(plan, size, actions).collected| >= first + |Split.SplitRing(ring)|
    ensures r in Topo.ByRank(comms)
    ensures MeasuredOnce(Exec(plan, size, actions), c, first, |Split.SplitRing(ring)|, r, Topo.ByRank(comms)[r].next)
  {
    var i := Topo.PositionOfPointer(comms, ring, r);
    CampaignMeasuresLink(plan, first, c, ring, size, actions, i);
  }

  // ----- The computation round -----

  lemma ComputationJobs(size: nat, q: nat)
    ensures q in Jobs(ComputationRound(size).posts) <==> q < size
    ensures q < size ==> Jobs(ComputationRound(size).posts)[q] == "ComputationTest"
  {
    var posts := ComputationRound(size).posts;
    JobsDomain(posts, q);
    if q < size {
      assert posts[q].rank == q;
      JobOfPost(posts, q);
    }
  }

  /** Once a computation round has been collected, every rank has run the computation, once, and its result
      is the collected one. */
  lemma ComputationMeasured(plan: seq<Round>, size: nat, actions: seq<Action>, n: nat, q: nat)
    requires WellFormedPlan(plan, size) && n < |plan| && plan[n] == ComputationRound(size) && q < size
    requires n < |Exec(plan, size, actions).collected|
    ensures var s := Exec(plan, size, actions);
            && q in s.collected[n]
            && Runs(s.log, q, n) == [Execution(q, n, "ComputationTest", s.collected[n][q].profile)]
  {
    ComputationJobs(size, q);
    CollectedExactlyOnce(plan, size, actions, n, q);
  }

  // ----- The plans of the controller -----

  /** A round of some clique's ring. */
  ghost predicate RingRound(rd: Round, size: nat) {
    exists c: Clique, ring: seq<nat>, k: nat :: RingRoundAt(rd, size, c, ring, k)
  }

  ghost predicate RingRoundAt(rd: Round, size: nat, c: Clique, ring: seq<nat>, k: nat) {
    && |ring| >= 2 && Split.NoDuplicates(ring) && Describes(c, ring, size)
    && k < |Split.SplitRing(ring)| && RoundOf(c, Split.SplitRing(ring)[k], rd)
  }

  /** Every plan the controller works through, computation rounds and ring rounds in any order and
      number, is one the protocol serves correctly. */
  lemma ControllerPlansAreWellFormed(plan: seq<Round>, size: nat)
    requires forall n :: 0 <= n < |plan| ==> plan[n] == ComputationRound(size) || RingRound(plan[n], size)
    ensures WellFormedPlan(plan, size)
  {
    forall n | 0 <= n < |plan| ensures WellFormed(plan[n], size) {
      if plan[n] == ComputationRound(size) {
        ComputationRoundWellFormed(size);
      } else {
        var c, ring, k :| RingRoundAt(plan[n], size, c, ring, k);
        RingRoundWellFormed(plan[n], size, c, ring, k);
      }
    }
  }
}
