/** Aggregating measured compute times to data-parallel replicas.

    Ranks form a grid of tensor-parallel, data-parallel and pipeline-parallel positions.  Two passes
    overwrite the results of each pipeline group, then of each tensor group, with the group's maximum;
    a third pass reads off one value per data-parallel index. */
module ReplicaMax {

  datatype Metric = Metric(minLat: real, maxLat: real, avgLat: real, stdLat: real)

  datatype Kind = Special | TP | DP | PP

  datatype Clique = Clique(kind: Kind, ranks: seq<nat>)

  type Results = map<nat, Metric>

  // ----- One pass -----

  /** `m` is the largest average latency among the ranks of `group`. */
  ghost predicate IsMax(m: real, group: set<nat>, results: Results) {
    && group <= results.Keys
    && (forall r :: r in group ==> results[r].avgLat <= m)
    && exists r :: r in group && results[r].avgLat == m
  }

  lemma MaxIsUnique(m: real, n: real, group: set<nat>, results: Results)
    requires IsMax(m, group, results) && IsMax(n, group, results)
    ensures m == n
  {
  }

  ghost function Members(c: Clique): set<nat> {
    set r | r in c.ranks
  }

  /** One of the first `n` cliques is of this kind and holds `r`. */
  ghost predicate Covered(cliques: seq<Clique>, kind: Kind, n: nat, r: nat) {
    exists j :: 0 <= j < n && j < |cliques| && cliques[j].kind == kind && r in cliques[j].ranks
  }

  /** The cliques of this kind are classes of one partition: every member's class is the whole clique. */
  ghost predicate Partitioned(cliques: seq<Clique>, kind: Kind, part: nat -> set<nat>) {
    forall j, r :: 0 <= j < |cliques| && cliques[j].kind == kind && r in cliques[j].ranks ==> part(r) == Members(cliques[j])
  }

  ghost predicate Measured(cliques: seq<Clique>, results: Results) {
    forall j :: 0 <= j < |cliques| ==> cliques[j].ranks != [] && Members(cliques[j]) <= results.Keys
  }

  /** A synchronised metric: minimum, maximum and average are one value without deviation. */
  predicate Exactly(m: Metric) {
    m == Metric(m.avgLat, m.avgLat, m.avgLat, 0.0)
  }

  /** What the pass has made of the result of rank `r` after `n` cliques. */
  ghost predicate Synced(cliques: seq<Clique>, kind: Kind, part: nat -> set<nat>, n: nat, before: Results, now: Results, r: nat)
    requires r in now && r in before
  {
    if Covered(cliques, kind, n, r) then IsMax(now[r].avgLat, part(r), before) && Exactly(now[r]) else now[r] == before[r]
  }

  /** The first or second pass of `group_comp_time_by_dp`. */
  method SyncPass(cliques: seq<Clique>, kind: Kind, results: Results, ghost part: nat -> set<nat>) returns (synced: Results)
    requires Measured(cliques, results) && Partitioned(cliques, kind, part)
    ensures synced.Keys == results.Keys
    ensures forall r :: r in results ==> Synced(cliques, kind, part, |cliques|, results, synced, r)
  {
    synced := results;
    for n := 0 to |cliques|
      invariant synced.Keys == results.Keys
      invariant forall r :: r in results ==> Synced(cliques, kind, part, n, results, synced, r)
    {
      ghost var before := synced;
      if cliques[n].kind == kind {
        var m := MaxOfRanks(cliques[n], synced);
        CliqueMax(cliques, kind, part, n, results, synced, m);
        synced := SetRanks(cliques[n], synced, m);
      }
      forall r | r in results ensures Synced(cliques, kind, part, n + 1, results, synced, r) {
        CoveredStep(cliques, kind, n, r);
        assert Synced(cliques, kind, part, n, results, before, r);
      }
    }
  }

  lemma CoveredStep(cliques: seq<Clique>, kind: Kind, n: nat, r: nat)
    requires n < |cliques|
    ensures Covered(cliques, kind, n + 1, r) <==>
            Covered(cliques, kind, n, r) || (cliques[n].kind == kind && r in cliques[n].ranks)
  {
  }

  /** `max` over the clique's current results. */
  method MaxOfRanks(c: Clique, results: Results) returns (m: real)
    requires c.ranks != [] && Members(c) <= results.Keys
    ensures IsMax(m, Members(c), results)
  {
    m := results[c.ranks[0]].avgLat;
    ghost var at := c.ranks[0];
    for i := 1 to |c.ranks|
      invariant at in Members(c) && results[at].avgLat == m
      invariant forall k :: 0 <= k < i ==> results[c.ranks[k]].avgLat <= m
    {
      if results[c.ranks[i]].avgLat > m {
        m, at := results[c.ranks[i]].avgLat, c.ranks[i];
      }
    }
  }

  method SetRanks(c: Clique, results: Results, m: real) returns (updated: Results)
    requires Members(c) <= results.Keys
    ensures updated.Keys == results.Keys
    ensures forall r :: r in results ==> updated[r] == if r in c.ranks then Metric(m, m, m, 0.0) else results[r]
  {
    updated := results;
    for i := 0 to |c.ranks|
      invariant updated.Keys == results.Keys
      invariant forall r :: r in results ==> updated[r] == if r in c.ranks[..i] then Metric(m, m, m, 0.0) else results[r]
    {
      updated := updated[c.ranks[i] := Metric(m, m, m, 0.0)];
      assert c.ranks[..i + 1] == c.ranks[..i] + [c.ranks[i]];
    }
    assert c.ranks[..|c.ranks|] == c.ranks;
  }

  /** The maximum found in a clique is that of the original results, whether or not an equal clique was
      synchronised before. */
  lemma CliqueMax(cliques: seq<Clique>, kind: Kind, part: nat -> set<nat>, n: nat, before: Results, now: Results, m: real)
    requires n < |cliques| && cliques[n].kind == kind && Partitioned(cliques, kind, part)
    requires Members(cliques[n]) <= before.Keys == now.Keys
    requires forall r :: r in before ==> Synced(cliques, kind, part, n, before, now, r)
    requires IsMax(m, Members(cliques[n]), now)
    ensures IsMax(m, Members(cliques[n]), before)
  {
    var group := Members(cliques[n]);
    if q :| q in group && Covered(cliques, kind, n, q) {
      var j :| 0 <= j < n && cliques[j].kind == kind && q in cliques[j].ranks;
      assert part(q) == group == Members(cliques[j]);
      var top :| top in group && now[top].avgLat == m;
      assert top in cliques[j].ranks;
      assert Synced(cliques, kind, part, n, before, now, top);
    } else {
      forall r | r in group ensures now[r] == before[r] {
        assert Synced(cliques, kind, part, n, before, now, r);
      }
    }
  }

  // ----- The grid -----

  /** Global rank of each position (tensor index, data index, pipeline stage). */
  datatype Grid = Grid(tp: nat, dp: nat, pp: nat, rank: (nat, nat, nat) -> nat)

  ghost predicate At(g: Grid, r: nat, t: nat, d: nat, p: nat) {
    t < g.tp && d < g.dp && p < g.pp && g.rank(t, d, p) == r
  }

  ghost predicate Injective(g: Grid) {
    forall r, t, d, p, t', d', p' :: At(g, r, t, d, p) && At(g, r, t', d', p') ==> t == t' && d == d' && p == p'
  }

  ghost function PipelineGroup(g: Grid, t: nat, d: nat): set<nat> {
    set p | 0 <= p < g.pp :: g.rank(t, d, p)
  }

  ghost function TensorGroup(g: Grid, d: nat, p: nat): set<nat> {
    set t | 0 <= t < g.tp :: g.rank(t, d, p)
  }

  /** All ranks that work for data-parallel index `d`. */
  ghost function Replica(g: Grid, d: nat): set<nat> {
    set t, p | 0 <= t < g.tp && 0 <= p < g.pp :: g.rank(t, d, p)
  }

  ghost predicate OnGrid(g: Grid, r: nat) {
    exists t, d, p :: At(g, r, t, d, p)
  }

  /** The group of rank `r` in the given direction. */
  ghost function GroupOf(g: Grid, kind: Kind, r: nat): set<nat> {
    if OnGrid(g, r) then
      var t, d, p :| At(g, r, t, d, p);
      if kind == PP then PipelineGroup(g, t, d) else TensorGroup(g, d, p)
    else {}
  }

  ghost function Partition(g: Grid, kind: Kind): nat -> set<nat> {
    (r: nat) => GroupOf(g, kind, r)
  }

  /** The cliques are groups of the grid; data-parallel groups are listed in the order of their index. */
  ghost predicate GridClique(g: Grid, c: Clique) {
    match c.kind
    case PP => exists t, d :: 0 <= t < g.tp && 0 <= d < g.dp && Members(c) == PipelineGroup(g, t, d)
    case TP => exists d, p :: 0 <= d < g.dp && 0 <= p < g.pp && Members(c) == TensorGroup(g, d, p)
    case DP => exists t, p :: 0 <= t < g.tp && 0 <= p < g.pp && DataGroup(g, c.ranks, t, p)
    case Special => true
  }

  ghost predicate DataGroup(g: Grid, ranks: seq<nat>, t: nat, p: nat) {
    |ranks| == g.dp && forall d :: 0 <= d < g.dp ==> ranks[d] == g.rank(t, d, p)
  }

  /** Communicators exist for all groups with more than one member. */
  ghost predicate GroupsPresent(g: Grid, cliques: seq<Clique>) {
    && (g.pp > 1 ==> forall r :: OnGrid(g, r) ==> Covered(cliques, PP, |cliques|, r))
    && (g.tp > 1 ==> forall r :: OnGrid(g, r) ==> Covered(cliques, TP, |cliques|, r))
  }

  ghost predicate GridCliques(g: Grid, cliques: seq<Clique>) {
    && g.tp > 0 && g.dp > 0 && g.pp > 0 && Injective(g)
    && (forall j :: 0 <= j < |cliques| ==> GridClique(g, cliques[j]))
    && GroupsPresent(g, cliques)
  }

  lemma GroupAt(g: Grid, kind: Kind, r: nat, t: nat, d: nat, p: nat)
    requires Injective(g) && At(g, r, t, d, p)
    ensures GroupOf(g, kind, r) == if kind == PP then PipelineGroup(g, t, d) else TensorGroup(g, d, p)
  {
    assert OnGrid(g, r);
  }

  lemma CliquesPartition(g: Grid, cliques: seq<Clique>, kind: Kind)
    requires GridCliques(g, cliques) && (kind == PP || kind == TP)
    ensures Partitioned(cliques, kind, Partition(g, kind))
  {
    forall j, r | 0 <= j < |cliques| && cliques[j].kind == kind && r in cliques[j].ranks
      ensures Partition(g, kind)(r) == Members(cliques[j])
    {
      assert GridClique(g, cliques[j]) && r in Members(cliques[j]);
      if kind == PP {
        var t, d :| 0 <= t < g.tp && 0 <= d < g.dp && Members(cliques[j]) == PipelineGroup(g, t, d);
        var p :| 0 <= p < g.pp && g.rank(t, d, p) == r;
        GroupAt(g, kind, r, t, d, p);
      } else {
        var d, p :| 0 <= d < g.dp && 0 <= p < g.pp && Members(cliques[j]) == TensorGroup(g, d, p);
        var t :| 0 <= t < g.tp && g.rank(t, d, p) == r;
        GroupAt(g, kind, r, t, d, p);
      }
    }
  }

  /** After a pass, the value of every rank is the maximum over its group, covered or alone. */
  lemma PassMax(g: Grid, cliques: seq<Clique>, kind: Kind, before: Results, now: Results, r: nat, t: nat, d: nat, p: nat)
    requires GridCliques(g, cliques) && (kind == PP || kind == TP) && At(g, r, t, d, p)
    requires r in before && r in now && Synced(cliques, kind, Partition(g, kind), |cliques|, before, now, r)
    ensures IsMax(now[r].avgLat, if kind == PP then PipelineGroup(g, t, d) else TensorGroup(g, d, p), before)
  {
    GroupAt(g, kind, r, t, d, p);
    assert OnGrid(g, r);
    if !Covered(cliques, kind, |cliques|, r) {
      if kind == PP {
        assert p == 0 && PipelineGroup(g, t, d) == {r};
      } else {
        assert t == 0 && TensorGroup(g, d, p) == {r};
      }
    }
  }

  /** The maximum over a tensor group of maxima over pipeline groups is the maximum over the replica. */
  lemma MaxOfMaxima(g: Grid, d: nat, p: nat, start: Results, mid: Results, m: real)
    requires p < g.pp && d < g.dp
    requires forall t :: 0 <= t < g.tp ==> g.rank(t, d, p) in mid && IsMax(mid[g.rank(t, d, p)].avgLat, PipelineGroup(g, t, d), start)
    requires IsMax(m, TensorGroup(g, d, p), mid)
    ensures IsMax(m, Replica(g, d), start)
  {
    forall r | r in Replica(g, d) ensures r in start && start[r].avgLat <= m {
      var t, p' :| 0 <= t < g.tp && 0 <= p' < g.pp && r == g.rank(t, d, p');
      assert r in PipelineGroup(g, t, d) && g.rank(t, d, p) in TensorGroup(g, d, p);
    }
    var top :| top in TensorGroup(g, d, p) && mid[top].avgLat == m;
    var t :| 0 <= t < g.tp && top == g.rank(t, d, p);
    var r :| r in PipelineGroup(g, t, d) && start[r].avgLat == m;
    assert r in Replica(g, d);
  }

  /** After both passes every rank holds its replica's maximum. */
  ghost predicate HoldsReplicaMax(g: Grid, start: Results, now: Results) {
    forall r, t, d, p :: At(g, r, t, d, p) ==> r in now && IsMax(now[r].avgLat, Replica(g, d), start)
  }

  lemma ReplicaMaxAt(g: Grid, cliques: seq<Clique>, start: Results, mid: Results, now: Results, r: nat, t: nat, d: nat, p: nat)
    requires GridCliques(g, cliques) && start.Keys == mid.Keys == now.Keys && forall r :: OnGrid(g, r) ==> r in start
    requires forall r :: r in start ==> Synced(cliques, PP, Partition(g, PP), |cliques|, start, mid, r)
    requires forall r :: r in mid ==> Synced(cliques, TP, Partition(g, TP), |cliques|, mid, now, r)
    requires At(g, r, t, d, p)
    ensures r in now && IsMax(now[r].avgLat, Replica(g, d), start)
  {
    assert OnGrid(g, r);
    PassMax(g, cliques, TP, mid, now, r, t, d, p);
    forall t' | 0 <= t' < g.tp
      ensures g.rank(t', d, p) in mid && IsMax(mid[g.rank(t', d, p)].avgLat, PipelineGroup(g, t', d), start)
    {
      var q := g.rank(t', d, p);
      assert At(g, q, t', d, p) && OnGrid(g, q);
      PassMax(g, cliques, PP, start, mid, q, t', d, p);
    }
    MaxOfMaxima(g, d, p, start, mid, now[r].avgLat);
  }

  lemma TwoPassesReachReplica(g: Grid, cliques: seq<Clique>, start: Results, mid: Results, now: Results)
    requires GridCliques(g, cliques) && start.Keys == mid.Keys == now.Keys && forall r :: OnGrid(g, r) ==> r in start
    requires forall r :: r in start ==> Synced(cliques, PP, Partition(g, PP), |cliques|, start, mid, r)
    requires forall r :: r in mid ==> Synced(cliques, TP, Partition(g, TP), |cliques|, mid, now, r)
    ensures HoldsReplicaMax(g, start, now)
  {
    forall r, t, d, p | At(g, r, t, d, p) ensures r in now && IsMax(now[r].avgLat, Replica(g, d), start) {
      ReplicaMaxAt(g, cliques, start, mid, now, r, t, d, p);
    }
  }

  /** All ranks of a replica, whichever clique they are read through, hold the same value. */
  lemma ReplicaAgrees(g: Grid, start: Results, now: Results, d: nat, r: nat, t: nat, p: nat, q: nat, t': nat, p': nat)
    requires HoldsReplicaMax(g, start, now) && At(g, r, t, d, p) && At(g, q, t', d, p')
    ensures r in now && q in now && now[r].avgLat == now[q].avgLat
  {
    MaxIsUnique(now[r].avgLat, now[q].avgLat, Replica(g, d), start);
  }

  // ----- The third pass and the whole -----

  /** `group_comp_time_by_dp`: on any grid and in any order of the cliques, each data-parallel index gets
      the maximum compute time over all ranks that work for it; without data-parallel cliques there is
      none. */
  method GroupByReplica(cliques: seq<Clique>, results: Results, ghost g: Grid) returns (replicas: Results)
    requires GridCliques(g, cliques) && Measured(cliques, results) && forall r :: OnGrid(g, r) ==> r in results
    ensures forall d: nat :: d in replicas <==> d < g.dp && exists j :: 0 <= j < |cliques| && cliques[j].kind == DP
    ensures forall d :: d in replicas ==> IsMax(replicas[d].avgLat, Replica(g, d), results)
  {
    CliquesPartition(g, cliques, PP);
    CliquesPartition(g, cliques, TP);
    var mid := SyncPass(cliques, PP, results, Partition(g, PP));
    var synced := SyncPass(cliques, TP, mid, Partition(g, TP));
    TwoPassesReachReplica(g, cliques, results, mid, synced);
    replicas := ReadCliques(cliques, synced, g, results);
  }

  ghost predicate GridCliquesOnly(g: Grid, cliques: seq<Clique>) {
    forall j :: 0 <= j < |cliques| ==> GridClique(g, cliques[j])
  }

  /** The third pass. */
  method ReadCliques(cliques: seq<Clique>, synced: Results, ghost g: Grid, ghost start: Results) returns (replicas: Results)
    requires GridCliquesOnly(g, cliques) && HoldsReplicaMax(g, start, synced)
    ensures forall d: nat :: d in replicas <==> d < g.dp && exists j :: 0 <= j < |cliques| && cliques[j].kind == DP
    ensures forall d :: d in replicas ==> IsMax(replicas[d].avgLat, Replica(g, d), start)
  {
    replicas := map[];
    ghost var seen := false;
    for n := 0 to |cliques|
      invariant seen <==> exists j :: 0 <= j < n && cliques[j].kind == DP
      invariant forall d: nat :: d in replicas <==> seen && d < g.dp
      invariant forall d :: d in replicas ==> IsMax(replicas[d].avgLat, Replica(g, d), start)
    {
      if cliques[n].kind == DP {
        replicas := ReadReplicas(cliques[n], synced, replicas, g, start);
        seen := true;
      }
    }
  }

  /** The third pass over one data-parallel clique. */
  method ReadReplicas(c: Clique, synced: Results, replicas: Results, ghost g: Grid, ghost start: Results) returns (updated: Results)
    requires c.kind == DP && GridClique(g, c) && HoldsReplicaMax(g, start, synced)
    requires forall d :: d in replicas ==> d < g.dp && IsMax(replicas[d].avgLat, Replica(g, d), start)
    ensures forall d: nat :: d in updated <==> d < g.dp
    ensures forall d :: d in updated ==> IsMax(updated[d].avgLat, Replica(g, d), start)
  {
    ghost var t, p :| 0 <= t < g.tp && 0 <= p < g.pp && DataGroup(g, c.ranks, t, p);
    updated := replicas;
    for i := 0 to |c.ranks|
      invariant forall d :: 0 <= d < i ==> d in updated
      invariant forall d :: d in updated ==> d < g.dp && IsMax(updated[d].avgLat, Replica(g, d), start)
    {
      assert At(g, c.ranks[i], t, i, p);
      updated := updated[i := synced[c.ranks[i]]];
    }
  }
}
