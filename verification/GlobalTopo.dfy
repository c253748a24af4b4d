/** Rebuilding the rank ring of a clique from the ring pointers its members reported. */
module GlobalTopo {
  import opened TaskSplit
  import opened FiniteSets

  /** The part of a communicator the ring walk reads: channel 0's ring node and the group rank. */
  datatype Member = Member(groupRank: nat, index: nat, next: nat)

  /** `comms_by_rank`: when a group rank occurs twice, the later member wins. */
  function ByRank(comms: seq<Member>): map<nat, Member> {
    if comms == [] then map[]
    else ByRank(comms[..|comms| - 1])[comms[|comms| - 1].groupRank := comms[|comms| - 1]]
  }

  /** `cycle` lists the keys of `nodes` in the order in which the next pointers visit them. */
  ghost predicate IsCycle(nodes: map<nat, Member>, cycle: seq<nat>) {
    && NoDuplicates(cycle)
    && (forall i :: 0 <= i < |cycle| ==> cycle[i] in nodes)
    && (forall i :: 0 <= i < |cycle| ==> nodes[cycle[i]].next == cycle[Next(i, |cycle|)])
  }

  /** The clique's pointers form one cycle through all its members, the first of them included. */
  ghost predicate CycleOf(comms: seq<Member>, cycle: seq<nat>) {
    && |cycle| == |comms| > 0
    && IsCycle(ByRank(comms), cycle)
    && comms[0].groupRank in cycle
    && ByRank(comms)[comms[0].groupRank] == comms[0]
  }

  /** The ring indices the members report, in cycle order. */
  ghost function Indices(nodes: map<nat, Member>, cycle: seq<nat>): (ix: seq<nat>)
    requires IsCycle(nodes, cycle)
    ensures |ix| == |cycle| && forall i :: 0 <= i < |ix| ==> ix[i] == nodes[cycle[i]].index
  {
    seq(|cycle|, i requires 0 <= i < |cycle| => nodes[cycle[i]].index)
  }

  /** Position `i` places after `at` on a cycle of length `n`. */
  function Wrap(n: nat, at: nat, i: nat): nat {
    if at + i < n then at + i else at + i - n
  }

  /** The cycle read from position `at` on. */
  ghost function Rotate(cycle: seq<nat>, at: nat): (r: seq<nat>)
    requires at < |cycle|
  {
    seq(|cycle|, i requires 0 <= i < |cycle| => cycle[Wrap(|cycle|, at, i)])
  }

  lemma RotateKeepsDistinct(cycle: seq<nat>, at: nat)
    requires NoDuplicates(cycle) && at < |cycle|
    ensures NoDuplicates(Rotate(cycle, at))
  {
    forall i, j | 0 <= i < j < |cycle| ensures Rotate(cycle, at)[i] != Rotate(cycle, at)[j] {
      assert Wrap(|cycle|, at, i) != Wrap(|cycle|, at, j);
    }
  }

  lemma WrapNext(n: nat, at: nat, i: nat)
    requires at < n && i < n
    ensures Wrap(n, at, i) < n && Wrap(n, at, Next(i, n)) == Next(Wrap(n, at, i), n)
  {
  }

  lemma RotateCycle(nodes: map<nat, Member>, cycle: seq<nat>, at: nat)
    requires IsCycle(nodes, cycle) && at < |cycle|
    ensures IsCycle(nodes, Rotate(cycle, at)) && Rotate(cycle, at)[0] == cycle[at]
  {
    var n, rotated := |cycle|, Rotate(cycle, at);
    RotateKeepsDistinct(cycle, at);
    forall i | 0 <= i < n
      ensures rotated[i] in nodes && nodes[rotated[i]].next == rotated[Next(i, n)]
    {
      WrapNext(n, at, i);
      assert rotated[i] == cycle[Wrap(n, at, i)];
    }
  }

  lemma NextNode(nodes: map<nat, Member>, cycle: seq<nat>, i: nat)
    requires IsCycle(nodes, cycle) && i < |cycle|
    ensures nodes[cycle[i]].next in nodes
    ensures nodes[nodes[cycle[i]].next] == nodes[cycle[if i + 1 == |cycle| then 0 else i + 1]]
  {
    assert nodes[cycle[i]].next == cycle[Next(i, |cycle|)];
  }

  /** The next index is one the walk has not seen. */
  lemma VisitNext(indices: seq<nat>, steps: nat, visited: set<nat>)
    requires NoDuplicates(indices) && steps < |indices| && visited == Elements(indices[..steps])
    ensures indices[..steps] + [indices[steps]] == indices[..steps + 1]
    ensures visited + {indices[steps]} == Elements(indices[..steps + 1])
    ensures |visited + {indices[steps]}| == steps + 1
  {
    var seen := indices[..steps + 1];
    assert forall x :: x in seen <==> x in indices[..steps] || x == indices[steps];
    DistinctSize(seen);
  }

  /** The walk of `build_rings` over one clique, started at the first member.  `n` is `len(comms)`. */
  method WalkRing(nodes: map<nat, Member>, first: Member, n: nat, ghost cycle: seq<nat>) returns (ring: seq<nat>, steps: nat)
    requires |cycle| == n > 0 && IsCycle(nodes, cycle) && first == nodes[cycle[0]]
    requires NoDuplicates(Indices(nodes, cycle))
    ensures steps == n
    ensures ring == Indices(nodes, cycle)
  {
    ghost var indices := Indices(nodes, cycle);
    var visited: set<nat> := {};
    var node := first;
    ring, steps := [], 0;
    while |visited| != n
      invariant steps <= n && |visited| == steps
      invariant visited == Elements(indices[..steps]) && ring == indices[..steps]
      invariant node == nodes[cycle[if steps == n then 0 else steps]]
      decreases n - steps
    {
      VisitNext(indices, steps, visited);
      NextNode(nodes, cycle, steps);
      ring := ring + [node.index];
      visited := visited + {node.index};
      node := nodes[node.next];
      steps := steps + 1;
    }
    assert indices[..n] == indices;
  }

  // ----- When the walk stops -----

  /** The position the walk stands on: `steps` places after the first, round and round. */
  ghost function Standing(n: nat, steps: nat): (at: nat)
    requires n > 0
    ensures at < n && (steps < n ==> at == steps)
  {
    if steps == 0 then 0 else Next(Standing(n, steps - 1), n)
  }

  /** The node the walk stands on: `steps` next pointers after the first member of the cycle. */
  ghost function NodeAfter(nodes: map<nat, Member>, cycle: seq<nat>, steps: nat): (node: Member)
    requires |cycle| > 0 && IsCycle(nodes, cycle)
    ensures node == nodes[cycle[Standing(|cycle|, steps)]]
  {
    if steps == 0 then nodes[cycle[0]] else nodes[NodeAfter(nodes, cycle, steps - 1).next]
  }

  /** The indices the walk has visited before step `steps`. */
  ghost function Visited(nodes: map<nat, Member>, cycle: seq<nat>, steps: nat): set<nat>
    requires |cycle| > 0 && IsCycle(nodes, cycle)
  {
    set s: nat | s < steps :: NodeAfter(nodes, cycle, s).index
  }

  lemma VisitedAreIndices(nodes: map<nat, Member>, cycle: seq<nat>, steps: nat, x: nat)
    requires |cycle| > 0 && IsCycle(nodes, cycle) && x in Visited(nodes, cycle, steps)
    ensures x in Indices(nodes, cycle)
  {
    var s: nat :| s < steps && x == NodeAfter(nodes, cycle, s).index;
    assert x == Indices(nodes, cycle)[Standing(|cycle|, s)];
  }

  lemma FewerThanListed(s: set<nat>, all: seq<nat>)
    requires !NoDuplicates(all) && forall x :: x in s ==> x in all
    ensures |s| < |all|
  {
    var a, b :| 0 <= a < b < |all| && all[a] == all[b];
    DropRepeated(all, a, b);
    CoveredSize(s, all[..b] + all[b + 1..]);
  }

  /** If two members share an index, then however long the walk runs, it never sees as many indices as
      there are members. */
  lemma SharedIndexNeverStops(nodes: map<nat, Member>, cycle: seq<nat>, steps: nat)
    requires |cycle| > 0 && IsCycle(nodes, cycle) && !NoDuplicates(Indices(nodes, cycle))
    ensures |Visited(nodes, cycle, steps)| < |cycle|
  {
    forall x | x in Visited(nodes, cycle, steps) ensures x in Indices(nodes, cycle) {
      VisitedAreIndices(nodes, cycle, steps, x);
    }
    FewerThanListed(Visited(nodes, cycle, steps), Indices(nodes, cycle));
  }

  lemma VisitedOnce(nodes: map<nat, Member>, cycle: seq<nat>)
    requires |cycle| > 0 && IsCycle(nodes, cycle) && NoDuplicates(Indices(nodes, cycle))
    ensures |Visited(nodes, cycle, |cycle|)| == |cycle|
  {
    var all, seen := Indices(nodes, cycle), Visited(nodes, cycle, |cycle|);
    forall x | x in seen ensures x in Elements(all) {
      VisitedAreIndices(nodes, cycle, |cycle|, x);
    }
    forall x | x in Elements(all) ensures x in seen {
      var i: nat :| i < |cycle| && all[i] == x;
      assert x == NodeAfter(nodes, cycle, i).index;
    }
    assert seen == Elements(all);
    DistinctSize(all);
  }

  /** The walk along the pointers of a cycle comes to see as many indices as there are members, and so
      stops, exactly when no two members share an index. */
  lemma WalkStopsIff(nodes: map<nat, Member>, cycle: seq<nat>)
    requires |cycle| > 0 && IsCycle(nodes, cycle)
    ensures (exists steps: nat :: |Visited(nodes, cycle, steps)| == |cycle|) <==> NoDuplicates(Indices(nodes, cycle))
  {
    if NoDuplicates(Indices(nodes, cycle)) {
      VisitedOnce(nodes, cycle);
    } else {
      forall steps: nat ensures |Visited(nodes, cycle, steps)| != |cycle| {
        SharedIndexNeverStops(nodes, cycle, steps);
      }
    }
  }

  lemma DropRepeated(s: seq<nat>, a: nat, b: nat)
    requires a < b < |s| && s[a] == s[b]
    ensures forall x :: x in s ==> x in s[..b] + s[b + 1..]
  {
    forall x | x in s ensures x in s[..b] + s[b + 1..] {
      var k :| 0 <= k < |s| && s[k] == x;
      assert x == (s[..b] + s[b + 1..])[if k < b then k else if k == b then a else k - 1];
    }
  }

  lemma {:induction false} CoveredSize(s: set<nat>, cover: seq<nat>)
    requires forall x :: x in s ==> x in cover
    ensures |s| <= |cover|
  {
    if s != {} {
      var x :| x in s;
      var i :| 0 <= i < |cover| && cover[i] == x;
      var rest := cover[..i] + cover[i + 1..];
      forall y | y in s - {x} ensures y in rest {
        var j :| 0 <= j < |cover| && cover[j] == y;
        assert y == rest[if j < i then j else j - 1];
      }
      CoveredSize(s - {x}, rest);
    }
  }

  /** For any clique whose next pointers form one cycle and whose ring indices are the group ranks,
      the walk stops after exactly one round trip and returns that cycle, first member first. */
  method BuildRing(comms: seq<Member>) returns (ring: seq<nat>)
    requires Walkable(comms)
    ensures Walked(comms, ring)
  {
    ghost var cycle := CycleFromFirst(comms);
    var nodes := ByRank(comms);
    IndicesAreRanks(nodes, cycle);
    var steps;
    ring, steps := WalkRing(nodes, comms[0], |comms|, cycle);
  }

  /** The clique's pointers form one cycle, and its ring indices are the group ranks. */
  ghost predicate Walkable(comms: seq<Member>) {
    && (exists cycle :: CycleOf(comms, cycle))
    && forall r :: r in ByRank(comms) ==> ByRank(comms)[r].index == r
  }

  lemma RotatedToFirst(comms: seq<Member>, cycle: seq<nat>, at: nat)
    requires CycleOf(comms, cycle) && at < |cycle| && cycle[at] == comms[0].groupRank
    ensures CycleOf(comms, Rotate(cycle, at)) && Rotate(cycle, at)[0] == comms[0].groupRank
  {
    RotateCycle(ByRank(comms), cycle, at);
    assert Rotate(cycle, at)[0] in Rotate(cycle, at);
  }

  ghost function CycleFromFirst(comms: seq<Member>): (cycle: seq<nat>)
    requires exists cycle :: CycleOf(comms, cycle)
    ensures CycleOf(comms, cycle) && cycle[0] == comms[0].groupRank
  {
    var cycle :| CycleOf(comms, cycle);
    var at :| 0 <= at < |cycle| && cycle[at] == comms[0].groupRank;
    RotatedToFirst(comms, cycle, at);
    Rotate(cycle, at)
  }

  lemma IndicesAreRanks(nodes: map<nat, Member>, cycle: seq<nat>)
    requires IsCycle(nodes, cycle) && forall r :: r in nodes ==> nodes[r].index == r
    ensures Indices(nodes, cycle) == cycle
  {
  }

  /** The rings without those whose ranks an earlier ring already has.  Two sorted tuples are equal
      exactly when the multisets are. */
  function Unique(rings: seq<seq<nat>>): seq<seq<nat>> {
    if rings == [] then []
    else
      var before, r := rings[..|rings| - 1], rings[|rings| - 1];
      if HasRanks(before, multiset(r)) then Unique(before) else Unique(before) + [r]
  }

  predicate HasRanks(rings: seq<seq<nat>>, ranks: multiset<nat>) {
    exists j :: 0 <= j < |rings| && multiset(rings[j]) == ranks
  }

  /** No ranks are lost, no two rings that are kept have the same ranks, and each is one that was walked. */
  lemma {:induction false} UniqueKeepsEachOnce(rings: seq<seq<nat>>, ranks: multiset<nat>)
    ensures HasRanks(Unique(rings), ranks) <==> HasRanks(rings, ranks)
    ensures forall i, j :: 0 <= i < j < |Unique(rings)| ==> multiset(Unique(rings)[i]) != multiset(Unique(rings)[j])
    ensures forall r :: r in Unique(rings) ==> r in rings
  {
    if rings != [] {
      var n := |rings| - 1;
      var before, r, kept := rings[..n], rings[n], Unique(rings[..n]);
      UniqueKeepsEachOnce(before, ranks);
      UniqueKeepsEachOnce(before, multiset(r));
      assert HasRanks(rings, ranks) <==> HasRanks(before, ranks) || multiset(r) == ranks;
      if !HasRanks(before, multiset(r)) {
        assert HasRanks(kept + [r], ranks) <==> HasRanks(kept, ranks) || multiset(r) == ranks by {
          if HasRanks(kept, ranks) {
            var j :| 0 <= j < |kept| && multiset(kept[j]) == ranks;
            assert (kept + [r])[j] == kept[j];
          }
          assert (kept + [r])[|kept|] == r;
        }
      }
    }
  }

  ghost predicate WalkedAll(cliques: seq<seq<Member>>, rings: seq<seq<nat>>) {
    |rings| == |cliques| && forall j :: 0 <= j < |rings| ==> Walked(cliques[j], rings[j])
  }

  ghost predicate Walked(comms: seq<Member>, ring: seq<nat>) {
    CycleOf(comms, ring) && ring[0] == comms[0].groupRank
  }

  method WalkRings(cliques: seq<seq<Member>>) returns (rings: seq<seq<nat>>)
    requires forall j :: 0 <= j < |cliques| ==> Walkable(cliques[j])
    ensures WalkedAll(cliques, rings)
  {
    rings := [];
    for j := 0 to |cliques|
      invariant |rings| == j
      invariant forall i :: 0 <= i < j ==> Walked(cliques[i], rings[i])
    {
      var ring := BuildRing(cliques[j]);
      rings := rings + [ring];
    }
  }

  method DropDuplicates(walked: seq<seq<nat>>) returns (rings: seq<seq<nat>>)
    ensures rings == Unique(walked)
  {
    rings := [];
    var keys: set<multiset<nat>> := {};
    for j := 0 to |walked|
      invariant rings == Unique(walked[..j])
      invariant forall key :: key in keys <==> HasRanks(walked[..j], key)
    {
      assert walked[..j + 1][..j] == walked[..j];
      var key := multiset(walked[j]);
      if key !in keys {
        keys := keys + {key};
        rings := rings + [walked[j]];
      }
      forall k ensures HasRanks(walked[..j + 1], k) <==> HasRanks(walked[..j], k) || k == key {
        HasRanksStep(walked, j, k);
      }
    }
    assert walked[..|walked|] == walked;
  }

  lemma HasRanksStep(rings: seq<seq<nat>>, j: nat, ranks: multiset<nat>)
    requires j < |rings|
    ensures HasRanks(rings[..j + 1], ranks) <==> HasRanks(rings[..j], ranks) || ranks == multiset(rings[j])
  {
    if HasRanks(rings[..j], ranks) {
      var i :| 0 <= i < j && multiset(rings[..j][i]) == ranks;
      assert rings[..j + 1][i] == rings[..j][i];
    }
    if HasRanks(rings[..j + 1], ranks) {
      var i :| 0 <= i < j + 1 && multiset(rings[..j + 1][i]) == ranks;
      assert i < j ==> rings[..j][i] == rings[..j + 1][i];
    }
    assert rings[..j + 1][j] == rings[j];
  }

  /** `build_rings` over all cliques; `walked` are the rings before the duplicates are dropped. */
  method BuildRings(cliques: seq<seq<Member>>) returns (rings: seq<seq<nat>>, ghost walked: seq<seq<nat>>)
    requires forall j :: 0 <= j < |cliques| ==> Walkable(cliques[j])
    ensures WalkedAll(cliques, walked) && rings == Unique(walked)
  {
    var all := WalkRings(cliques);
    rings := DropDuplicates(all);
    walked := all;
  }

  ghost predicate RanksDiffer(rings: seq<seq<nat>>) {
    forall i, j :: 0 <= i < j < |rings| ==> multiset(rings[i]) != multiset(rings[j])
  }

  /** No ring at all is dropped exactly when no two of them have the same ranks. */
  lemma {:induction false} NothingDroppedIff(rings: seq<seq<nat>>)
    ensures Unique(rings) == rings <==> RanksDiffer(rings)
  {
    if Unique(rings) == rings {
      UniqueKeepsEachOnce(rings, multiset{});
    }
    if RanksDiffer(rings) && rings != [] {
      var before, r := rings[..|rings| - 1], rings[|rings| - 1];
      NothingDroppedIff(before);
      assert !HasRanks(before, multiset(r));
      assert before + [r] == rings;
    }
  }

  /** Group ranks of different cliques would not be told apart: of all cliques with the same group ranks,
      equal in size then, exactly one ring is kept.  The callers walk one clique at a time. */
  lemma OneRingPerRanks(cliques: seq<seq<Member>>, walked: seq<seq<nat>>, j: nat) returns (k: nat)
    requires WalkedAll(cliques, walked) && j < |walked|
    ensures k < |Unique(walked)| && multiset(Unique(walked)[k]) == multiset(walked[j])
    ensures forall i :: 0 <= i < |Unique(walked)| && multiset(Unique(walked)[i]) == multiset(walked[j]) ==> i == k
  {
    UniqueKeepsEachOnce(walked, multiset(walked[j]));
    k :| 0 <= k < |Unique(walked)| && multiset(Unique(walked)[k]) == multiset(walked[j]);
  }

  /** The pointer of member `r` is the link at the position of `r`. */
  lemma PositionOfPointer(comms: seq<Member>, ring: seq<nat>, r: nat) returns (i: nat)
    requires CycleOf(comms, ring) && |comms| >= 2 && r in ring
    ensures i < |ring| && NoDuplicates(ring) && r in ByRank(comms) && LinkAt(ring, i) == (r, ByRank(comms)[r].next)
  {
    i :| 0 <= i < |ring| && ring[i] == r;
  }

  lemma {:induction false} RanksOfMembers(comms: seq<Member>, r: nat)
    ensures r in ByRank(comms) <==> exists i :: 0 <= i < |comms| && comms[i].groupRank == r
    ensures r in ByRank(comms) ==> ByRank(comms)[r] in comms && ByRank(comms)[r].groupRank == r
  {
    if comms != [] {
      var n := |comms| - 1;
      RanksOfMembers(comms[..n], r);
      assert comms == comms[..n] + [comms[n]];
    }
  }

  ghost function Ranks(comms: seq<Member>): (rs: seq<nat>)
    ensures |rs| == |comms| && forall i :: 0 <= i < |rs| ==> rs[i] == comms[i].groupRank
  {
    seq(|comms|, i requires 0 <= i < |comms| => comms[i].groupRank)
  }

  /** The ring has every group rank once, so no two members share one. */
  lemma RingHasAllRanks(comms: seq<Member>, ring: seq<nat>)
    requires CycleOf(comms, ring)
    ensures Elements(ring) == Elements(Ranks(comms)) && NoDuplicates(Ranks(comms))
  {
    var rs := Ranks(comms);
    forall r | r in Elements(ring) ensures r in Elements(rs) {
      RanksOfMembers(comms, r);
      var i :| 0 <= i < |comms| && comms[i].groupRank == r;
      assert rs[i] == r;
    }
    DistinctSize(ring);
    if !NoDuplicates(rs) {
      FewerThanListed(Elements(ring), rs);
    }
    DistinctSize(rs);
    FullSubset(Elements(ring), Elements(rs));
  }

  /** In the ring every member is followed by the rank its next pointer names. */
  lemma RingFollowsPointers(comms: seq<Member>, ring: seq<nat>, i: nat) returns (k: nat)
    requires CycleOf(comms, ring) && i < |comms|
    ensures k < |ring| && ring[k] == comms[i].groupRank
    ensures ring[if k + 1 == |ring| then 0 else k + 1] == comms[i].next
  {
    var r := comms[i].groupRank;
    RingHasAllRanks(comms, ring);
    assert Ranks(comms)[i] == r && r in Elements(ring);
    k :| 0 <= k < |ring| && ring[k] == r;
    RanksOfMembers(comms, r);
    var j :| 0 <= j < |comms| && comms[j] == ByRank(comms)[r];
    assert Ranks(comms)[j] == r;
    assert ByRank(comms)[ring[k]].next == ring[Next(k, |ring|)];
  }

  /** The walk and the decomposition together: for a clique of at least two members, the rounds hold
      the transfer from rank `r` to the rank it points to, and hold it once. */
  lemma RingRoundsMeasureEachPointerOnce(comms: seq<Member>, ring: seq<nat>, r: nat) returns (k: nat, t: nat)
    requires CycleOf(comms, ring) && |comms| >= 2 && r in ring
    ensures k < |SplitRing(ring)| && Transfers(SplitRing(ring)[k], t, (r, ByRank(comms)[r].next))
    ensures forall k': nat, t': nat ::
              k' < |SplitRing(ring)| && Transfers(SplitRing(ring)[k'], t', (r, ByRank(comms)[r].next)) ==> k' == k && t' == t
  {
    var i := PositionOfPointer(comms, ring, r);
    k, t := Slot(|ring|, i).0, Slot(|ring|, i).1;
    SplitShape(ring, 0);
    SlotInRange(|ring|, i);
    var link := LinkAt(ring, i);
    SplitMeasuresEachLinkOnce(ring, i, k, t);
    forall k': nat, t': nat | k' < |SplitRing(ring)| && Transfers(SplitRing(ring)[k'], t', link)
      ensures k' == k && t' == t
    {
      SplitMeasuresEachLinkOnce(ring, i, k', t');
    }
  }
}
