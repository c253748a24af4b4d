/** The decomposition of a rank ring into validation rounds.

    A ring r0 -> r1 -> ... -> r0 is measured link by link.  A rank takes part in at most
    one transfer at a time, so the links are spread over rounds, each of which must be a
    matching.  This module gives the decomposition, shows that it measures every link of
    the ring exactly once, and shows that no schedule uses fewer rounds. */
module TaskSplit {

  datatype Round = Round(senders: seq<nat>, recvers: seq<nat>)

  type Link = (nat, nat)

  ghost predicate NoDuplicates<T>(s: seq<T>) {
    forall i, j :: 0 <= i < j < |s| ==> s[i] != s[j]
  }

  /** The extended slice `s[lo:hi:2]`. */
  function Stride<T>(s: seq<T>, lo: nat, hi: nat): seq<T>
    requires hi <= |s|
  {
    var count := if lo < hi then (hi - lo + 1) / 2 else 0;
    seq(count, i requires 0 <= i < count => s[lo + 2 * i])
  }

  /** `split_ring`.  The first and last element are indexed, so the ring must not be empty. */
  function SplitRing(ring: seq<nat>): seq<Round>
    requires |ring| >= 1
  {
    var n := |ring|;
    if n == 2 then
      [Round([ring[0]], [ring[1]]), Round([ring[1]], [ring[0]])]
    else if n % 2 == 0 then
      [Round(Stride(ring, 0, n), Stride(ring, 1, n)),
       Round(Stride(ring, 1, n), Stride(ring, 2, n - 1) + [ring[0]])]
    else
      [Round(Stride(ring, 0, n - 1), Stride(ring, 1, n)),
       Round(Stride(ring, 1, n), Stride(ring, 2, n)),
       Round([ring[n - 1]], [ring[0]])]
  }

  /** A round can run at once: senders and receivers pair up and no rank occurs twice. */
  ghost predicate Matching(r: Round) {
    && |r.senders| == |r.recvers|
    && NoDuplicates(r.senders + r.recvers)
  }

  /** Transfer `t` of round `r` (they are paired with `zip`) goes over `link`. */
  ghost predicate Transfers(r: Round, t: nat, link: Link) {
    t < |r.senders| && t < |r.recvers| && link == (r.senders[t], r.recvers[t])
  }

  /** Round `r` measures `link`. */
  ghost predicate Measures(r: Round, link: Link) {
    exists t: nat :: Transfers(r, t, link)
  }

  function Next(i: nat, n: nat): nat {
    if i + 1 == n then 0 else i + 1
  }

  /** The link that leaves position `i` of the ring. */
  function LinkAt(ring: seq<nat>, i: nat): Link
    requires i < |ring|
  {
    (ring[i], ring[Next(i, |ring|)])
  }

  // ----- What each round holds -----

  /** Transfer `t` of round `k` leaves this position of the ring. */
  function Position(n: nat, k: nat, t: nat): int {
    if k == 2 then n - 1 else 2 * t + k
  }

  /** Number of transfers in round `k`. */
  function Width(n: nat, k: nat): nat {
    if k == 2 then 1 else n / 2
  }

  function NumRounds(n: nat): nat {
    if n % 2 == 0 then 2 else 3
  }

  lemma SplitShape(ring: seq<nat>, k: nat)
    requires |ring| >= 1 && k < NumRounds(|ring|)
    ensures |SplitRing(ring)| == NumRounds(|ring|)
    ensures var r := SplitRing(ring)[k]; |r.senders| == |r.recvers| == Width(|ring|, k)
  {
  }

  lemma SplitTransfer(ring: seq<nat>, k: nat, t: nat)
    requires |ring| >= 1 && k < NumRounds(|ring|) && t < Width(|ring|, k)
    ensures |SplitRing(ring)| == NumRounds(|ring|)
    ensures 0 <= Position(|ring|, k, t) < |ring|
    ensures Transfers(SplitRing(ring)[k], t, LinkAt(ring, Position(|ring|, k, t)))
  {
    SplitShape(ring, k);
  }

  // ----- Each round is a matching -----

  /** Where entry `i` of `senders + recvers` of round `k` sits on the ring. */
  function EntryPosition(n: nat, k: nat, i: nat): int {
    var w := Width(n, k);
    if i < w then Position(n, k, i)
    else if k == 2 || Position(n, k, i - w) + 1 == n then 0
    else Position(n, k, i - w) + 1
  }

  lemma EntryPositionsDiffer(n: nat, k: nat, i: nat, j: nat)
    requires n >= 2 && k < NumRounds(n) && i < j < 2 * Width(n, k)
    ensures EntryPosition(n, k, i) != EntryPosition(n, k, j)
  {
  }

  lemma SplitEntry(ring: seq<nat>, k: nat, i: nat)
    requires |ring| >= 1 && k < NumRounds(|ring|) && i < 2 * Width(|ring|, k)
    ensures |SplitRing(ring)| == NumRounds(|ring|)
    ensures 0 <= EntryPosition(|ring|, k, i) < |ring|
    ensures var r := SplitRing(ring)[k];
            && |r.senders| == |r.recvers| == Width(|ring|, k)
            && (r.senders + r.recvers)[i] == ring[EntryPosition(|ring|, k, i)]
  {
    SplitShape(ring, k);
    var w := Width(|ring|, k);
    SplitTransfer(ring, k, if i < w then i else i - w);
  }

  /** Every round of the decomposition names each rank at most once. */
  lemma SplitRoundsAreMatchings(ring: seq<nat>, k: nat)
    requires |ring| >= 2 && NoDuplicates(ring) && k < NumRounds(|ring|)
    ensures |SplitRing(ring)| == NumRounds(|ring|)
    ensures Matching(SplitRing(ring)[k])
  {
    SplitShape(ring, k);
    var both := SplitRing(ring)[k].senders + SplitRing(ring)[k].recvers;
    forall i, j | 0 <= i < j < |both| ensures both[i] != both[j] {
      SplitEntry(ring, k, i);
      SplitEntry(ring, k, j);
      EntryPositionsDiffer(|ring|, k, i, j);
    }
  }

  // ----- Every link exactly once -----

  /** The round and the transfer that measure the link leaving position `i`. */
  function Slot(n: nat, i: nat): (nat, nat) {
    if n % 2 == 1 && i == n - 1 then (2, 0) else (i % 2, i / 2)
  }

  lemma SlotInverse(n: nat, k: nat, t: nat)
    requires n >= 2 && k < NumRounds(n) && t < Width(n, k)
    ensures 0 <= Position(n, k, t) < n && Slot(n, Position(n, k, t)) == (k, t)
  {
  }

  lemma SlotInRange(n: nat, i: nat)
    requires n >= 2 && i < n
    ensures var (k, t) := Slot(n, i); k < NumRounds(n) && t < Width(n, k) && Position(n, k, t) == i
  {
  }

  /** Transfer (k, t) goes over the link leaving position `i` exactly when (k, t) is the slot of
      that link.  So each link of the ring is measured once, and nothing else is measured. */
  lemma SplitMeasuresEachLinkOnce(ring: seq<nat>, i: nat, k: nat, t: nat)
    requires |ring| >= 2 && NoDuplicates(ring) && i < |ring|
    requires k < |SplitRing(ring)|
    ensures Transfers(SplitRing(ring)[k], t, LinkAt(ring, i)) <==> (k, t) == Slot(|ring|, i)
  {
    var n := |ring|;
    SplitShape(ring, k);
    SlotInRange(n, i);
    if (k, t) == Slot(n, i) {
      SplitTransfer(ring, k, t);
    }
    if Transfers(SplitRing(ring)[k], t, LinkAt(ring, i)) {
      SplitTransfer(ring, k, t);
      SlotInverse(n, k, t);
    }
  }

  // ----- No schedule is shorter -----

  /** A schedule measures the whole ring: every link occurs in some round. */
  ghost predicate Covers(schedule: seq<Round>, ring: seq<nat>) {
    forall i :: 0 <= i < |ring| ==> CoveredBy(schedule, LinkAt(ring, i))
  }

  ghost predicate CoveredBy(schedule: seq<Round>, link: Link) {
    exists k :: 0 <= k < |schedule| && Measures(schedule[k], link)
  }

  ghost predicate Runnable(schedule: seq<Round>) {
    forall k :: 0 <= k < |schedule| ==> Matching(schedule[k])
  }

  lemma SenderNeverReceives(r: Round, a: nat, b: nat)
    requires Matching(r) && a < |r.recvers| && b < |r.senders|
    ensures r.recvers[a] != r.senders[b]
  {
    var both := r.senders + r.recvers;
    assert both[b] == r.senders[b] && both[|r.senders| + a] == r.recvers[a];
  }

  /** Two neighbouring links share a rank, so no matching holds both. */
  lemma NeighboursClash(r: Round, ring: seq<nat>, i: nat)
    requires |ring| >= 2 && NoDuplicates(ring) && i < |ring|
    requires Matching(r)
    requires Measures(r, LinkAt(ring, i))
    ensures !Measures(r, LinkAt(ring, Next(i, |ring|)))
  {
    var j := Next(i, |ring|);
    var a: nat :| Transfers(r, a, LinkAt(ring, i));
    forall b: nat | b < |r.senders| ensures !Transfers(r, b, LinkAt(ring, j)) {
      SenderNeverReceives(r, a, b);
    }
  }

  lemma {:induction false} TwoRoundsAlternate(schedule: seq<Round>, ring: seq<nat>, a: nat, i: nat)
    requires |ring| >= 2 && NoDuplicates(ring) && i < |ring|
    requires |schedule| == 2 && a < 2 && Runnable(schedule) && Covers(schedule, ring)
    requires Measures(schedule[a], LinkAt(ring, 0))
    ensures Measures(schedule[(a + i) % 2], LinkAt(ring, i))
  {
    if i > 0 {
      TwoRoundsAlternate(schedule, ring, a, i - 1);
      NeighboursClash(schedule[(a + i - 1) % 2], ring, i - 1);
      assert CoveredBy(schedule, LinkAt(ring, i));
    }
  }

  /** The first two links of a ring cannot be measured in one round. */
  lemma NeedsTwoRounds(schedule: seq<Round>, ring: seq<nat>) returns (k: nat)
    requires |ring| >= 2 && NoDuplicates(ring) && Runnable(schedule) && Covers(schedule, ring)
    ensures k < |schedule| && Measures(schedule[k], LinkAt(ring, 0)) && |schedule| >= 2
  {
    assert CoveredBy(schedule, LinkAt(ring, 0)) && CoveredBy(schedule, LinkAt(ring, 1));
    k :| 0 <= k < |schedule| && Measures(schedule[k], LinkAt(ring, 0));
    var k' :| 0 <= k' < |schedule| && Measures(schedule[k'], LinkAt(ring, 1));
    NeighboursClash(schedule[k], ring, 0);
    assert k != k';
  }

  /** Going round an odd ring in two rounds would measure the last and the first link together. */
  lemma OddRingNeedsThree(schedule: seq<Round>, ring: seq<nat>)
    requires |ring| >= 2 && |ring| % 2 == 1 && NoDuplicates(ring) && Runnable(schedule) && Covers(schedule, ring)
    ensures |schedule| >= 3
  {
    var n := |ring|;
    var k := NeedsTwoRounds(schedule, ring);
    if |schedule| == 2 {
      TwoRoundsAlternate(schedule, ring, k, n - 1);
      NeighboursClash(schedule[k], ring, n - 1);
    }
  }

  /** Any runnable schedule that measures the whole ring has at least as many rounds as `SplitRing`. */
  lemma SplitIsMinimal(schedule: seq<Round>, ring: seq<nat>)
    requires |ring| >= 2 && NoDuplicates(ring)
    requires Runnable(schedule) && Covers(schedule, ring)
    ensures |SplitRing(ring)| <= |schedule|
  {
    var _ := NeedsTwoRounds(schedule, ring);
    if |ring| % 2 == 1 {
      OddRingNeedsThree(schedule, ring);
    }
    SplitShape(ring, 0);
  }

  /** The decomposition itself is such a schedule, so the bound is attained. */
  lemma SplitIsRunnableCover(ring: seq<nat>)
    requires |ring| >= 2 && NoDuplicates(ring)
    ensures Runnable(SplitRing(ring)) && Covers(SplitRing(ring), ring)
  {
    var n, rounds := |ring|, SplitRing(ring);
    SplitShape(ring, 0);
    forall k | 0 <= k < |rounds| ensures Matching(rounds[k]) {
      SplitRoundsAreMatchings(ring, k);
    }
    forall i | 0 <= i < n ensures CoveredBy(rounds, LinkAt(ring, i)) {
      var (k, t) := Slot(n, i);
      SlotInRange(n, i);
      SplitMeasuresEachLinkOnce(ring, i, k, t);
      assert Measures(rounds[k], LinkAt(ring, i));
    }
  }
}
