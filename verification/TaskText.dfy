/** The text in which validation tasks travel through the key-value store: the keys, the text the
    controller writes, the worker's decision to take a task, and the worker's parser. */
module TaskText {
  import opened Wrappers

  const TASK_ACKED: string := "TASK_ACKED"
  const COMPUTATION_TEST: string := "ComputationTest"
  const ROLE_SENDER: nat := 0
  const ROLE_RECVER: nat := 1
  const INT_MAX: nat := 0x7FFF_FFFF
  const ULONG_MAX: nat := 0xFFFF_FFFF_FFFF_FFFF

  // ----- Decimal numerals -----

  predicate IsDigit(c: char) {
    '0' <= c <= '9'
  }

  function DigitChar(d: nat): (c: char)
    requires d < 10
    ensures IsDigit(c) && c as int - '0' as int == d
  {
    ('0' as int + d) as char
  }

  function Decimal(n: nat): (s: string)
    ensures |s| >= 1 && forall i :: 0 <= i < |s| ==> IsDigit(s[i])
    ensures |s| == 1 <==> n < 10
  {
    if n < 10 then [DigitChar(n)] else Decimal(n / 10) + [DigitChar(n % 10)]
  }

  /** Length of the longest prefix of decimal digits. */
  function DigitPrefix(s: string): (k: nat)
    ensures k <= |s| && forall i :: 0 <= i < k ==> IsDigit(s[i])
    ensures k < |s| ==> !IsDigit(s[k])
  {
    if s == "" || !IsDigit(s[0]) then 0 else 1 + DigitPrefix(s[1..])
  }

  function NumeralValue(s: string): nat
    requires forall i :: 0 <= i < |s| ==> IsDigit(s[i])
  {
    if s == "" then 0
    else
      assert IsDigit(s[|s| - 1]);
      10 * NumeralValue(s[..|s| - 1]) + (s[|s| - 1] as int - '0' as int)
  }

  lemma {:induction false} NumeralRoundTrip(n: nat)
    ensures NumeralValue(Decimal(n)) == n
  {
    if n >= 10 {
      NumeralRoundTrip(n / 10);
      assert Decimal(n)[..|Decimal(n)| - 1] == Decimal(n / 10);
    } else {
      assert Decimal(n)[..0] == "";
    }
  }

  /** `std::stoi` and `std::stoul` on unsigned text: the leading digits, no digits and overflow throw. */
  function ParseNumber(s: string, max: nat): Option<nat> {
    var k := DigitPrefix(s);
    if k == 0 || NumeralValue(s[..k]) > max then None else Some(NumeralValue(s[..k]))
  }

  lemma ParseDecimal(n: nat, max: nat)
    ensures ParseNumber(Decimal(n), max) == if n <= max then Some(n) else None
  {
    NumeralRoundTrip(n);
    assert Decimal(n)[..|Decimal(n)|] == Decimal(n);
  }

  // ----- Keys -----

  function TaskKey(rank: nat): string {
    "validtask_rank_" + Decimal(rank)
  }

  function ResultKey(rank: nat): string {
    TaskKey(rank) + "_result"
  }

  /** Different ranks use different keys, and no task key is a result key, so tasks and results
      can be kept as two maps indexed by rank. */
  lemma KeysNeverCollide(r: nat, q: nat)
    ensures TaskKey(r) == TaskKey(q) <==> r == q
    ensures ResultKey(r) == ResultKey(q) <==> r == q
    ensures TaskKey(r) != ResultKey(q)
  {
    NumeralRoundTrip(r);
    NumeralRoundTrip(q);
    var prefix := |"validtask_rank_"|;
    assert TaskKey(r)[prefix..] == Decimal(r) && TaskKey(q)[prefix..] == Decimal(q);
    assert ResultKey(r)[..|TaskKey(r)|] == TaskKey(r) && ResultKey(q)[..|TaskKey(q)|] == TaskKey(q);
    assert IsDigit(TaskKey(r)[|TaskKey(r)| - 1]);
    assert ResultKey(q)[|ResultKey(q)| - 1] == 't';
  }

  // ----- Task text -----

  /** What the controller writes for one end of a transfer. */
  function CommText(role: nat, peer: nat, addr: nat): string {
    Decimal(role) + "_" + Decimal(peer) + "_" + Decimal(addr)
  }

  /** The worker takes a task unless its text is short or is the acknowledgement itself. */
  predicate Takes(text: string) {
    |text| > 5 && !(|text| >= 10 && text == TASK_ACKED)
  }

  /** `std::getline` with '_': the next segment and what is left of the stream, if anything.  At the end
      of the stream it leaves the previous segment in place. */
  function GetLine(rest: Option<string>, previous: string): (string, Option<string>) {
    match rest
    case None => (previous, None)
    case Some(s) =>
      var k := UntilBar(s);
      (s[..k], if k < |s| then Some(s[k + 1..]) else None)
  }

  function UntilBar(s: string): (k: nat)
    ensures k <= |s| && (forall i :: 0 <= i < k ==> s[i] != '_') && (k < |s| ==> s[k] == '_')
  {
    if s == "" || s[0] == '_' then 0 else 1 + UntilBar(s[1..])
  }

  /** The three segments `parse_task` reads. */
  function Segments(text: string): (string, string, string) {
    var (s1, r1) := GetLine(Some(text), "");
    var (s2, r2) := GetLine(r1, s1);
    var (s3, _) := GetLine(r2, s2);
    (s1, s2, s3)
  }

  /** `parse_task`; `None` when a conversion throws. */
  function ParseTask(text: string): Option<(nat, nat, nat)> {
    var (s1, s2, s3) := Segments(text);
    var role := ParseNumber(s1, INT_MAX);
    var peer := ParseNumber(s2, INT_MAX);
    var addr := ParseNumber(s3, ULONG_MAX);
    if role.None? || peer.None? || addr.None? then None
    else Some((role.value, peer.value, addr.value))
  }

  lemma GetLineNumeral(n: nat, tail: string, previous: string)
    ensures GetLine(Some(Decimal(n) + "_" + tail), previous) == (Decimal(n), Some(tail))
    ensures GetLine(Some(Decimal(n)), previous) == (Decimal(n), None)
  {
    var s := Decimal(n) + "_" + tail;
    assert s[|Decimal(n)|] == '_';
    var k := UntilBar(s);
    assert k == |Decimal(n)| by {
      assert forall i :: 0 <= i < |Decimal(n)| ==> s[i] == Decimal(n)[i];
    }
    assert s[..k] == Decimal(n) && s[k + 1..] == tail;
    assert Decimal(n)[..|Decimal(n)|] == Decimal(n);
  }

  lemma CommTextFromFront(a: string, b: string, c: string)
    ensures a + "_" + b + "_" + c == a + "_" + (b + "_" + c)
  {
  }

  lemma CommSegments(role: nat, peer: nat, addr: nat)
    ensures Segments(CommText(role, peer, addr)) == (Decimal(role), Decimal(peer), Decimal(addr))
  {
    var a, b, c := Decimal(role), Decimal(peer), Decimal(addr);
    CommTextFromFront(a, b, c);
    assert GetLine(Some(a + "_" + (b + "_" + c)), "") == (a, Some(b + "_" + c)) by { GetLineNumeral(role, b + "_" + c, ""); }
    assert GetLine(Some(b + "_" + c), a) == (b, Some(c)) by { GetLineNumeral(peer, c, a); }
    assert GetLine(Some(c), b) == (c, None) by { GetLineNumeral(addr, "", b); }
  }

  /** The worker reads back exactly the role, peer and communicator the controller wrote. */
  lemma TaskRoundTrip(role: nat, peer: nat, addr: nat)
    requires role <= INT_MAX && peer <= INT_MAX && addr <= ULONG_MAX
    ensures ParseTask(CommText(role, peer, addr)) == Some((role, peer, addr))
  {
    CommSegments(role, peer, addr);
    ParseDecimal(role, INT_MAX);
    ParseDecimal(peer, INT_MAX);
    ParseDecimal(addr, ULONG_MAX);
  }

  /** A transfer task is taken exactly when its text is longer than five characters: when the peer or
      the communicator address has a second digit. */
  lemma TakesCommText(role: nat, peer: nat, addr: nat)
    requires role == ROLE_SENDER || role == ROLE_RECVER
    ensures Takes(CommText(role, peer, addr)) <==> peer >= 10 || addr >= 10
    ensures CommText(role, peer, addr) != COMPUTATION_TEST
    ensures Takes(COMPUTATION_TEST)
  {
    var text := CommText(role, peer, addr);
    assert |text| == 3 + |Decimal(peer)| + |Decimal(addr)|;
    assert IsDigit(text[0]) && !IsDigit(TASK_ACKED[0]) && !IsDigit(COMPUTATION_TEST[0]);
  }
}
