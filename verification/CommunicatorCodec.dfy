/** The byte format in which communicators travel through the key-value store.

    The training process writes the memory image of its structures, padding included; the controller
    (and the training process itself) read it back.  Integers are little-endian; `int` has four bytes,
    pointers and `uint64_t` have eight. */
module CommunicatorCodec {
  import opened Wrappers

  type Byte = b: int | 0 <= b < 0x100
  type UInt64 = x: int | 0 <= x < 0x1_0000_0000_0000_0000
  type Int32 = x: int | -0x8000_0000 <= x < 0x8000_0000

  const MAXCHANNELS: nat := 32
  const TREE_ARITY: nat := 3
  const HEADER_SIZE: nat := 56
  const RING_SIZE: nat := 24
  const TREE_SIZE: nat := 20
  const TOTAL_SIZE: nat := 1464

  datatype RingNode = RingNode(prev: Int32, next: Int32, userRanks: UInt64, index: Int32)
  datatype TreeNode = TreeNode(depth: Int32, up: Int32, down: seq<Int32>)

  datatype Header = Header(idHash: UInt64, numChannels: UInt64, lastRingId: UInt64, lastTreeId: UInt64, commAddr: UInt64,
                           numDevices: Int32, globalRank: Int32, localRank: Int32, groupRank: Int32)

  datatype Communicator = Communicator(header: Header, rings: seq<RingNode>, trees: seq<TreeNode>)

  predicate WellSized(c: Communicator) {
    |c.rings| == |c.trees| == MAXCHANNELS && forall i :: 0 <= i < |c.trees| ==> |c.trees[i].down| == TREE_ARITY
  }

  // ----- Integers -----

  function Pow256(n: nat): (p: int)
    ensures p > 0
  {
    if n == 0 then 1 else 256 * Pow256(n - 1)
  }

  function ToBytes(x: nat, n: nat): (b: seq<Byte>)
    ensures |b| == n
  {
    if n == 0 then [] else [x % 256] + ToBytes(x / 256, n - 1)
  }

  function FromBytes(b: seq<Byte>): (x: nat)
    ensures x < Pow256(|b|)
  {
    if b == [] then 0 else b[0] + 256 * FromBytes(b[1..])
  }

  lemma {:induction false} IntegerRoundTrip(x: nat, n: nat)
    requires x < Pow256(n)
    ensures FromBytes(ToBytes(x, n)) == x
  {
    if n > 0 {
      IntegerRoundTrip(x / 256, n - 1);
      assert ToBytes(x, n)[1..] == ToBytes(x / 256, n - 1);
    }
  }

  lemma {:induction false} BytesRoundTrip(b: seq<Byte>)
    ensures ToBytes(FromBytes(b), |b|) == b
  {
    if b != [] {
      BytesRoundTrip(b[1..]);
      LowByte(b[0], FromBytes(b[1..]));
      assert b == [b[0]] + b[1..];
    }
  }

  lemma LowByte(low: Byte, high: nat)
    ensures (low + 256 * high) % 256 == low && (low + 256 * high) / 256 == high
  {
  }

  lemma WordSizes()
    ensures Pow256(4) == 0x1_0000_0000 && Pow256(8) == 0x1_0000_0000_0000_0000
  {
    assert Pow256(0) == 1 && Pow256(1) == 0x100 && Pow256(2) == 0x1_0000 && Pow256(3) == 0x100_0000;
    assert Pow256(4) == 0x1_0000_0000 && Pow256(5) == 0x100_0000_0000;
    assert Pow256(6) == 0x1_0000_0000_0000 && Pow256(7) == 0x100_0000_0000_0000;
  }

  function PutU64(x: UInt64): (b: seq<Byte>)
    ensures |b| == 8
  {
    ToBytes(x, 8)
  }

  function GetU64(b: seq<Byte>): UInt64
    requires |b| == 8
  {
    WordSizes();
    FromBytes(b)
  }

  function PutI32(x: Int32): (b: seq<Byte>)
    ensures |b| == 4
  {
    ToBytes(if x < 0 then x + 0x1_0000_0000 else x, 4)
  }

  function GetI32(b: seq<Byte>): Int32
    requires |b| == 4
  {
    WordSizes();
    if FromBytes(b) < 0x8000_0000 then FromBytes(b) else FromBytes(b) - 0x1_0000_0000
  }

  lemma U64RoundTrip(x: UInt64)
    ensures GetU64(PutU64(x)) == x
  {
    WordSizes();
    IntegerRoundTrip(x, 8);
  }

  lemma I32RoundTrip(x: Int32)
    ensures GetI32(PutI32(x)) == x
  {
    WordSizes();
    IntegerRoundTrip(if x < 0 then x + 0x1_0000_0000 else x, 4);
  }

  lemma BytesOfU64(b: seq<Byte>)
    requires |b| == 8
    ensures PutU64(GetU64(b)) == b
  {
    BytesRoundTrip(b);
  }

  lemma BytesOfI32(b: seq<Byte>)
    requires |b| == 4
    ensures PutI32(GetI32(b)) == b
  {
    WordSizes();
    BytesRoundTrip(b);
  }

  // ----- Nodes and header -----

  /** A ring node in memory: two ints, a pointer, an int and four bytes of padding. */
  function PutRing(r: RingNode, pad: seq<Byte>): (b: seq<Byte>)
    requires |pad| == 4
    ensures |b| == RING_SIZE
  {
    PutI32(r.prev) + PutI32(r.next) + PutU64(r.userRanks) + PutI32(r.index) + pad
  }

  function GetRing(b: seq<Byte>): RingNode
    requires |b| == RING_SIZE
  {
    RingNode(GetI32(b[..4]), GetI32(b[4..8]), GetU64(b[8..16]), GetI32(b[16..20]))
  }

  function PutTree(t: TreeNode): (b: seq<Byte>)
    requires |t.down| == TREE_ARITY
    ensures |b| == TREE_SIZE
  {
    PutI32(t.depth) + PutI32(t.up) + PutI32(t.down[0]) + PutI32(t.down[1]) + PutI32(t.down[2])
  }

  function GetTree(b: seq<Byte>): (t: TreeNode)
    requires |b| == TREE_SIZE
    ensures |t.down| == TREE_ARITY
  {
    TreeNode(GetI32(b[..4]), GetI32(b[4..8]), [GetI32(b[8..12]), GetI32(b[12..16]), GetI32(b[16..])])
  }

  function PutHeader(h: Header): (b: seq<Byte>)
    ensures |b| == HEADER_SIZE
  {
    PutU64(h.idHash) + PutU64(h.numChannels) + PutU64(h.lastRingId) + PutU64(h.lastTreeId) + PutU64(h.commAddr)
    + PutI32(h.numDevices) + PutI32(h.globalRank) + PutI32(h.localRank) + PutI32(h.groupRank)
  }

  function GetHeader(b: seq<Byte>): Header
    requires |b| == HEADER_SIZE
  {
    Header(GetU64(b[..8]), GetU64(b[8..16]), GetU64(b[16..24]), GetU64(b[24..32]), GetU64(b[32..40]),
           GetI32(b[40..44]), GetI32(b[44..48]), GetI32(b[48..52]), GetI32(b[52..]))
  }

  lemma RingRoundTrip(r: RingNode, pad: seq<Byte>)
    requires |pad| == 4
    ensures GetRing(PutRing(r, pad)) == r && PutRing(r, pad)[20..] == pad
  {
    var b := PutRing(r, pad);
    assert b[..4] == PutI32(r.prev) && b[4..8] == PutI32(r.next) && b[8..16] == PutU64(r.userRanks);
    assert b[16..20] == PutI32(r.index) && b[20..] == pad;
    I32RoundTrip(r.prev);
    I32RoundTrip(r.next);
    U64RoundTrip(r.userRanks);
    I32RoundTrip(r.index);
  }

  lemma BytesOfRing(b: seq<Byte>)
    requires |b| == RING_SIZE
    ensures PutRing(GetRing(b), b[20..]) == b
  {
    BytesOfI32(b[..4]);
    BytesOfI32(b[4..8]);
    BytesOfU64(b[8..16]);
    BytesOfI32(b[16..20]);
  }

  lemma TreeRoundTrip(t: TreeNode)
    requires |t.down| == TREE_ARITY
    ensures GetTree(PutTree(t)) == t
  {
    var b := PutTree(t);
    assert b[..4] == PutI32(t.depth) && b[4..8] == PutI32(t.up) && b[8..12] == PutI32(t.down[0]);
    assert b[12..16] == PutI32(t.down[1]) && b[16..] == PutI32(t.down[2]);
    I32RoundTrip(t.depth);
    I32RoundTrip(t.up);
    I32RoundTrip(t.down[0]);
    I32RoundTrip(t.down[1]);
    I32RoundTrip(t.down[2]);
    assert t.down == [t.down[0], t.down[1], t.down[2]];
  }

  lemma BytesOfTree(b: seq<Byte>)
    requires |b| == TREE_SIZE
    ensures PutTree(GetTree(b)) == b
  {
    BytesOfI32(b[..4]);
    BytesOfI32(b[4..8]);
    BytesOfI32(b[8..12]);
    BytesOfI32(b[12..16]);
    BytesOfI32(b[16..]);
  }

  lemma HeaderRoundTrip(h: Header)
    ensures GetHeader(PutHeader(h)) == h
  {
    HeaderFields(h);
    U64RoundTrip(h.idHash);
    U64RoundTrip(h.numChannels);
    U64RoundTrip(h.lastRingId);
    U64RoundTrip(h.lastTreeId);
    U64RoundTrip(h.commAddr);
    I32RoundTrip(h.numDevices);
    I32RoundTrip(h.globalRank);
    I32RoundTrip(h.localRank);
    I32RoundTrip(h.groupRank);
  }

  lemma HeaderFields(h: Header)
    ensures var b := PutHeader(h);
            && b[..8] == PutU64(h.idHash) && b[8..16] == PutU64(h.numChannels) && b[16..24] == PutU64(h.lastRingId)
            && b[24..32] == PutU64(h.lastTreeId) && b[32..40] == PutU64(h.commAddr) && b[40..44] == PutI32(h.numDevices)
            && b[44..48] == PutI32(h.globalRank) && b[48..52] == PutI32(h.localRank) && b[52..] == PutI32(h.groupRank)
  {
  }

  lemma HeaderSlices(b: seq<Byte>)
    requires |b| == HEADER_SIZE
    ensures b[..8] + b[8..16] + b[16..24] + b[24..32] + b[32..40] + b[40..44] + b[44..48] + b[48..52] + b[52..] == b
  {
  }

  lemma BytesOfHeader(b: seq<Byte>)
    requires |b| == HEADER_SIZE
    ensures PutHeader(GetHeader(b)) == b
  {
    HeaderSlices(b);
    BytesOfU64(b[..8]);
    BytesOfU64(b[8..16]);
    BytesOfU64(b[16..24]);
    BytesOfU64(b[24..32]);
    BytesOfU64(b[32..40]);
    BytesOfI32(b[40..44]);
    BytesOfI32(b[44..48]);
    BytesOfI32(b[48..52]);
    BytesOfI32(b[52..]);
  }

  // ----- Arrays of equal chunks -----

  function Flatten(chunks: seq<seq<Byte>>): seq<Byte> {
    if chunks == [] then [] else Flatten(chunks[..|chunks| - 1]) + chunks[|chunks| - 1]
  }

  ghost predicate AllOfSize(chunks: seq<seq<Byte>>, k: nat) {
    forall i :: 0 <= i < |chunks| ==> |chunks[i]| == k
  }

  /** Where chunk `i` begins. */
  function Offset(k: nat, i: nat): nat {
    if i == 0 then 0 else Offset(k, i - 1) + k
  }

  lemma {:induction false} OffsetIsProduct(k: nat, i: nat)
    ensures Offset(k, i) == i * k
  {
    if i > 0 {
      OffsetIsProduct(k, i - 1);
      assert i * k == (i - 1) * k + k;
    }
  }

  lemma {:induction false} FlattenLength(chunks: seq<seq<Byte>>, k: nat)
    requires AllOfSize(chunks, k)
    ensures |Flatten(chunks)| == Offset(k, |chunks|)
  {
    if chunks != [] {
      FlattenLength(chunks[..|chunks| - 1], k);
    }
  }

  lemma FlattenSize(chunks: seq<seq<Byte>>, k: nat)
    requires AllOfSize(chunks, k)
    ensures |Flatten(chunks)| == |chunks| * k
  {
    FlattenLength(chunks, k);
    OffsetIsProduct(k, |chunks|);
  }

  lemma SliceOfSum(front: seq<Byte>, last: seq<Byte>, lo: nat, hi: nat)
    requires lo <= hi <= |front|
    ensures (front + last)[lo..hi] == front[lo..hi]
  {
  }

  lemma EndOfSum(front: seq<Byte>, last: seq<Byte>)
    ensures (front + last)[|front|..|front| + |last|] == last
  {
  }

  lemma {:induction false} ChunkAtOffset(chunks: seq<seq<Byte>>, k: nat, i: nat)
    requires AllOfSize(chunks, k) && i < |chunks|
    ensures Offset(k, i) + k <= |Flatten(chunks)| && Flatten(chunks)[Offset(k, i)..Offset(k, i) + k] == chunks[i]
  {
    var m := |chunks| - 1;
    var front := Flatten(chunks[..m]);
    FlattenLength(chunks[..m], k);
    if i < m {
      ChunkAtOffset(chunks[..m], k, i);
      SliceOfSum(front, chunks[m], Offset(k, i), Offset(k, i) + k);
    } else {
      EndOfSum(front, chunks[m]);
    }
  }

  lemma ChunkOfFlatten(chunks: seq<seq<Byte>>, k: nat, i: nat)
    requires AllOfSize(chunks, k) && i < |chunks|
    ensures i * k + k <= |Flatten(chunks)| && Flatten(chunks)[i * k..i * k + k] == chunks[i]
  {
    ChunkAtOffset(chunks, k, i);
    OffsetIsProduct(k, i);
  }

  lemma ChunkEnds(k: nat, n: nat, i: nat)
    requires i < n
    ensures i * k + k <= n * k
  {
    var m := n - i - 1;
    assert n * k == (i + 1 + m) * k == i * k + k + m * k;
    assert m * k >= 0;
  }

  /** Chunk `i` of `b`. */
  function Chunk(b: seq<Byte>, k: nat, n: nat, i: nat): (c: seq<Byte>)
    requires |b| == n * k && i < n
    ensures |c| == k
  {
    ChunkEnds(k, n, i);
    b[i * k..i * k + k]
  }

  function Chunks(b: seq<Byte>, k: nat, n: nat): (c: seq<seq<Byte>>)
    requires |b| == n * k
    ensures |c| == n && forall i :: 0 <= i < n ==> c[i] == Chunk(b, k, n, i)
  {
    seq(n, i requires 0 <= i < n => Chunk(b, k, n, i))
  }

  lemma SliceOfSlice(b: seq<Byte>, lo: nat, hi: nat, x: nat, y: nat)
    requires lo <= hi <= |b| && x <= y <= hi - lo
    ensures b[lo..hi][x..y] == b[lo + x..lo + y]
  {
    forall i | 0 <= i < y - x ensures b[lo..hi][x..y][i] == b[lo + x..lo + y][i] {
      assert b[lo..hi][x..y][i] == b[lo..hi][x + i] == b[lo + x + i];
    }
  }

  lemma ChunkOfPrefix(b: seq<Byte>, k: nat, m: nat, i: nat)
    requires |b| == m * k + k && |b| == (m + 1) * k && i < m
    ensures Chunk(b, k, m + 1, i) == Chunk(b[..m * k], k, m, i)
  {
    ChunkEnds(k, m, i);
    var lo, hi, end := i * k, i * k + k, m * k;
    assert b[0..end] == b[..end];
    SliceOfSlice(b, 0, end, lo, hi);
  }

  lemma ChunksSplit(b: seq<Byte>, k: nat, m: nat)
    requires |b| == m * k + k && |b| == (m + 1) * k
    ensures Chunks(b, k, m + 1) == Chunks(b[..m * k], k, m) + [b[m * k..]]
  {
    var all, front := Chunks(b, k, m + 1), Chunks(b[..m * k], k, m);
    forall i | 0 <= i < m ensures all[i] == front[i] {
      ChunkOfPrefix(b, k, m, i);
    }
    assert all[m] == b[m * k..];
  }

  lemma {:induction false} FlattenOfChunks(b: seq<Byte>, k: nat, n: nat)
    requires |b| == n * k
    ensures Flatten(Chunks(b, k, n)) == b
  {
    if n > 0 {
      var m := n - 1;
      assert n * k == m * k + k;
      FlattenOfChunks(b[..m * k], k, m);
      ChunksSplit(b, k, m);
      var chunks := Chunks(b[..m * k], k, m);
      assert (chunks + [b[m * k..]])[..m] == chunks;
      assert b[..m * k] + b[m * k..] == b;
    }
  }

  lemma ChunksOfFlatten(chunks: seq<seq<Byte>>, k: nat)
    requires AllOfSize(chunks, k)
    ensures |Flatten(chunks)| == |chunks| * k && Chunks(Flatten(chunks), k, |chunks|) == chunks
  {
    FlattenSize(chunks, k);
    forall i | 0 <= i < |chunks| ensures Chunk(Flatten(chunks), k, |chunks|, i) == chunks[i] {
      ChunkOfFlatten(chunks, k, i);
    }
  }

  // ----- The whole communicator -----

  const RINGS_END: nat := 824

  predicate Pads(pads: seq<seq<Byte>>) {
    |pads| == MAXCHANNELS && forall i :: 0 <= i < |pads| ==> |pads[i]| == 4
  }

  function RingChunks(c: Communicator, pads: seq<seq<Byte>>): (chunks: seq<seq<Byte>>)
    requires WellSized(c) && Pads(pads)
    ensures |chunks| == MAXCHANNELS && AllOfSize(chunks, RING_SIZE)
  {
    seq(MAXCHANNELS, i requires 0 <= i < MAXCHANNELS => PutRing(c.rings[i], pads[i]))
  }

  function TreeChunks(c: Communicator): (chunks: seq<seq<Byte>>)
    requires WellSized(c)
    ensures |chunks| == MAXCHANNELS && AllOfSize(chunks, TREE_SIZE)
  {
    seq(MAXCHANNELS, i requires 0 <= i < MAXCHANNELS => PutTree(c.trees[i]))
  }

  /** The serialised bytes; `pads` are the unspecified padding bytes of the ring nodes. */
  function Encode(c: Communicator, pads: seq<seq<Byte>>): (b: seq<Byte>)
    requires WellSized(c) && Pads(pads)
    ensures |b| == TOTAL_SIZE
  {
    FlattenSize(RingChunks(c, pads), RING_SIZE);
    FlattenSize(TreeChunks(c), TREE_SIZE);
    PutHeader(c.header) + Flatten(RingChunks(c, pads)) + Flatten(TreeChunks(c))
  }

  function GetRings(b: seq<Byte>): (rings: seq<RingNode>)
    requires |b| == RINGS_END - HEADER_SIZE
    ensures |rings| == MAXCHANNELS
  {
    var chunks := Chunks(b, RING_SIZE, MAXCHANNELS);
    seq(MAXCHANNELS, i requires 0 <= i < MAXCHANNELS => GetRing(chunks[i]))
  }

  function GetTrees(b: seq<Byte>): (trees: seq<TreeNode>)
    requires |b| == TOTAL_SIZE - RINGS_END
    ensures |trees| == MAXCHANNELS && forall i :: 0 <= i < MAXCHANNELS ==> |trees[i].down| == TREE_ARITY
  {
    var chunks := Chunks(b, TREE_SIZE, MAXCHANNELS);
    seq(MAXCHANNELS, i requires 0 <= i < MAXCHANNELS => GetTree(chunks[i]))
  }

  /** Reading a communicator; bytes beyond it are ignored and fewer bytes are an error. */
  function Decode(b: seq<Byte>): (c: Option<Communicator>)
    ensures c.Some? <==> |b| >= TOTAL_SIZE
    ensures c.Some? ==> WellSized(c.value)
  {
    if |b| < TOTAL_SIZE then None
    else Some(Communicator(GetHeader(b[..HEADER_SIZE]), GetRings(b[HEADER_SIZE..RINGS_END]), GetTrees(b[RINGS_END..TOTAL_SIZE])))
  }

  lemma EncodeParts(c: Communicator, pads: seq<seq<Byte>>, extra: seq<Byte>)
    requires WellSized(c) && Pads(pads)
    ensures var b := Encode(c, pads) + extra;
            && b[..HEADER_SIZE] == PutHeader(c.header)
            && b[HEADER_SIZE..RINGS_END] == Flatten(RingChunks(c, pads))
            && b[RINGS_END..TOTAL_SIZE] == Flatten(TreeChunks(c))
  {
    FlattenSize(RingChunks(c, pads), RING_SIZE);
    FlattenSize(TreeChunks(c), TREE_SIZE);
  }

  lemma RingsRoundTrip(c: Communicator, pads: seq<seq<Byte>>)
    requires WellSized(c) && Pads(pads)
    ensures |Flatten(RingChunks(c, pads))| == RINGS_END - HEADER_SIZE && GetRings(Flatten(RingChunks(c, pads))) == c.rings
  {
    FlattenSize(RingChunks(c, pads), RING_SIZE);
    ChunksOfFlatten(RingChunks(c, pads), RING_SIZE);
    forall i | 0 <= i < MAXCHANNELS ensures GetRing(RingChunks(c, pads)[i]) == c.rings[i] {
      RingRoundTrip(c.rings[i], pads[i]);
    }
  }

  lemma TreesRoundTrip(c: Communicator)
    requires WellSized(c)
    ensures |Flatten(TreeChunks(c))| == TOTAL_SIZE - RINGS_END && GetTrees(Flatten(TreeChunks(c))) == c.trees
  {
    FlattenSize(TreeChunks(c), TREE_SIZE);
    ChunksOfFlatten(TreeChunks(c), TREE_SIZE);
    forall i | 0 <= i < MAXCHANNELS ensures GetTree(TreeChunks(c)[i]) == c.trees[i] {
      TreeRoundTrip(c.trees[i]);
    }
  }

  /** Decoding returns every field of any communicator, whatever the padding bytes and whatever follows. */
  lemma CommunicatorRoundTrip(c: Communicator, pads: seq<seq<Byte>>, extra: seq<Byte>)
    requires WellSized(c) && Pads(pads)
    ensures Decode(Encode(c, pads) + extra) == Some(c)
  {
    EncodeParts(c, pads, extra);
    HeaderRoundTrip(c.header);
    RingsRoundTrip(c, pads);
    TreesRoundTrip(c);
  }

  /** The padding bytes of a serialised communicator. */
  function PadsOf(b: seq<Byte>): (pads: seq<seq<Byte>>)
    requires |b| == TOTAL_SIZE
    ensures Pads(pads)
  {
    var rings := Chunks(b[HEADER_SIZE..RINGS_END], RING_SIZE, MAXCHANNELS);
    seq(MAXCHANNELS, i requires 0 <= i < MAXCHANNELS => rings[i][20..])
  }

  lemma BytesOfRings(b: seq<Byte>)
    requires |b| == TOTAL_SIZE
    ensures Flatten(RingChunks(Decode(b).value, PadsOf(b))) == b[HEADER_SIZE..RINGS_END]
  {
    var c, pads := Decode(b).value, PadsOf(b);
    var rings := Chunks(b[HEADER_SIZE..RINGS_END], RING_SIZE, MAXCHANNELS);
    forall i | 0 <= i < MAXCHANNELS ensures PutRing(c.rings[i], pads[i]) == rings[i] {
      BytesOfRing(rings[i]);
    }
    assert RingChunks(c, pads) == rings;
    FlattenOfChunks(b[HEADER_SIZE..RINGS_END], RING_SIZE, MAXCHANNELS);
  }

  lemma BytesOfTrees(b: seq<Byte>)
    requires |b| == TOTAL_SIZE
    ensures Flatten(TreeChunks(Decode(b).value)) == b[RINGS_END..TOTAL_SIZE]
  {
    var c := Decode(b).value;
    var trees := Chunks(b[RINGS_END..TOTAL_SIZE], TREE_SIZE, MAXCHANNELS);
    forall i | 0 <= i < MAXCHANNELS ensures PutTree(c.trees[i]) == trees[i] {
      BytesOfTree(trees[i]);
    }
    assert TreeChunks(c) == trees;
    FlattenOfChunks(b[RINGS_END..TOTAL_SIZE], TREE_SIZE, MAXCHANNELS);
  }

  /** Every byte string of the right length is the serialisation of what it decodes to: the format has no
      other freedom than the padding. */
  lemma BytesOfCommunicator(b: seq<Byte>)
    requires |b| == TOTAL_SIZE
    ensures Encode(Decode(b).value, PadsOf(b)) == b
  {
    BytesOfHeader(b[..HEADER_SIZE]);
    BytesOfRings(b);
    BytesOfTrees(b);
  }

  // ----- The program's writer and readers -----

  method WriteRings(start: seq<Byte>, c: Communicator, pads: seq<seq<Byte>>) returns (out: seq<Byte>)
    requires WellSized(c) && Pads(pads)
    ensures out == start + Flatten(RingChunks(c, pads))
  {
    out := start;
    ghost var chunks := RingChunks(c, pads);
    for i := 0 to MAXCHANNELS
      invariant out == start + Flatten(chunks[..i])
    {
      out := out + PutRing(c.rings[i], pads[i]);
      assert chunks[..i + 1][..i] == chunks[..i];
    }
    assert chunks[..MAXCHANNELS] == chunks;
  }

  method WriteTrees(start: seq<Byte>, c: Communicator) returns (out: seq<Byte>)
    requires WellSized(c)
    ensures out == start + Flatten(TreeChunks(c))
  {
    out := start;
    ghost var chunks := TreeChunks(c);
    for i := 0 to MAXCHANNELS
      invariant out == start + Flatten(chunks[..i])
    {
      out := out + PutTree(c.trees[i]);
      assert chunks[..i + 1][..i] == chunks[..i];
    }
    assert chunks[..MAXCHANNELS] == chunks;
  }

  /** `Communicator::serialize`: one write after the other. */
  method Serialize(c: Communicator, pads: seq<seq<Byte>>) returns (out: seq<Byte>)
    requires WellSized(c) && Pads(pads)
    ensures out == Encode(c, pads)
  {
    out := PutHeader(c.header);
    out := WriteRings(out, c, pads);
    out := WriteTrees(out, c);
  }

  /** The first `n` ring nodes, or tree nodes, of `data`. */
  ghost predicate AreRings(data: seq<Byte>, rings: seq<RingNode>, n: nat) {
    && |rings| == n && HEADER_SIZE + n * RING_SIZE <= |data|
    && forall k :: 0 <= k < n ==> rings[k] == GetRing(data[HEADER_SIZE + k * RING_SIZE..HEADER_SIZE + (k * RING_SIZE + RING_SIZE)])
  }

  ghost predicate AreTrees(data: seq<Byte>, trees: seq<TreeNode>, n: nat) {
    && |trees| == n && RINGS_END + n * TREE_SIZE <= |data|
    && forall k :: 0 <= k < n ==> trees[k] == GetTree(data[RINGS_END + k * TREE_SIZE..RINGS_END + (k * TREE_SIZE + TREE_SIZE)])
  }

  method ReadRings(data: seq<Byte>, start: nat) returns (rings: seq<RingNode>, pos: nat, ok: bool)
    requires start == HEADER_SIZE <= |data|
    ensures ok <==> |data| >= RINGS_END
    ensures ok ==> pos == RINGS_END && AreRings(data, rings, MAXCHANNELS)
  {
    rings, pos := [], start;
    for i := 0 to MAXCHANNELS
      invariant pos == HEADER_SIZE + i * RING_SIZE && AreRings(data, rings, i)
    {
      if |data| < pos + RING_SIZE {
        return rings, pos, false;
      }
      rings := rings + [GetRing(data[pos..pos + RING_SIZE])];
      pos := pos + RING_SIZE;
    }
    ok := true;
  }

  method ReadTrees(data: seq<Byte>, start: nat) returns (trees: seq<TreeNode>, pos: nat, ok: bool)
    requires start == RINGS_END <= |data|
    ensures ok <==> |data| >= TOTAL_SIZE
    ensures ok ==> pos == TOTAL_SIZE && AreTrees(data, trees, MAXCHANNELS)
  {
    trees, pos := [], start;
    for i := 0 to MAXCHANNELS
      invariant pos == RINGS_END + i * TREE_SIZE && AreTrees(data, trees, i)
    {
      if |data| < pos + TREE_SIZE {
        return trees, pos, false;
      }
      trees := trees + [GetTree(data[pos..pos + TREE_SIZE])];
      pos := pos + TREE_SIZE;
    }
    ok := true;
  }

  /** `deserialize_communicator_from_redis`: `pos` walks over the nodes. */
  method Deserialize(data: seq<Byte>) returns (c: Option<Communicator>)
    ensures c == Decode(data)
  {
    if |data| < HEADER_SIZE {
      return None;
    }
    var header := GetHeader(data[..HEADER_SIZE]);
    var pos, ok, rings, trees := HEADER_SIZE, true, [], [];
    rings, pos, ok := ReadRings(data, pos);
    if !ok {
      return None;
    }
    trees, pos, ok := ReadTrees(data, pos);
    if !ok {
      return None;
    }
    c := Some(Communicator(header, rings, trees));
    NodesAgree(data, c.value);
  }

  lemma NodesAgree(data: seq<Byte>, c: Communicator)
    requires AreRings(data, c.rings, MAXCHANNELS) && AreTrees(data, c.trees, MAXCHANNELS)
    requires c.header == GetHeader(data[..HEADER_SIZE])
    ensures Decode(data) == Some(c)
  {
    var d := Decode(data).value;
    forall k | 0 <= k < MAXCHANNELS ensures d.rings[k] == c.rings[k] {
      SliceOfSlice(data, HEADER_SIZE, RINGS_END, k * RING_SIZE, k * RING_SIZE + RING_SIZE);
    }
    forall k | 0 <= k < MAXCHANNELS ensures d.trees[k] == c.trees[k] {
      SliceOfSlice(data, RINGS_END, TOTAL_SIZE, k * TREE_SIZE, k * TREE_SIZE + TREE_SIZE);
    }
    assert d.rings == c.rings && d.trees == c.trees;
  }

  // ----- Reading into memory -----

  function Least(x: nat, y: nat): nat {
    if x <= y then x else y
  }

  /** An input stream over `data`, read up to `pos`.  A read past the end stores what there is, and the
      reads after it store nothing. */
  class InputStream {
    const data: seq<Byte>
    var pos: nat

    constructor (bytes: seq<Byte>)
      ensures data == bytes && pos == 0
    {
      data, pos := bytes, 0;
    }

    /** `std::istream::read` into the bytes of an object from `at` on. */
    method Read(image: array<Byte>, at: nat, n: nat)
      requires pos <= |data| && at + n <= image.Length
      modifies this, image
      ensures pos == Least(old(pos) + n, |data|)
      ensures forall i :: 0 <= i < image.Length ==>
                image[i] == if at <= i < at + (pos - old(pos)) then data[old(pos) + (i - at)] else old(image[i])
    {
      var end := Least(pos + n, |data|);
      for k := 0 to end - pos
        invariant pos == old(pos)
        invariant forall i :: 0 <= i < image.Length ==>
                    image[i] == if at <= i < at + k then data[pos + (i - at)] else old(image[i])
      {
        image[at + k] := data[pos + k];
      }
      pos := end;
    }
  }

  /** The memory `before` after the first `n` bytes of `data`, or as many as there are, were read into it. */
  ghost function ReadOver(data: seq<Byte>, before: seq<Byte>, n: nat): (r: seq<Byte>)
    requires n <= |before|
    ensures |r| == |before| && forall i :: 0 <= i < |r| ==> r[i] == if i < n && i < |data| then data[i] else before[i]
  {
    data[..Least(n, |data|)] + before[Least(n, |data|)..]
  }

  method ReadField(input: InputStream, image: array<Byte>, at: nat, n: nat, ghost before: seq<Byte>) returns (next: nat)
    requires |before| == image.Length && at + n <= image.Length
    requires input.pos == Least(at, |input.data|) && image[..] == ReadOver(input.data, before, at)
    modifies input, image
    ensures next == at + n && input.pos == Least(next, |input.data|) && image[..] == ReadOver(input.data, before, next)
  {
    input.Read(image, at, n);
    next := at + n;
  }

  /** The five 64-bit and four 32-bit fields of the header. */
  method ReadHeader(input: InputStream, image: array<Byte>, ghost before: seq<Byte>) returns (at: nat)
    requires |before| == image.Length == TOTAL_SIZE && input.pos == 0 && image[..] == before
    modifies input, image
    ensures at == HEADER_SIZE && input.pos == Least(at, |input.data|) && image[..] == ReadOver(input.data, before, at)
  {
    at := ReadField(input, image, 0, 8, before);
    at := ReadField(input, image, at, 8, before);
    at := ReadField(input, image, at, 8, before);
    at := ReadField(input, image, at, 8, before);
    at := ReadField(input, image, at, 8, before);
    at := ReadField(input, image, at, 4, before);
    at := ReadField(input, image, at, 4, before);
    at := ReadField(input, image, at, 4, before);
    at := ReadField(input, image, at, 4, before);
  }

  lemma DecodeIgnoresRest(data: seq<Byte>)
    requires |data| >= TOTAL_SIZE
    ensures Decode(data[..TOTAL_SIZE]) == Decode(data)
  {
    var b := data[..TOTAL_SIZE];
    assert b[..HEADER_SIZE] == data[..HEADER_SIZE] && b[HEADER_SIZE..RINGS_END] == data[HEADER_SIZE..RINGS_END];
    assert b[RINGS_END..TOTAL_SIZE] == data[RINGS_END..TOTAL_SIZE];
  }

  /** `Communicator::from_bytes`: field after field into the memory of the object, `image`, whose layout
      is that of the format.  With enough bytes it agrees with the controller's reader; with fewer, the
      fields beyond them keep what they were. */
  method FromStream(input: InputStream, image: array<Byte>)
    requires input.pos == 0 && image.Length == TOTAL_SIZE
    modifies input, image
    ensures image[..] == ReadOver(input.data, old(image[..]), TOTAL_SIZE)
    ensures input.pos == Least(TOTAL_SIZE, |input.data|)
    ensures |input.data| >= TOTAL_SIZE ==> Decode(image[..]) == Decode(input.data)
  {
    ghost var before := image[..];
    var at := ReadHeader(input, image, before);
    at := ReadField(input, image, at, RING_SIZE * MAXCHANNELS, before);
    at := ReadField(input, image, at, TREE_SIZE * MAXCHANNELS, before);
    if |input.data| >= TOTAL_SIZE {
      DecodeIgnoresRest(input.data);
      assert image[..] == input.data[..TOTAL_SIZE];
    }
  }
}
