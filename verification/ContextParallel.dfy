/** Slicing a batch along the sequence for one rank of a context-parallel group.

    A sequence is cut into 2 * size chunks and rank r keeps chunks r and 2 * size - 1 - r, so that the
    ranks share the causal attention work evenly.  Tensors are contiguous: a shape and flat data. */
module ContextParallel {
  import opened Wrappers
  import opened RowMajor

  datatype Tensor<T> = Tensor(shape: seq<nat>, data: seq<T>)

  function Product(shape: seq<nat>): nat {
    if shape == [] then 1 else shape[0] * Product(shape[1..])
  }

  predicate WellShaped<T>(t: Tensor<T>) {
    |t.data| == Product(t.shape)
  }

  // ----- Selecting entries of an axis -----

  /** Where element `x` of a selection comes from, when the axis has `b` entries of `c` elements each
      and `index` names the selected entries. */
  function Selected(b: nat, c: nat, index: seq<nat>, x: nat): nat
    requires c > 0 && |index| > 0
  {
    var (i, k, j) := Indices(|index|, c, x);
    Flat(b, c, i, index[k], j)
  }

  lemma SelectedInRange(a: nat, b: nat, c: nat, index: seq<nat>, x: nat)
    requires |index| > 0 && (forall k :: 0 <= k < |index| ==> index[k] < b)
    requires x < a * |index| * c
    ensures c > 0 && Selected(b, c, index, x) < a * b * c
  {
    assert c > 0;
    FlatOfIndices(a, |index|, c, x);
    var (i, k, j) := Indices(|index|, c, x);
    FlatInRange(a, b, c, i, index[k], j);
  }

  /** `index_select` on flat data of `a` blocks of `b` entries of `c` elements. */
  function Select<T>(data: seq<T>, a: nat, b: nat, c: nat, index: seq<nat>): (r: seq<T>)
    requires |index| > 0 && (forall k :: 0 <= k < |index| ==> index[k] < b)
    requires |data| == a * b * c
    ensures |r| == a * |index| * c
  {
    seq(a * |index| * c, x requires 0 <= x < a * |index| * c =>
      SelectedInRange(a, b, c, index, x); data[Selected(b, c, index, x)])
  }

  lemma {:induction false} ProductSplit(s: seq<nat>, d: nat)
    requires d <= |s|
    ensures Product(s) == Product(s[..d]) * Product(s[d..])
  {
    if d == 0 {
      assert s[..0] == [] && s[0..] == s;
    } else {
      ProductSplit(s[1..], d - 1);
      assert s[1..][..d - 1] == s[..d][1..] && s[1..][d - 1..] == s[d..];
      TimesAssociates(s[0], Product(s[..d][1..]), Product(s[d..]));
    }
  }

  lemma TimesAssociates(x: nat, y: nat, z: nat)
    ensures x * y * z == x * (y * z)
  {
  }

  lemma ProductAround(before: seq<nat>, axis: nat, after: seq<nat>)
    ensures Product(before + [axis] + after) == Product(before) * axis * Product(after)
  {
    var s := before + [axis] + after;
    ProductSplit(s, |before|);
    assert s[..|before|] == before && s[|before|..] == [axis] + after;
    assert ([axis] + after)[1..] == after;
    TimesAssociates(Product(before), axis, Product(after));
  }

  // ----- One tensor -----

  function ChunkSize(s: nat, size: nat): nat
    requires size > 0
  {
    QuotientNonNegative(s, 2 * size);
    s / (2 * size)
  }

  lemma QuotientNonNegative(s: nat, n: nat)
    requires n > 0
    ensures s / n >= 0
  {
  }

  /** Slice of a tensor whose axes before the sequence hold `a` entries and those after it `c`: view as
      [a, 2 * size, m, c], select two chunks, view as [a, -1, c].  The first view is an error unless the
      sizes agree, the last when `a` or `c` is zero, as the inferred axis is then ambiguous. */
  function SliceBlocks<T>(data: seq<T>, a: nat, m: nat, c: nat, size: nat, rank: nat): Option<seq<T>>
    requires rank < size
  {
    if |data| != a * (2 * size) * (m * c) || a == 0 || c == 0 then None
    else Some(Select(data, a, 2 * size, m * c, [rank, 2 * size - rank - 1]))
  }

  /** The slice of `rank` along axis `dim`; `None` when the library raises an error. */
  function Slice<T>(t: Tensor<T>, dim: nat, size: nat, rank: nat): (r: Option<Tensor<T>>)
    requires rank < size
  {
    if dim >= |t.shape| then None
    else
      var a, c := Product(t.shape[..dim]), Product(t.shape[dim + 1..]);
      match SliceBlocks(t.data, a, ChunkSize(t.shape[dim], size), c, size, rank)
      case None => None
      case Some(data) => Some(Tensor(t.shape[dim := Inferred(|data|, a, c)], data))
  }

  /** The length `view` gives to the axis written -1. */
  function Inferred(length: nat, a: nat, c: nat): nat {
    if a * c > 0 then length / (a * c) else 0
  }

  /** Position in the whole sequence of position `q` of the slice of `rank`, for chunks of `m`. */
  function Held(size: nat, m: nat, rank: nat, q: nat): nat
    requires rank < size
  {
    if q < m then rank * m + q else (2 * size - 1 - rank) * m + (q - m)
  }

  /** The sequence is a whole number of chunks and no other axis is empty. */
  ghost predicate Sliceable<T>(t: Tensor<T>, dim: nat, size: nat)
    requires size > 0
  {
    && dim < |t.shape| && t.shape[dim] % (2 * size) == 0
    && Product(t.shape[..dim]) > 0 && Product(t.shape[dim + 1..]) > 0
  }

  lemma WholeChunks(s: nat, n: nat)
    requires n > 0
    ensures s % n == 0 <==> s == n * (s / n)
  {
    assert s == n * (s / n) + s % n;
  }

  /** A chunk size that fills the sequence is the only one that does. */
  lemma ChunksAreWhole(s: nat, size: nat)
    requires size > 0
    ensures s % (2 * size) == 0 <==> s == 2 * size * ChunkSize(s, size)
  {
    WholeChunks(s, 2 * size);
  }

  lemma ChunksFill(a: nat, s: nat, n: nat, m: nat, c: nat)
    requires a > 0 && c > 0
    ensures a * n * (m * c) == a * s * c <==> s == n * m
  {
    var d := s - n * m;
    assert a * s * c == a * c * (n * m) + a * c * d;
    assert a * n * (m * c) == a * c * (n * m);
    NoZeroDivisors(a, c, d);
  }

  lemma NoZeroDivisors(a: nat, c: nat, d: int)
    requires a > 0 && c > 0
    ensures a * c > 0 && (a * c * d == 0 <==> d == 0)
  {
  }

  lemma InferredAxis(a: nat, m: nat, c: nat)
    requires a > 0 && c > 0
    ensures Inferred(a * 2 * (m * c), a, c) == 2 * m
    ensures a * (2 * m) * c == a * 2 * (m * c)
  {
    NoZeroDivisors(a, c, 0);
    assert a * 2 * (m * c) == 2 * m * (a * c);
    DivMod(2 * m, a * c, 0);
  }

  lemma ShapeAround(shape: seq<nat>, dim: nat, axis: nat)
    requires dim < |shape|
    ensures Product(shape[dim := axis]) == Product(shape[..dim]) * axis * Product(shape[dim + 1..])
  {
    assert shape[dim := axis] == shape[..dim] + [axis] + shape[dim + 1..];
    ProductAround(shape[..dim], axis, shape[dim + 1..]);
  }

  lemma SizeAround<T>(t: Tensor<T>, dim: nat)
    requires WellShaped(t) && dim < |t.shape|
    ensures |t.data| == Product(t.shape[..dim]) * t.shape[dim] * Product(t.shape[dim + 1..])
  {
    assert t.shape[dim := t.shape[dim]] == t.shape;
    ShapeAround(t.shape, dim, t.shape[dim]);
  }

  lemma BlocksSucceedIff<T>(data: seq<T>, a: nat, s: nat, m: nat, c: nat, size: nat, rank: nat)
    requires rank < size && |data| == a * s * c
    ensures SliceBlocks(data, a, m, c, size, rank).Some? <==> s == 2 * size * m && a > 0 && c > 0
  {
    if a > 0 && c > 0 {
      ChunksFill(a, s, 2 * size, m, c);
    }
  }

  /** Slicing succeeds exactly when the axis divides into 2 * size chunks and no other axis is empty. */
  lemma SliceSucceedsIff<T>(t: Tensor<T>, dim: nat, size: nat, rank: nat)
    requires WellShaped(t) && rank < size
    ensures Slice(t, dim, size, rank).Some? <==> Sliceable(t, dim, size)
  {
    if dim < |t.shape| {
      SizeAround(t, dim);
      ChunksAreWhole(t.shape[dim], size);
      BlocksSucceedIff(t.data, Product(t.shape[..dim]), t.shape[dim], ChunkSize(t.shape[dim], size),
                       Product(t.shape[dim + 1..]), size, rank);
    }
  }

  /** The slice keeps all axes but the sequence, which holds two chunks. */
  lemma SliceShape<T>(t: Tensor<T>, dim: nat, size: nat, rank: nat)
    requires rank < size && Slice(t, dim, size, rank).Some?
    ensures var r := Slice(t, dim, size, rank).value;
            WellShaped(r) && r.shape == t.shape[dim := 2 * ChunkSize(t.shape[dim], size)]
  {
    var m := ChunkSize(t.shape[dim], size);
    InferredAxis(Product(t.shape[..dim]), m, Product(t.shape[dim + 1..]));
    ShapeAround(t.shape, dim, 2 * m);
  }

  /** Each of the `size` ranks gets an equal share of the sequence. */
  lemma SliceIsShare<T>(t: Tensor<T>, dim: nat, size: nat, rank: nat)
    requires WellShaped(t) && rank < size && Slice(t, dim, size, rank).Some?
    ensures dim < |t.shape| == |Slice(t, dim, size, rank).value.shape|
    ensures size * Slice(t, dim, size, rank).value.shape[dim] == t.shape[dim]
  {
    SliceSucceedsIff(t, dim, size, rank);
    SliceShape(t, dim, size, rank);
    var s, m := t.shape[dim], ChunkSize(t.shape[dim], size);
    ChunksAreWhole(s, size);
    HalvesOfShare(size, m);
  }

  lemma HalvesOfShare(size: nat, m: nat)
    ensures size * (2 * m) == 2 * size * m
  {
  }

  lemma SplitSlicePosition(m: nat, c: nat, o: nat, k: nat, j: nat, i: nat)
    requires j < m && i < c
    ensures Flat(2 * m, c, o, k * m + j, i) == Flat(2, m * c, o, k, j * c + i)
    ensures j * c + i < m * c
  {
    assert (o * (2 * m) + (k * m + j)) * c == (o * 2 + k) * (m * c) + j * c;
    FlatInRange(1, m, c, 0, j, i);
  }

  lemma JoinChunk(n: nat, m: nat, c: nat, o: nat, h: nat, j: nat, i: nat)
    ensures Flat(n, m * c, o, h, j * c + i) == Flat(n * m, c, o, h * m + j, i)
  {
    assert (o * (n * m) + (h * m + j)) * c == (o * n + h) * (m * c) + j * c;
  }

  /** Entry (o, q, i) of a slice is entry (o, Held(q), i) of the tensor. */
  lemma SliceElement<T>(t: Tensor<T>, dim: nat, size: nat, rank: nat, o: nat, q: nat, i: nat)
    requires rank < size && Slice(t, dim, size, rank).Some?
    requires o < Product(t.shape[..dim]) && i < Product(t.shape[dim + 1..]) && q < 2 * ChunkSize(t.shape[dim], size)
    ensures SameElement(t.data, Slice(t, dim, size, rank).value.data, size, ChunkSize(t.shape[dim], size),
                        Product(t.shape[dim + 1..]), rank, o, q, i)
  {
    SliceSelects(t.data, Product(t.shape[..dim]), size, ChunkSize(t.shape[dim], size), Product(t.shape[dim + 1..]),
                 rank, o, q, i);
  }

  /** Entry (o, q, i) of `sliced`, [_, 2 * m, c], is entry (o, Held(q), i) of `data`, [_, 2 * size * m, c]. */
  ghost predicate SameElement<T>(data: seq<T>, sliced: seq<T>, size: nat, m: nat, c: nat, rank: nat, o: nat, q: nat, i: nat)
    requires rank < size
  {
    var x, y := Flat(2 * m, c, o, q, i), Flat(2 * size * m, c, o, Held(size, m, rank, q), i);
    x < |sliced| && y < |data| && sliced[x] == data[y]
  }

  lemma SliceSelects<T>(data: seq<T>, a: nat, size: nat, m: nat, c: nat, rank: nat, o: nat, q: nat, i: nat)
    requires rank < size && |data| == a * (2 * size) * (m * c)
    requires o < a && q < 2 * m && i < c
    ensures SameElement(data, Select(data, a, 2 * size, m * c, [rank, 2 * size - rank - 1]), size, m, c, rank, o, q, i)
  {
    var k, j := if q < m then 0 else 1, if q < m then q else q - m;
    var h := if k == 0 then rank else 2 * size - rank - 1;
    SplitSlicePosition(m, c, o, k, j, i);
    JoinChunk(2 * size, m, c, o, h, j, i);
    FlatInRange(a, 2, m * c, o, k, j * c + i);
    FlatInRange(a, 2 * size, m * c, o, h, j * c + i);
    IndicesOfFlat(2, m * c, o, k, j * c + i);
  }

  // ----- All ranks together -----

  /** The rank that holds position `p`, and where in its slice. */
  function Holder(size: nat, m: nat, p: nat): (nat, nat)
    requires m > 0 && p < 2 * size * m
  {
    QuotientBelow(p, 2 * size, m);
    if p / m < size then (p / m, p % m) else (2 * size - 1 - p / m, m + p % m)
  }

  lemma HolderHolds(size: nat, m: nat, p: nat)
    requires m > 0 && p < 2 * size * m
    ensures var (r, q) := Holder(size, m, p); r < size && q < 2 * m && Held(size, m, r, q) == p
  {
    QuotientBelow(p, 2 * size, m);
    assert p == p / m * m + p % m;
  }

  lemma OnlyHolder(size: nat, m: nat, r: nat, q: nat)
    requires r < size && q < 2 * m
    ensures var p := Held(size, m, r, q); p < 2 * size * m && Holder(size, m, p) == (r, q)
  {
    HeldInRange(size, m, r, q);
    if q < m {
      DivMod(r, m, q);
    } else {
      DivMod(2 * size - 1 - r, m, q - m);
    }
  }

  /** Rank `rank` holds chunk `rank` from the front and then chunk `rank` from the back, each in order. */
  lemma HeldChunks(size: nat, m: nat, rank: nat, q: nat)
    requires rank < size && q < 2 * m
    ensures Held(size, m, rank, q) / m == if q < m then rank else 2 * size - 1 - rank
    ensures Held(size, m, rank, q) % m == if q < m then q else q - m
  {
    if q < m {
      DivMod(rank, m, q);
    } else {
      DivMod(2 * size - 1 - rank, m, q - m);
    }
  }

  /** Every position of the sequence is held by exactly one rank, at exactly one place of its slice. */
  lemma EveryPositionHeldOnce(size: nat, m: nat, p: nat)
    requires m > 0 && p < 2 * size * m
    ensures var (r, q) := Holder(size, m, p); r < size && q < 2 * m && Held(size, m, r, q) == p
    ensures forall r: nat, q: nat :: r < size && q < 2 * m && Held(size, m, r, q) == p ==> (r, q) == Holder(size, m, p)
  {
    HolderHolds(size, m, p);
    forall r: nat, q: nat | r < size && q < 2 * m && Held(size, m, r, q) == p
      ensures (r, q) == Holder(size, m, p)
    {
      OnlyHolder(size, m, r, q);
    }
  }

  lemma HeldInRange(size: nat, m: nat, rank: nat, q: nat)
    requires rank < size && q < 2 * m
    ensures Held(size, m, rank, q) < 2 * size * m
  {
    if q < m {
      FlatInRange(1, 2 * size, m, 0, rank, q);
    } else {
      FlatInRange(1, 2 * size, m, 0, 2 * size - 1 - rank, q - m);
    }
  }

  /** Causal work of the first `n` positions of a slice: position p attends to p + 1 positions. */
  function Work(size: nat, m: nat, rank: nat, n: nat): nat
    requires rank < size
  {
    if n == 0 then 0 else Work(size, m, rank, n - 1) + Held(size, m, rank, n - 1) + 1
  }

  /** `x` is where the rank's first chunk starts. */
  lemma {:induction false} FirstChunkWork(size: nat, m: nat, rank: nat, x: nat, n: nat)
    requires rank < size && x == rank * m && n <= m
    ensures 2 * Work(size, m, rank, n) == n * (2 * x + n + 1)
  {
    if n > 0 {
      FirstChunkWork(size, m, rank, x, n - 1);
      assert (n - 1) * (2 * x + n) + 2 * (x + n - 1) + 2 == n * (2 * x + n + 1);
    }
  }

  /** `y` is where its second chunk starts. */
  lemma {:induction false} SecondChunkWork(size: nat, m: nat, rank: nat, y: nat, n: nat)
    requires rank < size && y == (2 * size - 1 - rank) * m && n <= m
    ensures 2 * Work(size, m, rank, m + n) == 2 * Work(size, m, rank, m) + n * (2 * y + n + 1)
  {
    if n > 0 {
      SecondChunkWork(size, m, rank, y, n - 1);
      assert m + n - 1 >= m;
      assert (n - 1) * (2 * y + n) + 2 * (y + n - 1) + 2 == n * (2 * y + n + 1);
    }
  }

  lemma ChunksTogether(m: nat, x: nat, y: nat, s: nat)
    requires x + y + m == s
    ensures m * (2 * x + m + 1) + m * (2 * y + m + 1) == 2 * (m * (s + 1))
  {
  }

  lemma ChunkStarts(size: nat, m: nat, rank: nat)
    requires rank < size
    ensures rank * m + (2 * size - 1 - rank) * m + m == 2 * size * m
  {
    assert (rank + (2 * size - 1 - rank) + 1) * m == rank * m + (2 * size - 1 - rank) * m + m;
  }

  lemma WorkOfChunks(size: nat, m: nat, rank: nat, x: nat, y: nat, s: nat)
    requires rank < size && x == rank * m && y == (2 * size - 1 - rank) * m && x + y + m == s
    ensures Work(size, m, rank, 2 * m) == m * (s + 1)
  {
    FirstChunkWork(size, m, rank, x, m);
    SecondChunkWork(size, m, rank, y, m);
    ChunksTogether(m, x, y, s);
  }

  /** Every rank does the same causal work, its share of the whole triangle. */
  lemma WorkIsBalanced(size: nat, m: nat, rank: nat)
    requires rank < size
    ensures Work(size, m, rank, 2 * m) == m * (2 * size * m + 1)
  {
    ChunkStarts(size, m, rank);
    WorkOfChunks(size, m, rank, rank * m, (2 * size - 1 - rank) * m, 2 * size * m);
  }

  // ----- A batch -----

  function SequenceAxis(key: string): nat {
    if key != "attention_mask" then 1 else 2
  }

  predicate AllWellShaped<T(!new)>(entries: map<string, Option<Tensor<T>>>) {
    forall k :: k in entries && entries[k].Some? ==> WellShaped(entries[k].value)
  }

  function SlicedEntry<T>(key: string, entry: Option<Tensor<T>>, size: nat, rank: nat): Option<Tensor<T>>
    requires rank < size
  {
    if entry.None? then None else Slice(entry.value, SequenceAxis(key), size, rank)
  }

  /** The entry is absent or its sequence divides into chunks. */
  ghost predicate EntryOk<T>(key: string, entry: Option<Tensor<T>>, size: nat)
    requires size > 0
  {
    entry.Some? ==> Sliceable(entry.value, SequenceAxis(key), size)
  }

  lemma EntryOkIff<T>(key: string, entry: Option<Tensor<T>>, size: nat, rank: nat)
    requires rank < size && entry.Some? && WellShaped(entry.value)
    ensures SlicedEntry(key, entry, size, rank).Some? <==> EntryOk(key, entry, size)
  {
    SliceSucceedsIff(entry.value, SequenceAxis(key), size, rank);
  }

  /** The attention mask is sliced along its third axis, every other entry along its second. */
  lemma EntryShape<T>(key: string, t: Tensor<T>, size: nat, rank: nat)
    requires rank < size && SlicedEntry(key, Some(t), size, rank).Some?
    ensures var axis := if key == "attention_mask" then 2 else 1;
            && axis < |t.shape|
            && SlicedEntry(key, Some(t), size, rank).value.shape == t.shape[axis := 2 * ChunkSize(t.shape[axis], size)]
  {
    SliceShape(t, SequenceAxis(key), size, rank);
  }

  /** The entries before the n-th are sliced and the rest are as before. */
  ghost predicate SlicedUpTo<T>(before: map<string, Option<Tensor<T>>>, after: map<string, Option<Tensor<T>>>,
                                order: seq<string>, n: nat, size: nat, rank: nat)
    requires rank < size
  {
    && n <= |order| && after.Keys == before.Keys && (forall i :: 0 <= i < |order| ==> order[i] in before)
    && (forall i :: 0 <= i < n ==> EntryOk(order[i], before[order[i]], size))
    && (forall i :: 0 <= i < n ==> after[order[i]] == SlicedEntry(order[i], before[order[i]], size, rank))
    && (forall i :: n <= i < |order| ==> after[order[i]] == before[order[i]])
  }

  lemma SlicedOneMore<T>(before: map<string, Option<Tensor<T>>>, after: map<string, Option<Tensor<T>>>,
                         order: seq<string>, n: nat, size: nat, rank: nat)
    requires rank < size && n < |order| && SlicedUpTo(before, after, order, n, size, rank)
    requires forall i, j :: 0 <= i < j < |order| ==> order[i] != order[j]
    requires EntryOk(order[n], before[order[n]], size)
    ensures SlicedUpTo(before, after[order[n] := SlicedEntry(order[n], after[order[n]], size, rank)], order, n + 1, size, rank)
  {
  }

  class Batch<T(!new)> {
    var entries: map<string, Option<Tensor<T>>>

    /** Slices the entries in the dictionary's order, stopping at the first the library refuses. */
    method OnThisRank(size: nat, rank: nat, order: seq<string>) returns (ok: bool, ghost stop: nat)
      requires AllWellShaped(entries) && (size > 1 ==> rank < size)
      requires forall k :: k in order <==> k in entries
      requires forall i, j :: 0 <= i < j < |order| ==> order[i] != order[j]
      modifies this
      ensures size <= 1 ==> ok && entries == old(entries)
      ensures size > 1 ==> SlicedUpTo(old(entries), entries, order, stop, size, rank) && ok == (stop == |order|)
      ensures !ok ==> !EntryOk(order[stop], old(entries)[order[stop]], size)
    {
      if size <= 1 {
        return true, 0;
      }
      for n := 0 to |order|
        invariant SlicedUpTo(old(entries), entries, order, n, size, rank)
      {
        var key := order[n];
        assert key in order;
        if entries[key].Some? {
          EntryOkIff(key, entries[key], size, rank);
          var sliced := SlicedEntry(key, entries[key], size, rank);
          if sliced.None? {
            return false, n;
          }
          SlicedOneMore(old(entries), entries, order, n, size, rank);
          entries := entries[key := sliced];
        }
      }
      return true, |order|;
    }
  }
}
