/** Reordering the rows of query/key/value matrices from older checkpoints.

    The rows of such a matrix carry three indices: the split (query, key or value), the attention head
    and the position within the head.  Checkpoints of version 0 order the rows by split, head, position,
    those of version 1 by head, position, split; the current order is head, split, position. */
module QkvReorder {

  import opened RowMajor

  // ----- The reorderings -----

  datatype Shape = Shape(splits: nat, heads: nat, width: nat)

  ghost predicate NonEmpty(s: Shape) {
    s.splits > 0 && s.heads > 0 && s.width > 0
  }

  function NumRows(s: Shape): nat {
    s.heads * s.splits * s.width
  }

  lemma NumRowsInAnyOrder(s: Shape)
    ensures NumRows(s) == s.splits * s.heads * s.width == s.heads * s.width * s.splits
  {
    assert s.heads * s.splits == s.splits * s.heads;
    assert s.heads * s.splits * s.width == s.heads * (s.splits * s.width);
    assert s.heads * s.width * s.splits == s.heads * (s.width * s.splits);
  }

  /** The row of the old matrix that becomes row `x` of the new one.  The new matrix is
      [heads, splits, width]; the old one [splits, heads, width] or [heads, width, splits]. */
  function Source(s: Shape, splitsFirst: bool, x: nat): nat
    requires s.splits > 0 && s.width > 0
  {
    var (h, p, w) := Indices(s.splits, s.width, x);
    if splitsFirst then Flat(s.heads, s.width, p, h, w) else Flat(s.width, s.splits, h, w, p)
  }

  /** The row of the new matrix that row `y` of the old one becomes. */
  function Target(s: Shape, splitsFirst: bool, y: nat): nat
    requires s.splits > 0 && s.width > 0 && s.heads > 0
  {
    if splitsFirst then
      var (p, h, w) := Indices(s.heads, s.width, y);
      Flat(s.splits, s.width, h, p, w)
    else
      var (h, w, p) := Indices(s.width, s.splits, y);
      Flat(s.splits, s.width, h, p, w)
  }

  lemma SourceTarget(s: Shape, splitsFirst: bool, x: nat)
    requires NonEmpty(s) && x < NumRows(s)
    ensures Source(s, splitsFirst, x) < NumRows(s) && Target(s, splitsFirst, Source(s, splitsFirst, x)) == x
  {
    NumRowsInAnyOrder(s);
    FlatOfIndices(s.heads, s.splits, s.width, x);
    var (h, p, w) := Indices(s.splits, s.width, x);
    if splitsFirst {
      FlatInRange(s.splits, s.heads, s.width, p, h, w);
      IndicesOfFlat(s.heads, s.width, p, h, w);
    } else {
      FlatInRange(s.heads, s.width, s.splits, h, w, p);
      IndicesOfFlat(s.width, s.splits, h, w, p);
    }
  }

  lemma TargetSource(s: Shape, splitsFirst: bool, y: nat)
    requires NonEmpty(s) && y < NumRows(s)
    ensures Target(s, splitsFirst, y) < NumRows(s) && Source(s, splitsFirst, Target(s, splitsFirst, y)) == y
  {
    NumRowsInAnyOrder(s);
    if splitsFirst {
      FlatOfIndices(s.splits, s.heads, s.width, y);
      var (p, h, w) := Indices(s.heads, s.width, y);
      FlatInRange(s.heads, s.splits, s.width, h, p, w);
      IndicesOfFlat(s.splits, s.width, h, p, w);
    } else {
      FlatOfIndices(s.heads, s.width, s.splits, y);
      var (h, w, p) := Indices(s.width, s.splits, y);
      FlatInRange(s.heads, s.splits, s.width, h, p, w);
      IndicesOfFlat(s.splits, s.width, h, p, w);
    }
  }

  /** Each reordering is a bijection on row indices. */
  lemma ReorderingIsBijection(s: Shape, splitsFirst: bool)
    requires NonEmpty(s)
    ensures forall x :: 0 <= x < NumRows(s) ==>
              0 <= Source(s, splitsFirst, x) < NumRows(s) && Target(s, splitsFirst, Source(s, splitsFirst, x)) == x
    ensures forall y :: 0 <= y < NumRows(s) ==>
              0 <= Target(s, splitsFirst, y) < NumRows(s) && Source(s, splitsFirst, Target(s, splitsFirst, y)) == y
  {
    forall x: nat | x < NumRows(s)
      ensures Source(s, splitsFirst, x) < NumRows(s) && Target(s, splitsFirst, Source(s, splitsFirst, x)) == x
    {
      SourceTarget(s, splitsFirst, x);
    }
    forall y: nat | y < NumRows(s)
      ensures Target(s, splitsFirst, y) < NumRows(s) && Source(s, splitsFirst, Target(s, splitsFirst, y)) == y
    {
      TargetSource(s, splitsFirst, y);
    }
  }

  /** `_transpose_first_dim`: view as a three-dimensional tensor, transpose, view as rows again. */
  function Reorder<T>(rows: seq<T>, s: Shape, splitsFirst: bool): (r: seq<T>)
    requires NonEmpty(s) && |rows| == NumRows(s)
    ensures |r| == |rows| && forall x :: 0 <= x < |r| ==> Source(s, splitsFirst, x) < |rows| && r[x] == rows[Source(s, splitsFirst, x)]
  {
    ReorderingIsBijection(s, splitsFirst);
    seq(|rows|, x requires 0 <= x < |rows| => rows[Source(s, splitsFirst, x)])
  }

  // ----- Both versions reorder to the same matrix -----

  /** `rows` stores the logical matrix, given by (split, head, position), in the order of version 0, of
      version 1, or in the current order. */
  ghost predicate StoresSplitFirst<T>(rows: seq<T>, s: Shape, logical: (nat, nat, nat) -> T) {
    && |rows| == NumRows(s)
    && forall p, h, w :: 0 <= p < s.splits && 0 <= h < s.heads && 0 <= w < s.width ==>
         0 <= Flat(s.heads, s.width, p, h, w) < |rows| && rows[Flat(s.heads, s.width, p, h, w)] == logical(p, h, w)
  }

  ghost predicate StoresSplitLast<T>(rows: seq<T>, s: Shape, logical: (nat, nat, nat) -> T) {
    && |rows| == NumRows(s)
    && forall p, h, w :: 0 <= p < s.splits && 0 <= h < s.heads && 0 <= w < s.width ==>
         0 <= Flat(s.width, s.splits, h, w, p) < |rows| && rows[Flat(s.width, s.splits, h, w, p)] == logical(p, h, w)
  }

  ghost predicate StoresCurrent<T>(rows: seq<T>, s: Shape, logical: (nat, nat, nat) -> T) {
    && |rows| == NumRows(s)
    && forall p, h, w :: 0 <= p < s.splits && 0 <= h < s.heads && 0 <= w < s.width ==>
         0 <= Flat(s.splits, s.width, h, p, w) < |rows| && rows[Flat(s.splits, s.width, h, p, w)] == logical(p, h, w)
  }

  lemma SourceOfCurrent(s: Shape, splitsFirst: bool, p: nat, h: nat, w: nat)
    requires p < s.splits && h < s.heads && w < s.width
    ensures Flat(s.splits, s.width, h, p, w) < NumRows(s)
    ensures Source(s, splitsFirst, Flat(s.splits, s.width, h, p, w))
            == if splitsFirst then Flat(s.heads, s.width, p, h, w) else Flat(s.width, s.splits, h, w, p)
  {
    FlatInRange(s.heads, s.splits, s.width, h, p, w);
    IndicesOfFlat(s.splits, s.width, h, p, w);
  }

  /** Either reordering brings the logical matrix into the current order. */
  lemma ReorderReachesCurrent<T>(rows: seq<T>, s: Shape, splitsFirst: bool, logical: (nat, nat, nat) -> T)
    requires NonEmpty(s)
    requires if splitsFirst then StoresSplitFirst(rows, s, logical) else StoresSplitLast(rows, s, logical)
    ensures StoresCurrent(Reorder(rows, s, splitsFirst), s, logical)
  {
    forall p, h, w | 0 <= p < s.splits && 0 <= h < s.heads && 0 <= w < s.width
      ensures 0 <= Flat(s.splits, s.width, h, p, w) < |rows|
      ensures Reorder(rows, s, splitsFirst)[Flat(s.splits, s.width, h, p, w)] == logical(p, h, w)
    {
      SourceOfCurrent(s, splitsFirst, p, h, w);
    }
  }

  lemma CurrentIsUnique<T>(a: seq<T>, b: seq<T>, s: Shape, logical: (nat, nat, nat) -> T)
    requires NonEmpty(s) && StoresCurrent(a, s, logical) && StoresCurrent(b, s, logical)
    ensures a == b
  {
    forall x | 0 <= x < |a| ensures a[x] == b[x] {
      FlatOfIndices(s.heads, s.splits, s.width, x);
    }
  }

  /** Checkpoints of both versions of one logical matrix are reordered to the same rows. */
  lemma VersionsAgree<T>(v0: seq<T>, v1: seq<T>, s: Shape, logical: (nat, nat, nat) -> T)
    requires NonEmpty(s) && StoresSplitFirst(v0, s, logical) && StoresSplitLast(v1, s, logical)
    ensures Reorder(v0, s, true) == Reorder(v1, s, false)
  {
    ReorderReachesCurrent(v0, s, true, logical);
    ReorderReachesCurrent(v1, s, false, logical);
    CurrentIsUnique(Reorder(v0, s, true), Reorder(v1, s, false), s, logical);
  }

  // ----- All parameters of a model -----

  datatype Param<T> = Param(name: string, rows: seq<T>)

  predicate EndsWith(name: string, suffix: string) {
    |suffix| <= |name| && name[|name| - |suffix|..] == suffix
  }

  predicate IsQkv(name: string) {
    EndsWith(name, ".query_key_value.weight") || EndsWith(name, ".query_key_value.bias")
  }

  predicate IsKv(name: string) {
    EndsWith(name, ".key_value.weight") || EndsWith(name, ".key_value.bias")
  }

  /** The number of splits a parameter is reordered with, if it is reordered at all. */
  function Splits(name: string): nat {
    if IsQkv(name) then 3 else if IsKv(name) then 2 else 0
  }

  lemma SuffixChar(name: string, suffix: string, i: nat)
    requires EndsWith(name, suffix) && i < |suffix|
    ensures name[|name| - |suffix| + i] == suffix[i]
  {
    assert name[|name| - |suffix|..][i] == suffix[i];
  }

  /** The characters that tell the four suffixes apart. */
  lemma SuffixTails(name: string)
    ensures EndsWith(name, ".query_key_value.weight") ==> |name| >= 17 && name[|name| - 1] == 't' && name[|name| - 17] == '_'
    ensures EndsWith(name, ".query_key_value.bias") ==> |name| >= 15 && name[|name| - 1] == 's' && name[|name| - 15] == '_'
    ensures EndsWith(name, ".key_value.weight") ==> |name| >= 17 && name[|name| - 1] == 't' && name[|name| - 17] == '.'
    ensures EndsWith(name, ".key_value.bias") ==> |name| >= 15 && name[|name| - 1] == 's' && name[|name| - 15] == '.'
  {
    if EndsWith(name, ".query_key_value.weight") {
      SuffixChar(name, ".query_key_value.weight", 6);
      SuffixChar(name, ".query_key_value.weight", 22);
    }
    if EndsWith(name, ".query_key_value.bias") {
      SuffixChar(name, ".query_key_value.bias", 6);
      SuffixChar(name, ".query_key_value.bias", 20);
    }
  }

  lemma EndsWithSuffix(prefix: string, suffix: string)
    ensures EndsWith(prefix + suffix, suffix)
  {
  }

  /** The parameters that are reordered are those with one of the four names, whatever comes before it. */
  lemma ReorderedNames(prefix: string)
    ensures Splits(prefix + ".query_key_value.weight") == Splits(prefix + ".query_key_value.bias") == 3
    ensures Splits(prefix + ".key_value.weight") == Splits(prefix + ".key_value.bias") == 2
  {
    EndsWithSuffix(prefix, ".query_key_value.weight");
    EndsWithSuffix(prefix, ".query_key_value.bias");
    EndsWithSuffix(prefix, ".key_value.weight");
    EndsWithSuffix(prefix, ".key_value.bias");
    SuffixesExclusive(prefix + ".key_value.weight");
    SuffixesExclusive(prefix + ".key_value.bias");
  }

  lemma SuffixSplits(name: string, suffix: string) returns (prefix: string)
    requires EndsWith(name, suffix)
    ensures name == prefix + suffix
  {
    prefix := name[..|name| - |suffix|];
  }

  lemma OtherNames(name: string)
    requires Splits(name) > 0
    ensures exists prefix: string, suffix: string :: name == prefix + suffix
              && suffix in {".query_key_value.weight", ".query_key_value.bias", ".key_value.weight", ".key_value.bias"}
  {
    var suffix := if EndsWith(name, ".query_key_value.weight") then ".query_key_value.weight"
                  else if EndsWith(name, ".query_key_value.bias") then ".query_key_value.bias"
                  else if EndsWith(name, ".key_value.weight") then ".key_value.weight" else ".key_value.bias";
    var prefix := SuffixSplits(name, suffix);
  }

  /** No parameter is reordered twice. */
  lemma SuffixesExclusive(name: string)
    ensures !(IsQkv(name) && IsKv(name))
  {
    SuffixTails(name);
  }

  ghost predicate Shaped<T>(p: Param<T>, heads: nat, width: nat) {
    heads > 0 && width > 0 && (Splits(p.name) > 0 ==> |p.rows| == NumRows(Shape(Splits(p.name), heads, width)))
  }

  /** What the fix makes of a parameter of a version 0 or version 1 checkpoint. */
  function Fixed<T>(p: Param<T>, heads: nat, width: nat, version: real): Param<T>
    requires Shaped(p, heads, width)
  {
    if Splits(p.name) == 0 then p
    else Param(p.name, Reorder(p.rows, Shape(Splits(p.name), heads, width), version == 0.0))
  }

  /** A query-key-value parameter of three splits, or a key-value parameter of two, stored as in its
      version of the checkpoint, is in the current order after the fix; any other parameter is unchanged. */
  lemma FixedIsCurrent<T>(p: Param<T>, heads: nat, width: nat, version: real, splits: nat, logical: (nat, nat, nat) -> T)
    requires Shaped(p, heads, width) && (version == 0.0 || version == 1.0)
    requires if IsQkv(p.name) then splits == 3 else IsKv(p.name) && splits == 2
    requires version == 0.0 ==> StoresSplitFirst(p.rows, Shape(splits, heads, width), logical)
    requires version == 1.0 ==> StoresSplitLast(p.rows, Shape(splits, heads, width), logical)
    ensures StoresCurrent(Fixed(p, heads, width, version).rows, Shape(splits, heads, width), logical)
    ensures Fixed(p, heads, width, version).name == p.name
  {
    ReorderReachesCurrent(p.rows, Shape(splits, heads, width), version == 0.0, logical);
  }

  lemma OthersUnchanged<T>(p: Param<T>, heads: nat, width: nat, version: real)
    requires Shaped(p, heads, width) && !IsQkv(p.name) && !IsKv(p.name)
    ensures Fixed(p, heads, width, version) == p
  {
  }

  /** `fix_query_key_value_ordering`, in place; `exited` when it gives up on the version. */
  method FixOrdering<T>(params: array<Param<T>>, heads: nat, width: nat, version: real) returns (exited: bool)
    requires forall i :: 0 <= i < params.Length ==> Shaped(params[i], heads, width)
    modifies params
    ensures version >= 2.0 ==> !exited && params[..] == old(params[..])
    ensures version == 0.0 || version == 1.0 ==>
              !exited && forall i :: 0 <= i < params.Length ==> params[i] == Fixed(old(params[i]), heads, width, version)
    ensures version < 2.0 && version != 0.0 && version != 1.0 ==>
              && params[..] == old(params[..])
              && (exited <==> exists i :: 0 <= i < params.Length && Splits(params[i].name) > 0)
  {
    exited := false;
    if version >= 2.0 {
      return;
    }
    for i := 0 to params.Length
      invariant version == 0.0 || version == 1.0 ==> forall k :: 0 <= k < i ==> params[k] == Fixed(old(params[k]), heads, width, version)
      invariant forall k :: i <= k < params.Length ==> params[k] == old(params[k])
      invariant version != 0.0 && version != 1.0 ==> params[..] == old(params[..]) && forall k :: 0 <= k < i ==> Splits(params[k].name) == 0
    {
      var p := params[i];
      SuffixesExclusive(p.name);
      if IsQkv(p.name) {
        if version != 0.0 && version != 1.0 {
          return true;
        }
        params[i] := Param(p.name, Reorder(p.rows, Shape(3, heads, width), version == 0.0));
      }
      if IsKv(p.name) {
        if version != 0.0 && version != 1.0 {
          return true;
        }
        params[i] := Param(p.name, Reorder(p.rows, Shape(2, heads, width), version == 0.0));
      }
    }
  }
}
