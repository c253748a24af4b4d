/** Attention masks and position ids for rows of packed documents.

    A row holds several documents, each closed by an end-of-document token.  The masks start as plain
    causal masks and the positions as 0, 1, 2, ...; loops over the end-of-document tokens then cut them
    in place. */
module DocumentMask {

  // ----- What the masks and positions mean -----

  /** Query `q` sees key `k`: `k` is not later, and no document ends between them. */
  ghost predicate Visible(row: seq<int>, eod: int, q: nat, k: nat)
    requires q < |row|
  {
    k <= q && forall i :: k <= i < q ==> row[i] != eod
  }

  /** First position of the document that holds position `q`. */
  function DocumentStart(row: seq<int>, eod: int, q: nat): (s: nat)
    requires q <= |row|
    ensures s <= q
  {
    if q == 0 then 0 else if row[q - 1] == eod then q else DocumentStart(row, eod, q - 1)
  }

  /** Seeing a key and sharing its document are the same. */
  lemma {:induction false} VisibleIffSameDocument(row: seq<int>, eod: int, q: nat, k: nat)
    requires q < |row|
    ensures Visible(row, eod, q, k) <==> DocumentStart(row, eod, q) <= k <= q
    decreases q
  {
    if q > 0 && row[q - 1] != eod && k < q {
      VisibleIffSameDocument(row, eod, q - 1, k);
      assert Visible(row, eod, q, k) <==> Visible(row, eod, q - 1, k);
    } else if q > 0 && row[q - 1] == eod && k < q {
      assert k <= q - 1 < q;
    }
  }

  ghost function VisibleKeys(row: seq<int>, eod: int, q: nat): set<nat>
    requires q < |row|
  {
    set k: nat | k <= q && Visible(row, eod, q, k)
  }

  ghost function Range(lo: nat, hi: nat): (r: set<nat>)
    ensures forall k :: k in r <==> lo <= k < hi
    ensures lo <= hi ==> |r| == hi - lo
  {
    if lo >= hi then {} else Range(lo, hi - 1) + {hi - 1}
  }

  /** With both resets on, a query's position plus one is the number of keys it sees. */
  lemma PositionCountsVisibleKeys(row: seq<int>, eod: int, q: nat)
    requires q < |row|
    ensures q - DocumentStart(row, eod, q) + 1 == |VisibleKeys(row, eod, q)|
  {
    var s := DocumentStart(row, eod, q);
    forall k: nat ensures k in VisibleKeys(row, eod, q) <==> k in Range(s, q + 1) {
      VisibleIffSameDocument(row, eod, q, k);
    }
    assert VisibleKeys(row, eod, q) == Range(s, q + 1);
  }

  // ----- The end-of-document indices -----

  /** The indices of the end-of-document tokens below `n`, in order. */
  ghost predicate EodsBelow(row: seq<int>, eod: int, n: nat, eods: seq<nat>)
    requires n <= |row|
  {
    && (forall j :: 0 <= j < |eods| ==> eods[j] < n && row[eods[j]] == eod)
    && (forall i, j :: 0 <= i < j < |eods| ==> eods[i] < eods[j])
    && (forall i :: 0 <= i < n && row[i] == eod ==> i in eods)
  }

  ghost function Row(data: array2<int>, b: nat): (row: seq<int>)
    requires b < data.Length0
    reads data
    ensures |row| == data.Length1 && forall i :: 0 <= i < |row| ==> row[i] == data[b, i]
  {
    seq(data.Length1, i requires 0 <= i < data.Length1 reads data => data[b, i])
  }

  /** `position_ids[b, data[b] == eod_token]` while the positions still are the indices. */
  method FindEods(data: array2<int>, b: nat, eod: int) returns (eods: seq<nat>)
    requires b < data.Length0
    ensures EodsBelow(Row(data, b), eod, data.Length1, eods)
  {
    eods := [];
    ghost var row := Row(data, b);
    for i := 0 to data.Length1
      invariant EodsBelow(row, eod, i, eods)
    {
      if data[b, i] == eod {
        eods := eods + [i];
      }
    }
  }

  // ----- Positions -----

  /** The start of the document of `q` as far as the first `j` end-of-document tokens tell. */
  ghost predicate PositionsCut(row: seq<int>, eod: int, cut: nat, q: nat, p: int)
    requires q < |row| && cut <= |row|
  {
    p == if q < cut then q - DocumentStart(row, eod, q) else q - cut
  }

  /** No document ends from the last cut up to the next end-of-document token. */
  lemma {:induction false} StartIsCut(row: seq<int>, eod: int, cut: nat, q: nat)
    requires cut <= q <= |row| && (cut == 0 || row[cut - 1] == eod)
    requires forall i :: cut <= i < q ==> row[i] != eod
    ensures DocumentStart(row, eod, q) == cut
    decreases q
  {
    if q > cut {
      StartIsCut(row, eod, cut, q - 1);
    }
  }

  /** Where the first `j` end-of-document tokens leave the last cut. */
  ghost function CutAfter(eods: seq<nat>, j: nat): nat
    requires j <= |eods|
  {
    if j == 0 then 0 else eods[j - 1] + 1
  }

  lemma BetweenCuts(row: seq<int>, eod: int, eods: seq<nat>, j: nat, q: nat)
    requires EodsBelow(row, eod, |row|, eods) && j <= |eods|
    requires CutAfter(eods, j) <= q <= if j < |eods| then eods[j] else |row|
    ensures DocumentStart(row, eod, q) == CutAfter(eods, j)
  {
    forall m | 0 <= m < |eods| ensures !(CutAfter(eods, j) <= eods[m] < q) {
      assert m < j ==> eods[m] <= eods[j - 1];
    }
    forall i | CutAfter(eods, j) <= i < q ensures row[i] != eod {
    }
    StartIsCut(row, eod, CutAfter(eods, j), q);
  }

  /** The loop over the end-of-document tokens for one row of `position_ids`. */
  method ResetPositions(data: array2<int>, pos: array2<int>, b: nat, eod: int, eods: seq<nat>)
    requires b < data.Length0 == pos.Length0 && data.Length1 == pos.Length1 && data != pos
    requires EodsBelow(Row(data, b), eod, data.Length1, eods)
    requires forall q :: 0 <= q < pos.Length1 ==> pos[b, q] == q
    modifies pos
    ensures forall q :: 0 <= q < pos.Length1 ==> pos[b, q] == q - DocumentStart(Row(data, b), eod, q)
    ensures forall c, q :: 0 <= c < pos.Length0 && c != b && 0 <= q < pos.Length1 ==> pos[c, q] == old(pos[c, q])
  {
    var n := pos.Length1;
    ghost var row := Row(data, b);
    var prev := 0;
    for j := 0 to |eods|
      invariant prev == CutAfter(eods, j) <= n
      invariant forall q :: 0 <= q < n ==> PositionsCut(row, eod, prev, q, pos[b, q])
      invariant forall c, q :: 0 <= c < pos.Length0 && c != b && 0 <= q < n ==> pos[c, q] == old(pos[c, q])
    {
      var i := eods[j];
      assert j > 0 ==> eods[j - 1] < i;
      forall q | prev <= q <= i ensures DocumentStart(row, eod, q) == prev {
        BetweenCuts(row, eod, eods, j, q);
      }
      forall q | i + 1 <= q < n {
        pos[b, q] := pos[b, q] - (i + 1 - prev);
      }
      prev := i + 1;
    }
    forall q | prev <= q < n ensures DocumentStart(row, eod, q) == prev {
      BetweenCuts(row, eod, eods, |eods|, q);
    }
  }

  // ----- Masks -----

  /** Query `q` sees key `k` as far as the given end-of-document tokens tell. */
  ghost predicate VisibleAfter(eods: seq<nat>, q: nat, k: nat) {
    k <= q && forall j :: 0 <= j < |eods| ==> !(k <= eods[j] < q)
  }

  lemma AllEodsDecide(row: seq<int>, eod: int, eods: seq<nat>, q: nat, k: nat)
    requires EodsBelow(row, eod, |row|, eods) && q < |row|
    ensures VisibleAfter(eods, q, k) <==> Visible(row, eod, q, k)
  {
    if VisibleAfter(eods, q, k) {
      forall i | k <= i < q ensures row[i] != eod {
      }
    }
  }

  /** The loop over the end-of-document tokens for one matrix of `attention_mask`. */
  method ResetMask(mask: array3<real>, b: nat, eods: seq<nat>)
    requires b < mask.Length0 && mask.Length1 == mask.Length2
    requires forall j :: 0 <= j < |eods| ==> eods[j] < mask.Length1
    requires forall q, k :: 0 <= q < mask.Length1 && 0 <= k < mask.Length2 ==> mask[b, q, k] == if k <= q then 1.0 else 0.0
    modifies mask
    ensures forall q, k :: 0 <= q < mask.Length1 && 0 <= k < mask.Length2 ==>
              mask[b, q, k] == if VisibleAfter(eods, q, k) then 1.0 else 0.0
    ensures forall c, q, k :: 0 <= c < mask.Length0 && c != b && 0 <= q < mask.Length1 && 0 <= k < mask.Length2 ==>
              mask[c, q, k] == old(mask[c, q, k])
  {
    var n := mask.Length1;
    for j := 0 to |eods|
      invariant forall q, k :: 0 <= q < n && 0 <= k < n ==> mask[b, q, k] == if VisibleAfter(eods[..j], q, k) then 1.0 else 0.0
      invariant forall c, q, k :: 0 <= c < mask.Length0 && c != b && 0 <= q < n && 0 <= k < n ==> mask[c, q, k] == old(mask[c, q, k])
    {
      var i := eods[j];
      forall q, k | i + 1 <= q < n && 0 <= k < i + 1 {
        mask[b, q, k] := 0.0;
      }
      forall q: nat, k: nat ensures VisibleAfter(eods[..j + 1], q, k) <==> VisibleAfter(eods[..j], q, k) && !(k <= i < q) {
        VisibleAfterAppend(eods, j, q, k);
      }
    }
    assert eods[..|eods|] == eods;
  }

  lemma VisibleAfterAppend(eods: seq<nat>, j: nat, q: nat, k: nat)
    requires j < |eods|
    ensures VisibleAfter(eods[..j + 1], q, k) <==> VisibleAfter(eods[..j], q, k) && !(k <= eods[j] < q)
  {
    assert eods[..j + 1] == eods[..j] + [eods[j]];
  }

  // ----- The whole batch -----

  /** The positions of row `b` are the indices, or restart with each document. */
  ghost predicate PositionsDone(row: seq<int>, eod: int, pos: array2<int>, b: nat, reset: bool)
    requires b < pos.Length0 && |row| == pos.Length1
    reads pos
  {
    forall q :: 0 <= q < pos.Length1 ==> pos[b, q] == if reset then q - DocumentStart(row, eod, q) else q
  }

  /** Matrix `b` of the mask is causal, or causal within documents. */
  ghost predicate MaskDone(row: seq<int>, eod: int, mask: array3<real>, b: nat, reset: bool)
    requires b < mask.Length0 && mask.Length1 == mask.Length2 == |row|
    reads mask
  {
    forall q, k :: 0 <= q < mask.Length1 && 0 <= k < mask.Length2 ==>
      mask[b, q, k] == if (if reset then Visible(row, eod, q, k) else k <= q) then 1.0 else 0.0
  }

  ghost function Rows(data: array2<int>): (rows: seq<seq<int>>)
    reads data
    ensures |rows| == data.Length0 && forall b :: 0 <= b < |rows| ==> rows[b] == Row(data, b)
  {
    seq(data.Length0, b requires 0 <= b < data.Length0 reads data => Row(data, b))
  }

  method ResetRow(data: array2<int>, eod: int, pos: array2<int>, mask: array3<real>, b: nat, resetPositions: bool, resetMask: bool)
    requires b < data.Length0 == pos.Length0 && data.Length1 == pos.Length1 && data != pos
    requires mask.Length1 == mask.Length2 == data.Length1 && (resetMask ==> b < mask.Length0)
    requires PositionsDone(Row(data, b), eod, pos, b, false)
    requires resetMask ==> MaskDone(Row(data, b), eod, mask, b, false)
    modifies pos, mask
    ensures PositionsDone(old(Row(data, b)), eod, pos, b, resetPositions)
    ensures resetMask ==> MaskDone(old(Row(data, b)), eod, mask, b, true)
    ensures forall c, q :: 0 <= c < pos.Length0 && c != b && 0 <= q < pos.Length1 ==> pos[c, q] == old(pos[c, q])
    ensures forall c, q, k :: 0 <= c < mask.Length0 && (c != b || !resetMask) && 0 <= q < mask.Length1 && 0 <= k < mask.Length2 ==>
              mask[c, q, k] == old(mask[c, q, k])
  {
    ghost var row := Row(data, b);
    var eods := FindEods(data, b, eod);
    if resetMask {
      ResetMask(mask, b, eods);
      forall q: nat, k: nat | q < |row| ensures VisibleAfter(eods, q, k) <==> Visible(row, eod, q, k) {
        AllEodsDecide(row, eod, eods, q, k);
      }
    }
    assert Row(data, b) == row;
    if resetPositions {
      ResetPositions(data, pos, b, eod, eods);
      assert Row(data, b) == row;
    }
  }

  /** The loop over the rows of the batch. */
  method ResetRows(data: array2<int>, eod: int, pos: array2<int>, mask: array3<real>, resetPositions: bool, resetMask: bool, ghost rows: seq<seq<int>>)
    requires rows == Rows(data)
    requires data.Length0 == pos.Length0 && data.Length1 == pos.Length1 && data != pos
    requires mask.Length1 == mask.Length2 == data.Length1 && (resetMask ==> mask.Length0 == data.Length0)
    requires forall b :: 0 <= b < |rows| ==> PositionsDone(rows[b], eod, pos, b, false)
    requires resetMask ==> forall b :: 0 <= b < |rows| ==> MaskDone(rows[b], eod, mask, b, false)
    modifies pos, mask
    ensures forall b :: 0 <= b < |rows| ==> PositionsDone(rows[b], eod, pos, b, resetPositions)
    ensures resetMask ==> forall b :: 0 <= b < |rows| ==> MaskDone(rows[b], eod, mask, b, true)
    ensures !resetMask ==> forall b, q, k :: 0 <= b < mask.Length0 && 0 <= q < mask.Length1 && 0 <= k < mask.Length2 ==>
              mask[b, q, k] == old(mask[b, q, k])
  {
    for b := 0 to data.Length0
      invariant forall c :: 0 <= c < b ==> PositionsDone(rows[c], eod, pos, c, resetPositions)
      invariant forall c :: b <= c < data.Length0 ==> PositionsDone(rows[c], eod, pos, c, false)
      invariant resetMask ==> forall c :: 0 <= c < b ==> MaskDone(rows[c], eod, mask, c, true)
      invariant resetMask ==> forall c :: b <= c < data.Length0 ==> MaskDone(rows[c], eod, mask, c, false)
      invariant !resetMask ==> forall c, q, k :: 0 <= c < mask.Length0 && 0 <= q < mask.Length1 && 0 <= k < mask.Length2 ==>
                  mask[c, q, k] == old(mask[c, q, k])
    {
      assert Row(data, b) == rows[b];
      ResetRow(data, eod, pos, mask, b, resetPositions, resetMask);
    }
  }

  /** `get_ltor_masks_and_position_ids`.  `masked` is the result mask: true where attention is blocked.
      Its first dimension is the batch only when masks are reset. */
  method LeftToRightMasks(data: array2<int>, eod: int, resetPositions: bool, resetMask: bool, eodMaskLoss: bool)
    returns (masked: array3<bool>, loss: array2<real>, pos: array2<int>)
    ensures masked.Length0 == (if resetMask then data.Length0 else 1) && masked.Length1 == masked.Length2 == data.Length1
    ensures forall b, q, k :: 0 <= b < masked.Length0 && 0 <= q < data.Length1 && 0 <= k < data.Length1 ==>
              (masked[b, q, k] <==> !(if resetMask then Visible(Rows(data)[b], eod, q, k) else k <= q))
    ensures loss.Length0 == data.Length0 && loss.Length1 == data.Length1
    ensures forall b, q :: 0 <= b < data.Length0 && 0 <= q < data.Length1 ==>
              loss[b, q] == if eodMaskLoss && data[b, q] == eod then 0.0 else 1.0
    ensures pos.Length0 == data.Length0 && pos.Length1 == data.Length1
    ensures forall b :: 0 <= b < data.Length0 ==> PositionsDone(Rows(data)[b], eod, pos, b, resetPositions)
  {
    var n := data.Length1;
    ghost var rows := Rows(data);
    loss := LossMask(data, eod, eodMaskLoss);
    pos := new int[data.Length0, n]((b, q) => q);
    var attend := new real[if resetMask then data.Length0 else 1, n, n]((b, q, k) => if k <= q then 1.0 else 0.0);
    assert Rows(data) == rows;
    if resetPositions || resetMask {
      ResetRows(data, eod, pos, attend, resetPositions, resetMask, rows);
    }
    masked := new bool[attend.Length0, n, n];
    forall b, q, k | 0 <= b < attend.Length0 && 0 <= q < n && 0 <= k < n {
      masked[b, q, k] := attend[b, q, k] < 0.5;
    }
    assert Rows(data) == rows;
    assert resetMask ==> forall b :: 0 <= b < |rows| ==> MaskDone(rows[b], eod, attend, b, true);
  }

  method LossMask(data: array2<int>, eod: int, eodMaskLoss: bool) returns (loss: array2<real>)
    ensures fresh(loss) && loss.Length0 == data.Length0 && loss.Length1 == data.Length1
    ensures forall b, q :: 0 <= b < data.Length0 && 0 <= q < data.Length1 ==>
              loss[b, q] == if eodMaskLoss && data[b, q] == eod then 0.0 else 1.0
  {
    loss := new real[data.Length0, data.Length1]((b, q) => 1.0);
    if eodMaskLoss {
      forall b, q | 0 <= b < data.Length0 && 0 <= q < data.Length1 && data[b, q] == eod {
        loss[b, q] := 0.0;
      }
    }
  }
}
