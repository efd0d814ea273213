/**
 * The SIC code column: the four `SICCode.SicText_n` cells, read in order,
 * passed through `.filter(Boolean)`, and sent as `NULL` when nothing is left.
 */
module Sic {
  import opened Wrappers
  import opened Fields

  /** `cells.filter(Boolean)`: the truthy cells' text, in their original order. */
  function Compact(cells: seq<Option<string>>): (r: seq<string>)
    ensures |r| <= |cells|
    ensures forall j :: 0 <= j < |r| ==> r[j] != ""
  {
    if cells == [] then []
    else if Truthy(cells[0]) then [cells[0].value] + Compact(cells[1..])
    else Compact(cells[1..])
  }

  /**
   * The positions at or after `from` of the truthy cells, in increasing
   * order. Each listed position holds a truthy cell; that every truthy cell
   * is listed is `TruthyIndicesComplete`.
   */
  function TruthyIndicesFrom(cells: seq<Option<string>>, from: nat): (idx: seq<nat>)
    requires from <= |cells|
    ensures forall j :: 0 <= j < |idx| ==> from <= idx[j] < |cells| && Truthy(cells[idx[j]])
    ensures forall j, l :: 0 <= j < l < |idx| ==> idx[j] < idx[l]
    decreases |cells| - from
  {
    if from == |cells| then []
    else if Truthy(cells[from]) then [from] + TruthyIndicesFrom(cells, from + 1)
    else TruthyIndicesFrom(cells, from + 1)
  }

  /** Every truthy cell at or after `from` is listed by `TruthyIndicesFrom`. */
  lemma {:induction false} TruthyIndicesComplete(cells: seq<Option<string>>, from: nat, i: nat)
    requires from <= i < |cells| && Truthy(cells[i])
    ensures i in TruthyIndicesFrom(cells, from)
    decreases |cells| - from
  {
    if from < i {
      TruthyIndicesComplete(cells, from + 1, i);
    }
  }

  /** The positions of all truthy cells, in increasing order. */
  function TruthyIndices(cells: seq<Option<string>>): seq<nat>
  {
    TruthyIndicesFrom(cells, 0)
  }

  /**
   * `.filter(Boolean)` keeps the truthy cells and nothing else, in order:
   * the j-th element of the filtered suffix is the text of the j-th truthy
   * cell of that suffix.
   */
  lemma {:induction false} CompactEnumeratesTruthyCellsFrom(cells: seq<Option<string>>, from: nat)
    requires from <= |cells|
    ensures |Compact(cells[from..])| == |TruthyIndicesFrom(cells, from)|
    ensures forall j :: 0 <= j < |Compact(cells[from..])| ==>
      Compact(cells[from..])[j] == cells[TruthyIndicesFrom(cells, from)[j]].value
    decreases |cells| - from
  {
    if from < |cells| {
      var suffix := cells[from..];
      assert suffix[1..] == cells[from + 1..];
      assert suffix[0] == cells[from];
      CompactEnumeratesTruthyCellsFrom(cells, from + 1);
      var rest := Compact(cells[from + 1..]);
      var restIdx := TruthyIndicesFrom(cells, from + 1);
      if Truthy(cells[from]) {
        assert Compact(suffix) == [cells[from].value] + rest;
        assert TruthyIndicesFrom(cells, from) == [from] + restIdx;
        forall j | 1 <= j < |Compact(suffix)|
          ensures Compact(suffix)[j] == cells[TruthyIndicesFrom(cells, from)[j]].value
        {
          assert Compact(suffix)[j] == rest[j - 1];
          assert TruthyIndicesFrom(cells, from)[j] == restIdx[j - 1];
        }
      } else {
        assert Compact(suffix) == rest;
        assert TruthyIndicesFrom(cells, from) == restIdx;
      }
    }
  }

  /** The whole-sequence case: the j-th kept text is the j-th truthy cell's. */
  lemma CompactEnumeratesTruthyCells(cells: seq<Option<string>>)
    ensures |Compact(cells)| == |TruthyIndices(cells)|
    ensures forall j :: 0 <= j < |Compact(cells)| ==>
      Compact(cells)[j] == cells[TruthyIndices(cells)[j]].value
  {
    CompactEnumeratesTruthyCellsFrom(cells, 0);
    assert cells[0..] == cells;
  }

  /** The filter leaves nothing exactly when every cell is falsy. */
  lemma {:induction false} CompactEmptyIff(cells: seq<Option<string>>)
    ensures Compact(cells) == [] <==> forall i :: 0 <= i < |cells| ==> !Truthy(cells[i])
  {
    if cells != [] {
      CompactEmptyIff(cells[1..]);
      if Truthy(cells[0]) {
        assert Compact(cells)[0] == cells[0].value;
      } else {
        forall i | 1 <= i < |cells|
          ensures Truthy(cells[i]) <==> Truthy(cells[1..][i - 1])
        {
        }
      }
    }
  }

  /** The headers of the four SIC cells, in column order. */
  const SicHeaders: seq<string> := [SicText1, SicText2, SicText3, SicText4]

  /** The four SIC cells of a row, in column order. */
  function SicCells(row: Row): (cells: seq<Option<string>>)
    ensures |cells| == 4
    ensures forall n :: 0 <= n < 4 ==> cells[n] == Lookup(row, SicHeaders[n])
  {
    seq(4, n requires 0 <= n < 4 => Lookup(row, SicHeaders[n]))
  }

  /** `sicArray`: the non-blank SIC cells in column order; at most four, none empty. */
  function SicCodes(row: Row): (codes: seq<string>)
    ensures |codes| <= 4
    ensures forall j :: 0 <= j < |codes| ==> codes[j] != ""
  {
    Compact(SicCells(row))
  }

  /**
   * `sicArray.length ? sicArray : null`: `NULL` exactly when all four cells
   * are blank, and otherwise the non-empty filtered sequence.
   */
  function SicColumn(row: Row): (c: Option<seq<string>>)
    ensures c.None? <==> forall n :: 0 <= n < 4 ==> Blank(row, SicHeaders[n])
    ensures c.Some? ==> c.value == SicCodes(row) && |c.value| > 0
  {
    var codes := SicCodes(row);
    CompactEmptyIff(SicCells(row));
    assert forall n :: 0 <= n < 4 ==> (Blank(row, SicHeaders[n]) <==> !Truthy(SicCells(row)[n]));
    if |codes| > 0 then Some(codes) else None
  }

  /**
   * `sicArray` is the subsequence of the four SIC cells with the blank ones
   * removed: its j-th code is the text of the j-th non-blank cell, and those
   * cells are taken in increasing column order.
   */
  lemma SicCodesAreNonBlankCellsInOrder(row: Row)
    ensures var idx := TruthyIndices(SicCells(row));
      && |SicCodes(row)| == |idx|
      && (forall j :: 0 <= j < |idx| ==> idx[j] < 4 && !Blank(row, SicHeaders[idx[j]]))
      && (forall j, l :: 0 <= j < l < |idx| ==> idx[j] < idx[l])
      && (forall n :: 0 <= n < 4 && !Blank(row, SicHeaders[n]) ==> n in idx)
      && (forall j :: 0 <= j < |idx| ==> SicCodes(row)[j] == row[SicHeaders[idx[j]]])
  {
    var cells := SicCells(row);
    CompactEnumeratesTruthyCells(cells);
    forall n | 0 <= n < 4 && Truthy(cells[n])
      ensures n in TruthyIndices(cells)
    {
      TruthyIndicesComplete(cells, 0, n);
    }
  }
}
