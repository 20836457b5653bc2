/**
 * A worksheet as the checklist code sees it: rows numbered from 1, cells
 * numbered from 1, each cell empty or holding the text of its value.
 * Reading outside the stored rows or cells gives an empty cell; writing
 * there first grows the sheet, as `getRow(i).getCell(j)` does.
 */
module Sheets {
  import opened Options

  type Cell = Option<string>

  /** Row `r` is `rows[r - 1]`; cell `c` of a row is `row[c - 1]`. */
  datatype Sheet = Sheet(rows: seq<seq<Cell>>)

  function Max(a: nat, b: nat): nat {
    if a >= b then a else b
  }

  /** `rowCount`: the number of the last row; no row below it holds a value. */
  function RowCount(s: Sheet): (n: nat)
    ensures forall r, c :: r > n ==> Get(s, r, c) == None
  {
    |s.rows|
  }

  /** A row with at least one non-empty cell. */
  predicate HasValues(row: seq<Cell>) {
    exists c :: 0 <= c < |row| && row[c].Some?
  }

  /** The cell count a row contributes to `columnCount`: rows without values are skipped. */
  function Width(row: seq<Cell>): nat {
    if HasValues(row) then |row| else 0
  }

  function MaxWidth(rows: seq<seq<Cell>>): (w: nat)
    ensures forall r :: 0 <= r < |rows| ==> Width(rows[r]) <= w
    ensures |rows| == 0 ==> w == 0
    ensures |rows| > 0 ==> exists r :: 0 <= r < |rows| && Width(rows[r]) == w
  {
    if |rows| == 0 then 0
    else
      var w := MaxWidth(rows[..|rows| - 1]);
      assert forall r :: 0 <= r < |rows| - 1 ==> rows[r] == rows[..|rows| - 1][r];
      Max(Width(rows[|rows| - 1]), w)
  }

  /** `getRow(r).getCell(c).value`: only the stored cells of the stored rows hold values. */
  function Get(s: Sheet, r: int, c: int): (cell: Cell)
    ensures cell.Some? ==> 1 <= r <= |s.rows| && 1 <= c
  {
    if 1 <= r <= |s.rows| && 1 <= c <= |s.rows[r - 1]| then s.rows[r - 1][c - 1] else None
  }

  /** No cell right of the widest row with values holds a value. */
  lemma NothingBeyondWidth(s: Sheet)
    ensures forall r, c :: c > MaxWidth(s.rows) ==> Get(s, r, c) == None
  {
    forall r, c | c > MaxWidth(s.rows)
      ensures Get(s, r, c) == None
    {
      if 1 <= r <= |s.rows| && 1 <= c <= |s.rows[r - 1]| {
        var row := s.rows[r - 1];
        assert Width(row) <= MaxWidth(s.rows);
        if row[c - 1].Some? {
          assert HasValues(row);
        }
      }
    }
  }

  /** A positive width comes from a row that holds a value. */
  lemma WidthHasValue(s: Sheet)
    requires MaxWidth(s.rows) > 0
    ensures exists r, c :: Get(s, r, c).Some?
  {
    var i :| 0 <= i < |s.rows| && Width(s.rows[i]) == MaxWidth(s.rows);
    assert HasValues(s.rows[i]);
    var j :| 0 <= j < |s.rows[i]| && s.rows[i][j].Some?;
    assert Get(s, i + 1, j + 1).Some?;
  }

  /**
   * `columnCount`: the largest cell count of any row that has values. No
   * cell to its right holds a value, and it is 0 exactly when no cell does.
   */
  function ColumnCount(s: Sheet): (n: nat)
    ensures forall r, c :: c > n ==> Get(s, r, c) == None
    ensures n == 0 <==> forall r, c :: Get(s, r, c) == None
  {
    NothingBeyondWidth(s);
    if MaxWidth(s.rows) > 0 then WidthHasValue(s); MaxWidth(s.rows) else 0
  }

  /** `getRow(r).getCell(c).value = v`: that cell changes and no other. */
  function Set(s: Sheet, r: nat, c: nat, v: string): (s': Sheet)
    requires r >= 1 && c >= 1
    ensures Get(s', r, c) == Some(v)
    ensures forall r', c' :: (r' != r || c' != c) ==> Get(s', r', c') == Get(s, r', c')
    ensures RowCount(s') == Max(RowCount(s), r)
  {
    var rows := if |s.rows| >= r then s.rows else s.rows + seq(r - |s.rows|, _ => []);
    var old_row := rows[r - 1];
    var row := if |old_row| >= c then old_row else old_row + seq(c - |old_row|, _ => None);
    Sheet(rows[r - 1 := row[c - 1 := Some(v)]])
  }

}
