/**
 * `createChecklist` and `annotateChecklist` on the abstract worksheet:
 * building a fresh inspection sheet from records, and writing recorded
 * values and units into an existing template next to the matching part rows.
 */
module Checklist {
  import opened Options
  import opened Text
  import opened Sheets
  import opened Transcription

  /** The column headers of a new checklist, for columns 1, 2 and 3. */
  const Headers: seq<string> := ["Part Number", "Measured Value", "Unit"]

  /** `sheet.addRow(entry)` with the `part`, `measured` and `unit` keys bound to columns 1 to 3. */
  function EntryRow(e: Record): seq<Cell> {
    [Some(e.part), Some(e.measured), Some(e.unit)]
  }

  /** A new sheet: the header row, then one row per record in the given order. */
  function CreateChecklist(data: seq<Record>): (s: Sheet)
    ensures RowCount(s) == |data| + 1
    ensures forall c :: 1 <= c <= 3 ==> Get(s, 1, c) == Some(Headers[c - 1])
    ensures forall i :: 0 <= i < |data| ==>
      && Get(s, i + 2, 1) == Some(data[i].part)
      && Get(s, i + 2, 2) == Some(data[i].measured)
      && Get(s, i + 2, 3) == Some(data[i].unit)
  {
    Sheet([[Some(Headers[0]), Some(Headers[1]), Some(Headers[2])]]
      + seq(|data|, i requires 0 <= i < |data| => EntryRow(data[i])))
  }

  /** The record a data row spells out in its first three cells, if all three hold a value. */
  function RowRecord(row: seq<Cell>): Option<Record> {
    if |row| >= 3 && row[0].Some? && row[1].Some? && row[2].Some?
    then Some(Record(row[0].value, row[1].value, row[2].value))
    else None
  }

  function ReadRows(rows: seq<seq<Cell>>): seq<Record> {
    if |rows| == 0 then []
    else
      (match RowRecord(rows[0]) case Some(e) => [e] case None => [])
      + ReadRows(rows[1..])
  }

  /** Reading a checklist back: the records held by the rows below the header row. */
  function ReadRecords(s: Sheet): seq<Record> {
    if |s.rows| == 0 then [] else ReadRows(s.rows[1..])
  }

  lemma {:induction false} ReadEntryRows(data: seq<Record>)
    ensures ReadRows(seq(|data|, i requires 0 <= i < |data| => EntryRow(data[i]))) == data
  {
    var rows := seq(|data|, i requires 0 <= i < |data| => EntryRow(data[i]));
    if |data| > 0 {
      assert rows[1..] == seq(|data[1..]|, i requires 0 <= i < |data[1..]| => EntryRow(data[1..][i]));
      ReadEntryRows(data[1..]);
      assert data == [data[0]] + data[1..];
    }
  }

  /** A new checklist holds exactly the records it was built from, in order: reading it back gives them again. */
  lemma CreateReadRoundTrip(data: seq<Record>)
    ensures ReadRecords(CreateChecklist(data)) == data
  {
    var s := CreateChecklist(data);
    assert s.rows[1..] == seq(|data|, i requires 0 <= i < |data| => EntryRow(data[i]));
    ReadEntryRows(data);
  }

  /**
   * The comparison key of a part: trimmed, then lower-cased. It has no white
   * space at either end and no upper-case ASCII letter.
   */
  function Key(part: string): (k: string)
    ensures k == [] || (!IsSpace(k[0]) && !IsSpace(k[|k| - 1]))
    ensures forall i :: 0 <= i < |k| ==> !('A' <= k[i] <= 'Z')
  {
    LowerKeepsSpace(Trim(part));
    Lower(Trim(part))
  }

  /** A key is its own key. */
  lemma KeyIdempotent(part: string)
    ensures Key(Key(part)) == Key(part)
  {
    var k := Key(part);
    TrimFixed(k);
    LowerOfLower(k);
  }

  /**
   * The row-matching test: the first cell is JavaScript-truthy (present and
   * not the empty string) and its key equals the part's key. A falsy cell
   * never matches, and a cell holding exactly the non-empty part text does.
   */
  predicate KeyMatches(cell: Cell, part: string)
    ensures KeyMatches(cell, part) ==> cell.Some? && cell.value != ""
    ensures cell == Some(part) && part != "" ==> KeyMatches(cell, part)
  {
    cell.Some? && cell.value != "" && Key(cell.value) == Key(part)
  }

  /** Matching against a part or against its key is the same test. */
  lemma KeyMatchesKey(cell: Cell, part: string)
    ensures KeyMatches(cell, part) <==> KeyMatches(cell, Key(part))
  {
    KeyIdempotent(part);
  }

  /** The scan `for (let i = from; i <= rowCount; i++)` that stops at the first matching row. */
  function FindRowFrom(s: Sheet, part: string, from: nat): (r: Option<nat>)
    ensures r.Some? ==> from <= r.value <= RowCount(s) && KeyMatches(Get(s, r.value, 1), part)
    ensures r.Some? ==> forall j :: from <= j < r.value ==> !KeyMatches(Get(s, j, 1), part)
    ensures r.None? ==> forall j :: from <= j <= RowCount(s) ==> !KeyMatches(Get(s, j, 1), part)
    decreases RowCount(s) + 1 - from
  {
    if from > RowCount(s) then None
    else if KeyMatches(Get(s, from, 1), part) then Some(from)
    else FindRowFrom(s, part, from + 1)
  }

  /**
   * The first data row (row 2 on; row 1 is never compared) whose first cell
   * is truthy and equals the part, both trimmed and lower-cased.
   */
  function FirstMatchingRow(s: Sheet, part: string): (r: Option<nat>)
    ensures r.Some? ==> 2 <= r.value <= RowCount(s)
    ensures r.Some? ==> Get(s, r.value, 1).Some? && Get(s, r.value, 1).value != "" && Key(Get(s, r.value, 1).value) == Key(part)
    ensures r.Some? ==> forall j :: 2 <= j < r.value ==> !KeyMatches(Get(s, j, 1), part)
    ensures r.None? ==> forall j :: 2 <= j <= RowCount(s) ==> !KeyMatches(Get(s, j, 1), part)
  {
    FindRowFrom(s, part, 2)
  }

  /** Parts with the same key find the same row, and a found row tells the key of the part. */
  lemma FirstMatchingRowByKey(s: Sheet, p: string, q: string)
    ensures Key(p) == Key(q) ==> FirstMatchingRow(s, p) == FirstMatchingRow(s, q)
    ensures FirstMatchingRow(s, p).Some? && FirstMatchingRow(s, p) == FirstMatchingRow(s, q) ==> Key(p) == Key(q)
  {
    if Key(p) == Key(q) {
      assert forall j :: KeyMatches(Get(s, j, 1), p) == KeyMatches(Get(s, j, 1), q);
      var a, b := FirstMatchingRow(s, p), FirstMatchingRow(s, q);
      if a.Some? && b.Some? {
        assert !(a.value < b.value) && !(b.value < a.value);
      }
    }
  }

  /** The first-cell column of the data rows is the same in both sheets. */
  ghost predicate SameKeys(a: Sheet, b: Sheet) {
    forall r :: r >= 2 ==> Get(a, r, 1) == Get(b, r, 1)
  }

  /** Row matching only reads the first cells of the data rows. */
  lemma FindRowFromSameKeys(a: Sheet, b: Sheet, part: string, from: nat)
    requires SameKeys(a, b) && from >= 2
    ensures FindRowFrom(a, part, from) == FindRowFrom(b, part, from)
  {
    var x, y := FindRowFrom(a, part, from), FindRowFrom(b, part, from);
    if x.Some? {
      assert Get(b, x.value, 1) == Get(a, x.value, 1);
    }
    if y.Some? {
      assert Get(a, y.value, 1) == Get(b, y.value, 1);
    }
    if x.Some? && y.Some? {
      assert !(x.value < y.value) && !(y.value < x.value);
    }
  }

  /**
   * One entry of `data.forEach`: at the first matching row, the value goes to
   * column `col` and the unit to column `col + 1`; with no matching row the
   * sheet is returned unchanged.
   */
  function AnnotateEntry(s: Sheet, col: nat, e: Record): (s': Sheet)
    requires col >= 1
    ensures FirstMatchingRow(s, e.part).None? ==> s' == s
    ensures FirstMatchingRow(s, e.part).Some? ==>
      var r := FirstMatchingRow(s, e.part).value;
      && Get(s', r, col) == Some(e.measured)
      && Get(s', r, col + 1) == Some(e.unit)
      && forall r', c' :: (r' != r || (c' != col && c' != col + 1)) ==> Get(s', r', c') == Get(s, r', c')
    ensures RowCount(s') == RowCount(s)
  {
    match FirstMatchingRow(s, e.part)
    case None => s
    case Some(r) => Set(Set(s, r, col, e.measured), r, col + 1, e.unit)
  }

  /**
   * `data.forEach(...)`: the entries are applied in order, each to the sheet
   * the previous ones left. Row 1, the cells outside the two new columns
   * and the row count never change.
   */
  function AnnotateAll(s: Sheet, col: nat, data: seq<Record>): (s': Sheet)
    requires col >= 1
    ensures RowCount(s') == RowCount(s)
    ensures forall r, c :: (r < 2 || (c != col && c != col + 1)) ==> Get(s', r, c) == Get(s, r, c)
    decreases |data|
  {
    if |data| == 0 then s else AnnotateAll(AnnotateEntry(s, col, data[0]), col, data[1..])
  }

  /** The first step of `annotateChecklist`: the two header cells go to row 1, just right of the existing columns. */
  function Headed(s: Sheet): (h: Sheet)
    ensures Get(h, 1, ColumnCount(s) + 1) == Some("Recorded Value")
    ensures Get(h, 1, ColumnCount(s) + 2) == Some("Recorded Unit")
    ensures forall r, c :: (r != 1 || (c != ColumnCount(s) + 1 && c != ColumnCount(s) + 2)) ==> Get(h, r, c) == Get(s, r, c)
    ensures RowCount(h) == Max(RowCount(s), 1)
  {
    var col := ColumnCount(s) + 1;
    Set(Set(s, 1, col, "Recorded Value"), 1, col + 1, "Recorded Unit")
  }

  /**
   * `annotateChecklist` on the first worksheet: the header cells are
   * written, then every entry is applied in order. The headers land in
   * row 1 right of the existing columns, every original cell outside the
   * two new columns keeps its value, and no data row is added.
   */
  function AnnotateChecklist(s: Sheet, data: seq<Record>): (s': Sheet)
    ensures Get(s', 1, ColumnCount(s) + 1) == Some("Recorded Value")
    ensures Get(s', 1, ColumnCount(s) + 2) == Some("Recorded Unit")
    ensures forall r, c :: c != ColumnCount(s) + 1 && c != ColumnCount(s) + 2 ==> Get(s', r, c) == Get(s, r, c)
    ensures RowCount(s') == Max(RowCount(s), 1)
  {
    AnnotateAll(Headed(s), ColumnCount(s) + 1, data)
  }

  /**
   * The index of the last entry whose part matches row `r` of `s`, if any:
   * the entry whose value and unit the row ends up holding.
   */
  function LastWriter(s: Sheet, data: seq<Record>, r: nat): (k: Option<nat>)
    ensures k.Some? ==> k.value < |data| && FirstMatchingRow(s, data[k.value].part) == Some(r)
    ensures k.Some? ==> forall j :: k.value < j < |data| ==> FirstMatchingRow(s, data[j].part) != Some(r)
    ensures k.None? ==> forall j :: 0 <= j < |data| ==> FirstMatchingRow(s, data[j].part) != Some(r)
    decreases |data|
  {
    if |data| == 0 then None
    else
      match LastWriter(s, data[1..], r)
      case Some(k) => Some(k + 1)
      case None => if FirstMatchingRow(s, data[0].part) == Some(r) then Some(0) else None
  }

  /** The two things an entry records: its value and its unit. */
  datatype Field = Value | Unit

  function FieldOf(e: Record, f: Field): string {
    match f
    case Value => e.measured
    case Unit => e.unit
  }

  /** The column a field is written to, given the value column `col`. */
  function FieldColumn(col: nat, f: Field): nat {
    match f
    case Value => col
    case Unit => col + 1
  }

  /** What row `r` holds in a field's new column after annotation: that field of its last matching entry. */
  function Recorded(s: Sheet, data: seq<Record>, r: nat, f: Field): Cell {
    match LastWriter(s, data, r)
    case None => None
    case Some(k) => Some(FieldOf(data[k], f))
  }

  /** One entry keeps the first cells of the data rows, and finds the same row in `cur` as in `s0`. */
  lemma AnnotateEntryKeys(s0: Sheet, cur: Sheet, col: nat, e: Record)
    requires col >= 1 && SameKeys(cur, s0)
    requires col >= 2 || forall r :: Get(s0, r, 1) == None
    ensures FirstMatchingRow(cur, e.part) == FirstMatchingRow(s0, e.part)
    ensures SameKeys(AnnotateEntry(cur, col, e), s0)
  {
    FindRowFromSameKeys(cur, s0, e.part, 2);
    if FirstMatchingRow(cur, e.part).Some? {
      var r0 := FirstMatchingRow(cur, e.part).value;
      assert Get(s0, r0, 1).Some?;
      assert col >= 2;
    }
  }

  /** Applying entries to a sheet whose first cells agree with `s0` keeps those first cells. */
  lemma {:induction false} AnnotateAllKeys(s0: Sheet, cur: Sheet, col: nat, data: seq<Record>)
    requires col >= 1 && SameKeys(cur, s0)
    requires col >= 2 || forall r :: Get(s0, r, 1) == None
    ensures SameKeys(AnnotateAll(cur, col, data), s0)
    decreases |data|
  {
    if |data| > 0 {
      AnnotateEntryKeys(s0, cur, col, data[0]);
      AnnotateAllKeys(s0, AnnotateEntry(cur, col, data[0]), col, data[1..]);
    }
  }

  /**
   * Applying entries to a sheet whose first cells agree with `s0`: in each
   * data row, a field's column ends up with that field of the last entry
   * matching the row in `s0`, and keeps its old content when no entry does.
   */
  lemma {:induction false} AnnotateAllColumns(s0: Sheet, cur: Sheet, col: nat, data: seq<Record>, f: Field)
    requires col >= 1 && SameKeys(cur, s0)
    requires col >= 2 || forall r :: Get(s0, r, 1) == None
    ensures forall r: nat :: r >= 2 ==>
      Get(AnnotateAll(cur, col, data), r, FieldColumn(col, f))
        == (if LastWriter(s0, data, r).None? then Get(cur, r, FieldColumn(col, f)) else Recorded(s0, data, r, f))
    decreases |data|
  {
    if |data| > 0 {
      var e := data[0];
      var fc := FieldColumn(col, f);
      AnnotateEntryKeys(s0, cur, col, e);
      var next := AnnotateEntry(cur, col, e);
      var res := AnnotateAll(cur, col, data);
      assert res == AnnotateAll(next, col, data[1..]);
      AnnotateAllColumns(s0, next, col, data[1..], f);
      forall r: nat | r >= 2
        ensures Get(res, r, fc) == (if LastWriter(s0, data, r).None? then Get(cur, r, fc) else Recorded(s0, data, r, f))
      {
        match LastWriter(s0, data[1..], r)
        case Some(k) =>
          assert LastWriter(s0, data, r) == Some(k + 1);
          assert data[k + 1] == data[1..][k];
        case None =>
          if FirstMatchingRow(s0, e.part) == Some(r) {
            assert LastWriter(s0, data, r) == Some(0);
          } else {
            assert LastWriter(s0, data, r) == None;
          }
      }
    }
  }

  /** The headed sheet agrees with `s` on first cells, and is empty in the two new columns below row 1. */
  lemma HeadedFacts(s: Sheet)
    ensures var col := ColumnCount(s) + 1;
      && SameKeys(Headed(s), s)
      && (col >= 2 || forall r :: Get(s, r, 1) == None)
      && forall r: nat :: r >= 2 ==> Get(Headed(s), r, col) == None && Get(Headed(s), r, col + 1) == None
  {
  }

  /** In every data row, each new column of `annotateChecklist` holds that field of the row's last matching entry, or nothing. */
  lemma AnnotateChecklistColumns(s: Sheet, data: seq<Record>, f: Field)
    ensures forall r: nat :: r >= 2 ==>
      Get(AnnotateChecklist(s, data), r, FieldColumn(ColumnCount(s) + 1, f)) == Recorded(s, data, r, f)
  {
    HeadedFacts(s);
    AnnotateAllColumns(s, Headed(s), ColumnCount(s) + 1, data, f);
  }

  /**
   * What `annotateChecklist` does to a sheet with `c0` columns: row 1 gets
   * "Recorded Value" and "Recorded Unit" in columns `c0 + 1` and `c0 + 2`;
   * every data row holds, in those columns, the value and unit of the last
   * entry that matched it, or nothing; every other cell keeps its value.
   */
  lemma AnnotateChecklistSpec(s: Sheet, data: seq<Record>)
    ensures var s' := AnnotateChecklist(s, data); var c0 := ColumnCount(s);
      && Get(s', 1, c0 + 1) == Some("Recorded Value")
      && Get(s', 1, c0 + 2) == Some("Recorded Unit")
      && (forall r, c :: c != c0 + 1 && c != c0 + 2 ==> Get(s', r, c) == Get(s, r, c))
      && (forall r: nat :: r >= 2 ==> Get(s', r, c0 + 1) == Recorded(s, data, r, Value))
      && (forall r: nat :: r >= 2 ==> Get(s', r, c0 + 2) == Recorded(s, data, r, Unit))
      && RowCount(s') == Max(RowCount(s), 1)
  {
    AnnotateChecklistColumns(s, data, Value);
    AnnotateChecklistColumns(s, data, Unit);
  }

  /**
   * When several entries name the same part, the last of them wins: the row
   * that part finds holds that entry's value and unit after annotation.
   */
  lemma SamePartLastWins(s: Sheet, data: seq<Record>, j: nat)
    requires j < |data| && FirstMatchingRow(s, data[j].part).Some?
    requires forall k :: j < k < |data| ==> Key(data[k].part) != Key(data[j].part)
    ensures var r := FirstMatchingRow(s, data[j].part).value; var s' := AnnotateChecklist(s, data);
      && Get(s', r, ColumnCount(s) + 1) == Some(data[j].measured)
      && Get(s', r, ColumnCount(s) + 2) == Some(data[j].unit)
  {
    var r := FirstMatchingRow(s, data[j].part).value;
    var lw := LastWriter(s, data, r);
    assert lw.Some?;
    var k := lw.value;
    assert k == j;
    assert Recorded(s, data, r, Value) == Some(data[j].measured);
    assert Recorded(s, data, r, Unit) == Some(data[j].unit);
    AnnotateChecklistColumns(s, data, Value);
    AnnotateChecklistColumns(s, data, Unit);
    assert FieldColumn(ColumnCount(s) + 1, Unit) == ColumnCount(s) + 2;
  }

  /**
   * Applying entries from a sheet whose first cells agree with `s0`, an
   * entry that matches no row of `s0` can be removed without changing the result.
   */
  lemma {:induction false} AnnotateAllSkip(s0: Sheet, cur: Sheet, col: nat, data: seq<Record>, j: nat)
    requires col >= 1 && SameKeys(cur, s0)
    requires col >= 2 || forall r :: Get(s0, r, 1) == None
    requires j < |data| && FirstMatchingRow(s0, data[j].part).None?
    ensures AnnotateAll(cur, col, data) == AnnotateAll(cur, col, data[..j] + data[j + 1..])
    decreases j
  {
    AnnotateEntryKeys(s0, cur, col, data[0]);
    var next := AnnotateEntry(cur, col, data[0]);
    var rest := data[..j] + data[j + 1..];
    if j == 0 {
      assert rest == data[1..];
    } else {
      AnnotateAllSkip(s0, next, col, data[1..], j - 1);
      assert rest[0] == data[0];
      assert rest[1..] == data[1..][..j - 1] + data[1..][j..];
    }
  }

  /** An entry whose part matches no data row of the template is dropped without trace. */
  lemma UnmatchedEntryDropped(s: Sheet, data: seq<Record>, j: nat)
    requires j < |data| && FirstMatchingRow(s, data[j].part).None?
    ensures AnnotateChecklist(s, data) == AnnotateChecklist(s, data[..j] + data[j + 1..])
  {
    HeadedFacts(s);
    AnnotateAllSkip(s, Headed(s), ColumnCount(s) + 1, data, j);
  }

}
