/**
 * Normalising and sorting the table read from the CSV file: missing cells
 * become "", a "Nombre completo" column is added as the sort key, and the
 * rows are reordered by that key.
 */
module Table {
  import opened Strings
  import opened Columns
  import opened Contacts

  /** A cell as the CSV reader hands it over: a string, or missing (NaN). */
  datatype Cell = Str(s: string) | Missing

  type RawRow = map<string, Cell>

  datatype RawTable = RawTable(columns: seq<string>, rows: seq<RawRow>)

  datatype Table = Table(columns: seq<string>, rows: seq<Row>)

  /** Every row has a cell for each column and for nothing else. */
  ghost predicate RawWellFormed(t: RawTable) {
    forall i, c :: 0 <= i < |t.rows| ==> (c in t.rows[i] <==> c in t.columns)
  }

  ghost predicate WellFormed(t: Table) {
    forall i, c :: 0 <= i < |t.rows| ==> (c in t.rows[i] <==> c in t.columns)
  }

  function CellText(cell: Cell): string {
    match cell
    case Str(s) => s
    case Missing => ""
  }

  function FillRow(r: RawRow): (r': Row)
    ensures r'.Keys == r.Keys
  {
    map c | c in r :: CellText(r[c])
  }

  /** fillna(""): each cell keeps its string, and each missing cell becomes "". */
  function FillNa(t: RawTable): (r: Table)
    requires RawWellFormed(t)
    ensures WellFormed(r)
    ensures r.columns == t.columns && |r.rows| == |t.rows|
    ensures forall i :: 0 <= i < |t.rows| ==> r.rows[i].Keys == t.rows[i].Keys
    ensures forall i, c :: 0 <= i < |t.rows| && c in t.rows[i] ==>
      c in r.rows[i] && r.rows[i][c] == (if t.rows[i][c].Missing? then "" else t.rows[i][c].s)
  {
    Table(t.columns, seq(|t.rows|, i requires 0 <= i < |t.rows| => FillRow(t.rows[i])))
  }

  /** The sort key: first name and last name, each stripped, around one space. */
  function SortKey(row: Row): string
    requires FIRST_NAME in row && LAST_NAME in row
  {
    Strip(row[FIRST_NAME]) + " " + Strip(row[LAST_NAME])
  }

  /**
   * Where the drawn name and the sort key differ. With an empty first name the
   * key keeps its leading space (so it sorts before names that start with a
   * letter) while the drawn name has none; blanks at the end of the first name
   * are stripped from the key but stay inside the drawn name.
   */
  lemma EmptyFirstName(row: Row)
    requires FIRST_NAME in row && LAST_NAME in row
    requires row[FIRST_NAME] == "" && row[LAST_NAME] != "" && Trimmed(row[LAST_NAME])
    ensures SortKey(row) == " " + row[LAST_NAME]
    ensures NameLine(row) == row[LAST_NAME]
  {
    var last := row[LAST_NAME];
    StripTrimmed(last);
    StripTrimmed("");
    assert " " + last == [' '] + last;
    assert StripLeft(" " + last) == last;
    StripTrimmed(last);
  }

  lemma TrailingBlankInFirstName(row: Row, first: string)
    requires FIRST_NAME in row && LAST_NAME in row
    requires first != "" && Trimmed(first) && row[FIRST_NAME] == first + " "
    requires row[LAST_NAME] != "" && Trimmed(row[LAST_NAME])
    ensures SortKey(row) == first + " " + row[LAST_NAME]
    ensures NameLine(row) == first + "  " + row[LAST_NAME]
  {
    var last := row[LAST_NAME];
    StripTrimmed(last);
    var s := first + " ";
    assert StripLeft(s) == s by {
      assert s[0] == first[0];
    }
    assert s[..|s| - 1] == first;
    assert StripRight(s) == StripRight(first);
    StripTrimmed(first);
    var n := first + " " + " " + last;
    assert n == first + "  " + last;
    assert n[0] == first[0] && n[|n| - 1] == last[|last| - 1];
    StripTrimmed(n);
  }

  /**
   * df["Nombre completo"] = ...: every row gets its sort key under FULL_NAME;
   * the column is appended, or overwritten in place when the file already has it.
   */
  function AddFullName(t: Table): (r: Table)
    requires WellFormed(t)
    requires FIRST_NAME in t.columns && LAST_NAME in t.columns
    ensures WellFormed(r) && FULL_NAME in r.columns
    ensures r.columns == if FULL_NAME in t.columns then t.columns else t.columns + [FULL_NAME]
    ensures |r.rows| == |t.rows|
    ensures forall i :: 0 <= i < |t.rows| ==> r.rows[i] == t.rows[i][FULL_NAME := SortKey(t.rows[i])]
  {
    var columns := if FULL_NAME in t.columns then t.columns else t.columns + [FULL_NAME];
    var keys := seq(|t.rows|, i requires 0 <= i < |t.rows| => SortKey(t.rows[i]));
    var rows := SetKeys(t.rows, keys);
    KeyColumnWellFormed(t, columns, keys);
    Table(columns, rows)
  }

  /** Each row with FULL_NAME set to its own key. */
  function SetKeys(rows: seq<Row>, keys: seq<string>): (r: seq<Row>)
    requires |keys| == |rows|
    ensures |r| == |rows|
    ensures forall i :: 0 <= i < |rows| ==> r[i] == rows[i][FULL_NAME := keys[i]]
  {
    seq(|rows|, i requires 0 <= i < |rows| => rows[i][FULL_NAME := keys[i]])
  }

  /** Setting FULL_NAME in every row of a well-formed table, and listing it as a column, keeps the table well formed. */
  lemma KeyColumnWellFormed(t: Table, columns: seq<string>, keys: seq<string>)
    requires WellFormed(t)
    requires columns == if FULL_NAME in t.columns then t.columns else t.columns + [FULL_NAME]
    requires |keys| == |t.rows|
    ensures WellFormed(Table(columns, SetKeys(t.rows, keys)))
  {
    var rows := SetKeys(t.rows, keys);
    forall i, c | 0 <= i < |rows|
      ensures c in rows[i] <==> c in columns
    {
      assert c in rows[i] <==> c in t.rows[i] || c == FULL_NAME;
    }
  }

  predicate Keyed(rows: seq<Row>) {
    forall i :: 0 <= i < |rows| ==> FULL_NAME in rows[i]
  }

  /** The rows are in ascending order of their sort keys. */
  predicate SortedByKey(rows: seq<Row>)
    requires Keyed(rows)
  {
    forall i, j :: 0 <= i < j < |rows| ==> StrLe(rows[i][FULL_NAME], rows[j][FULL_NAME])
  }

  /** Putting `row` at position j keeps a sorted list sorted when j is where its key belongs. */
  lemma InsertSorted(s: seq<Row>, j: int, row: Row)
    requires Keyed(s) && SortedByKey(s) && FULL_NAME in row
    requires 0 <= j <= |s|
    requires forall k :: 0 <= k < j ==> StrLe(s[k][FULL_NAME], row[FULL_NAME])
    requires j < |s| ==> !StrLe(s[j][FULL_NAME], row[FULL_NAME])
    ensures Keyed(s[..j] + [row] + s[j..])
    ensures SortedByKey(s[..j] + [row] + s[j..])
  {
    var t := s[..j] + [row] + s[j..];
    var key := row[FULL_NAME];
    if j < |s| {
      StrLeTotal(s[j][FULL_NAME], key);
      forall k | j <= k < |s|
        ensures StrLe(key, s[k][FULL_NAME])
      {
        if k > j {
          StrLeTransitive(key, s[j][FULL_NAME], s[k][FULL_NAME]);
        }
      }
    }
    assert forall k :: 0 <= k < |t| ==> t[k] == if k < j then s[k] else if k == j then row else s[k - 1];
    forall a, b | 0 <= a < b < |t|
      ensures StrLe(t[a][FULL_NAME], t[b][FULL_NAME])
    {
    }
  }

  /** sort_values("Nombre completo"): the same rows, in ascending order of the key. */
  method SortByKey(rows: seq<Row>) returns (sorted: seq<Row>)
    requires Keyed(rows)
    ensures multiset(sorted) == multiset(rows)
    ensures Keyed(sorted) && SortedByKey(sorted)
  {
    sorted := [];
    for i := 0 to |rows|
      invariant multiset(sorted) == multiset(rows[..i])
      invariant Keyed(sorted) && SortedByKey(sorted)
    {
      var row := rows[i];
      var j := 0;
      while j < |sorted| && StrLe(sorted[j][FULL_NAME], row[FULL_NAME])
        invariant 0 <= j <= |sorted|
        invariant forall k :: 0 <= k < j ==> StrLe(sorted[k][FULL_NAME], row[FULL_NAME])
      {
        j := j + 1;
      }
      InsertSorted(sorted, j, row);
      assert rows[..i + 1] == rows[..i] + [row];
      assert sorted == sorted[..j] + sorted[j..];
      sorted := sorted[..j] + [row] + sorted[j..];
    }
    assert rows[..|rows|] == rows;
  }

  /** Lines 11-13 of the script: fill missing cells, add the key column, sort by it. */
  method Prepare(raw: RawTable) returns (t: Table)
    requires RawWellFormed(raw)
    requires FIRST_NAME in raw.columns && LAST_NAME in raw.columns
    ensures t.columns == AddFullName(FillNa(raw)).columns
    ensures multiset(t.rows) == multiset(AddFullName(FillNa(raw)).rows)
    ensures WellFormed(t) && Keyed(t.rows) && SortedByKey(t.rows)
  {
    var keyed := AddFullName(FillNa(raw));
    var rows := SortByKey(keyed.rows);
    t := Table(keyed.columns, rows);
    forall i, c | 0 <= i < |rows|
      ensures c in rows[i] <==> c in t.columns
    {
      assert rows[i] in multiset(keyed.rows);
    }
  }
}
