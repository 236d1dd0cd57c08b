/** The row logic of the CSV import: the `complete` callback of `parseCSV`, which picks the key and
    data columns of each parsed row, trims them and keeps the rows with both, and
    `csvRowsToContent`, which folds the kept rows into a content map. */
module CsvParser {
  import opened Wrappers
  import opened Seqs
  import opened Text

  /** A row as the CSV library hands it over: the optional `key`, `Key`, `data` and `Data`
      columns. */
  datatype CsvRow = CsvRow(
    key: Option<string>,
    capitalKey: Option<string>,
    data: Option<string>,
    capitalData: Option<string>)

  datatype ParsedRow = ParsedRow(key: string, value: string)

  const NoRowsError: string := "CSV must contain \"Key\" and \"Data\" columns with at least one row of data"

  /** `lower || upper || ''`: the first non-empty column, else the empty string. */
  function Pick(lower: Option<string>, upper: Option<string>): string
  {
    if lower.Some? && lower.value != "" then lower.value
    else if upper.Some? && upper.value != "" then upper.value
    else ""
  }

  function RowKey(row: CsvRow): string
  {
    Trim(Pick(row.key, row.capitalKey))
  }

  function RowValue(row: CsvRow): string
  {
    Trim(Pick(row.data, row.capitalData))
  }

  /** The parsed row a CSV row gives, when its trimmed key and value are both non-empty. */
  function RowOf(row: CsvRow): Option<ParsedRow>
  {
    var key := RowKey(row);
    var value := RowValue(row);
    if key != "" && value != "" then Some(ParsedRow(key, value)) else None
  }

  /** The result of the `complete` callback: the kept rows in input order, or the fixed error
      when none is kept. */
  function ParsedRows(rows: seq<CsvRow>): Result<seq<ParsedRow>, string>
  {
    var kept := FilterMap(rows, RowOf);
    if kept == [] then Err(NoRowsError) else Ok(kept)
  }

  /** The loop of the `complete` callback and its final check. */
  method ParseRows(rows: seq<CsvRow>) returns (r: Result<seq<ParsedRow>, string>)
    ensures r == ParsedRows(rows)
  {
    var kept: seq<ParsedRow> := [];
    var i := 0;
    while i < |rows|
      invariant 0 <= i <= |rows|
      invariant kept == FilterMap(rows[..i], RowOf)
    {
      assert rows[..i + 1] == rows[..i] + [rows[i]];
      FilterMapSnoc(rows[..i], rows[i], RowOf);
      var key := Trim(Pick(rows[i].key, rows[i].capitalKey));
      var value := Trim(Pick(rows[i].data, rows[i].capitalData));
      if key != "" && value != "" {
        kept := kept + [ParsedRow(key, value)];
      }
      i := i + 1;
    }
    assert rows[..i] == rows;
    if |kept| == 0 {
      return Err(NoRowsError);
    }
    return Ok(kept);
  }

  /** The lower-case column wins whenever it is non-empty, even when it holds only whitespace. */
  lemma LowerColumnWins(row: CsvRow)
    requires row.key.Some? && row.key.value != ""
    requires row.data.Some? && row.data.value != ""
    ensures RowKey(row) == Trim(row.key.value) && RowValue(row) == Trim(row.data.value)
  {
  }

  /** A non-empty, whitespace-only `key` column shadows the `Key` column whatever it holds, and
      the row is dropped. */
  lemma WhitespaceKeyDropsRow(row: CsvRow)
    requires row.key.Some? && row.key.value != ""
    requires forall k :: 0 <= k < |row.key.value| ==> IsSpace(row.key.value[k])
    ensures RowKey(row) == "" && RowOf(row) == None
  {
    var s := row.key.value;
    TrimSpec(s);
  }

  /** Every kept key and value is non-empty and has no whitespace at either end. */
  lemma KeptRowsAreClean(rows: seq<CsvRow>)
    ensures forall p | p in FilterMap(rows, RowOf) ::
              p.key != "" && p.value != "" && IsTrimmed(p.key) && IsTrimmed(p.value)
  {
    forall p | p in FilterMap(rows, RowOf)
      ensures p.key != "" && p.value != "" && IsTrimmed(p.key) && IsTrimmed(p.value)
    {
      FilterMapMember(rows, RowOf, p);
      var i :| 0 <= i < |rows| && RowOf(rows[i]) == Some(p);
      TrimSpec(Pick(rows[i].key, rows[i].capitalKey));
      TrimSpec(Pick(rows[i].data, rows[i].capitalData));
    }
  }

  /** Rows are kept in input order: row `i`, when kept, sits after the rows kept before it. */
  lemma KeptRowsInOrder(rows: seq<CsvRow>, i: nat)
    requires i < |rows| && RowOf(rows[i]).Some?
    ensures |FilterMap(rows[..i], RowOf)| < |FilterMap(rows, RowOf)|
    ensures FilterMap(rows, RowOf)[|FilterMap(rows[..i], RowOf)|] == ParsedRow(RowKey(rows[i]), RowValue(rows[i]))
  {
    FilterMapAt(rows, RowOf, i);
  }

  /** The import is refused exactly when no row has both a key and a value. */
  lemma {:induction false} RefusedIffNothingKept(rows: seq<CsvRow>)
    ensures ParsedRows(rows).Err? <==> forall i | 0 <= i < |rows| :: RowKey(rows[i]) == "" || RowValue(rows[i]) == ""
    ensures ParsedRows(rows).Err? ==> ParsedRows(rows).error == NoRowsError
    decreases |rows|
  {
    if rows != [] {
      var prefix := rows[..|rows| - 1];
      RefusedIffNothingKept(prefix);
      FilterMapSnoc(prefix, rows[|rows| - 1], RowOf);
      assert rows == prefix + [rows[|rows| - 1]];
      if ParsedRows(rows).Err? {
        forall i | 0 <= i < |rows| ensures RowKey(rows[i]) == "" || RowValue(rows[i]) == "" {
          if i < |rows| - 1 {
            assert rows[i] == prefix[i];
          }
        }
      } else if forall i | 0 <= i < |rows| :: RowKey(rows[i]) == "" || RowValue(rows[i]) == "" {
        forall i | 0 <= i < |prefix| ensures RowKey(prefix[i]) == "" || RowValue(prefix[i]) == "" {
          assert prefix[i] == rows[i];
        }
      }
    }
  }

  /** `csvRowsToContent(rows)`: later rows overwrite earlier ones. */
  function Content(rows: seq<ParsedRow>): map<string, string>
  {
    if rows == [] then map[] else Content(rows[..|rows| - 1])[rows[|rows| - 1].key := rows[|rows| - 1].value]
  }

  method CsvRowsToContent(rows: seq<ParsedRow>) returns (content: map<string, string>)
    ensures content == Content(rows)
  {
    content := map[];
    var i := 0;
    while i < |rows|
      invariant 0 <= i <= |rows|
      invariant content == Content(rows[..i])
    {
      assert rows[..i + 1][..i] == rows[..i];
      content := content[rows[i].key := rows[i].value];
      i := i + 1;
    }
    assert rows[..i] == rows;
  }

  /** The content's keys are exactly the rows' keys, and each key holds the value of its last
      row; no rows give the empty map. */
  lemma {:induction false} ContentSpec(rows: seq<ParsedRow>)
    ensures Content(rows).Keys == set r | r in rows :: r.key
    ensures forall i | 0 <= i < |rows| && (forall j | i < j < |rows| :: rows[j].key != rows[i].key) ::
              Content(rows)[rows[i].key] == rows[i].value
    ensures rows == [] ==> Content(rows) == map[]
    decreases |rows|
  {
    if rows != [] {
      var prefix := rows[..|rows| - 1];
      var last := rows[|rows| - 1];
      ContentSpec(prefix);
      assert rows == prefix + [last];
      forall i | 0 <= i < |rows| && (forall j | i < j < |rows| :: rows[j].key != rows[i].key)
        ensures Content(rows)[rows[i].key] == rows[i].value
      {
        if i < |rows| - 1 {
          assert rows[i] == prefix[i];
          forall j | i < j < |prefix| ensures prefix[j].key != prefix[i].key {
            assert prefix[j] == rows[j];
          }
        }
      }
    }
  }
}
