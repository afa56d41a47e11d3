/**
 * The worklog report as downloaded: a header row naming the columns, then one
 * row per worklog. `ParseCsv` turns it into records, one per data row, by
 * looking every required column up by its name in the header.
 * Tokenising the text into rows is done by the CSV library and is not modelled:
 * the input is the sequence of already-split rows.
 */
module Report {
  import opened Wrappers

  const StartTimeKey: string := "Start Time"
  const TimeSpentKey: string := "Time Spent (s)"
  const WorklogDescriptionKey: string := "Worklog Description"
  const IssueNumberKey: string := "Issue Key"
  const IssueTitleKey: string := "Issue Summary"

  /** The required columns, in the order they are looked up. */
  const Keys: seq<string> := [StartTimeKey, TimeSpentKey, WorklogDescriptionKey, IssueNumberKey, IssueTitleKey]

  type Row = seq<string>

  /** One worklog: the value of every required column, by column name. */
  type Record = map<string, string>

  /** Column name to its position in the header row. */
  type ColumnIndex = map<string, nat>

  datatype ParseError =
    | EmptyReport              // no header row at all
    | MissingColumn(name: string)  // a required column is not named in the header
    | ShortRow(line: nat)      // the row at this position has no cell for some required column

  /** The position of the first occurrence of `x` in `s` (a list's `index`). */
  function IndexOf(s: seq<string>, x: string): (i: nat)
    requires x in s
    ensures i < |s| && s[i] == x
    ensures forall j | 0 <= j < i :: s[j] != x
  {
    if s[0] == x then 0 else 1 + IndexOf(s[1..], x)
  }

  /** Every required column is named in the header. */
  predicate HasColumns(header: Row) {
    forall k | k in Keys :: k in header
  }

  /** `name` is the first required column, in lookup order, that the header lacks. */
  predicate IsFirstMissing(header: Row, name: string) {
    name in Keys && name !in header && forall i | 0 <= i < IndexOf(Keys, name) :: Keys[i] in header
  }

  /** The column index the header describes. */
  function Columns(header: Row): ColumnIndex
    requires HasColumns(header)
  {
    map k | k in Keys :: IndexOf(header, k)
  }

  /** A record has exactly the required columns as its keys. */
  predicate IsRecord(rec: Record) {
    (forall k | k in rec :: k in Keys) && (forall k | k in Keys :: k in rec)
  }

  /** The row has a cell at the position of every required column. */
  predicate Covers(header: Row, row: Row)
    requires HasColumns(header)
  {
    forall k | k in Keys :: IndexOf(header, k) < |row|
  }

  /** `rec` holds, for each required column, the row's cell under that column's first header occurrence. */
  predicate IsProjection(header: Row, row: Row, rec: Record)
    requires HasColumns(header)
  {
    && Covers(header, row)
    && IsRecord(rec)
    && forall k | k in Keys :: rec[k] == row[IndexOf(header, k)]
  }

  /** Looks up the position of every required column in the header. */
  method IndexColumns(header: Row) returns (r: Result<ColumnIndex, ParseError>)
    ensures r.Success? <==> HasColumns(header)
    ensures r.Success? ==> r.value == Columns(header)
    ensures r.Failure? ==> r.error.MissingColumn? && IsFirstMissing(header, r.error.name)
  {
    var index: ColumnIndex := map[];
    var j := 0;
    while j < |Keys|
      invariant 0 <= j <= |Keys|
      invariant forall i | 0 <= i < j :: Keys[i] in header
      invariant forall k :: k in index <==> k in Keys[..j]
      invariant forall k | k in index :: k in header && index[k] == IndexOf(header, k)
    {
      var key := Keys[j];
      if key !in header {
        assert IndexOf(Keys, key) == j;
        return Failure(MissingColumn(key));
      }
      index := index[key := IndexOf(header, key)];
      j := j + 1;
    }
    assert Keys[..j] == Keys;
    return Success(index);
  }

  /** Builds the record of one data row from the column index. */
  method ProjectRow(row: Row, index: ColumnIndex) returns (r: Option<Record>)
    requires forall k | k in Keys :: k in index
    ensures r.Some? <==> forall k | k in Keys :: index[k] < |row|
    ensures r.Some? ==> IsRecord(r.value) && forall k | k in Keys :: r.value[k] == row[index[k]]
  {
    var rec: Record := map[];
    var j := 0;
    while j < |Keys|
      invariant 0 <= j <= |Keys|
      invariant forall i | 0 <= i < j :: index[Keys[i]] < |row|
      invariant forall k :: k in rec <==> k in Keys[..j]
      invariant forall k | k in rec :: k in index && index[k] < |row| && rec[k] == row[index[k]]
    {
      var key := Keys[j];
      if index[key] >= |row| {
        return None;
      }
      rec := rec[key := row[index[key]]];
      j := j + 1;
    }
    assert Keys[..j] == Keys;
    return Some(rec);
  }

  /** The whole report: header row first, then one record per data row, in row order. */
  method ParseCsv(rows: seq<Row>) returns (r: Result<seq<Record>, ParseError>)
    ensures rows == [] ==> r == Failure(EmptyReport)
    ensures rows != [] && !HasColumns(rows[0]) ==> r.Failure? && r.error.MissingColumn? && IsFirstMissing(rows[0], r.error.name)
    ensures r.Success? <==> rows != [] && HasColumns(rows[0]) && forall n | 1 <= n < |rows| :: Covers(rows[0], rows[n])
    ensures r.Success? ==> |r.value| == |rows| - 1 && forall n | 0 <= n < |r.value| :: IsProjection(rows[0], rows[n + 1], r.value[n])
    ensures rows != [] && HasColumns(rows[0]) && r.Failure? ==>
      && r.error.ShortRow?
      && 1 <= r.error.line < |rows| && !Covers(rows[0], rows[r.error.line])
      && forall n | 1 <= n < r.error.line :: Covers(rows[0], rows[n])
  {
    if rows == [] {
      return Failure(EmptyReport);
    }
    var header := rows[0];
    var columns := IndexColumns(header);
    if columns.Failure? {
      assert !HasColumns(header);
      return Failure(columns.error);
    }
    var index := columns.value;
    var events: seq<Record> := [];
    var n := 1;
    while n < |rows|
      invariant 1 <= n <= |rows|
      invariant |events| == n - 1
      invariant forall m | 1 <= m < n :: Covers(header, rows[m])
      invariant forall m | 0 <= m < |events| :: IsProjection(header, rows[m + 1], events[m])
    {
      var event := ProjectRow(rows[n], index);
      ProjectRowMeaning(header, rows[n], event);
      if event.None? {
        return Failure(ShortRow(n));
      }
      events := events + [event.value];
      n := n + 1;
    }
    return Success(events);
  }

  /** What `ProjectRow` returns, restated through the header the column index was built from. */
  lemma ProjectRowMeaning(header: Row, row: Row, event: Option<Record>)
    requires HasColumns(header)
    requires event.Some? <==> forall k | k in Keys :: Columns(header)[k] < |row|
    requires event.Some? ==> IsRecord(event.value) && forall k | k in Keys :: event.value[k] == row[Columns(header)[k]]
    ensures event.Some? <==> Covers(header, row)
    ensures event.Some? ==> IsProjection(header, row, event.value)
  {
  }

  /** Appending columns to the header does not move a required column. */
  lemma {:induction false} IndexOfAppend(s: seq<string>, extra: seq<string>, x: string)
    requires x in s
    ensures IndexOf(s + extra, x) == IndexOf(s, x)
  {
    if s[0] != x {
      assert (s + extra)[1..] == s[1..] + extra;
      IndexOfAppend(s[1..], extra, x);
    }
  }

  /** Extra columns after the recognised ones change no record. */
  lemma ExtraColumnsIgnored(header: Row, row: Row, extraNames: Row, extraCells: Row, rec: Record)
    requires HasColumns(header) && |row| == |header|
    ensures HasColumns(header + extraNames)
    ensures IsProjection(header + extraNames, row + extraCells, rec) <==> IsProjection(header, row, rec)
  {
    forall k | k in Keys
      ensures IndexOf(header + extraNames, k) == IndexOf(header, k)
    {
      IndexOfAppend(header, extraNames, k);
    }
  }
}
