/**
 * The table operations the adapters use: build a table from records,
 * rename its columns with a dict, and select a list of columns.
 */
module Frames {
  import opened Wrappers
  import opened Records

  /** A cell is None where its record lacks the column (a missing value). */
  type Cell = Option<string>

  datatype Table = Table(columns: seq<string>, rows: seq<seq<Cell>>)

  /** Why building a table fails: a selected column does not exist, or there are no columns at all. */
  datatype Error = MissingColumn(column: string) | NoColumns

  /** The table with the given header and no rows. */
  function EmptyTable(columns: seq<string>): Table {
    Table(columns, [])
  }

  /** Renaming through a dict literal: the last entry for a key wins; an unlisted column keeps its name. */
  function RenameOf(column: string, renames: seq<(string, string)>): string
    decreases |renames|
  {
    if renames == [] then column
    else if renames[|renames| - 1].0 == column then renames[|renames| - 1].1
    else RenameOf(column, renames[..|renames| - 1])
  }

  /** The first column (in column order) whose new name is `wanted`. */
  function Origin(columns: seq<string>, renames: seq<(string, string)>, wanted: string): (r: Option<string>)
    ensures r.Some? ==> r.value in columns && RenameOf(r.value, renames) == wanted
    ensures r.None? <==> forall c :: c in columns ==> RenameOf(c, renames) != wanted
    ensures r.Some? ==> (exists i :: 0 <= i < |columns| && columns[i] == r.value &&
                           forall j :: 0 <= j < i ==> RenameOf(columns[j], renames) != wanted)
    decreases |columns|
  {
    if columns == [] then None
    else if RenameOf(columns[0], renames) == wanted then Some(columns[0])
    else
      var r := Origin(columns[1..], renames, wanted);
      assert r.Some? ==> (exists i :: 0 <= i < |columns| && columns[i] == r.value &&
                            forall j :: 0 <= j < i ==> RenameOf(columns[j], renames) != wanted) by {
        if r.Some? {
          var i :| 0 <= i < |columns[1..]| && columns[1..][i] == r.value
            && forall j :: 0 <= j < i ==> RenameOf(columns[1..][j], renames) != wanted;
          assert columns[i + 1] == r.value;
          forall j | 0 <= j < i + 1 ensures RenameOf(columns[j], renames) != wanted {
            if j > 0 { assert columns[j] == columns[1..][j - 1]; }
          }
        }
      }
      r
  }

  /** For each wanted column, the column it is taken from; the first one missing is the error. */
  function Origins(columns: seq<string>, renames: seq<(string, string)>, wanted: seq<string>): (r: Result<seq<string>, Error>)
    ensures r.Ok? <==> forall w :: w in wanted ==> Origin(columns, renames, w).Some?
    ensures r.Ok? ==> (|r.value| == |wanted| &&
                         forall j :: 0 <= j < |wanted| ==> Origin(columns, renames, wanted[j]) == Some(r.value[j]))
    ensures r.Err? ==> exists w :: w in wanted && r.error == MissingColumn(w) && Origin(columns, renames, w).None?
    decreases |wanted|
  {
    if wanted == [] then Ok([])
    else
      match Origin(columns, renames, wanted[0])
      case None =>
        assert wanted[0] in wanted;
        Err(MissingColumn(wanted[0]))
      case Some(c) =>
        match Origins(columns, renames, wanted[1..])
        case Err(e) =>
          assert forall w :: w in wanted[1..] ==> w in wanted;
          Err(e)
        case Ok(cs) =>
          assert forall j :: 1 <= j < |wanted| ==> wanted[j] == wanted[1..][j - 1];
          Ok([c] + cs)
  }

  /**
   * The table built from the records, its columns renamed and then the
   * `wanted` columns selected, in that order. Selecting a column that no
   * record supplies is an error.
   */
  function RenameAndSelect(records: seq<Record>, renames: seq<(string, string)>, wanted: seq<string>): Result<Table, Error> {
    match Origins(Columns(records), renames, wanted)
    case Err(e) => Err(e)
    case Ok(sources) =>
      Ok(Table(wanted, seq(|records|, i requires 0 <= i < |records| =>
        seq(|sources|, j requires 0 <= j < |sources| => Lookup(records[i], sources[j])))))
  }

  /**
   * The selection succeeds exactly when every wanted column has a source
   * column; the result then has the wanted header, one row per record in
   * record order, and each cell is the record's value for the source column.
   */
  lemma SelectSpec(records: seq<Record>, renames: seq<(string, string)>, wanted: seq<string>)
    ensures var r := RenameAndSelect(records, renames, wanted);
      && (r.Ok? <==> forall w :: w in wanted ==> Origin(Columns(records), renames, w).Some?)
      && (r.Ok? ==> (r.value.columns == wanted && |r.value.rows| == |records| &&
                     forall i, j :: 0 <= i < |records| && 0 <= j < |wanted| ==>
                       |r.value.rows[i]| == |wanted| &&
                       r.value.rows[i][j] == Lookup(records[i], Origin(Columns(records), renames, wanted[j]).value)))
      && (r.Err? ==> exists w :: w in wanted && r.error == MissingColumn(w))
  {
  }

  /** Renaming every listed key to itself leaves every column name unchanged. */
  lemma {:induction false} RenameIdentity(renames: seq<(string, string)>, column: string)
    requires forall i :: 0 <= i < |renames| ==> renames[i].0 == renames[i].1
    ensures RenameOf(column, renames) == column
    decreases |renames|
  {
    if renames != [] && renames[|renames| - 1].0 != column {
      RenameIdentity(renames[..|renames| - 1], column);
    }
  }

  /** When every wanted column has its source, the sources are exactly those columns. */
  lemma OriginsOf(columns: seq<string>, renames: seq<(string, string)>, wanted: seq<string>, sources: seq<string>)
    requires |sources| == |wanted|
    requires forall j :: 0 <= j < |wanted| ==> Origin(columns, renames, wanted[j]) == Some(sources[j])
    ensures Origins(columns, renames, wanted) == Ok(sources)
  {
    var o := Origins(columns, renames, wanted);
    assert o.Ok? by {
      forall w | w in wanted ensures Origin(columns, renames, w).Some? {
        var j :| 0 <= j < |wanted| && wanted[j] == w;
      }
    }
    assert o.value == sources;
  }

  /** The table selected from known source columns: one row per record, one cell per source. */
  lemma SelectFrom(records: seq<Record>, renames: seq<(string, string)>, wanted: seq<string>, sources: seq<string>)
    requires Origins(Columns(records), renames, wanted) == Ok(sources)
    ensures var r := RenameAndSelect(records, renames, wanted);
      && r.Ok? && r.value.columns == wanted && |r.value.rows| == |records|
      && forall i :: 0 <= i < |records| ==>
           |r.value.rows[i]| == |sources| &&
           forall j :: 0 <= j < |sources| ==> r.value.rows[i][j] == Lookup(records[i], sources[j])
  {
  }

  /** A table with one row is determined by its header and that row. */
  lemma SingleRow(t: Table, columns: seq<string>, cells: seq<Cell>)
    requires t.columns == columns && |t.rows| == 1 && t.rows[0] == cells
    ensures t == Table(columns, [cells])
  {
    assert t.rows == [cells];
  }
}
