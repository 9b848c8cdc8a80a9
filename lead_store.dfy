/**
 * The append-only lead log `contacts.csv`. A row is kept as its list of
 * fields; how Python's csv module quotes them on disk is not modelled.
 */
module LeadStore {

  type Row = seq<string>

  /** The column order of every row, written once as the first row. */
  const Header: Row := ["timestamp", "name", "company", "email", "phone", "city", "service", "message"]

  /** The log file as a value: whether it exists, and its rows in order. */
  datatype LogFile = LogFile(present: bool, rows: seq<Row>)

  /** A file that does not exist has no rows. */
  predicate WellFormed(f: LogFile) {
    !f.present ==> f.rows == []
  }

  /** Start-up: create the file holding only the header, unless it exists.
      The header is written exactly when the file was absent. */
  function Initialize(f: LogFile): (r: LogFile)
    ensures r.present && WellFormed(r)
    ensures f.present ==> r == f
    ensures !f.present ==> r.rows == [Header]
  {
    if f.present then f else LogFile(true, [Header])
  }

  /** Opening in append mode creates the file when it is absent, with no
      header, and one row is written at the end. */
  function AppendRow(f: LogFile, row: Row): (r: LogFile)
    ensures r.present && WellFormed(r)
    ensures |r.rows| == |f.rows| + 1 && r.rows[..|f.rows|] == f.rows && r.rows[|f.rows|] == row
    ensures WellFormed(f) && !f.present ==> r.rows == [row]
  {
    LogFile(true, f.rows + [row])
  }

  /** A sequence of submissions, appended one after another. */
  function AppendAll(f: LogFile, rows: seq<Row>): LogFile
    decreases |rows|
  {
    if rows == [] then f else AppendAll(AppendRow(f, rows[0]), rows[1..])
  }

  /** Initializing twice is initializing once. */
  lemma InitializeIdempotent(f: LogFile)
    ensures Initialize(Initialize(f)) == Initialize(f)
  {
  }

  /** Appending adds the rows at the end and leaves the earlier ones alone. */
  lemma {:induction false} AppendAllRows(f: LogFile, rows: seq<Row>)
    ensures AppendAll(f, rows).rows == f.rows + rows
    ensures AppendAll(f, rows).present == (f.present || rows != [])
    decreases |rows|
  {
    if rows != [] {
      AppendAllRows(AppendRow(f, rows[0]), rows[1..]);
      assert f.rows + [rows[0]] + rows[1..] == f.rows + rows;
    }
  }

  /** After start-up on an absent file and N submissions the file holds
      N + 1 rows: the header, then the submissions in order. */
  lemma FreshLogAfterSubmissions(f: LogFile, rows: seq<Row>)
    requires !f.present
    ensures var g := AppendAll(Initialize(f), rows);
      && g.present && |g.rows| == |rows| + 1
      && g.rows[0] == Header && g.rows[1..] == rows
  {
    AppendAllRows(Initialize(f), rows);
  }

  /** Without start-up, submissions to an absent file leave a file holding
      just those rows: no header is ever written. */
  lemma {:induction false} NoStartupNoHeader(f: LogFile, rows: seq<Row>)
    requires WellFormed(f) && !f.present
    ensures var g := AppendAll(f, rows);
      && g.present == (rows != []) && g.rows == rows
  {
    AppendAllRows(f, rows);
  }

  /** Initializing between submissions changes nothing once the file exists. */
  lemma InitializeAfterAppend(f: LogFile, rows: seq<Row>)
    requires rows != []
    ensures Initialize(AppendAll(f, rows)) == AppendAll(f, rows)
  {
    AppendAllRows(f, rows);
  }

  /** The log file, updated in place by start-up and by each submission. */
  class LeadLog {
    var present: bool
    var rows: seq<Row>

    function State(): LogFile
      reads this
    {
      LogFile(present, rows)
    }

    ghost predicate Valid()
      reads this
    {
      WellFormed(State())
    }

    /** The file as found on disk. */
    constructor (present: bool, rows: seq<Row>)
      requires !present ==> rows == []
      ensures Valid() && State() == LogFile(present, rows)
    {
      this.present := present;
      this.rows := rows;
    }

    method EnsureInitialized()
      requires Valid()
      modifies this
      ensures Valid() && State() == Initialize(old(State()))
      ensures present
      ensures old(present) ==> rows == old(rows)
      ensures !old(present) ==> rows == [Header]
    {
      if !present {
        present := true;
        rows := [Header];
      }
    }

    method Append(row: Row)
      requires Valid()
      modifies this
      ensures Valid() && State() == AppendRow(old(State()), row)
      ensures present && rows == old(rows) + [row]
      ensures !old(present) ==> rows == [row]
    {
      present := true;
      rows := rows + [row];
    }
  }
}
