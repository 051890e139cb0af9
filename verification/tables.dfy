/** The table the anonymizer works on, and the errors its steps report. */
module Tables {

  datatype Option<T> = None | Some(value: T)

  datatype Result<T> = Success(value: T) | Failure(error: Error)

  /** How a run of the anonymizer ends: completed, or stopped by an error. */
  datatype Outcome = Done | Failed(error: Error)

  datatype Error =
    | NoFileUploaded                 // the "No file uploaded!" message box
    | InvalidK                       // k entry that does not parse as an integer
    | MissingEpsilon(column: string) // epsilon dialog closed without a value: a KeyError
    | NotNumeric(column: string)     // noise asked for on a text column
    | ZeroEpsilon                    // a zero epsilon: a division by zero or an infinite scale
    | NegativeScale                  // numpy refuses a negative Laplace scale
    | NoGroupKeys                    // grouping by an empty list of columns
    | DuplicateGroupColumn           // a grouping column listed twice: reset_index cannot insert it again
    | ColumnNotFound(column: string) // grouping by a column the table lacks
    | NotText(column: string)        // grouping or redacting a numeric column

  /** One column of values, aligned by row index. */
  datatype Column = Numbers(xs: seq<real>) | Strings(ss: seq<string>)

  function Length(c: Column): nat
  {
    match c
    case Numbers(xs) => |xs|
    case Strings(ss) => |ss|
  }

  /** A data frame: its column names in order, the column of each name, and the row count. */
  datatype Table = Table(columns: seq<string>, cells: map<string, Column>, rows: nat)

  predicate Distinct(names: seq<string>)
  {
    forall i, j :: 0 <= i < j < |names| ==> names[i] != names[j]
  }

  /** Column names are unique, each names a column, and every column has one value per row. */
  ghost predicate WellFormed(t: Table)
  {
    && Distinct(t.columns)
    && (forall c :: c in t.cells <==> c in t.columns)
    && (forall c :: c in t.cells ==> Length(t.cells[c]) == t.rows)
  }

  /** Assignment `df[name] = col` to an existing column. */
  function WithColumn(t: Table, name: string, col: Column): (r: Table)
    requires WellFormed(t) && name in t.cells && Length(col) == t.rows
    ensures WellFormed(r) && r.columns == t.columns && r.rows == t.rows
    ensures r.cells == t.cells[name := col]
  {
    t.(cells := t.cells[name := col])
  }
}
