/** Rows and tables of the data frame, the Python exceptions the core can
    raise, and the row-wise `df.apply(..., axis=1)`. */
module Rows {
  import opened Wrappers
  import opened PipedValues

  /** One record: column name to cell text (a pandas Series of `str`). */
  type Row = map<string, string>

  /** The data frame, one row per record, in file order. */
  type Table = seq<Row>

  /** The exceptions the modelled code raises. */
  datatype Error =
    | MaskArgumentError   // ValueError: exactly one of mask_column / mask_value is a str
    | MalformedChunk      // ValueError: a chunk has a function without kwargs, or the reverse
    | KeyError(key: string)
    | IndexError
    | TypeError

  /** `row[column]`. */
  function Get(row: Row, column: string): (r: Result<string, Error>)
    ensures r.Success? <==> column in row
    ensures r.Success? ==> r.value == row[column]
    ensures r.Failure? ==> r.error == KeyError(column)
  {
    if column in row then Success(row[column]) else Failure(KeyError(column))
  }

  /** `row[column].split('|')[i]`. */
  function PieceOf(row: Row, column: string, i: nat): (r: Result<string, Error>)
    ensures column !in row ==> r == Failure(KeyError(column))
    ensures column in row ==> (r.Success? <==> i < |Split(row[column])|)
    ensures r.Success? ==> column in row && r.value == Split(row[column])[i]
    ensures column in row && r.Failure? ==> r.error == IndexError
  {
    var cell :- Get(row, column);
    match Piece(cell, i)
    case Some(p) => Success(p)
    case None => Failure(IndexError)
  }

  /** `df.apply(f, axis=1)`: every row through `f`, in order; the first row
      that raises aborts the whole pass with that exception. */
  function ApplyRows(table: Table, f: Row -> Result<Row, Error>): (r: Result<Table, Error>)
    ensures r.Success? <==> forall j :: 0 <= j < |table| ==> f(table[j]).Success?
    ensures r.Success? ==> |r.value| == |table|
    ensures r.Success? ==> forall j :: 0 <= j < |table| ==> r.value[j] == f(table[j]).value
    ensures r.Failure? ==>
      exists j :: 0 <= j < |table| && f(table[j]) == Failure(r.error) && (forall l :: 0 <= l < j ==> f(table[l]).Success?)
    decreases |table|
  {
    if |table| == 0 then Success([])
    else
      var first :- f(table[0]);
      var rest := ApplyRows(table[1..], f);
      if rest.Failure? then
        var j :| 0 <= j < |table| - 1 && f(table[1..][j]) == Failure(rest.error)
          && forall l :: 0 <= l < j ==> f(table[1..][l]).Success?;
        assert forall l :: 0 <= l < j + 1 ==> f(table[l]).Success? by {
          forall l | 0 <= l < j + 1 ensures f(table[l]).Success? {
            if l > 0 { assert table[l] == table[1..][l - 1]; }
          }
        }
        Failure(rest.error)
      else
        Success([first] + rest.value)
  }

  /** `df[column]` as a list of cells; a row without the column raises `KeyError`. */
  function Column(table: Table, column: string): (r: Result<seq<string>, Error>)
    ensures r.Success? <==> forall j :: 0 <= j < |table| ==> column in table[j]
    ensures r.Success? ==> |r.value| == |table|
    ensures r.Success? ==> forall j :: 0 <= j < |table| ==> r.value[j] == table[j][column]
    ensures r.Failure? ==> r.error == KeyError(column)
    decreases |table|
  {
    if |table| == 0 then Success([])
    else
      var first :- Get(table[0], column);
      var rest :- Column(table[1..], column);
      Success([first] + rest)
  }
}
