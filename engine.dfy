/**
  The values the storage engine hands out (Engine.kt): cells, the errors a
  statement can end with, and the result of a query. A Kotlin `Cell` holds
  the UTF-8 bytes of a text; here it holds the text itself.
*/
module Engine {
  import opened Wrappers
  import opened Text

  datatype StatementExecutionError =
    | TableAlreadyExistsError
    | TableDoesNotExistError
    | ColumnDoesNotExistError
    | NumberOfValuesDoesNotMatchNumberOfColumns
    | ValueTypeDoesNotMatchColumnType

  datatype Cell = Cell(text: string)

  /** `Cell.ofInt`: the decimal text of the number. */
  function OfInt(n: Int32): Cell {
    Cell(IntToDecimal(n))
  }

  /** `Cell.ofString` */
  function OfString(s: string): Cell {
    Cell(s)
  }

  /** `Cell.asText` */
  function AsText(c: Cell): string {
    c.text
  }

  /** `Cell.asInt`; `None` stands for the NumberFormatException of `toInt`. */
  function AsInt(c: Cell): (r: Option<Int32>)
    ensures r.Some? ==> IsDecimalInteger(c.text)
  {
    ParseInt(c.text)
  }

  /** An int cell reads back as its number. */
  lemma OfIntAsInt(n: Int32)
    ensures AsInt(OfInt(n)) == Some(n)
  {
    ParseIntOfDecimal(n);
  }

  /** A string cell reads back as its text. */
  lemma OfStringAsText(s: string)
    ensures AsText(OfString(s)) == s
  {
  }

  /**
    The text of an int cell is the number's decimal digits, after a `-`
    exactly when the number is negative.
  */
  lemma OfIntText(n: Int32)
    ensures var t := AsText(OfInt(n));
      && 1 <= |t|
      && (t[0] == '-' <==> n < 0)
      && AllDigits(if n < 0 then t[1..] else t)
      && ParseInt(t) == Some(n)
  {
    ParseIntOfDecimal(n);
  }

  /** A cell whose text is not a decimal integer does not read as an int. */
  lemma AsIntOfNonNumber(c: Cell)
    requires !IsDecimalInteger(c.text)
    ensures AsInt(c) == None
  {
  }

  /** `Cell.ofString("Talking to myself").asInt()` fails. */
  lemma WordsAreNotAnInt()
    ensures AsInt(OfString("Talking to myself")) == None
  {
    AsIntOfNonNumber(OfString("Talking to myself"));
  }

  /** A query's rows, each a map from field name to cell, or the error that stopped it. */
  datatype QueryResult =
    | QuerySuccess(rows: seq<map<string, Cell>>)
    | QueryFailure(error: StatementExecutionError)

  /**
    How a read of a query result fails: `rows[rowNumber]` out of range, the
    `!!` of a missing field, or `toInt` on a text that is no `Int`.
  */
  datatype ReadError = IndexOutOfBoundsException | NullPointerException | NumberFormatException

  /** `rows[rowNumber][fieldName]!!` */
  function Field(rows: seq<map<string, Cell>>, rowNumber: int, fieldName: string): (r: Result<Cell, ReadError>)
    ensures r.Success? <==> 0 <= rowNumber < |rows| && fieldName in rows[rowNumber]
    ensures r.Success? ==> r.value == rows[rowNumber][fieldName]
    ensures r.Failure? ==> (r.error == IndexOutOfBoundsException <==> !(0 <= rowNumber < |rows|))
  {
    if !(0 <= rowNumber < |rows|) then Failure(IndexOutOfBoundsException)
    else if fieldName !in rows[rowNumber] then Failure(NullPointerException)
    else Success(rows[rowNumber][fieldName])
  }

  /** `QueryResult.Success.getInt` */
  function GetInt(q: QueryResult, rowNumber: int, fieldName: string): (r: Result<Int32, ReadError>)
    requires q.QuerySuccess?
    ensures r.Success? ==> Field(q.rows, rowNumber, fieldName).Success? && AsInt(q.rows[rowNumber][fieldName]) == Some(r.value)
    ensures r.Failure? && Field(q.rows, rowNumber, fieldName).Success? ==>
      r.error == NumberFormatException && AsInt(q.rows[rowNumber][fieldName]).None?
  {
    match Field(q.rows, rowNumber, fieldName)
    case Failure(e) => Failure(e)
    case Success(cell) =>
      match AsInt(cell)
      case None => Failure(NumberFormatException)
      case Some(n) => Success(n)
  }

  /** `QueryResult.Success.getString` */
  function GetString(q: QueryResult, rowNumber: int, fieldName: string): (r: Result<string, ReadError>)
    requires q.QuerySuccess?
    ensures r.Success? ==> Field(q.rows, rowNumber, fieldName).Success? && r.value == AsText(q.rows[rowNumber][fieldName])
    ensures r.Failure? ==> r.error != NumberFormatException
  {
    match Field(q.rows, rowNumber, fieldName)
    case Failure(e) => Failure(e)
    case Success(cell) => Success(AsText(cell))
  }

  /** `QueryResult.Success.getResultSize` */
  function GetResultSize(q: QueryResult): nat
    requires q.QuerySuccess?
  {
    |q.rows|
  }

  /** A field holding an int cell reads back, through `getInt`, as its number. */
  lemma GetIntOfInt(q: QueryResult, rowNumber: int, fieldName: string, n: Int32)
    requires q.QuerySuccess? && 0 <= rowNumber < |q.rows|
    requires fieldName in q.rows[rowNumber] && q.rows[rowNumber][fieldName] == OfInt(n)
    ensures GetInt(q, rowNumber, fieldName) == Success(n)
  {
    OfIntAsInt(n);
  }

  /** A field holding a string cell reads back, through `getString`, as its text. */
  lemma GetStringOfString(q: QueryResult, rowNumber: int, fieldName: string, s: string)
    requires q.QuerySuccess? && 0 <= rowNumber < |q.rows|
    requires fieldName in q.rows[rowNumber] && q.rows[rowNumber][fieldName] == OfString(s)
    ensures GetString(q, rowNumber, fieldName) == Success(s)
  {
  }

  /** A missing row or field fails both reads alike. */
  lemma ReadsOfMissingFields(q: QueryResult, rowNumber: int, fieldName: string)
    requires q.QuerySuccess?
    requires !(0 <= rowNumber < |q.rows|) || fieldName !in q.rows[rowNumber]
    ensures GetInt(q, rowNumber, fieldName).Failure? && GetString(q, rowNumber, fieldName).Failure?
    ensures GetInt(q, rowNumber, fieldName).error == GetString(q, rowNumber, fieldName).error != NumberFormatException
  {
  }
}
