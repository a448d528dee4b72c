/**
  The in-memory storage engine (InMemoryEngine.kt). The engine keeps a map
  from table name to table and updates it in place; a table is a value here
  (its columns and its rows), so appending a row replaces the table in the
  map. `Creation`, `Insertion` and `Selection` state what each operation does
  to the map and returns; the methods of `InMemoryEngine` are the Kotlin
  code, each proved to follow its function.
*/
module MemoryEngine {
  import opened Wrappers
  import opened Text
  import opened Ast
  import opened Engine

  datatype Table = Table(columns: seq<ColumnDefinition>, rows: seq<seq<Cell>>)

  /** Every row of the table has one cell per column. */
  predicate RowsFit(t: Table) {
    forall i :: 0 <= i < |t.rows| ==> |t.rows[i]| == |t.columns|
  }

  predicate TablesFit(tables: map<string, Table>) {
    forall name :: name in tables ==> RowsFit(tables[name])
  }

  /**
    What `createTable` and `insertData` end with: null, an error, or the
    IllegalStateException `insertData` throws on an identifier value.
  */
  datatype Outcome = Done | Error(error: StatementExecutionError) | IllegalStateException

  // ---------------------------------------------------------------------
  // createTable
  // ---------------------------------------------------------------------

  /** `createTable`: a new name gets a table with the given columns and no rows. */
  function Creation(tables: map<string, Table>, statement: Statement): (r: (map<string, Table>, Outcome))
    requires statement.CreateTableStatement?
    ensures r.1 == Done <==> statement.name !in tables
    ensures r.1 != Done ==> r == (tables, Error(TableAlreadyExistsError))
    ensures r.1 == Done ==>
      && r.0.Keys == tables.Keys + {statement.name}
      && r.0[statement.name] == Table(statement.definitions, [])
      && forall n :: n in tables ==> r.0[n] == tables[n]
    ensures TablesFit(tables) ==> TablesFit(r.0)
  {
    if statement.name in tables then (tables, Error(TableAlreadyExistsError))
    else (tables[statement.name := Table(statement.definitions, [])], Done)
  }

  // ---------------------------------------------------------------------
  // insertData
  // ---------------------------------------------------------------------

  /** How one value goes into its column. */
  datatype CellOutcome = Fits(cell: Cell) | Mismatch | Unsupported

  function CellFor(value: Literal, column: ColumnDefinition): (r: CellOutcome)
    ensures r.Fits? <==> (value.IntLiteral? && column.columnType == INT) || (value.StringLiteral? && column.columnType == TEXT)
    ensures r == Unsupported <==> value.IdentifierLiteral?
  {
    match value
    case IntLiteral(n) => if column.columnType == INT then Fits(OfInt(n)) else Mismatch
    case StringLiteral(s) => if column.columnType == TEXT then Fits(OfString(s)) else Mismatch
    case IdentifierLiteral(_) => Unsupported
  }

  /** The row the values make, or the outcome of the first value that does not fit. */
  datatype RowOutcome = Row(cells: seq<Cell>) | RowMismatch | RowUnsupported

  function RowFor(values: seq<Literal>, columns: seq<ColumnDefinition>): (r: RowOutcome)
    requires |values| == |columns|
    ensures r.Row? ==> |r.cells| == |values|
    decreases |values|
  {
    if values == [] then Row([])
    else
      match CellFor(values[0], columns[0])
      case Mismatch => RowMismatch
      case Unsupported => RowUnsupported
      case Fits(c) =>
        var rest := RowFor(values[1..], columns[1..]);
        if rest.Row? then Row([c] + rest.cells) else rest
  }

  /**
    The values make a row exactly when each fits its column, and then each
    cell is its value's cell; otherwise the first value that does not fit
    decides between the type error and the exception.
  */
  lemma {:induction false} RowForCells(values: seq<Literal>, columns: seq<ColumnDefinition>)
    requires |values| == |columns|
    ensures var r := RowFor(values, columns);
      && (r.Row? <==> forall i :: 0 <= i < |values| ==> CellFor(values[i], columns[i]).Fits?)
      && (r.Row? ==> forall i :: 0 <= i < |values| ==> CellFor(values[i], columns[i]) == Fits(r.cells[i]))
      && (!r.Row? ==> exists i :: 0 <= i < |values| && FirstMisfit(values, columns, i)
                                  && (r == RowMismatch <==> CellFor(values[i], columns[i]) == Mismatch))
    decreases |values|
  {
    if values != [] {
      RowForCells(values[1..], columns[1..]);
      var r := RowFor(values, columns);
      var rest := RowFor(values[1..], columns[1..]);
      if !CellFor(values[0], columns[0]).Fits? {
        assert FirstMisfit(values, columns, 0);
      } else if !rest.Row? {
        var i :| 0 <= i < |values| - 1 && FirstMisfit(values[1..], columns[1..], i)
                 && (rest == RowMismatch <==> CellFor(values[1..][i], columns[1..][i]) == Mismatch);
        assert FirstMisfit(values, columns, i + 1);
      } else {
        forall i | 0 <= i < |values|
          ensures CellFor(values[i], columns[i]) == Fits(r.cells[i])
        {
          if i > 0 {
            assert values[i] == values[1..][i - 1] && columns[i] == columns[1..][i - 1];
          }
        }
      }
    }
  }

  /** Value `i` is the first that does not fit its column. */
  predicate FirstMisfit(values: seq<Literal>, columns: seq<ColumnDefinition>, i: nat)
    requires |values| == |columns| && i < |values|
  {
    !CellFor(values[i], columns[i]).Fits? && forall j :: 0 <= j < i ==> CellFor(values[j], columns[j]).Fits?
  }

  /**
    `insertData`: the named table must exist and have as many columns as
    there are values; then each value must fit its column, and the row is
    appended. Every failure leaves the tables as they were.
  */
  function Insertion(tables: map<string, Table>, statement: Statement): (r: (map<string, Table>, Outcome))
    requires statement.InsertStatement?
    ensures r.1 != Done ==> r.0 == tables
    ensures r.1 == Error(TableDoesNotExistError) <==> statement.tableName !in tables
    ensures statement.tableName in tables ==>
      (r.1 == Error(NumberOfValuesDoesNotMatchNumberOfColumns) <==> |tables[statement.tableName].columns| != |statement.values|)
    ensures r.1 == Done ==>
      var name := statement.tableName;
      && name in tables
      && r.0.Keys == tables.Keys
      && (forall n :: n in tables && n != name ==> r.0[n] == tables[n])
      && r.0[name].columns == tables[name].columns
      && |r.0[name].rows| == |tables[name].rows| + 1
      && r.0[name].rows[..|tables[name].rows|] == tables[name].rows
      && |r.0[name].rows[|tables[name].rows|]| == |tables[name].columns|
    ensures TablesFit(tables) ==> TablesFit(r.0)
  {
    var name := statement.tableName;
    if name !in tables then (tables, Error(TableDoesNotExistError))
    else
      var t := tables[name];
      if |t.columns| != |statement.values| then (tables, Error(NumberOfValuesDoesNotMatchNumberOfColumns))
      else
        match RowFor(statement.values, t.columns)
        case RowMismatch => (tables, Error(ValueTypeDoesNotMatchColumnType))
        case RowUnsupported => (tables, IllegalStateException)
        case Row(cells) =>
          assert (t.rows + [cells])[..|t.rows|] == t.rows;
          (tables[name := Table(t.columns, t.rows + [cells])], Done)
  }

  /** At most one value is the first that does not fit. */
  lemma FirstMisfitUnique(values: seq<Literal>, columns: seq<ColumnDefinition>, i: nat, j: nat)
    requires |values| == |columns| && i < |values| && j < |values|
    requires FirstMisfit(values, columns, i) && FirstMisfit(values, columns, j)
    ensures i == j
  {
  }

  /**
    An insert into an existing table with as many columns as values: it
    succeeds exactly when every value fits its column, and the appended row
    holds each value's cell. Otherwise the first value that does not fit
    decides: a type mismatch gives `ValueTypeDoesNotMatchColumnType`, an
    identifier the IllegalStateException.
  */
  lemma InsertionOutcomes(tables: map<string, Table>, statement: Statement)
    requires statement.InsertStatement? && statement.tableName in tables
    requires |tables[statement.tableName].columns| == |statement.values|
    ensures var r := Insertion(tables, statement);
      var t := tables[statement.tableName];
      var values := statement.values;
      && (r.1 == Done <==> forall i :: 0 <= i < |values| ==> CellFor(values[i], t.columns[i]).Fits?)
      && (r.1 == Done ==> forall i :: 0 <= i < |values| ==>
            CellFor(values[i], t.columns[i]) == Fits(r.0[statement.tableName].rows[|t.rows|][i]))
      && (r.1 == Error(ValueTypeDoesNotMatchColumnType) <==>
            exists i :: 0 <= i < |values| && FirstMisfit(values, t.columns, i) && CellFor(values[i], t.columns[i]) == Mismatch)
      && (r.1 == IllegalStateException <==>
            exists i :: 0 <= i < |values| && FirstMisfit(values, t.columns, i) && CellFor(values[i], t.columns[i]) == Unsupported)
  {
    var r := Insertion(tables, statement);
    var t := tables[statement.tableName];
    var values := statement.values;
    var row := RowFor(values, t.columns);
    RowForCells(values, t.columns);
    if row.Row? {
      assert r.0[statement.tableName].rows[|t.rows|] == row.cells;
      forall i | 0 <= i < |values| && FirstMisfit(values, t.columns, i)
        ensures false
      {
      }
    } else {
      var j :| 0 <= j < |values| && FirstMisfit(values, t.columns, j)
               && (row == RowMismatch <==> CellFor(values[j], t.columns[j]) == Mismatch);
      forall i | 0 <= i < |values| && FirstMisfit(values, t.columns, i)
        ensures i == j
      {
        FirstMisfitUnique(values, t.columns, i, j);
      }
    }
  }

  /** `row` put in front of the cells of a row that succeeds. */
  function PrefixRow(row: seq<Cell>, r: RowOutcome): RowOutcome {
    if r.Row? then Row(row + r.cells) else r
  }

  /** One value that fits: the row from `i` is its cell, then the row from `i + 1`. */
  lemma RowForStep(values: seq<Literal>, columns: seq<ColumnDefinition>, i: nat, row: seq<Cell>, c: Cell)
    requires |values| == |columns| && i < |values|
    requires CellFor(values[i], columns[i]) == Fits(c)
    ensures PrefixRow(row, RowFor(values[i..], columns[i..])) == PrefixRow(row + [c], RowFor(values[i + 1..], columns[i + 1..]))
  {
    assert values[i..][0] == values[i] && columns[i..][0] == columns[i];
    assert values[i..][1..] == values[i + 1..] && columns[i..][1..] == columns[i + 1..];
    var rest := RowFor(values[i + 1..], columns[i + 1..]);
    if rest.Row? {
      assert row + ([c] + rest.cells) == (row + [c]) + rest.cells;
    }
  }

  /** A value that does not fit: the row from `i` fails as that value does. */
  lemma RowForMisfit(values: seq<Literal>, columns: seq<ColumnDefinition>, i: nat)
    requires |values| == |columns| && i < |values|
    requires !CellFor(values[i], columns[i]).Fits?
    ensures RowFor(values[i..], columns[i..]) == if CellFor(values[i], columns[i]) == Mismatch then RowMismatch else RowUnsupported
  {
    assert values[i..][0] == values[i] && columns[i..][0] == columns[i];
  }

  // ---------------------------------------------------------------------
  // selectData
  // ---------------------------------------------------------------------

  /** `columns.indexOfFirst { it.name == name }`: the first column so named, or -1. */
  function ColumnIndex(columns: seq<ColumnDefinition>, name: string): (r: int)
    ensures -1 <= r < |columns|
    ensures r >= 0 ==> columns[r].name == name && forall j :: 0 <= j < r ==> columns[j].name != name
    ensures r == -1 <==> forall j :: 0 <= j < |columns| ==> columns[j].name != name
  {
    if columns == [] then -1
    else if columns[0].name == name then 0
    else
      var k := ColumnIndex(columns[1..], name);
      assert forall j :: 1 <= j < |columns| ==> columns[j] == columns[1..][j - 1];
      if k < 0 then -1 else k + 1
  }

  /** Every identifier among the selected literals names a column. */
  predicate ColumnsExist(tableColumns: seq<ColumnDefinition>, selected: seq<Literal>) {
    forall i :: 0 <= i < |selected| && selected[i].IdentifierLiteral? ==> ColumnIndex(tableColumns, selected[i].name) >= 0
  }

  /** The names of the identifiers among the selected literals. */
  function IdentifierNames(selected: seq<Literal>): set<string> {
    set i | 0 <= i < |selected| && selected[i].IdentifierLiteral? :: selected[i].name
  }

  /**
    `identifiersColumns`: each selected identifier's name, associated with
    the index of its column (-1 when there is none).
  */
  function IdentifiersColumns(tableColumns: seq<ColumnDefinition>, selected: seq<Literal>): (m: map<string, int>)
    ensures m.Keys == IdentifierNames(selected)
    ensures forall i :: 0 <= i < |selected| && selected[i].IdentifierLiteral? ==> selected[i].name in m
    ensures forall name :: name in m ==> m[name] == ColumnIndex(tableColumns, name)
    ensures (exists name :: name in m && m[name] < 0) <==> !ColumnsExist(tableColumns, selected)
  {
    var m := map name | name in IdentifierNames(selected) :: ColumnIndex(tableColumns, name);
    assert forall i :: 0 <= i < |selected| && selected[i].IdentifierLiteral? ==> selected[i].name in IdentifierNames(selected);
    m
  }

  /** The key a selected literal gets in a result row: the literal's text or the identifier's name. */
  function Key(column: Literal): string {
    match column
    case IntLiteral(n) => IntToDecimal(n)
    case StringLiteral(s) => s
    case IdentifierLiteral(name) => name
  }

  /** The cell a selected literal gets: the literal itself, or the row's cell at the named column. */
  function Value(tableColumns: seq<ColumnDefinition>, row: seq<Cell>, column: Literal): Cell
    requires |row| == |tableColumns|
    requires column.IdentifierLiteral? ==> ColumnIndex(tableColumns, column.name) >= 0
  {
    match column
    case IntLiteral(n) => OfInt(n)
    case StringLiteral(s) => OfString(s)
    case IdentifierLiteral(name) => row[ColumnIndex(tableColumns, name)]
  }

  /** The result map of one row: the selected literals put in, in order, a later key overwriting an earlier one. */
  function ResultRow(tableColumns: seq<ColumnDefinition>, row: seq<Cell>, selected: seq<Literal>): map<string, Cell>
    requires |row| == |tableColumns| && ColumnsExist(tableColumns, selected)
    decreases |selected|
  {
    if selected == [] then map[]
    else
      var last := selected[|selected| - 1];
      ResultRow(tableColumns, row, selected[..|selected| - 1])[Key(last) := Value(tableColumns, row, last)]
  }

  /** The selected literals before `n` name existing columns too. */
  lemma ColumnsExistPrefix(tableColumns: seq<ColumnDefinition>, selected: seq<Literal>, n: nat)
    requires ColumnsExist(tableColumns, selected) && n <= |selected|
    ensures ColumnsExist(tableColumns, selected[..n])
  {
    forall i | 0 <= i < n ensures selected[..n][i] == selected[i] { }
  }

  /** Putting in the selected literal at `c` extends the result row of the literals before it. */
  lemma ResultRowStep(tableColumns: seq<ColumnDefinition>, row: seq<Cell>, selected: seq<Literal>, c: nat)
    requires |row| == |tableColumns| && ColumnsExist(tableColumns, selected) && c < |selected|
    ensures ColumnsExist(tableColumns, selected[..c]) && ColumnsExist(tableColumns, selected[..c + 1])
    ensures ResultRow(tableColumns, row, selected[..c + 1])
         == ResultRow(tableColumns, row, selected[..c])[Key(selected[c]) := Value(tableColumns, row, selected[c])]
  {
    ColumnsExistPrefix(tableColumns, selected, c);
    ColumnsExistPrefix(tableColumns, selected, c + 1);
    assert selected[..c + 1][..c] == selected[..c];
  }

  /** The result maps of the first `n` rows of the table. */
  function ResultRows(t: Table, selected: seq<Literal>, n: nat): (r: seq<map<string, Cell>>)
    requires RowsFit(t) && ColumnsExist(t.columns, selected) && n <= |t.rows|
    ensures |r| == n
    ensures forall i :: 0 <= i < n ==> r[i] == ResultRow(t.columns, t.rows[i], selected)
  {
    seq(n, i requires 0 <= i < n => ResultRow(t.columns, t.rows[i], selected))
  }

  /** One more row adds its result map at the end. */
  lemma ResultRowsStep(t: Table, selected: seq<Literal>, n: nat)
    requires RowsFit(t) && ColumnsExist(t.columns, selected) && n < |t.rows|
    ensures ResultRows(t, selected, n + 1) == ResultRows(t, selected, n) + [ResultRow(t.columns, t.rows[n], selected)]
  {
  }

  /** A result row has exactly the keys of the selected literals. */
  lemma {:induction false} ResultRowKeys(tableColumns: seq<ColumnDefinition>, row: seq<Cell>, selected: seq<Literal>)
    requires |row| == |tableColumns| && ColumnsExist(tableColumns, selected)
    ensures forall k :: k in ResultRow(tableColumns, row, selected) <==> exists i :: 0 <= i < |selected| && Key(selected[i]) == k
    decreases |selected|
  {
    if selected != [] {
      var n := |selected| - 1;
      var init := selected[..n];
      ColumnsExistPrefix(tableColumns, selected, n);
      ResultRowKeys(tableColumns, row, init);
      assert ResultRow(tableColumns, row, selected) == ResultRow(tableColumns, row, init)[Key(selected[n]) := Value(tableColumns, row, selected[n])];
      forall k | k in ResultRow(tableColumns, row, selected)
        ensures exists i :: 0 <= i < |selected| && Key(selected[i]) == k
      {
        if k != Key(selected[n]) {
          var i :| 0 <= i < |init| && Key(init[i]) == k;
          assert Key(selected[i]) == k;
        }
      }
      forall k | exists i :: 0 <= i < |selected| && Key(selected[i]) == k
        ensures k in ResultRow(tableColumns, row, selected)
      {
        var i :| 0 <= i < |selected| && Key(selected[i]) == k;
        if i == n {
          assert k == Key(selected[n]);
        } else {
          assert init[i] == selected[i];
          assert k in ResultRow(tableColumns, row, init);
        }
      }
    }
  }

  /** The key of a selected literal that no later literal shares holds that literal's cell. */
  lemma {:induction false} ResultRowValue(tableColumns: seq<ColumnDefinition>, row: seq<Cell>, selected: seq<Literal>, i: nat)
    requires |row| == |tableColumns| && ColumnsExist(tableColumns, selected) && i < |selected|
    requires forall j :: i < j < |selected| ==> Key(selected[j]) != Key(selected[i])
    ensures Key(selected[i]) in ResultRow(tableColumns, row, selected)
    ensures ResultRow(tableColumns, row, selected)[Key(selected[i])] == Value(tableColumns, row, selected[i])
    decreases |selected|
  {
    var n := |selected| - 1;
    var init := selected[..n];
    ColumnsExistPrefix(tableColumns, selected, n);
    assert ResultRow(tableColumns, row, selected) == ResultRow(tableColumns, row, init)[Key(selected[n]) := Value(tableColumns, row, selected[n])];
    if i < n {
      assert init[i] == selected[i];
      forall j | i < j < |init| ensures Key(init[j]) != Key(init[i]) {
        assert init[j] == selected[j];
      }
      ResultRowValue(tableColumns, row, init, i);
      assert Key(selected[n]) != Key(selected[i]);
    }
  }

  /**
    `selectData`: the named table must exist and every selected identifier
    must name one of its columns; then each row gives one result map, in
    row order.
  */
  function Selection(tables: map<string, Table>, statement: Statement): (r: QueryResult)
    requires statement.SelectStatement? && TablesFit(tables)
    ensures r == QueryFailure(TableDoesNotExistError) <==> statement.tableName !in tables
    ensures r == QueryFailure(ColumnDoesNotExistError)
        <==> statement.tableName in tables && !ColumnsExist(tables[statement.tableName].columns, statement.columns)
    ensures r.QuerySuccess?
        <==> statement.tableName in tables && ColumnsExist(tables[statement.tableName].columns, statement.columns)
    ensures r.QuerySuccess? ==>
      var t := tables[statement.tableName];
      && |r.rows| == |t.rows|
      && forall i :: 0 <= i < |t.rows| ==> r.rows[i] == ResultRow(t.columns, t.rows[i], statement.columns)
  {
    if statement.tableName !in tables then QueryFailure(TableDoesNotExistError)
    else
      var t := tables[statement.tableName];
      if !ColumnsExist(t.columns, statement.columns) then QueryFailure(ColumnDoesNotExistError)
      else QuerySuccess(ResultRows(t, statement.columns, |t.rows|))
  }

  /** A successful select reports one result per row of the table. */
  lemma SelectionSize(tables: map<string, Table>, statement: Statement)
    requires statement.SelectStatement? && TablesFit(tables)
    requires Selection(tables, statement).QuerySuccess?
    ensures GetResultSize(Selection(tables, statement)) == |tables[statement.tableName].rows|
  {
  }

  /** In a selected row, a selected identifier not followed by a literal with its name holds the row's cell at its first column. */
  lemma SelectedIdentifier(tables: map<string, Table>, statement: Statement, rowIndex: nat, i: nat)
    requires statement.SelectStatement? && TablesFit(tables)
    requires Selection(tables, statement).QuerySuccess?
    requires rowIndex < |tables[statement.tableName].rows|
    requires i < |statement.columns| && statement.columns[i].IdentifierLiteral?
    requires forall j :: i < j < |statement.columns| ==> Key(statement.columns[j]) != statement.columns[i].name
    ensures var t := tables[statement.tableName];
      var name := statement.columns[i].name;
      && 0 <= ColumnIndex(t.columns, name) < |t.columns|
      && t.columns[ColumnIndex(t.columns, name)].name == name
      && name in Selection(tables, statement).rows[rowIndex]
      && Selection(tables, statement).rows[rowIndex][name] == t.rows[rowIndex][ColumnIndex(t.columns, name)]
  {
    var t := tables[statement.tableName];
    ResultRowValue(t.columns, t.rows[rowIndex], statement.columns, i);
  }

  /** In a selected row, a selected int or string literal not followed by one with its key holds the literal's own cell. */
  lemma SelectedLiteral(tables: map<string, Table>, statement: Statement, rowIndex: nat, i: nat)
    requires statement.SelectStatement? && TablesFit(tables)
    requires Selection(tables, statement).QuerySuccess?
    requires rowIndex < |tables[statement.tableName].rows|
    requires i < |statement.columns| && !statement.columns[i].IdentifierLiteral?
    requires forall j :: i < j < |statement.columns| ==> Key(statement.columns[j]) != Key(statement.columns[i])
    ensures var row := Selection(tables, statement).rows[rowIndex];
      && (statement.columns[i].IntLiteral? ==>
            var n := statement.columns[i].n; IntToDecimal(n) in row && row[IntToDecimal(n)] == OfInt(n))
      && (statement.columns[i].StringLiteral? ==>
            var s := statement.columns[i].s; s in row && row[s] == OfString(s))
  {
    var t := tables[statement.tableName];
    ResultRowValue(t.columns, t.rows[rowIndex], statement.columns, i);
  }

  // ---------------------------------------------------------------------
  // The engine
  // ---------------------------------------------------------------------

  class InMemoryEngine {
    var tables: map<string, Table>

    /** Every table's rows fit its columns. */
    predicate Valid()
      reads this
    {
      TablesFit(tables)
    }

    /** `InMemoryEngine()`, with the default empty map. */
    constructor ()
      ensures tables == map[] && Valid()
    {
      tables := map[];
    }

    /** `createTable` */
    method CreateTable(createTableStatement: Statement) returns (r: Outcome)
      requires createTableStatement.CreateTableStatement? && Valid()
      modifies this
      ensures (tables, r) == Creation(old(tables), createTableStatement)
      ensures Valid()
    {
      if createTableStatement.name in tables {
        return Error(TableAlreadyExistsError);
      }
      tables := tables[createTableStatement.name := Table(createTableStatement.definitions, [])];
      return Done;
    }

    /** `insertData` */
    method InsertData(insertStatement: Statement) returns (r: Outcome)
      requires insertStatement.InsertStatement? && Valid()
      modifies this
      ensures (tables, r) == Insertion(old(tables), insertStatement)
      ensures Valid()
    {
      if insertStatement.tableName !in tables {
        return Error(TableDoesNotExistError);
      }
      var table := tables[insertStatement.tableName];
      if |table.columns| != |insertStatement.values| {
        return Error(NumberOfValuesDoesNotMatchNumberOfColumns);
      }
      var values := insertStatement.values;
      var row: seq<Cell> := [];
      for index := 0 to |values|
        invariant tables == old(tables)
        invariant RowFor(values, table.columns) == PrefixRow(row, RowFor(values[index..], table.columns[index..]))
      {
        var valueToInsert := values[index];
        var columnDefinition := table.columns[index];
        var cell: Cell;
        match valueToInsert {
          case IntLiteral(n) =>
            if columnDefinition.columnType != INT {
              RowForMisfit(values, table.columns, index);
              return Error(ValueTypeDoesNotMatchColumnType);
            }
            cell := OfInt(n);
          case StringLiteral(s) =>
            if columnDefinition.columnType != TEXT {
              RowForMisfit(values, table.columns, index);
              return Error(ValueTypeDoesNotMatchColumnType);
            }
            cell := OfString(s);
          case IdentifierLiteral(_) =>
            RowForMisfit(values, table.columns, index);
            return IllegalStateException;
        }
        RowForStep(values, table.columns, index, row, cell);
        row := row + [cell];
      }
      assert values[|values|..] == [] && row + [] == row;
      tables := tables[insertStatement.tableName := Table(table.columns, table.rows + [row])];
      return Done;
    }

    /** `selectData`; it reads the tables and changes nothing. */
    method SelectData(selectStatement: Statement) returns (r: QueryResult)
      requires selectStatement.SelectStatement? && Valid()
      ensures r == Selection(tables, selectStatement)
    {
      if selectStatement.tableName !in tables {
        return QueryFailure(TableDoesNotExistError);
      }
      var table := tables[selectStatement.tableName];
      var selected := selectStatement.columns;
      var identifiersColumns := IdentifiersColumns(table.columns, selected);
      if exists name :: name in identifiersColumns && identifiersColumns[name] < 0 {
        return QueryFailure(ColumnDoesNotExistError);
      }
      assert ColumnsExist(table.columns, selected);
      assert RowsFit(table);
      var result: seq<map<string, Cell>> := [];
      for rowIndex := 0 to |table.rows|
        invariant result == ResultRows(table, selected, rowIndex)
      {
        var row := table.rows[rowIndex];
        assert |row| == |table.columns|;
        var rowResult: map<string, Cell> := map[];
        for c := 0 to |selected|
          invariant rowResult == ResultRow(table.columns, row, selected[..c])
        {
          var column := selected[c];
          ResultRowStep(table.columns, row, selected, c);
          match column {
            case IntLiteral(n) =>
              rowResult := rowResult[IntToDecimal(n) := OfInt(n)];
            case StringLiteral(s) =>
              rowResult := rowResult[s := OfString(s)];
            case IdentifierLiteral(name) =>
              rowResult := rowResult[name := row[identifiersColumns[name]]];
          }
        }
        assert selected[..|selected|] == selected;
        ResultRowsStep(table, selected, rowIndex);
        result := result + [rowResult];
      }
      return QuerySuccess(result);
    }
  }

  /**
    The engine test's scenario: create `user(age INT)`, insert 13, select
    `age`; one row comes back, whose `age` reads as 13.
  */
  method UserAgeScenario() returns (q: QueryResult)
    ensures q.QuerySuccess? && GetResultSize(q) == 1
    ensures q.rows[0].Keys == {"age"} && GetInt(q, 0, "age") == Success(13)
  {
    var engine := new InMemoryEngine();
    var error := engine.CreateTable(CreateTableStatement("user", [ColumnDefinition("age", INT)]));
    assert error == Done;
    var inserted := engine.InsertData(InsertStatement("user", [IntLiteral(13)]));
    assert RowFor([IntLiteral(13)], [ColumnDefinition("age", INT)]) == Row([OfInt(13)]);
    assert inserted == Done;
    q := engine.SelectData(SelectStatement([IdentifierLiteral("age")], "user"));
    var t := engine.tables["user"];
    assert t == Table([ColumnDefinition("age", INT)], [[OfInt(13)]]);
    assert ColumnIndex(t.columns, "age") == 0;
    assert [IdentifierLiteral("age")][..0] == [];
    assert q.rows[0] == map["age" := OfInt(13)];
    GetIntOfInt(q, 0, "age", 13);
  }
}
