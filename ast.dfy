/**
  The statements the parser builds (Ast.kt). A create statement's column list
  is called `definitions` here, since Dafny requires destructors shared by two
  constructors to have one type.
*/
module Ast {
  import opened Text

  datatype ColumnType = INT | TEXT

  datatype ColumnDefinition = ColumnDefinition(name: string, columnType: ColumnType)

  /** A literal; Kotlin's `Int` is `Int32`. */
  datatype Literal =
    | IntLiteral(n: Int32)
    | StringLiteral(s: string)
    | IdentifierLiteral(name: string)

  datatype Statement =
    | CreateTableStatement(name: string, definitions: seq<ColumnDefinition>)
    | InsertStatement(tableName: string, values: seq<Literal>)
    | SelectStatement(columns: seq<Literal>, tableName: string)
}
