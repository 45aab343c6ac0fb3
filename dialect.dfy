/**
 * Which SQL engine the routes talk to, read from the `DB_TYPE` environment
 * variable, and how each engine quotes a column and a table name.
 */
module Dialects {

  import opened Wrappers

  datatype Dialect = MySql | MsSql

  /** `(process.env.DB_TYPE ?? "mysql") === "mssql"`: only the exact text "mssql" selects SQL Server. */
  function FromEnv(dbType: Option<string>): (d: Dialect)
    ensures d == MsSql <==> dbType == Some("mssql")
  {
    if dbType.GetOr("mysql") == "mssql" then MsSql else MySql
  }

  /** `qCol`: a column name in brackets for SQL Server, in backticks otherwise. */
  function QCol(d: Dialect, name: string): string {
    if d == MsSql then "[" + name + "]" else "`" + name + "`"
  }

  /** `qTable`: like a column, with the `dbo.` schema in front for SQL Server. */
  function QTable(d: Dialect, name: string): string {
    if d == MsSql then "dbo." + QCol(d, name) else QCol(d, name)
  }

  /** The schema prefix `qTable` puts before the quoted name. */
  function Schema(d: Dialect): string {
    if d == MsSql then "dbo." else ""
  }

  /**
   * A quoted identifier is the name between one opening and one closing
   * quote (brackets for SQL Server, backticks otherwise), after the schema for
   * a table; so the name can always be read back and different names never
   * quote alike.
   */
  lemma QuotingSpec(d: Dialect, name: string)
    ensures var c := QCol(d, name);
      && |c| == |name| + 2 && c[1..|name| + 1] == name
      && (d == MsSql ==> c[0] == '[' && c[|c| - 1] == ']')
      && (d == MySql ==> c[0] == '`' && c[|c| - 1] == '`')
    ensures var t := QTable(d, name);
      && |t| == |Schema(d)| + |name| + 2
      && t[..|Schema(d)|] == Schema(d) && t[|Schema(d)|..] == QCol(d, name)
  {
  }

  lemma QuotingInjective(d: Dialect, a: string, b: string)
    ensures QCol(d, a) == QCol(d, b) ==> a == b
    ensures QTable(d, a) == QTable(d, b) ==> a == b
  {
    QuotingSpec(d, a);
    QuotingSpec(d, b);
    if QTable(d, a) == QTable(d, b) {
      assert QCol(d, a) == QTable(d, a)[|Schema(d)|..];
    }
  }

  /** Quoting adds no character other than the quotes and the schema. */
  lemma QuotingKeeps(d: Dialect, name: string, x: char)
    requires x !in name && x !in "[]`" && x !in "dbo."
    ensures x !in QCol(d, name) && x !in QTable(d, name)
  {
  }
}
