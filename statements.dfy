/**
 * The database side of the ETL as a log of the statements a run issues,
 * in order. Statement text and the database's answers are not modelled;
 * a statement the database rejects is given to the operation as an input.
 */
module Statements {
  import opened JsonValue

  /** A value handed to `cursor.execute`: as is, or adapted with `psycopg2.extras.Json`. */
  datatype Param =
    | Plain(value: Json)
    | Wrapped(value: Json)

  datatype Stmt =
    | CreateSchema(schema: string)
    | DropTable(schema: string, table: string)
    | CreateTable(schema: string, table: string, defs: seq<(string, string)>)
    | InsertRow(schema: string, table: string, columns: seq<string>, values: seq<Param>)
    | DropColumn(schema: string, table: string, column: string)
    | Commit

  /** How many commits a log holds. */
  function Commits(log: seq<Stmt>): (n: nat)
    ensures n <= |log|
  {
    if log == [] then 0 else Commits(log[..|log| - 1]) + (if log[|log| - 1].Commit? then 1 else 0)
  }

  lemma {:induction false} CommitsAppend(a: seq<Stmt>, b: seq<Stmt>)
    ensures Commits(a + b) == Commits(a) + Commits(b)
    decreases |b|
  {
    if b != [] {
      assert (a + b)[..|a + b| - 1] == a + b[..|b| - 1];
      CommitsAppend(a, b[..|b| - 1]);
    } else {
      assert a + b == a;
    }
  }
}
