/**
 * The column cleanup of limpieza.py: predefined redundant columns that
 * exist in the staging table, together with the columns whose every value
 * is empty, are dropped with one ALTER TABLE each and a single commit.
 * The table is given as its `information_schema` catalog and its rows.
 */
module Cleanup {
  import opened JsonValue
  import opened Statements

  /**
   * The redundant-column set as written: the comma of line 33 sits inside
   * the comment, so Python joins the two adjacent literals into one name.
   */
  function RedundantColumnsAsWritten(): set<string> {
    {"meta/instanceID", "meta/rootUuid", "formhub/uuid", "_xform_id_string" + "_uuid",
     "_status", "_uuid", "_submission_time", "__version__", "_id"}
  }

  /** The set the comments describe: `_xform_id_string` is one of the redundant columns. */
  function RedundantColumns(): set<string> {
    {"meta/instanceID", "meta/rootUuid", "formhub/uuid", "_xform_id_string",
     "_status", "_uuid", "_submission_time", "__version__", "_id"}
  }

  /** As written the set has 9 names, one of them the joined `_xform_id_string_uuid`, and lacks `_xform_id_string`. */
  lemma AsWrittenLacksXformIdString()
    ensures |RedundantColumnsAsWritten()| == 9
    ensures "_xform_id_string_uuid" in RedundantColumnsAsWritten() && "_uuid" in RedundantColumnsAsWritten()
    ensures "_xform_id_string" !in RedundantColumnsAsWritten()
  {
    assert "_xform_id_string" + "_uuid" == "_xform_id_string_uuid";
    assert "_xform_id_string"[1] == 'x';
  }

  /** The corrected set also has 9 names: `_uuid` is listed twice, so splitting the joined literal adds none. */
  lemma RedundantColumnsCardinality()
    ensures |RedundantColumns()| == 9
    ensures "_xform_id_string" in RedundantColumns() && "_uuid" in RedundantColumns()
    ensures "_xform_id_string_uuid" !in RedundantColumns()
    ensures RedundantColumns() - {"_xform_id_string"} == RedundantColumnsAsWritten() - {"_xform_id_string_uuid"}
  {
    assert "_xform_id_string" + "_uuid" == "_xform_id_string_uuid";
  }

  /** A stored value as the emptiness queries see it. */
  datatype DbValue =
    | SqlNull
    | JsonbValue(j: Json)       // a value of a `jsonb` column
    | Scalar(text: string)      // any other value, by its `CAST(... AS TEXT)`

  /** A non-empty JSON array whose elements are all JSON null. */
  predicate IsNullArray(j: Json) {
    j.JArray? && |j.items| > 0 && forall i :: 0 <= i < |j.items| ==> j.items[i] == JNull
  }

  /**
   * The negation of the WHERE clause of the count queries: in a `jsonb`
   * column NULL, `{}`, `[]` or an array of only nulls; in any other column
   * NULL or a text cast that is exactly `''`.
   */
  predicate IsEmptyValue(dataType: string, v: DbValue) {
    if dataType == "jsonb" then
      v.SqlNull? || v == JsonbValue(JObject([])) || v == JsonbValue(JArray([])) || (v.JsonbValue? && IsNullArray(v.j))
    else
      v.SqlNull? || v == Scalar("")
  }

  /** Text is not trimmed: a blank that is not empty keeps its column. */
  lemma BlankIsNotEmpty(dataType: string)
    requires dataType != "jsonb"
    ensures !IsEmptyValue(dataType, Scalar(" "))
    ensures IsEmptyValue(dataType, Scalar(""))
  {
  }

  /** One row of the staging table; a column it does not mention holds NULL. */
  type Row = map<string, DbValue>

  function ValueAt(row: Row, column: string): DbValue {
    if column in row then row[column] else SqlNull
  }

  /** `SELECT COUNT(*) ... WHERE <not empty>` for one catalog column. */
  function NonEmptyCount(rows: seq<Row>, column: (string, string)): (n: nat)
    ensures n <= |rows|
  {
    if rows == [] then 0
    else NonEmptyCount(rows[..|rows| - 1], column) + (if IsEmptyValue(column.1, ValueAt(rows[|rows| - 1], column.0)) then 0 else 1)
  }

  /** The count is zero iff every row is empty in the column; in particular with no rows at all. */
  lemma {:induction false} NonEmptyCountZero(rows: seq<Row>, column: (string, string))
    ensures NonEmptyCount(rows, column) == 0 <==> forall i :: 0 <= i < |rows| ==> IsEmptyValue(column.1, ValueAt(rows[i], column.0))
  {
    if rows != [] {
      NonEmptyCountZero(rows[..|rows| - 1], column);
    }
  }

  predicate ColumnIsEmpty(rows: seq<Row>, column: (string, string)) {
    forall i :: 0 <= i < |rows| ==> IsEmptyValue(column.1, ValueAt(rows[i], column.0))
  }

  /** `get_empty_columns`: the loop over the catalog that collects the columns whose count is zero. */
  method GetEmptyColumns(catalog: seq<(string, string)>, rows: seq<Row>) returns (empty: set<string>)
    ensures forall c :: c in empty <==> exists i :: 0 <= i < |catalog| && catalog[i].0 == c && ColumnIsEmpty(rows, catalog[i])
  {
    empty := {};
    for k := 0 to |catalog|
      invariant forall c :: c in empty <==> exists i :: 0 <= i < k && catalog[i].0 == c && ColumnIsEmpty(rows, catalog[i])
    {
      var count := NonEmptyCount(rows, catalog[k]);
      NonEmptyCountZero(rows, catalog[k]);
      if count == 0 {
        empty := empty + {catalog[k].0};
      }
    }
  }

  /** Over a table without rows every column is reported empty. */
  lemma NoRowsAllEmpty(catalog: seq<(string, string)>, i: nat)
    requires i < |catalog|
    ensures ColumnIsEmpty([], catalog[i])
  {
  }

  /** `drop_columns`: nothing for an empty set; otherwise one DROP COLUMN per column, then a single commit. */
  method DropColumns(table: string, cols: set<string>) returns (stmts: seq<Stmt>)
    ensures cols == {} ==> stmts == []
    ensures cols != {} ==> |stmts| == |cols| + 1 && stmts[|cols|] == Commit
    ensures forall i :: 0 <= i < |cols| && i < |stmts| ==> stmts[i].DropColumn? && stmts[i].table == table && stmts[i].column in cols
    ensures forall c :: c in cols ==> exists i :: 0 <= i < |cols| && i < |stmts| && stmts[i] == DropColumn("dsa", table, c)
    ensures forall i, j :: 0 <= i < j < |cols| && j < |stmts| ==> stmts[i] != stmts[j]
  {
    if cols == {} {
      return [];
    }
    stmts := [];
    var rest := cols;
    while rest != {}
      invariant rest <= cols
      invariant |stmts| + |rest| == |cols|
      invariant forall i :: 0 <= i < |stmts| ==> stmts[i].DropColumn? && stmts[i].schema == "dsa" && stmts[i].table == table
      invariant forall i :: 0 <= i < |stmts| ==> stmts[i].column in cols - rest
      invariant forall c :: c in cols - rest ==> exists i :: 0 <= i < |stmts| && stmts[i] == DropColumn("dsa", table, c)
      invariant forall i, j :: 0 <= i < j < |stmts| ==> stmts[i] != stmts[j]
      decreases |rest|
    {
      var c :| c in rest;
      ghost var before := stmts;
      stmts := stmts + [DropColumn("dsa", table, c)];
      forall d | d in cols - (rest - {c})
        ensures exists i :: 0 <= i < |stmts| && stmts[i] == DropColumn("dsa", table, d)
      {
        if d == c {
          assert stmts[|before|] == DropColumn("dsa", table, d);
        } else {
          assert d in cols - rest;
          var i :| 0 <= i < |before| && before[i] == DropColumn("dsa", table, d);
          assert stmts[i] == before[i];
        }
      }
      rest := rest - {c};
    }
    assert |stmts| == |cols|;
    ghost var drops := stmts;
    stmts := stmts + [Commit];
    forall d | d in cols
      ensures exists i :: 0 <= i < |cols| && i < |stmts| && stmts[i] == DropColumn("dsa", table, d)
    {
      var i :| 0 <= i < |drops| && drops[i] == DropColumn("dsa", table, d);
      assert stmts[i] == drops[i];
    }
  }

  /** `limpiar_tabla`'s drop set: the redundant columns the table has, together with the empty columns. */
  function ColumnsToDrop(redundant: set<string>, existing: set<string>, empty: set<string>): (r: set<string>)
    ensures forall c :: c in r <==> (c in redundant && c in existing) || c in empty
  {
    (redundant * existing) + empty
  }

  function CatalogNames(catalog: seq<(string, string)>): (r: set<string>)
    ensures forall c :: c in r <==> exists i :: 0 <= i < |catalog| && catalog[i].0 == c
  {
    set i | 0 <= i < |catalog| :: catalog[i].0
  }

  /**
   * The cleanup of one staging table: which columns go, and the statements
   * that drop them. A column is dropped iff it exists and is redundant or
   * empty; no statement at all is issued when there is nothing to drop.
   */
  method CleanTable(table: string, catalog: seq<(string, string)>, rows: seq<Row>)
    returns (dropped: set<string>, stmts: seq<Stmt>)
    ensures forall c :: c in dropped <==>
              c in CatalogNames(catalog) &&
              (c in RedundantColumns() || exists i :: 0 <= i < |catalog| && catalog[i].0 == c && ColumnIsEmpty(rows, catalog[i]))
    ensures dropped == {} <==> stmts == []
    ensures dropped != {} ==> |stmts| == |dropped| + 1 && stmts[|dropped|] == Commit
    ensures forall c :: c in dropped ==> exists i :: 0 <= i < |stmts| && stmts[i] == DropColumn("dsa", table, c)
    ensures forall i :: 0 <= i < |stmts| ==> stmts[i] == Commit || (stmts[i].DropColumn? && stmts[i].column in dropped)
  {
    var existing := CatalogNames(catalog);
    var empty := GetEmptyColumns(catalog, rows);
    dropped := ColumnsToDrop(RedundantColumns(), existing, empty);
    if dropped != {} {
      stmts := DropColumns(table, dropped);
    } else {
      stmts := [];
    }
  }

  /**
   * The slip changes what is dropped: a table with a non-empty
   * `_xform_id_string` column keeps it under the as-written set and loses it
   * under the corrected one.
   */
  lemma XformIdStringKept(existing: set<string>, empty: set<string>)
    requires "_xform_id_string" in existing && "_xform_id_string" !in empty
    ensures "_xform_id_string" !in ColumnsToDrop(RedundantColumnsAsWritten(), existing, empty)
    ensures "_xform_id_string" in ColumnsToDrop(RedundantColumns(), existing, empty)
  {
    AsWrittenLacksXformIdString();
  }
}
