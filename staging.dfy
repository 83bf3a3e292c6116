/**
 * The raw staging load of dsa_etl.py: the schema is inferred from the first
 * submission, the table `dsa.<clean survey name>` is dropped and created
 * with one column per schema entry, and every submission becomes one INSERT
 * committed on its own.
 */
module Staging {
  import opened Wrappers
  import opened JsonValue
  import opened PyDict
  import opened SurveyUtils
  import opened Statements

  /** The inferred schema: column name to PostgreSQL type, in insertion order. */
  type Schema = Dict<string, PgType>

  /** Reference definition of the schema loop: `schema[key] = inferir_tipo_pg(value)` for each pair in turn. */
  function SchemaOf(first: Submission): Schema {
    if first == [] then []
    else
      var last := first[|first| - 1];
      Put(SchemaOf(first[..|first| - 1]), last.0, InferPgType(last.1))
  }

  /** The loop over `first_submission.items()`. */
  method InferSchema(first: Submission) returns (schema: Schema)
    ensures schema == SchemaOf(first)
  {
    schema := [];
    var n := 0;
    while n < |first|
      invariant n <= |first|
      invariant schema == SchemaOf(first[..n])
    {
      assert first[..n + 1][..n] == first[..n];
      schema := Put(schema, first[n].0, InferPgType(first[n].1));
      n := n + 1;
    }
    assert first[..n] == first;
  }

  /** However the submission is laid out, the schema binds every key once, to exactly the submission's keys. */
  lemma {:induction false} SchemaKeys(first: Submission)
    ensures DistinctKeys(SchemaOf(first))
    ensures forall k :: k in Keys(SchemaOf(first)) <==> k in Keys(first)
  {
    if first != [] {
      var p := first[..|first| - 1];
      var last := first[|first| - 1];
      SchemaKeys(p);
      PutDistinct(SchemaOf(p), last.0, InferPgType(last.1));
      assert Keys(first) == Keys(p) + [last.0];
      var r := SchemaOf(first);
      if last.0 !in Keys(SchemaOf(p)) {
        assert Keys(r) == Keys(SchemaOf(p)) + [last.0];
      }
    }
  }

  /**
   * The schema of a submission (a Python dict, so its keys are distinct)
   * lists its keys in its own order, each typed by `inferir_tipo_pg` of its value.
   */
  lemma {:induction false} SchemaFollowsSubmission(first: Submission)
    requires DistinctKeys(first)
    ensures |SchemaOf(first)| == |first|
    ensures forall i :: 0 <= i < |first| ==> SchemaOf(first)[i] == (first[i].0, InferPgType(first[i].1))
  {
    if first != [] {
      var p := first[..|first| - 1];
      var last := first[|first| - 1];
      assert DistinctKeys(p);
      SchemaFollowsSubmission(p);
      SchemaKeys(p);
      assert forall i :: 0 <= i < |p| ==> p[i].0 != last.0;
      assert last.0 !in Keys(p);
      var t := InferPgType(last.1);
      var before := SchemaOf(p);
      assert SchemaOf(first) == before + [(last.0, t)];
      forall i | 0 <= i < |first|
        ensures SchemaOf(first)[i] == (first[i].0, InferPgType(first[i].1))
      {
        if i < |p| {
          assert SchemaOf(first)[i] == before[i];
          assert p[i] == first[i];
        }
      }
    }
  }

  /** The schema for a run: none without submissions, else that of the first one only. */
  function SchemaFor(subs: seq<Submission>): (r: Option<Schema>)
    ensures r.None? <==> subs == []
  {
    if subs == [] then None else Some(SchemaOf(subs[0]))
  }

  /** Later submissions never change the schema. */
  lemma LaterSubmissionsIgnored(subs: seq<Submission>, more: seq<Submission>)
    requires subs != []
    ensures SchemaFor(subs + more) == SchemaFor(subs)
  {
    assert (subs + more)[0] == subs[0];
  }

  /** `create_table`'s column list: each schema entry as name and type name, in schema order. */
  function ColumnDefinitions(schema: Schema): (r: seq<(string, string)>)
    ensures |r| == |schema|
    ensures forall i :: 0 <= i < |schema| ==> r[i] == (schema[i].0, schema[i].1.Name())
  {
    seq(|schema|, i requires 0 <= i < |schema| => (schema[i].0, schema[i].1.Name()))
  }

  /** The statements of `create_table`: `crear_esquema`'s schema creation and commit, the drop, the create, the commit. */
  function CreateLog(table: string, schema: Schema): seq<Stmt> {
    [CreateSchema("dsa"), Commit, DropTable("dsa", table), CreateTable("dsa", table, ColumnDefinitions(schema)), Commit]
  }

  /** `create_table`: the loop that builds `column_definitions`, then the statements. */
  method BuildTable(table: string, schema: Schema) returns (stmts: seq<Stmt>)
    ensures stmts == CreateLog(table, schema)
  {
    var defs: seq<(string, string)> := [];
    for i := 0 to |schema|
      invariant |defs| == i
      invariant forall j :: 0 <= j < i ==> defs[j] == (schema[j].0, schema[j].1.Name())
    {
      defs := defs + [(schema[i].0, schema[i].1.Name())];
    }
    assert defs == ColumnDefinitions(schema);
    stmts := [CreateSchema("dsa"), Commit, DropTable("dsa", table), CreateTable("dsa", table, defs), Commit];
  }

  /** The table is dropped before it is created, with one definition per schema entry in order, and both steps are committed. */
  lemma CreateLogShape(table: string, schema: Schema)
    ensures var log := CreateLog(table, schema);
      && (forall i :: 0 <= i < |log| && log[i].DropTable? ==> i == 2 && log[i].table == table)
      && (forall i :: 0 <= i < |log| && log[i].CreateTable? ==> i == 3 && log[i].table == table)
      && log[3].defs == ColumnDefinitions(schema)
      && log[|log| - 1] == Commit
      && Commits(log) == 2
  {
    var log := CreateLog(table, schema);
    assert log[..1][..0] == [];
    assert Commits(log[..1]) == 0;
    assert log[..2][..1] == log[..1];
    assert Commits(log[..2]) == 1;
    assert log[..3][..2] == log[..2];
    assert Commits(log[..3]) == 1;
    assert log[..4][..3] == log[..3];
    assert Commits(log[..4]) == 1;
    assert log[..4] == log[..|log| - 1];
  }

  /** `extras.Json(value)` iff the column type is JSONB and the value is a dict or list. */
  function Adapt(t: PgType, v: Json): (p: Param)
    ensures p.value == v
    ensures p.Wrapped? <==> t == Jsonb && IsContainer(v)
  {
    if t == Jsonb && IsContainer(v) then Wrapped(v) else Plain(v)
  }

  /** The value row of one submission, one entry per schema column. */
  function RowOf(schema: Schema, sub: Submission): seq<Param> {
    seq(|schema|, i requires 0 <= i < |schema| => Adapt(schema[i].1, Lookup(sub, schema[i].0)))
  }

  /** The inner loop of `insert_data`: the values for one submission. */
  method ValueRow(schema: Schema, sub: Submission) returns (values: seq<Param>)
    ensures |values| == |schema|
    ensures forall i :: 0 <= i < |schema| ==> values[i] == Adapt(schema[i].1, Lookup(sub, schema[i].0))
    ensures values == RowOf(schema, sub)
  {
    values := [];
    for i := 0 to |schema|
      invariant |values| == i
      invariant forall j :: 0 <= j < i ==> values[j] == Adapt(schema[j].1, Lookup(sub, schema[j].0))
    {
      var value := Lookup(sub, schema[i].0);
      if schema[i].1 == Jsonb && IsContainer(value) {
        values := values + [Wrapped(value)];
      } else {
        values := values + [Plain(value)];
      }
    }
  }

  /** A schema column missing from the submission is passed as None, unwrapped. */
  lemma MissingKeyIsNull(schema: Schema, sub: Submission, i: nat)
    requires i < |schema| && schema[i].0 !in Keys(sub)
    ensures RowOf(schema, sub)[i] == Plain(JNull)
  {
    assert forall j :: 0 <= j < |sub| ==> sub[j].0 == Keys(sub)[j];
  }

  lemma {:induction false} LookupAppendOther(sub: Submission, k: string, v: Json, c: string)
    requires c != k
    ensures Lookup(sub + [(k, v)], c) == Lookup(sub, c)
  {
    if sub != [] {
      assert (sub + [(k, v)])[1..] == sub[1..] + [(k, v)];
      LookupAppendOther(sub[1..], k, v, c);
    }
  }

  /** A key of the submission that the schema does not have changes nothing in the row. */
  lemma ExtraKeyIgnored(schema: Schema, sub: Submission, k: string, v: Json)
    requires k !in Keys(schema)
    ensures RowOf(schema, sub + [(k, v)]) == RowOf(schema, sub)
  {
    forall i | 0 <= i < |schema|
      ensures Lookup(sub + [(k, v)], schema[i].0) == Lookup(sub, schema[i].0)
    {
      assert Keys(schema)[i] == schema[i].0;
      LookupAppendOther(sub, k, v, schema[i].0);
    }
  }

  /** One INSERT per submission, in order, each followed by its commit. */
  function InsertLog(table: string, schema: Schema, subs: seq<Submission>): seq<Stmt> {
    if subs == [] then []
    else
      InsertLog(table, schema, subs[..|subs| - 1])
      + [InsertRow("dsa", table, Keys(schema), RowOf(schema, subs[|subs| - 1])), Commit]
  }

  lemma {:induction false} InsertLogShape(table: string, schema: Schema, subs: seq<Submission>)
    ensures |InsertLog(table, schema, subs)| == 2 * |subs|
    ensures forall i :: 0 <= i < |subs| ==>
              && InsertLog(table, schema, subs)[2 * i] == InsertRow("dsa", table, Keys(schema), RowOf(schema, subs[i]))
              && InsertLog(table, schema, subs)[2 * i + 1] == Commit
    ensures Commits(InsertLog(table, schema, subs)) == |subs|
  {
    if subs != [] {
      var n := |subs| - 1;
      var p := subs[..n];
      InsertLogShape(table, schema, p);
      var front := InsertLog(table, schema, p);
      var tail := [InsertRow("dsa", table, Keys(schema), RowOf(schema, subs[n])), Commit];
      var log := InsertLog(table, schema, subs);
      assert log == front + tail;
      CommitsAppend(front, tail);
      assert tail[..1] == [tail[0]];
      forall i | 0 <= i < |subs|
        ensures log[2 * i] == InsertRow("dsa", table, Keys(schema), RowOf(schema, subs[i])) && log[2 * i + 1] == Commit
      {
        if i < n {
          assert log[2 * i] == front[2 * i] && log[2 * i + 1] == front[2 * i + 1];
          assert p[i] == subs[i];
        }
      }
    }
  }

  /** The position of the first submission the database rejects among the first `n`, or `n`. */
  function FirstRejected(rejected: set<nat>, n: nat): (k: nat)
    ensures k <= n
    ensures forall j :: 0 <= j < k ==> j !in rejected
    ensures k < n ==> k in rejected
  {
    if n == 0 then 0
    else
      var k := FirstRejected(rejected, n - 1);
      if k < n - 1 then k else if n - 1 in rejected then n - 1 else n
  }

  lemma {:induction false} FirstRejectedStays(rejected: set<nat>, a: nat, b: nat)
    requires a <= b && FirstRejected(rejected, a) < a
    ensures FirstRejected(rejected, b) == FirstRejected(rejected, a)
    decreases b - a
  {
    if a < b {
      FirstRejectedStays(rejected, a, b - 1);
    }
  }

  /**
   * What `insert_data` issues when the submissions in `rejected` make
   * `cursor.execute` raise: the committed inserts before the first
   * rejection, then the rejected insert, which is never committed.
   */
  function LoadLog(table: string, schema: Schema, subs: seq<Submission>, rejected: set<nat>): seq<Stmt> {
    var k := FirstRejected(rejected, |subs|);
    InsertLog(table, schema, subs[..k])
    + (if k < |subs| then [InsertRow("dsa", table, Keys(schema), RowOf(schema, subs[k]))] else [])
  }

  /** `insert_data`; `ok` is false when an INSERT raised and the rest of the load was abandoned. */
  method InsertData(table: string, subs: seq<Submission>, schema: Schema, rejected: set<nat>)
    returns (stmts: seq<Stmt>, ok: bool)
    ensures ok <==> forall j :: 0 <= j < |subs| ==> j !in rejected
    ensures stmts == LoadLog(table, schema, subs, rejected)
  {
    var columns := Keys(schema);
    stmts := [];
    ok := true;
    var i := 0;
    while i < |subs| && ok
      invariant i <= |subs|
      invariant ok ==> FirstRejected(rejected, i) == i && stmts == InsertLog(table, schema, subs[..i])
      invariant !ok ==> 1 <= i && FirstRejected(rejected, i) == i - 1
                        && stmts == InsertLog(table, schema, subs[..i - 1]) + [InsertRow("dsa", table, columns, RowOf(schema, subs[i - 1]))]
      decreases |subs| - i, ok
    {
      var values := ValueRow(schema, subs[i]);
      stmts := stmts + [InsertRow("dsa", table, columns, values)];
      if i in rejected {
        ok := false;
      } else {
        stmts := stmts + [Commit];
        assert subs[..i + 1][..i] == subs[..i];
      }
      i := i + 1;
    }
    if ok {
      assert subs[..i] == subs;
    } else {
      FirstRejectedStays(rejected, i, |subs|);
    }
  }

  /**
   * Each submission loaded before the first rejected one is committed, in
   * submission order; nothing after the rejected one is attempted.
   */
  lemma LoadLogShape(table: string, schema: Schema, subs: seq<Submission>, rejected: set<nat>)
    ensures var k := FirstRejected(rejected, |subs|);
      var log := LoadLog(table, schema, subs, rejected);
      && |log| == 2 * k + (if k < |subs| then 1 else 0)
      && Commits(log) == k
      && (forall i :: 0 <= i < k ==> log[2 * i] == InsertRow("dsa", table, Keys(schema), RowOf(schema, subs[i])))
      && (k == |subs| ==> log == InsertLog(table, schema, subs))
  {
    LoadLogCounts(table, schema, subs, rejected);
    LoadLogInserts(table, schema, subs, rejected);
  }

  lemma LoadLogCounts(table: string, schema: Schema, subs: seq<Submission>, rejected: set<nat>)
    ensures var k := FirstRejected(rejected, |subs|);
      var log := LoadLog(table, schema, subs, rejected);
      && |log| == 2 * k + (if k < |subs| then 1 else 0)
      && Commits(log) == k
  {
    var k := FirstRejected(rejected, |subs|);
    InsertLogShape(table, schema, subs[..k]);
    var tail := if k < |subs| then [InsertRow("dsa", table, Keys(schema), RowOf(schema, subs[k]))] else [];
    CommitsAppend(InsertLog(table, schema, subs[..k]), tail);
    if k < |subs| {
      assert tail == [] + [tail[0]];
    }
  }

  lemma LoadLogInserts(table: string, schema: Schema, subs: seq<Submission>, rejected: set<nat>)
    ensures var k := FirstRejected(rejected, |subs|);
      var log := LoadLog(table, schema, subs, rejected);
      && (forall i :: 0 <= i < k ==> 2 * i < |log| && log[2 * i] == InsertRow("dsa", table, Keys(schema), RowOf(schema, subs[i])))
      && (k == |subs| ==> log == InsertLog(table, schema, subs))
  {
    var k := FirstRejected(rejected, |subs|);
    var done := subs[..k];
    InsertLogShape(table, schema, done);
    var front := InsertLog(table, schema, done);
    var log := LoadLog(table, schema, subs, rejected);
    assert |log| >= |front|;
    forall i | 0 <= i < k
      ensures 2 * i < |log| && log[2 * i] == InsertRow("dsa", table, Keys(schema), RowOf(schema, subs[i]))
    {
      assert log[2 * i] == front[2 * i];
      assert done[i] == subs[i];
    }
    assert k == |subs| ==> done == subs;
  }

  /**
   * `migrate_kobo_to_postgres` with the survey name and the submissions as
   * inputs: nothing at all without submissions; otherwise the schema of the
   * first submission, the table, and the rows.
   */
  method MigrateRaw(surveyName: string, subs: seq<Submission>, rejected: set<nat>)
    returns (table: string, stmts: seq<Stmt>, ok: bool)
    ensures table == CleanSurveyName(surveyName)
    ensures subs == [] ==> stmts == [] && ok
    ensures subs != [] ==>
              && (ok <==> forall j :: 0 <= j < |subs| ==> j !in rejected)
              && stmts == CreateLog(table, SchemaOf(subs[0])) + LoadLog(table, SchemaOf(subs[0]), subs, rejected)
  {
    table := CleanSurveyName(surveyName);
    if subs == [] {
      return table, [], true;
    }
    var schema := InferSchema(subs[0]);
    var created := BuildTable(table, schema);
    var inserted;
    inserted, ok := InsertData(table, subs, schema, rejected);
    stmts := created + inserted;
  }
}
