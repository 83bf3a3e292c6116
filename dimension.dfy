/**
 * The dimension plan of normalizacion.py's `crear_dimension_edw`: which
 * columns the new EDW table gets, which constraints are added, and how its
 * rows are copied from the staging table. SQL text is not modelled; the plan
 * records the decisions the function takes.
 */
module Dimension {
  import opened Wrappers
  import opened Ascii
  import opened Structure

  /** Python truthiness of an optional string: present and non-empty. */
  predicate Truthy(s: Option<string>) { s.Some? && s.value != "" }

  /** Python truthiness of an optional list: present and non-empty. */
  predicate TruthyList(s: Option<seq<string>>) { s.Some? && s.value != [] }

  /** The arguments of `crear_dimension_edw`, apart from the connection and the staging table. */
  datatype Request = Request(
    table: string,
    columns: seq<Column>,
    fkTable: Option<string>,
    fkColumn: Option<string>,
    unique: Option<seq<string>>,
    childMatch: Option<string>,
    parentMatch: Option<string>)

  /** One entry of `column_defs`. */
  datatype ColumnDef =
    | SerialId
    | FkInteger(fk: string)
    | DataColumn(name: string, colType: string)
    | LoadTimestamp
  {
    /** The column name the definition creates. */
    function Name(): string {
      match this
      case SerialId => "id"
      case FkInteger(fk) => fk
      case DataColumn(name, _) => name
      case LoadTimestamp => "fecha_carga_etl"
    }
  }

  /** Only a column whose staging name is `id` (in any case) is dropped; a column renamed to `id` stays. */
  predicate KeepsColumn(c: Column) { LowerStr(c.original) != "id" }

  /** `filtered_columns`, in order. */
  function Kept(cols: seq<Column>): seq<Column> {
    if cols == [] then []
    else Kept(cols[..|cols| - 1]) + (if KeepsColumn(cols[|cols| - 1]) then [cols[|cols| - 1]] else [])
  }

  predicate FkGiven(req: Request) { Truthy(req.fkTable) && Truthy(req.fkColumn) }

  function DataDefs(cols: seq<Column>): (r: seq<ColumnDef>)
    ensures |r| == |cols|
    ensures forall i :: 0 <= i < |cols| ==> r[i] == DataColumn(cols[i].name, cols[i].colType)
  {
    seq(|cols|, i requires 0 <= i < |cols| => DataColumn(cols[i].name, cols[i].colType))
  }

  /** Reference definition of the column list: id, FK column, kept columns, load timestamp. */
  function ColumnDefsOf(req: Request): seq<ColumnDef> {
    [SerialId]
    + (if FkGiven(req) then [FkInteger(req.fkColumn.value)] else [])
    + DataDefs(Kept(req.columns))
    + (if HasTimestampColumns(req.columns) then [LoadTimestamp] else [])
  }

  /** The loop of `crear_dimension_edw` that appends to `column_defs`. */
  method BuildColumnDefs(req: Request) returns (defs: seq<ColumnDef>)
    ensures defs == ColumnDefsOf(req)
  {
    defs := [SerialId];
    if Truthy(req.fkTable) && Truthy(req.fkColumn) {
      defs := defs + [FkInteger(req.fkColumn.value)];
    }
    ghost var head := defs;
    var n := 0;
    while n < |req.columns|
      invariant n <= |req.columns|
      invariant defs == head + DataDefs(Kept(req.columns[..n]))
    {
      var c := req.columns[n];
      DataDefsStep(req.columns, n);
      if LowerStr(c.original) != "id" {
        defs := defs + [DataColumn(c.name, c.colType)];
      }
      n := n + 1;
    }
    assert req.columns[..n] == req.columns;
    if HasTimestampColumns(req.columns) {
      defs := defs + [LoadTimestamp];
    }
  }

  /** One more column of the loop adds its data definition when it is kept. */
  lemma DataDefsStep(cols: seq<Column>, n: nat)
    requires n < |cols|
    ensures DataDefs(Kept(cols[..n + 1])) ==
            DataDefs(Kept(cols[..n])) + (if KeepsColumn(cols[n]) then [DataColumn(cols[n].name, cols[n].colType)] else [])
  {
    assert cols[..n + 1][..n] == cols[..n];
    var k := Kept(cols[..n]);
    if KeepsColumn(cols[n]) {
      assert DataDefs(k + [cols[n]]) == DataDefs(k) + [DataColumn(cols[n].name, cols[n].colType)];
    }
  }

  /** `filtered_columns` keeps exactly the columns whose staging name is not `id`, in order. */
  lemma {:induction false} KeptMembers(cols: seq<Column>)
    ensures forall c :: c in Kept(cols) <==> c in cols && KeepsColumn(c)
    ensures |Kept(cols)| <= |cols|
  {
    if cols != [] {
      var p := cols[..|cols| - 1];
      KeptMembers(p);
      assert cols == p + [cols[|cols| - 1]];
    }
  }

  /** A list without staging `id` columns is kept whole. */
  lemma {:induction false} KeptAll(cols: seq<Column>)
    requires forall i :: 0 <= i < |cols| ==> KeepsColumn(cols[i])
    ensures Kept(cols) == cols
  {
    if cols != [] {
      var p := cols[..|cols| - 1];
      var last := cols[|cols| - 1];
      assert forall i :: 0 <= i < |p| ==> p[i] == cols[i];
      KeptAll(p);
      assert KeepsColumn(last);
      assert Kept(cols) == p + [last];
      assert cols == p + [last];
    }
  }

  /**
   * The shape of `column_defs`: `id` first; the FK column second iff both
   * the FK table and the FK column are given; then one definition per kept
   * column in order; `fecha_carga_etl` last iff some column type, kept or
   * not, starts with `timestamp`.
   */
  lemma ColumnDefsShape(req: Request)
    ensures var defs := ColumnDefsOf(req);
      var f := if FkGiven(req) then 1 else 0;
      var kept := Kept(req.columns);
      && |defs| == 1 + f + |kept| + (if HasTimestampColumns(req.columns) then 1 else 0)
      && defs[0] == SerialId
      && (FkGiven(req) <==> |defs| > 1 && defs[1].FkInteger?)
      && (FkGiven(req) ==> defs[1] == FkInteger(req.fkColumn.value))
      && (forall i :: 0 <= i < |kept| ==> defs[1 + f + i] == DataColumn(kept[i].name, kept[i].colType))
      && (HasTimestampColumns(req.columns) <==> defs[|defs| - 1] == LoadTimestamp)
      && (forall i :: 1 <= i < |defs| ==> defs[i] != SerialId)
  {
    ColumnDefsFront(req);
    ColumnDefsData(req);
    ColumnDefsLast(req);
  }

  /** The parts of the column list: `id` and the optional FK column, the data columns, the optional load timestamp. */
  function DefsHead(req: Request): seq<ColumnDef> {
    [SerialId] + (if FkGiven(req) then [FkInteger(req.fkColumn.value)] else [])
  }

  function DefsTail(req: Request): seq<ColumnDef> {
    if HasTimestampColumns(req.columns) then [LoadTimestamp] else []
  }

  lemma ColumnDefsFront(req: Request)
    ensures ColumnDefsOf(req) == DefsHead(req) + DataDefs(Kept(req.columns)) + DefsTail(req)
    ensures |ColumnDefsOf(req)| == |DefsHead(req)| + |Kept(req.columns)| + |DefsTail(req)|
    ensures ColumnDefsOf(req)[0] == SerialId
    ensures FkGiven(req) ==> ColumnDefsOf(req)[1] == FkInteger(req.fkColumn.value)
    ensures forall i :: 1 <= i < |ColumnDefsOf(req)| ==> ColumnDefsOf(req)[i] != SerialId
  {
    var mid := DataDefs(Kept(req.columns));
    var defs := ColumnDefsOf(req);
    assert forall i :: |DefsHead(req)| <= i < |DefsHead(req)| + |mid| ==> defs[i] == mid[i - |DefsHead(req)|];
  }

  lemma ColumnDefsData(req: Request)
    ensures var f := if FkGiven(req) then 1 else 0;
      var kept := Kept(req.columns);
      forall i :: 0 <= i < |kept| ==> 1 + f + i < |ColumnDefsOf(req)| && ColumnDefsOf(req)[1 + f + i] == DataColumn(kept[i].name, kept[i].colType)
    ensures !FkGiven(req) && |ColumnDefsOf(req)| > 1 ==> !ColumnDefsOf(req)[1].FkInteger?
  {
    ColumnDefsFront(req);
    var head, mid, tail := DefsHead(req), DataDefs(Kept(req.columns)), DefsTail(req);
    assert |head| == if FkGiven(req) then 2 else 1;
    forall i | 0 <= i < |mid|
      ensures ColumnDefsOf(req)[|head| + i] == mid[i]
    {
      ConcatMiddle(head, mid, tail, i);
    }
    if !FkGiven(req) && |ColumnDefsOf(req)| > 1 {
      if mid != [] {
        assert ColumnDefsOf(req)[1] == mid[0];
      } else {
        assert ColumnDefsOf(req) == head + tail;
      }
    }
  }

  lemma ConcatMiddle<T>(a: seq<T>, m: seq<T>, b: seq<T>, i: nat)
    requires i < |m|
    ensures |a| + i < |a + m + b| && (a + m + b)[|a| + i] == m[i]
  {
  }

  lemma ColumnDefsLast(req: Request)
    ensures HasTimestampColumns(req.columns) <==> ColumnDefsOf(req)[|ColumnDefsOf(req)| - 1] == LoadTimestamp
  {
    ColumnDefsFront(req);
    var defs := ColumnDefsOf(req);
    var mid := DataDefs(Kept(req.columns));
    if !HasTimestampColumns(req.columns) {
      if mid != [] {
        assert defs[|defs| - 1] == mid[|mid| - 1];
      } else {
        assert defs == DefsHead(req);
      }
    }
  }

  /** How the rows are copied into the new table. */
  datatype InsertMode =
    | CopyAll
    | DistinctOn(key: seq<string>)
    | JoinParent(parent: string, childMatch: string, parentMatch: string, distinctKey: Option<seq<string>>)

  /** What happens to the rows: no INSERT, an INSERT, or a `TypeError` from a missing FK column name. */
  datatype Migration =
    | NoInsert
    | Insert(mode: InsertMode, source: seq<string>, target: seq<string>)
    | Raises

  datatype Plan = Plan(
    defs: seq<ColumnDef>,
    uniqueConstraint: Option<seq<string>>,
    fkConstraint: Option<(string, string)>,
    migration: Migration)
  {
    /** The function commits (and prints its summary) only after issuing the INSERT. */
    predicate Commits() { migration.Insert? }
  }

  function SourceNames(cols: seq<Column>): (r: seq<string>)
    ensures |r| == |cols| && forall i :: 0 <= i < |cols| ==> r[i] == cols[i].original
  {
    seq(|cols|, i requires 0 <= i < |cols| => cols[i].original)
  }

  function TargetNames(cols: seq<Column>): (r: seq<string>)
    ensures |r| == |cols| && forall i :: 0 <= i < |cols| ==> r[i] == cols[i].name
  {
    seq(|cols|, i requires 0 <= i < |cols| => cols[i].name)
  }

  /** The migration branch of `crear_dimension_edw`. */
  function MigrationOf(req: Request): Migration {
    var kept := Kept(req.columns);
    if !Truthy(req.fkTable) then
      Insert(if TruthyList(req.unique) then DistinctOn(req.unique.value) else CopyAll,
             SourceNames(kept), TargetNames(kept))
    else if !Truthy(req.childMatch) || !Truthy(req.parentMatch) then NoInsert
    else if req.fkColumn.None? then Raises
    else
      Insert(JoinParent(req.fkTable.value, req.childMatch.value, req.parentMatch.value,
                        if TruthyList(req.unique) then req.unique else None),
             SourceNames(kept), [req.fkColumn.value] + TargetNames(kept))
  }

  /** `crear_dimension_edw` as a plan. */
  function PlanDimension(req: Request): (p: Plan)
    ensures p.defs == ColumnDefsOf(req)
    ensures p.uniqueConstraint.Some? <==> TruthyList(req.unique)
    ensures p.uniqueConstraint.Some? ==> p.uniqueConstraint == req.unique
    ensures p.fkConstraint.Some? <==> FkGiven(req)
    ensures p.fkConstraint.Some? ==> p.fkConstraint.value == (req.fkColumn.value, req.fkTable.value)
    ensures p.migration == MigrationOf(req)
  {
    Plan(ColumnDefsOf(req),
         if TruthyList(req.unique) then req.unique else None,
         if FkGiven(req) then Some((req.fkColumn.value, req.fkTable.value)) else None,
         MigrationOf(req))
  }

  /**
   * The INSERT copies the kept columns: source and target lists are
   * index-aligned, staging name to destination name, and with an FK table
   * the target list starts with the FK column.
   */
  lemma MigrationAligned(req: Request)
    ensures var m := MigrationOf(req);
      var kept := Kept(req.columns);
      m.Insert? ==>
        && |m.source| == |kept|
        && (forall i :: 0 <= i < |kept| ==> m.source[i] == kept[i].original)
        && (if m.mode.JoinParent? then
              && m.target == [req.fkColumn.value] + TargetNames(kept)
              && (forall i :: 0 <= i < |kept| ==> m.target[i + 1] == kept[i].name)
            else
              && |m.target| == |kept|
              && (forall i :: 0 <= i < |kept| ==> m.target[i] == kept[i].name))
  {
  }

  /**
   * Which insert is issued: without an FK table a plain copy or a
   * DISTINCT ON copy; with one, nothing when a match column is missing,
   * otherwise a LEFT JOIN to the parent.
   */
  lemma MigrationChoice(req: Request)
    ensures MigrationOf(req).NoInsert? <==> Truthy(req.fkTable) && !(Truthy(req.childMatch) && Truthy(req.parentMatch))
    ensures !Truthy(req.fkTable) ==> MigrationOf(req).Insert? && MigrationOf(req).mode.CopyAll? == !TruthyList(req.unique)
    ensures MigrationOf(req).Insert? && MigrationOf(req).mode.JoinParent? <==>
              Truthy(req.fkTable) && Truthy(req.childMatch) && Truthy(req.parentMatch) && req.fkColumn.Some?
    ensures MigrationOf(req).Raises? <==>
              Truthy(req.fkTable) && Truthy(req.childMatch) && Truthy(req.parentMatch) && req.fkColumn.None?
  {
  }

  /**
   * An empty checkbox answer behaves like no answer, and when a key is set it
   * is the same list for the UNIQUE constraint and for DISTINCT ON.
   */
  lemma UniqueListReused(req: Request)
    ensures PlanDimension(req.(unique := Some([]))) == PlanDimension(req.(unique := None))
    ensures var p := PlanDimension(req);
      p.uniqueConstraint.Some? && p.migration.Insert? ==>
        (p.migration.mode.DistinctOn? && p.migration.mode.key == p.uniqueConstraint.value) ||
        (p.migration.mode.JoinParent? && p.migration.mode.distinctKey == p.uniqueConstraint)
    ensures var p := PlanDimension(req);
      p.migration.Insert? && (p.migration.mode.DistinctOn? || (p.migration.mode.JoinParent? && p.migration.mode.distinctKey.Some?)) ==>
        p.uniqueConstraint.Some?
  {
  }
}
