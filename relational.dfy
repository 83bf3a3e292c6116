/**
 * A small row semantics for the INSERT ... SELECT statements that
 * `crear_dimension_edw` issues (normalizacion.py), so that row counts and
 * foreign-key values of a dimension plan can be stated. A row is a map from
 * column name to cell; a table is a sequence of rows.
 */
module Relational {
  import opened Wrappers
  import opened Dimension

  /** A cell: SQL NULL, a staging value, or a SERIAL id. */
  datatype Cell = Null | Val(text: string) | Serial(n: nat)

  type Row = map<string, Cell>

  /** The value of `col` in `r`; a column the row lacks reads as NULL. */
  function CellOf(r: Row, col: string): Cell {
    if col in r then r[col] else Null
  }

  predicate DistinctNames(names: seq<string>) {
    forall i, j :: 0 <= i < j < |names| ==> names[i] != names[j]
  }

  /** `SELECT source_cols` inserted into `target_cols`: the row renamed through the aligned lists. */
  function Project(r: Row, source: seq<string>, target: seq<string>): (p: Row)
    requires |source| == |target|
    ensures p.Keys == set t | t in target
  {
    if source == [] then map[]
    else
      var n := |source| - 1;
      Project(r, source[..n], target[..n])[target[n] := CellOf(r, source[n])]
  }

  /** With distinct destination names, each destination column holds its source column's value. */
  lemma {:induction false} ProjectAt(r: Row, source: seq<string>, target: seq<string>, i: nat)
    requires |source| == |target| && DistinctNames(target) && i < |target|
    ensures Project(r, source, target)[target[i]] == CellOf(r, source[i])
  {
    var n := |source| - 1;
    if i < n {
      assert DistinctNames(target[..n]);
      ProjectAt(r, source[..n], target[..n], i);
    }
  }

  function ProjectAll(rows: seq<Row>, source: seq<string>, target: seq<string>): (r: seq<Row>)
    requires |source| == |target|
    ensures |r| == |rows|
    ensures forall i :: 0 <= i < |rows| ==> r[i] == Project(rows[i], source, target)
  {
    seq(|rows|, i requires 0 <= i < |rows| => Project(rows[i], source, target))
  }

  /** The values of the key columns of a row. */
  function KeyOf(r: Row, key: seq<string>): seq<Cell> {
    seq(|key|, i requires 0 <= i < |key| => CellOf(r, key[i]))
  }

  function KeySet(rows: seq<Row>, key: seq<string>): set<seq<Cell>> {
    if rows == [] then {} else {KeyOf(rows[0], key)} + KeySet(rows[1..], key)
  }

  /**
   * `SELECT DISTINCT ON (key)`: one row per key combination (NULLs compare
   * equal here, as they do for DISTINCT ON). The first row of each
   * combination is kept; `seen` holds the combinations already emitted.
   */
  function DistinctOnFrom(rows: seq<Row>, key: seq<string>, seen: set<seq<Cell>>): (r: seq<Row>)
    ensures |r| <= |rows|
    ensures forall x :: x in r ==> x in rows
  {
    if rows == [] then []
    else if KeyOf(rows[0], key) in seen then DistinctOnFrom(rows[1..], key, seen)
    else [rows[0]] + DistinctOnFrom(rows[1..], key, seen + {KeyOf(rows[0], key)})
  }

  function DistinctOn(rows: seq<Row>, key: seq<string>): seq<Row> {
    DistinctOnFrom(rows, key, {})
  }

  /** The rows kept have pairwise different keys, none already seen, and every key combination is kept. */
  lemma {:induction false} DistinctOnFromKeys(rows: seq<Row>, key: seq<string>, seen: set<seq<Cell>>)
    ensures var r := DistinctOnFrom(rows, key, seen);
      && (forall i, j :: 0 <= i < j < |r| ==> KeyOf(r[i], key) != KeyOf(r[j], key))
      && KeySet(r, key) !! seen
      && KeySet(r, key) + seen == KeySet(rows, key) + seen
  {
    if rows != [] {
      var k := KeyOf(rows[0], key);
      if k in seen {
        DistinctOnFromKeys(rows[1..], key, seen);
      } else {
        var rest := DistinctOnFrom(rows[1..], key, seen + {k});
        DistinctOnFromKeys(rows[1..], key, seen + {k});
        var r := [rows[0]] + rest;
        assert r[1..] == rest;
        KeySetMembers(rest, key);
        forall i, j | 0 <= i < j < |r| ensures KeyOf(r[i], key) != KeyOf(r[j], key) {
          if i == 0 {
            assert KeyOf(r[j], key) in KeySet(rest, key) by { assert r[j] == rest[j - 1]; }
          }
        }
      }
    }
  }

  lemma {:induction false} KeySetMembers(rows: seq<Row>, key: seq<string>)
    ensures forall i :: 0 <= i < |rows| ==> KeyOf(rows[i], key) in KeySet(rows, key)
    ensures forall k :: k in KeySet(rows, key) ==> exists i :: 0 <= i < |rows| && KeyOf(rows[i], key) == k
  {
    if rows != [] {
      KeySetMembers(rows[1..], key);
      assert forall i :: 1 <= i < |rows| ==> rows[i] == rows[1..][i - 1];
    }
  }

  /** Rows with pairwise different keys have as many key combinations as rows. */
  lemma {:induction false} KeySetSize(rows: seq<Row>, key: seq<string>)
    requires forall i, j :: 0 <= i < j < |rows| ==> KeyOf(rows[i], key) != KeyOf(rows[j], key)
    ensures |KeySet(rows, key)| == |rows|
  {
    if rows != [] {
      var rest := rows[1..];
      KeySetSize(rest, key);
      KeySetMembers(rest, key);
      assert KeyOf(rows[0], key) !in KeySet(rest, key);
    }
  }

  /** DISTINCT ON leaves exactly one row per distinct key combination of its input. */
  lemma DistinctOnCount(rows: seq<Row>, key: seq<string>)
    ensures var r := DistinctOn(rows, key);
      && (forall i, j :: 0 <= i < j < |r| ==> KeyOf(r[i], key) != KeyOf(r[j], key))
      && KeySet(r, key) == KeySet(rows, key)
      && |r| == |KeySet(rows, key)|
  {
    DistinctOnFromKeys(rows, key, {});
    KeySetSize(DistinctOn(rows, key), key);
  }

  /** The parent rows whose match column equals the child's, NULL matching nothing. */
  function Matches(child: Row, parent: seq<Row>, childMatch: string, parentMatch: string): (m: seq<Row>)
    ensures |m| <= |parent|
    ensures forall p :: p in m <==> p in parent && CellOf(p, parentMatch) != Null && CellOf(p, parentMatch) == CellOf(child, childMatch)
  {
    if parent == [] then []
    else
      var p := parent[0];
      (if CellOf(p, parentMatch) != Null && CellOf(p, parentMatch) == CellOf(child, childMatch) then [p] else [])
      + Matches(child, parent[1..], childMatch, parentMatch)
  }

  /** The rows the LEFT JOIN makes from one staging row: one per matching parent, or one with a NULL FK. */
  function JoinOne(base: Row, fkColumn: string, matches: seq<Row>): (r: seq<Row>)
    ensures |r| == if matches == [] then 1 else |matches|
  {
    if matches == [] then [base[fkColumn := Null]]
    else seq(|matches|, i requires 0 <= i < |matches| => base[fkColumn := CellOf(matches[i], "id")])
  }

  /** `SELECT parent.id, source_cols FROM dsa LEFT JOIN parent ON dsa.childMatch = parent.parentMatch`. */
  function LeftJoin(dsa: seq<Row>, parent: seq<Row>, childMatch: string, parentMatch: string,
                    source: seq<string>, target: seq<string>, fkColumn: string): seq<Row>
    requires |source| == |target|
  {
    if dsa == [] then []
    else
      JoinOne(Project(dsa[0], source, target), fkColumn, Matches(dsa[0], parent, childMatch, parentMatch))
      + LeftJoin(dsa[1..], parent, childMatch, parentMatch, source, target, fkColumn)
  }

  /** No staging row is lost by the LEFT JOIN; with at most one match per row the count is unchanged. */
  lemma {:induction false} LeftJoinCount(dsa: seq<Row>, parent: seq<Row>, childMatch: string, parentMatch: string,
                                         source: seq<string>, target: seq<string>, fkColumn: string)
    requires |source| == |target|
    ensures |LeftJoin(dsa, parent, childMatch, parentMatch, source, target, fkColumn)| >= |dsa|
    ensures (forall i :: 0 <= i < |dsa| ==> |Matches(dsa[i], parent, childMatch, parentMatch)| <= 1) ==>
              |LeftJoin(dsa, parent, childMatch, parentMatch, source, target, fkColumn)| == |dsa|
  {
    if dsa != [] {
      LeftJoinCount(dsa[1..], parent, childMatch, parentMatch, source, target, fkColumn);
      assert forall i :: 1 <= i < |dsa| ==> dsa[1..][i - 1] == dsa[i];
    }
  }

  /** Distinct non-NULL match values in the parent give each staging row at most one match. */
  lemma {:induction false} UniqueParentMatch(child: Row, parent: seq<Row>, childMatch: string, parentMatch: string)
    requires forall i, j :: 0 <= i < j < |parent| && CellOf(parent[i], parentMatch) != Null ==>
               CellOf(parent[i], parentMatch) != CellOf(parent[j], parentMatch)
    ensures |Matches(child, parent, childMatch, parentMatch)| <= 1
  {
    if parent != [] {
      var rest := parent[1..];
      UniqueParentMatch(child, rest, childMatch, parentMatch);
      if CellOf(parent[0], parentMatch) != Null && CellOf(parent[0], parentMatch) == CellOf(child, childMatch) {
        var v := CellOf(parent[0], parentMatch);
        forall p | p in rest ensures CellOf(p, parentMatch) != v {
          var j :| 0 <= j < |rest| && rest[j] == p;
          assert parent[j + 1] == p;
        }
        NoMatches(child, rest, childMatch, parentMatch);
      }
    }
  }

  lemma {:induction false} NoMatches(child: Row, parent: seq<Row>, childMatch: string, parentMatch: string)
    requires forall p :: p in parent ==> CellOf(p, parentMatch) != CellOf(child, childMatch)
    ensures Matches(child, parent, childMatch, parentMatch) == []
  {
    if parent != [] {
      assert parent[0] in parent;
      assert forall p :: p in parent[1..] ==> p in parent;
      NoMatches(child, parent[1..], childMatch, parentMatch);
    }
  }

  /**
   * The FK column of a joined row is NULL exactly when no parent row
   * matched; otherwise it is the id of a parent row whose match column
   * equals the staging row's. The other columns are the projected row.
   */
  lemma JoinOneFk(child: Row, parent: seq<Row>, childMatch: string, parentMatch: string,
                  source: seq<string>, target: seq<string>, fkColumn: string)
    requires |source| == |target|
    requires forall p :: p in parent ==> CellOf(p, "id").Serial?
    ensures var m := Matches(child, parent, childMatch, parentMatch);
      var rows := JoinOne(Project(child, source, target), fkColumn, m);
      && (forall x :: x in rows ==> (CellOf(x, fkColumn) == Null <==> m == []))
      && (forall x :: x in rows && CellOf(x, fkColumn) != Null ==>
            exists p :: p in parent && CellOf(p, "id") == CellOf(x, fkColumn) &&
                        CellOf(p, parentMatch) == CellOf(child, childMatch) && CellOf(child, childMatch) != Null)
      && (forall x, c :: x in rows && c in target && c != fkColumn ==> CellOf(x, c) == CellOf(Project(child, source, target), c))
  {
    var m := Matches(child, parent, childMatch, parentMatch);
    var rows := JoinOne(Project(child, source, target), fkColumn, m);
    forall x | x in rows && CellOf(x, fkColumn) != Null
      ensures exists p :: p in parent && CellOf(p, "id") == CellOf(x, fkColumn) &&
                          CellOf(p, parentMatch) == CellOf(child, childMatch) && CellOf(child, childMatch) != Null
    {
      var i :| 0 <= i < |rows| && rows[i] == x;
      assert m[i] in m;
    }
  }

  /** SERIAL ids: the i-th inserted row gets id i + 1. */
  function Number(rows: seq<Row>): (r: seq<Row>)
    ensures |r| == |rows|
    ensures forall i :: 0 <= i < |rows| ==> r[i] == rows[i]["id" := Serial(i + 1)]
  {
    seq(|rows|, i requires 0 <= i < |rows| => rows[i]["id" := Serial(i + 1)])
  }

  /** The ids of a loaded table are distinct. */
  lemma NumberedIdsDistinct(rows: seq<Row>)
    ensures forall i, j :: 0 <= i < j < |rows| ==> CellOf(Number(rows)[i], "id") != CellOf(Number(rows)[j], "id")
  {
  }

  predicate WellFormed(m: Migration) {
    m.Insert? ==> |m.target| == |m.source| + (if m.mode.JoinParent? then 1 else 0)
  }

  /**
   * The rows of the new table after the call (before any later change),
   * or None when the call raises. The table is dropped and re-created first,
   * so what it held before does not matter. Rows are numbered in the order
   * `DistinctOn` keeps them; the source's `ORDER BY` numbers them in key
   * order instead, so only the row count and key set agree with it.
   */
  function Execute(m: Migration, dsa: seq<Row>, parent: seq<Row>): Option<seq<Row>>
    requires WellFormed(m)
  {
    match m
    case NoInsert => Some([])
    case Raises => None
    case Insert(mode, source, target) =>
      match mode
      case CopyAll => Some(Number(ProjectAll(dsa, source, target)))
      case DistinctOn(key) => Some(Number(DistinctOn(ProjectAll(dsa, source, target), key)))
      case JoinParent(_, childMatch, parentMatch, distinctKey) =>
        var joined := LeftJoin(dsa, parent, childMatch, parentMatch, source, target[1..], target[0]);
        Some(Number(if distinctKey.Some? then DistinctOn(joined, distinctKey.value) else joined))
  }

  lemma MigrationWellFormed(req: Request)
    ensures WellFormed(MigrationOf(req))
  {
  }

  /**
   * Row counts of a dimension load: one row per staging row without FK or
   * unique columns; one row per distinct key combination with unique
   * columns and no FK; no rows when an FK table is given without both
   * match columns; at least one row per staging row with an FK and no key.
   */
  lemma PlanRowCount(req: Request, dsa: seq<Row>, parent: seq<Row>)
    ensures WellFormed(MigrationOf(req))
    ensures var m := MigrationOf(req);
      var kept := Kept(req.columns);
      var out := Execute(m, dsa, parent);
      && (!Truthy(req.fkTable) && !TruthyList(req.unique) ==> out.Some? && |out.value| == |dsa|)
      && (!Truthy(req.fkTable) && TruthyList(req.unique) ==>
            out.Some? && |out.value| == |KeySet(ProjectAll(dsa, SourceNames(kept), TargetNames(kept)), req.unique.value)|)
      && (m.NoInsert? ==> out == Some([]))
      && (m.Insert? && m.mode.JoinParent? && !TruthyList(req.unique) ==> out.Some? && |out.value| >= |dsa|)
  {
    var m := MigrationOf(req);
    var kept := Kept(req.columns);
    if !Truthy(req.fkTable) && TruthyList(req.unique) {
      DistinctOnCount(ProjectAll(dsa, SourceNames(kept), TargetNames(kept)), req.unique.value);
    }
    if m.Insert? && m.mode.JoinParent? {
      LeftJoinCount(dsa, parent, m.mode.childMatch, m.mode.parentMatch, m.source, m.target[1..], m.target[0]);
    }
  }
}
