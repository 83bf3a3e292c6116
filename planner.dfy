/**
 * The interactive driver of normalizacion.py (`normalizar_interactivo`),
 * with its terminal prompts replaced by a scripted answer sequence: the
 * partition loop that carves EDW tables out of the main columns, the pass
 * over the nested groups that creates group tables (optionally linked to a
 * parent), and the `tablas_creadas` registry from table name to parent.
 *
 * Every table creation is recorded as the `Request` handed to
 * `crear_dimension_edw`; the `Dimension` and `Relational` modules say what a
 * request does.
 */
module Planner {
  import opened Wrappers
  import opened Ascii
  import opened PyDict
  import opened Structure
  import opened Dimension
  import opened Prompts
  import opened Selection

  /** The default table name offered for table number `counter` of the partition loop. */
  function DefaultTableName(counter: nat): string {
    "d_" + (if counter == 1 then "encuesta" else "dimension_" + Decimal(counter))
  }

  /** Different tables of the partition loop are offered different default names. */
  lemma DefaultTableNamesDistinct(m: nat, n: nat)
    requires m != n
    ensures DefaultTableName(m) != DefaultTableName(n)
  {
    var a, b := DefaultTableName(m), DefaultTableName(n);
    if m == 1 || n == 1 {
      assert a[2] != b[2];
    } else if a == b {
      assert Decimal(m) == a[12..] && Decimal(n) == b[12..];
      DecimalInjective(m, n);
    }
  }

  /** The table names of the requests, in creation order. */
  function Names(created: seq<Request>): (r: seq<string>)
    ensures |r| == |created| && forall i :: 0 <= i < |created| ==> r[i] == created[i].table
  {
    seq(|created|, i requires 0 <= i < |created| => created[i].table)
  }

  /** Every column any of the requests took, in creation order. */
  function Taken(created: seq<Request>): seq<Column> {
    if created == [] then [] else Taken(created[..|created| - 1]) + created[|created| - 1].columns
  }

  lemma {:induction false} TakenMembers(created: seq<Request>)
    ensures forall c :: c in Taken(created) <==> exists k :: 0 <= k < |created| && c in created[k].columns
  {
    if created != [] {
      var p := created[..|created| - 1];
      TakenMembers(p);
      assert forall k :: 0 <= k < |p| ==> p[k] == created[k];
    }
  }

  /** `tablas_creadas[name] = parent` for each request in turn; the parent is the request's FK table. */
  function RegistryOf(created: seq<Request>): Dict<string, Option<string>> {
    if created == [] then []
    else
      var r := created[|created| - 1];
      Put(RegistryOf(created[..|created| - 1]), r.table, r.fkTable)
  }

  /** The position of the last request named `name`. */
  function LastIndex(created: seq<Request>, name: string): (k: nat)
    requires name in Names(created)
    ensures k < |created| && created[k].table == name
    ensures forall j :: k < j < |created| ==> created[j].table != name
  {
    var n := |created| - 1;
    if created[n].table == name then n
    else
      assert Names(created[..n]) == Names(created)[..n];
      LastIndex(created[..n], name)
  }

  /** The distinct names of `s`, each once, in order of first appearance. */
  function FirstOccurrences(s: seq<string>): (r: seq<string>)
    ensures forall x :: x in r <==> x in s
    ensures forall i, j :: 0 <= i < j < |r| ==> r[i] != r[j]
  {
    if s == [] then []
    else
      var p, x := s[..|s| - 1], s[|s| - 1];
      assert s == p + [x];
      if x in p then FirstOccurrences(p) else FirstOccurrences(p) + [x]
  }

  /**
   * The registry holds each created name once, in order of first creation,
   * bound to the FK table of the last request with that name.
   */
  lemma {:induction false} RegistryLookup(created: seq<Request>, name: string)
    ensures DistinctKeys(RegistryOf(created))
    ensures Keys(RegistryOf(created)) == FirstOccurrences(Names(created))
    ensures name in Keys(RegistryOf(created)) <==> name in Names(created)
    ensures Get(RegistryOf(created), name) ==
              if name in Names(created) then Some(created[LastIndex(created, name)].fkTable) else None
  {
    if created != [] {
      var n := |created| - 1;
      var p := created[..n];
      var r := created[n];
      RegistryLookup(p, name);
      RegistryLookup(p, r.table);
      PutDistinct(RegistryOf(p), r.table, r.fkTable);
      PutGet(RegistryOf(p), r.table, r.fkTable, name);
      assert Names(created) == Names(p) + [r.table];
      assert Names(created)[..n] == Names(p);
      if r.table !in Keys(RegistryOf(p)) {
        assert Keys(RegistryOf(p) + [(r.table, r.fkTable)]) == Keys(RegistryOf(p)) + [r.table];
      }
      assert Get(RegistryOf(created), name).Some? <==> name in Keys(RegistryOf(created));
      if name != r.table && name in Names(created) {
        assert Names(p) == Names(created)[..n];
      }
    }
  }

  /** The column names `information_schema` lists for a table, minus `id` and `fecha_carga_etl`. */
  function MatchChoices(defs: seq<ColumnDef>): (r: seq<string>)
    ensures forall x :: x in r <==> (exists d :: d in defs && d.Name() == x) && x != "id" && x != "fecha_carga_etl"
  {
    if defs == [] then []
    else
      var d := defs[|defs| - 1];
      var p := defs[..|defs| - 1];
      assert forall e :: e in defs <==> e in p || e == d;
      MatchChoices(p) + (if d.Name() != "id" && d.Name() != "fecha_carga_etl" then [d.Name()] else [])
  }

  /**
   * The choices keep the catalog's `ordinal_position` order: those of a
   * concatenation are the choices of each part in turn, and one column
   * contributes its name unless it is `id` or `fecha_carga_etl`.
   */
  lemma {:induction false} MatchChoicesAppend(a: seq<ColumnDef>, b: seq<ColumnDef>)
    ensures MatchChoices(a + b) == MatchChoices(a) + MatchChoices(b)
    decreases |b|
  {
    if b == [] {
      assert a + b == a;
    } else {
      var b' := b[..|b| - 1];
      MatchChoicesAppend(a, b');
      assert (a + b)[..|a + b| - 1] == a + b' && (a + b)[|a + b| - 1] == b[|b| - 1];
    }
  }

  lemma MatchChoicesSingle(d: ColumnDef)
    ensures MatchChoices([d]) == if d.Name() != "id" && d.Name() != "fecha_carga_etl" then [d.Name()] else []
  {
    assert [d][..0] == [];
  }

  /** The match-column choices for parent `parent`: the columns of the table last created under that name. */
  function ParentColumns(created: seq<Request>, parent: string): seq<string>
    requires parent in Names(created)
  {
    MatchChoices(ColumnDefsOf(created[LastIndex(created, parent)]))
  }

  /** Unique columns are picked among the request's destination names. */
  predicate UniqueFromColumns(r: Request) {
    r.unique.Some? ==> forall u :: u in r.unique.value ==> u in TargetNames(r.columns)
  }

  /**
   * What the driver guarantees of a request, given the requests before it:
   * without a parent no FK argument is passed; with one, the parent is an
   * earlier table (never `Ninguna` nor empty), the FK column is the parent's
   * name followed by `_id`, no unique columns are passed, and the match
   * columns come from the parent's columns and the staging columns.
   */
  predicate LinkOk(prev: seq<Request>, r: Request, dsaNames: seq<string>) {
    && UniqueFromColumns(r)
    && (r.fkTable.None? ==> r.fkColumn.None? && r.childMatch.None? && r.parentMatch.None?)
    && (r.fkTable.Some? ==>
          var p := r.fkTable.value;
          && p in Names(prev) && p != "" && p != "Ninguna"
          && r.fkColumn == Some(p + "_id")
          && r.unique.None?
          && (r.parentMatch.Some? ==> r.parentMatch.value in ParentColumns(prev, p))
          && (r.childMatch.Some? ==> r.childMatch.value in dsaNames))
  }

  ghost predicate AllLinked(created: seq<Request>, dsaNames: seq<string>) {
    forall k :: 0 <= k < |created| ==> LinkOk(created[..k], created[k], dsaNames)
  }

  lemma AllLinkedAppend(created: seq<Request>, r: Request, dsaNames: seq<string>)
    requires AllLinked(created, dsaNames) && LinkOk(created, r, dsaNames)
    ensures AllLinked(created + [r], dsaNames)
  {
    var c := created + [r];
    forall k | 0 <= k < |c| ensures LinkOk(c[..k], c[k], dsaNames) {
      if k < |created| {
        assert c[..k] == created[..k];
      } else {
        assert c[..k] == created;
      }
    }
  }

  /** Every parent in the registry is itself a registered table. */
  lemma RegistryParentsRegistered(created: seq<Request>, dsaNames: seq<string>, name: string)
    requires AllLinked(created, dsaNames)
    ensures var g := Get(RegistryOf(created), name);
      g.Some? && g.value.Some? ==> g.value.value in Keys(RegistryOf(created))
  {
    RegistryLookup(created, name);
    if name in Names(created) {
      var k := LastIndex(created, name);
      var r := created[k];
      if r.fkTable.Some? {
        assert LinkOk(created[..k], r, dsaNames);
        var p := r.fkTable.value;
        assert Names(created[..k]) == Names(created)[..k];
        RegistryLookup(created, p);
      }
    }
  }

  /** The driver never calls `crear_dimension_edw` with an FK table and no FK column name. */
  lemma LinkedNeverRaises(prev: seq<Request>, r: Request, dsaNames: seq<string>)
    requires LinkOk(prev, r, dsaNames)
    ensures !MigrationOf(r).Raises?
    ensures FkGiven(r) <==> r.fkTable.Some?
  {
  }

  /** `c` is column `d`, possibly under another name: same type and staging name. */
  predicate ColumnAs(c: Column, d: Column) {
    c.colType == d.colType && c.original == d.original
  }

  /** `cols'` is `cols` with some names changed: same length, types and staging names. */
  predicate Renaming(cols: seq<Column>, cols': seq<Column>) {
    |cols'| == |cols| && forall i :: 0 <= i < |cols| ==> ColumnAs(cols'[i], cols[i])
  }

  /** There is no `Yes` among the answers from `from` up to `to`. */
  predicate NoYes(script: seq<Answer>, from: nat, to: nat) {
    forall k :: from <= k < to ==> Next(script, k) != Yes
  }

  /** Outcome of renaming: whether every prompt was answered, the columns so far, the cursor. */
  datatype Renamed = Renamed(ok: bool, columns: seq<Column>, next: nat)

  function Prepend(c: Column, r: Renamed): Renamed {
    r.(columns := [c] + r.columns)
  }

  /**
   * Reference definition of the rename loop, column by column: a confirm
   * (default no) and, when it is accepted, a text prompt whose default is the
   * current name (`preguntar_nombre_columna`). A cancelled text prompt stops
   * the run with the columns renamed so far.
   */
  function RenameSpec(cols: seq<Column>, script: seq<Answer>, pos: nat): (r: Renamed)
    requires pos <= |script|
    ensures pos <= r.next <= |script|
    ensures r.ok ==> Renaming(cols, r.columns)
    decreases |cols|
  {
    if cols == [] then Renamed(true, [], pos)
    else
      var c := cols[0];
      var at := Advance(script, pos);
      if Accepted(Confirm(Next(script, pos), false)) then
        var typed := Text(Next(script, at), c.name);
        if typed.None? then Renamed(false, [], Advance(script, at))
        else
          var rest := RenameSpec(cols[1..], script, Advance(script, at));
          assert rest.ok ==> Renaming(cols, [c.(name := typed.value)] + rest.columns) by {
            if rest.ok {
              forall i | 0 < i < |cols| ensures ([c.(name := typed.value)] + rest.columns)[i] == rest.columns[i - 1] {}
            }
          }
          Prepend(c.(name := typed.value), rest)
      else
        var rest := RenameSpec(cols[1..], script, at);
        assert rest.ok ==> Renaming(cols, [c] + rest.columns) by {
          if rest.ok {
            forall i | 0 < i < |cols| ensures ([c] + rest.columns)[i] == rest.columns[i - 1] {}
          }
        }
        Prepend(c, rest)
  }

  /**
   * What each answer does to the first column: `Yes` then a typed name
   * renames it, `Yes` then Enter keeps its name (the default), `No` or Enter
   * at the confirm keeps it without a text prompt, and `Yes` followed by a
   * cancelled text prompt stops the run.
   */
  lemma RenameAnswers(cols: seq<Column>, script: seq<Answer>, pos: nat)
    requires cols != [] && pos <= |script|
    ensures Next(script, pos) == Yes && Next(script, pos + 1).Typed? ==>
              RenameSpec(cols, script, pos) == Prepend(cols[0].(name := Next(script, pos + 1).text), RenameSpec(cols[1..], script, pos + 2))
    ensures Next(script, pos) == Yes && Next(script, pos + 1) == Enter ==>
              RenameSpec(cols, script, pos) == Prepend(cols[0], RenameSpec(cols[1..], script, pos + 2))
    ensures (Next(script, pos) == No || Next(script, pos) == Enter) ==>
              RenameSpec(cols, script, pos) == Prepend(cols[0], RenameSpec(cols[1..], script, pos + 1))
    ensures Next(script, pos) == Yes && !Next(script, pos + 1).Typed? && Next(script, pos + 1) != Enter ==>
              !RenameSpec(cols, script, pos).ok
  {
    if Next(script, pos) == Yes && Next(script, pos + 1) == Enter {
      assert cols[0].(name := cols[0].name) == cols[0];
    }
  }

  /** Without a `Yes` among the answers it reads, the rename loop changes nothing. */
  lemma {:induction false} RenameWithoutYes(cols: seq<Column>, script: seq<Answer>, pos: nat)
    requires pos <= |script|
    ensures var r := RenameSpec(cols, script, pos); r.ok && NoYes(script, pos, r.next) ==> r.columns == cols
    decreases |cols|
  {
    var r := RenameSpec(cols, script, pos);
    if cols != [] && r.ok && NoYes(script, pos, r.next) {
      var at := Advance(script, pos);
      RenameSpecStep(cols, script, pos);
      if Accepted(Confirm(Next(script, pos), false)) {
        assert false;
      }
      var rest := RenameSpec(cols[1..], script, at);
      assert r == Prepend(cols[0], rest);
      NoYesFrom(script, pos, at, r.next);
      RenameWithoutYes(cols[1..], script, at);
      assert cols == [cols[0]] + cols[1..];
    }
  }

  /** A stretch of answers without `Yes` has no `Yes` in any later part. */
  lemma NoYesFrom(script: seq<Answer>, from: nat, at: nat, to: nat)
    requires NoYes(script, from, to) && from <= at
    ensures NoYes(script, at, to)
  {
  }

  /**
   * One column of the rename loop: the confirm, then on `Yes` the text
   * prompt whose cancellation stops the loop.
   */
  lemma RenameSpecStep(cols: seq<Column>, script: seq<Answer>, pos: nat)
    requires cols != [] && pos <= |script|
    ensures var at := Advance(script, pos);
            var typed := Text(Next(script, at), cols[0].name);
            var r := RenameSpec(cols, script, pos);
            && (!Accepted(Confirm(Next(script, pos), false)) ==> r == Prepend(cols[0], RenameSpec(cols[1..], script, at)))
            && (Accepted(Confirm(Next(script, pos), false)) && typed.None? ==> r == Renamed(false, [], Advance(script, at)))
            && (Accepted(Confirm(Next(script, pos), false)) && typed.Some? ==>
                  pos < at && r == Prepend(cols[0].(name := typed.value), RenameSpec(cols[1..], script, Advance(script, at))))
  {
  }

  /** The rename loop over the columns, one `preguntar_nombre_columna` per column (normalizacion.py:129-143). */
  method RenameColumns(cols: seq<Column>, script: seq<Answer>, pos: nat) returns (ok: bool, renamed: seq<Column>, next: nat)
    requires pos <= |script|
    ensures Renamed(ok, renamed, next) == RenameSpec(cols, script, pos)
    ensures pos <= next <= |script|
    ensures ok ==> Renaming(cols, renamed)
    ensures ok && NoYes(script, pos, next) ==> renamed == cols
  {
    renamed, next := [], pos;
    var i := 0;
    while i < |cols|
      invariant i <= |cols| && pos <= next <= |script|
      invariant var rest := RenameSpec(cols[i..], script, next);
        RenameSpec(cols, script, pos) == rest.(columns := renamed + rest.columns)
    {
      var c := cols[i];
      assert cols[i..][0] == c && cols[i..][1..] == cols[i + 1..];
      RenameSpecStep(cols[i..], script, next);
      var change := Confirm(Next(script, next), false);
      next := Advance(script, next);
      var name := c.name;
      if Accepted(change) {
        var typed := Text(Next(script, next), c.name);
        next := Advance(script, next);
        if typed.None? {
          RenameWithoutYes(cols, script, pos);
          return false, renamed, next;
        }
        name := typed.value;
      }
      assert renamed + ([c.(name := name)] + RenameSpec(cols[i + 1..], script, next).columns)
          == (renamed + [c.(name := name)]) + RenameSpec(cols[i + 1..], script, next).columns;
      renamed := renamed + [c.(name := name)];
      i := i + 1;
    }
    assert cols[i..] == [];
    ok := true;
    RenameWithoutYes(cols, script, pos);
  }

  /** The "rename any column?" confirm (default no), then the rename loop when it is accepted. */
  function RenameStep(cols: seq<Column>, script: seq<Answer>, pos: nat): (r: Renamed)
    requires pos <= |script|
    ensures pos <= r.next <= |script|
    ensures r.ok ==> Renaming(cols, r.columns)
  {
    if Accepted(Confirm(Next(script, pos), false)) then RenameSpec(cols, script, Advance(script, pos))
    else Renamed(true, cols, Advance(script, pos))
  }

  /** A request of the partition loop: no FK arguments, unique columns among its own names. */
  predicate MainRequest(r: Request) {
    r.fkTable.None? && r.fkColumn.None? && r.childMatch.None? && r.parentMatch.None? && UniqueFromColumns(r)
  }

  /** Every column of `cols` is a column of `pool`, possibly renamed. */
  predicate TakenFrom(cols: seq<Column>, pool: seq<Column>) {
    forall c :: c in cols ==> exists d :: d in pool && ColumnAs(c, d)
  }

  /** Columns of the pool, unrenamed, are taken from it. */
  lemma InPoolTakenFrom(cols: seq<Column>, pool: seq<Column>)
    requires forall c :: c in cols ==> c in pool
    ensures TakenFrom(cols, pool)
  {
    forall c | c in cols ensures exists d :: d in pool && ColumnAs(c, d) {
      assert ColumnAs(c, c);
    }
  }

  /**
   * Column choice of the partition loop (normalizacion.py:450-469): `Yes` to
   * "use all" takes the whole pool; otherwise the typed index text selects
   * by position, and Enter on the text prompt (empty text) takes the first
   * column. A cancelled text prompt gives None.
   */
  function ChooseColumns(pool: seq<Column>, script: seq<Answer>, pos: nat): (r: (Option<seq<Column>>, nat))
    requires pool != [] && pos <= |script|
    ensures pos <= r.1 <= |script|
    ensures Next(script, pos) == Yes ==> r == (Some(pool), pos + 1)
    ensures Next(script, pos) != Yes && Next(script, pos + 1).Typed? ==>
              r == (Some(SelectByIndices(pool, Next(script, pos + 1).text)), pos + 2)
    ensures Next(script, pos) != Yes && Next(script, pos + 1) == Enter ==> r == (Some([pool[0]]), pos + 2)
    ensures r.0.None? <==> Next(script, pos) != Yes && !Next(script, pos + 1).Typed? && Next(script, pos + 1) != Enter
    ensures r.0.Some? ==> TakenFrom(r.0.value, pool)
  {
    var at := Advance(script, pos);
    ChoicePrompts(script, pos);
    if Accepted(Confirm(Next(script, pos), false)) then
      InPoolTakenFrom(pool, pool);
      (Some(pool), at)
    else
      var text := Text(Next(script, at), "");
      if text.None? then (None, Advance(script, at))
      else
        var selected := SelectByIndices(pool, text.value);
        assert Next(script, at) == Enter ==> selected == [pool[0]] by {
          if Next(script, at) == Enter {
            EmptyTextPicksFirst(pool);
          }
        }
        InPoolTakenFrom(selected, pool);
        (Some(selected), Advance(script, at))
  }

  /** How the "use all columns?" confirm and the index text prompt read the script. */
  lemma ChoicePrompts(script: seq<Answer>, pos: nat)
    requires pos <= |script|
    ensures Accepted(Confirm(Next(script, pos), false)) <==> Next(script, pos) == Yes
    ensures Next(script, pos) == Yes ==> Advance(script, pos) == pos + 1
    ensures Next(script, pos) != Yes ==>
              var at := Advance(script, pos);
              && (Text(Next(script, at), "").Some? <==> Next(script, pos + 1).Typed? || Next(script, pos + 1) == Enter)
              && (Next(script, pos + 1).Typed? ==> Text(Next(script, at), "") == Some(Next(script, pos + 1).text))
              && (Next(script, pos + 1).Typed? || Next(script, pos + 1) == Enter ==> at == pos + 1 && Advance(script, at) == pos + 2)
  {
  }

  /**
   * The unique-identifier question: a confirm (default no) and, when it is
   * accepted, a checkbox over the table's column names. Unique columns are
   * only ever picked among those names.
   */
  function AskUnique(names: seq<string>, script: seq<Answer>, pos: nat): (r: (Option<seq<string>>, nat))
    requires pos <= |script|
    ensures pos <= r.1 <= |script|
    ensures !Accepted(Confirm(Next(script, pos), false)) ==> r == (None, Advance(script, pos))
    ensures Accepted(Confirm(Next(script, pos), false)) ==> r == (Checkbox(Next(script, pos + 1), names), Advance(script, pos + 1))
    ensures r.0.Some? ==> forall u :: u in r.0.value ==> u in names
  {
    if Accepted(Confirm(Next(script, pos), false)) then
      var at := Advance(script, pos);
      (Checkbox(Next(script, at), names), Advance(script, at))
    else (None, Advance(script, pos))
  }

  /**
   * Reference definition of one table of the partition loop: the table
   * name (default `DefaultTableName(counter)`), the column choice, the
   * rename step and the unique question, each reading its answers in turn;
   * None when a text prompt is cancelled. The second component is the
   * cursor after the round.
   */
  function MainSpec(pool: seq<Column>, counter: nat, script: seq<Answer>, pos: nat): (r: (Option<Request>, nat))
    requires pool != [] && pos <= |script|
    ensures pos <= r.1 <= |script|
    ensures r.0.Some? ==> pos < r.1 && MainRequest(r.0.value) && TakenFrom(r.0.value.columns, pool)
    ensures r.0.Some? && Next(script, pos) == Enter ==> r.0.value.table == DefaultTableName(counter)
  {
    var name := Text(Next(script, pos), DefaultTableName(counter));
    var at := Advance(script, pos);
    if name.None? then (None, at)
    else
      var chosen := ChooseColumns(pool, script, at);
      if chosen.0.None? then (None, chosen.1)
      else
        var ren := RenameStep(chosen.0.value, script, chosen.1);
        if !ren.ok then (None, ren.next)
        else
          RenamingTakenFrom(chosen.0.value, ren.columns, pool);
          var unique := AskUnique(TargetNames(ren.columns), script, ren.next);
          (Some(Request(name.value, ren.columns, None, None, unique.0, None, None)), unique.1)
  }

  /**
   * One table of the partition loop (normalizacion.py:445-503): the table
   * name (default `DefaultTableName(counter)`), the column choice, optional
   * renaming, optional unique columns. None when the run stops on a
   * cancelled text prompt.
   */
  method MainRound(pool: seq<Column>, counter: nat, script: seq<Answer>, pos: nat) returns (req: Option<Request>, next: nat)
    requires pool != [] && pos <= |script|
    ensures pos <= next <= |script|
    ensures req.Some? ==> pos < next
    ensures req.Some? ==> MainRequest(req.value) && TakenFrom(req.value.columns, pool)
    ensures req.Some? && Next(script, pos) == Enter ==> req.value.table == DefaultTableName(counter)
    ensures (req, next) == MainSpec(pool, counter, script, pos)
  {
    next := pos;
    var name := Text(Next(script, next), DefaultTableName(counter));
    next := Advance(script, next);
    if name.None? {
      return None, next;
    }
    var chosen := ChooseColumns(pool, script, next);
    next := chosen.1;
    if chosen.0.None? {
      return None, next;
    }
    var selected := chosen.0.value;
    var rename := Confirm(Next(script, next), false);
    next := Advance(script, next);
    if Accepted(rename) {
      var ok, renamed;
      ok, renamed, next := RenameColumns(selected, script, next);
      if !ok {
        return None, next;
      }
      RenamingTakenFrom(selected, renamed, pool);
      selected := renamed;
    }
    var unique := AskUnique(TargetNames(selected), script, next);
    next := unique.1;
    req := Some(Request(name.value, selected, None, None, unique.0, None, None));
  }

  lemma RenamingTakenFrom(cols: seq<Column>, cols': seq<Column>, pool: seq<Column>)
    requires TakenFrom(cols, pool) && Renaming(cols, cols')
    ensures TakenFrom(cols', pool)
  {
    forall c | c in cols' ensures exists d :: d in pool && ColumnAs(c, d) {
      var i :| 0 <= i < |cols'| && cols'[i] == c;
      assert cols[i] in cols;
      var d :| d in pool && ColumnAs(cols[i], d);
      assert ColumnAs(c, d);
    }
  }

  /** Why the partition loop ended. */
  datatype Stop = PoolEmpty | Declined | Aborted

  /** The state the partition loop ends in; the registry is `RegistryOf(created)`. */
  datatype Partition = Partition(stop: Stop, pos: nat, pool: seq<Column>, counter: nat, created: seq<Request>)

  /** A round of the partition loop as a function of the pool, the counter and the cursor. */
  type Rounds = (seq<Column>, nat, nat) -> (Option<Request>, nat)

  /** The rounds a script drives: `MainSpec` wherever it is defined. */
  function MainRounds(script: seq<Answer>): Rounds {
    (pool: seq<Column>, counter: nat, pos: nat) =>
      if pool != [] && pos <= |script| then MainSpec(pool, counter, script, pos) else (None, pos)
  }

  /** Rounds stay within the `n` answers, and a completed round reads at least one. */
  ghost predicate Advances(round: Rounds, n: nat) {
    forall pool: seq<Column>, counter: nat, pos: nat :: pos <= n ==>
      round(pool, counter, pos).1 <= n && (round(pool, counter, pos).0.Some? ==> pos < round(pool, counter, pos).1)
  }

  lemma MainRoundsAdvance(script: seq<Answer>)
    ensures Advances(MainRounds(script), |script|)
  {
    forall pool: seq<Column>, counter: nat, pos: nat | pos <= |script|
      ensures MainRounds(script)(pool, counter, pos).1 <= |script|
      ensures MainRounds(script)(pool, counter, pos).0.Some? ==> pos < MainRounds(script)(pool, counter, pos).1
    {
      if pool != [] {
        var r := MainSpec(pool, counter, script, pos);
      }
    }
  }

  /** Completed rounds build main-list tables whose columns come from the pool. */
  ghost predicate Builds(round: Rounds, n: nat) {
    forall pool: seq<Column>, counter: nat, pos: nat :: pool != [] && pos <= n && round(pool, counter, pos).0.Some? ==>
      MainRequest(round(pool, counter, pos).0.value) && TakenFrom(round(pool, counter, pos).0.value.columns, pool)
  }

  lemma MainRoundsBuild(script: seq<Answer>)
    ensures Builds(MainRounds(script), |script|)
  {
    forall pool: seq<Column>, counter: nat, pos: nat | pool != [] && pos <= |script| && MainRounds(script)(pool, counter, pos).0.Some?
      ensures MainRequest(MainRounds(script)(pool, counter, pos).0.value)
      ensures TakenFrom(MainRounds(script)(pool, counter, pos).0.value.columns, pool)
    {
      var r := MainSpec(pool, counter, script, pos);
    }
  }

  /** The state of the partition loop at the top of a round. */
  datatype Loop = Loop(pool: seq<Column>, counter: nat, created: seq<Request>, pos: nat)

  /** What one round of the partition loop leads to: another round, or the end of the loop. */
  datatype Outcome = More(next: Loop) | Done(end: Partition)

  /**
   * Where a round of the partition loop from state `s` leads, given the
   * request it built (None when a prompt was cancelled) and the cursor
   * after it: a cancelled round stops the run; otherwise the request is
   * recorded and its columns leave the pool, and with columns left "create
   * another table?" (default no) either stops the loop or starts the next
   * round with the counter one higher.
   */
  function RoundOutcome(script: seq<Answer>, s: Loop, res: (Option<Request>, nat)): (o: Outcome)
    requires res.1 <= |script| && (res.0.Some? ==> s.pos < res.1)
    ensures o.More? ==> s.pos < o.next.pos <= |script|
    ensures o.Done? ==> o.end.pos <= |script|
  {
    if res.0.None? then Done(Partition(Aborted, res.1, s.pool, s.counter, s.created))
    else
      var r := res.0.value;
      var pool' := Removed(s.pool, r.columns);
      if pool' == [] then Done(Partition(PoolEmpty, res.1, pool', s.counter, s.created + [r]))
      else if !Accepted(Confirm(Next(script, res.1), false)) then
        Done(Partition(Declined, Advance(script, res.1), pool', s.counter, s.created + [r]))
      else More(Loop(pool', s.counter + 1, s.created + [r], Advance(script, res.1)))
  }

  /** One round of the partition loop from a non-empty pool, with `round` one table's prompts. */
  function PartitionRound(round: Rounds, script: seq<Answer>, s: Loop): (o: Outcome)
    requires s.pool != [] && s.pos <= |script| && Advances(round, |script|)
    ensures o.More? ==> s.pos < o.next.pos <= |script|
    ensures o.Done? ==> o.end.pos <= |script|
  {
    RoundOutcome(script, s, round(s.pool, s.counter, s.pos))
  }

  /**
   * Reference definition of the partition loop from a given state: rounds
   * while the pool is not empty, until one of them ends the loop.
   */
  function PartitionSpec(round: Rounds, pool: seq<Column>, counter: nat, created: seq<Request>, script: seq<Answer>, pos: nat): (p: Partition)
    requires pos <= |script| && Advances(round, |script|)
    ensures p.pos <= |script|
    decreases |script| - pos
  {
    if pool == [] then Partition(PoolEmpty, pos, pool, counter, created)
    else
      match PartitionRound(round, script, Loop(pool, counter, created, pos))
      case Done(p) => p
      case More(s) => PartitionSpec(round, s.pool, s.counter, s.created, script, s.pos)
  }

  /** `PartitionSpec` from a loop state. */
  function SpecFrom(round: Rounds, script: seq<Answer>, s: Loop): Partition
    requires s.pos <= |script| && Advances(round, |script|)
  {
    PartitionSpec(round, s.pool, s.counter, s.created, script, s.pos)
  }

  /**
   * The partition loop after at most `n` rounds from `s`: the state at the
   * top of round n + 1, or the end when the loop stopped earlier.
   */
  function Reached(round: Rounds, script: seq<Answer>, s: Loop, n: nat): (o: Outcome)
    requires s.pos <= |script| && Advances(round, |script|)
    ensures o.More? ==> o.next.pos <= |script|
  {
    if n == 0 then More(s)
    else
      match Reached(round, script, s, n - 1)
      case Done(p) => Done(p)
      case More(t) =>
        if t.pool == [] then Done(Partition(PoolEmpty, t.pos, t.pool, t.counter, t.created))
        else PartitionRound(round, script, t)
  }

  /** The states the loop passes through all reach the same end. */
  lemma {:induction false} ReachedSpec(round: Rounds, script: seq<Answer>, s: Loop, n: nat, t: Loop)
    requires s.pos <= |script| && Advances(round, |script|)
    requires Reached(round, script, s, n) == More(t)
    ensures SpecFrom(round, script, s) == SpecFrom(round, script, t)
  {
    if n > 0 {
      match Reached(round, script, s, n - 1)
      case More(u) =>
        ReachedSpec(round, script, s, n - 1, u);
        assert u.pool != [] && PartitionRound(round, script, u) == More(t);
        SpecStep(round, script, u, t);
    }
  }

  /** A round that leads to another state leaves the end of the loop unchanged. */
  lemma SpecStep(round: Rounds, script: seq<Answer>, s: Loop, t: Loop)
    requires s.pool != [] && s.pos <= |script| && Advances(round, |script|)
    requires PartitionRound(round, script, s) == More(t)
    ensures t.pos <= |script| && SpecFrom(round, script, s) == SpecFrom(round, script, t)
  {
  }

  /**
   * What the partition loop keeps at the top of every round: the counter is
   * one more than the tables so far, every table is a main-list table taken
   * from `main`, and the pool is `main` minus every column they took.
   */
  ghost predicate Sound(main: seq<Column>, s: Loop) {
    && s.counter >= 1 && |s.created| == s.counter - 1
    && s.pool == Removed(main, Taken(s.created)) && FromMain(s.created, main)
  }

  /** The end of the partition loop from a sound state. */
  ghost predicate SoundEnd(main: seq<Column>, started: bool, p: Partition) {
    && p.pool == Removed(main, Taken(p.created)) && FromMain(p.created, main)
    && (p.stop == PoolEmpty ==> p.pool == []) && (p.stop == Declined ==> p.pool != [])
    && p.counter >= 1 && (|p.created| == p.counter || |p.created| == p.counter - 1)
    && (p.stop != Aborted && started ==> |p.created| == p.counter)
  }

  /** The partition loop keeps `Sound` and ends in `SoundEnd`. */
  lemma {:induction false} SpecFacts(round: Rounds, main: seq<Column>, script: seq<Answer>, s: Loop)
    requires s.pos <= |script| && Advances(round, |script|) && Builds(round, |script|) && Sound(main, s)
    ensures SoundEnd(main, s.pool != [], SpecFrom(round, script, s))
    decreases |script| - s.pos
  {
    if s.pool != [] {
      var res := round(s.pool, s.counter, s.pos);
      assert PartitionRound(round, script, s) == RoundOutcome(script, s, res);
      if res.0.Some? {
        var r := res.0.value;
        PoolTakenFromMain(main, s.created, r.columns);
        RemovedTwice(main, Taken(s.created), r.columns);
        MainCreatedAppend(main, s.created, r);
        var pool' := Removed(s.pool, r.columns);
        if pool' != [] && Accepted(Confirm(Next(script, res.1), false)) {
          var t := Loop(pool', s.counter + 1, s.created + [r], Advance(script, res.1));
          assert Sound(main, t);
          SpecFacts(round, main, script, t);
        }
      }
    }
  }

  /** The loop state at the start of the partition loop of a main list. */
  function Start(main: seq<Column>): Loop {
    Loop(main, 1, [], 0)
  }

  /** The partition loop of a script after `n` rounds. */
  function MainReached(main: seq<Column>, script: seq<Answer>, n: nat): Outcome {
    MainRoundsAdvance(script);
    Reached(MainRounds(script), script, Start(main), n)
  }

  /** A round built by `MainSpec` that leads to another state is one more step of the loop. */
  lemma MainReachedStep(main: seq<Column>, script: seq<Answer>, n: nat, s: Loop, res: (Option<Request>, nat), t: Loop)
    requires MainReached(main, script, n) == More(s)
    requires s.pool != [] && s.pos <= |script| && res == MainSpec(s.pool, s.counter, script, s.pos)
    requires RoundOutcome(script, s, res) == More(t)
    ensures MainReached(main, script, n + 1) == More(t)
  {
    MainRoundsAdvance(script);
    MainRoundsApply(s.pool, s.counter, script, s.pos);
  }

  /** The state after `n` rounds, when its next round ends the loop, gives the loop's end. */
  lemma MainReachedDone(main: seq<Column>, script: seq<Answer>, n: nat, s: Loop, res: (Option<Request>, nat), final: Partition)
    requires MainReached(main, script, n) == More(s) && s.pos <= |script|
    requires s.pool == [] ==> final == Partition(PoolEmpty, s.pos, s.pool, s.counter, s.created)
    requires s.pool != [] ==> res == MainSpec(s.pool, s.counter, script, s.pos) && RoundOutcome(script, s, res) == Done(final)
    ensures final == Partitioned(main, script)
  {
    MainRoundsAdvance(script);
    ReachedSpec(MainRounds(script), script, Start(main), n, s);
    if s.pool != [] {
      MainRoundsApply(s.pool, s.counter, script, s.pos);
    }
  }

  /** `MainRounds` runs `MainSpec` on a non-empty pool. */
  lemma MainRoundsApply(pool: seq<Column>, counter: nat, script: seq<Answer>, pos: nat)
    requires pool != [] && pos <= |script|
    ensures MainRounds(script)(pool, counter, pos) == MainSpec(pool, counter, script, pos)
  {
  }

  /**
   * One round of the partition loop: the pool it starts from, its counter,
   * where its answers start, and its outcome.
   */
  datatype Attempt = Attempt(pool: seq<Column>, counter: nat, at: nat, result: Option<Request>)

  /** The rounds `PartitionSpec` runs, in order. */
  function Attempts(round: Rounds, pool: seq<Column>, counter: nat, script: seq<Answer>, pos: nat): (t: seq<Attempt>)
    requires pos <= |script| && Advances(round, |script|)
    ensures pool != [] <==> t != []
    ensures t != [] ==> t[0].pool == pool && t[0].at == pos
    ensures forall k :: 0 <= k < |t| ==>
              && t[k].pool != [] && t[k].at <= |script| && t[k].counter == counter + k
              && t[k].result == round(t[k].pool, t[k].counter, t[k].at).0
    decreases |script| - pos
  {
    if pool == [] then []
    else
      var res := round(pool, counter, pos);
      var first := [Attempt(pool, counter, pos, res.0)];
      if res.0.None? then first
      else
        var pool' := Removed(pool, res.0.value.columns);
        if pool' == [] || !Accepted(Confirm(Next(script, res.1), false)) then first
        else
          var rest := Attempts(round, pool', counter + 1, script, Advance(script, res.1));
          assert forall k :: 0 < k < |first + rest| ==> (first + rest)[k] == rest[k - 1];
          first + rest
  }

  /**
   * Trace `t` explains how the partition loop went from `created` to the
   * final state `p`: every round but a cancelled last one added its
   * request, in order, and the loop stopped as Aborted iff its last round
   * was cancelled.
   */
  ghost predicate Traced(created: seq<Request>, p: Partition, t: seq<Attempt>) {
    && |created| <= |p.created| && p.created[..|created|] == created
    && |p.created| - |created| == |t| - (if p.stop == Aborted then 1 else 0)
    && (p.stop == Aborted <==> t != [] && t[|t| - 1].result.None?)
    && (forall k :: |created| <= k < |p.created| ==> k - |created| < |t| && t[k - |created|].result == Some(p.created[k]))
  }

  /** The requests of the partition loop are exactly the outcomes of its rounds, in order. */
  lemma {:induction false} PartitionAttempts(round: Rounds, pool: seq<Column>, counter: nat, created: seq<Request>, script: seq<Answer>, pos: nat)
    requires pos <= |script| && Advances(round, |script|)
    ensures Traced(created, PartitionSpec(round, pool, counter, created, script, pos), Attempts(round, pool, counter, script, pos))
    decreases |script| - pos
  {
    if pool != [] {
      var res := round(pool, counter, pos);
      if res.0.Some? && Removed(pool, res.0.value.columns) != [] && Accepted(Confirm(Next(script, res.1), false)) {
        var r := res.0.value;
        PartitionAttempts(round, Removed(pool, r.columns), counter + 1, created + [r], script, Advance(script, res.1));
        AttemptsCons(round, pool, counter, created, script, pos, r);
      } else {
        AttemptsLast(round, pool, counter, created, script, pos);
      }
    }
  }

  /** A round that lets the loop go on puts its request in front of the trace of the rest. */
  lemma AttemptsCons(round: Rounds, pool: seq<Column>, counter: nat, created: seq<Request>, script: seq<Answer>, pos: nat, r: Request)
    requires pos <= |script| && Advances(round, |script|) && pool != []
    requires round(pool, counter, pos).0 == Some(r) && Removed(pool, r.columns) != []
    requires Accepted(Confirm(Next(script, round(pool, counter, pos).1), false))
    requires var next := Advance(script, round(pool, counter, pos).1);
             Traced(created + [r], PartitionSpec(round, Removed(pool, r.columns), counter + 1, created + [r], script, next),
                    Attempts(round, Removed(pool, r.columns), counter + 1, script, next))
    ensures Traced(created, PartitionSpec(round, pool, counter, created, script, pos), Attempts(round, pool, counter, script, pos))
  {
    var res := round(pool, counter, pos);
    var next := Advance(script, res.1);
    var t := Attempts(round, pool, counter, script, pos);
    var rest := Attempts(round, Removed(pool, r.columns), counter + 1, script, next);
    var s, s' := Loop(pool, counter, created, pos), Loop(Removed(pool, r.columns), counter + 1, created + [r], next);
    assert PartitionRound(round, script, s) == More(s');
    SpecStep(round, script, s, s');
    assert t == [t[0]] + rest;
    TraceCons(created, r, PartitionSpec(round, pool, counter, created, script, pos), t[0], rest);
  }

  /** A round after which the loop stops is the whole trace. */
  lemma AttemptsLast(round: Rounds, pool: seq<Column>, counter: nat, created: seq<Request>, script: seq<Answer>, pos: nat)
    requires pos <= |script| && Advances(round, |script|) && pool != []
    requires var res := round(pool, counter, pos);
             !(res.0.Some? && Removed(pool, res.0.value.columns) != [] && Accepted(Confirm(Next(script, res.1), false)))
    ensures Traced(created, PartitionSpec(round, pool, counter, created, script, pos), Attempts(round, pool, counter, script, pos))
  {
    var t := Attempts(round, pool, counter, script, pos);
    assert t == [t[0]];
    TraceLast(created, PartitionSpec(round, pool, counter, created, script, pos), t[0]);
  }

  /** A single last round: it added its request, or it was cancelled and the loop aborted. */
  lemma TraceLast(created: seq<Request>, p: Partition, a: Attempt)
    requires a.result.Some? ==> p.stop != Aborted && p.created == created + [a.result.value]
    requires a.result.None? ==> p.stop == Aborted && p.created == created
    ensures Traced(created, p, [a])
  {
    assert [a][|[a]| - 1] == a;
    if a.result.Some? {
      assert p.created[..|created|] == created;
    }
  }

  /** One successful round in front of a trace of the rest of the loop. */
  lemma TraceCons(created: seq<Request>, r: Request, p: Partition, a: Attempt, rest: seq<Attempt>)
    requires a.result == Some(r) && Traced(created + [r], p, rest)
    ensures Traced(created, p, [a] + rest)
  {
    var t := [a] + rest;
    assert p.created[..|created|] == p.created[..|created| + 1][..|created|] == (created + [r])[..|created|] == created;
    assert p.created[|created|] == p.created[..|created| + 1][|created|] == r;
    forall k | |created| < k < |p.created| ensures t[k - |created|].result == Some(p.created[k]) {
      assert t[k - |created|] == rest[k - (|created| + 1)];
    }
    if rest != [] {
      assert t[|t| - 1] == rest[|rest| - 1];
    }
  }

  /** The partition loop of a script, from the whole main list and counter 1. */
  function Partitioned(main: seq<Column>, script: seq<Answer>): Partition {
    MainRoundsAdvance(script);
    PartitionSpec(MainRounds(script), main, 1, [], script, 0)
  }

  /** The end of a script's partition loop is a sound end. */
  lemma PartitionedFacts(main: seq<Column>, script: seq<Answer>)
    ensures SoundEnd(main, main != [], Partitioned(main, script))
  {
    MainRoundsAdvance(script);
    MainRoundsBuild(script);
    RemovedNone(main);
    SpecFacts(MainRounds(script), main, script, Start(main));
  }

  /**
   * The rounds of `Partitioned`, in order: round k has counter k + 1, and
   * the first one starts on the whole main list at the first answer.
   */
  function MainAttempts(main: seq<Column>, script: seq<Answer>): (t: seq<Attempt>)
    ensures main != [] <==> t != []
    ensures t != [] ==> t[0].pool == main && t[0].at == 0
    ensures forall k :: 0 <= k < |t| ==> t[k].counter == k + 1 && t[k].pool != [] && t[k].at <= |script|
  {
    MainRoundsAdvance(script);
    Attempts(MainRounds(script), main, 1, script, 0)
  }

  /** Table k of the partition loop is the outcome of round k. */
  lemma PartitionResults(main: seq<Column>, script: seq<Answer>)
    ensures var p := Partitioned(main, script);
            var t := MainAttempts(main, script);
            forall k :: 0 <= k < |p.created| ==> k < |t| && t[k].result == Some(p.created[k])
  {
    MainRoundsAdvance(script);
    PartitionAttempts(MainRounds(script), main, 1, [], script, 0);
    TracedResults([], Partitioned(main, script), MainAttempts(main, script));
  }

  /** A trace from no requests holds the outcome of every request. */
  lemma TracedResults(created: seq<Request>, p: Partition, t: seq<Attempt>)
    requires created == [] && Traced(created, p, t)
    ensures forall k :: 0 <= k < |p.created| ==> k < |t| && t[k].result == Some(p.created[k])
  {
  }

  /** Table k of the partition loop is round k's request, built by `MainSpec` with counter k + 1. */
  lemma PartitionRequest(main: seq<Column>, script: seq<Answer>, k: nat)
    requires k < |Partitioned(main, script).created|
    ensures var t := MainAttempts(main, script);
            k < |t| && MainSpec(t[k].pool, k + 1, script, t[k].at).0 == Some(Partitioned(main, script).created[k])
  {
    PartitionResults(main, script);
  }

  /** Enter at the name prompt of round k names table k `DefaultTableName(k + 1)`. */
  lemma PartitionDefaultName(main: seq<Column>, script: seq<Answer>, k: nat)
    requires k < |Partitioned(main, script).created|
    ensures var t := MainAttempts(main, script);
            k < |t| && (Next(script, t[k].at) == Enter ==> Partitioned(main, script).created[k].table == DefaultTableName(k + 1))
  {
    PartitionRequest(main, script, k);
  }

  /** Round k of the partition loop has the outcome `MainSpec` gives it. */
  lemma MainAttemptResult(main: seq<Column>, script: seq<Answer>, k: nat)
    requires k < |MainAttempts(main, script)|
    ensures var a := MainAttempts(main, script)[k];
            a.result == MainSpec(a.pool, k + 1, script, a.at).0
  {
    var a := MainAttempts(main, script)[k];
    MainRoundsAdvance(script);
    assert a.result == MainRounds(script)(a.pool, a.counter, a.at).0;
    MainRoundsApply(a.pool, k + 1, script, a.at);
  }

  /** The partition loop stops as Aborted iff its last round is cancelled. */
  lemma PartitionAborted(main: seq<Column>, script: seq<Answer>)
    ensures var p := Partitioned(main, script);
            var t := MainAttempts(main, script);
            p.stop == Aborted <==>
              t != [] && MainSpec(t[|t| - 1].pool, |t|, script, t[|t| - 1].at).0.None?
  {
    var t := MainAttempts(main, script);
    MainRoundsAdvance(script);
    PartitionAttempts(MainRounds(script), main, 1, [], script, 0);
    TracedAborted([], Partitioned(main, script), t);
    if t != [] {
      MainAttemptResult(main, script, |t| - 1);
    }
  }

  /** A trace ends in a cancelled round iff the loop aborted. */
  lemma TracedAborted(created: seq<Request>, p: Partition, t: seq<Attempt>)
    requires Traced(created, p, t)
    ensures p.stop == Aborted <==> t != [] && t[|t| - 1].result.None?
  {
  }

  /** An all-Enter first round names the first table `d_encuesta`. */
  lemma FirstTableDefaultName(main: seq<Column>, script: seq<Answer>)
    requires main != [] && script != [] && script[0] == Enter
    ensures var p := Partitioned(main, script); p.created != [] ==> p.created[0].table == "d_encuesta"
  {
    if Partitioned(main, script).created != [] {
      PartitionDefaultName(main, script, 0);
      FirstAttemptAtStart(main, script);
      FirstDefaultName();
    }
  }

  lemma FirstDefaultName()
    ensures DefaultTableName(1) == "d_encuesta"
  {
  }

  /** The first round reads the first answer. */
  lemma FirstAttemptAtStart(main: seq<Column>, script: seq<Answer>)
    requires main != [] && script != [] && script[0] == Enter
    ensures MainAttempts(main, script) != [] && Next(script, MainAttempts(main, script)[0].at) == Enter
  {
  }

  /**
   * The partition loop (normalizacion.py:431-526). The pool is always the
   * main list minus every column tuple a created table took, in main
   * order; the loop ends when the pool is empty, when the operator does not
   * accept creating another table, or when a text prompt is cancelled.
   * `asks` are the positions at which "create another table?" was asked:
   * every answer there was `Yes`, and raised the counter, except the last
   * one when the loop stopped on it.
   */
  method PartitionMainColumns(main: seq<Column>, script: seq<Answer>)
    returns (stop: Stop, pos: nat, pool: seq<Column>, counter: nat, created: seq<Request>,
             registry: Dict<string, Option<string>>, ghost asks: seq<nat>)
    ensures pos <= |script|
    ensures pool == Removed(main, Taken(created))
    ensures stop == PoolEmpty ==> pool == []
    ensures stop == Declined ==> pool != []
    ensures counter >= 1 && (|created| == counter || |created| == counter - 1)
    ensures stop != Aborted && main != [] ==> |created| == counter
    ensures forall k :: 0 <= k < |created| ==> MainRequest(created[k]) && TakenFrom(created[k].columns, main)
    ensures registry == RegistryOf(created)
    ensures |asks| == if stop == Declined then counter else counter - 1
    ensures AsksAnswered(script, asks, pos, stop == Declined)
    ensures Partition(stop, pos, pool, counter, created) == Partitioned(main, script)
  {
    stop, pos, pool, counter, created, registry, asks := PartitionLoop(main, script);
    PartitionedFacts(main, script);
  }

  /**
   * The loop of `PartitionMainColumns`: its result is the `Partitioned`
   * outcome, with the registry and the "create another table?" positions.
   */
  method PartitionLoop(main: seq<Column>, script: seq<Answer>)
    returns (stop: Stop, pos: nat, pool: seq<Column>, counter: nat, created: seq<Request>,
             registry: Dict<string, Option<string>>, ghost asks: seq<nat>)
    ensures pos <= |script| && counter >= 1
    ensures registry == RegistryOf(created)
    ensures |asks| == if stop == Declined then counter else counter - 1
    ensures AsksAnswered(script, asks, pos, stop == Declined)
    ensures Partition(stop, pos, pool, counter, created) == Partitioned(main, script)
  {
    stop, pos, pool, counter, created, registry, asks := PoolEmpty, 0, main, 1, [], [], [];
    var done := false;
    while !done
      invariant !done ==> Running(main, script, pos, pool, counter, created, registry, asks)
      invariant done ==> Finished(main, script, stop, pos, pool, counter, created, registry, asks)
      decreases !done, |script| - pos
    {
      done, stop, pos, pool, counter, created, registry, asks := PartitionStep(main, script, pos, pool, counter, created, registry, asks);
    }
  }

  /** The state of the partition loop after `counter - 1` rounds that went on. */
  ghost predicate Running(main: seq<Column>, script: seq<Answer>, pos: nat, pool: seq<Column>, counter: nat,
                          created: seq<Request>, registry: Dict<string, Option<string>>, asks: seq<nat>) {
    && pos <= |script| && counter >= 1
    && registry == RegistryOf(created)
    && |asks| == counter - 1 && AsksAccepted(script, asks, pos)
    && MainReached(main, script, counter - 1) == More(Loop(pool, counter, created, pos))
  }

  /** The state the partition loop ends in: the `Partitioned` outcome. */
  ghost predicate Finished(main: seq<Column>, script: seq<Answer>, stop: Stop, pos: nat, pool: seq<Column>, counter: nat,
                           created: seq<Request>, registry: Dict<string, Option<string>>, asks: seq<nat>) {
    && pos <= |script| && counter >= 1
    && registry == RegistryOf(created)
    && |asks| == (if stop == Declined then counter else counter - 1)
    && AsksAnswered(script, asks, pos, stop == Declined)
    && Partition(stop, pos, pool, counter, created) == Partitioned(main, script)
  }

  /**
   * One test and round of the partition loop (normalizacion.py:431-526): an
   * empty pool ends the loop; otherwise the round runs, and the loop ends
   * when it is cancelled or does not go on.
   */
  method PartitionStep(ghost main: seq<Column>, script: seq<Answer>, pos: nat, pool: seq<Column>, counter: nat,
                       created: seq<Request>, registry: Dict<string, Option<string>>, ghost asks: seq<nat>)
    returns (done: bool, stop: Stop, pos': nat, pool': seq<Column>, counter': nat,
             created': seq<Request>, registry': Dict<string, Option<string>>, ghost asks': seq<nat>)
    requires Running(main, script, pos, pool, counter, created, registry, asks)
    ensures done ==> Finished(main, script, stop, pos', pool', counter', created', registry', asks')
    ensures !done ==> pos' > pos && Running(main, script, pos', pool', counter', created', registry', asks')
  {
    stop, pos', pool', counter', created', registry', asks' := PoolEmpty, pos, pool, counter, created, registry, asks;
    if pool == [] {
      done := true;
      MainReachedDone(main, script, counter - 1, Loop(pool, counter, created, pos), (None, pos), Partition(stop, pos, pool, counter, created));
      AsksAnsweredAll(script, asks, pos);
      return;
    }
    ghost var s := Loop(pool, counter, created, pos);
    var req, next := MainRound(pool, counter, script, pos);
    if req.None? {
      done, stop, pos' := true, Aborted, next;
      MainReachedDone(main, script, counter - 1, s, (req, next), Partition(stop, pos', pool, counter, created));
      AsksAnsweredAll(script, asks, pos');
      return;
    }
    var more;
    more, pos', pool', created', registry', asks' := RecordTable(script, pool, counter, created, registry, asks, pos, req.value, next);
    if !more {
      done, stop := true, if pool' == [] then PoolEmpty else Declined;
      MainReachedDone(main, script, counter - 1, s, (req, next), Partition(stop, pos', pool', counter, created'));
      return;
    }
    done, counter' := false, counter + 1;
    MainReachedStep(main, script, counter - 1, s, (req, next), Loop(pool', counter', created', pos'));
  }

  /**
   * The end of a round of the partition loop (normalizacion.py:503-526),
   * from the loop state with `pool`, `counter`, `created` and cursor `from`,
   * with the round's request `r` and cursor `at`: the table is registered,
   * its columns leave the pool, and when columns remain "create another
   * table?" (default no) is asked at `at`; `more` says whether the loop goes
   * on. The new state is the one `RoundOutcome` gives.
   */
  method RecordTable(script: seq<Answer>, pool: seq<Column>, counter: nat, created: seq<Request>,
                     registry: Dict<string, Option<string>>, ghost asks: seq<nat>, ghost from: nat, r: Request, at: nat)
    returns (more: bool, pos: nat, pool': seq<Column>, created': seq<Request>,
             registry': Dict<string, Option<string>>, ghost asks': seq<nat>)
    requires from < at <= |script|
    requires registry == RegistryOf(created) && MainRequest(r)
    requires AsksAccepted(script, asks, from)
    ensures created' == created + [r] && registry' == RegistryOf(created')
    ensures pool' == Removed(pool, r.columns)
    ensures RoundOutcome(script, Loop(pool, counter, created, from), (Some(r), at)) ==
              if more then More(Loop(pool', counter + 1, created', pos))
              else Done(Partition(if pool' == [] then PoolEmpty else Declined, pos, pool', counter, created'))
    ensures more ==> pool' != []
    ensures |asks'| == |asks| + (if pool' == [] then 0 else 1)
    ensures more ==> AsksAccepted(script, asks', pos)
    ensures !more ==> AsksAnswered(script, asks', pos, pool' != [])
  {
    CreatedAppend(created, r);
    created' := created + [r];
    registry' := Put(registry, r.table, None);
    pool' := Removed(pool, r.columns);
    pos, asks' := at, asks;
    if pool' != [] {
      var another := Confirm(Next(script, at), false);
      pos := Advance(script, at);
      AsksAppend(script, asks, at);
      asks' := asks + [at];
      more := Accepted(another);
    } else {
      more := false;
      AsksAnsweredAll(script, asks, at);
    }
  }

  /** The partition loop's facts about the requests so far survive one more request. */
  /** Every request is a main-list table whose columns come from `main`. */
  ghost predicate FromMain(created: seq<Request>, main: seq<Column>) {
    forall k :: 0 <= k < |created| ==> MainRequest(created[k]) && TakenFrom(created[k].columns, main)
  }

  lemma MainCreatedAppend(main: seq<Column>, created: seq<Request>, r: Request)
    requires FromMain(created, main)
    requires MainRequest(r) && TakenFrom(r.columns, main)
    ensures FromMain(created + [r], main)
    ensures Taken(created + [r]) == Taken(created) + r.columns
  {
    CreatedAppend(created, r);
  }

  /** One more request adds its columns to those taken and its table to the registry. */
  lemma CreatedAppend(created: seq<Request>, r: Request)
    ensures Taken(created + [r]) == Taken(created) + r.columns
    ensures RegistryOf(created + [r]) == Put(RegistryOf(created), r.table, r.fkTable)
  {
    assert (created + [r])[..|created|] == created;
  }

  /** Increasing positions before `pos`, each answered with an accepted confirm. */
  ghost predicate AsksAccepted(script: seq<Answer>, asks: seq<nat>, pos: nat) {
    && (forall i, j :: 0 <= i < j < |asks| ==> asks[i] < asks[j])
    && (forall k :: 0 <= k < |asks| ==> asks[k] < pos && Accepted(Confirm(Next(script, asks[k]), false)))
  }

  /**
   * Increasing positions up to `pos`, each answered with an accepted
   * confirm except the last one when `declined`.
   */
  ghost predicate AsksAnswered(script: seq<Answer>, asks: seq<nat>, pos: nat, declined: bool) {
    && (forall i, j :: 0 <= i < j < |asks| ==> asks[i] < asks[j])
    && (forall k :: 0 <= k < |asks| ==> asks[k] <= pos)
    && (forall k :: 0 <= k < |asks| - (if declined then 1 else 0) ==> Accepted(Confirm(Next(script, asks[k]), false)))
    && (declined ==> asks != [] && !Accepted(Confirm(Next(script, asks[|asks| - 1]), false)))
  }

  /** One more "create another table?" prompt, at `at`; a refusal ends the list. */
  lemma AsksAppend(script: seq<Answer>, asks: seq<nat>, at: nat)
    requires AsksAccepted(script, asks, at) && at <= |script|
    ensures Accepted(Confirm(Next(script, at), false)) ==> AsksAccepted(script, asks + [at], Advance(script, at))
    ensures !Accepted(Confirm(Next(script, at), false)) ==> AsksAnswered(script, asks + [at], Advance(script, at), true)
  {
  }

  /** Every prompt so far was accepted. */
  lemma AsksAnsweredAll(script: seq<Answer>, asks: seq<nat>, pos: nat)
    requires AsksAccepted(script, asks, pos)
    ensures AsksAnswered(script, asks, pos, false)
  {
  }

  /** Columns taken from the pool are columns of the main list. */
  lemma PoolTakenFromMain(main: seq<Column>, created: seq<Request>, cols: seq<Column>)
    requires TakenFrom(cols, Removed(main, Taken(created)))
    ensures TakenFrom(cols, main)
  {
    RemovedMembers(main, Taken(created));
  }

  /**
   * A column is left unassigned iff it is a main column and no created
   * table took that exact tuple; unassigned columns keep their order.
   */
  lemma UnassignedColumns(main: seq<Column>, created: seq<Request>, c: Column)
    ensures c in Removed(main, Taken(created)) <==>
              c in main && forall k :: 0 <= k < |created| ==> c !in created[k].columns
    ensures IsSubsequence(Removed(main, Taken(created)), main)
  {
    RemovedMembers(main, Taken(created));
    TakenMembers(created);
    RemovedIsSubsequence(main, Taken(created));
  }

  /** Outcome of one nested group. */
  datatype Round = Skipped | Made(req: Request) | Abort

  /** The choices of "which table does it relate to?": the registry's keys, in order, then `Ninguna`. */
  function ParentChoices(created: seq<Request>): (r: seq<string>)
    ensures r == Keys(RegistryOf(created)) + ["Ninguna"]
    ensures forall x :: x in r <==> x in Names(created) || x == "Ninguna"
  {
    RegistryMembers(created);
    Keys(RegistryOf(created)) + ["Ninguna"]
  }

  lemma RegistryMembers(created: seq<Request>)
    ensures forall x :: x in Keys(RegistryOf(created)) <==> x in Names(created)
  {
    forall x ensures x in Keys(RegistryOf(created)) <==> x in Names(created) {
      RegistryLookup(created, x);
    }
  }

  /**
   * The link part of a nested group (normalizacion.py:562-655), once the
   * table is named and its columns renamed. An accepted "independent?"
   * confirm gives an unlinked table with the unique columns of the
   * checkbox; otherwise the operator picks among `ParentChoices(created)`:
   * `Ninguna`, an empty pick or a cancelled select give an unlinked table
   * without unique columns, and a registered table `p` gives a table linked
   * to `p` through `<p>_id`, matched on the two columns picked next. A
   * select over no choices stops the run.
   */
  function LinkGroup(name: string, columns: seq<Column>, created: seq<Request>, dsaNames: seq<string>,
                     script: seq<Answer>, pos: nat): (res: (Round, nat))
    requires pos <= |script|
    ensures pos <= res.1 <= |script|
    ensures res.0 != Skipped
    ensures res.0.Made? ==> LinkOk(created, res.0.req, dsaNames) && res.0.req.table == name && res.0.req.columns == columns
    ensures Accepted(Confirm(Next(script, pos), false)) ==>
              var unique := AskUnique(TargetNames(columns), script, pos + 1);
              res == (Made(Request(name, columns, None, None, unique.0, None, None)), unique.1)
    ensures !Accepted(Confirm(Next(script, pos), false)) ==>
              var parent := Select(Next(script, Advance(script, pos)), ParentChoices(created));
              (parent.None? || parent.value == "" || parent.value == "Ninguna" ==>
                 res.0 == Made(Request(name, columns, None, None, None, None, None)))
              && (parent.Some? && parent.value != "" && parent.value != "Ninguna" ==>
                    && parent.value in Names(created)
                    && var p := parent.value;
                       var q := Advance(script, Advance(script, pos));
                       var choices := ParentColumns(created, p);
                       res.0 == if choices == [] || dsaNames == [] then Abort
                                else Made(Request(name, columns, Some(p), Some(p + "_id"), None,
                                                  Select(Next(script, Advance(script, q)), dsaNames),
                                                  Select(Next(script, q), choices))))
  {
    var at := Advance(script, pos);
    if Accepted(Confirm(Next(script, pos), false)) then
      var unique := AskUnique(TargetNames(columns), script, at);
      (Made(Request(name, columns, None, None, unique.0, None, None)), unique.1)
    else
      var parent := Select(Next(script, at), ParentChoices(created));
      var q := Advance(script, at);
      if parent.Some? && parent.value != "" && parent.value != "Ninguna" then
        var p := parent.value;
        var choices := ParentColumns(created, p);
        if choices == [] then (Abort, q)
        else
          var parentMatch := Select(Next(script, q), choices);
          var q' := Advance(script, q);
          if dsaNames == [] then (Abort, q')
          else (Made(Request(name, columns, Some(p), Some(p + "_id"), None, Select(Next(script, q'), dsaNames), parentMatch)),
                Advance(script, q'))
      else (Made(Request(name, columns, None, None, None, None, None)), q)
  }

  /**
   * Reference definition of one nested group (normalizacion.py:533-655):
   * a declined "create?" skips the group, a cancelled name or rename stops
   * the run, and otherwise the link part decides.
   */
  function GroupSpec(group: string, cols: seq<Column>, dsaNames: seq<string>, created: seq<Request>,
                     script: seq<Answer>, pos: nat): (res: (Round, nat))
    requires pos <= |script|
    ensures pos <= res.1 <= |script|
    ensures pos < |script| ==> res.1 > pos
    ensures res.0.Made? ==> LinkOk(created, res.0.req, dsaNames) && Renaming(cols, res.0.req.columns)
    ensures res.0.Made? && Next(script, pos + 1) == Enter ==> res.0.req.table == "d_" + group
  {
    var at := Advance(script, pos);
    if !Accepted(Confirm(Next(script, pos), true)) then (Skipped, at)
    else
      var name := Text(Next(script, at), "d_" + group);
      var at' := Advance(script, at);
      if name.None? then (Abort, at')
      else
        var ren := RenameStep(cols, script, at');
        if !ren.ok then (Abort, ren.next)
        else LinkGroup(name.value, ren.columns, created, dsaNames, script, ren.next)
  }

  /**
   * One nested group (normalizacion.py:533-655): create it (default yes),
   * name it (default `"d_" + group`), optionally rename its columns, then
   * the link part.
   */
  method GroupRound(group: string, cols: seq<Column>, dsaNames: seq<string>,
                    created: seq<Request>, registry: Dict<string, Option<string>>,
                    script: seq<Answer>, pos: nat) returns (r: Round, next: nat)
    requires pos <= |script| && registry == RegistryOf(created)
    ensures (r, next) == GroupSpec(group, cols, dsaNames, created, script, pos)
    ensures pos <= next <= |script|
    ensures pos < |script| ==> next > pos
    ensures !Accepted(Confirm(Next(script, pos), true)) ==> r == Skipped
    ensures Accepted(Confirm(Next(script, pos), true)) ==>
              var name := Text(Next(script, pos + 1), "d_" + group);
              if name.None? then r == Abort
              else
                var ren := RenameStep(cols, script, pos + 2);
                if !ren.ok then r == Abort
                else (r, next) == LinkGroup(name.value, ren.columns, created, dsaNames, script, ren.next)
    ensures r.Made? ==> LinkOk(created, r.req, dsaNames) && Renaming(cols, r.req.columns)
    ensures r.Made? && Next(script, pos + 1) == Enter ==> r.req.table == "d_" + group
  {
    next := pos;
    var create := Confirm(Next(script, next), true);
    next := Advance(script, next);
    if !Accepted(create) {
      return Skipped, next;
    }
    var name := Text(Next(script, next), "d_" + group);
    next := Advance(script, next);
    if name.None? {
      return Abort, next;
    }
    var columns := cols;
    var rename := Confirm(Next(script, next), false);
    next := Advance(script, next);
    if Accepted(rename) {
      var ok;
      ok, columns, next := RenameColumns(cols, script, next);
      if !ok {
        return Abort, next;
      }
    }
    var res := LinkGroup(name.value, columns, created, dsaNames, script, next);
    r, next := res.0, res.1;
  }

  /** The request was made for one of the groups, from its columns. */
  predicate FromGroup(r: Request, groups: Dict<string, seq<Column>>) {
    exists i :: 0 <= i < |groups| && Renaming(groups[i].1, r.columns)
  }

  /** The result of the group pass: whether it ran to the end, the cursor, and every request so far. */
  datatype Pass = Pass(ok: bool, next: nat, created: seq<Request>)

  /**
   * Reference definition of the group pass from group `i` on
   * (normalizacion.py:528-655): each group's round adds its request, if it
   * makes one, and a round that stops the run ends the pass.
   */
  function GroupsSpec(groups: Dict<string, seq<Column>>, i: nat, dsaNames: seq<string>, created: seq<Request>,
                      script: seq<Answer>, pos: nat): (p: Pass)
    requires i <= |groups| && pos <= |script|
    ensures pos <= p.next <= |script|
    ensures |p.created| >= |created| && p.created[..|created|] == created
    ensures |p.created| <= |created| + |groups| - i
    decreases |groups| - i
  {
    if i == |groups| then Pass(true, pos, created)
    else
      var res := GroupSpec(groups[i].0, groups[i].1, dsaNames, created, script, pos);
      match res.0
      case Abort => Pass(false, res.1, created)
      case Skipped => GroupsSpec(groups, i + 1, dsaNames, created, script, res.1)
      case Made(r) =>
        var p := GroupsSpec(groups, i + 1, dsaNames, created + [r], script, res.1);
        assert p.created[..|created|] == (p.created[..|created| + 1])[..|created|];
        p
  }

  /** One group's round, as a step of `GroupsSpec`. */
  lemma GroupsSpecStep(groups: Dict<string, seq<Column>>, i: nat, dsaNames: seq<string>, created: seq<Request>,
                       script: seq<Answer>, pos: nat, res: (Round, nat))
    requires i < |groups| && pos <= |script|
    requires res == GroupSpec(groups[i].0, groups[i].1, dsaNames, created, script, pos)
    ensures res.0.Abort? ==> GroupsSpec(groups, i, dsaNames, created, script, pos) == Pass(false, res.1, created)
    ensures res.0.Skipped? ==> GroupsSpec(groups, i, dsaNames, created, script, pos) == GroupsSpec(groups, i + 1, dsaNames, created, script, res.1)
    ensures res.0.Made? ==> GroupsSpec(groups, i, dsaNames, created, script, pos) == GroupsSpec(groups, i + 1, dsaNames, created + [res.0.req], script, res.1)
  {
  }

  /** What the group pass from group `i` on keeps: links, provenance and progress. */
  ghost predicate PassSound(groups: Dict<string, seq<Column>>, i: nat, dsaNames: seq<string>, created: seq<Request>,
                            script: seq<Answer>, pos: nat, p: Pass) {
    && AllLinked(p.created, dsaNames)
    && (forall k :: |created| <= k < |p.created| ==> FromGroup(p.created[k], groups))
    && (i < |groups| && pos < |script| ==> p.next > pos)
    && (p.ok ==> p.next == |script| || p.next >= pos + |groups| - i)
  }

  /**
   * The group pass keeps every request linked as `LinkOk` demands, makes
   * each new request from one group's columns, and reads one answer per
   * group at least while the script lasts.
   */
  lemma {:induction false} GroupsFacts(groups: Dict<string, seq<Column>>, i: nat, dsaNames: seq<string>,
                                       created: seq<Request>, script: seq<Answer>, pos: nat)
    requires i <= |groups| && pos <= |script| && AllLinked(created, dsaNames)
    ensures PassSound(groups, i, dsaNames, created, script, pos, GroupsSpec(groups, i, dsaNames, created, script, pos))
    decreases |groups| - i
  {
    if i < |groups| {
      var res := GroupSpec(groups[i].0, groups[i].1, dsaNames, created, script, pos);
      GroupsSpecStep(groups, i, dsaNames, created, script, pos, res);
      if res.0.Skipped? {
        GroupsFacts(groups, i + 1, dsaNames, created, script, res.1);
      } else if res.0.Made? {
        AllLinkedAppend(created, res.0.req, dsaNames);
        GroupsFacts(groups, i + 1, dsaNames, created + [res.0.req], script, res.1);
        MadeSound(groups, i, dsaNames, created, script, pos, res, GroupsSpec(groups, i + 1, dsaNames, created + [res.0.req], script, res.1));
      }
    }
  }

  /** A round that makes a request keeps `PassSound` from the rest of the pass. */
  lemma MadeSound(groups: Dict<string, seq<Column>>, i: nat, dsaNames: seq<string>, created: seq<Request>,
                  script: seq<Answer>, pos: nat, res: (Round, nat), p: Pass)
    requires i < |groups| && pos <= |script|
    requires res == GroupSpec(groups[i].0, groups[i].1, dsaNames, created, script, pos) && res.0.Made?
    requires p == GroupsSpec(groups, i + 1, dsaNames, created + [res.0.req], script, res.1)
    requires PassSound(groups, i + 1, dsaNames, created + [res.0.req], script, res.1, p)
    ensures PassSound(groups, i, dsaNames, created, script, pos, p)
  {
    var r := res.0.req;
    assert p.created[|created|] == (p.created[..|created| + 1])[|created|] == r;
    assert FromGroup(r, groups) by {
      assert Renaming(groups[i].1, r.columns);
    }
    forall k | |created| <= k < |p.created| ensures FromGroup(p.created[k], groups) {
      if k > |created| {
        assert |created + [r]| <= k;
      }
    }
  }

  /** The pass over the nested groups, in the groups dict's order. */
  method ResolveGroups(groups: Dict<string, seq<Column>>, dsaNames: seq<string>, script: seq<Answer>, pos: nat,
                       created0: seq<Request>, registry0: Dict<string, Option<string>>)
    returns (ok: bool, next: nat, created: seq<Request>, registry: Dict<string, Option<string>>)
    requires pos <= |script| && registry0 == RegistryOf(created0) && AllLinked(created0, dsaNames)
    ensures Pass(ok, next, created) == GroupsSpec(groups, 0, dsaNames, created0, script, pos)
    ensures pos <= next <= |script|
    ensures |groups| > 0 && pos < |script| ==> next > pos
    ensures ok ==> next == |script| || next >= pos + |groups|
    ensures |created| >= |created0| && created[..|created0|] == created0
    ensures registry == RegistryOf(created)
    ensures AllLinked(created, dsaNames)
    ensures forall k :: |created0| <= k < |created| ==> FromGroup(created[k], groups)
  {
    ok, next, created, registry := GroupsLoop(groups, dsaNames, script, pos, created0, registry0);
    GroupsFacts(groups, 0, dsaNames, created0, script, pos);
  }

  /** The loop of `ResolveGroups`: its result is the `GroupsSpec` pass, with the registry of its requests. */
  method GroupsLoop(groups: Dict<string, seq<Column>>, dsaNames: seq<string>, script: seq<Answer>, pos: nat,
                    created0: seq<Request>, registry0: Dict<string, Option<string>>)
    returns (ok: bool, next: nat, created: seq<Request>, registry: Dict<string, Option<string>>)
    requires pos <= |script| && registry0 == RegistryOf(created0)
    ensures Pass(ok, next, created) == GroupsSpec(groups, 0, dsaNames, created0, script, pos)
    ensures registry == RegistryOf(created)
  {
    ok, next, created, registry := true, pos, created0, registry0;
    for i := 0 to |groups|
      invariant next <= |script|
      invariant registry == RegistryOf(created)
      invariant GroupsSpec(groups, 0, dsaNames, created0, script, pos) == GroupsSpec(groups, i, dsaNames, created, script, next)
    {
      var r;
      ghost var from := next;
      r, next := GroupRound(groups[i].0, groups[i].1, dsaNames, created, registry, script, next);
      GroupsSpecStep(groups, i, dsaNames, created, script, from, (r, next));
      if r.Abort? {
        ok := false;
        return;
      }
      if r.Made? {
        CreatedAppend(created, r.req);
        created := created + [r.req];
        registry := Put(registry, r.req.table, r.req.fkTable);
      }
    }
  }

  /** The staging column names, as `information_schema` lists them. */
  function StagingNames(catalog: seq<CatalogEntry>): (r: seq<string>)
    ensures |r| == |catalog| && forall i :: 0 <= i < |catalog| ==> r[i] == catalog[i].0
  {
    seq(|catalog|, i requires 0 <= i < |catalog| => catalog[i].0)
  }

  lemma MainLinked(created: seq<Request>, dsaNames: seq<string>)
    requires forall k :: 0 <= k < |created| ==> MainRequest(created[k])
    ensures AllLinked(created, dsaNames)
  {
  }

  /**
   * `normalizar_interactivo` after the cleanup phase: detect the structure,
   * run the partition loop, then the group pass (skipped once the run has
   * stopped). Every request is one the planner may issue (`LinkOk`), none
   * makes `crear_dimension_edw` raise, and the registry is the fold of the
   * requests.
   */
  method NormalizeInteractive(catalog: seq<CatalogEntry>, script: seq<Answer>)
    returns (ok: bool, created: seq<Request>, registry: Dict<string, Option<string>>, mainTables: nat, unassigned: seq<Column>)
    ensures registry == RegistryOf(created)
    ensures AllLinked(created, StagingNames(catalog))
    ensures forall k :: 0 <= k < |created| ==> !MigrationOf(created[k]).Raises?
    ensures mainTables <= |created|
    ensures forall k :: 0 <= k < mainTables ==> MainRequest(created[k]) && TakenFrom(created[k].columns, MainOf(catalog))
    ensures unassigned == Removed(MainOf(catalog), Taken(created[..mainTables]))
    ensures var p := Partitioned(MainOf(catalog), script);
            mainTables == |p.created| && unassigned == p.pool
    ensures var p := Partitioned(MainOf(catalog), script);
            p.stop == Aborted ==> !ok && created == p.created
    ensures var p := Partitioned(MainOf(catalog), script);
            p.stop != Aborted ==>
              && p.pos <= |script|
              && var g := GroupsSpec(GroupsOf(catalog), 0, StagingNames(catalog), p.created, script, p.pos);
                 ok == g.ok && created == g.created
  {
    ok, created, registry, mainTables, unassigned := PlanTables(catalog, script);
    PlanFacts(catalog, script, ok, created, mainTables, unassigned);
  }

  /** The calls of `NormalizeInteractive`: its outcome is the partition loop's, then the group pass's. */
  method PlanTables(catalog: seq<CatalogEntry>, script: seq<Answer>)
    returns (ok: bool, created: seq<Request>, registry: Dict<string, Option<string>>, mainTables: nat, unassigned: seq<Column>)
    ensures registry == RegistryOf(created)
    ensures var p := Partitioned(MainOf(catalog), script);
            mainTables == |p.created| && unassigned == p.pool
    ensures var p := Partitioned(MainOf(catalog), script);
            p.stop == Aborted ==> !ok && created == p.created
    ensures var p := Partitioned(MainOf(catalog), script);
            p.stop != Aborted ==>
              && p.pos <= |script|
              && var g := GroupsSpec(GroupsOf(catalog), 0, StagingNames(catalog), p.created, script, p.pos);
                 ok == g.ok && created == g.created
  {
    var groups, main := DetectStructure(catalog);
    var stop, pos, counter;
    ghost var asks;
    stop, pos, unassigned, counter, created, registry, asks := PartitionMainColumns(main, script);
    mainTables := |created|;
    ok := stop != Aborted;
    if ok {
      ok, pos, created, registry := ResolveGroups(groups, StagingNames(catalog), script, pos, created, registry);
    }
  }

  /**
   * What the outcome of the partition loop and the group pass keeps: every
   * request is linked as `LinkOk` demands and never makes
   * `crear_dimension_edw` raise, the first `mainTables` requests are the
   * partition loop's, and the unassigned columns are the main columns none
   * of them took.
   */
  lemma PlanFacts(catalog: seq<CatalogEntry>, script: seq<Answer>, ok: bool, created: seq<Request>, mainTables: nat, unassigned: seq<Column>)
    requires var p := Partitioned(MainOf(catalog), script);
            mainTables == |p.created| && unassigned == p.pool
    requires var p := Partitioned(MainOf(catalog), script);
            p.stop == Aborted ==> !ok && created == p.created
    requires var p := Partitioned(MainOf(catalog), script);
            p.stop != Aborted ==>
              && p.pos <= |script|
              && var g := GroupsSpec(GroupsOf(catalog), 0, StagingNames(catalog), p.created, script, p.pos);
                 ok == g.ok && created == g.created
    ensures AllLinked(created, StagingNames(catalog))
    ensures forall k :: 0 <= k < |created| ==> !MigrationOf(created[k]).Raises?
    ensures mainTables <= |created|
    ensures forall k :: 0 <= k < mainTables ==> MainRequest(created[k]) && TakenFrom(created[k].columns, MainOf(catalog))
    ensures unassigned == Removed(MainOf(catalog), Taken(created[..mainTables]))
  {
    var p := Partitioned(MainOf(catalog), script);
    PartitionedFacts(MainOf(catalog), script);
    MainLinked(p.created, StagingNames(catalog));
    if p.stop != Aborted {
      GroupsFacts(GroupsOf(catalog), 0, StagingNames(catalog), p.created, script, p.pos);
    }
    PrefixFacts(MainOf(catalog), p.created, created);
    AllLinkedNeverRaise(created, StagingNames(catalog));
  }

  /** The requests after the partition loop's keep its first ones. */
  lemma PrefixFacts(main: seq<Column>, first: seq<Request>, created: seq<Request>)
    requires FromMain(first, main) && |first| <= |created| && created[..|first|] == first
    ensures forall k :: 0 <= k < |first| ==> MainRequest(created[k]) && TakenFrom(created[k].columns, main)
  {
    forall k | 0 <= k < |first| ensures created[k] == first[k] {
      assert created[k] == created[..|first|][k];
    }
  }

  lemma AllLinkedNeverRaise(created: seq<Request>, dsaNames: seq<string>)
    requires AllLinked(created, dsaNames)
    ensures forall k :: 0 <= k < |created| ==> !MigrationOf(created[k]).Raises?
  {
    forall k | 0 <= k < |created| ensures !MigrationOf(created[k]).Raises? {
      LinkedNeverRaises(created[..k], created[k], dsaNames);
    }
  }
}
