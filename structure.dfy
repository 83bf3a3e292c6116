/**
 * Classification of the staging catalog (normalizacion.py,
 * `detectar_estructura` and `tiene_columnas_timestamp`).
 *
 * The catalog is the list of `(column_name, data_type)` pairs of the staging
 * table in ordinal order. A name without `/` is a main column; a name with
 * `/` belongs to the nested group named by the snake-cased text before its
 * first `/`.
 */
module Structure {
  import opened Wrappers
  import opened Ascii
  import opened PyDict
  import opened SnakeCase

  /** A planned column: (destination name, data type, staging name). */
  datatype Column = Column(name: string, colType: string, original: string)

  /** One catalog row: (column_name, data_type). */
  type CatalogEntry = (string, string)

  /** `'/' in name`. */
  predicate HasSlash(name: string) { Find(name, '/') < |name| }

  /** The group of a nested column: `to_snake_case` of the text before the first `/`. */
  function GroupKey(name: string): string
    requires HasSlash(name)
  {
    ToSnakeCase(name[..Find(name, '/')])
  }

  /** The field of a nested column: `to_snake_case` of everything after the first `/`. */
  function FieldName(name: string): string
    requires HasSlash(name)
  {
    ToSnakeCase(name[Find(name, '/') + 1..])
  }

  function MainEntry(e: CatalogEntry): Column {
    Column(ToSnakeCase(e.0), e.1, e.0)
  }

  function GroupEntry(e: CatalogEntry): Column
    requires HasSlash(e.0)
  {
    Column(FieldName(e.0), e.1, e.0)
  }

  /** Reference definition: the main columns, in catalog order. */
  function MainOf(c: seq<CatalogEntry>): seq<Column> {
    if c == [] then []
    else
      var e := c[|c| - 1];
      MainOf(c[..|c| - 1]) + (if HasSlash(e.0) then [] else [MainEntry(e)])
  }

  /** Reference definition: the columns of group `key`, in catalog order. */
  function GroupOf(c: seq<CatalogEntry>, key: string): seq<Column> {
    if c == [] then []
    else
      var e := c[|c| - 1];
      GroupOf(c[..|c| - 1], key) + (if HasSlash(e.0) && GroupKey(e.0) == key then [GroupEntry(e)] else [])
  }

  /** Reference definition: the group keys in order of first appearance. */
  function GroupKeysOf(c: seq<CatalogEntry>): seq<string> {
    if c == [] then []
    else
      var e := c[|c| - 1];
      var p := GroupKeysOf(c[..|c| - 1]);
      if HasSlash(e.0) && GroupKey(e.0) !in p then p + [GroupKey(e.0)] else p
  }

  /**
   * `detectar_estructura` on a catalog: the groups dict holds exactly the
   * group keys in order of first appearance, each bound to its columns in
   * catalog order; the main list holds the columns without `/`.
   */
  method DetectStructure(catalog: seq<CatalogEntry>) returns (groups: Dict<string, seq<Column>>, main: seq<Column>)
    ensures main == MainOf(catalog)
    ensures DistinctKeys(groups) && Keys(groups) == GroupKeysOf(catalog)
    ensures forall i :: 0 <= i < |groups| ==> groups[i].1 == GroupOf(catalog, groups[i].0)
    ensures groups == GroupsOf(catalog)
  {
    groups, main := [], [];
    var n := 0;
    while n < |catalog|
      invariant n <= |catalog|
      invariant main == MainOf(catalog[..n])
      invariant GroupsMatch(groups, catalog[..n])
    {
      var e := catalog[n];
      assert catalog[..n + 1] == catalog[..n] + [e];
      if HasSlash(e.0) {
        AppendKeepsGroups(groups, catalog[..n], e);
        groups := Append(groups, GroupKey(e.0), GroupEntry(e));
      } else {
        main := main + [MainEntry(e)];
      }
      n := n + 1;
    }
    assert catalog[..n] == catalog;
    GroupsOfMatches(groups, catalog);
  }

  /** Reference definition: the groups dict, each group key bound to its columns. */
  function GroupsOf(c: seq<CatalogEntry>): (r: Dict<string, seq<Column>>)
    ensures Keys(r) == GroupKeysOf(c)
  {
    var keys := GroupKeysOf(c);
    seq(|keys|, i requires 0 <= i < |keys| => (keys[i], GroupOf(c, keys[i])))
  }

  lemma GroupsOfMatches(groups: Dict<string, seq<Column>>, c: seq<CatalogEntry>)
    requires Keys(groups) == GroupKeysOf(c)
    requires forall i :: 0 <= i < |groups| ==> groups[i].1 == GroupOf(c, groups[i].0)
    ensures groups == GroupsOf(c)
  {
    forall i | 0 <= i < |groups| ensures groups[i] == GroupsOf(c)[i] {
      assert groups[i].0 == Keys(groups)[i] == Keys(GroupsOf(c))[i];
    }
  }

  /** The loop invariant of `DetectStructure`: `groups` is the grouping of catalog `c`. */
  ghost predicate GroupsMatch(groups: Dict<string, seq<Column>>, c: seq<CatalogEntry>) {
    DistinctKeys(groups) &&
    Keys(groups) == GroupKeysOf(c) &&
    forall i :: 0 <= i < |groups| ==> groups[i].1 == GroupOf(c, groups[i].0)
  }

  /** One nested entry appended to its group keeps the grouping exact. */
  lemma AppendKeepsGroups(g: Dict<string, seq<Column>>, c: seq<CatalogEntry>, e: CatalogEntry)
    requires GroupsMatch(g, c) && HasSlash(e.0)
    ensures GroupsMatch(Append(g, GroupKey(e.0), GroupEntry(e)), c + [e])
  {
    var c' := c + [e];
    assert c'[..|c'| - 1] == c;
    var key := GroupKey(e.0);
    var r := Append(g, key, GroupEntry(e));
    forall i | 0 <= i < |r|
      ensures r[i].1 == GroupOf(c', r[i].0)
    {
      if i == |g| {
        GroupOfMissingKey(c, key);
      }
    }
  }

  /** A key that is not among the group keys has no columns. */
  lemma {:induction false} GroupOfMissingKey(c: seq<CatalogEntry>, key: string)
    requires key !in GroupKeysOf(c)
    ensures GroupOf(c, key) == []
  {
    if c != [] {
      GroupOfMissingKey(c[..|c| - 1], key);
    }
  }

  /** Every catalog entry is placed: in the main list when its name has no `/`, else in its group. */
  lemma {:induction false} EntryPlaced(c: seq<CatalogEntry>, j: nat)
    requires j < |c|
    ensures !HasSlash(c[j].0) ==> MainEntry(c[j]) in MainOf(c)
    ensures HasSlash(c[j].0) ==> GroupKey(c[j].0) in GroupKeysOf(c) && GroupEntry(c[j]) in GroupOf(c, GroupKey(c[j].0))
  {
    var p := c[..|c| - 1];
    if j < |c| - 1 {
      assert p[j] == c[j];
      EntryPlaced(p, j);
    }
  }

  /** Main columns come from names without `/` and keep the snake-cased name. */
  lemma {:induction false} MainProvenance(c: seq<CatalogEntry>)
    ensures forall x :: x in MainOf(c) ==>
              !HasSlash(x.original) && x.name == ToSnakeCase(x.original) && (x.original, x.colType) in c
  {
    if c != [] {
      var p := c[..|c| - 1];
      MainProvenance(p);
      assert forall e :: e in p ==> e in c;
    }
  }

  /** Group columns come from names with `/`, whose prefix names the group and whose remainder names the field. */
  lemma {:induction false} GroupProvenance(c: seq<CatalogEntry>, key: string)
    ensures forall x :: x in GroupOf(c, key) ==>
              HasSlash(x.original) && GroupKey(x.original) == key && x.name == FieldName(x.original) &&
              (x.original, x.colType) in c
  {
    if c != [] {
      var p := c[..|c| - 1];
      GroupProvenance(p, key);
      assert forall e :: e in p ==> e in c;
    }
  }

  /** The group keys are distinct and each is the snake-cased prefix of some nested column. */
  lemma {:induction false} GroupKeysProvenance(c: seq<CatalogEntry>)
    ensures forall i, j :: 0 <= i < j < |GroupKeysOf(c)| ==> GroupKeysOf(c)[i] != GroupKeysOf(c)[j]
    ensures forall k :: k in GroupKeysOf(c) ==> exists e :: e in c && HasSlash(e.0) && GroupKey(e.0) == k
  {
    if c != [] {
      var p := c[..|c| - 1];
      GroupKeysProvenance(p);
      assert forall e :: e in p ==> e in c;
      assert c[|c| - 1] in c;
    }
  }

  /**
   * Two nested columns whose prefixes differ only in letter case land in the
   * same group, provided neither prefix has a camel-case boundary (for
   * `gROUP` and `group` the keys are `g_roup` and `group`).
   */
  lemma CaseVariantsShareGroup(c: seq<CatalogEntry>, i: nat, j: nat)
    requires i < |c| && j < |c| && HasSlash(c[i].0) && HasSlash(c[j].0)
    requires LowerStr(c[i].0[..Find(c[i].0, '/')]) == LowerStr(c[j].0[..Find(c[j].0, '/')])
    requires WithoutBoundary(StripNonSnake(c[i].0[..Find(c[i].0, '/')]))
    requires WithoutBoundary(StripNonSnake(c[j].0[..Find(c[j].0, '/')]))
    ensures GroupKey(c[i].0) == GroupKey(c[j].0)
    ensures GroupEntry(c[i]) in GroupOf(c, GroupKey(c[i].0)) && GroupEntry(c[j]) in GroupOf(c, GroupKey(c[i].0))
  {
    CaseVariantsAgree(c[i].0[..Find(c[i].0, '/')], c[j].0[..Find(c[j].0, '/')]);
    EntryPlaced(c, i);
    EntryPlaced(c, j);
  }

  /** `any(t == 'timestamp without time zone' or t.startswith('timestamp') for each column type t)`. */
  predicate IsTimestampType(t: string) {
    t == "timestamp without time zone" || StartsWith(t, "timestamp")
  }

  /** `tiene_columnas_timestamp`: the first disjunct adds nothing to the prefix test. */
  function HasTimestampColumns(cols: seq<Column>): (r: bool)
    ensures r <==> exists i :: 0 <= i < |cols| && StartsWith(cols[i].colType, "timestamp")
  {
    if cols == [] then false
    else
      assert forall t :: t == "timestamp without time zone" ==> StartsWith(t, "timestamp");
      IsTimestampType(cols[0].colType) || (assert forall i :: 0 <= i < |cols| - 1 ==> cols[1..][i] == cols[i + 1]; HasTimestampColumns(cols[1..]))
  }
}
