/**
 * The API diagnostic of diagnostico.py: a description of every field of the
 * first submission, the four buckets of potentially problematic fields, and
 * the fields that are None in every submission. Submissions are an input
 * (the API call is not modelled) and the printed report is returned as data.
 */
module Diagnostics {
  import opened Wrappers
  import opened JsonValue
  import opened PyDict
  import Cleanup

  /** `type(value).__name__`. */
  function TypeName(v: Json): string {
    match v
    case JNull => "NoneType"
    case JBool(_) => "bool"
    case JInt(_) => "int"
    case JFloat(_) => "float"
    case JString(_) => "str"
    case JArray(_) => "list"
    case JObject(_) => "dict"
  }

  /** The detail column of the field table, without its text formatting. */
  datatype Detail =
    | NullDetail
    | EmptyObjectDetail
    | ObjectDetail(size: nat, firstKeys: seq<string>)
    | EmptyArrayDetail
    | NullArrayDetail(length: nat)
    | ArrayDetail(length: nat)
    | EmptyStringDetail
    | StringDetail(shown: string)
    | ScalarDetail(value: Json)

  /** `all(item is None for item in value)`. */
  predicate AllNull(items: seq<Json>) {
    forall i :: 0 <= i < |items| ==> items[i] == JNull
  }

  /** A string detail: quoted, and cut to its first 50 characters followed by `...` when longer. */
  function ShownString(s: string): (r: string)
    requires |s| > 0
    ensures |s| <= 50 ==> r == "'" + s + "'"
    ensures |s| > 50 ==> |r| == 55 && r[1..51] == s[..50] && r[51..] == "...'"
    ensures |r| <= 55
  {
    if |s| > 50 then "'" + s[..50] + "...'" else "'" + s + "'"
  }

  /** `list(value.keys())[:3]`. */
  function FirstKeys(fields: seq<(string, Json)>): (r: seq<string>)
    ensures |r| == if |fields| < 3 then |fields| else 3
    ensures forall i :: 0 <= i < |r| ==> r[i] == fields[i].0
  {
    Keys(if |fields| < 3 then fields else fields[..3])
  }

  /** The detail of one value, by the same decision chain as the field table. */
  function DetailOf(v: Json): (d: Detail)
    ensures d.ObjectDetail? ==> v.JObject? && d.size == |v.fields| > 0 && |d.firstKeys| <= 3
    ensures d.StringDetail? ==> v.JString? && |d.shown| <= 55
    ensures d.ScalarDetail? <==> v.JBool? || v.JInt? || v.JFloat?
  {
    match v
    case JNull => NullDetail
    case JObject(fields) => if |fields| == 0 then EmptyObjectDetail else ObjectDetail(|fields|, FirstKeys(fields))
    case JArray(items) =>
      if |items| == 0 then EmptyArrayDetail
      else if AllNull(items) then NullArrayDetail(|items|)
      else ArrayDetail(|items|)
    case JString(s) => if |s| == 0 then EmptyStringDetail else StringDetail(ShownString(s))
    case _ => ScalarDetail(v)
  }

  /** The loop that prints one line per field of the first submission. */
  method FieldTable(first: Submission) returns (rows: seq<(string, string, Detail)>)
    ensures |rows| == |first|
    ensures forall i :: 0 <= i < |first| ==> rows[i] == (first[i].0, TypeName(first[i].1), DetailOf(first[i].1))
  {
    rows := [];
    for i := 0 to |first|
      invariant |rows| == i
      invariant forall j :: 0 <= j < i ==> rows[j] == (first[j].0, TypeName(first[j].1), DetailOf(first[j].1))
    {
      var (key, value) := first[i];
      rows := rows + [(key, TypeName(value), DetailOf(value))];
    }
  }

  /** The four problem buckets. */
  datatype Problem = NullField | EmptyObject | EmptyArray | NullArray

  /** Which bucket a value goes to, if any. */
  function Classify(v: Json): (p: Option<Problem>)
    ensures p == Some(NullField) <==> v == JNull
    ensures p == Some(EmptyObject) <==> v == JObject([])
    ensures p == Some(EmptyArray) <==> v == JArray([])
    ensures p == Some(NullArray) <==> v.JArray? && |v.items| > 0 && AllNull(v.items)
  {
    if v == JNull then Some(NullField)
    else if v.JObject? && |v.fields| == 0 then Some(EmptyObject)
    else if v.JArray? then
      if |v.items| == 0 then Some(EmptyArray)
      else if AllNull(v.items) then Some(NullArray)
      else None
    else None
  }

  /** Empty strings, non-empty objects and scalars are in no bucket. */
  lemma OtherValuesUnclassified(v: Json)
    requires v == JString("") || (v.JObject? && v.fields != []) || v.JBool? || v.JInt? || v.JFloat?
    ensures Classify(v).None?
  {
  }

  /** Reference definition of a bucket: the keys of the fields in it, in field order. */
  function KeysIn(first: Submission, p: Problem): seq<string> {
    if first == [] then []
    else KeysIn(first[..|first| - 1], p) + (if Classify(first[|first| - 1].1) == Some(p) then [first[|first| - 1].0] else [])
  }

  datatype Buckets = Buckets(nulls: seq<string>, nullArrays: seq<string>, emptyObjects: seq<string>, emptyArrays: seq<string>)

  /** The loop that fills `campos_vacios`, `campos_empty_objects`, `campos_empty_arrays` and `campos_null_arrays`. */
  method ClassifyFields(first: Submission) returns (b: Buckets)
    ensures b.nulls == KeysIn(first, NullField)
    ensures b.emptyObjects == KeysIn(first, EmptyObject)
    ensures b.emptyArrays == KeysIn(first, EmptyArray)
    ensures b.nullArrays == KeysIn(first, NullArray)
  {
    b := Buckets([], [], [], []);
    var n := 0;
    while n < |first|
      invariant n <= |first|
      invariant b.nulls == KeysIn(first[..n], NullField)
      invariant b.emptyObjects == KeysIn(first[..n], EmptyObject)
      invariant b.emptyArrays == KeysIn(first[..n], EmptyArray)
      invariant b.nullArrays == KeysIn(first[..n], NullArray)
    {
      assert first[..n + 1][..n] == first[..n];
      var (key, value) := first[n];
      if value == JNull {
        b := b.(nulls := b.nulls + [key]);
      } else if value.JObject? && |value.fields| == 0 {
        b := b.(emptyObjects := b.emptyObjects + [key]);
      } else if value.JArray? {
        if |value.items| == 0 {
          b := b.(emptyArrays := b.emptyArrays + [key]);
        } else if forall i :: 0 <= i < |value.items| ==> value.items[i] == JNull {
          b := b.(nullArrays := b.nullArrays + [key]);
        }
      }
      n := n + 1;
    }
    assert first[..n] == first;
  }

  /** A key is in a bucket iff one of its fields has a value of that kind. */
  lemma {:induction false} KeysInMembers(first: Submission, p: Problem)
    ensures forall k :: k in KeysIn(first, p) <==> exists i :: 0 <= i < |first| && first[i].0 == k && Classify(first[i].1) == Some(p)
  {
    if first != [] {
      KeysInMembers(first[..|first| - 1], p);
      assert forall i :: 0 <= i < |first| - 1 ==> first[..|first| - 1][i] == first[i];
    }
  }

  /** The buckets are disjoint: each key of a submission lands in at most one. */
  lemma BucketsDisjoint(first: Submission, p: Problem, q: Problem, k: string)
    requires DistinctKeys(first)
    requires k in KeysIn(first, p) && k in KeysIn(first, q)
    ensures p == q
  {
    KeysInMembers(first, p);
    KeysInMembers(first, q);
    var i :| 0 <= i < |first| && first[i].0 == k && Classify(first[i].1) == Some(p);
    var j :| 0 <= j < |first| && first[j].0 == k && Classify(first[j].1) == Some(q);
    assert i == j;
  }

  /** The keys that are None in a submission. */
  function NullKeys(sub: Submission): (r: set<string>)
    ensures forall k :: k in r <==> (k, JNull) in sub
  {
    set i | 0 <= i < |sub| && sub[i].1 == JNull :: sub[i].0
  }

  /**
   * The consistency check: only with more than one submission, the first
   * submission's None keys that are None in every later submission
   * (`siempre_vacios &= ...` over `submissions[1:]`).
   */
  method AlwaysNull(subs: seq<Submission>, nulls: seq<string>) returns (r: Option<set<string>>)
    ensures r.Some? <==> |subs| > 1
    ensures r.Some? ==> forall k :: k in r.value <==> k in nulls && forall j :: 1 <= j < |subs| ==> (k, JNull) in subs[j]
  {
    if |subs| <= 1 {
      return None;
    }
    var always := set k | k in nulls;
    for j := 1 to |subs|
      invariant forall k :: k in always <==> k in nulls && forall t :: 1 <= t < j ==> (k, JNull) in subs[t]
    {
      always := always * NullKeys(subs[j]);
    }
    return Some(always);
  }

  /** A key missing from a later submission is not reported as always None. */
  lemma MissingKeyNotAlwaysNull(subs: seq<Submission>, nulls: seq<string>, always: set<string>, j: nat, k: string)
    requires 1 <= j < |subs| && k !in Keys(subs[j])
    requires forall c :: c in always <==> c in nulls && forall t :: 1 <= t < |subs| ==> (c, JNull) in subs[t]
    ensures k !in always
  {
  }

  datatype Diagnosis = Diagnosis(fields: seq<(string, string, Detail)>, buckets: Buckets, alwaysNull: Option<set<string>>)

  /** `diagnosticar_api` once the submissions are fetched: nothing without submissions. */
  method Diagnose(subs: seq<Submission>) returns (r: Option<Diagnosis>)
    ensures r.None? <==> subs == []
    ensures r.Some? ==>
              && |r.value.fields| == |subs[0]|
              && (forall i :: 0 <= i < |subs[0]| ==>
                    r.value.fields[i] == (subs[0][i].0, TypeName(subs[0][i].1), DetailOf(subs[0][i].1)))
              && r.value.buckets.nulls == KeysIn(subs[0], NullField)
              && r.value.buckets.emptyObjects == KeysIn(subs[0], EmptyObject)
              && r.value.buckets.emptyArrays == KeysIn(subs[0], EmptyArray)
              && r.value.buckets.nullArrays == KeysIn(subs[0], NullArray)
              && (r.value.alwaysNull.Some? <==> |subs| > 1)
              && (r.value.alwaysNull.Some? ==> forall k :: k in r.value.alwaysNull.value <==>
                    k in KeysIn(subs[0], NullField) && forall j :: 1 <= j < |subs| ==> (k, JNull) in subs[j])
  {
    if subs == [] {
      return None;
    }
    var first := subs[0];
    var fields := FieldTable(first);
    var buckets := ClassifyFields(first);
    var always := AlwaysNull(subs, buckets.nulls);
    return Some(Diagnosis(fields, buckets, always));
  }

  /** How a None, dict or list value of a JSONB column is stored by the staging load. */
  function Stored(v: Json): Cleanup.DbValue {
    if v == JNull then Cleanup.SqlNull else Cleanup.JsonbValue(v)
  }

  /**
   * The diagnostic's buckets are exactly the values the cleanup counts as
   * empty in a JSONB column: a None, dict or list value lands in a bucket
   * iff its stored form is empty there.
   */
  lemma BucketsMatchCleanup(v: Json)
    requires v == JNull || IsContainer(v)
    ensures Classify(v).Some? <==> Cleanup.IsEmptyValue("jsonb", Stored(v))
  {
  }
}
