/**
 * Survey-name cleaning and PostgreSQL type inference for the raw staging
 * load (utils.py).
 */
module SurveyUtils {
  import opened Ascii
  import opened JsonValue

  // ---------------------------------------------------------------------
  // clean_survey_name
  // ---------------------------------------------------------------------

  /** A character of the class `[-\s]`. */
  predicate IsSep(c: char) { c == '-' || IsSpace(c) }

  /** A character the first substitution keeps: the class `[\w\s-]`. */
  predicate IsNameChar(c: char) { IsWord(c) || IsSep(c) }

  /** `re.sub(r'[^\w\s-]', '', s)`. */
  function KeepNameChars(s: string): (r: string)
    ensures forall i :: 0 <= i < |r| ==> IsNameChar(r[i])
    ensures |r| <= |s|
  {
    if s == [] then []
    else if IsNameChar(s[0]) then [s[0]] + KeepNameChars(s[1..])
    else KeepNameChars(s[1..])
  }

  /** Length of the maximal run of separators at the start of `s`. */
  function RunLength(s: string): (n: nat)
    ensures n <= |s|
    ensures forall i :: 0 <= i < n ==> IsSep(s[i])
    ensures n == |s| || !IsSep(s[n])
  {
    if s != [] && IsSep(s[0]) then 1 + RunLength(s[1..]) else 0
  }

  /** `re.sub(r'[-\s]+', '_', s)`: each maximal run of separators becomes one `_`. */
  function CollapseSeps(s: string): (r: string)
    ensures forall i :: 0 <= i < |r| ==> !IsSep(r[i])
    decreases |s|
  {
    if s == [] then []
    else if IsSep(s[0]) then "_" + CollapseSeps(s[RunLength(s)..])
    else [s[0]] + CollapseSeps(s[1..])
  }

  /** `clean_survey_name`: lower-case, drop other punctuation, runs of blanks and hyphens to `_`. */
  function CleanSurveyName(name: string): (r: string)
    ensures forall i :: 0 <= i < |r| ==> IsWord(r[i]) && !IsUpper(r[i])
    ensures forall i :: 0 <= i < |r| ==> !IsSpace(r[i]) && r[i] != '-'
  {
    var kept := KeepNameChars(LowerStr(name));
    KeepNameCharsNoUpper(LowerStr(name));
    CollapseNoUpper(kept);
    CollapseWordChars(kept);
    CollapseSeps(kept)
  }

  lemma {:induction false} KeepNameCharsNoUpper(s: string)
    requires forall i :: 0 <= i < |s| ==> !IsUpper(s[i])
    ensures forall i :: 0 <= i < |KeepNameChars(s)| ==> !IsUpper(KeepNameChars(s)[i])
  {
    if s != [] {
      KeepNameCharsNoUpper(s[1..]);
    }
  }

  lemma {:induction false} CollapseWordChars(s: string)
    requires forall i :: 0 <= i < |s| ==> IsNameChar(s[i])
    ensures forall i :: 0 <= i < |CollapseSeps(s)| ==> IsWord(CollapseSeps(s)[i])
    decreases |s|
  {
    if s != [] {
      if IsSep(s[0]) {
        CollapseWordChars(s[RunLength(s)..]);
      } else {
        CollapseWordChars(s[1..]);
      }
    }
  }

  lemma {:induction false} CollapseNoUpper(s: string)
    requires forall i :: 0 <= i < |s| ==> !IsUpper(s[i])
    ensures forall i :: 0 <= i < |CollapseSeps(s)| ==> !IsUpper(CollapseSeps(s)[i])
    decreases |s|
  {
    if s != [] {
      if IsSep(s[0]) {
        CollapseNoUpper(s[RunLength(s)..]);
      } else {
        CollapseNoUpper(s[1..]);
      }
    }
  }

  /** Text without separators is left as it is; in particular underscores are not collapsed. */
  lemma {:induction false} CollapseWithoutSeps(s: string)
    requires forall i :: 0 <= i < |s| ==> !IsSep(s[i])
    ensures CollapseSeps(s) == s
  {
    if s != [] {
      CollapseWithoutSeps(s[1..]);
    }
  }

  /** Collapsing distributes over a split point that is not inside a run. */
  lemma {:induction false} CollapseAppend(a: string, b: string)
    requires a == [] || !IsSep(a[|a| - 1])
    ensures CollapseSeps(a + b) == CollapseSeps(a) + CollapseSeps(b)
    decreases |a|
  {
    if a == [] {
      assert a + b == b;
    } else if IsSep(a[0]) {
      var n := RunLength(a);
      assert n < |a|;
      assert RunLength(a + b) == n by { RunLengthAppend(a, b); }
      assert (a + b)[n..] == a[n..] + b;
      CollapseAppend(a[n..], b);
    } else {
      assert (a + b)[1..] == a[1..] + b;
      CollapseAppend(a[1..], b);
    }
  }

  lemma {:induction false} RunLengthAppend(a: string, b: string)
    requires a != [] && !IsSep(a[|a| - 1])
    ensures RunLength(a + b) == RunLength(a)
  {
    if IsSep(a[0]) {
      assert (a + b)[1..] == a[1..] + b;
      RunLengthAppend(a[1..], b);
    }
  }

  /**
   * A maximal run of blanks and hyphens, with no separator on either side
   * of it, becomes exactly one underscore.
   */
  lemma {:induction false} RunBecomesOneUnderscore(a: string, run: string, b: string)
    requires a == [] || !IsSep(a[|a| - 1])
    requires run != [] && forall i :: 0 <= i < |run| ==> IsSep(run[i])
    requires b == [] || !IsSep(b[0])
    ensures CollapseSeps(a + run + b) == CollapseSeps(a) + "_" + CollapseSeps(b)
  {
    var rb := run + b;
    CollapseAppend(a, rb);
    RunSkipped(run, b);
    calc {
      CollapseSeps(a + run + b);
      { assert a + run + b == a + rb; }
      CollapseSeps(a + rb);
      CollapseSeps(a) + CollapseSeps(rb);
      CollapseSeps(a) + ("_" + CollapseSeps(b));
      CollapseSeps(a) + "_" + CollapseSeps(b);
    }
  }

  lemma {:induction false} RunSkipped(run: string, b: string)
    requires run != [] && forall i :: 0 <= i < |run| ==> IsSep(run[i])
    requires b == [] || !IsSep(b[0])
    ensures CollapseSeps(run + b) == "_" + CollapseSeps(b)
  {
    RunLengthOfRun(run, b);
    assert (run + b)[|run|..] == b;
  }

  lemma {:induction false} RunLengthOfRun(run: string, b: string)
    requires forall i :: 0 <= i < |run| ==> IsSep(run[i])
    requires b == [] || !IsSep(b[0])
    ensures RunLength(run + b) == |run|
  {
    if run == [] {
      assert run + b == b;
    } else {
      assert (run + b)[1..] == run[1..] + b;
      RunLengthOfRun(run[1..], b);
    }
  }

  lemma {:induction false} KeepNameCharsKeepsAll(s: string)
    requires forall i :: 0 <= i < |s| ==> IsNameChar(s[i])
    ensures KeepNameChars(s) == s
  {
    if s != [] {
      KeepNameCharsKeepsAll(s[1..]);
    }
  }

  /** Cleaning a cleaned name changes nothing. */
  lemma {:induction false} CleanSurveyNameIdempotent(name: string)
    ensures CleanSurveyName(CleanSurveyName(name)) == CleanSurveyName(name)
  {
    var c := CleanSurveyName(name);
    LowerStrNoUpper(c);
    KeepNameCharsKeepsAll(c);
    CollapseWithoutSeps(c);
  }

  // ---------------------------------------------------------------------
  // inferir_tipo_pg
  // ---------------------------------------------------------------------

  datatype PgType = Text | Boolean | Integer | Numeric | Timestamp | Point | Jsonb {
    /** The type name written into the CREATE TABLE statement. */
    function Name(): string {
      match this
      case Text => "TEXT"
      case Boolean => "BOOLEAN"
      case Integer => "INTEGER"
      case Numeric => "NUMERIC"
      case Timestamp => "TIMESTAMP"
      case Point => "POINT"
      case Jsonb => "JSONB"
    }
  }

  /** The template `\d{4}-\d{2}-\d{2}T\d{2}:\d{2}:\d{2}`, `d` standing for a digit. */
  const TimestampTemplate: string := "dddd-dd-ddTdd:dd:dd"

  predicate FitsTemplate(c: char, t: char) {
    if t == 'd' then IsDigit(c) else c == t
  }

  /** `re.match(r'^\d{4}-\d{2}-\d{2}T\d{2}:\d{2}:\d{2}', s)`: only a prefix has to match. */
  predicate IsTimestampPrefix(s: string) {
    |s| >= |TimestampTemplate| &&
    forall i :: 0 <= i < |TimestampTemplate| ==> FitsTemplate(s[i], TimestampTemplate[i])
  }

  predicate AllDigits(s: string) {
    |s| > 0 && forall i :: 0 <= i < |s| ==> IsDigit(s[i])
  }

  /** `\d+(\.\d+)?`, the whole of `u`. */
  predicate IsUnsignedDecimal(u: string) {
    var k := Find(u, '.');
    AllDigits(u[..k]) && (k == |u| || AllDigits(u[k + 1..]))
  }

  /** `-?\d+(\.\d+)?`, the whole of `s`. */
  predicate IsSignedDecimal(s: string) {
    if |s| > 0 && s[0] == '-' then IsUnsignedDecimal(s[1..]) else IsUnsignedDecimal(s)
  }

  /** `-?\d+(\.\d+)?,-?\d+(\.\d+)?` matching the whole of `s`. */
  predicate IsPointBody(s: string) {
    var k := Find(s, ',');
    k < |s| && IsSignedDecimal(s[..k]) && IsSignedDecimal(s[k + 1..])
  }

  /** `re.match(r'^...$', s)`: Python's `$` also matches before one final newline. */
  predicate IsPointText(s: string) {
    IsPointBody(s) || (|s| > 0 && s[|s| - 1] == '\n' && IsPointBody(s[..|s| - 1]))
  }

  /** `inferir_tipo_pg`: the rules are tried in the source's order; the first that applies wins. */
  function InferPgType(v: Json): (t: PgType)
    ensures t == Boolean <==> v.JBool?
    ensures t == Integer <==> v.JInt?
    ensures t == Numeric <==> v.JFloat?
    ensures t == Jsonb <==> IsContainer(v)
    ensures t == Timestamp <==> v.JString? && IsTimestampPrefix(v.s)
    ensures t == Point <==> v.JString? && !IsTimestampPrefix(v.s) && IsPointText(v.s)
    ensures t == Text <==> v.JNull? || (v.JString? && !IsTimestampPrefix(v.s) && !IsPointText(v.s))
  {
    if v.JNull? then Text
    else if v.JBool? then Boolean
    else if IsPyInt(v) then Integer
    else if v.JFloat? then Numeric
    else if v.JString? then
      if IsTimestampPrefix(v.s) then Timestamp
      else if IsPointText(v.s) then Point
      else Text
    else if IsContainer(v) then Jsonb
    else Text
  }

  /** Trailing text after the date-time prefix does not change the verdict. */
  lemma {:induction false} TimestampIgnoresSuffix(s: string, rest: string)
    requires IsTimestampPrefix(s)
    ensures InferPgType(JString(s + rest)) == Timestamp
  {
    assert forall i :: 0 <= i < |TimestampTemplate| ==> (s + rest)[i] == s[i];
  }

  lemma UnsignedChars(u: string)
    requires IsUnsignedDecimal(u)
    ensures |u| > 0 && IsDigit(u[0])
    ensures forall i :: 0 <= i < |u| ==> IsDigit(u[i]) || u[i] == '.'
  {
    var k := Find(u, '.');
    assert u[..k][0] == u[0];
    forall i | 0 <= i < |u| ensures IsDigit(u[i]) || u[i] == '.' {
      if i < k { assert u[i] == u[..k][i]; }
      else if i > k { assert u[i] == u[k + 1..][i - k - 1]; }
    }
  }

  /** Every character of a signed decimal is a digit or the point, except a leading minus. */
  lemma DecimalChars(a: string)
    requires IsSignedDecimal(a)
    ensures |a| > 0 && a[0] != ','
    ensures forall i :: 0 < i < |a| ==> IsDigit(a[i]) || a[i] == '.'
  {
    if |a| > 0 && a[0] == '-' {
      UnsignedChars(a[1..]);
      assert forall i :: 0 < i < |a| ==> a[i] == a[1..][i - 1];
    } else {
      UnsignedChars(a);
    }
  }

  /** No string has both the date-time prefix and the point shape. */
  lemma PointShapeIsNotTimestamp(a: string, b: string, s: string)
    requires IsSignedDecimal(a) && IsSignedDecimal(b)
    requires s == a + "," + b || s == a + "," + b + "\n"
    ensures !IsTimestampPrefix(s)
  {
    DecimalChars(a);
    var n := |a|;
    assert s[n] == ',';
    assert forall i :: 0 <= i < n ==> s[i] == a[i];
    if n >= |TimestampTemplate| {
      assert !FitsTemplate(s[4], TimestampTemplate[4]);
    } else {
      assert !FitsTemplate(s[n], TimestampTemplate[n]);
    }
  }

  predicate IsPointShaped(s: string, a: string, b: string) {
    IsSignedDecimal(a) && IsSignedDecimal(b) && (s == a + "," + b || s == a + "," + b + "\n")
  }

  lemma {:induction false} SplitAtComma(body: string)
    requires IsPointBody(body)
    ensures IsSignedDecimal(body[..Find(body, ',')]) && IsSignedDecimal(body[Find(body, ',') + 1..])
    ensures body == body[..Find(body, ',')] + "," + body[Find(body, ',') + 1..]
  {
  }

  lemma {:induction false} PointTextHasShape(s: string) returns (a: string, b: string)
    requires IsPointText(s)
    ensures IsPointShaped(s, a, b)
  {
    if IsPointBody(s) {
      SplitAtComma(s);
      var k := Find(s, ',');
      a, b := s[..k], s[k + 1..];
    } else {
      var body := s[..|s| - 1];
      SplitAtComma(body);
      var k := Find(body, ',');
      a, b := body[..k], body[k + 1..];
      assert s == body + "\n";
    }
  }

  lemma {:induction false} FindAt(s: string, c: char, k: nat)
    requires k < |s| && s[k] == c
    requires forall j :: 0 <= j < k ==> s[j] != c
    ensures Find(s, c) == k
  {
    if k > 0 {
      FindAt(s[1..], c, k - 1);
    }
  }

  lemma {:induction false} ShapeIsPointText(s: string, a: string, b: string)
    requires IsPointShaped(s, a, b)
    ensures IsPointText(s)
  {
    var body := a + "," + b;
    DecimalChars(a);
    assert body[..|a|] == a && body[|a| + 1..] == b;
    FindAt(body, ',', |a|);
    assert IsPointBody(body);
    if s != body {
      assert s[..|s| - 1] == body;
    }
  }

  /**
   * A string is typed POINT exactly when it is two signed decimals joined
   * by a comma, optionally followed by one newline.
   */
  lemma {:induction false} PointShape(s: string)
    ensures InferPgType(JString(s)) == Point <==> exists a, b :: IsPointShaped(s, a, b)
  {
    if InferPgType(JString(s)) == Point {
      var a, b := PointTextHasShape(s);
    }
    if exists a, b :: IsPointShaped(s, a, b) {
      var a, b :| IsPointShaped(s, a, b);
      PointShapeIsNotTimestamp(a, b, s);
      ShapeIsPointText(s, a, b);
    }
  }
}
