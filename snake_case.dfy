/**
 * Canonical column names (normalizacion.py, `to_snake_case`): strip every
 * character outside `[A-Za-z0-9_/]`, put `_` at each camel-case boundary,
 * lower-case.
 */
module SnakeCase {
  import opened Ascii

  predicate IsSnakeChar(c: char) { IsWord(c) || c == '/' }

  /** The characters a canonical name is made of. */
  predicate IsCanonicalChar(c: char) { IsLower(c) || IsDigit(c) || c == '_' || c == '/' }

  /** `re.sub(r'[^\w/]', '', s)`. */
  function StripNonSnake(s: string): (r: string)
    ensures forall i :: 0 <= i < |r| ==> IsSnakeChar(r[i])
  {
    if s == [] then []
    else if IsSnakeChar(s[0]) then [s[0]] + StripNonSnake(s[1..])
    else StripNonSnake(s[1..])
  }

  /** A lower-case letter or digit immediately followed by an upper-case letter. */
  predicate IsBoundary(a: char, b: char) { (IsLower(a) || IsDigit(a)) && IsUpper(b) }

  /**
   * `re.sub(r'([a-z0-9])([A-Z])', r'\1_\2', s)`: a left-to-right scan that
   * resumes after each two-character match.
   */
  function SplitCamel(s: string): (r: string)
    ensures (forall i :: 0 <= i < |s| ==> IsSnakeChar(s[i])) ==>
              forall i :: 0 <= i < |r| ==> IsSnakeChar(r[i])
  {
    if |s| < 2 then s
    else if IsBoundary(s[0], s[1]) then [s[0], '_', s[1]] + SplitCamel(s[2..])
    else [s[0]] + SplitCamel(s[1..])
  }

  /** `to_snake_case`. */
  function ToSnakeCase(name: string): (r: string)
    ensures forall i :: 0 <= i < |r| ==> IsCanonicalChar(r[i])
  {
    var stripped := StripNonSnake(name);
    var split := SplitCamel(stripped);
    assert forall i :: 0 <= i < |split| ==> IsSnakeChar(split[i]);
    LowerStr(split)
  }

  /** Reference definition: one `_` between the two characters of every boundary pair. */
  function InsertAtBoundaries(s: string): string {
    if |s| < 2 then s
    else [s[0]] + (if IsBoundary(s[0], s[1]) then "_" else "") + InsertAtBoundaries(s[1..])
  }

  /** The regex scan inserts `_` exactly at each `[a-z0-9][A-Z]` pair. */
  lemma {:induction false} SplitCamelInsertsAtBoundaries(s: string)
    ensures SplitCamel(s) == InsertAtBoundaries(s)
  {
    if |s| >= 2 {
      if IsBoundary(s[0], s[1]) {
        SplitCamelInsertsAtBoundaries(s[2..]);
        var t := s[1..];
        assert t[1..] == s[2..];
        assert |t| >= 2 ==> !IsBoundary(t[0], t[1]);
        assert InsertAtBoundaries(t) == [s[1]] + InsertAtBoundaries(s[2..]);
      } else {
        SplitCamelInsertsAtBoundaries(s[1..]);
      }
    }
  }

  lemma {:induction false} StripKeepsSnakeChars(s: string)
    requires forall i :: 0 <= i < |s| ==> IsSnakeChar(s[i])
    ensures StripNonSnake(s) == s
  {
    if s != [] {
      StripKeepsSnakeChars(s[1..]);
    }
  }

  lemma {:induction false} SplitCamelWithoutUpper(s: string)
    requires forall i :: 0 <= i < |s| ==> !IsUpper(s[i])
    ensures SplitCamel(s) == s
  {
    if |s| >= 2 {
      SplitCamelWithoutUpper(s[1..]);
    }
  }

  /** Canonicalising a canonical name changes nothing. */
  lemma {:induction false} ToSnakeCaseIdempotent(name: string)
    ensures ToSnakeCase(ToSnakeCase(name)) == ToSnakeCase(name)
  {
    var c := ToSnakeCase(name);
    StripKeepsSnakeChars(c);
    SplitCamelWithoutUpper(c);
    LowerStrNoUpper(c);
  }

  /** No `[a-z0-9][A-Z]` pair anywhere in `s`. */
  predicate WithoutBoundary(s: string) {
    forall i :: 0 <= i < |s| - 1 ==> !IsBoundary(s[i], s[i + 1])
  }

  lemma {:induction false} SplitCamelWithoutBoundary(s: string)
    requires WithoutBoundary(s)
    ensures SplitCamel(s) == s
  {
    if |s| >= 2 {
      SplitCamelWithoutBoundary(s[1..]);
      assert !IsBoundary(s[0], s[1]);
    }
  }

  /** Lower-casing and stripping commute, because `Lower` keeps word characters word characters. */
  lemma {:induction false} LowerStripCommute(s: string)
    ensures LowerStr(StripNonSnake(s)) == StripNonSnake(LowerStr(s))
  {
    if s != [] {
      LowerStripCommute(s[1..]);
      assert LowerStr(s)[1..] == LowerStr(s[1..]);
      assert IsSnakeChar(s[0]) <==> IsSnakeChar(Lower(s[0]));
    }
  }

  /** Names equal up to letter case and free of camel-case boundaries get the same canonical name. */
  lemma CaseVariantsAgree(p: string, q: string)
    requires LowerStr(p) == LowerStr(q)
    requires WithoutBoundary(StripNonSnake(p)) && WithoutBoundary(StripNonSnake(q))
    ensures ToSnakeCase(p) == ToSnakeCase(q)
  {
    SplitCamelWithoutBoundary(StripNonSnake(p));
    SplitCamelWithoutBoundary(StripNonSnake(q));
    LowerStripCommute(p);
    LowerStripCommute(q);
  }
}
