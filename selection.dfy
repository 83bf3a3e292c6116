/**
 * Column selection in the partition loop of normalizacion.py's
 * `normalizar_interactivo`: the typed index list is split at commas, each
 * piece stripped and read with Python's `int()`; the chosen columns are
 * then removed from the pool of unassigned columns by tuple equality.
 */
module Selection {
  import opened Wrappers
  import opened Ascii
  import opened Structure

  /** `s.split(sep)`: at least one piece, none containing `sep`. */
  function Split(s: string, sep: char): (r: seq<string>)
    ensures |r| >= 1
    ensures forall i :: 0 <= i < |r| ==> Find(r[i], sep) == |r[i]|
    decreases |s|
  {
    var k := Find(s, sep);
    if k == |s| then [s] else [s[..k]] + Split(s[k + 1..], sep)
  }

  function Join(pieces: seq<string>, sep: char): string
    requires |pieces| >= 1
  {
    if |pieces| == 1 then pieces[0] else pieces[0] + [sep] + Join(pieces[1..], sep)
  }

  /** Splitting loses nothing: joining the pieces back gives the text. */
  lemma {:induction false} SplitJoin(s: string, sep: char)
    ensures Join(Split(s, sep), sep) == s
    decreases |s|
  {
    var k := Find(s, sep);
    if k < |s| {
      SplitJoin(s[k + 1..], sep);
      JoinCons(s[..k], Split(s[k + 1..], sep), sep);
      SplitAround(s, k);
    }
  }

  lemma JoinCons(p: string, rest: seq<string>, sep: char)
    requires |rest| >= 1
    ensures Join([p] + rest, sep) == p + [sep] + Join(rest, sep)
  {
    assert ([p] + rest)[1..] == rest;
  }

  lemma SplitAround(s: string, k: nat)
    requires k < |s|
    ensures s == s[..k] + [s[k]] + s[k + 1..]
  {
  }

  /** The number of whitespace characters `s` starts with. */
  function LeadingSpaces(s: string): (n: nat)
    ensures n <= |s|
    ensures forall i :: 0 <= i < n ==> IsSpace(s[i])
    ensures n < |s| ==> !IsSpace(s[n])
  {
    if s == [] || !IsSpace(s[0]) then 0 else 1 + LeadingSpaces(s[1..])
  }

  /** `t.rstrip()`: drop the trailing whitespace. */
  function TrimEnd(t: string): (r: string)
    ensures |r| <= |t| && r == t[..|r|]
    ensures forall i :: |r| <= i < |t| ==> IsSpace(t[i])
    ensures r != [] ==> !IsSpace(r[|r| - 1])
  {
    if t == [] || !IsSpace(t[|t| - 1]) then t else TrimEnd(t[..|t| - 1])
  }

  /**
   * `s.strip()`: the text between the leading and the trailing whitespace.
   * The result starts at `LeadingSpaces(s)`, everything before and after it
   * is whitespace, and it neither starts nor ends with whitespace, so no
   * other character is removed.
   */
  function Strip(s: string): (r: string)
    ensures |r| <= |s|
    ensures r != [] ==> !IsSpace(r[0]) && !IsSpace(r[|r| - 1])
    ensures var a := LeadingSpaces(s);
      && a + |r| <= |s| && s[a..a + |r|] == r
      && (forall i :: a + |r| <= i < |s| ==> IsSpace(s[i]))
  {
    var a := LeadingSpaces(s);
    var t := s[a..];
    var r := TrimEnd(t);
    TrimmedFrom(s, a);
    r
  }

  /** `TrimEnd` of the text from `a` on is a slice of `s` followed only by whitespace. */
  lemma TrimmedFrom(s: string, a: nat)
    requires a <= |s|
    ensures var r := TrimEnd(s[a..]);
      && a + |r| <= |s| && s[a..a + |r|] == r
      && (r != [] ==> r[0] == s[a])
      && (forall i :: a + |r| <= i < |s| ==> IsSpace(s[i]))
  {
    var t := s[a..];
    var r := TrimEnd(t);
    assert s[a..a + |r|] == t[..|r|];
    forall i | a + |r| <= i < |s| ensures IsSpace(s[i]) {
      assert s[i] == t[i - a];
    }
  }

  /** Digits with single underscores between them, as `int()` accepts them. */
  predicate IsDigitGroups(b: string) {
    && |b| > 0 && IsDigit(b[0]) && IsDigit(b[|b| - 1])
    && (forall i :: 0 <= i < |b| ==> IsDigit(b[i]) || b[i] == '_')
    && (forall i :: 0 <= i < |b| - 1 ==> !(b[i] == '_' && b[i + 1] == '_'))
  }

  /** The number the digits spell, underscores ignored. */
  function DigitsValue(b: string): (v: nat) {
    if b == [] then 0
    else
      var c := b[|b| - 1];
      if IsDigit(c) then 10 * DigitsValue(b[..|b| - 1]) + (c as int - '0' as int)
      else DigitsValue(b[..|b| - 1])
  }

  /** Python's `int(s)` on ASCII text: None where it raises `ValueError`. */
  function ParsePyInt(s: string): (r: Option<int>)
    ensures r.Some? ==> Strip(s) != []
  {
    ParseStripped(Strip(s))
  }

  /** An optional sign followed by digit groups, on text already stripped. */
  function ParseStripped(t: string): Option<int> {
    if t == [] then None
    else
      var neg := t[0] == '-';
      var body := if t[0] == '-' || t[0] == '+' then t[1..] else t;
      var v: int := DigitsValue(body);
      if IsDigitGroups(body) then Some(if neg then -v else v)
      else None
  }

  lemma {:induction false} DigitsValueDecimal(n: nat)
    ensures DigitsValue(Decimal(n)) == n
    decreases n
  {
    if n >= 10 {
      var d := Decimal(n);
      assert d[..|d| - 1] == Decimal(n / 10);
      DigitsValueDecimal(n / 10);
    }
  }

  lemma {:induction false} StripKeeps(s: string)
    requires s != [] && !IsSpace(s[0]) && !IsSpace(s[|s| - 1])
    ensures Strip(s) == s
  {
  }

  /** `int(str(n)) == n`: the decimal text of an index reads back as the index. */
  lemma DecimalParses(n: nat)
    ensures ParsePyInt(Decimal(n)) == Some(n)
  {
    var d := Decimal(n);
    StripKeeps(d);
    DigitsValueDecimal(n);
    assert IsDigitGroups(d);
  }

  /**
   * `strip()` is determined by where the text is cut: any way of writing `s`
   * as whitespace, then `r`, then whitespace, with `r` empty or not starting
   * or ending with whitespace, has `r == Strip(s)`.
   */
  lemma StripUnique(s: string, a: nat, r: string)
    requires a + |r| <= |s| && s[a..a + |r|] == r
    requires forall i :: 0 <= i < a ==> IsSpace(s[i])
    requires forall i :: a + |r| <= i < |s| ==> IsSpace(s[i])
    requires r != [] ==> !IsSpace(r[0]) && !IsSpace(r[|r| - 1])
    ensures Strip(s) == r
  {
    var t, b := Strip(s), LeadingSpaces(s);
    if t != [] {
      assert s[b] == t[0] && s[b + |t| - 1] == t[|t| - 1];
    }
    if r != [] {
      assert s[a] == r[0] && s[a + |r| - 1] == r[|r| - 1];
    }
    if r == [] || t == [] {
      assert r == [] && t == [];
    } else {
      assert a == b;
      assert a + |r| == b + |t|;
    }
  }

  /** `int()` ignores whitespace around the number. */
  lemma ParseIgnoresSurroundingSpace(pre: string, s: string, post: string)
    requires forall i :: 0 <= i < |pre| ==> IsSpace(pre[i])
    requires forall i :: 0 <= i < |post| ==> IsSpace(post[i])
    ensures Strip(pre + s + post) == Strip(s)
    ensures ParsePyInt(pre + s + post) == ParsePyInt(s)
  {
    assert pre + s + post == pre + (s + post);
    StripLeadingSpace(pre, s + post);
    StripTrailingSpace(s, post);
    assert Strip(pre + s + post) == Strip(s);
  }

  lemma {:induction false} StripLeadingSpace(pre: string, s: string)
    requires forall i :: 0 <= i < |pre| ==> IsSpace(pre[i])
    ensures Strip(pre + s) == Strip(s)
  {
    if pre != [] {
      assert (pre + s)[0] == pre[0] && (pre + s)[1..] == pre[1..] + s;
      StripSpaceStep(pre + s);
      StripLeadingSpace(pre[1..], s);
    } else {
      assert pre + s == s;
    }
  }

  /** A leading whitespace character does not change the strip. */
  lemma StripSpaceStep(x: string)
    requires x != [] && IsSpace(x[0])
    ensures Strip(x) == Strip(x[1..])
  {
    var a := LeadingSpaces(x[1..]);
    assert LeadingSpaces(x) == 1 + a;
    assert x[1 + a..] == x[1..][a..];
  }

  lemma StripTrailingSpace(s: string, post: string)
    requires forall i :: 0 <= i < |post| ==> IsSpace(post[i])
    ensures Strip(s + post) == Strip(s)
  {
    var w, t, a := s + post, Strip(s), LeadingSpaces(s);
    assert w[..|s|] == s;
    assert w[a..a + |t|] == s[a..a + |t|];
    forall i | 0 <= i < a ensures IsSpace(w[i]) {
      assert w[i] == s[i];
    }
    forall i | a + |t| <= i < |w| ensures IsSpace(w[i]) {
      if i < |s| { assert w[i] == s[i]; } else { assert w[i] == post[i - |s|]; }
    }
    StripUnique(w, a, t);
  }

  /** Digits with single underscores read as the number they spell, with or without a sign. */
  lemma ParseDigitGroups(b: string)
    requires IsDigitGroups(b)
    ensures ParsePyInt(b) == Some(DigitsValue(b) as int)
    ensures ParsePyInt("+" + b) == Some(DigitsValue(b) as int)
    ensures ParsePyInt("-" + b) == Some(-(DigitsValue(b) as int))
  {
    UnsignedDigitGroups(b);
    SignedDigitGroups('+', b);
    SignedDigitGroups('-', b);
    assert "+" + b == ['+'] + b && "-" + b == ['-'] + b;
  }

  /** Digit groups without a sign are read as their value. */
  lemma UnsignedDigitGroups(b: string)
    requires IsDigitGroups(b)
    ensures ParsePyInt(b) == Some(DigitsValue(b) as int)
  {
    StripKeeps(b);
    assert b[0] != '-' && b[0] != '+';
  }

  /** One sign character in front of digit groups is read as that sign. */
  lemma SignedDigitGroups(c: char, b: string)
    requires IsDigitGroups(b) && (c == '+' || c == '-')
    ensures ParsePyInt([c] + b) == Some(if c == '-' then -(DigitsValue(b) as int) else DigitsValue(b) as int)
  {
    var t := [c] + b;
    StripKeeps(t);
    assert t[0] == c && t[1..] == b;
  }

  /** An underscore between digits does not change the value. */
  lemma {:induction false} DigitsValueUnderscore(x: string, y: string)
    ensures DigitsValue(x + "_" + y) == DigitsValue(x + y)
    decreases |y|
  {
    if y == [] {
      assert (x + "_" + y)[..|x|] == x;
      assert x + y == x;
    } else {
      var y' := y[..|y| - 1];
      DigitsValueUnderscore(x, y');
      assert (x + "_" + y)[..|x + "_" + y| - 1] == x + "_" + y';
      assert (x + y)[..|x + y| - 1] == x + y';
    }
  }

  /** `int('1_000') == 1000`: digit groups joined by one underscore read as their digits. */
  lemma ParseUnderscoreGroups(x: string, y: string)
    requires IsDigitGroups(x) && IsDigitGroups(y)
    ensures ParsePyInt(x + "_" + y) == Some(DigitsValue(x + y) as int)
  {
    var b := x + "_" + y;
    assert forall i :: 0 <= i < |b| ==> b[i] == (if i < |x| then x[i] else if i == |x| then '_' else y[i - |x| - 1]);
    assert IsDigitGroups(b);
    ParseDigitGroups(b);
    DigitsValueUnderscore(x, y);
  }

  /** The stripped text covers every non-whitespace character of `s`. */
  lemma StripCovers(s: string, i: nat)
    requires i < |s| && !IsSpace(s[i])
    ensures LeadingSpaces(s) <= i < LeadingSpaces(s) + |Strip(s)|
    ensures Strip(s)[i - LeadingSpaces(s)] == s[i]
  {
  }

  /** A character after the first one of the stripped text that is neither a digit nor `_` makes `int()` raise. */
  lemma BodyCharFails(s: string, i: nat)
    requires LeadingSpaces(s) < i < LeadingSpaces(s) + |Strip(s)|
    requires !IsDigit(s[i]) && s[i] != '_'
    ensures ParsePyInt(s) == None
  {
    var t, a := Strip(s), LeadingSpaces(s);
    var k := i - a;
    assert t[k] == s[a..a + |t|][k] == s[i];
    var body := if t[0] == '-' || t[0] == '+' then t[1..] else t;
    if t[0] == '-' || t[0] == '+' {
      assert body[k - 1] == t[k];
    } else {
      assert body[k] == t[k];
    }
  }

  /** A character other than whitespace, a digit, `_` or a sign makes `int()` raise. */
  lemma OtherCharFails(s: string, i: nat)
    requires i < |s| && !IsSpace(s[i]) && !IsDigit(s[i]) && s[i] !in "_+-"
    ensures ParsePyInt(s) == None
  {
    StripCovers(s, i);
    var t := Strip(s);
    var k := i - LeadingSpaces(s);
    var body := if t[0] == '-' || t[0] == '+' then t[1..] else t;
    if t[0] == '-' || t[0] == '+' {
      assert k > 0 && body[k - 1] == s[i];
    } else {
      assert body[k] == s[i];
    }
  }

  /** A sign after the first non-whitespace character makes `int()` raise: `int('1-2')`, `int('--1')`. */
  lemma LateSignFails(s: string, j: nat, i: nat)
    requires j < i < |s| && !IsSpace(s[j]) && s[i] in "+-"
    ensures ParsePyInt(s) == None
  {
    StripCovers(s, i);
    StripCovers(s, j);
    BodyCharFails(s, i);
  }


  /** Whitespace inside the number makes `int()` raise: `int('1 2')`. */
  lemma InnerSpaceFails(s: string, j: nat, i: nat, l: nat)
    requires j < i < l < |s| && !IsSpace(s[j]) && IsSpace(s[i]) && !IsSpace(s[l])
    ensures ParsePyInt(s) == None
  {
    StripCovers(s, j);
    StripCovers(s, l);
    BodyCharFails(s, i);
  }

  /** `[int(x.strip()) - 1 for x in pieces]`, or None as soon as one piece is not an integer. */
  function ParseIndices(pieces: seq<string>): (r: Option<seq<int>>)
    ensures r.Some? ==> |r.value| == |pieces|
    ensures r.Some? <==> forall i :: 0 <= i < |pieces| ==> ParsePyInt(pieces[i]).Some?
    ensures r.Some? ==> forall i :: 0 <= i < |pieces| ==> r.value[i] == ParsePyInt(pieces[i]).value - 1
  {
    if pieces == [] then Some([])
    else
      var head := ParsePyInt(pieces[0]);
      var tail := ParseIndices(pieces[1..]);
      if head.None? || tail.None? then None else Some([head.value - 1] + tail.value)
  }

  /** `[pool[i] for i in indices if 0 <= i < len(pool)]`. */
  function PickIndices(pool: seq<Column>, indices: seq<int>): (r: seq<Column>)
    ensures |r| <= |indices|
    ensures forall c :: c in r ==> c in pool
    ensures (forall i :: 0 <= i < |indices| ==> 0 <= indices[i] < |pool|) ==>
              |r| == |indices| && forall i :: 0 <= i < |indices| ==> r[i] == pool[indices[i]]
  {
    if indices == [] then []
    else
      var i := indices[0];
      (if 0 <= i < |pool| then [pool[i]] else []) + PickIndices(pool, indices[1..])
  }

  /** Each typed position is handled on its own: picking from a concatenation concatenates the picks. */
  lemma {:induction false} PickIndicesAppend(pool: seq<Column>, a: seq<int>, b: seq<int>)
    ensures PickIndices(pool, a + b) == PickIndices(pool, a) + PickIndices(pool, b)
  {
    if a != [] {
      assert (a + b)[0] == a[0] && (a + b)[1..] == a[1..] + b;
      PickIndicesAppend(pool, a[1..], b);
    } else {
      assert a + b == b;
    }
  }

  /** One position picks its column when it is in range and nothing otherwise. */
  lemma PickIndicesSingle(pool: seq<Column>, i: int)
    ensures PickIndices(pool, [i]) == if 0 <= i < |pool| then [pool[i]] else []
  {
    assert [i][1..] == [];
  }

  /** Positions in and out of range mixed: `"1,99"` on a pool shorter than 99 picks only the first column. */
  lemma PickIndicesMixed(pool: seq<Column>, i: int, j: int)
    requires 0 <= i < |pool| && !(0 <= j < |pool|)
    ensures PickIndices(pool, [i, j]) == [pool[i]]
  {
    var first, second := [i], [j];
    PickIndicesSingle(pool, i);
    PickIndicesSingle(pool, j);
    PickIndicesAppend(pool, first, second);
    assert first + second == [i, j];
  }



  /**
   * The columns chosen by index text: the listed 1-based positions in the
   * order typed, repeats kept and out-of-range positions dropped; when a
   * piece is not an integer, only the first column.
   */
  function SelectByIndices(pool: seq<Column>, text: string): (r: seq<Column>)
    requires pool != []
    ensures forall c :: c in r ==> c in pool
    ensures ParseIndices(Split(text, ',')).None? ==> r == [pool[0]]
    ensures ParseIndices(Split(text, ',')).Some? ==> r == PickIndices(pool, ParseIndices(Split(text, ',')).value)
  {
    match ParseIndices(Split(text, ','))
    case None => [pool[0]]
    case Some(indices) => PickIndices(pool, indices)
  }

  /** Empty index text (the text prompt's default) fails to parse and picks the first column. */
  lemma EmptyTextPicksFirst(pool: seq<Column>)
    requires pool != []
    ensures SelectByIndices(pool, "") == [pool[0]]
  {
    assert Split("", ',') == [""];
  }

  /** One typed position `n` picks the n-th column, if there is one. */
  lemma SingleIndexPicks(pool: seq<Column>, n: nat)
    requires pool != []
    ensures 1 <= n <= |pool| ==> SelectByIndices(pool, Decimal(n)) == [pool[n - 1]]
    ensures n > |pool| ==> SelectByIndices(pool, Decimal(n)) == []
  {
    var d := Decimal(n);
    assert Find(d, ',') == |d|;
    assert Split(d, ',') == [d];
    DecimalParses(n);
  }

  /** `[col for col in pool if col not in selected]`, comparing whole tuples. */
  function Removed(pool: seq<Column>, selected: seq<Column>): seq<Column> {
    if pool == [] then []
    else Removed(pool[..|pool| - 1], selected) + (if pool[|pool| - 1] in selected then [] else [pool[|pool| - 1]])
  }

  lemma {:induction false} RemovedNone(pool: seq<Column>)
    ensures Removed(pool, []) == pool
  {
    if pool != [] {
      RemovedNone(pool[..|pool| - 1]);
    }
  }

  /** A column stays in the pool iff no selected tuple equals it. */
  lemma {:induction false} RemovedMembers(pool: seq<Column>, selected: seq<Column>)
    ensures forall c :: c in Removed(pool, selected) <==> c in pool && c !in selected
  {
    if pool != [] {
      RemovedMembers(pool[..|pool| - 1], selected);
      assert pool == pool[..|pool| - 1] + [pool[|pool| - 1]];
    }
  }

  /** Removing one selection after another removes their concatenation. */
  lemma {:induction false} RemovedTwice(pool: seq<Column>, a: seq<Column>, b: seq<Column>)
    ensures Removed(Removed(pool, a), b) == Removed(pool, a + b)
  {
    if pool != [] {
      var p := pool[..|pool| - 1];
      var c := pool[|pool| - 1];
      RemovedTwice(p, a, b);
      assert Removed(pool, a + b) == Removed(p, a + b) + (if c in a + b then [] else [c]);
      if c !in a {
        var r := Removed(p, a);
        assert (r + [c])[..|r + [c]| - 1] == r;
        assert Removed(r + [c], b) == Removed(r, b) + (if c in b then [] else [c]);
        assert (c in a + b) == (c in b);
      } else {
        assert c in a + b;
        assert Removed(pool, a) == Removed(p, a);
      }
    }
  }

  /** `IsSubsequence(a, b)`: the elements of `a` appear in `b` in the same order. */
  predicate IsSubsequence(a: seq<Column>, b: seq<Column>)
    decreases |b|
  {
    if a == [] then true
    else if b == [] then false
    else (a[|a| - 1] == b[|b| - 1] && IsSubsequence(a[..|a| - 1], b[..|b| - 1])) || IsSubsequence(a, b[..|b| - 1])
  }

  /** The pool keeps its order. */
  lemma {:induction false} RemovedIsSubsequence(pool: seq<Column>, selected: seq<Column>)
    ensures IsSubsequence(Removed(pool, selected), pool)
  {
    if pool != [] {
      var p := pool[..|pool| - 1];
      RemovedIsSubsequence(p, selected);
      var r := Removed(p, selected);
      if pool[|pool| - 1] !in selected {
        assert (r + [pool[|pool| - 1]])[..|r|] == r;
      } else {
        assert Removed(pool, selected) == r;
        SubsequenceDropLast(r, pool);
      }
    }
  }

  lemma {:induction false} SubsequenceDropLast(a: seq<Column>, b: seq<Column>)
    requires b != [] && IsSubsequence(a, b[..|b| - 1])
    ensures IsSubsequence(a, b)
  {
  }

  /** A renamed column is not equal to its pool tuple, so it stays in the pool. */
  lemma RenamedColumnStays(pool: seq<Column>, i: nat, newName: string)
    requires i < |pool| && newName != pool[i].name
    ensures pool[i] in Removed(pool, [pool[i].(name := newName)])
  {
    RemovedMembers(pool, [pool[i].(name := newName)]);
  }
}
