/**
 * The JavaScript string operations the pages use: `trim`, `toLowerCase`,
 * `includes`, `join`, `split` and `length` (which counts UTF-16 code units).
 */
module Text {

  /** The characters `String.prototype.trim` removes: white space and line terminators. */
  predicate IsWhitespace(c: char) {
    var n := c as int;
    n == 0x09 || n == 0x0A || n == 0x0B || n == 0x0C || n == 0x0D || n == 0x20 ||
    n == 0xA0 || n == 0x1680 || (0x2000 <= n <= 0x200A) || n == 0x2028 || n == 0x2029 ||
    n == 0x202F || n == 0x205F || n == 0x3000 || n == 0xFEFF
  }

  function TrimStart(s: string): (r: string)
    ensures |r| <= |s| && r == s[|s| - |r|..]
    ensures r == [] || !IsWhitespace(r[0])
    ensures forall i :: 0 <= i < |s| - |r| ==> IsWhitespace(s[i])
  {
    if s != [] && IsWhitespace(s[0]) then TrimStart(s[1..]) else s
  }

  function TrimEnd(s: string): (r: string)
    ensures |r| <= |s| && r == s[..|r|]
    ensures r == [] || !IsWhitespace(r[|r| - 1])
    ensures forall i :: |r| <= i < |s| ==> IsWhitespace(s[i])
  {
    if s != [] && IsWhitespace(s[|s| - 1]) then TrimEnd(s[..|s| - 1]) else s
  }

  /**
   * `r` is the slice `s[i..j]`, and everything before `i` and from `j` on is
   * white space.
   */
  predicate SliceBetweenWhitespace(s: string, r: string, i: int, j: int) {
    0 <= i <= j <= |s| && r == s[i..j] &&
    (forall k :: 0 <= k < i ==> IsWhitespace(s[k])) &&
    (forall k :: j <= k < |s| ==> IsWhitespace(s[k]))
  }

  /** `r` neither starts nor ends with white space. */
  predicate NoWhitespaceAtEnds(r: string) {
    r == [] || (!IsWhitespace(r[0]) && !IsWhitespace(r[|r| - 1]))
  }

  /**
   * `s.trim()`: the slice of `s` left after dropping white space at both ends;
   * it neither starts nor ends with white space.
   */
  function Trim(s: string): (r: string)
    ensures exists i, j :: SliceBetweenWhitespace(s, r, i, j)
    ensures NoWhitespaceAtEnds(r)
  {
    TrimBounds(s);
    TrimEnd(TrimStart(s))
  }

  /** The trimmed text is a slice of `s` with only white space around it, and none at its ends. */
  lemma TrimBounds(s: string)
    ensures exists i, j :: SliceBetweenWhitespace(s, TrimEnd(TrimStart(s)), i, j)
    ensures NoWhitespaceAtEnds(TrimEnd(TrimStart(s)))
  {
    var t := TrimStart(s);
    TrimEndOfSuffix(s, t, |s| - |t|);
  }

  /** Trimming the end of a suffix `t == s[i..]` after white space gives the slice `s[i..j]`. */
  lemma TrimEndOfSuffix(s: string, t: string, i: nat)
    requires i <= |s| && t == s[i..]
    requires forall k :: 0 <= k < i ==> IsWhitespace(s[k])
    requires t == [] || !IsWhitespace(t[0])
    ensures SliceBetweenWhitespace(s, TrimEnd(t), i, i + |TrimEnd(t)|)
    ensures TrimEnd(t) == [] || !IsWhitespace(TrimEnd(t)[0])
  {
    var r := TrimEnd(t);
    assert r == t[..|r|];
    assert r != [] ==> r[0] == t[0];
    assert r == s[i..i + |r|];
    forall k | i + |r| <= k < |s|
      ensures IsWhitespace(s[k])
    {
      assert s[k] == t[k - i];
    }
  }

  /**
   * `!s.trim()`: dropping the leading white space alone already leaves
   * nothing; `BlankIffTrimEmpty` shows this is the trimmed string being empty.
   */
  predicate IsBlank(s: string) {
    TrimStart(s) == []
  }

  /** Blank exactly when `trim` gives the empty, falsy, string. */
  lemma BlankIffTrimEmpty(s: string)
    ensures IsBlank(s) <==> Trim(s) == []
  {
    var t := TrimStart(s);
    if t != [] {
      assert TrimEnd(t) != [] by {
        assert !IsWhitespace(t[0]);
      }
    }
  }

  /** A string is blank exactly when every character in it is white space. */
  lemma BlankIffAllWhitespace(s: string)
    ensures IsBlank(s) <==> forall i :: 0 <= i < |s| ==> IsWhitespace(s[i])
  {
    var t := TrimStart(s);
    if t != [] {
      assert t[0] == s[|s| - |t|];
      assert TrimEnd(t) != [] by {
        assert !IsWhitespace(t[0]);
      }
    }
  }

  /** The Basic Latin and Latin-1 upper-case letters: A to Z, and U+00C0 to U+00DE except U+00D7. */
  predicate IsUpper(c: char) {
    var n := c as int;
    'A' as int <= n <= 'Z' as int || (0xC0 <= n <= 0xDE && n != 0xD7)
  }

  /** `toLowerCase` on one character: each of those letters moves 0x20 code points up. */
  function LowerChar(c: char): char {
    if IsUpper(c) then (c as int + 0x20) as char else c
  }

  /**
   * `s.toLowerCase()`: same length, each upper-case letter replaced by its
   * lower-case letter 0x20 code points up, no upper-case letter left,
   * everything else untouched.
   */
  function Lower(s: string): (r: string)
    ensures |r| == |s|
    ensures forall i :: 0 <= i < |s| && IsUpper(s[i]) ==> r[i] as int == s[i] as int + 0x20
    ensures forall i :: 0 <= i < |s| ==> !IsUpper(r[i])
    ensures forall i :: 0 <= i < |s| && !IsUpper(s[i]) ==> r[i] == s[i]
  {
    seq(|s|, i requires 0 <= i < |s| => LowerChar(s[i]))
  }

  lemma LowerIdempotent(s: string)
    ensures Lower(Lower(s)) == Lower(s)
  {
  }

  /** `t` occurs in `s` starting at position `i`. */
  predicate OccursAt(s: string, t: string, i: int) {
    0 <= i && i + |t| <= |s| && s[i..i + |t|] == t
  }

  /** `s` begins with `t`. */
  predicate StartsWith(s: string, t: string) {
    |t| <= |s| && s[..|t|] == t
  }

  /** `s.includes(t)`, scanning the start positions from left to right; `t` is never longer than `s`. */
  predicate Contains(s: string, t: string)
    ensures Contains(s, t) ==> |t| <= |s|
    decreases |s|
  {
    StartsWith(s, t) || (s != [] && Contains(s[1..], t))
  }

  /** `Contains` holds exactly when `t` occurs in `s` at some position; the empty string occurs everywhere. */
  lemma {:induction false} ContainsIffOccurs(s: string, t: string)
    ensures Contains(s, t) <==> exists i :: OccursAt(s, t, i)
    ensures t == [] ==> Contains(s, t)
    decreases |s|
  {
    if StartsWith(s, t) {
      assert OccursAt(s, t, 0);
    }
    if s != [] {
      ContainsIffOccurs(s[1..], t);
      if Contains(s[1..], t) {
        var i :| OccursAt(s[1..], t, i);
        assert s[i + 1..i + 1 + |t|] == s[1..][i..i + |t|];
        assert OccursAt(s, t, i + 1);
      }
      if exists i :: OccursAt(s, t, i) {
        var i :| OccursAt(s, t, i);
        if i > 0 {
          assert s[1..][i - 1..i - 1 + |t|] == s[i..i + |t|];
          assert OccursAt(s[1..], t, i - 1);
        }
      }
    }
  }

  /**
   * The search rule of the list pages: `s.toLowerCase().includes(term.toLowerCase())`.
   */
  predicate MatchesTerm(s: string, term: string)
    ensures MatchesTerm(s, term) ==> |term| <= |s|
  {
    Contains(Lower(s), Lower(term))
  }

  lemma EmptyTermMatches(s: string)
    ensures MatchesTerm(s, "")
  {
    ContainsIffOccurs(Lower(s), "");
  }

  /** `xs.join(sep)` for a one-character separator. */
  function Join(xs: seq<string>, sep: char): (r: string)
    ensures xs == [] ==> r == ""
  {
    if xs == [] then ""
    else if |xs| == 1 then xs[0]
    else xs[0] + [sep] + Join(xs[1..], sep)
  }

  /**
   * `s.split(sep)` for a one-character separator: never empty, `""` gives
   * `[""]`, and no piece holds the separator.
   */
  function Split(s: string, sep: char): (r: seq<string>)
    ensures |r| >= 1
    ensures forall k :: 0 <= k < |r| ==> sep !in r[k]
  {
    if s == [] then [""]
    else
      var rest := Split(s[1..], sep);
      if s[0] == sep then [""] + rest else [[s[0]] + rest[0]] + rest[1..]
  }

  /** A join begins with its first piece, and a single piece joins to itself. */
  lemma JoinStartsWith(xs: seq<string>, sep: char)
    requires xs != []
    ensures StartsWith(Join(xs, sep), xs[0])
    ensures |xs| == 1 ==> Join(xs, sep) == xs[0]
  {
    if |xs| > 1 {
      assert Join(xs, sep)[..|xs[0]|] == xs[0];
    }
  }

  /** A piece without the separator followed by the separator splits off as one field. */
  lemma {:induction false} SplitPiece(a: string, b: string, sep: char)
    requires sep !in a
    ensures Split(a + [sep] + b, sep) == [a] + Split(b, sep)
    ensures Split(a, sep) == [a]
  {
    if a != [] {
      SplitPiece(a[1..], b, sep);
      assert (a + [sep] + b)[1..] == a[1..] + [sep] + b;
      assert a == [a[0]] + a[1..];
    } else {
      assert a + [sep] + b == [sep] + b;
    }
  }

  /** Splitting a join gives the pieces back, provided no piece contains the separator. */
  lemma {:induction false} SplitJoin(xs: seq<string>, sep: char)
    requires xs != []
    requires forall k :: 0 <= k < |xs| ==> sep !in xs[k]
    ensures Split(Join(xs, sep), sep) == xs
  {
    if |xs| == 1 {
      SplitPiece(xs[0], "", sep);
    } else {
      SplitJoin(xs[1..], sep);
      SplitPiece(xs[0], Join(xs[1..], sep), sep);
    }
  }

  /** A character that is not the separator appears in a join only if it appears in a piece. */
  lemma {:induction false} JoinAvoids(xs: seq<string>, sep: char, c: char)
    requires c != sep
    requires forall k :: 0 <= k < |xs| ==> c !in xs[k]
    ensures c !in Join(xs, sep)
  {
    if |xs| > 1 {
      JoinAvoids(xs[1..], sep, c);
    }
  }

  /** `s.length`: characters outside the Basic Multilingual Plane count as two UTF-16 code units. */
  function Utf16Length(s: string): (n: nat)
    ensures |s| <= n <= 2 * |s|
  {
    if s == [] then 0
    else (if s[0] as int >= 0x10000 then 2 else 1) + Utf16Length(s[1..])
  }
}
