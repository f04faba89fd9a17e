/**
 * String helpers shared by the models of the dashboard, the editor and the
 * download script: prefix and substring tests, stripping, character
 * replacement and filtering, joining, and the default string order of
 * JavaScript's `Array.prototype.sort`.
 */
module Text {

  // ---------------------------------------------------------------------------
  // Prefixes and substrings
  // ---------------------------------------------------------------------------

  /** `s.startsWith(p)` in JavaScript, `s.startswith(p)` in Python. */
  predicate StartsWith(s: string, p: string) {
    |p| <= |s| && s[..|p|] == p
  }

  /** `s.includes(p)` in JavaScript: `p` occurs at some position of `s`. */
  predicate Contains(s: string, p: string)
    decreases |s|
  {
    StartsWith(s, p) || (|s| > 0 && Contains(s[1..], p))
  }

  /** `Contains` means an occurrence at some index. */
  lemma {:induction false} ContainsAt(s: string, p: string, i: nat)
    requires i + |p| <= |s| && s[i..i + |p|] == p
    ensures Contains(s, p)
    decreases i
  {
    if i > 0 {
      assert s[1..][i - 1..i - 1 + |p|] == s[i..i + |p|];
      ContainsAt(s[1..], p, i - 1);
    }
  }

  /** And every occurrence found by `Contains` is at some index. */
  lemma {:induction false} ContainsHasIndex(s: string, p: string) returns (i: nat)
    requires Contains(s, p)
    ensures i + |p| <= |s| && s[i..i + |p|] == p
    decreases |s|
  {
    if StartsWith(s, p) {
      i := 0;
    } else {
      var j := ContainsHasIndex(s[1..], p);
      assert s[1..][j..j + |p|] == s[j + 1..j + 1 + |p|];
      i := j + 1;
    }
  }

  /** A character missing from a text is missing from its tail. */
  lemma NotInTail(s: string, c: char)
    requires |s| > 0 && c !in s
    ensures c !in s[1..]
  {
    assert s == [s[0]] + s[1..];
  }

  /** A pattern with a character the text lacks does not occur in it. */
  lemma NotContainsMissingChar(s: string, p: string, k: nat)
    requires k < |p| && p[k] !in s
    ensures !Contains(s, p)
  {
    if Contains(s, p) {
      var i := ContainsHasIndex(s, p);
    }
  }

  /**
   * A pattern does not occur when no position holds its first character
   * together with its character `b` places further on.
   */
  lemma NotContainsAtPositions(s: string, p: string, b: nat)
    requires 0 < b < |p|
    requires forall i :: 0 <= i <= |s| - |p| ==> s[i] != p[0] || s[i + b] != p[b]
    ensures !Contains(s, p)
  {
    if Contains(s, p) {
      var i := ContainsHasIndex(s, p);
    }
  }

  /** `a` is `b` with some elements left out, the rest in their original order. */
  predicate IsSubsequence<T(==)>(a: seq<T>, b: seq<T>)
    decreases |b|
  {
    |a| == 0 ||
    (|b| > 0 && ((a[0] == b[0] && IsSubsequence(a[1..], b[1..])) || IsSubsequence(a, b[1..])))
  }

  /** Every sequence is a subsequence of itself. */
  lemma {:induction false} IsSubsequenceRefl<T>(a: seq<T>)
    ensures IsSubsequence(a, a)
    decreases |a|
  {
    if |a| > 0 {
      IsSubsequenceRefl(a[1..]);
    }
  }

  // ---------------------------------------------------------------------------
  // Stripping characters from both ends
  // ---------------------------------------------------------------------------

  /** The first index at or after `i` whose character is not in `ws`, or `|s|`. */
  function SkipForward(s: string, ws: char -> bool, i: nat): (k: nat)
    requires i <= |s|
    ensures i <= k <= |s|
    ensures forall j :: i <= j < k ==> ws(s[j])
    ensures k < |s| ==> !ws(s[k])
    decreases |s| - i
  {
    if i < |s| && ws(s[i]) then SkipForward(s, ws, i + 1) else i
  }

  /** `SkipForward` stops at the first position from `i` whose character is not in `ws`. */
  lemma SkipForwardStops(s: string, ws: char -> bool, i: nat, k: nat)
    requires i <= k <= |s|
    requires forall j :: i <= j < k ==> ws(s[j])
    requires k < |s| ==> !ws(s[k])
    ensures SkipForward(s, ws, i) == k
  {
  }

  /** The least `k >= lo` such that every character in `s[k..hi]` is in `ws`. */
  function SkipBackward(s: string, ws: char -> bool, lo: nat, hi: nat): (k: nat)
    requires lo <= hi <= |s|
    ensures lo <= k <= hi
    ensures forall j :: k <= j < hi ==> ws(s[j])
    ensures k > lo ==> !ws(s[k - 1])
    decreases hi - lo
  {
    if hi > lo && ws(s[hi - 1]) then SkipBackward(s, ws, lo, hi - 1) else hi
  }

  /** How many characters `Strip` removes at the front. */
  function StripOffset(s: string, ws: char -> bool): nat {
    SkipForward(s, ws, 0)
  }

  /**
   * `trim()` / `strip()` for the whitespace set `ws`: the result is the slice
   * of `s` left after removing every leading and every trailing character of
   * `ws`, so it neither begins nor ends with one.
   */
  function Strip(s: string, ws: char -> bool): (r: string)
    ensures StripOffset(s, ws) + |r| <= |s|
    ensures r == s[StripOffset(s, ws)..StripOffset(s, ws) + |r|]
    ensures forall i :: 0 <= i < StripOffset(s, ws) ==> ws(s[i])
    ensures forall i :: StripOffset(s, ws) + |r| <= i < |s| ==> ws(s[i])
    ensures |r| > 0 ==> !ws(r[0]) && !ws(r[|r| - 1])
  {
    var o := SkipForward(s, ws, 0);
    var e := SkipBackward(s, ws, o, |s|);
    assert |s[o..e]| == e - o;
    s[o..e]
  }

  /** A string that neither begins nor ends with a character of `ws` is left as it is. */
  lemma StripNoEdges(s: string, ws: char -> bool)
    requires |s| > 0 ==> !ws(s[0]) && !ws(s[|s| - 1])
    ensures Strip(s, ws) == s
  {
    assert s[0..|s|] == s;
  }

  /** Stripping twice is stripping once. */
  lemma StripIdempotent(s: string, ws: char -> bool)
    ensures Strip(Strip(s, ws), ws) == Strip(s, ws)
  {
    StripNoEdges(Strip(s, ws), ws);
  }

  // ---------------------------------------------------------------------------
  // Replacing and filtering characters
  // ---------------------------------------------------------------------------

  /** Replaces every occurrence of the character `c` by `rep` (`s.replace(/c/g, rep)`). */
  function ReplaceChar(s: string, c: char, rep: string): (r: string)
    ensures c !in s ==> r == s
    ensures |rep| >= 1 ==> |r| >= |s|
    decreases |s|
  {
    if |s| == 0 then []
    else (if s[0] == c then rep else [s[0]]) + ReplaceChar(s[1..], c, rep)
  }

  /** Replacement works piece by piece. */
  lemma {:induction false} ReplaceCharConcat(a: string, b: string, c: char, rep: string)
    ensures ReplaceChar(a + b, c, rep) == ReplaceChar(a, c, rep) + ReplaceChar(b, c, rep)
    decreases |a|
  {
    if |a| > 0 {
      var h := if a[0] == c then rep else [a[0]];
      assert (a + b)[0] == a[0] && (a + b)[1..] == a[1..] + b;
      ReplaceCharConcat(a[1..], b, c, rep);
      assert ReplaceChar(a + b, c, rep) == h + (ReplaceChar(a[1..], c, rep) + ReplaceChar(b, c, rep));
      assert ReplaceChar(a, c, rep) == h + ReplaceChar(a[1..], c, rep);
    } else {
      assert a + b == b;
    }
  }

  /** Replacing a character by a single character keeps every position. */
  lemma {:induction false} ReplaceCharPointwise(s: string, c: char, d: char)
    ensures |ReplaceChar(s, c, [d])| == |s|
    ensures forall i :: 0 <= i < |s| ==> ReplaceChar(s, c, [d])[i] == if s[i] == c then d else s[i]
    decreases |s|
  {
    if |s| > 0 {
      ReplaceCharPointwise(s[1..], c, d);
    }
  }

  /** The characters of `s` that satisfy `keep`, in order. */
  function KeepChars(s: string, keep: char -> bool): (r: string)
    ensures |r| <= |s|
    ensures forall i :: 0 <= i < |r| ==> keep(r[i])
    ensures forall i :: 0 <= i < |r| ==> r[i] in s
    ensures (forall i :: 0 <= i < |s| ==> keep(s[i])) ==> r == s
    decreases |s|
  {
    if |s| == 0 then []
    else
      var rest := KeepChars(s[1..], keep);
      assert forall i :: 0 <= i < |rest| ==> rest[i] in s by {
        forall i | 0 <= i < |rest| ensures rest[i] in s {
          assert rest[i] in s[1..];
        }
      }
      if keep(s[0]) then [s[0]] + rest else rest
  }

  // ---------------------------------------------------------------------------
  // Joining and case
  // ---------------------------------------------------------------------------

  /** `xs.join(sep)` in JavaScript. */
  function Join(xs: seq<string>, sep: string): (r: string)
    ensures |xs| == 1 ==> r == xs[0]
    decreases |xs|
  {
    if |xs| == 0 then ""
    else if |xs| == 1 then xs[0]
    else xs[0] + sep + Join(xs[1..], sep)
  }

  /** Appending one more part adds the separator and that part. */
  lemma {:induction false} JoinSnoc(xs: seq<string>, x: string, sep: string)
    requires |xs| > 0
    ensures Join(xs + [x], sep) == Join(xs, sep) + sep + x
    decreases |xs|
  {
    if |xs| > 1 {
      assert (xs + [x])[1..] == xs[1..] + [x];
      JoinSnoc(xs[1..], x, sep);
    } else {
      assert (xs + [x])[1..] == [x];
    }
  }

  /** The lower-case form of an ASCII capital letter; every other character is kept. */
  function LowerChar(c: char): char {
    if 'A' <= c <= 'Z' then (c as int + 32) as char else c
  }

  /** `toLowerCase()` restricted to ASCII letters. */
  function ToLower(s: string): (r: string)
    ensures |r| == |s|
    ensures forall i :: 0 <= i < |s| ==> r[i] == LowerChar(s[i])
  {
    seq(|s|, i requires 0 <= i < |s| => LowerChar(s[i]))
  }

  /** Lower-casing works character by character, so it distributes over `+`. */
  lemma ToLowerConcat(a: string, b: string)
    ensures ToLower(a + b) == ToLower(a) + ToLower(b)
  {
  }

  /** Lower-casing is idempotent. */
  lemma ToLowerIdempotent(s: string)
    ensures ToLower(ToLower(s)) == ToLower(s)
  {
  }

  // ---------------------------------------------------------------------------
  // Decimal numerals
  // ---------------------------------------------------------------------------

  predicate IsDigit(c: char) {
    '0' <= c <= '9'
  }

  /** The number a string of decimal digits denotes. */
  function DigitsValue(s: string): nat
    requires forall i :: 0 <= i < |s| ==> IsDigit(s[i])
    decreases |s|
  {
    if |s| == 0 then 0
    else
      assert IsDigit(s[|s| - 1]);
      DigitsValue(s[..|s| - 1]) * 10 + (s[|s| - 1] as int - '0' as int)
  }

  /**
   * A natural number as JavaScript writes it in a template string: decimal
   * digits, without leading zeros.
   */
  function Decimal(n: nat): (r: string)
    ensures |r| > 0 && (r[0] == '0' ==> r == "0")
    ensures forall i :: 0 <= i < |r| ==> IsDigit(r[i])
    ensures DigitsValue(r) == n
    decreases n
  {
    var last := [('0' as int + n % 10) as char];
    if n < 10 then last
    else
      var r := Decimal(n / 10) + last;
      assert r[..|r| - 1] == Decimal(n / 10);
      r
  }

  // ---------------------------------------------------------------------------
  // The default order of Array.prototype.sort, and sorted distinct lists
  // ---------------------------------------------------------------------------

  /** Lexicographic order on code points: a proper prefix comes first. */
  predicate LexLess(a: string, b: string)
    decreases |a|
  {
    if |a| == 0 then |b| > 0
    else if |b| == 0 then false
    else if a[0] != b[0] then a[0] < b[0]
    else LexLess(a[1..], b[1..])
  }

  lemma {:induction false} LexLessIrreflexive(a: string)
    ensures !LexLess(a, a)
    decreases |a|
  {
    if |a| > 0 {
      LexLessIrreflexive(a[1..]);
    }
  }

  lemma {:induction false} LexLessTransitive(a: string, b: string, c: string)
    requires LexLess(a, b) && LexLess(b, c)
    ensures LexLess(a, c)
    decreases |a|
  {
    if |a| > 0 && a[0] == b[0] && b[0] == c[0] {
      LexLessTransitive(a[1..], b[1..], c[1..]);
    }
  }

  lemma {:induction false} LexLessTotal(a: string, b: string)
    requires a != b
    ensures LexLess(a, b) || LexLess(b, a)
    decreases |a|
  {
    if |a| > 0 && |b| > 0 && a[0] == b[0] {
      assert a == [a[0]] + a[1..] && b == [b[0]] + b[1..];
      LexLessTotal(a[1..], b[1..]);
    }
  }

  lemma LexLessAsymmetric(a: string, b: string)
    requires LexLess(a, b)
    ensures !LexLess(b, a)
  {
    if LexLess(b, a) {
      LexLessTransitive(a, b, a);
      LexLessIrreflexive(a);
    }
  }

  /** Strictly ascending, hence free of duplicates. */
  ghost predicate StrictlySorted(s: seq<string>) {
    forall i, j :: 0 <= i < j < |s| ==> LexLess(s[i], s[j])
  }

  /** Inserts `x` into a strictly sorted list unless it is already there. */
  function InsertSorted(x: string, s: seq<string>): (r: seq<string>)
    requires StrictlySorted(s)
    ensures StrictlySorted(r)
    ensures forall y :: y in r <==> y == x || y in s
    decreases |s|
  {
    if |s| == 0 then [x]
    else if x == s[0] then s
    else if LexLess(x, s[0]) then
      assert forall j :: 0 <= j < |s| ==> LexLess(x, s[j]) by {
        forall j | 0 <= j < |s| ensures LexLess(x, s[j]) {
          if j > 0 { LexLessTransitive(x, s[0], s[j]); }
        }
      }
      [x] + s
    else
      LexLessTotal(x, s[0]);
      var rest := InsertSorted(x, s[1..]);
      assert forall j :: 0 <= j < |rest| ==> LexLess(s[0], rest[j]) by {
        forall j | 0 <= j < |rest| ensures LexLess(s[0], rest[j]) {
          assert rest[j] == x || rest[j] in s[1..];
        }
      }
      [s[0]] + rest
  }

  /**
   * `Array.from(new Set(s)).sort()`: the distinct elements of `s` in
   * ascending order.
   */
  function SortedDistinct(s: seq<string>): (r: seq<string>)
    ensures StrictlySorted(r)
    ensures forall y :: y in r <==> y in s
    ensures |r| <= |s|
    decreases |s|
  {
    if |s| == 0 then []
    else
      var rest := SortedDistinct(s[1..]);
      var r := InsertSorted(s[0], rest);
      assert |r| <= |rest| + 1 by { InsertSortedLength(s[0], rest); }
      r
  }

  lemma {:induction false} InsertSortedLength(x: string, s: seq<string>)
    requires StrictlySorted(s)
    ensures |InsertSorted(x, s)| <= |s| + 1
    decreases |s|
  {
    if |s| > 0 && x != s[0] && !LexLess(x, s[0]) {
      InsertSortedLength(x, s[1..]);
    }
  }

  /**
   * A strictly sorted list is determined by its elements, so any way of
   * sorting the distinct elements gives the list `SortedDistinct` gives.
   */
  lemma {:induction false} StrictlySortedUnique(a: seq<string>, b: seq<string>)
    requires StrictlySorted(a) && StrictlySorted(b)
    requires forall y :: y in a <==> y in b
    ensures a == b
    decreases |a|
  {
    assert |b| > 0 ==> b[0] in b;
    if |a| > 0 {
      assert a[0] in b;
      var k :| 0 <= k < |b| && b[k] == a[0];
      assert b[0] in b;
      var m :| 0 <= m < |a| && a[m] == b[0];
      if k > 0 {
        assert LexLess(b[0], b[k]);
        if m > 0 {
          assert LexLess(a[0], a[m]);
          LexLessAsymmetric(a[0], b[0]);
        }
        LexLessIrreflexive(b[0]);
      }
      assert b[0] == a[0];
      forall y ensures y in a[1..] <==> y in b[1..] {
        if y in a[1..] {
          var i :| 1 <= i < |a| && a[i] == y;
          assert LexLess(a[0], y);
          LexLessIrreflexive(y);
          assert y in b && y != b[0];
        }
        if y in b[1..] {
          var i :| 1 <= i < |b| && b[i] == y;
          assert LexLess(b[0], y);
          LexLessIrreflexive(y);
          assert y in a && y != a[0];
        }
      }
      StrictlySortedUnique(a[1..], b[1..]);
      assert a == [a[0]] + a[1..] && b == [b[0]] + b[1..];
    }
  }
}
