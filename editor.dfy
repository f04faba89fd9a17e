/**
 * The pure helpers of the editor page: escaping source text before it is
 * embedded in the Python driver program, choosing the flowchart shape of a
 * line, and turning an error message into a hint for students.
 */
module Editor {
  import opened Wrappers
  import opened Text

  // ---------------------------------------------------------------------------
  // escapeForPython
  // ---------------------------------------------------------------------------

  const Backslash := '\\'
  const Quote := '\''
  const TripleQuote := "'''"
  const EscapedTripleQuote := "\\'\\'\\'"

  /** `s` begins with `'''`, checked one character at a time. */
  predicate StartsTriple(s: string) {
    |s| >= 3 && s[0] == Quote && s[1] == Quote && s[2] == Quote
  }

  /** The character test is the prefix test for `'''`. */
  lemma StartsTripleIsPrefix(s: string)
    ensures StartsTriple(s) <==> StartsWith(s, TripleQuote)
  {
    if |s| >= 3 {
      assert s[..3] == [s[0], s[1], s[2]];
    }
  }

  /** `s.replace(/'''/g, "\\'\\'\\'")`: each `'''`, left to right, without overlaps. */
  function ReplaceTripleQuotes(s: string): string
    decreases |s|
  {
    if |s| == 0 then []
    else if StartsTriple(s) then EscapedTripleQuote + ReplaceTripleQuotes(s[3..])
    else [s[0]] + ReplaceTripleQuotes(s[1..])
  }

  /** The three single-character passes: backslash, then backtick, then dollar. */
  function CharPasses(s: string): string {
    ReplaceChar(ReplaceChar(ReplaceChar(s, '\\', "\\\\"), '`', "\\`"), '$', "\\$")
  }

  /** How one character comes out of the three single-character passes. */
  function EscapeChar(c: char): string {
    if c == '\\' then "\\\\"
    else if c == '`' then "\\`"
    else if c == '$' then "\\$"
    else [c]
  }

  /**
   * Reference definition: a single left-to-right pass that escapes one `'''`
   * or one character at a time.
   */
  function EscapeEach(s: string): string
    decreases |s|
  {
    if |s| == 0 then []
    else if StartsTriple(s) then EscapedTripleQuote + EscapeEach(s[3..])
    else EscapeChar(s[0]) + EscapeEach(s[1..])
  }

  /**
   * `escapeForPython` as written: four global replacements in a row. It is
   * the single-pass escape `EscapeEach`.
   */
  function EscapeForPython(code: string): (r: string)
    ensures r == EscapeEach(code)
  {
    EscapeForPythonIsEscapeEach(code);
    ReplaceTripleQuotes(CharPasses(code))
  }

  lemma CharPassesCons(s: string)
    requires |s| > 0
    ensures CharPasses(s) == EscapeChar(s[0]) + CharPasses(s[1..])
  {
    var c := s[0];
    var p1 := if c == '\\' then "\\\\" else [c];
    assert ReplaceChar(s, '\\', "\\\\") == p1 + ReplaceChar(s[1..], '\\', "\\\\");
    ReplaceCharConcat(p1, ReplaceChar(s[1..], '\\', "\\\\"), '`', "\\`");
    var p2 := ReplaceChar(p1, '`', "\\`");
    ReplaceCharConcat(p2, ReplaceChar(ReplaceChar(s[1..], '\\', "\\\\"), '`', "\\`"), '$', "\\$");
    if c == '\\' {
      assert p1 == [Backslash] + [Backslash];
      ReplaceCharConcat([Backslash], [Backslash], '`', "\\`");
      assert p2 == p1;
      ReplaceCharConcat([Backslash], [Backslash], '$', "\\$");
    } else if c == '`' {
      assert p2 == "\\`";
      ReplaceCharConcat([Backslash], ['`'], '$', "\\$");
    }
  }

  /** The three single-character passes, applied one character at a time. */
  function EscapeChars(s: string): string
    decreases |s|
  {
    if |s| == 0 then [] else EscapeChar(s[0]) + EscapeChars(s[1..])
  }

  /** The three whole-string passes in a row are the per-character escape. */
  lemma {:induction false} CharPassesIsEscapeChars(s: string)
    ensures CharPasses(s) == EscapeChars(s)
    decreases |s|
  {
    if |s| == 0 {
      assert CharPasses(s) == [];
    } else {
      CharPassesCons(s);
      CharPassesIsEscapeChars(s[1..]);
    }
  }

  lemma EscapeCharsHeadQuote(s: string)
    requires |EscapeChars(s)| > 0 && EscapeChars(s)[0] == Quote
    ensures |s| > 0 && s[0] == Quote && EscapeChars(s) == [Quote] + EscapeChars(s[1..])
  {
  }

  lemma EscapeCharsTriple(s: string)
    requires StartsTriple(s)
    ensures EscapeChars(s) == TripleQuote + EscapeChars(s[3..])
  {
    var s1 := s[1..];
    var s2 := s1[1..];
    assert s2[1..] == s[3..];
    var p := EscapeChars(s[3..]);
    assert EscapeChars(s2) == [Quote] + p;
    assert EscapeChars(s1) == [Quote] + ([Quote] + p);
    assert [Quote] + ([Quote] + ([Quote] + p)) == TripleQuote + p;
  }

  /** A `'''` seen after the passes was already there before them. */
  lemma EscapeCharsStartsTriple(s: string)
    requires |s| > 0 && s[0] == Quote
    requires StartsTriple([Quote] + EscapeChars(s[1..]))
    ensures StartsTriple(s)
  {
    EscapeCharsHeadQuote(s[1..]);
    assert s[1..][1..] == s[2..];
    EscapeCharsHeadQuote(s[2..]);
  }

  /** A prefix without quotes passes through the `'''` rewrite untouched. */
  lemma {:induction false} ReplaceTripleQuotesNoQuotePrefix(a: string, b: string)
    requires Quote !in a
    ensures ReplaceTripleQuotes(a + b) == a + ReplaceTripleQuotes(b)
    decreases |a|
  {
    if |a| > 0 {
      assert (a + b)[0] == a[0] && (a + b)[1..] == a[1..] + b;
      ReplaceTripleQuotesNoQuotePrefix(a[1..], b);
    } else {
      assert a + b == b;
    }
  }

  lemma EscapeForPythonIsEscapeEach(s: string)
    ensures ReplaceTripleQuotes(CharPasses(s)) == EscapeEach(s)
  {
    CharPassesIsEscapeChars(s);
    EscapeCharsIsEscapeEach(s);
  }

  lemma {:induction false} EscapeCharsIsEscapeEach(s: string)
    ensures ReplaceTripleQuotes(EscapeChars(s)) == EscapeEach(s)
    decreases |s|
  {
    if |s| == 0 {
    } else if StartsTriple(s) {
      EscapeCharsIsEscapeEach(s[3..]);
      EscapeCharsTripleStep(s);
    } else if s[0] != Quote {
      EscapeCharsIsEscapeEach(s[1..]);
      OtherCharStep(s);
      EscapeEachSingle(s);
    } else {
      EscapeCharsIsEscapeEach(s[1..]);
      EscapedQuoteStep(s);
      EscapeEachSingle(s);
      assert EscapeChar(s[0]) == [Quote];
    }
  }

  lemma EscapeCharsTripleStep(s: string)
    requires StartsTriple(s)
    ensures ReplaceTripleQuotes(EscapeChars(s)) == EscapedTripleQuote + ReplaceTripleQuotes(EscapeChars(s[3..]))
  {
    EscapeCharsTriple(s);
    var rest := EscapeChars(s[3..]);
    assert (TripleQuote + rest)[3..] == rest;
  }

  /** Any character but a quote comes out of the passes with no quote in it. */
  lemma OtherCharStep(s: string)
    requires |s| > 0 && s[0] != Quote
    ensures ReplaceTripleQuotes(EscapeChars(s)) == EscapeChar(s[0]) + ReplaceTripleQuotes(EscapeChars(s[1..]))
  {
    EscapeCharsCons(s);
    EscapeCharNoQuote(s[0]);
    ReplaceTripleQuotesNoQuotePrefix(EscapeChar(s[0]), EscapeChars(s[1..]));
  }

  lemma EscapeCharsCons(s: string)
    requires |s| > 0
    ensures EscapeChars(s) == EscapeChar(s[0]) + EscapeChars(s[1..])
  {
  }

  lemma EscapeEachSingle(s: string)
    requires |s| > 0 && !StartsTriple(s)
    ensures EscapeEach(s) == EscapeChar(s[0]) + EscapeEach(s[1..])
  {
  }

  lemma EscapeCharNoQuote(c: char)
    requires c != Quote
    ensures Quote !in EscapeChar(c)
  {
  }

  /** A quote passes through the single-character passes unchanged. */
  lemma EscapeCharsQuote(s: string)
    requires |s| > 0 && s[0] == Quote
    ensures EscapeChars(s) == [Quote] + EscapeChars(s[1..])
  {
  }

  /** A quote that starts no `'''` is kept as it is by the `'''` rewrite. */
  lemma EscapedQuoteStep(s: string)
    requires |s| > 0 && s[0] == Quote && !StartsTriple(s)
    ensures ReplaceTripleQuotes(EscapeChars(s)) == [Quote] + ReplaceTripleQuotes(EscapeChars(s[1..]))
  {
    var t := [Quote] + EscapeChars(s[1..]);
    EscapeCharsQuote(s);
    if StartsTriple(t) {
      EscapeCharsStartsTriple(s);
      assert false;
    }
    assert t[0] == Quote && t[1..] == EscapeChars(s[1..]);
  }

  /** Every backtick and dollar in `r` comes right after a backslash. */
  predicate SpecialsEscaped(r: string) {
    forall i :: 0 <= i < |r| && (r[i] == '`' || r[i] == '$') ==> i > 0 && r[i - 1] == Backslash
  }

  lemma SpecialsEscapedConcat(a: string, b: string)
    requires SpecialsEscaped(a) && SpecialsEscaped(b)
    ensures SpecialsEscaped(a + b)
  {
    forall i | 0 <= i < |a + b| && ((a + b)[i] == '`' || (a + b)[i] == '$')
      ensures i > 0 && (a + b)[i - 1] == Backslash
    {
      if i >= |a| {
        assert (a + b)[i] == b[i - |a|];
      }
    }
  }

  /** In the escaped text no backtick or dollar stands on its own. */
  lemma {:induction false} EscapeGuardsSpecials(s: string)
    ensures SpecialsEscaped(EscapeForPython(s))
    decreases |s|
  {
    EscapeEachGuardsSpecials(s);
  }

  lemma {:induction false} EscapeEachGuardsSpecials(s: string)
    ensures SpecialsEscaped(EscapeEach(s))
    decreases |s|
  {
    if |s| > 0 {
      if StartsTriple(s) {
        EscapeEachGuardsSpecials(s[3..]);
        SpecialsEscapedConcat(EscapedTripleQuote, EscapeEach(s[3..]));
      } else {
        EscapeEachGuardsSpecials(s[1..]);
        SpecialsEscapedConcat(EscapeChar(s[0]), EscapeEach(s[1..]));
      }
    }
  }

  /** Escaping never shortens the text. */
  lemma {:induction false} EscapeNeverShorter(s: string)
    ensures |EscapeForPython(s)| >= |s|
    decreases |s|
  {
    EscapeEachNeverShorter(s);
  }

  lemma {:induction false} EscapeEachNeverShorter(s: string)
    ensures |EscapeEach(s)| >= |s|
    decreases |s|
  {
    if |s| > 0 {
      if StartsTriple(s) {
        EscapeEachNeverShorter(s[3..]);
      } else {
        EscapeEachNeverShorter(s[1..]);
      }
    }
  }

  /** Text with no backslash, backtick, dollar or `'''` is returned unchanged. */
  lemma {:induction false} EscapeIdentityOnPlainText(s: string)
    requires '\\' !in s && '`' !in s && '$' !in s && !Contains(s, TripleQuote)
    ensures EscapeForPython(s) == s
    decreases |s|
  {
    EscapeEachIdentityOnPlainText(s);
  }

  lemma {:induction false} EscapeEachIdentityOnPlainText(s: string)
    requires '\\' !in s && '`' !in s && '$' !in s && !Contains(s, TripleQuote)
    ensures EscapeEach(s) == s
    decreases |s|
  {
    if |s| > 0 {
      assert s[0] in s;
      assert !StartsWith(s, TripleQuote) && !Contains(s[1..], TripleQuote);
      StartsTripleIsPrefix(s);
      NotInTail(s, '\\');
      NotInTail(s, '`');
      NotInTail(s, '$');
      EscapeEachIdentityOnPlainText(s[1..]);
      assert EscapeEach(s) == [s[0]] + EscapeEach(s[1..]);
      assert s == [s[0]] + s[1..];
    }
  }

  /** Reads every backslash pair `\x` back as `x`. */
  function Unescape(t: string): string
    decreases |t|
  {
    if |t| == 0 then []
    else if t[0] == Backslash && |t| >= 2 then [t[1]] + Unescape(t[2..])
    else [t[0]] + Unescape(t[1..])
  }

  /** `Unescape` is a left inverse of the escape. */
  lemma {:induction false} UnescapeEscape(s: string)
    ensures Unescape(EscapeForPython(s)) == s
    decreases |s|
  {
    UnescapeEscapeEach(s);
  }

  lemma UnescapePair(c: char, rest: string)
    ensures Unescape([Backslash, c] + rest) == [c] + Unescape(rest)
  {
    assert ([Backslash, c] + rest)[2..] == rest;
  }

  lemma {:induction false} UnescapeEscapeEach(s: string)
    ensures Unescape(EscapeEach(s)) == s
    decreases |s|
  {
    if |s| > 0 {
      if StartsTriple(s) {
        UnescapeEscapeEach(s[3..]);
        UnescapeTriple(EscapeEach(s[3..]));
        assert s == TripleQuote + s[3..];
      } else {
        UnescapeEscapeEach(s[1..]);
        EscapeEachSingle(s);
        UnescapeCharStep(s[0], EscapeEach(s[1..]));
        assert s == [s[0]] + s[1..];
      }
    }
  }

  /** Reading back an escaped `'''` gives `'''`. */
  lemma UnescapeTriple(rest: string)
    ensures Unescape(EscapedTripleQuote + rest) == TripleQuote + Unescape(rest)
  {
    UnescapePair(Quote, rest);
    UnescapePair(Quote, [Backslash, Quote] + rest);
    UnescapePair(Quote, [Backslash, Quote] + ([Backslash, Quote] + rest));
    assert EscapedTripleQuote + rest == [Backslash, Quote] + ([Backslash, Quote] + ([Backslash, Quote] + rest));
  }

  /** Reading back one escaped character gives the character. */
  lemma UnescapeCharStep(c: char, rest: string)
    ensures Unescape(EscapeChar(c) + rest) == [c] + Unescape(rest)
  {
    if c == '\\' || c == '`' || c == '$' {
      assert EscapeChar(c) == [Backslash, c];
      UnescapePair(c, rest);
    } else {
      assert ([c] + rest)[1..] == rest;
    }
  }

  // ---------------------------------------------------------------------------
  // The escape seen from the Python side
  // ---------------------------------------------------------------------------

  /** The characters Python reads as an escape sequence after a backslash. */
  predicate IsPythonEscapeChar(c: char) {
    c in "\n\\'\"abfnrtv01234567xNuU"
  }

  /**
   * The value Python gives the body `t` of a triple-quoted string literal,
   * for the escapes `\\`, `\'` and `\"`: each becomes its second character,
   * and a backslash before a character that starts no escape (such as `` ` ``
   * or `$`) stays. `None` marks input outside what this models: any other
   * escape, or a backslash at the very end (which would escape the closing
   * quote).
   */
  function PythonLiteralValue(t: string): Option<string>
    decreases |t|
  {
    if |t| == 0 then Some([])
    else if t[0] == Backslash then
      if |t| == 1 then None
      else if t[1] == Backslash || t[1] == Quote || t[1] == '"' then
        match PythonLiteralValue(t[2..])
        case Some(v) => Some([t[1]] + v)
        case None => None
      else if IsPythonEscapeChar(t[1]) then None
      else
        match PythonLiteralValue(t[1..])
        case Some(v) => Some([t[0]] + v)
        case None => None
    else
      match PythonLiteralValue(t[1..])
      case Some(v) => Some([t[0]] + v)
      case None => None
  }

  /**
   * `t` can stand between `"""` and `"""` in Python source: a backslash
   * escapes the next character, and an unescaped `"` neither starts a run of
   * three nor is the last character (it would then run into the closing
   * quotes). Either would end the literal early.
   */
  predicate SafeInTripleDoubleQuotes(t: string)
    decreases |t|
  {
    if |t| == 0 then true
    else if t[0] == Backslash then |t| >= 2 && SafeInTripleDoubleQuotes(t[2..])
    else if t[0] == '"' then
      |t| >= 2 && !(t[1] == '"' && |t| >= 3 && t[2] == '"') && SafeInTripleDoubleQuotes(t[1..])
    else SafeInTripleDoubleQuotes(t[1..])
  }

  /**
   * As written, a dollar comes out of Python's literal as `\$`: the driver
   * program hands the student's code to Python with an extra backslash.
   */
  lemma EscapedDollarKeepsBackslash()
    ensures EscapeForPython("$") == "\\$"
    ensures PythonLiteralValue(EscapeForPython("$")) == Some("\\$")
  {
    assert !StartsTriple("$");
    assert "$"[1..] == [] && EscapeEach([]) == [];
    assert EscapeEach("$") == "\\$";
    var t := "\\$";
    assert t[0] == Backslash && t[1] == '$' && t[1..] == "$";
    assert !IsPythonEscapeChar('$');
    PythonLiteralValueSingle('$');
    assert PythonLiteralValue(t) == Some([Backslash] + "$");
  }

  lemma PythonLiteralValueSingle(c: char)
    requires c != Backslash
    ensures PythonLiteralValue([c]) == Some([c])
  {
    var t := [c];
    assert t[1..] == [] && PythonLiteralValue(t[1..]) == Some([]);
    assert [t[0]] + [] == t;
  }

  lemma SafeAfterPair(c: char, rest: string)
    ensures SafeInTripleDoubleQuotes([Backslash, c] + rest) == SafeInTripleDoubleQuotes(rest)
  {
    assert ([Backslash, c] + rest)[2..] == rest;
  }

  const TripleDoubleQuote := "\"\"\""

  /** `s` begins with `"""`, checked one character at a time. */
  lemma StartsTripleDoubleIsPrefix(s: string)
    ensures StartsWith(s, TripleDoubleQuote) <==> |s| >= 3 && s[0] == '"' && s[1] == '"' && s[2] == '"'
  {
    if |s| >= 3 {
      assert s[..3] == [s[0], s[1], s[2]];
    }
  }

  /**
   * The same rule on code in which no backslash escapes anything: every `"`
   * is followed by something, and not by two more `"`.
   */
  predicate QuotesStayInside(s: string)
    decreases |s|
  {
    if |s| == 0 then true
    else if s[0] == '"' then
      |s| >= 2 && !(s[1] == '"' && |s| >= 3 && s[2] == '"') && QuotesStayInside(s[1..])
    else QuotesStayInside(s[1..])
  }

  /** Code that holds `"""` or ends in `"`. */
  predicate HasCloser(s: string) {
    Contains(s, TripleDoubleQuote) || (|s| > 0 && s[|s| - 1] == '"')
  }

  /** No `"` ends the literal early iff there is no `"""` and the code does not end in `"`. */
  lemma {:induction false} QuotesStayInsideIff(s: string)
    ensures QuotesStayInside(s) <==> !HasCloser(s)
    decreases |s|
  {
    StartsTripleDoubleIsPrefix(s);
    if |s| > 0 {
      QuotesStayInsideIff(s[1..]);
      if |s| >= 2 {
        assert s[1..][|s| - 2] == s[|s| - 1];
      }
    }
  }

  /**
   * As written, the escaped code is safe inside `"""` exactly when the code
   * holds no `"""` and does not end in `"`: every `"` is copied through bare.
   */
  lemma EscapeSafeIffNoCloser(s: string)
    ensures SafeInTripleDoubleQuotes(EscapeForPython(s)) <==> !HasCloser(s)
  {
    EscapeEachSafeIffQuotesStayInside(s);
    QuotesStayInsideIff(s);
  }

  /** The escape leaves `"` alone, and only `"` comes out as `"`. */
  lemma EscapeEachHead(u: string)
    ensures |EscapeEach(u)| >= 1 <==> |u| >= 1
    ensures |u| >= 1 ==> (EscapeEach(u)[0] == '"' <==> u[0] == '"')
    ensures |u| >= 1 && u[0] == '"' ==> EscapeEach(u) == ['"'] + EscapeEach(u[1..])
  {
  }

  lemma {:induction false} EscapeEachSafeIffQuotesStayInside(s: string)
    ensures SafeInTripleDoubleQuotes(EscapeEach(s)) <==> QuotesStayInside(s)
    decreases |s|
  {
    if |s| > 0 {
      if StartsTriple(s) {
        var rest := EscapeEach(s[3..]);
        EscapeEachSafeIffQuotesStayInside(s[3..]);
        SafeAfterPair(Quote, rest);
        SafeAfterPair(Quote, [Backslash, Quote] + rest);
        SafeAfterPair(Quote, [Backslash, Quote] + ([Backslash, Quote] + rest));
        assert EscapedTripleQuote + rest == [Backslash, Quote] + ([Backslash, Quote] + ([Backslash, Quote] + rest));
        assert s[1..][1..] == s[2..] && s[2..][1..] == s[3..];
        assert QuotesStayInside(s) == QuotesStayInside(s[1..]);
        assert QuotesStayInside(s[1..]) == QuotesStayInside(s[2..]);
        assert QuotesStayInside(s[2..]) == QuotesStayInside(s[3..]);
      } else {
        var rest := EscapeEach(s[1..]);
        EscapeEachSafeIffQuotesStayInside(s[1..]);
        EscapeEachSingle(s);
        if s[0] == '\\' || s[0] == '`' || s[0] == '$' {
          SafeAfterPair(s[0], rest);
          assert EscapeChar(s[0]) + rest == [Backslash, s[0]] + rest;
        } else if s[0] == '"' {
          EscapedQuoteHead(s[1..]);
        } else {
          assert ([s[0]] + rest)[1..] == rest;
        }
      }
    }
  }

  /** A bare `"` in the escaped code is followed by what follows it in the code. */
  lemma EscapedQuoteHead(u: string)
    ensures SafeInTripleDoubleQuotes(['"'] + EscapeEach(u)) <==>
            |u| >= 1 && !(u[0] == '"' && |u| >= 2 && u[1] == '"') &&
            SafeInTripleDoubleQuotes(EscapeEach(u))
  {
    var t := ['"'] + EscapeEach(u);
    assert t[1..] == EscapeEach(u);
    EscapeEachHead(u);
    if |u| >= 1 && u[0] == '"' {
      EscapeEachHead(u[1..]);
    }
  }

  /**
   * As written, code whose last line is `name = "Kim"` closes the `"""`
   * literal early.
   */
  lemma EscapedCodeCanCloseLiteral()
    ensures !SafeInTripleDoubleQuotes(EscapeForPython("name = \"Kim\""))
  {
    var s := "name = \"Kim\"";
    assert s[|s| - 1] == '"';
    EscapeSafeIffNoCloser(s);
  }

  /** The escape evidently intended: a backslash before every backslash and every `"`. */
  function EscapeForTripleDoubleQuotes(code: string): (r: string)
    ensures |r| >= |code|
    decreases |code|
  {
    if |code| == 0 then []
    else (if code[0] == Backslash || code[0] == '"' then [Backslash, code[0]] else [code[0]])
         + EscapeForTripleDoubleQuotes(code[1..])
  }

  /** The intended escape is read back by Python as exactly the student's code. */
  lemma {:induction false} PythonReadsIntendedEscape(code: string)
    ensures PythonLiteralValue(EscapeForTripleDoubleQuotes(code)) == Some(code)
    ensures SafeInTripleDoubleQuotes(EscapeForTripleDoubleQuotes(code))
    decreases |code|
  {
    if |code| > 0 {
      PythonReadsIntendedEscape(code[1..]);
      var rest := EscapeForTripleDoubleQuotes(code[1..]);
      if code[0] == Backslash || code[0] == '"' {
        var t := [Backslash, code[0]] + rest;
        assert t[2..] == rest;
      } else {
        var t := [code[0]] + rest;
        assert t[1..] == rest;
      }
      assert code == [code[0]] + code[1..];
    }
  }

  // ---------------------------------------------------------------------------
  // classifyLine
  // ---------------------------------------------------------------------------

  /** The characters `String.prototype.trim` removes: white space and line terminators. */
  predicate IsJsWhitespace(c: char) {
    c == '\t' || c == '\n' || c == '\U{000B}' || c == '\U{000C}' || c == '\r' || c == ' ' ||
    c == '\U{00A0}' || c == '\U{1680}' || ('\U{2000}' <= c <= '\U{200A}') ||
    c == '\U{2028}' || c == '\U{2029}' || c == '\U{202F}' || c == '\U{205F}' ||
    c == '\U{3000}' || c == '\U{FEFF}'
  }

  function JsTrim(s: string): string {
    Strip(s, IsJsWhitespace)
  }

  datatype Shape = Diamond | Parallelogram | Rect

  /** A decision line: it starts with `if`, `elif`, `else`, `for` or `while` as a plain prefix. */
  predicate IsDecisionLine(t: string) {
    StartsWith(t, "if") || StartsWith(t, "elif") || StartsWith(t, "else") ||
    StartsWith(t, "for") || StartsWith(t, "while")
  }

  /** An input line: it starts with `input` or contains `input(`. */
  predicate IsInputLine(t: string) {
    StartsWith(t, "input") || Contains(t, "input(")
  }

  /**
   * The flowchart shape of a line: decision lines are diamonds, whether or
   * not they read input; other input lines are parallelograms; the rest are
   * rectangles.
   */
  function ClassifyLine(line: string): (r: Shape)
    ensures r == Diamond <==> IsDecisionLine(JsTrim(line))
    ensures r == Parallelogram <==> !IsDecisionLine(JsTrim(line)) && IsInputLine(JsTrim(line))
  {
    var trimmed := JsTrim(line);
    if StartsWith(trimmed, "if") || StartsWith(trimmed, "elif") || StartsWith(trimmed, "else") then Diamond
    else if StartsWith(trimmed, "for") || StartsWith(trimmed, "while") then Diamond
    else if StartsWith(trimmed, "input") || Contains(trimmed, "input(") then Parallelogram
    else Rect
  }

  /** The shape depends only on the trimmed line. */
  lemma ClassifyIgnoresSurroundingSpace(line: string)
    ensures ClassifyLine(JsTrim(line)) == ClassifyLine(line)
  {
    StripIdempotent(line, IsJsWhitespace);
  }

  // ---------------------------------------------------------------------------
  // friendlyExplain
  // ---------------------------------------------------------------------------

  const SuccessMessage := "실행이 성공적으로 끝났어요! 👏"
  const SyntaxHint := "문법 오류가 있어요. 괄호나 콜론(:)이 빠지지 않았는지 확인해 볼까요? 🔍"
  const IndentHint := "들여쓰기(스페이스 4칸)가 맞지 않아요. 같은 블록은 같은 깊이로 맞춰주세요. 📏"
  const NameHint := "아직 만들어지지 않은 변수 이름이 있어요. 철자와 선언 순서를 확인해 주세요. ✏️"
  const TypeHint := "자료형이 맞지 않는 연산이 있어요. 숫자와 문자열이 섞이지 않았는지 살펴봐요. 🔢"
  const ZeroDivisionHint := "0으로 나누는 부분이 있어요. 나누기 전에 0인지 확인하는 조건을 넣어볼까요? ➗"
  const DefaultHint := "오류가 있어요. 메시지를 천천히 읽으며 어떤 줄에서 발생했는지 확인해 봅시다. 🧐"

  /** The keywords, in the order they are tried, and the hint each selects. */
  const Keywords: seq<string> := ["syntax", "indent", "nameerror", "typeerror", "zero division"]
  const Hints: seq<string> := [SyntaxHint, IndentHint, NameHint, TypeHint, ZeroDivisionHint]

  /** The seven messages are pairwise different. */
  lemma MessagesDistinct()
    ensures forall i, j :: 0 <= i < j < |Hints| ==> Hints[i] != Hints[j]
    ensures forall i :: 0 <= i < |Hints| ==> Hints[i] != SuccessMessage && Hints[i] != DefaultHint
    ensures SuccessMessage != DefaultHint
  {
  }

  /** `!errorText` in JavaScript: absent or empty. */
  predicate NoError(errorText: Option<string>) {
    errorText.None? || errorText.value == ""
  }

  /** `friendlyExplain` as written: an if-chain over the lower-cased text. */
  function FriendlyExplain(errorText: Option<string>): (r: string)
    ensures r == SuccessMessage <==> NoError(errorText)
    ensures r == DefaultHint <==>
              !NoError(errorText) && forall k :: 0 <= k < |Keywords| ==> !Contains(ToLower(errorText.value), Keywords[k])
  {
    MessagesDistinct();
    assert Keywords[0] == "syntax" && Keywords[1] == "indent" && Keywords[2] == "nameerror";
    assert Keywords[3] == "typeerror" && Keywords[4] == "zero division";
    if NoError(errorText) then SuccessMessage
    else
      var lower := ToLower(errorText.value);
      if Contains(lower, "syntax") then SyntaxHint
      else if Contains(lower, "indent") then IndentHint
      else if Contains(lower, "nameerror") then NameHint
      else if Contains(lower, "typeerror") then TypeHint
      else if Contains(lower, "zero division") then ZeroDivisionHint
      else DefaultHint
  }

  /**
   * Hint `k` is given exactly when keyword `k` occurs in the lower-cased text
   * and no earlier keyword does.
   */
  lemma FriendlyExplainFirstMatch(text: string, k: nat)
    requires text != "" && k < |Keywords|
    ensures FriendlyExplain(Some(text)) == Hints[k] <==>
              Contains(ToLower(text), Keywords[k]) &&
              forall j :: 0 <= j < k ==> !Contains(ToLower(text), Keywords[j])
  {
    MessagesDistinct();
    assert Keywords[0] == "syntax" && Keywords[1] == "indent" && Keywords[2] == "nameerror";
    assert Keywords[3] == "typeerror" && Keywords[4] == "zero division";
  }

  /** Matching ignores the case of ASCII letters. */
  lemma FriendlyExplainIgnoresCase(text: string)
    ensures FriendlyExplain(Some(ToLower(text))) == FriendlyExplain(Some(text))
  {
    ToLowerIdempotent(text);
  }

  /** Python's message for `1 / 0`: the exception name, then its text. */
  const ZeroDivisionMessage := "ZeroDivision" + "Error: division by zero"

  /** The same message in lower case. */
  const LowerZeroDivisionMessage := "zerodivision" + "error: division by zero"

  lemma ZeroDivisionMessageLowered()
    ensures ToLower(ZeroDivisionMessage) == LowerZeroDivisionMessage
  {
    ToLowerConcat("ZeroDivision", "Error: division by zero");
    LowerExceptionName();
    LowerExceptionText();
  }

  lemma LowerExceptionName()
    ensures ToLower("ZeroDivision") == "zerodivision"
  {
  }

  lemma LowerExceptionText()
    ensures ToLower("Error: division by zero") == "error: division by zero"
  {
  }

  /** No keyword occurs in the lower-cased division-by-zero message. */
  lemma LoweredMessageMissesKeyword(k: nat)
    requires k < |Keywords|
    ensures !Contains(LowerZeroDivisionMessage, Keywords[k])
  {
    if k == 0 {
      assert Keywords[k] == "syntax";
      LoweredMessageMissesSyntax();
    } else if k == 1 {
      assert Keywords[k] == "indent";
      LoweredMessageMissesIndent();
    } else if k == 2 {
      assert Keywords[k] == "nameerror";
      LoweredMessageMissesNameError();
    } else if k == 3 {
      assert Keywords[k] == "typeerror";
      LoweredMessageMissesTypeError();
    } else {
      assert Keywords[k] == "zero division";
      LoweredMessageMissesZeroDivision();
    }
  }

  lemma LoweredMessageMissesSyntax()
    ensures !Contains(LowerZeroDivisionMessage, "syntax")
  {
    assert 'x' !in LowerZeroDivisionMessage;
    NotContainsMissingChar(LowerZeroDivisionMessage, "syntax", 5);
  }

  lemma LoweredMessageMissesIndent()
    ensures !Contains(LowerZeroDivisionMessage, "indent")
  {
    assert 't' !in LowerZeroDivisionMessage;
    NotContainsMissingChar(LowerZeroDivisionMessage, "indent", 5);
  }

  lemma LoweredMessageMissesNameError()
    ensures !Contains(LowerZeroDivisionMessage, "nameerror")
  {
    assert 'm' !in LowerZeroDivisionMessage;
    NotContainsMissingChar(LowerZeroDivisionMessage, "nameerror", 2);
  }

  lemma LoweredMessageMissesTypeError()
    ensures !Contains(LowerZeroDivisionMessage, "typeerror")
  {
    assert 'p' !in LowerZeroDivisionMessage;
    NotContainsMissingChar(LowerZeroDivisionMessage, "typeerror", 2);
  }

  /** `zero division` needs a `z` with a space four places on, which the message never has. */
  lemma LoweredMessageMissesZeroDivision()
    ensures !Contains(LowerZeroDivisionMessage, "zero division")
  {
    var lower := LowerZeroDivisionMessage;
    assert forall i :: 0 <= i < |lower| - 4 ==> !(lower[i] == 'z' && lower[i + 4] == ' ');
    NotContainsAtPositions(lower, "zero division", 4);
  }

  /** The lower-cased message starts with the exception name. */
  lemma LoweredMessageStartsWithName()
    ensures Contains(LowerZeroDivisionMessage, "zerodivision")
  {
    assert LowerZeroDivisionMessage[..12] == "zerodivision";
    assert StartsWith(LowerZeroDivisionMessage, "zerodivision");
  }

  /**
   * As written, the zero-division hint never fires for Python's own message:
   * it reads `ZeroDivisionError: ...`, with no space before `division`.
   */
  lemma ZeroDivisionGetsDefaultHint()
    ensures FriendlyExplain(Some(ZeroDivisionMessage)) == DefaultHint
  {
    ZeroDivisionMessageLowered();
    forall k | 0 <= k < |Keywords|
      ensures !Contains(ToLower(ZeroDivisionMessage), Keywords[k])
    {
      LoweredMessageMissesKeyword(k);
    }
  }

  /** The keywords evidently intended: the last one matched against the exception name. */
  const IntendedKeywords: seq<string> := Keywords[..4] + ["zerodivision"]

  /** `friendlyExplain` with the keyword `zerodivision`. */
  function FriendlyExplainIntended(errorText: Option<string>): (r: string)
    ensures r == SuccessMessage <==> NoError(errorText)
    ensures !NoError(errorText) ==>
              forall k :: 0 <= k < |IntendedKeywords| ==>
                (r == Hints[k] <==> Contains(ToLower(errorText.value), IntendedKeywords[k]) &&
                                    forall j :: 0 <= j < k ==> !Contains(ToLower(errorText.value), IntendedKeywords[j]))
  {
    MessagesDistinct();
    assert IntendedKeywords[0] == "syntax" && IntendedKeywords[1] == "indent" && IntendedKeywords[2] == "nameerror";
    assert IntendedKeywords[3] == "typeerror" && IntendedKeywords[4] == "zerodivision";
    if NoError(errorText) then SuccessMessage
    else
      var lower := ToLower(errorText.value);
      if Contains(lower, "syntax") then SyntaxHint
      else if Contains(lower, "indent") then IndentHint
      else if Contains(lower, "nameerror") then NameHint
      else if Contains(lower, "typeerror") then TypeHint
      else if Contains(lower, "zerodivision") then ZeroDivisionHint
      else DefaultHint
  }

  /** With the intended keyword Python's division-by-zero message gets its hint. */
  lemma ZeroDivisionGetsIntendedHint()
    ensures FriendlyExplainIntended(Some(ZeroDivisionMessage)) == ZeroDivisionHint
  {
    ZeroDivisionMessageLowered();
    forall k | 0 <= k < 4
      ensures !Contains(ToLower(ZeroDivisionMessage), IntendedKeywords[k])
    {
      assert IntendedKeywords[k] == Keywords[k];
      LoweredMessageMissesKeyword(k);
    }
    assert IntendedKeywords[4] == "zerodivision";
    LoweredMessageStartsWithName();
    IntendedPicksFirstMatch(ZeroDivisionMessage, 4);
  }

  lemma IntendedPicksFirstMatch(text: string, k: nat)
    requires text != "" && k < |IntendedKeywords|
    requires Contains(ToLower(text), IntendedKeywords[k])
    requires forall j :: 0 <= j < k ==> !Contains(ToLower(text), IntendedKeywords[j])
    ensures FriendlyExplainIntended(Some(text)) == Hints[k]
  {
  }
}
