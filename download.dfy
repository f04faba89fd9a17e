/**
 * The teacher's download script: every stored submission with code becomes a
 * `.py` file whose name is built from the student's details and whose text is
 * a seven-line comment header, a blank line and the submitted code.
 */
module Download {
  import opened Wrappers
  import opened Text

  // ---------------------------------------------------------------------------
  // Documents and defaults
  // ---------------------------------------------------------------------------

  /** `createdAt`: a Firestore timestamp (seconds since the epoch) or some other value. */
  datatype CreatedAt = Timestamp(seconds: int) | OtherValue

  /** A stored submission: its id and the fields the script reads, `None` when absent. */
  datatype Doc = Doc(
    id: string,
    projectCode: Option<string>,
    studentName: Option<string>,
    studentClass: Option<string>,
    studentNumber: Option<string>,
    projectLevel: Option<string>,
    createdAt: Option<CreatedAt>)

  /**
   * What the script takes from outside: the output directory, Python's
   * `str.isalnum`, the local-time formatting of a timestamp as `%Y%m%d_%H%M%S`,
   * the clock read while handling the `i`-th document, and whether a path can
   * be opened for writing.
   */
  datatype Env = Env(
    outputDir: string,
    isAlnum: char -> bool,
    formatTimestamp: int -> string,
    clock: nat -> string,
    canWrite: string -> bool)

  const UnknownDetail := "Unknown"
  const UnknownLevel := "unknown"

  /** The student's details, with the script's defaults for absent fields. */
  datatype Details = Details(name: string, className: string, number: string, level: string)

  function DetailsOf(doc: Doc): (r: Details)
    ensures doc.studentName.None? ==> r.name == UnknownDetail
    ensures doc.studentClass.None? ==> r.className == UnknownDetail
    ensures doc.studentNumber.None? ==> r.number == UnknownDetail
    ensures doc.projectLevel.None? ==> r.level == UnknownLevel
    ensures doc.studentName.Some? ==> r.name == doc.studentName.value
    ensures doc.studentClass.Some? ==> r.className == doc.studentClass.value
    ensures doc.studentNumber.Some? ==> r.number == doc.studentNumber.value
    ensures doc.projectLevel.Some? ==> r.level == doc.projectLevel.value
  {
    Details(doc.studentName.GetOr(UnknownDetail), doc.studentClass.GetOr(UnknownDetail),
            doc.studentNumber.GetOr(UnknownDetail), doc.projectLevel.GetOr(UnknownLevel))
  }

  /** A document without code, or with empty code, is skipped. */
  predicate HasCode(doc: Doc) {
    doc.projectCode.Some? && doc.projectCode.value != ""
  }

  /** The date part of the file name: the timestamp when there is one, the clock otherwise. */
  function DateString(env: Env, doc: Doc, i: nat): string {
    match doc.createdAt
    case Some(Timestamp(t)) => env.formatTimestamp(t)
    case _ => env.clock(i)
  }

  // ---------------------------------------------------------------------------
  // safe_name
  // ---------------------------------------------------------------------------

  /** The characters `str.isspace` holds for, which a bare `strip()` removes. */
  predicate PyIsSpace(c: char) {
    ('\U{0009}' <= c <= '\U{000D}') || ('\U{001C}' <= c <= '\U{001F}') || c == ' ' ||
    c == '\U{0085}' || c == '\U{00A0}' || c == '\U{1680}' || ('\U{2000}' <= c <= '\U{200A}') ||
    c == '\U{2028}' || c == '\U{2029}' || c == '\U{202F}' || c == '\U{205F}' || c == '\U{3000}'
  }

  /** The characters the name filter keeps. */
  predicate NameChar(isAlnum: char -> bool, c: char) {
    isAlnum(c) || c == ' ' || c == '-' || c == '_'
  }

  /** The characters a sanitised name may hold. */
  predicate SafeChar(isAlnum: char -> bool, c: char) {
    isAlnum(c) || c == '-' || c == '_'
  }

  /** Python's alphanumerics are never white space. */
  ghost predicate AlnumNotSpace(isAlnum: char -> bool) {
    forall c :: isAlnum(c) ==> !PyIsSpace(c)
  }

  function KeptName(name: string, isAlnum: char -> bool): string {
    KeepChars(name, c => NameChar(isAlnum, c))
  }

  /**
   * `safe_name`: keep alphanumerics, spaces, `-` and `_`, strip white space
   * from both ends, then turn each remaining space into `_`.
   */
  function SafeName(name: string, isAlnum: char -> bool): (r: string)
    ensures forall i :: 0 <= i < |r| ==> SafeChar(isAlnum, r[i])
    ensures ' ' !in r
    ensures |r| <= |name|
  {
    var stripped := Strip(KeptName(name, isAlnum), PyIsSpace);
    StrippedNameChars(name, isAlnum);
    SpacesToUnderscores(stripped, isAlnum);
    ReplaceChar(stripped, ' ', "_")
  }

  /** The stripped name holds only characters the filter keeps. */
  lemma StrippedNameChars(name: string, isAlnum: char -> bool)
    ensures var t := Strip(KeptName(name, isAlnum), PyIsSpace);
            |t| <= |name| && forall i :: 0 <= i < |t| ==> NameChar(isAlnum, t[i]) && t[i] in name
  {
    var kept := KeptName(name, isAlnum);
    var o := StripOffset(kept, PyIsSpace);
    var t := Strip(kept, PyIsSpace);
    forall i | 0 <= i < |t| ensures NameChar(isAlnum, t[i]) && t[i] in name {
      assert t[i] == kept[o + i];
    }
  }

  /** Turning the spaces of kept characters into `_` leaves only safe characters. */
  lemma SpacesToUnderscores(t: string, isAlnum: char -> bool)
    requires forall i :: 0 <= i < |t| ==> NameChar(isAlnum, t[i])
    ensures var r := ReplaceChar(t, ' ', "_");
            |r| == |t| && forall i :: 0 <= i < |r| ==> SafeChar(isAlnum, r[i]) && r[i] != ' '
  {
    ReplaceCharPointwise(t, ' ', '_');
  }

  /** The stripped name whose spaces become underscores. */
  lemma SafeNameIsStrippedKept(name: string, isAlnum: char -> bool)
    ensures |SafeName(name, isAlnum)| == |Strip(KeptName(name, isAlnum), PyIsSpace)|
    ensures forall i :: 0 <= i < |SafeName(name, isAlnum)| ==>
              SafeName(name, isAlnum)[i] ==
                (var c := Strip(KeptName(name, isAlnum), PyIsSpace)[i]; if c == ' ' then '_' else c)
  {
    ReplaceCharPointwise(Strip(KeptName(name, isAlnum), PyIsSpace), ' ', '_');
  }

  /** Sanitising twice is sanitising once. */
  lemma SafeNameIdempotent(name: string, isAlnum: char -> bool)
    requires AlnumNotSpace(isAlnum)
    ensures SafeName(SafeName(name, isAlnum), isAlnum) == SafeName(name, isAlnum)
  {
    var r := SafeName(name, isAlnum);
    assert forall i :: 0 <= i < |r| ==> NameChar(isAlnum, r[i]) by {
      forall i | 0 <= i < |r| ensures NameChar(isAlnum, r[i]) {
        assert SafeChar(isAlnum, r[i]);
      }
    }
    assert KeptName(r, isAlnum) == r;
    forall i | 0 <= i < |r| ensures !PyIsSpace(r[i]) {
      assert SafeChar(isAlnum, r[i]);
    }
    StripNoEdges(r, PyIsSpace);
    assert ' ' !in r;
  }

  /**
   * Spaces at either end are stripped before spaces turn into underscores:
   * a name without `_` never gives a sanitised name that starts or ends with `_`.
   */
  lemma SafeNameNoEdgeUnderscore(name: string, isAlnum: char -> bool)
    requires '_' !in name
    ensures var r := SafeName(name, isAlnum); |r| > 0 ==> r[0] != '_' && r[|r| - 1] != '_'
  {
    var t := Strip(KeptName(name, isAlnum), PyIsSpace);
    StrippedNameChars(name, isAlnum);
    assert '_' !in t by {
      forall i | 0 <= i < |t| ensures t[i] != '_' {
        assert t[i] in name;
      }
    }
    assert PyIsSpace(' ');
    EdgesStayPlain(t);
  }

  /** Without `_` and without a space at either end, no `_` lands at an end. */
  lemma EdgesStayPlain(t: string)
    requires '_' !in t
    requires |t| > 0 ==> t[0] != ' ' && t[|t| - 1] != ' '
    ensures var r := ReplaceChar(t, ' ', "_"); |r| > 0 ==> r[0] != '_' && r[|r| - 1] != '_'
  {
    ReplaceCharPointwise(t, ' ', '_');
    if |t| > 0 {
      assert t[0] in t && t[|t| - 1] in t;
    }
  }

  /** Spaces inside the name become underscores. */
  lemma SafeNameJoinsWords(a: string, b: string, isAlnum: char -> bool)
    requires |a| > 0 && |b| > 0
    requires forall i :: 0 <= i < |a| ==> isAlnum(a[i])
    requires forall i :: 0 <= i < |b| ==> isAlnum(b[i])
    requires AlnumNotSpace(isAlnum)
    ensures SafeName(a + " " + b, isAlnum) == a + "_" + b
  {
    var name := a + " " + b;
    assert forall i :: 0 <= i < |name| ==> NameChar(isAlnum, name[i]) by {
      forall i | 0 <= i < |name| ensures NameChar(isAlnum, name[i]) {
        if i < |a| {
          assert name[i] == a[i];
        } else if i > |a| {
          assert name[i] == b[i - |a| - 1];
        }
      }
    }
    assert KeptName(name, isAlnum) == name;
    assert name[0] == a[0] && name[|name| - 1] == b[|b| - 1];
    StripNoEdges(name, PyIsSpace);
    assert ' ' !in a by {
      forall i | 0 <= i < |a| ensures a[i] != ' ' {
        assert isAlnum(a[i]);
      }
    }
    assert ' ' !in b by {
      forall i | 0 <= i < |b| ensures b[i] != ' ' {
        assert isAlnum(b[i]);
      }
    }
    UnderscoreJoin(a, b);
  }

  /** Two space-free words around one space: the space becomes `_`. */
  lemma UnderscoreJoin(a: string, b: string)
    requires ' ' !in a && ' ' !in b
    ensures ReplaceChar(a + " " + b, ' ', "_") == a + "_" + b
  {
    ReplaceCharConcat(a + " ", b, ' ', "_");
    ReplaceCharConcat(a, " ", ' ', "_");
    assert ReplaceChar(" ", ' ', "_") == "_";
  }

  // ---------------------------------------------------------------------------
  // The file name and path
  // ---------------------------------------------------------------------------

  /** `{class}_{number}_{safe_name}_{level}_{date}.py`. */
  function Filename(d: Details, safeName: string, date: string): (r: string)
    ensures EndsWith(r, ".py")
  {
    var r := d.className + "_" + d.number + "_" + safeName + "_" + d.level + "_" + date + ".py";
    assert r == (d.className + "_" + d.number + "_" + safeName + "_" + d.level + "_" + date) + ".py";
    r
  }

  predicate EndsWith(s: string, suffix: string) {
    |suffix| <= |s| && s[|s| - |suffix|..] == suffix
  }

  /** `os.path.join(dir, name)` on POSIX: an absolute name replaces the directory. */
  function JoinPath(dir: string, name: string): (r: string)
    ensures EndsWith(r, name)
    ensures |name| > 0 && name[0] == '/' ==> r == name
    ensures !(|name| > 0 && name[0] == '/') ==> StartsWith(r, dir)
  {
    if |name| > 0 && name[0] == '/' then
      assert name[0..] == name;
      name
    else
      var r := if dir == "" || dir[|dir| - 1] == '/' then dir + name else dir + "/" + name;
      assert r[|r| - |name|..] == name;
      assert r[..|dir|] == dir;
      r
  }

  /**
   * As written, only the student's name is sanitised: a class that starts
   * with `/` makes the file name absolute, and the file is written outside
   * the output directory.
   */
  lemma AbsoluteClassLeavesOutputDir(d: Details, safeName: string, date: string, dir: string)
    requires |d.className| > 0 && d.className[0] == '/'
    requires |dir| > 0 && dir[0] != '/'
    ensures JoinPath(dir, Filename(d, safeName, date)) == Filename(d, safeName, date)
    ensures !StartsWith(JoinPath(dir, Filename(d, safeName, date)), dir)
  {
    var f := Filename(d, safeName, date);
    assert f[0] == d.className[0];
    if |dir| <= |f| {
      assert f[..|dir|][0] == f[0];
    }
  }

  /** The file name evidently intended: every detail sanitised like the name. */
  function SafeFilename(d: Details, date: string, isAlnum: char -> bool): (r: string)
    ensures EndsWith(r, ".py")
  {
    Filename(Details(SafeName(d.name, isAlnum), SafeName(d.className, isAlnum),
                     SafeName(d.number, isAlnum), SafeName(d.level, isAlnum)),
             SafeName(d.name, isAlnum), date)
  }

  /** With every detail sanitised the file is always directly inside the output directory. */
  lemma SafeFilenameStaysInDir(d: Details, date: string, isAlnum: char -> bool, dir: string)
    requires !isAlnum('/') && '/' !in date
    requires dir != "" && dir[|dir| - 1] != '/'
    ensures var path := JoinPath(dir, SafeFilename(d, date, isAlnum));
            StartsWith(path, dir + "/") && '/' !in path[|dir| + 1..]
  {
    var sn, sc := SafeName(d.name, isAlnum), SafeName(d.className, isAlnum);
    var su, sl := SafeName(d.number, isAlnum), SafeName(d.level, isAlnum);
    SafeNameNoSlash(d.name, isAlnum);
    SafeNameNoSlash(d.className, isAlnum);
    SafeNameNoSlash(d.number, isAlnum);
    SafeNameNoSlash(d.level, isAlnum);
    FilenameNoSlash(Details(sn, sc, su, sl), sn, date);
    JoinInsideDir(dir, SafeFilename(d, date, isAlnum));
  }

  /** A file name without `/` is joined directly below a directory not ending in `/`. */
  lemma JoinInsideDir(dir: string, name: string)
    requires NoSlash(name)
    requires dir != "" && dir[|dir| - 1] != '/'
    ensures StartsWith(JoinPath(dir, name), dir + "/") && '/' !in JoinPath(dir, name)[|dir| + 1..]
  {
    if |name| > 0 {
      assert name[0] in name;
    }
    var path := dir + "/" + name;
    assert path[..|dir| + 1] == dir + "/";
    assert path[|dir| + 1..] == name;
  }

  /** A file name built from parts without `/` has none. */
  lemma FilenameNoSlash(d: Details, safeName: string, date: string)
    requires NoSlash(d.className) && NoSlash(d.number) && NoSlash(safeName)
    requires NoSlash(d.level) && NoSlash(date)
    ensures NoSlash(Filename(d, safeName, date))
  {
  }

  predicate NoSlash(s: string) {
    '/' !in s
  }

  lemma SafeNameNoSlash(name: string, isAlnum: char -> bool)
    requires !isAlnum('/')
    ensures NoSlash(SafeName(name, isAlnum))
  {
    var r := SafeName(name, isAlnum);
    forall i | 0 <= i < |r| ensures r[i] != '/' {
      assert SafeChar(isAlnum, r[i]);
    }
  }

  // ---------------------------------------------------------------------------
  // The file's text
  // ---------------------------------------------------------------------------

  /** The encoding declaration of PEP 263. */
  const CodingLine := CodingComment + "\n"
  const CodingComment := "# -*- coding: utf-8 -*-"

  const NameTag := "# 학생명: "
  const ClassTag := "# 반: "
  const NumberTag := "# 번호: "
  const LevelTag := "# 난이도: "
  const DateTag := "# 제출일시: "
  const IdTag := "# 문서ID: "

  /** One header write: the tag, the value as it is, a line break. */
  function HeaderField(tag: string, value: string): string {
    tag + value + "\n"
  }

  /** The seven header lines, in the order they are written. */
  function HeaderLines(d: Details, date: string, docId: string): (r: seq<string>)
    ensures |r| == 7 && r[0] == CodingLine
    ensures forall i :: 0 <= i < 7 ==> StartsWith(r[i], "# ") && EndsWith(r[i], "\n")
  {
    var r := [CodingLine,
      HeaderField(NameTag, d.name),
      HeaderField(ClassTag, d.className),
      HeaderField(NumberTag, d.number),
      HeaderField(LevelTag, d.level),
      HeaderField(DateTag, date),
      HeaderField(IdTag, docId)];
    forall i | 0 <= i < 7 ensures StartsWith(r[i], "# ") && EndsWith(r[i], "\n") {
      HeaderLineShape(r[i]);
    }
    r
  }

  lemma HeaderLineShape(line: string)
    requires |line| >= 3 && line[0] == '#' && line[1] == ' ' && line[|line| - 1] == '\n'
    ensures StartsWith(line, "# ") && EndsWith(line, "\n")
  {
    assert line[..2] == "# ";
    assert line[|line| - 1..] == "\n";
  }

  function Concat(parts: seq<string>): string
    decreases |parts|
  {
    if |parts| == 0 then "" else parts[0] + Concat(parts[1..])
  }

  function Header(d: Details, date: string, docId: string): string {
    Concat(HeaderLines(d, date, docId))
  }

  /** No line break in `s`. */
  predicate OneLine(s: string) {
    '\n' !in s
  }

  /**
   * When no detail, date or id holds a line break, the header is exactly
   * seven lines: its only line breaks are the seven that end its writes.
   */
  lemma HeaderHasSevenLines(d: Details, date: string, docId: string)
    requires OneLine(d.name) && OneLine(d.className) && OneLine(d.number) && OneLine(d.level)
    requires OneLine(date) && OneLine(docId)
    ensures multiset(Header(d, date, docId))['\n'] == 7
  {
    TagsOneLine();
    OneBreakAtEnd(CodingComment);
    var a1, a2, a3 := HeaderField(NameTag, d.name), HeaderField(ClassTag, d.className), HeaderField(NumberTag, d.number);
    var a4, a5, a6 := HeaderField(LevelTag, d.level), HeaderField(DateTag, date), HeaderField(IdTag, docId);
    LineBreakCount(NameTag, d.name);
    LineBreakCount(ClassTag, d.className);
    LineBreakCount(NumberTag, d.number);
    LineBreakCount(LevelTag, d.level);
    LineBreakCount(DateTag, date);
    LineBreakCount(IdTag, docId);
    var parts := [CodingLine, a1, a2, a3, a4, a5, a6];
    assert Header(d, date, docId) == Concat(parts);
    SevenLineBreaks(CodingLine, a1, a2, a3, a4, a5, a6);
  }

  lemma SevenLineBreaks(a0: string, a1: string, a2: string, a3: string, a4: string, a5: string, a6: string)
    requires multiset(a0)['\n'] == 1 && multiset(a1)['\n'] == 1 && multiset(a2)['\n'] == 1
    requires multiset(a3)['\n'] == 1 && multiset(a4)['\n'] == 1 && multiset(a5)['\n'] == 1
    requires multiset(a6)['\n'] == 1
    ensures multiset(Concat([a0, a1, a2, a3, a4, a5, a6]))['\n'] == 7
  {
    var parts := [a0, a1, a2, a3, a4, a5, a6];
    forall i | 0 <= i < |parts| ensures multiset(parts[i])['\n'] == 1 {
    }
    ConcatLineBreaks(parts);
  }

  /** A tag and a one-line value, then a line break: one line break in all. */
  lemma LineBreakCount(tag: string, value: string)
    requires OneLine(tag) && OneLine(value)
    ensures multiset(HeaderField(tag, value))['\n'] == 1
  {
    OneBreakAtEnd(tag + value);
  }

  lemma OneBreakAtEnd(line: string)
    requires OneLine(line)
    ensures multiset(line + "\n")['\n'] == 1
  {
    assert multiset(line + "\n") == multiset(line) + multiset{'\n'};
  }

  lemma TagsOneLine()
    ensures OneLine(CodingComment)
    ensures OneLine(NameTag) && OneLine(ClassTag) && OneLine(NumberTag)
    ensures OneLine(LevelTag) && OneLine(DateTag) && OneLine(IdTag)
  {
  }

  /** Parts of one line break each join into as many line breaks as parts. */
  lemma {:induction false} ConcatLineBreaks(parts: seq<string>)
    requires forall i :: 0 <= i < |parts| ==> multiset(parts[i])['\n'] == 1
    ensures multiset(Concat(parts))['\n'] == |parts|
    decreases |parts|
  {
    if |parts| > 0 {
      ConcatLineBreaks(parts[1..]);
      assert multiset(Concat(parts)) == multiset(parts[0]) + multiset(Concat(parts[1..]));
    }
  }

  /** The whole file: the header, a blank line, then the code. */
  function FileContent(d: Details, date: string, docId: string, code: string): (r: string)
    ensures StartsWith(r, CodingLine)
    ensures EndsWith(r, code)
  {
    var h := Header(d, date, docId);
    var lines := HeaderLines(d, date, docId);
    assert h == CodingLine + Concat(lines[1..]);
    var r := h + "\n" + code;
    assert r == CodingLine + (Concat(lines[1..]) + "\n" + code);
    assert r[|r| - |code|..] == code;
    r
  }

  /** The code can be read back from the file, after the header and the blank line. */
  lemma CodeAfterHeader(d: Details, date: string, docId: string, code: string)
    ensures var h := Header(d, date, docId);
            FileContent(d, date, docId, code)[..|h| + 1] == h + "\n" &&
            FileContent(d, date, docId, code)[|h| + 1..] == code
  {
    var h := Header(d, date, docId);
    assert FileContent(d, date, docId, code) == (h + "\n") + code;
  }

  /** A file opened for writing: what has been written to it so far. */
  class OutFile {
    var content: string

    /** `open(path, 'w')` truncates the file. */
    constructor ()
      ensures content == ""
    {
      content := "";
    }

    method Write(s: string)
      modifies this
      ensures content == old(content) + s
    {
      content := content + s;
    }
  }

  /** One `write` per line, in order. */
  method WriteLines(f: OutFile, lines: seq<string>)
    modifies f
    ensures f.content == old(f.content) + Concat(lines)
  {
    var i := 0;
    while i < |lines|
      invariant 0 <= i <= |lines|
      invariant f.content == old(f.content) + Concat(lines[..i])
    {
      f.Write(lines[i]);
      ConcatSnoc(lines[..i], lines[i]);
      assert lines[..i + 1] == lines[..i] + [lines[i]];
      i := i + 1;
    }
    assert lines[..|lines|] == lines;
  }

  /** The writes of one submission: seven header lines, a blank line, the code. */
  method WriteSubmission(f: OutFile, d: Details, date: string, docId: string, code: string)
    modifies f
    ensures f.content == old(f.content) + FileContent(d, date, docId, code)
  {
    ghost var before := f.content;
    ghost var h := Header(d, date, docId);
    WriteLines(f, HeaderLines(d, date, docId));
    f.Write("\n");
    f.Write(code);
    assert f.content == before + (h + "\n" + code);
  }

  /** `with open(filepath, 'w') as f:` and the writes: the text the new file holds. */
  method SaveFile(d: Details, date: string, docId: string, code: string) returns (content: string)
    ensures content == FileContent(d, date, docId, code)
  {
    var f := new OutFile();
    WriteSubmission(f, d, date, docId, code);
    content := f.content;
  }

  lemma {:induction false} ConcatSnoc(parts: seq<string>, x: string)
    ensures Concat(parts + [x]) == Concat(parts) + x
    decreases |parts|
  {
    if |parts| == 0 {
      assert [x][1..] == [];
    } else {
      assert (parts + [x])[1..] == parts[1..] + [x];
      ConcatSnoc(parts[1..], x);
    }
  }

  // ---------------------------------------------------------------------------
  // The download loop
  // ---------------------------------------------------------------------------

  /** What happens to one document. */
  datatype Outcome = Skipped | Saved(path: string, content: string) | Failed

  /**
   * How the file name is built: `AsWritten` sanitises only the student's
   * name, as the script does; `Sanitised` sanitises every detail.
   */
  datatype Naming = AsWritten | Sanitised

  /** Where the `i`-th document is saved. */
  function SavePath(env: Env, naming: Naming, doc: Doc, i: nat): (r: string)
    ensures EndsWith(r, ".py")
  {
    var d := DetailsOf(doc);
    var date := DateString(env, doc, i);
    var name := match naming
      case AsWritten => Filename(d, SafeName(d.name, env.isAlnum), date)
      case Sanitised => SafeFilename(d, date, env.isAlnum);
    EndsWithTrans(JoinPath(env.outputDir, name), name, ".py");
    JoinPath(env.outputDir, name)
  }

  /** A suffix of a suffix is a suffix. */
  lemma EndsWithTrans(s: string, t: string, u: string)
    requires EndsWith(s, t) && EndsWith(t, u)
    ensures EndsWith(s, u)
  {
    assert s[|s| - |u|..] == t[|t| - |u|..];
  }

  /**
   * The `i`-th document: skipped without code; otherwise saved at its path,
   * or counted as an error when that path cannot be opened for writing.
   */
  function ProcessDoc(env: Env, naming: Naming, doc: Doc, i: nat): (r: Outcome)
    ensures r.Skipped? <==> !HasCode(doc)
    ensures r.Saved? ==> EndsWith(r.content, doc.projectCode.value) && StartsWith(r.content, CodingLine)
  {
    if !HasCode(doc) then Skipped
    else
      var d := DetailsOf(doc);
      var date := DateString(env, doc, i);
      var path := SavePath(env, naming, doc, i);
      if env.canWrite(path) then Saved(path, FileContent(d, date, doc.id, doc.projectCode.value))
      else Failed
  }

  /**
   * As written, a document with code whose class starts with `/` is saved
   * at its bare file name, outside a relative output directory, whenever
   * that name can be opened.
   */
  lemma AsWrittenSavesOutsideOutputDir(env: Env, doc: Doc, i: nat)
    requires HasCode(doc) && doc.studentClass.Some?
    requires |doc.studentClass.value| > 0 && doc.studentClass.value[0] == '/'
    requires |env.outputDir| > 0 && env.outputDir[0] != '/'
    ensures var d := DetailsOf(doc);
            var name := Filename(d, SafeName(d.name, env.isAlnum), DateString(env, doc, i));
            env.canWrite(name) ==>
              ProcessDoc(env, AsWritten, doc, i).Saved? &&
              ProcessDoc(env, AsWritten, doc, i).path == name &&
              !StartsWith(name, env.outputDir)
  {
    var d := DetailsOf(doc);
    AbsoluteClassLeavesOutputDir(d, SafeName(d.name, env.isAlnum), DateString(env, doc, i), env.outputDir);
  }

  /**
   * With every detail sanitised, a saved file lies directly inside the
   * output directory, given an `isalnum` that rejects `/` and a date string
   * without one.
   */
  lemma SavedFileStaysInOutputDir(env: Env, doc: Doc, i: nat)
    requires !env.isAlnum('/') && '/' !in DateString(env, doc, i)
    requires env.outputDir != "" && env.outputDir[|env.outputDir| - 1] != '/'
    ensures match ProcessDoc(env, Sanitised, doc, i)
            case Saved(path, _) =>
              StartsWith(path, env.outputDir + "/") && '/' !in path[|env.outputDir| + 1..]
            case _ => true
  {
    if HasCode(doc) {
      SafeFilenameStaysInDir(DetailsOf(doc), DateString(env, doc, i), env.isAlnum, env.outputDir);
    }
  }

  /** The two counters, the documents skipped, and the files in the output directory. */
  datatype Tally = Tally(saved: nat, errors: nat, skipped: nat, files: map<string, string>)

  /** How one outcome changes the tally: a counter goes up, and a save writes its file. */
  function Step(t: Tally, o: Outcome): (r: Tally)
    ensures r.saved + r.errors + r.skipped == t.saved + t.errors + t.skipped + 1
  {
    match o
    case Skipped => t.(skipped := t.skipped + 1)
    case Failed => t.(errors := t.errors + 1)
    case Saved(path, content) => t.(saved := t.saved + 1, files := t.files[path := content])
  }

  /** The tally after the first `|docs|` documents. */
  function TallyOf(env: Env, naming: Naming, docs: seq<Doc>): Tally
    decreases |docs|
  {
    if |docs| == 0 then Tally(0, 0, 0, map[])
    else Step(TallyOf(env, naming, docs[..|docs| - 1]), ProcessDoc(env, naming, docs[|docs| - 1], |docs| - 1))
  }

  /** The tally grows by one document at a time. */
  lemma TallyStep(env: Env, naming: Naming, docs: seq<Doc>, i: nat)
    requires i < |docs|
    ensures TallyOf(env, naming, docs[..i + 1]) == Step(TallyOf(env, naming, docs[..i]), ProcessDoc(env, naming, docs[i], i))
  {
    var prefix := docs[..i + 1];
    assert |prefix| - 1 == i && prefix[..i] == docs[..i] && prefix[i] == docs[i];
  }

  /** The counters and files after one more document, field by field. */
  lemma TallyAdvance(env: Env, naming: Naming, docs: seq<Doc>, i: nat)
    requires i < |docs|
    ensures var before, after, o := TallyOf(env, naming, docs[..i]), TallyOf(env, naming, docs[..i + 1]), ProcessDoc(env, naming, docs[i], i);
            after.saved == before.saved + (if o.Saved? then 1 else 0) &&
            after.errors == before.errors + (if o.Failed? then 1 else 0) &&
            after.files == (if o.Saved? then before.files[o.path := o.content] else before.files)
  {
    TallyStep(env, naming, docs, i);
  }

  /** The skip counter grows by one exactly for a document without code. */
  lemma TallySkippedAdvance(env: Env, naming: Naming, docs: seq<Doc>, i: nat)
    requires i < |docs|
    ensures TallyOf(env, naming, docs[..i + 1]).skipped ==
              TallyOf(env, naming, docs[..i]).skipped + (if HasCode(docs[i]) then 0 else 1)
  {
    TallyStep(env, naming, docs, i);
  }

  /** Every document is counted once: saved, an error, or skipped. */
  lemma {:induction false} TallyAccounts(env: Env, naming: Naming, docs: seq<Doc>)
    ensures var t := TallyOf(env, naming, docs); t.saved + t.errors + t.skipped == |docs|
    decreases |docs|
  {
    if |docs| > 0 {
      TallyAccounts(env, naming, docs[..|docs| - 1]);
    }
  }

  /** There are never more files than saves: a file saved under an existing name replaces it. */
  lemma {:induction false} TallyFilesAtMostSaved(env: Env, naming: Naming, docs: seq<Doc>)
    ensures |TallyOf(env, naming, docs).files| <= TallyOf(env, naming, docs).saved
    decreases |docs|
  {
    if |docs| > 0 {
      var front := docs[..|docs| - 1];
      TallyFilesAtMostSaved(env, naming, front);
      var t := TallyOf(env, naming, front);
      match ProcessDoc(env, naming, docs[|docs| - 1], |docs| - 1)
      case Saved(path, content) =>
        var files := t.files[path := content];
        SetCardinalityBound(files.Keys, t.files.Keys + {path});
        assert |files.Keys| == |files|;
      case _ =>
    }
  }

  /** Exactly the documents without code are skipped. */
  lemma {:induction false} TallySkipsDocsWithoutCode(env: Env, naming: Naming, docs: seq<Doc>)
    ensures TallyOf(env, naming, docs).skipped == |SkippedSet(docs)|
    decreases |docs|
  {
    if |docs| > 0 {
      var n := |docs| - 1;
      TallySkipsDocsWithoutCode(env, naming, docs[..n]);
      TallySkippedAdvance(env, naming, docs, n);
      assert docs[..n + 1] == docs;
      SkippedSetGrows(docs);
    }
  }

  /** The positions of the documents without code. */
  function SkippedSet(docs: seq<Doc>): set<nat> {
    set i: nat | i < |docs| && !HasCode(docs[i])
  }

  /** One more document adds its position exactly when it has no code. */
  lemma SkippedSetGrows(docs: seq<Doc>)
    requires |docs| > 0
    ensures var n := |docs| - 1;
            |SkippedSet(docs)| == |SkippedSet(docs[..n])| + (if HasCode(docs[n]) then 0 else 1)
  {
    var n := |docs| - 1;
    var front := docs[..n];
    forall i: nat | i < n ensures front[i] == docs[i] {
    }
    assert n !in SkippedSet(front);
    if HasCode(docs[n]) {
      assert SkippedSet(docs) == SkippedSet(front);
    } else {
      assert SkippedSet(docs) == SkippedSet(front) + {n};
    }
  }

  lemma SetCardinalityBound<T>(a: set<T>, b: set<T>)
    requires a <= b
    ensures |a| <= |b|
  {
    assert b == a + (b - a);
  }

  /**
   * The body of the loop for one document: skip it, or write its file and
   * report the path and the text written, or report the failure to open it.
   */
  method HandleDoc(env: Env, naming: Naming, doc: Doc, i: nat) returns (outcome: Outcome)
    ensures outcome == ProcessDoc(env, naming, doc, i)
  {
    if !HasCode(doc) {
      return Skipped;
    }
    var d := DetailsOf(doc);
    var date := DateString(env, doc, i);
    var path := SavePath(env, naming, doc, i);
    if env.canWrite(path) {
      var content := SaveFile(d, date, doc.id, doc.projectCode.value);
      outcome := Saved(path, content);
    } else {
      outcome := Failed;
    }
  }

  /**
   * `download_submissions`: the loop over the documents. Its two counters and
   * the files written are kept together in one `Tally`, with the skips.
   */
  method DownloadSubmissions(env: Env, naming: Naming, docs: seq<Doc>) returns (saved: nat, errors: nat, files: map<string, string>)
    ensures saved == TallyOf(env, naming, docs).saved
    ensures errors == TallyOf(env, naming, docs).errors
    ensures files == TallyOf(env, naming, docs).files
  {
    var tally := Tally(0, 0, 0, map[]);
    var i := 0;
    while i < |docs|
      invariant 0 <= i <= |docs|
      invariant tally == TallyOf(env, naming, docs[..i])
    {
      var outcome := HandleDoc(env, naming, docs[i], i);
      TallyStep(env, naming, docs, i);
      tally := Step(tally, outcome);
      i := i + 1;
    }
    saved, errors, files := tally.saved, tally.errors, tally.files;
    assert docs[..|docs|] == docs;
  }
}
