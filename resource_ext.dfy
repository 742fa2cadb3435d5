/** The deterministic parts of the resource helpers: the file name `loge` prints for a
    stack frame, the global switch that turns `loge` on and off, and the status-bar
    height lookup. */
module ResourceExt {
  import opened Jvm

  // ---------------------------------------------------------------------------
  // getFileName
  // ---------------------------------------------------------------------------

  /** The fields of a `StackTraceElement` that `getFileName` reads. */
  datatype StackTraceElement = StackTraceElement(className: string, fileName: Option<string>)

  /** The delimiter `getFileName` passes to Kotlin's `String.split`: the two characters
      backslash and dot, matched literally (it is a plain string, not a regex). */
  const Delimiter: string := "\\."

  /** `d` occurs in `s` at position `j`. */
  predicate OccursAt(s: string, d: string, j: int)
  {
    0 <= j && j + |d| <= |s| && s[j..j + |d|] == d
  }

  /** `d` occurs nowhere in `s`. */
  ghost predicate NoOccurrence(s: string, d: string)
  {
    forall j :: !OccursAt(s, d, j)
  }

  /** An occurrence in `s[1..]` is an occurrence in `s` one position further on. */
  lemma OccursInTail(s: string, d: string, j: int)
    requires |s| > 0 && 0 <= j
    ensures OccursAt(s[1..], d, j) <==> OccursAt(s, d, j + 1)
  {
    if 0 <= j && j + |d| <= |s[1..]| {
      assert s[1..][j..j + |d|] == s[j + 1..j + 1 + |d|];
    }
  }

  /** `String.indexOf(d)`: the first position where `d` occurs in `s`, or -1. */
  function IndexOfString(s: string, d: string): (k: int)
    requires |d| > 0
    ensures -1 <= k <= |s|
    ensures 0 <= k ==> OccursAt(s, d, k) && forall j :: 0 <= j < k ==> !OccursAt(s, d, j)
    ensures k == -1 ==> NoOccurrence(s, d)
    decreases |s|
  {
    if |s| < |d| then -1
    else if s[..|d|] == d then 0
    else
      var k := IndexOfString(s[1..], d);
      assert forall j :: 1 <= j ==> (OccursAt(s, d, j) <==> OccursAt(s[1..], d, j - 1)) by {
        forall j | 1 <= j ensures OccursAt(s, d, j) <==> OccursAt(s[1..], d, j - 1) {
          OccursInTail(s, d, j - 1);
        }
      }
      assert !OccursAt(s, d, 0);
      if k == -1 then -1 else k + 1
  }

  /** Kotlin's `split(d)` with its default arguments: the pieces between the
      non-overlapping occurrences of `d`, found from the left; never empty. */
  function Split(s: string, d: string): (parts: seq<string>)
    requires |d| > 0
    ensures |parts| >= 1
    decreases |s|
  {
    var k := IndexOfString(s, d);
    if k < 0 then [s] else [s[..k]] + Split(s[k + |d|..], d)
  }

  /** `String.indexOf(c)`: the first position of `c` in `s`, or -1. */
  function IndexOfChar(s: string, c: char): (k: int)
    ensures -1 <= k < |s|
    ensures 0 <= k ==> s[k] == c && c !in s[..k]
    ensures k == -1 ==> c !in s
  {
    if s == [] then -1
    else if s[0] == c then 0
    else
      var k := IndexOfChar(s[1..], c);
      assert 0 <= k ==> s[1..][..k] == s[1..k + 1];
      if k == -1 then -1 else k + 1
  }

  /** `getFileName(targetElement)`. */
  function GetFileName(e: StackTraceElement): (r: string)
    ensures e.fileName.Some? ==> r == e.fileName.value
    ensures e.fileName.None? ==> |r| >= 5 && r[|r| - 5..] == ".java"
  {
    if e.fileName.Some? then e.fileName.value
    else
      var classInfo := Split(e.className, Delimiter);
      var className := if |classInfo| > 0 then classInfo[|classInfo| - 1] else e.className;
      var index := IndexOfChar(className, '$');
      var truncated := if index != -1 then className[..index] else className;
      truncated + ".java"
  }

  /** A string without the delimiter splits into itself alone. */
  lemma SplitWithoutDelimiter(s: string, d: string)
    requires |d| > 0
    requires NoOccurrence(s, d)
    ensures Split(s, d) == [s]
  {
  }

  /** The last piece of a split contains no occurrence of the delimiter. */
  lemma {:induction false} SplitLastHasNoDelimiter(s: string, d: string)
    requires |d| > 0
    ensures NoOccurrence(Split(s, d)[|Split(s, d)| - 1], d)
    decreases |s|
  {
    var k := IndexOfString(s, d);
    if 0 <= k {
      SplitLastHasNoDelimiter(s[k + |d|..], d);
    }
  }

  /** A frame that carries its file name reports it unchanged. */
  lemma FileNameKept(className: string, fileName: string)
    ensures GetFileName(StackTraceElement(className, Some(fileName))) == fileName
  {
  }

  /** The part of `s` before its first `$`: all of `s` when it has none. */
  function CutAtDollar(s: string): (t: string)
    ensures t <= s
    ensures '$' !in t
    ensures '$' !in s ==> t == s
    ensures '$' in s ==> |t| < |s| && s[|t|] == '$'
  {
    if '$' in s then s[..IndexOfChar(s, '$')] else s
  }

  /** Otherwise the result is a class segment followed by ".java": the last piece of
      the class name split at the delimiter, cut before its first `$`. That segment has
      no `$` and no delimiter. */
  lemma {:induction false} FileNameFromClass(className: string)
    ensures var r := GetFileName(StackTraceElement(className, None));
      var parts := Split(className, Delimiter);
      && |r| >= 5
      && r[|r| - 5..] == ".java"
      && r[..|r| - 5] == CutAtDollar(parts[|parts| - 1])
      && '$' !in r[..|r| - 5]
      && NoOccurrence(r[..|r| - 5], Delimiter)
  {
    var parts := Split(className, Delimiter);
    var last := parts[|parts| - 1];
    FileNameIsCut(className);
    OccurrencesOfCut(last);
    SplitLastHasNoDelimiter(className, Delimiter);
    var r := GetFileName(StackTraceElement(className, None));
    assert r[..|r| - 5] == CutAtDollar(last);
  }

  /** Without a file name, `getFileName` gives the cut last piece followed by ".java". */
  lemma FileNameIsCut(className: string)
    ensures var parts := Split(className, Delimiter);
      GetFileName(StackTraceElement(className, None)) == CutAtDollar(parts[|parts| - 1]) + ".java"
  {
    var parts := Split(className, Delimiter);
    var last := parts[|parts| - 1];
    var index := IndexOfChar(last, '$');
    var truncated := if index != -1 then last[..index] else last;
    assert GetFileName(StackTraceElement(className, None)) == truncated + ".java";
    assert (index != -1) == ('$' in last);
    assert CutAtDollar(last) == truncated;
  }

  /** Every occurrence of the delimiter in the cut is one in the uncut string. */
  lemma OccurrencesOfCut(s: string)
    ensures forall j :: OccursAt(CutAtDollar(s), Delimiter, j) ==> OccursAt(s, Delimiter, j)
  {
    forall j | OccursAt(CutAtDollar(s), Delimiter, j) ensures OccursAt(s, Delimiter, j) {
      OccursInPrefix(CutAtDollar(s), s, Delimiter, j);
    }
  }

  /** A class name without the literal delimiter, such as any dotted name, is kept
      whole up to its first `$`: the package prefix stays in the file name. */
  lemma PackagePrefixKept(className: string)
    requires NoOccurrence(className, Delimiter)
    ensures GetFileName(StackTraceElement(className, None)) == CutAtDollar(className) + ".java"
  {
    SplitWithoutDelimiter(className, Delimiter);
  }

  /** An occurrence in a prefix is an occurrence in the whole string. */
  lemma OccursInPrefix(t: string, s: string, d: string, j: int)
    requires t <= s
    requires OccursAt(t, d, j)
    ensures OccursAt(s, d, j)
  {
    assert t[j..j + |d|] == s[j..j + |d|];
  }

  /** A dotted class name never contains backslash-dot, so its package prefix is kept:
      `a.b.C$1` becomes `a.b.C.java`. */
  lemma DottedPrefixKept()
    ensures GetFileName(StackTraceElement("a.b.C$1", None)) == "a.b.C.java"
  {
    var e := StackTraceElement("a.b.C$1", None);
    DottedNameUndelimited();
    PackagePrefixKept(e.className);
    DottedNameCut();
    assert GetFileName(e) == "a.b.C" + ".java";
    assert "a.b.C" + ".java" == "a.b.C.java";
  }

  lemma DottedNameUndelimited()
    ensures NoOccurrence("a.b.C$1", Delimiter)
  {
    var cn := "a.b.C$1";
    forall j ensures !OccursAt(cn, Delimiter, j) {
      if 0 <= j && j + 2 <= |cn| {
        assert cn[j..j + 2][0] == cn[j];
      }
    }
  }

  lemma DottedNameCut()
    ensures CutAtDollar("a.b.C$1") == "a.b.C"
  {
    var cn := "a.b.C$1";
    assert cn[5] == '$' && '$' !in cn[..5];
  }

  // ---------------------------------------------------------------------------
  // The log switch and loge
  // ---------------------------------------------------------------------------

  /** `android.util.Log` priority levels, the values of `@LogLevel`. */
  const Verbose: int := 2
  const Debug: int := 3
  const Info: int := 4
  const Warn: int := 5
  const Error: int := 6
  const Assert: int := 7

  /** One `Log.e(tag, message)` call `loge` makes; the tag's stack-trace head is not
      modelled, only the optional distinguishing tag. */
  datatype LogLine = LogLine(distinguishTag: Option<string>, message: string)

  /** The file-level `isLog` switch and the lines `loge` has written. */
  class LogSwitch {
    var isLog: bool
    var written: seq<LogLine>

    constructor ()
      ensures !isLog && written == []
    {
      isLog := false;
      written := [];
    }

    /** `isPrintLog()`. */
    method IsPrintLog() returns (b: bool)
      ensures b == isLog
    {
      b := isLog;
    }

    /** `isPrintLog(isPrintLog)`. */
    method SetPrintLog(b: bool)
      modifies this`isLog
      ensures isLog == b
    {
      isLog := b;
    }

    /** `loge(distinguishTag, level)` on `message`: nothing while the switch is off,
        and nothing for a level outside the six `@LogLevel` values. */
    method Loge(message: string, distinguishTag: Option<string>, level: Option<int>)
      modifies this`written
      ensures written == old(written) +
        if isLog && level.Some? && level.value in {Error, Assert, Debug, Info, Verbose, Warn}
        then [LogLine(distinguishTag, message)] else []
    {
      var on := IsPrintLog();
      if on {
        if level.Some? && level.value in {Error, Assert, Debug, Info, Verbose, Warn} {
          written := written + [LogLine(distinguishTag, message)];
        }
      }
    }
  }

  /** Setting the switch and reading it back gives the value set; by default `loge`
      writes nothing. */
  method LogSwitchScenario(b: bool, message: string) returns (readBack: bool, writtenByDefault: seq<LogLine>)
    ensures readBack == b
    ensures writtenByDefault == []
  {
    var log := new LogSwitch();
    log.Loge(message, None, Some(Error));
    writtenByDefault := log.written;
    log.SetPrintLog(b);
    readBack := log.IsPrintLog();
  }

  // ---------------------------------------------------------------------------
  // getStatusBarHeight
  // ---------------------------------------------------------------------------

  /** `getStatusBarHeight`: `resourceId` is what `getIdentifier("status_bar_height",
      "dimen", "android")` returned and `pixelSize` the dimension lookup. */
  function StatusBarHeight(resourceId: int, pixelSize: int -> int): (h: int)
    ensures resourceId <= 0 ==> h == 0
    ensures resourceId > 0 ==> h == pixelSize(resourceId)
  {
    if resourceId > 0 then pixelSize(resourceId) else 0
  }
}
