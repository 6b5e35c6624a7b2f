/**
 * The `#file NAME` / `#load NAME` console directive: the named file's lines are appended to the
 * code buffer, comment lines skipped, within the buffer's capacity, and trailing newlines and
 * blanks are then cut so that the last line does not leave a block open. The file system is a
 * map from names to the lines `fgets` returns (each at most 1023 characters).
 */
module FileDirective {

  /** The prefix length of both directive words. */
  const DIRECTIVE_LENGTH: nat := 5

  /** `strncmp(line, "#file", 5) == 0 || strncmp(line, "#load", 5) == 0`. */
  predicate IsFileDirective(line: string) {
    "#file" <= line || "#load" <= line
  }

  /** Characters trimmed from both ends of a file name. */
  predicate IsNameBlank(c: char) {
    c == ' ' || c == '\t' || c == '"'
  }

  /** Characters that lead a line before its first real character. */
  predicate IsIndent(c: char) {
    c == ' ' || c == '\t'
  }

  /** Characters cut from the end of the loaded code. */
  predicate IsTrailingBlank(c: char) {
    c == '\n' || c == ' ' || c == '\t'
  }

  predicate HasNameChar(s: string) {
    exists i :: 0 <= i < |s| && !IsNameBlank(s[i])
  }

  predicate HasCodeChar(s: string) {
    exists i :: 0 <= i < |s| && !IsTrailingBlank(s[i])
  }

  /** The name with leading blanks dropped. */
  function DropLeading(s: string): string {
    if s != [] && IsNameBlank(s[0]) then DropLeading(s[1..]) else s
  }

  /** The name with trailing blanks dropped. */
  function DropTrailing(s: string): string {
    if s != [] && IsNameBlank(s[|s| - 1]) then DropTrailing(s[..|s| - 1]) else s
  }

  /** The file name a directive argument denotes: blanks and quotes trimmed from both ends. */
  function TrimName(s: string): string {
    DropTrailing(DropLeading(s))
  }

  /** A slice with only blanks outside it and no blank at either end is the trimmed name. */
  lemma {:induction false} TrimNameOf(s: string, lo: nat, hi: nat)
    requires lo < hi <= |s|
    requires forall i :: 0 <= i < lo ==> IsNameBlank(s[i])
    requires forall i :: hi <= i < |s| ==> IsNameBlank(s[i])
    requires !IsNameBlank(s[lo]) && !IsNameBlank(s[hi - 1])
    ensures TrimName(s) == s[lo..hi]
  {
    DropLeadingOf(s, lo);
    assert s[lo..][..hi - lo] == s[lo..hi];
    DropTrailingOf(s[lo..], hi - lo);
  }

  lemma {:induction false} DropLeadingOf(s: string, lo: nat)
    requires lo < |s| && !IsNameBlank(s[lo])
    requires forall i :: 0 <= i < lo ==> IsNameBlank(s[i])
    ensures DropLeading(s) == s[lo..]
    decreases lo
  {
    if lo > 0 {
      DropLeadingOf(s[1..], lo - 1);
    }
  }

  lemma {:induction false} DropTrailingOf(s: string, hi: nat)
    requires 0 < hi <= |s| && !IsNameBlank(s[hi - 1])
    requires forall i :: hi <= i < |s| ==> IsNameBlank(s[i])
    ensures DropTrailing(s) == s[..hi]
    decreases |s|
  {
    if hi < |s| {
      DropTrailingOf(s[..|s| - 1], hi);
      assert s[..|s| - 1][..hi] == s[..hi];
    }
  }

  /** Trimming a trimmed name changes nothing. */
  lemma TrimNameIdempotent(s: string, lo: nat, hi: nat)
    requires lo < hi <= |s|
    requires forall i :: 0 <= i < lo ==> IsNameBlank(s[i])
    requires forall i :: hi <= i < |s| ==> IsNameBlank(s[i])
    requires !IsNameBlank(s[lo]) && !IsNameBlank(s[hi - 1])
    ensures TrimName(TrimName(s)) == TrimName(s)
  {
    TrimNameOf(s, lo, hi);
    var t := s[lo..hi];
    TrimNameOf(t, 0, |t|);
  }

  /**
   * The two trimming loops on the file name: the name pointer steps over leading blanks and
   * quotes, then trailing ones are overwritten with NUL. The name is `arg[lo..hi]`. An argument
   * of nothing but blanks would make the second loop read before the string.
   */
  method TrimFilename(arg: string) returns (lo: nat, hi: nat)
    requires HasNameChar(arg)
    ensures lo < hi <= |arg|
    ensures forall i :: 0 <= i < lo ==> IsNameBlank(arg[i])
    ensures forall i :: hi <= i < |arg| ==> IsNameBlank(arg[i])
    ensures !IsNameBlank(arg[lo]) && !IsNameBlank(arg[hi - 1])
    ensures arg[lo..hi] == TrimName(arg)
  {
    lo := 0;
    while lo < |arg| && IsNameBlank(arg[lo])
      invariant lo <= |arg|
      invariant forall i :: 0 <= i < lo ==> IsNameBlank(arg[i])
    {
      lo := lo + 1;
    }
    assert lo < |arg| by {
      var k :| 0 <= k < |arg| && !IsNameBlank(arg[k]);
      assert k >= lo;
    }
    hi := |arg|;
    while IsNameBlank(arg[hi - 1])
      invariant lo < hi <= |arg|
      decreases hi
      invariant forall i :: hi <= i < |arg| ==> IsNameBlank(arg[i])
    {
      hi := hi - 1;
    }
    TrimNameOf(arg, lo, hi);
  }

  /** The comment test as intended: the first character after leading spaces and tabs is '#'. */
  predicate IsCommentLine(line: string) {
    exists i :: 0 <= i < |line| && line[i] == '#' && forall j :: 0 <= j < i ==> IsIndent(line[j])
  }

  /** The comment test as the source computes it: only a '#' in the first column counts. */
  predicate FirstColumnComment(line: string) {
    |line| > 0 && line[0] == '#'
  }

  /**
   * The comment test as written: `c` holds the first character, and on a space or tab the loop
   * increments `c` itself rather than an index into the line, so it next looks at '!' or '\n'.
   */
  method ClassifyLineAsWritten(line: string) returns (isComment: bool)
    ensures isComment == FirstColumnComment(line)
  {
    var c := if |line| > 0 then line[0] else '\0';
    isComment := false;
    while true
      invariant c == (if |line| > 0 then line[0] else '\0') || (|line| > 0 && IsIndent(line[0]) && (c == '!' || c == '\n'))
      decreases if IsIndent(c) then 1 else 0
    {
      if c == '#' {
        isComment := true;
        break;
      } else if c == '\n' {
        break;
      } else if IsIndent(c) {
        c := (c as int + 1) as char;
        continue;
      } else {
        break;
      }
    }
  }

  /** The comment test as intended: step over spaces and tabs, then look for '#'. */
  method ClassifyLine(line: string) returns (isComment: bool)
    ensures isComment == IsCommentLine(line)
  {
    var i := 0;
    isComment := false;
    while i < |line|
      invariant 0 <= i <= |line|
      invariant forall j :: 0 <= j < i ==> IsIndent(line[j])
      invariant !isComment
    {
      var c := line[i];
      if c == '#' {
        isComment := true;
        return;
      } else if IsIndent(c) {
        i := i + 1;
      } else {
        break;
      }
    }
    assert forall k :: 0 <= k < |line| && line[k] == '#' ==> i < k && !IsIndent(line[i]);
  }

  /** An indented comment: the source keeps it, the intended test drops it. */
  lemma IndentedCommentKept()
    ensures !FirstColumnComment("  # note\n") && IsCommentLine("  # note\n")
  {
    assert "  # note\n"[2] == '#';
  }

  /** Which comment test the load applies: the source's first-column test, as written, or the
      intended test after leading spaces and tabs. */
  datatype CommentRule = FirstColumn | AfterIndent

  predicate IsComment(rule: CommentRule, line: string) {
    match rule
    case FirstColumn => FirstColumnComment(line)
    case AfterIndent => IsCommentLine(line)
  }

  /** The comment test of the reading loop, under either rule. */
  method Classify(rule: CommentRule, line: string) returns (isComment: bool)
    ensures isComment == IsComment(rule, line)
  {
    if rule == FirstColumn {
      isComment := ClassifyLineAsWritten(line);
    } else {
      isComment := ClassifyLine(line);
    }
  }

  /** The lines of a file that are not comments. */
  function Kept(rule: CommentRule, lines: seq<string>): seq<string> {
    if lines == [] then []
    else
      var last := lines[|lines| - 1];
      Kept(rule, lines[..|lines| - 1]) + if IsComment(rule, last) then [] else [last]
  }

  /** Lines joined end to end (each keeps its own newline). */
  function Concat(ls: seq<string>): string {
    if ls == [] then [] else Concat(ls[..|ls| - 1]) + ls[|ls| - 1]
  }

  /** One more line of the file adds its text, unless it is a comment. */
  lemma KeptStep(rule: CommentRule, lines: seq<string>, k: nat)
    requires k < |lines|
    ensures Concat(Kept(rule, lines[..k + 1])) ==
      Concat(Kept(rule, lines[..k])) + if IsComment(rule, lines[k]) then [] else lines[k]
  {
    assert lines[..k + 1][..k] == lines[..k];
    var ks := Kept(rule, lines[..k]);
    if !IsComment(rule, lines[k]) {
      assert (ks + [lines[k]])[..|ks|] == ks;
    } else {
      assert ks + [] == ks;
    }
  }

  /**
   * The reading loop: every line that is not a comment is appended to the code buffer, after
   * checking that the buffer of `maxLength` bytes still has room for it and its NUL; the first
   * line without room stops the load. `stop` is the index of that line.
   */
  method LoadLines(rule: CommentRule, code: string, lines: seq<string>, maxLength: nat)
    returns (ok: bool, out: string, ghost stop: nat)
    requires |code| < maxLength
    ensures |out| < maxLength
    ensures ok <==> |code| + |Concat(Kept(rule, lines))| < maxLength
    ensures ok ==> out == code + Concat(Kept(rule, lines))
    ensures !ok ==>
      stop < |lines| && out == code + Concat(Kept(rule, lines[..stop])) &&
      !IsComment(rule, lines[stop]) && |out| + |lines[stop]| >= maxLength
  {
    out, stop := code, 0;
    var k := 0;
    while k < |lines|
      invariant k <= |lines| && out == code + Concat(Kept(rule, lines[..k])) && |out| < maxLength
    {
      var line := lines[k];
      var isComment := Classify(rule, line);
      KeptAppend(rule, code, lines, k, out);
      if !isComment {
        if |out| + |line| > maxLength - 1 {
          ok, stop := false, k;
          LoadOverflows(rule, code, lines, k, maxLength);
          return;
        }
        out := out + line;
      }
      k := k + 1;
    }
    assert lines[..k] == lines;
    ok := true;
  }

  /**
   * The loop after loading: cut newlines, spaces and tabs from the end of the code. On code with
   * nothing else in it the source would read before the buffer.
   */
  method StripTrailing(code: string) returns (out: string)
    requires HasCodeChar(code)
    ensures out <= code && out != [] && !IsTrailingBlank(out[|out| - 1])
    ensures forall i :: |out| <= i < |code| ==> IsTrailingBlank(code[i])
  {
    var n := |code|;
    while IsTrailingBlank(code[n - 1])
      invariant 0 < n <= |code|
      decreases n
      invariant forall i :: n <= i < |code| ==> IsTrailingBlank(code[i])
      invariant exists i :: 0 <= i < n && !IsTrailingBlank(code[i])
    {
      n := n - 1;
    }
    out := code[..n];
  }

  /** Only one prefix ends in a non-blank character and leaves nothing but blanks after it. */
  lemma StripUnique(code: string, a: string, b: string)
    requires a <= code && a != [] && !IsTrailingBlank(a[|a| - 1])
    requires forall i :: |a| <= i < |code| ==> IsTrailingBlank(code[i])
    requires b <= code && b != [] && !IsTrailingBlank(b[|b| - 1])
    requires forall i :: |b| <= i < |code| ==> IsTrailingBlank(code[i])
    ensures a == b
  {
  }

  /** What the directive did. */
  datatype Outcome =
    | NotFileDirective   // another line: the rest of the command dispatch handles it
    | CannotOpen         // no file of that name
    | TooLarge           // a line did not fit the code buffer
    | Loaded             // the file was appended and the end of the code stripped

  /** The text a directive argument loads, when the file exists and fits. */
  function LoadedText(rule: CommentRule, code: string, lines: seq<string>): string {
    code + Concat(Kept(rule, lines))
  }

  /**
   * The `#file` / `#load` branch of `mirb_hostbased_command`: trim the name, look it up, load its
   * lines within the capacity `maxLength` of the code buffer, and strip the end of the code. The
   * source applies the comment test `FirstColumn`; `AfterIndent` is the intended one. `stop` is
   * the line that did not fit.
   */
  method FileCommand(rule: CommentRule, code: string, lastLine: string, maxLength: nat, files: map<string, seq<string>>)
    returns (o: Outcome, out: string, ghost stop: nat)
    requires |code| < maxLength
    requires IsFileDirective(lastLine) ==> HasNameChar(lastLine[DIRECTIVE_LENGTH..])
    requires IsFileDirective(lastLine) && TrimName(lastLine[DIRECTIVE_LENGTH..]) in files &&
             |LoadedText(rule, code, files[TrimName(lastLine[DIRECTIVE_LENGTH..])])| < maxLength ==>
      HasCodeChar(LoadedText(rule, code, files[TrimName(lastLine[DIRECTIVE_LENGTH..])]))
    ensures o == NotFileDirective <==> !IsFileDirective(lastLine)
    ensures o == NotFileDirective || o == CannotOpen ==> out == code
    ensures o == CannotOpen <==> IsFileDirective(lastLine) && TrimName(lastLine[DIRECTIVE_LENGTH..]) !in files
    ensures |out| < maxLength
    ensures o == TooLarge || o == Loaded ==>
      var lines := files[TrimName(lastLine[DIRECTIVE_LENGTH..])];
      (o == Loaded <==> |LoadedText(rule, code, lines)| < maxLength) &&
      (o == TooLarge ==>
        stop < |lines| && out == code + Concat(Kept(rule, lines[..stop])) &&
        !IsComment(rule, lines[stop]) && |out| + |lines[stop]| >= maxLength &&
        code <= out && out <= LoadedText(rule, code, lines)) &&
      (o == Loaded ==>
        out <= LoadedText(rule, code, lines) && out != [] && !IsTrailingBlank(out[|out| - 1]) &&
        forall i :: |out| <= i < |LoadedText(rule, code, lines)| ==> IsTrailingBlank(LoadedText(rule, code, lines)[i]))
  {
    stop := 0;
    if !IsFileDirective(lastLine) {
      return NotFileDirective, code, stop;
    }
    var arg := lastLine[DIRECTIVE_LENGTH..];
    var lo, hi := TrimFilename(arg);
    var name := arg[lo..hi];
    if name !in files {
      return CannotOpen, code, stop;
    }
    var lines := files[name];
    var ok, loaded;
    ok, loaded, stop := LoadLines(rule, code, lines, maxLength);
    if !ok {
      KeptPrefix(rule, lines, stop);
      return TooLarge, loaded, stop;
    }
    out := StripTrailing(loaded);
    o := Loaded;
  }

  /** Loading a one-line file appends that line unless the rule calls it a comment. */
  lemma OneLineLoaded(rule: CommentRule, code: string, line: string)
    ensures LoadedText(rule, code, [line]) == code + if IsComment(rule, line) then [] else line
  {
    var lines := [line];
    assert lines[..0] == [];
    if IsComment(rule, line) {
      assert Kept(rule, lines) == [];
    } else {
      assert Kept(rule, lines) == [line];
      assert Concat([line]) == Concat([line][..0]) + line;
    }
  }

  /** The indented comment of the finding: the source loads it, the intended test skips it. */
  lemma IndentedCommentLoaded(code: string)
    ensures LoadedText(FirstColumn, code, ["  # note\n"]) == code + "  # note\n"
    ensures LoadedText(AfterIndent, code, ["  # note\n"]) == code
  {
    IndentedCommentKept();
    OneLineLoaded(FirstColumn, code, "  # note\n");
    OneLineLoaded(AfterIndent, code, "  # note\n");
    assert code + [] == code;
  }

  /** The loaded text after one more line: the line joins it unless the rule calls it a
      comment. */
  lemma KeptAppend(rule: CommentRule, code: string, lines: seq<string>, k: nat, out: string)
    requires k < |lines| && out == code + Concat(Kept(rule, lines[..k]))
    ensures (if IsComment(rule, lines[k]) then out else out + lines[k]) == code + Concat(Kept(rule, lines[..k + 1]))
  {
    KeptStep(rule, lines, k);
  }

  /** A kept line that does not fit makes the whole kept text too long as well. */
  lemma LoadOverflows(rule: CommentRule, code: string, lines: seq<string>, k: nat, maxLength: nat)
    requires k < |lines| && !IsComment(rule, lines[k])
    requires |code| + |Concat(Kept(rule, lines[..k]))| + |lines[k]| >= maxLength
    ensures |code| + |Concat(Kept(rule, lines))| >= maxLength
  {
    KeptStep(rule, lines, k);
    KeptPrefix(rule, lines, k + 1);
  }

  /** The kept text of the first `k` lines starts the kept text of the whole file. */
  lemma {:induction false} KeptPrefix(rule: CommentRule, lines: seq<string>, k: nat)
    requires k <= |lines|
    ensures Concat(Kept(rule, lines[..k])) <= Concat(Kept(rule, lines))
    decreases |lines|
  {
    if k < |lines| {
      var n := |lines| - 1;
      KeptStep(rule, lines, n);
      assert lines[..n + 1] == lines;
      assert lines[..n][..k] == lines[..k];
      KeptPrefix(rule, lines[..n], k);
    } else {
      assert lines[..k] == lines;
    }
  }
}
