/** Lines of a commented JSON text, and taking the comments out. */
module ConfigText {
  import opened Json
  import opened Options

  /** Outside a string, inside one, or just after a backslash inside one. */
  datatype Mode = Outside | Inside | Escaped

  function After(mode: Mode, c: char): Mode {
    match mode
    case Outside => if c == '"' then Inside else Outside
    case Inside => if c == '\\' then Escaped else if c == '"' then Outside else Inside
    case Escaped => Inside
  }

  /** Where the comment of a line starts, from position `i` in `mode` on; the end of the line if it has none. */
  ghost function CommentAt(line: string, i: nat, mode: Mode): (n: nat)
    requires i <= |line|
    ensures i <= n <= |line|
    decreases |line| - i
  {
    if i == |line| then i
    else if mode == Outside && line[i] == '/' && i + 1 < |line| && line[i + 1] == '/' then i
    else CommentAt(line, i + 1, After(mode, line[i]))
  }

  ghost function Uncommented(line: string): string {
    line[..CommentAt(line, 0, Outside)]
  }

  /** The scanning loop, with its two flags. */
  method StripLine(line: string) returns (r: string)
    ensures r == Uncommented(line)
  {
    var inString, escaped := false, false;
    var i := 0;
    while i < |line|
      invariant i <= |line| && (escaped ==> inString)
      invariant CommentAt(line, 0, Outside) == CommentAt(line, i, if escaped then Escaped else if inString then Inside else Outside)
    {
      var c := line[i];
      if inString {
        if escaped {
          escaped := false;
        } else if c == '\\' {
          escaped := true;
        } else if c == '"' {
          inString := false;
        }
      } else if c == '"' {
        inString := true;
      } else if c == '/' && i + 1 < |line| && line[i + 1] == '/' {
        return line[..i];
      }
      i := i + 1;
    }
    r := line;
  }

  // ---- lines ----

  function BreakAt(s: string): (n: nat)
    ensures n <= |s| && (n < |s| ==> s[n] == '\n') && forall i | 0 <= i < n :: s[i] != '\n'
  {
    if s == "" || s[0] == '\n' then 0 else 1 + BreakAt(s[1..])
  }

  /** A line without the carriage return before its line break. */
  function Chopped(line: string): string {
    if line != "" && line[|line| - 1] == '\r' then line[..|line| - 1] else line
  }

  /** `str::lines`. */
  function Lines(s: string): seq<string>
    decreases |s|
  {
    if s == "" then []
    else if BreakAt(s) == |s| then [s]
    else [Chopped(s[..BreakAt(s)])] + Lines(s[BreakAt(s) + 1..])
  }

  ghost function UncommentedAll(lines: seq<string>): (r: seq<string>)
    ensures |r| == |lines|
  {
    if lines == [] then [] else [Uncommented(lines[0])] + UncommentedAll(lines[1..])
  }

  /** `join("\n")`. */
  function Joined(lines: seq<string>): string {
    if lines == [] then "" else if |lines| == 1 then lines[0] else lines[0] + "\n" + Joined(lines[1..])
  }

  ghost function Stripped(s: string): string {
    Joined(UncommentedAll(Lines(s)))
  }

  method StripLineComments(s: string) returns (r: string)
    ensures r == Stripped(s)
  {
    var lines := Lines(s);
    var kept: seq<string> := [];
    for i := 0 to |lines|
      invariant kept + UncommentedAll(lines[i..]) == UncommentedAll(lines)
    {
      var line := StripLine(lines[i]);
      kept := kept + [line];
    }
    assert kept == UncommentedAll(lines);
    r := Joined(kept);
  }

  // ---- texts without comments ----

  /** The mode after a text that starts outside strings, if no slash stands outside a string. */
  ghost function Scan(mode: Mode, s: string): Option<Mode>
    decreases |s|
  {
    if s == "" then Some(mode)
    else if mode == Outside && s[0] == '/' then None
    else Scan(After(mode, s[0]), s[1..])
  }

  /** A text that neither starts a comment nor leaves a string open. */
  ghost predicate Plain(s: string) {
    Scan(Outside, s) == Some(Outside)
  }

  lemma {:induction false} ScanAppend(mode: Mode, a: string, b: string)
    ensures Scan(mode, a + b) == if Scan(mode, a).Some? then Scan(Scan(mode, a).value, b) else None
    decreases |a|
  {
    if a == "" {
      assert a + b == b;
    } else {
      ScanAppend(After(mode, a[0]), a[1..], b);
      assert (a + b)[1..] == a[1..] + b;
    }
  }

  lemma {:induction false} PlainAppend(a: string, b: string)
    requires Plain(a) && Plain(b)
    ensures Plain(a + b)
  {
    ScanAppend(Outside, a, b);
  }

  lemma {:induction false} NoComment(line: string, i: nat, mode: Mode)
    requires i <= |line| && Scan(mode, line[i..]).Some?
    ensures CommentAt(line, i, mode) == |line|
    decreases |line| - i
  {
    if i < |line| {
      assert line[i..][1..] == line[i + 1..];
      NoComment(line, i + 1, After(mode, line[i]));
    }
  }

  lemma {:induction false} PlainUncommented(line: string)
    requires Plain(line)
    ensures Uncommented(line) == line
  {
    assert line[0..] == line;
    NoComment(line, 0, Outside);
  }

  /** Characters that stay outside strings. */
  lemma {:induction false} OutsidePlain(s: string)
    requires forall i | 0 <= i < |s| :: s[i] != '"' && s[i] != '/'
    ensures Plain(s)
  {
    if s != "" {
      OutsidePlain(s[1..]);
    }
  }

  lemma {:induction false} EscapeInside(s: string)
    ensures Scan(Inside, Escape(s)) == Some(Inside)
  {
    if s != "" {
      EscapeInside(s[1..]);
      ScanAppend(Inside, EscapeChar(s[0]), Escape(s[1..]));
      CharInside(s[0]);
    }
  }

  lemma {:induction false} EscapeStaysInside(c: char)
    ensures Scan(Inside, ['\\', c]) == Some(Inside)
  {
    assert ['\\', c][1..] == [c] && [c][1..] == "";
    assert Scan(Escaped, [c]) == Some(Inside);
  }

  lemma {:induction false} CharInside(c: char)
    ensures Scan(Inside, EscapeChar(c)) == Some(Inside)
  {
    hide Scan;
    var e := EscapeChar(c);
    if e[0] == '\\' {
      ScanAppend(Inside, e[..2], e[2..]);
      assert e == e[..2] + e[2..];
      assert e[..2] == ['\\', e[1]];
      EscapeStaysInside(e[1]);
      assert forall i | 0 <= i < |e[2..]| :: e[2..][i] != '"' && e[2..][i] != '\\';
      StaysInside(e[2..]);
    } else {
      StaysInside(e);
    }
  }

  lemma {:induction false} StaysInside(s: string)
    requires forall i | 0 <= i < |s| :: s[i] != '"' && s[i] != '\\'
    ensures Scan(Inside, s) == Some(Inside)
  {
    if s != "" {
      StaysInside(s[1..]);
    }
  }

  /** A quoted string is plain, whatever slashes, quotes and backslashes are in it. */
  lemma {:induction false} QuotePlain(s: string)
    ensures Plain(Quote(s))
  {
    EscapeInside(s);
    ScanAppend(Inside, Escape(s), "\"");
    assert Quote(s)[1..] == Escape(s) + "\"";
    assert "\""[1..] == "";
  }

  // ---- the lines of a text made of lines ----

  ghost predicate OneLine(s: string) {
    forall i | 0 <= i < |s| :: s[i] != '\n'
  }

  /** Each line with its line break. */
  ghost function Written(lines: seq<string>): string {
    if lines == [] then "" else lines[0] + "\n" + Written(lines[1..])
  }

  lemma {:induction false} BreakAfter(line: string, rest: string)
    requires OneLine(line)
    ensures BreakAt(line + "\n" + rest) == |line|
  {
    if line == "" {
      assert line + "\n" + rest == "\n" + rest;
    } else {
      BreakAfter(line[1..], rest);
      assert (line + "\n" + rest)[1..] == line[1..] + "\n" + rest;
    }
  }

  ghost function ChoppedAll(lines: seq<string>): (r: seq<string>)
    ensures |r| == |lines| && forall i | 0 <= i < |lines| :: r[i] == Chopped(lines[i])
  {
    seq(|lines|, i requires 0 <= i < |lines| => Chopped(lines[i]))
  }

  lemma {:induction false} LinesOfWritten(lines: seq<string>)
    requires forall i | 0 <= i < |lines| :: OneLine(lines[i])
    ensures Lines(Written(lines)) == ChoppedAll(lines)
  {
    if lines != [] {
      var text, rest := Written(lines), Written(lines[1..]);
      LinesOfWritten(lines[1..]);
      BreakAfter(lines[0], rest);
      assert text[..|lines[0]|] == lines[0] && text[|lines[0]| + 1..] == rest;
      assert ChoppedAll(lines) == [Chopped(lines[0])] + ChoppedAll(lines[1..]);
    }
  }

  lemma {:induction false} WrittenAppend(a: seq<string>, b: seq<string>)
    ensures Written(a + b) == Written(a) + Written(b)
  {
    if a == [] {
      assert a + b == b;
    } else {
      WrittenAppend(a[1..], b);
      assert (a + b)[1..] == a[1..] + b;
    }
  }

  /** Joining lines is writing them without the last break. */
  lemma {:induction false} JoinedWritten(lines: seq<string>)
    requires lines != []
    ensures Joined(lines) + "\n" == Written(lines)
  {
    if |lines| > 1 {
      JoinedWritten(lines[1..]);
    } else {
      assert Written(lines[1..]) == "";
    }
  }

  // ---- in plain terms ----

  /** The mode after a text, whatever comments are in it. */
  ghost function ModeAfter(mode: Mode, s: string): Mode
    decreases |s|
  {
    if s == "" then mode else ModeAfter(After(mode, s[0]), s[1..])
  }

  /** Two slashes at a place outside strings. */
  ghost predicate StartsComment(line: string, from: nat, mode: Mode, j: nat)
    requires from <= j <= |line|
  {
    j + 1 < |line| && line[j] == '/' && line[j + 1] == '/' && ModeAfter(mode, line[from..j]) == Outside
  }

  lemma {:induction false} CutAt(line: string, i: nat, mode: Mode)
    requires i <= |line|
    ensures var n := CommentAt(line, i, mode);
            (n < |line| ==> StartsComment(line, i, mode, n)) && forall j | i <= j < n :: !StartsComment(line, i, mode, j)
    decreases |line| - i
  {
    hide After;
    var n := CommentAt(line, i, mode);
    if i < n {
      CutAt(line, i + 1, After(mode, line[i]));
      forall j | i < j <= |line| ensures StartsComment(line, i, mode, j) <==> StartsComment(line, i + 1, After(mode, line[i]), j) {
        assert line[i..j][1..] == line[i + 1..j];
      }
    }
  }

  /** A line is cut before the first two slashes in a row outside a string; a single slash, and slashes in strings, stay. */
  lemma {:induction false} CutExactly(line: string)
    ensures var n := |Uncommented(line)|;
            && Uncommented(line) == line[..n]
            && (n < |line| ==> StartsComment(line, 0, Outside, n))
            && forall j | 0 <= j < n :: !StartsComment(line, 0, Outside, j)
  {
    CutAt(line, 0, Outside);
  }

  /** The carriage return of a line break goes with it. */
  lemma {:induction false} ChoppedExactly(line: string, c: char)
    ensures Chopped(line + [c]) == if c == '\r' then line else line + [c]
  {
    assert (line + [c])[..|line|] == line;
  }
}
