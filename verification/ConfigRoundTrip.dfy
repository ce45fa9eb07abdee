/** The generated file, given back as the override, changes nothing. */
module ConfigRoundTrip {
  import opened Json
  import opened JsonRoundTrip
  import opened ConfigText
  import opened Config
  import opened Options

  /** Defaults a JSON document can hold, and types and descriptions without line breaks. */
  ghost predicate Sound(e: Entry) {
    match e
    case Leaf(d) => Proper(d.default) && OneLine(d.kind) && OneLine(d.description)
    case Section(children) => forall key | key in children && !HasDot(key) :: Sound(children[key])
  }

  /** The declared defaults as one JSON value. */
  ghost function Defaults(e: Entry): Value {
    match e
    case Leaf(d) => d.default
    case Section(children) => Obj(map key | key in children && !HasDot(key) :: Defaults(children[key]))
  }

  // ---- what is printed ----

  /** No control characters: one line, and nothing a line break takes off. */
  ghost predicate Printable(s: string) {
    forall i | 0 <= i < |s| :: s[i] >= ' '
  }

  ghost predicate Tidy(s: string) {
    Printable(s) && Plain(s)
  }

  lemma {:induction false} TidyAppend(a: string, b: string)
    requires Tidy(a) && Tidy(b)
    ensures Tidy(a + b)
  {
    PlainAppend(a, b);
  }

  lemma {:induction false} TidyOutside(s: string)
    requires forall i | 0 <= i < |s| :: s[i] != '"' && s[i] != '/' && s[i] >= ' '
    ensures Tidy(s)
  {
    OutsidePlain(s);
  }

  lemma {:induction false} EscapePrintable(s: string)
    ensures Printable(Escape(s))
  {
    hide EscapeChar;
    if s != "" {
      CharPrintable(s[0]);
      EscapePrintable(s[1..]);
    }
  }

  lemma {:induction false} CharPrintable(c: char)
    ensures Printable(EscapeChar(c))
  {
  }

  lemma {:induction false} QuoteTidy(s: string)
    ensures Tidy(Quote(s))
  {
    QuotePlain(s);
    EscapePrintable(s);
  }

  lemma {:induction false} NumberTidy(n: Number)
    requires Proper(Num(n))
    ensures Tidy(PrintNumber(n))
  {
    NumberChars(n);
    hide PrintNumber, OtherLiteral;
    TidyOutside(PrintNumber(n));
  }

  lemma {:induction false} PrintTidy(v: Value)
    requires Proper(v)
    ensures Tidy(Print(v))
    decreases v, 2
  {
    hide Tidy, Quote, PrintNumber;
    match v
    case Null => TidyOutside("null");
    case Bool(b) => TidyOutside(if b then "true" else "false");
    case Num(n) => NumberTidy(n);
    case Str(s) => QuoteTidy(s);
    case Arr(items) =>
      ItemsTidy(v, 0);
      TidyOutside("[");
      TidyOutside("]");
      TidyAppend("[", PrintItems(v, 0));
      TidyAppend("[" + PrintItems(v, 0), "]");
    case Obj(fields) =>
      var members := PrintMembers(v, Sorted(fields.Keys), 0);
      MembersTidy(v, Sorted(fields.Keys), 0);
      TidyOutside("{");
      TidyOutside("}");
      TidyAppend("{", members);
      TidyAppend("{" + members, "}");
  }

  lemma {:induction false} ItemsTidy(v: Value, i: nat)
    requires v.Arr? && Proper(v) && i <= |v.items|
    ensures Tidy(PrintItems(v, i))
    decreases v, 1, |v.items| - i
  {
    hide Tidy, Print;
    if i == |v.items| {
      TidyOutside("");
    } else {
      PrintTidy(v.items[i]);
      if i + 1 < |v.items| {
        ItemsTidy(v, i + 1);
        TidyOutside(",");
        TidyAppend(Print(v.items[i]), ",");
        TidyAppend(Print(v.items[i]) + ",", PrintItems(v, i + 1));
      }
    }
  }

  lemma {:induction false} MembersTidy(v: Value, names: seq<string>, i: nat)
    requires v.Obj? && Proper(v) && i <= |names|
    ensures Tidy(PrintMembers(v, names, i))
    decreases v, 1, |names| - i
  {
    hide Tidy, Print, Quote;
    if i == |names| || names[i] !in v.fields {
      TidyOutside("");
    } else {
      var name, value := Quote(names[i]), Print(v.fields[names[i]]);
      QuoteTidy(names[i]);
      PrintTidy(v.fields[names[i]]);
      TidyOutside(":");
      TidyAppend(name, ":");
      TidyAppend(name + ":", value);
      if i + 1 < |names| {
        MembersTidy(v, names, i + 1);
        TidyOutside(",");
        TidyAppend(name + ":" + value, ",");
        TidyAppend(name + ":" + value + ",", PrintMembers(v, names, i + 1));
      }
    }
  }

  // ---- the file without its comments ----

  /** The lines with the comments gone: a comment line leaves its indentation. */
  ghost function CleanFrom(e: Entry, names: seq<string>, i: nat, indent: nat): seq<string>
    requires e.Section? && i <= |names|
    decreases e, 0, |names| - i
  {
    if i == |names| || names[i] !in e.children then []
    else CleanLines(e.children[names[i]], names[i], indent, Comma(names, i)) + CleanFrom(e, names, i + 1, indent)
  }

  ghost function CleanLines(entry: Entry, key: string, indent: nat, comma: string): seq<string>
    decreases entry, 1, 0
  {
    match entry
    case Leaf(d) => [Pad(indent), DeclLine(key, d, indent, comma)]
    case Section(_) =>
      [Pad(indent) + Quote(key) + ": {"] + CleanFrom(entry, Names(entry), 0, indent + 1) + [Pad(indent) + "}" + comma]
  }

  /** `clean` is what stripping leaves of `lines`, line by line. */
  ghost predicate Cleans(lines: seq<string>, clean: seq<string>) {
    |lines| == |clean| && forall i | 0 <= i < |lines| :: OneLine(lines[i]) && Uncommented(Chopped(lines[i])) == clean[i]
  }

  lemma {:induction false} CleansAppend(a: seq<string>, a': seq<string>, b: seq<string>, b': seq<string>)
    requires Cleans(a, a') && Cleans(b, b')
    ensures Cleans(a + b, a' + b')
  {
  }

  lemma {:induction false} PadBlank(indent: nat)
    ensures forall i | 0 <= i < |Pad(indent)| :: Pad(indent)[i] == ' '
  {
    if indent != 0 {
      PadBlank(indent - 1);
    }
  }

  lemma {:induction false} TidyKept(line: string)
    requires Tidy(line)
    ensures OneLine(line) && Uncommented(Chopped(line)) == line
  {
    PlainUncommented(line);
  }

  lemma {:induction false} CommentFound(pad: string, text: string, i: nat)
    requires i <= |pad| && (forall j | 0 <= j < |pad| :: pad[j] == ' ') && |text| >= 2 && text[0] == '/' && text[1] == '/'
    ensures CommentAt(pad + text, i, Outside) == |pad|
    decreases |pad| - i
  {
    if i < |pad| {
      CommentFound(pad, text, i + 1);
    }
  }

  lemma {:induction false} CommentGone(d: Decl, indent: nat)
    requires OneLine(d.kind) && OneLine(d.description)
    ensures OneLine(CommentLine(d, indent)) && Uncommented(Chopped(CommentLine(d, indent))) == Pad(indent)
  {
    hide CommentAt, Pad;
    var pad, line := Pad(indent), CommentLine(d, indent);
    var text := "// " + d.kind + if d.description == "" then "" else " \U{2014} " + d.description;
    PadBlank(indent);
    assert line == pad + text;
    var chopped := Chopped(line);
    assert chopped == pad + chopped[|pad|..];
    CommentFound(pad, chopped[|pad|..], 0);
  }

  lemma {:induction false} DeclKept(key: string, d: Decl, indent: nat, comma: string)
    requires Proper(d.default) && (comma == "" || comma == ",")
    ensures Tidy(DeclLine(key, d, indent, comma))
  {
    hide Tidy, Quote, Print;
    PadBlank(indent);
    TidyOutside(Pad(indent));
    QuoteTidy(key);
    PrintTidy(d.default);
    TidyOutside(": ");
    TidyOutside(comma);
    TidyAppend(Pad(indent), Quote(key));
    TidyAppend(Pad(indent) + Quote(key), ": ");
    TidyAppend(Pad(indent) + Quote(key) + ": ", Print(d.default));
    TidyAppend(Pad(indent) + Quote(key) + ": " + Print(d.default), comma);
  }

  lemma {:induction false} FrameKept(key: string, indent: nat, comma: string)
    requires comma == "" || comma == ","
    ensures Tidy(Pad(indent) + Quote(key) + ": {") && Tidy(Pad(indent) + "}" + comma)
  {
    hide Quote;
    PadBlank(indent);
    TidyOutside(Pad(indent));
    QuoteTidy(key);
    TidyOutside(": {");
    TidyAppend(Pad(indent), Quote(key));
    TidyAppend(Pad(indent) + Quote(key), ": {");
    TidyOutside(Pad(indent) + "}" + comma);
  }

  lemma {:induction false} NamesReachable(e: Entry)
    requires e.Section?
    ensures forall i | 0 <= i < |Names(e)| :: Names(e)[i] in e.children && !HasDot(Names(e)[i])
  {
    SortedNames(Reachable(e));
  }

  lemma {:induction false} FromCleaned(e: Entry, names: seq<string>, i: nat, indent: nat)
    requires e.Section? && Sound(e) && i <= |names| && forall j | 0 <= j < |names| :: names[j] in e.children && !HasDot(names[j])
    ensures Cleans(LinesFrom(e, names, i, indent), CleanFrom(e, names, i, indent))
    decreases e, 0, |names| - i
  {
    if i < |names| {
      hide Cleans, EntryLines, CleanLines;
      EntryCleaned(e.children[names[i]], names[i], indent, Comma(names, i));
      FromCleaned(e, names, i + 1, indent);
      CleansAppend(EntryLines(e.children[names[i]], names[i], indent, Comma(names, i)), CleanLines(e.children[names[i]], names[i], indent, Comma(names, i)),
                   LinesFrom(e, names, i + 1, indent), CleanFrom(e, names, i + 1, indent));
    }
  }

  lemma {:induction false} OneCleaned(line: string)
    requires Tidy(line)
    ensures Cleans([line], [line])
  {
    TidyKept(line);
  }

  lemma {:induction false} EntryCleaned(entry: Entry, key: string, indent: nat, comma: string)
    requires Sound(entry) && (comma == "" || comma == ",")
    ensures Cleans(EntryLines(entry, key, indent, comma), CleanLines(entry, key, indent, comma))
    decreases entry, 1, 0
  {
    hide Tidy, Quote, Print, DeclLine, CommentLine;
    if entry.Leaf? {
      CommentGone(entry.decl, indent);
      DeclKept(key, entry.decl, indent, comma);
      TidyKept(DeclLine(key, entry.decl, indent, comma));
    } else {
      var head, foot := Pad(indent) + Quote(key) + ": {", Pad(indent) + "}" + comma;
      var inner, clean := LinesFrom(entry, Names(entry), 0, indent + 1), CleanFrom(entry, Names(entry), 0, indent + 1);
      FrameKept(key, indent, comma);
      OneCleaned(head);
      OneCleaned(foot);
      NamesReachable(entry);
      FromCleaned(entry, Names(entry), 0, indent + 1);
      CleansAppend([head], [head], inner, clean);
      CleansAppend([head] + inner, [head] + clean, [foot], [foot]);
    }
  }

  lemma {:induction false} UncommentedCleans(lines: seq<string>, clean: seq<string>)
    requires Cleans(lines, clean)
    ensures UncommentedAll(ChoppedAll(lines)) == clean
  {
    if lines != [] {
      UncommentedCleans(lines[1..], clean[1..]);
      assert ChoppedAll(lines)[1..] == ChoppedAll(lines[1..]);
    }
  }

  /** What stripping leaves of a written text. */
  lemma {:induction false} StrippedWritten(lines: seq<string>, clean: seq<string>)
    requires lines != [] && Cleans(lines, clean)
    ensures Stripped(Written(lines)) + "\n" == Written(clean)
  {
    LinesOfWritten(lines);
    UncommentedCleans(lines, clean);
    JoinedWritten(clean);
  }

  // ---- reading it ----

  ghost predicate AllBlank(s: string) {
    forall i | 0 <= i < |s| :: Blank(s[i])
  }

  lemma {:induction false} ReadSkips(blanks: string, s: string)
    requires AllBlank(blanks)
    ensures ReadValue(blanks + s) == ReadValue(s)
  {
    SkipAppend(blanks, s);
  }

  lemma {:induction false} MembersSkip(blanks: string, s: string, fields: map<string, Value>)
    requires AllBlank(blanks)
    ensures ReadMembers(blanks + s, fields) == ReadMembers(s, fields)
  {
    SkipAppend(blanks, s);
  }

  /** One member of the file: the blanks before it, its name, its value, and what comes after. */
  lemma {:induction false} EntryRead(blanks: string, key: string, text: string, x: Value, after: string, fields: map<string, Value>)
    requires AllBlank(blanks) && ReadValue(text) == Got(x, after)
    ensures ReadMembers(blanks + (Quote(key) + (":" + text)), fields) == AfterMember(SkipBlanks(after), fields[key := x])
  {
    hide ReadValue, ReadMembers, ReadString, Quote;
    var s := Quote(key) + (":" + text);
    MembersSkip(blanks, s, fields);
    QuoteBack(key, ":" + text);
    assert (":" + text)[1..] == text;
    MemberRead(s, key, ":" + text, x, after, fields);
  }

  lemma {:induction false} ObjectRead(s: string, fields: map<string, Value>)
    requires s != "" && Blank(s[0])
    ensures ReadValue("{" + s) == var u := SkipBlanks(s); if u != "" && u[0] == '}' then Got(Obj(map[]), u[1..]) else ReadMembers(s, map[])
  {
  }

  /** The members from `i` on, the closing brace, and what follows it. */
  ghost function Tail(e: Entry, names: seq<string>, i: nat, indent: nat, close: string, rest: string): string
    requires e.Section? && i <= |names|
  {
    Written(CleanFrom(e, names, i, indent)) + (close + ("}" + rest))
  }

  lemma {:induction false} TailStep(e: Entry, names: seq<string>, i: nat, indent: nat, close: string, rest: string)
    requires e.Section? && i < |names| && names[i] in e.children
    ensures Tail(e, names, i, indent, close, rest)
            == Written(CleanLines(e.children[names[i]], names[i], indent, Comma(names, i))) + Tail(e, names, i + 1, indent, close, rest)
  {
    hide Written, CleanLines;
    WrittenAppend(CleanLines(e.children[names[i]], names[i], indent, Comma(names, i)), CleanFrom(e, names, i + 1, indent));
  }

  lemma {:induction false} TailEnd(e: Entry, names: seq<string>, indent: nat, close: string, rest: string)
    requires e.Section? && AllBlank(close)
    ensures Tail(e, names, |names|, indent, close, rest) == close + ("}" + rest)
    ensures SkipBlanks("\n" + Tail(e, names, |names|, indent, close, rest)) == "}" + rest
  {
    assert Written([]) == "";
    SkipAppend(close, "}" + rest);
    SkipAppend("\n", close + ("}" + rest));
    NoBlanks("}" + rest);
  }

  /** After a value: a comma and the next line, or just the next line. */
  ghost function Next(comma: string, tail: string): string {
    comma + ("\n" + tail)
  }

  lemma {:induction false} LeafText(key: string, d: Decl, indent: nat, comma: string, tail: string)
    ensures "\n" + (Written([Pad(indent), DeclLine(key, d, indent, comma)]) + tail)
            == ("\n" + Pad(indent) + "\n" + Pad(indent)) + (Quote(key) + (":" + (" " + (Print(d.default) + Next(comma, tail)))))
  {
    hide Quote, Print, Pad;
    TwoLines(Pad(indent), DeclLine(key, d, indent, comma));
  }

  lemma {:induction false} SectionText(key: string, inner: seq<string>, indent: nat, comma: string, tail: string)
    ensures "\n" + (Written([Pad(indent) + Quote(key) + ": {"] + inner + [Pad(indent) + "}" + comma]) + tail)
            == ("\n" + Pad(indent)) + (Quote(key) + (":" + (" " + ("{" + ("\n" + (Written(inner) + (Pad(indent) + ("}" + Next(comma, tail)))))))))
  {
    hide Quote, Written, Pad;
    BlockWritten(Pad(indent) + Quote(key) + ": {", inner, Pad(indent) + "}" + comma);
  }

  lemma {:induction false} NextDelimited(comma: string, tail: string)
    requires comma == "" || comma == ","
    ensures Delimited(Next(comma, tail))
    ensures comma == "," ==> SkipBlanks(Next(comma, tail)) == "," + ("\n" + tail) && ("," + ("\n" + tail))[1..] == "\n" + tail
    ensures comma == "" ==> Next(comma, tail) == "\n" + tail
  {
  }

  lemma {:induction false} AfterComma(tail: string, fields: map<string, Value>)
    ensures AfterMember("," + ("\n" + tail), fields) == ReadMembers("\n" + tail, fields)
  {
    hide ReadMembers;
    assert ("," + ("\n" + tail))[1..] == "\n" + tail;
  }

  lemma {:induction false} AfterBrace(rest: string, fields: map<string, Value>)
    ensures AfterMember("}" + rest, fields) == Got(Obj(fields), rest)
  {
    assert ("}" + rest)[1..] == rest;
  }

  /** The lines of one entry read as its name and its default. */
  lemma {:induction false} LeafValue(d: Decl, key: string, indent: nat, comma: string, tail: string) returns (blanks: string, text: string)
    requires Sound(Leaf(d)) && (comma == "" || comma == ",")
    ensures AllBlank(blanks)
    ensures "\n" + (Written(CleanLines(Leaf(d), key, indent, comma)) + tail) == blanks + (Quote(key) + (":" + text))
    ensures ReadValue(text) == Got(d.default, Next(comma, tail))
  {
    hide Quote, ReadValue, Print, Written, Next, DeclLine;
    PadBlank(indent);
    NextDelimited(comma, tail);
    LeafText(key, d, indent, comma, tail);
    blanks := "\n" + Pad(indent) + "\n" + Pad(indent);
    text := " " + (Print(d.default) + Next(comma, tail));
    ReadSkips(" ", Print(d.default) + Next(comma, tail));
    ValueBack(d.default, Next(comma, tail));
  }

  lemma {:induction false} EntryValue(entry: Entry, key: string, indent: nat, comma: string, tail: string) returns (blanks: string, text: string)
    requires Sound(entry) && (comma == "" || comma == ",")
    ensures AllBlank(blanks)
    ensures "\n" + (Written(CleanLines(entry, key, indent, comma)) + tail) == blanks + (Quote(key) + (":" + text))
    ensures ReadValue(text) == Got(Defaults(entry), Next(comma, tail))
    decreases entry, 2, 0
  {
    hide Quote, ReadValue, Print, Written, Next, DeclLine;
    var after := Next(comma, tail);
    if entry.Leaf? {
      blanks, text := LeafValue(entry.decl, key, indent, comma, tail);
    } else {
      PadBlank(indent);
      var inner := CleanFrom(entry, Names(entry), 0, indent + 1);
      SectionText(key, inner, indent, comma, tail);
      blanks := "\n" + Pad(indent);
      var body := "{" + ("\n" + Tail(entry, Names(entry), 0, indent + 1, Pad(indent), after));
      text := " " + body;
      ReadSkips(" ", body);
      SectionRead(entry, indent + 1, Pad(indent), after);
    }
  }

  /** Reading the members from `i` on, with those before it already read. */
  lemma {:induction false} MembersRead(e: Entry, names: seq<string>, i: nat, indent: nat, close: string, rest: string)
    requires e.Section? && Sound(e) && i < |names| && AllBlank(close)
    requires forall j | 0 <= j < |names| :: names[j] in e.children && !HasDot(names[j])
    requires var all := Defaults(e).fields; (forall j | 0 <= j < |names| :: names[j] in all) && Firsts(all, names, |names|) == all
    ensures ReadMembers("\n" + Tail(e, names, i, indent, close, rest), Firsts(Defaults(e).fields, names, i)) == Got(Defaults(e), rest)
    decreases e, 0, |names| - i
  {
    hide Tail, ReadMembers, ReadValue, Next, Firsts, Defaults, AllBlank;
    SectionDefaults(e);
    var fields := Firsts(Defaults(e).fields, names, i + 1);
    var comma, tail := Comma(names, i), Tail(e, names, i + 1, indent, close, rest);
    MemberStep(e, names, i, indent, close, rest);
    NextDelimited(comma, tail);
    if i + 1 < |names| {
      AfterComma(tail, fields);
      MembersRead(e, names, i + 1, indent, close, rest);
    } else {
      TailEnd(e, names, indent, close, rest);
      AfterBrace(rest, fields);
    }
  }

  lemma {:induction false} SectionDefaults(e: Entry)
    requires e.Section?
    ensures Defaults(e) == Obj(Defaults(e).fields)
  {
  }

  /** One entry of a section, up to what follows its value. */
  lemma {:induction false} MemberStep(e: Entry, names: seq<string>, i: nat, indent: nat, close: string, rest: string)
    requires e.Section? && Sound(e) && i < |names| && names[i] in e.children && !HasDot(names[i])
    requires forall j | 0 <= j < |names| :: names[j] in Defaults(e).fields
    ensures ReadMembers("\n" + Tail(e, names, i, indent, close, rest), Firsts(Defaults(e).fields, names, i))
            == AfterMember(SkipBlanks(Next(Comma(names, i), Tail(e, names, i + 1, indent, close, rest))), Firsts(Defaults(e).fields, names, i + 1))
    decreases e, 0, 0
  {
    hide Tail, ReadMembers, ReadValue, Quote, Written, CleanLines, AllBlank, Next;
    var entry, comma, tail := e.children[names[i]], Comma(names, i), Tail(e, names, i + 1, indent, close, rest);
    TailStep(e, names, i, indent, close, rest);
    var blanks, text := EntryValue(entry, names[i], indent, comma, tail);
    EntryRead(blanks, names[i], text, Defaults(entry), Next(comma, tail), Firsts(Defaults(e).fields, names, i));
  }

  lemma {:induction false} NamesOfDefaults(e: Entry)
    requires e.Section?
    ensures Defaults(e).fields.Keys == Reachable(e)
  {
  }

  /** A whole section, from its opening brace. */
  lemma {:induction false} SectionRead(e: Entry, indent: nat, close: string, rest: string)
    requires e.Section? && Sound(e) && AllBlank(close)
    ensures ReadValue("{" + ("\n" + Tail(e, Names(e), 0, indent, close, rest))) == Got(Defaults(e), rest)
    decreases e, 1, 0
  {
    hide ReadValue, ReadMembers, CleanFrom;
    var names := Names(e);
    var body := "\n" + Tail(e, names, 0, indent, close, rest);
    ObjectRead(body, map[]);
    NamesReachable(e);
    NamesOfDefaults(e);
    AllFirsts(Defaults(e).fields);
    if names == [] {
      TailEnd(e, names, indent, close, rest);
      assert ("}" + rest)[1..] == rest;
      assert Defaults(e) == Obj(map[]);
    } else {
      BodyStarts(e, names, indent, close, rest);
      MembersRead(e, names, 0, indent, close, rest);
    }
  }

  /** A section with a member does not close at once. */
  lemma {:induction false} BodyStarts(e: Entry, names: seq<string>, indent: nat, close: string, rest: string)
    requires e.Section? && names != [] && names[0] in e.children
    ensures var u := SkipBlanks("\n" + Tail(e, names, 0, indent, close, rest)); u != "" && u[0] == '"'
  {
    hide Tail, Written;
    var tail, entry := Tail(e, names, 1, indent, close, rest), e.children[names[0]];
    TailStep(e, names, 0, indent, close, rest);
    PadBlank(indent);
    if entry.Leaf? {
      LeafText(names[0], entry.decl, indent, Comma(names, 0), tail);
      QuoteFirst("\n" + Pad(indent) + "\n" + Pad(indent), names[0], ":" + (" " + (Print(entry.decl.default) + Next(Comma(names, 0), tail))));
    } else {
      var inner := CleanFrom(entry, Names(entry), 0, indent + 1);
      SectionText(names[0], inner, indent, Comma(names, 0), tail);
      QuoteFirst("\n" + Pad(indent), names[0],
                 ":" + (" " + ("{" + ("\n" + (Written(inner) + (Pad(indent) + ("}" + Next(Comma(names, 0), tail))))))));
    }
  }

  lemma {:induction false} QuoteFirst(blanks: string, key: string, after: string)
    requires AllBlank(blanks)
    ensures var u := SkipBlanks(blanks + (Quote(key) + after)); u != "" && u[0] == '"'
  {
    SkipAppend(blanks, Quote(key) + after);
    NoBlanks(Quote(key) + after);
  }

  lemma {:induction false} SameBefore(a: string, b: string)
    requires a + "\n" == b + "\n"
    ensures a == b
  {
    assert a == (a + "\n")[..|a|] && b == (b + "\n")[..|b|];
  }

  // ---- the round trip ----

  /** The generated file, stripped and read, is the tree of the declared defaults. */
  lemma {:induction false} GeneratedReads(entries: map<string, Entry>)
    requires Sound(Section(entries))
    ensures ReadDocument(Stripped(Written(GeneratedLines(entries)))) == Some(Defaults(Section(entries)))
  {
    hide ReadValue, CleanFrom, LinesFrom, Written, Stripped, Cleans;
    var e := Section(entries);
    var names := Names(e);
    var lines, clean := LinesFrom(e, names, 0, 1), CleanFrom(e, names, 0, 1);
    NamesReachable(e);
    FromCleaned(e, names, 0, 1);
    TidyOutside("{");
    TidyOutside("}");
    OneCleaned("{");
    OneCleaned("}");
    CleansAppend(["{"], ["{"], lines, clean);
    CleansAppend(["{"] + lines, ["{"] + clean, ["}"], ["}"]);
    StrippedWritten(GeneratedLines(entries), ["{"] + clean + ["}"]);
    BlockWritten("{", clean, "}");
    var text := "{" + ("\n" + Tail(e, names, 0, 1, "", ""));
    assert Tail(e, names, 0, 1, "", "") == Written(clean) + "}";
    assert text + "\n" == Stripped(Written(GeneratedLines(entries))) + "\n";
    SameBefore(text, Stripped(Written(GeneratedLines(entries))));
    SectionRead(e, 1, "", "");
  }

  /** An override by the defaults themselves changes nothing, even where a default breaks its own declaration. */
  lemma {:induction false} DefaultsChangeNothing(e: Entry)
    ensures Materialized(e, Some(Defaults(e))) == Materialized(e, None)
    decreases e
  {
    if e.Section? {
      forall key | key in e.children && !HasDot(key)
        ensures Materialized(e.children[key], Field(FieldsOf(Some(Defaults(e))), key)) == Materialized(e.children[key], Field(FieldsOf(None), key))
      {
        DefaultsChangeNothing(e.children[key]);
        assert Field(FieldsOf(Some(Defaults(e))), key) == Some(Defaults(e.children[key]));
      }
    }
  }

  /** Writing the default file and reading it back as the override gives the values of no override at all. */
  lemma {:induction false} GeneratedFileChangesNothing(entries: map<string, Entry>)
    requires Sound(Section(entries))
    ensures Materialized(Section(entries), ReadDocument(Stripped(Written(GeneratedLines(entries))))) == Materialized(Section(entries), None)
  {
    GeneratedReads(entries);
    DefaultsChangeNothing(Section(entries));
  }

  /** The same, through the generator, the comment stripper and the merger as they run. */
  method GenerateAndMaterialize(entries: map<string, Entry>) returns (file: string, overridden: map<string, Value>, plain: map<string, Value>)
    requires Sound(Section(entries))
    ensures file == Written(GeneratedLines(entries))
    ensures Obj(overridden) == Materialized(Section(entries), ReadDocument(Stripped(file)))
    ensures overridden == plain && Obj(plain) == Materialized(Section(entries), None)
  {
    file := GenerateDefaultJsonc(entries);
    var warnings, none;
    overridden, warnings := MaterializeConfig(entries, Some(file));
    plain, none := MaterializeConfig(entries, None);
    GeneratedFileChangesNothing(entries);
  }
}
