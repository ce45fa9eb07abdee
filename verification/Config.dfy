/** Plugin configuration: declared defaults merged with an override file, and the file written for the defaults. */
module Config {
  import opened Decimals
  import opened Floats
  import opened Json
  import opened ConfigText
  import opened Options

  const I64_MAX: int := 0x7FFF_FFFF_FFFF_FFFF

  datatype Decl = Decl(kind: string, default: Value, description: string, min: Option<real>, max: Option<real>, allowed: Option<seq<Value>>)

  /** A declared value, or a section of further entries. */
  datatype Entry = Leaf(decl: Decl) | Section(children: map<string, Entry>)

  datatype Warning =
    | DottedKey(path: string)
    | BadDefault(path: string, kind: string)
    | OutOfRange(path: string)
    | WrongType(path: string)

  predicate HasDot(key: string) {
    '.' in key
  }

  // ---- the checks of one value ----

  predicate ValueMatches(v: Value, kind: string) {
    if kind == "string" then v.Str?
    else if kind == "int" then v.Num? && v.n.Whole? && I64_MIN <= v.n.i <= I64_MAX
    else if kind == "float" then v.Num?
    else if kind == "bool" then v.Bool?
    else false
  }

  function ZeroValue(kind: string): Value {
    if kind == "string" then Str("")
    else if kind == "int" || kind == "float" then Num(Whole(0))
    else if kind == "bool" then Bool(false)
    else Null
  }

  /** `as_f64`: a number as a 64-bit float. */
  function AsFloat(n: Number): real {
    match n
    case Whole(i) => Nearest(i as real)
    case Other(literal) => Nearest(LiteralReal(literal))
  }

  /** Numbers that are kept as floats are equal as floats. */
  predicate SameValue(a: Value, b: Value) {
    a == b || (a.Num? && b.Num? && a.n.Other? && b.n.Other? && AsFloat(a.n) == AsFloat(b.n))
  }

  /** An allowed list decides alone; otherwise a number must be within the bounds, and anything else passes. */
  predicate Satisfies(v: Value, d: Decl) {
    if d.allowed.Some? then exists i | 0 <= i < |d.allowed.value| :: SameValue(d.allowed.value[i], v)
    else if v.Num? then
      (d.min.Some? ==> AsFloat(v.n) >= d.min.value) && (d.max.Some? ==> AsFloat(v.n) <= d.max.value)
    else true
  }

  /** Whole numbers below 2^53 are held to the bounds exactly. */
  lemma {:induction false} SmallWholeExact(i: int, d: Decl)
    requires -TwoTo(53) < i as real < TwoTo(53) && d.allowed.None?
    ensures Satisfies(Num(Whole(i)), d)
            <==> (d.min.Some? ==> i as real >= d.min.value) && (d.max.Some? ==> i as real <= d.max.value)
  {
    hide TwoTo, Nearest;
    WholeIsFloat(i);
  }

  // ---- merging ----

  function DefaultOf(d: Decl): Value {
    if ValueMatches(d.default, d.kind) then d.default else ZeroValue(d.kind)
  }

  function FieldsOf(o: Option<Value>): map<string, Value> {
    if o.Some? && o.value.Obj? then o.value.fields else map[]
  }

  function Field(over: map<string, Value>, key: string): Option<Value> {
    if key in over then Some(over[key]) else None
  }

  /** What an entry comes to under an override. */
  function Materialized(e: Entry, o: Option<Value>): Value {
    match e
    case Leaf(d) => if o.Some? && ValueMatches(o.value, d.kind) && Satisfies(o.value, d) then o.value else DefaultOf(d)
    case Section(children) => Obj(map key | key in children && !HasDot(key) :: Materialized(children[key], Field(FieldsOf(o), key)))
  }

  /** The declared shape: a section has the keys that can be reached and no other, and a value is one that its declaration
      allows, or else the fallback of its declaration. */
  ghost predicate Declared(e: Entry, v: Value) {
    match e
    case Leaf(d) => v == DefaultOf(d) || (ValueMatches(v, d.kind) && Satisfies(v, d))
    case Section(children) =>
      && v.Obj? && (forall key :: key in v.fields <==> key in children && !HasDot(key))
      && forall key | key in children && !HasDot(key) :: Declared(children[key], v.fields[key])
  }

  /** Whatever the override holds, what comes out has the declared shape. */
  lemma {:induction false} MaterializedDeclared(e: Entry, o: Option<Value>)
    ensures Declared(e, Materialized(e, o))
    decreases e
  {
    if e.Section? {
      forall key | key in e.children && !HasDot(key) ensures Declared(e.children[key], Materialized(e, o).fields[key]) {
        MaterializedDeclared(e.children[key], Field(FieldsOf(o), key));
      }
    }
  }

  /** Exactly the values of the declared shape are left as they are, so materializing twice is materializing once. */
  lemma {:induction false} DeclaredKept(e: Entry, v: Value)
    ensures Materialized(e, Some(v)) == v <==> Declared(e, v)
    decreases e
  {
    if e.Section? && v.Obj? {
      var r := Materialized(e, Some(v));
      forall key | key in e.children && !HasDot(key) && key in v.fields
        ensures r.fields[key] == v.fields[key] <==> Declared(e.children[key], v.fields[key])
      {
        DeclaredKept(e.children[key], v.fields[key]);
      }
      if Declared(e, v) {
        assert r.fields == v.fields;
      }
    }
  }

  /** What the four types take. */
  ghost predicate OfType(v: Value, kind: string) {
    || (kind == "string" && v.Str?)
    || (kind == "int" && v.Num? && v.n.Whole? && -0x8000_0000_0000_0000 <= v.n.i < 0x8000_0000_0000_0000)
    || (kind == "float" && v.Num?)
    || (kind == "bool" && v.Bool?)
  }

  /** A list of allowed values holds it, floats by their value; without a list, a number is within the bounds there are. */
  ghost predicate Allowed(v: Value, d: Decl) {
    if d.allowed.Some? then
      v in d.allowed.value
      || (v.Num? && v.n.Other? && exists l :: Num(Other(l)) in d.allowed.value && Nearest(LiteralReal(l)) == Nearest(LiteralReal(v.n.literal)))
    else
      v.Num? ==>
        var x := Nearest(if v.n.Whole? then v.n.i as real else LiteralReal(v.n.literal));
        (d.min.Some? ==> d.min.value <= x) && (d.max.Some? ==> x <= d.max.value)
  }

  /** A declared value under an override: the override if it is of the type and allowed, else the default if that is of the type, else
      the zero of the type. There is a warning exactly if the override or the default is not taken. */
  lemma {:induction false} LeafExactly(d: Decl, o: Option<Value>)
    ensures Materialized(Leaf(d), o) ==
            if o.Some? && OfType(o.value, d.kind) && Allowed(o.value, d) then o.value
            else if OfType(d.default, d.kind) then d.default
            else if d.kind == "string" then Str("")
            else if d.kind == "int" || d.kind == "float" then Num(Whole(0))
            else if d.kind == "bool" then Bool(false)
            else Null
    ensures Quiet(Leaf(d), o) <==> OfType(d.default, d.kind) && (o.Some? ==> OfType(o.value, d.kind) && Allowed(o.value, d))
  {
    hide Nearest, LiteralReal;
    if o.Some? && d.allowed.Some? {
      AllowedIn(o.value, d.allowed.value);
    }
  }

  lemma {:induction false} AllowedIn(v: Value, allowed: seq<Value>)
    ensures (exists i | 0 <= i < |allowed| :: SameValue(allowed[i], v)) <==>
            v in allowed
            || (v.Num? && v.n.Other? && exists l :: Num(Other(l)) in allowed && Nearest(LiteralReal(l)) == Nearest(LiteralReal(v.n.literal)))
  {
    hide Nearest, LiteralReal;
    if i :| 0 <= i < |allowed| && SameValue(allowed[i], v) {
      if allowed[i] != v {
        assert Num(Other(allowed[i].n.literal)) in allowed;
      }
    }
    if v.Num? && v.n.Other? {
      if l :| Num(Other(l)) in allowed && Nearest(LiteralReal(l)) == Nearest(LiteralReal(v.n.literal)) {
        var i :| 0 <= i < |allowed| && allowed[i] == Num(Other(l));
        assert SameValue(allowed[i], v);
      }
    }
  }

  /** What an override has for a key, if it is an object that has one. */
  ghost function Under(o: Option<Value>, key: string): Option<Value> {
    if o.Some? && o.value.Obj? && key in o.value.fields then Some(o.value.fields[key]) else None
  }

  ghost predicate NoDot(key: string) {
    forall i | 0 <= i < |key| :: key[i] != '.'
  }

  /** A section under an override: exactly its keys without a dot, each under the field of its name, if the override is an object that
      has one. */
  lemma {:induction false} SectionExactly(children: map<string, Entry>, o: Option<Value>, key: string)
    ensures Materialized(Section(children), o).Obj?
    ensures key in Materialized(Section(children), o).fields <==> key in children && NoDot(key)
    ensures key in Materialized(Section(children), o).fields ==>
              Materialized(Section(children), o).fields[key] == Materialized(children[key], Under(o, key))
    ensures Quiet(Section(children), o) <==> forall k | k in children :: NoDot(k) && Quiet(children[k], Under(o, k))
  {
  }

  /** Nothing to warn about. */
  ghost predicate Quiet(e: Entry, o: Option<Value>) {
    match e
    case Leaf(d) => ValueMatches(d.default, d.kind) && (o.Some? ==> ValueMatches(o.value, d.kind) && Satisfies(o.value, d))
    case Section(children) => forall key | key in children :: !HasDot(key) && Quiet(children[key], Field(FieldsOf(o), key))
  }

  function FullKey(prefix: string, key: string): string {
    if prefix == "" then key else prefix + "." + key
  }

  method MaterializeEntries(section: Entry, over: map<string, Value>, prefix: string) returns (values: map<string, Value>, warnings: seq<Warning>)
    requires section.Section?
    ensures Obj(values) == Materialized(section, Some(Obj(over)))
    ensures warnings == [] <==> Quiet(section, Some(Obj(over)))
    decreases section, 0
  {
    hide HasDot, FullKey, Materialized, Quiet;
    values, warnings := map[], [];
    var todo := section.children.Keys;
    while todo != {}
      invariant todo <= section.children.Keys
      invariant values == map key | key in section.children && key !in todo && !HasDot(key) :: Materialized(section.children[key], Field(over, key))
      invariant warnings == [] <==> forall key | key in section.children && key !in todo :: !HasDot(key) && Quiet(section.children[key], Field(over, key))
      decreases todo
    {
      var key :| key in todo;
      todo := todo - {key};
      var fullKey := FullKey(prefix, key);
      if HasDot(key) {
        warnings := warnings + [DottedKey(fullKey)];
        continue;
      }
      var value, more := MaterializeEntry(section.children[key], Field(over, key), fullKey);
      values := values[key := value];
      warnings := warnings + more;
    }
    KeyByKey(section, over);
  }

  lemma {:induction false} KeyByKey(section: Entry, over: map<string, Value>)
    requires section.Section?
    ensures Materialized(section, Some(Obj(over))) ==
              Obj(map key | key in section.children && !HasDot(key) :: Materialized(section.children[key], Field(over, key)))
    ensures Quiet(section, Some(Obj(over))) <==>
              forall key | key in section.children :: !HasDot(key) && Quiet(section.children[key], Field(over, key))
  {
    assert FieldsOf(Some(Obj(over))) == over;
  }

  method MaterializeEntry(entry: Entry, o: Option<Value>, fullKey: string) returns (value: Value, warnings: seq<Warning>)
    ensures value == Materialized(entry, o)
    ensures warnings == [] <==> Quiet(entry, o)
    decreases entry, 1
  {
    warnings := [];
    if entry.Section? {
      var childOver := FieldsOf(o);
      var childValues: map<string, Value>;
      childValues, warnings := MaterializeEntries(entry, childOver, fullKey);
      SameFields(entry, o);
      value := Obj(childValues);
    } else {
      var decl := entry.decl;
      value := decl.default;
      if !ValueMatches(decl.default, decl.kind) {
        warnings := [BadDefault(fullKey, decl.kind)];
        value := ZeroValue(decl.kind);
      }
      if o.Some? {
        if ValueMatches(o.value, decl.kind) && Satisfies(o.value, decl) {
          value := o.value;
        } else if ValueMatches(o.value, decl.kind) {
          warnings := warnings + [OutOfRange(fullKey)];
        } else {
          warnings := warnings + [WrongType(fullKey)];
        }
      }
    }
  }

  /** A section looks at the fields of its override only: one that is not an object counts as none. */
  lemma {:induction false} SameFields(e: Entry, o: Option<Value>)
    requires e.Section?
    ensures Materialized(e, Some(Obj(FieldsOf(o)))) == Materialized(e, o)
    ensures Quiet(e, Some(Obj(FieldsOf(o)))) <==> Quiet(e, o)
  {
  }

  /** The override of a file: its fields, or none if it does not read as an object. */
  method MaterializeConfig(entries: map<string, Entry>, file: Option<string>) returns (values: map<string, Value>, warnings: seq<Warning>)
    ensures Obj(values) == Materialized(Section(entries), if file.Some? then ReadDocument(Stripped(file.value)) else None)
  {
    var over: map<string, Value> := map[];
    if file.Some? {
      var text := StripLineComments(file.value);
      over := FieldsOf(ReadDocument(text));
    }
    values, warnings := MaterializeEntries(Section(entries), over, "");
    SameFields(Section(entries), if file.Some? then ReadDocument(Stripped(file.value)) else None);
  }

  // ---- the generated file ----

  function Pad(indent: nat): string {
    if indent == 0 then "" else "  " + Pad(indent - 1)
  }

  /** The keys that can be reached, in order. */
  function Reachable(e: Entry): set<string>
    requires e.Section?
  {
    set key | key in e.children && !HasDot(key)
  }

  function Names(e: Entry): seq<string>
    requires e.Section?
  {
    Sorted(Reachable(e))
  }

  function Comma(names: seq<string>, i: nat): string {
    if i + 1 < |names| then "," else ""
  }

  function CommentLine(d: Decl, indent: nat): string {
    Pad(indent) + "// " + d.kind + if d.description == "" then "" else " \U{2014} " + d.description
  }

  function DeclLine(key: string, d: Decl, indent: nat, comma: string): string {
    Pad(indent) + Quote(key) + ": " + Print(d.default) + comma
  }

  ghost function LinesFrom(e: Entry, names: seq<string>, i: nat, indent: nat): seq<string>
    requires e.Section? && i <= |names|
    decreases e, 0, |names| - i
  {
    if i == |names| || names[i] !in e.children then []
    else EntryLines(e.children[names[i]], names[i], indent, Comma(names, i)) + LinesFrom(e, names, i + 1, indent)
  }

  ghost function EntryLines(entry: Entry, key: string, indent: nat, comma: string): seq<string>
    decreases entry, 1, 0
  {
    match entry
    case Leaf(d) => [CommentLine(d, indent), DeclLine(key, d, indent, comma)]
    case Section(children) =>
      [Pad(indent) + Quote(key) + ": {"] + LinesFrom(entry, Names(entry), 0, indent + 1) + [Pad(indent) + "}" + comma]
  }

  ghost function GeneratedLines(entries: map<string, Entry>): seq<string> {
    ["{"] + LinesFrom(Section(entries), Names(Section(entries)), 0, 1) + ["}"]
  }

  method GenEntries(section: Entry, indent: nat) returns (out: string)
    requires section.Section?
    ensures out == Written(LinesFrom(section, Names(section), 0, indent))
    decreases section, 0
  {
    hide EntryLines, Written, Print, Quote, Pad;
    var names := Names(section);
    SortedNames(Reachable(section));
    out := "";
    for i := 0 to |names|
      invariant out + Written(LinesFrom(section, names, i, indent)) == Written(LinesFrom(section, names, 0, indent))
    {
      var entry := section.children[names[i]];
      var piece := GenEntry(entry, names[i], indent, Comma(names, i));
      ghost var rest := LinesFrom(section, names, i + 1, indent);
      WrittenAppend(EntryLines(entry, names[i], indent, Comma(names, i)), rest);
      assert out + (piece + Written(rest)) == (out + piece) + Written(rest);
      out := out + piece;
    }
    NothingWritten();
    assert LinesFrom(section, names, |names|, indent) == [];
  }

  lemma {:induction false} NothingWritten()
    ensures Written([]) == ""
  {
  }

  method GenEntry(entry: Entry, key: string, indent: nat, comma: string) returns (out: string)
    ensures out == Written(EntryLines(entry, key, indent, comma))
    decreases entry, 1
  {
    hide Written, Print, Quote, Pad;
    if entry.Leaf? {
      TwoLines(CommentLine(entry.decl, indent), DeclLine(key, entry.decl, indent, comma));
      out := CommentLine(entry.decl, indent) + "\n";
      out := out + DeclLine(key, entry.decl, indent, comma) + "\n";
    } else {
      var head, foot := Pad(indent) + Quote(key) + ": {", Pad(indent) + "}" + comma;
      BlockWritten(head, LinesFrom(entry, Names(entry), 0, indent + 1), foot);
      var inner := GenEntries(entry, indent + 1);
      out := head + "\n" + inner;
      out := out + foot + "\n";
    }
  }

  lemma {:induction false} TwoLines(a: string, b: string)
    ensures Written([a, b]) == a + "\n" + b + "\n"
  {
    assert [a, b][1..] == [b] && [b][1..] == [];
    assert Written([b]) == b + "\n";
  }

  lemma {:induction false} BlockWritten(head: string, inner: seq<string>, foot: string)
    ensures Written([head] + inner + [foot]) == head + "\n" + Written(inner) + foot + "\n"
  {
    assert [head] + inner + [foot] == [head] + (inner + [foot]);
    assert ([head] + (inner + [foot]))[1..] == inner + [foot];
    WrittenAppend(inner, [foot]);
    assert [foot][1..] == [];
    assert Written([foot]) == foot + "\n";
  }

  method GenerateDefaultJsonc(entries: map<string, Entry>) returns (out: string)
    ensures out == Written(GeneratedLines(entries))
  {
    hide LinesFrom, Written, Names;
    var inner := GenEntries(Section(entries), 1);
    BlockWritten("{", LinesFrom(Section(entries), Names(Section(entries)), 0, 1), "}");
    out := "{\n" + inner + "}\n";
  }

  // ---- an example ----

  const COUNT := Leaf(Decl("int", Num(Whole(5)), "", None, None, None))
  const SHOWN := Leaf(Decl("bool", Bool(true), "on", None, None, None))
  const EXAMPLE: map<string, Entry> := map["b" := Section(map["x" := SHOWN]), "a" := COUNT, "c.d" := COUNT]

  lemma {:induction false} OneName(a: string)
    ensures Sorted({a}) == [a]
  {
    SortedNames({a});
  }

  lemma {:induction false} TwoNames()
    ensures Sorted({"a", "b"}) == ["a", "b"]
  {
    SortedNames({"a", "b"});
    var names := Sorted({"a", "b"});
    assert |names| == 2;
    assert !Below("b", "a");
    assert names[0] == "a" && names[1] == "b";
  }

  lemma {:induction false} QuoteLetter(c: char)
    requires 'a' <= c <= 'z'
    ensures Quote([c]) == ['"', c, '"']
  {
    assert [c][1..] == "" && Escape("") == "";
    assert EscapeChar(c) == [c];
  }

  lemma {:induction false} CountLines()
    ensures EntryLines(COUNT, "a", 1, ",") == ["  // int", "  \"a\": 5,"]
  {
    QuoteLetter('a');
    hide Quote;
    assert Pad(1) == "  " + Pad(0);
    assert Print(Num(Whole(5))) == "5";
    assert CommentLine(COUNT.decl, 1) == "  // int";
    assert DeclLine("a", COUNT.decl, 1, ",") == "  \"a\": 5,";
  }

  lemma {:induction false} ShownLines()
    ensures EntryLines(SHOWN, "x", 2, "") == ["    // bool \U{2014} on", "    \"x\": true"]
  {
    QuoteLetter('x');
    hide Quote;
    assert Pad(2) == "  " + ("  " + Pad(0));
    assert CommentLine(SHOWN.decl, 2) == "    // bool \U{2014} on";
    assert DeclLine("x", SHOWN.decl, 2, "") == "    \"x\": true";
  }

  lemma {:induction false} SectionLines()
    ensures EntryLines(Section(map["x" := SHOWN]), "b", 1, "") == ["  \"b\": {", "    // bool \U{2014} on", "    \"x\": true", "  }"]
  {
    var section := Section(map["x" := SHOWN]);
    assert Reachable(section) == {"x"};
    OneName("x");
    QuoteLetter('b');
    ShownLines();
    hide Quote, Sorted, CommentLine, DeclLine;
    assert Names(section) == ["x"];
    assert LinesFrom(section, ["x"], 1, 2) == [];
    assert LinesFrom(section, ["x"], 0, 2) == EntryLines(SHOWN, "x", 2, "");
    assert Pad(1) == "  " + Pad(0);
    assert Pad(1) + Quote("b") + ": {" == "  \"b\": {" && Pad(1) + "}" + "" == "  }";
  }

  /** What a generated file looks like: a comment with the type above each value, and after it the description if there is one; two blanks
      a level; a comma after all but the last. */
  lemma {:induction false} ExampleLines()
    ensures GeneratedLines(EXAMPLE) == [
              "{",
              "  // int",
              "  \"a\": 5,",
              "  \"b\": {",
              "    // bool \U{2014} on",
              "    \"x\": true",
              "  }",
              "}"]
  {
    var e := Section(EXAMPLE);
    ExampleNames();
    CountLines();
    SectionLines();
    hide EntryLines, Names;
    assert LinesFrom(e, ["a", "b"], 2, 1) == [];
    assert LinesFrom(e, ["a", "b"], 1, 1) == EntryLines(e.children["b"], "b", 1, "");
    assert LinesFrom(e, ["a", "b"], 0, 1) == EntryLines(COUNT, "a", 1, ",") + LinesFrom(e, ["a", "b"], 1, 1);
  }

  lemma {:induction false} ExampleNames()
    ensures Names(Section(EXAMPLE)) == ["a", "b"]
  {
    assert Reachable(Section(EXAMPLE)) == {"a", "b"} by {
      assert !HasDot("a") && !HasDot("b") && HasDot("c.d") by {
        assert "c.d"[1] == '.';
      }
    }
    TwoNames();
  }
}
