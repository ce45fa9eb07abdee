/** Reading back what the printer wrote. */
module JsonRoundTrip {
  import opened Decimals
  import opened Floats
  import opened Json
  import opened Options

  /** The literals a value may hold. */
  ghost predicate Proper(v: Value) {
    match v
    case Num(Whole(i)) => InRange(i)
    case Num(Other(literal)) => OtherLiteral(literal)
    case Arr(items) => forall i | 0 <= i < |items| :: Proper(items[i])
    case Obj(fields) => forall name | name in fields :: Proper(fields[name])
    case _ => true
  }

  /** What may follow a number. */
  predicate Delimited(rest: string) {
    rest == "" || !NumberChar(rest[0])
  }

  // ---- strings ----

  lemma {:induction false} HexBack(d: nat)
    requires d < 16
    ensures HexValue(Hex(d)) == Some(d)
  {
  }

  lemma {:induction false} ControlBack(high: nat, low: nat, rest: string)
    requires high < 2 && low < 16
    ensures Unescape(['u', '0', '0', Hex(high), Hex(low)] + rest) == Got((high * 16 + low) as char, rest)
  {
    hide Hex, HexValue;
    HexBack(high);
    HexBack(low);
    HexBack(0);
    ZeroHex();
    var s, four := ['u', '0', '0', Hex(high), Hex(low)] + rest, ['0', '0', Hex(high), Hex(low)] + rest;
    assert s[1..] == four && s[5..] == rest;
    assert HexFour(four) == Some(high * 16 + low);
  }

  lemma {:induction false} ZeroHex()
    ensures Hex(0) == '0'
  {
  }

  lemma {:induction false} CharBack(c: char, rest: string)
    ensures var e := EscapeChar(c);
            if e[0] == '\\' then |e| >= 2 && Unescape(e[1..] + rest) == Got(c, rest)
            else e == [c] && c != '"' && c >= ' '
  {
    hide HexFour, Hex;
    var e := EscapeChar(c);
    if e[0] == '\\' && e[1] == 'u' {
      ControlBack(c as int / 16, c as int % 16, rest);
      assert e[1..] == ['u', '0', '0', Hex(c as int / 16), Hex(c as int % 16)];
    } else if e[0] == '\\' {
      assert (e[1..] + rest)[1..] == rest;
    }
  }

  lemma {:induction false} ReadEscaped(text: string, c: char, tail: string, t: string, rest: string)
    requires text != "" && text[0] == '\\' && Unescape(text[1..]) == Got(c, tail) && ReadString(tail) == Got(t, rest)
    ensures ReadString(text) == Got([c] + t, rest)
  {
  }

  lemma {:induction false} ReadPlain(text: string, t: string, rest: string)
    requires text != "" && text[0] != '\\' && text[0] != '"' && text[0] >= ' ' && ReadString(text[1..]) == Got(t, rest)
    ensures ReadString(text) == Got([text[0]] + t, rest)
  {
  }

  lemma {:induction false} EscapeHead(s: string, rest: string)
    requires s != ""
    ensures Escape(s) + "\"" + rest == EscapeChar(s[0]) + (Escape(s[1..]) + "\"" + rest)
    ensures s == [s[0]] + s[1..]
  {
  }

  lemma {:induction false} NothingBack(rest: string)
    ensures ReadString(Escape("") + "\"" + rest) == Got("", rest)
  {
  }

  lemma {:induction false} StringBack(s: string, rest: string)
    ensures ReadString(Escape(s) + "\"" + rest) == Got(s, rest)
  {
    hide ReadString, Escape, EscapeChar, Unescape;
    if s == "" {
      NothingBack(rest);
    } else {
      var text, e, tail := Escape(s) + "\"" + rest, EscapeChar(s[0]), Escape(s[1..]) + "\"" + rest;
      StringBack(s[1..], rest);
      CharBack(s[0], tail);
      EscapeHead(s, rest);
      assert text[1..] == e[1..] + tail;
      if e[0] == '\\' {
        ReadEscaped(text, s[0], tail, s[1..], rest);
      } else {
        assert e[1..] + tail == tail;
        ReadPlain(text, s[1..], rest);
      }
    }
  }

  lemma {:induction false} QuoteBack(s: string, rest: string)
    ensures var text := Quote(s) + rest;
            text != "" && text[0] == '"' && ReadString(text[1..]) == Got(s, rest)
  {
    hide Escape, ReadString;
    StringBack(s, rest);
    assert (Quote(s) + rest)[1..] == Escape(s) + "\"" + rest;
  }

  // ---- numbers ----

  lemma {:induction false} WholeBack(i: int)
    requires InRange(i)
    ensures WholeOf(PrintNumber(Whole(i))) == Some(i)
    ensures forall k | 0 <= k < |PrintNumber(Whole(i))| :: NumberChar(PrintNumber(Whole(i))[k])
    ensures PrintNumber(Whole(i)) != ""
  {
    hide Decimal, DigitsValue;
    var n: nat := if i < 0 then -i else i;
    DecimalDigits(n);
    if i < 0 {
      var literal := "-" + Decimal(n);
      assert literal[0] == '-' && literal[1..] == Decimal(n);
      assert !Digits(literal);
    }
  }

  lemma {:induction false} RunBack(literal: string, rest: string)
    requires (forall k | 0 <= k < |literal| :: NumberChar(literal[k])) && Delimited(rest)
    ensures RunLength(literal + rest) == |literal|
  {
    if literal == "" {
      assert literal + rest == rest;
    } else {
      RunBack(literal[1..], rest);
      assert (literal + rest)[1..] == literal[1..] + rest;
    }
  }

  lemma {:induction false} LiteralChars(s: string)
    requires NumberLiteral(s)
    ensures s != "" && (s[0] == '-' || IsDigit(s[0]))
    ensures forall k | 0 <= k < |s| :: NumberChar(s[k])
  {
    hide NaturalLiteral, Fraction, Exponent, IndexOf;
    var t := if s != "" && s[0] == '-' then s[1..] else s;
    var e := IndexOf(t, 'e', 'E');
    PartChars(t, IndexOf(t[..e], '.', '.'), e);
  }

  lemma {:induction false} PartChars(t: string, dot: nat, e: nat)
    requires dot <= e <= |t| && NaturalLiteral(t[..dot]) && Fraction(t[dot..e]) && Exponent(t[e..])
    ensures t != "" && IsDigit(t[0]) && forall k | 0 <= k < |t| :: NumberChar(t[k])
  {
    hide Fraction, Exponent;
    FractionChars(t[dot..e]);
    ExponentChars(t[e..]);
    assert t[..dot][0] == t[0];
    forall k | 0 <= k < |t| ensures NumberChar(t[k]) {
      if k < dot {
        assert t[..dot][k] == t[k];
      } else if k < e {
        assert t[dot..e][k - dot] == t[k];
      } else {
        assert t[e..][k - e] == t[k];
      }
    }
  }

  lemma {:induction false} FractionChars(s: string)
    requires Fraction(s)
    ensures forall k | 0 <= k < |s| :: NumberChar(s[k])
  {
    forall k | 0 < k < |s| ensures NumberChar(s[k]) {
      assert s[1..][k - 1] == s[k];
    }
  }

  lemma {:induction false} ExponentChars(s: string)
    requires Exponent(s)
    ensures forall k | 0 <= k < |s| :: NumberChar(s[k])
  {
    forall k | 0 < k < |s| ensures NumberChar(s[k]) {
      if s[1] == '+' || s[1] == '-' {
        if k > 1 {
          assert s[2..][k - 2] == s[k];
        }
      } else {
        assert s[1..][k - 1] == s[k];
      }
    }
  }

  lemma {:induction false} NumberChars(n: Number)
    requires Proper(Num(n))
    ensures PrintNumber(n) != "" && (PrintNumber(n)[0] == '-' || IsDigit(PrintNumber(n)[0]))
    ensures forall k | 0 <= k < |PrintNumber(n)| :: NumberChar(PrintNumber(n)[k])
  {
    hide NumberLiteral, Representable, LiteralReal;
    if n.Whole? {
      WholeBack(n.i);
      DecimalDigits(if n.i < 0 then -n.i else n.i);
    } else {
      LiteralChars(n.literal);
    }
  }

  /** What is printed of a whole number reads as that number, and what is printed of another does not read as a whole one. */
  lemma {:induction false} NumberBack(n: Number, rest: string)
    requires Proper(Num(n)) && Delimited(rest)
    ensures ReadNumber(PrintNumber(n) + rest) == Got(Num(n), rest) && PrintNumber(n) != ""
    ensures PrintNumber(n)[0] == '-' || IsDigit(PrintNumber(n)[0])
  {
    var literal := PrintNumber(n);
    NumberChars(n);
    if n.Whole? {
      WholeBack(n.i);
    }
    RunBack(literal, rest);
    assert (literal + rest)[..|literal|] == literal && (literal + rest)[|literal|..] == rest;
  }

  // ---- values ----

  lemma {:induction false} NoBlanks(s: string)
    requires s != "" && !Blank(s[0])
    ensures SkipBlanks(s) == s
  {
  }

  lemma {:induction false} SkipAppend(blanks: string, s: string)
    requires forall i | 0 <= i < |blanks| :: Blank(blanks[i])
    ensures SkipBlanks(blanks + s) == SkipBlanks(s)
  {
    if blanks == "" {
      assert blanks + s == s;
    } else {
      SkipAppend(blanks[1..], s);
      assert (blanks + s)[1..] == blanks[1..] + s;
    }
  }

  lemma {:induction false} PrintStarts(v: Value)
    requires Proper(v)
    ensures Print(v) != "" && !Blank(Print(v)[0]) && Print(v)[0] != ']' && Print(v)[0] != '}'
  {
    hide PrintNumber, OtherLiteral;
    if v.Num? {
      NumberChars(v.n);
    }
  }

  lemma {:induction false} WordBack(v: Value, rest: string)
    requires v.Null? || v.Bool?
    ensures ReadValue(Print(v) + rest) == Got(v, rest)
  {
  }

  lemma {:induction false} ReadAsNumber(text: string)
    requires text != "" && (text[0] == '-' || IsDigit(text[0]))
    ensures ReadValue(text) == ReadNumber(text)
  {
    hide ReadString, ReadNumber, ReadMembers, ReadItems;
    NoBlanks(text);
  }

  lemma {:induction false} ReadAsString(text: string, s: string, rest: string)
    requires text != "" && text[0] == '"' && ReadString(text[1..]) == Got(s, rest)
    ensures ReadValue(text) == Got(Str(s), rest)
  {
  }

  /** Reading what was printed gives the value and leaves the rest. */
  lemma {:induction false} ValueBack(v: Value, rest: string)
    requires Proper(v) && Delimited(rest)
    ensures ReadValue(Print(v) + rest) == Got(v, rest)
    decreases v, 2
  {
    hide ReadValue, ReadNumber, ReadString, PrintNumber, Quote;
    match v
    case Null => WordBack(v, rest);
    case Bool(b) => WordBack(v, rest);
    case Num(n) =>
      NumberBack(n, rest);
      ReadAsNumber(PrintNumber(n) + rest);
    case Str(s) =>
      QuoteBack(s, rest);
      ReadAsString(Quote(s) + rest, s, rest);
    case Arr(items) => ArrayBack(v, rest);
    case Obj(fields) => ObjectBack(v, rest);
  }

  lemma {:induction false} ArrayBack(v: Value, rest: string)
    requires v.Arr? && Proper(v)
    ensures ReadValue("[" + PrintItems(v, 0) + "]" + rest) == Got(v, rest)
    decreases v, 1, |v.items| + 1
  {
    hide ReadString, ReadNumber, ReadMembers, ReadItems, Print;
    var text := "[" + PrintItems(v, 0) + "]" + rest;
    NoBlanks(text);
    assert text[1..] == PrintItems(v, 0) + "]" + rest;
    if v.items == [] {
      assert text[1..] == "]" + rest;
      assert ("]" + rest)[1..] == rest;
      NoBlanks("]" + rest);
    } else {
      PrintStarts(v.items[0]);
      NoBlanks(text[1..]);
      ItemsBack(v, 0, rest);
      assert v.items[..0] == [];
    }
  }

  lemma {:induction false} ItemRead(s: string, items: seq<Value>, v: Value, after: string)
    requires ReadValue(s) == Got(v, after) && after != "" && (after[0] == ',' || after[0] == ']')
    ensures ReadItems(s, items) == if after[0] == ',' then ReadItems(after[1..], items + [v]) else Got(Arr(items + [v]), after[1..])
  {
  }

  lemma {:induction false} ItemsParts(v: Value, i: nat)
    requires v.Arr? && Proper(v) && i < |v.items|
    ensures Proper(v.items[i])
    ensures PrintItems(v, i) == if i + 1 == |v.items| then Print(v.items[i]) else Print(v.items[i]) + "," + PrintItems(v, i + 1)
  {
    hide Print;
  }

  lemma {:induction false} ItemsBack(v: Value, i: nat, rest: string)
    requires v.Arr? && Proper(v) && i < |v.items|
    ensures ReadItems(PrintItems(v, i) + "]" + rest, v.items[..i]) == Got(v, rest)
    decreases v, 1, |v.items| - i
  {
    hide ReadValue, ReadItems, Print, PrintItems;
    ItemsParts(v, i);
    var x := v.items[i];
    var more := if i + 1 == |v.items| then rest else PrintItems(v, i + 1) + "]" + rest;
    var after := (if i + 1 == |v.items| then "]" else ",") + more;
    assert PrintItems(v, i) + "]" + rest == Print(x) + after;
    ValueBack(x, after);
    ItemRead(Print(x) + after, v.items[..i], x, after);
    assert after[1..] == more;
    assert v.items[..i] + [x] == v.items[..i + 1];
    if i + 1 == |v.items| {
      assert v.items[..i + 1] == v.items;
    } else {
      ItemsBack(v, i + 1, rest);
    }
  }

  /** The members read so far: those of the first `i` names. */
  ghost function Firsts(fields: map<string, Value>, names: seq<string>, i: nat): map<string, Value>
    requires i <= |names| && forall j | 0 <= j < |names| :: names[j] in fields
  {
    if i == 0 then map[] else Firsts(fields, names, i - 1)[names[i - 1] := fields[names[i - 1]]]
  }

  lemma {:induction false} FirstsAre(fields: map<string, Value>, names: seq<string>, i: nat)
    requires i <= |names| && forall j | 0 <= j < |names| :: names[j] in fields
    ensures forall name :: name in Firsts(fields, names, i) <==> name in names[..i]
    ensures forall name | name in Firsts(fields, names, i) :: Firsts(fields, names, i)[name] == fields[name]
  {
    if i != 0 {
      FirstsAre(fields, names, i - 1);
      assert names[..i] == names[..i - 1] + [names[i - 1]];
    }
  }

  lemma {:induction false} AllFirsts(fields: map<string, Value>)
    ensures forall j | 0 <= j < |Sorted(fields.Keys)| :: Sorted(fields.Keys)[j] in fields
    ensures Firsts(fields, Sorted(fields.Keys), |Sorted(fields.Keys)|) == fields
  {
    hide Sorted, Firsts, Below;
    var names := Sorted(fields.Keys);
    SortedNames(fields.Keys);
    FirstsAre(fields, names, |names|);
    assert names[..|names|] == names;
    var all := Firsts(fields, names, |names|);
    forall name ensures name in all <==> name in fields {
      if name in fields {
        assert name in fields.Keys;
      }
    }
  }

  lemma {:induction false} ObjectBack(v: Value, rest: string)
    requires v.Obj? && Proper(v)
    ensures ReadValue("{" + PrintMembers(v, Sorted(v.fields.Keys), 0) + "}" + rest) == Got(v, rest)
    decreases v, 1, |v.fields| + 1
  {
    hide ReadString, ReadNumber, ReadMembers, ReadItems, Print, PrintMembers, Sorted, ReadValue;
    var names := Sorted(v.fields.Keys);
    AllFirsts(v.fields);
    if names == [] {
      NoMembers(v, rest);
      EmptyRead(rest);
    } else {
      MembersBack(v, names, 0, rest);
      MembersStart(v, names, rest);
      MembersFollow(PrintMembers(v, names, 0) + "}" + rest);
    }
    assert "{" + PrintMembers(v, names, 0) + "}" + rest == "{" + (PrintMembers(v, names, 0) + "}" + rest);
  }

  lemma {:induction false} NoMembers(v: Value, rest: string)
    requires v.Obj?
    ensures PrintMembers(v, [], 0) + "}" + rest == "}" + rest
  {
  }

  lemma {:induction false} EmptyRead(rest: string)
    ensures ReadValue("{" + ("}" + rest)) == Got(Obj(map[]), rest)
  {
    hide ReadString, ReadNumber, ReadMembers, ReadItems;
    var text := "{" + ("}" + rest);
    NoBlanks(text);
    NoBlanks("}" + rest);
    assert text[1..] == "}" + rest && ("}" + rest)[1..] == rest;
  }

  lemma {:induction false} MembersStart(v: Value, names: seq<string>, rest: string)
    requires v.Obj? && names != [] && names[0] in v.fields
    ensures PrintMembers(v, names, 0) + "}" + rest != "" && (PrintMembers(v, names, 0) + "}" + rest)[0] == '"'
  {
    hide Escape, Print;
  }

  lemma {:induction false} MembersFollow(s: string)
    requires s != "" && s[0] == '"'
    ensures ReadValue("{" + s) == ReadMembers(s, map[])
  {
    hide ReadString, ReadNumber, ReadMembers, ReadItems;
    var text := "{" + s;
    NoBlanks(text);
    NoBlanks(s);
    assert text[1..] == s;
  }

  lemma {:induction false} MemberRead(s: string, name: string, valued: string, x: Value, after: string, fields: map<string, Value>)
    requires s != "" && s[0] == '"' && ReadString(s[1..]) == Got(name, valued)
    requires valued != "" && valued[0] == ':' && ReadValue(valued[1..]) == Got(x, after)
    ensures ReadMembers(s, fields) == AfterMember(SkipBlanks(after), fields[name := x])
  {
  }

  lemma {:induction false} MembersBack(v: Value, names: seq<string>, i: nat, rest: string)
    requires v.Obj? && Proper(v) && i < |names| == |v.fields|
    requires forall j | 0 <= j < |names| :: names[j] in v.fields
    requires Firsts(v.fields, names, |names|) == v.fields
    ensures ReadMembers(PrintMembers(v, names, i) + "}" + rest, Firsts(v.fields, names, i)) == Got(v, rest)
    decreases v, 1, |v.fields| - i
  {
    hide ReadValue, ReadMembers, ReadString, Print, PrintMembers, Quote;
    var name, x := names[i], v.fields[names[i]];
    var after := AfterValue(v, names, i, rest);
    var valued := ":" + Print(x) + after;
    MembersText(v, names, i, rest);
    QuoteBack(name, valued);
    ValueBack(x, after);
    NoBlanks(after);
    MemberRead(Quote(name) + valued, name, valued, x, after, Firsts(v.fields, names, i));
    if i + 1 != |names| {
      MembersBack(v, names, i + 1, rest);
    }
  }

  /** What follows the value of a printed member. */
  function AfterValue(v: Value, names: seq<string>, i: nat, rest: string): string
    requires v.Obj? && i < |names|
  {
    if i + 1 == |names| then "}" + rest else "," + PrintMembers(v, names, i + 1) + "}" + rest
  }

  lemma {:induction false} MembersText(v: Value, names: seq<string>, i: nat, rest: string)
    requires v.Obj? && i < |names| && names[i] in v.fields
    ensures var after := AfterValue(v, names, i, rest);
            && PrintMembers(v, names, i) + "}" + rest == Quote(names[i]) + (":" + Print(v.fields[names[i]]) + after)
            && (":" + Print(v.fields[names[i]]) + after)[1..] == Print(v.fields[names[i]]) + after
            && after != "" && !Blank(after[0]) && !NumberChar(after[0]) && after[0] == (if i + 1 == |names| then '}' else ',')
            && after[1..] == if i + 1 == |names| then rest else PrintMembers(v, names, i + 1) + "}" + rest
  {
    hide Quote, Print;
    if i + 1 == |names| {
      assert PrintMembers(v, names, i) == Quote(names[i]) + ":" + Print(v.fields[names[i]]);
    } else {
      assert PrintMembers(v, names, i) == Quote(names[i]) + ":" + Print(v.fields[names[i]]) + "," + PrintMembers(v, names, i + 1);
    }
  }
}
