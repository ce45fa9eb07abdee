/** JSON values, the compact printer, and the reader. */
module Json {
  import opened Floats
  import opened Decimals
  import opened Options

  /** A whole number in the 64-bit ranges, or any other number by its literal. */
  datatype Number = Whole(i: int) | Other(literal: string)

  datatype Value =
    | Null
    | Bool(b: bool)
    | Num(n: Number)
    | Str(s: string)
    | Arr(items: seq<Value>)
    | Obj(fields: map<string, Value>)

  datatype Parsed<T> = Fail | Got(value: T, rest: string)

  // ---- the order of names ----

  /** Code-point order, which is the order of the UTF-8 bytes. */
  predicate Below(a: string, b: string) {
    if b == "" then false
    else if a == "" then true
    else a[0] < b[0] || (a[0] == b[0] && Below(a[1..], b[1..]))
  }

  lemma {:induction false} BelowTotal(a: string, b: string)
    ensures a != b ==> Below(a, b) || Below(b, a)
    ensures !(Below(a, b) && Below(b, a)) && !Below(a, a)
  {
    if a != "" && b != "" {
      BelowTotal(a[1..], b[1..]);
      BelowTotal(a[1..], a[1..]);
      if a[0] == b[0] {
        assert a == [a[0]] + a[1..] && b == [b[0]] + b[1..];
      }
    } else if a != "" {
      BelowTotal(a[1..], a[1..]);
    }
  }

  lemma {:induction false} BelowTransitive(a: string, b: string, c: string)
    requires Below(a, b) && Below(b, c)
    ensures Below(a, c)
  {
    if a != "" && a[0] == b[0] == c[0] {
      BelowTransitive(a[1..], b[1..], c[1..]);
    }
  }

  predicate IsFirst(names: set<string>, name: string) {
    name in names && forall other | other in names && other != name :: Below(name, other)
  }

  lemma {:induction false} FirstExists(names: set<string>)
    requires names != {}
    ensures exists name :: IsFirst(names, name)
    decreases names
  {
    var x :| x in names;
    var rest := names - {x};
    if rest == {} {
      assert forall other | other in names && other != x :: other in rest;
      assert IsFirst(names, x);
    } else {
      FirstExists(rest);
      var y :| IsFirst(rest, y);
      BelowTotal(x, y);
      if Below(x, y) {
        forall other | other in names && other != x ensures Below(x, other) {
          if other != y {
            BelowTransitive(x, y, other);
          }
        }
        assert IsFirst(names, x);
      } else {
        assert IsFirst(names, y);
      }
    }
  }

  lemma {:induction false} FirstUnique(names: set<string>, a: string, b: string)
    requires IsFirst(names, a) && IsFirst(names, b)
    ensures a == b
  {
    BelowTotal(a, b);
  }

  function First(names: set<string>): (name: string)
    requires names != {}
    ensures IsFirst(names, name)
  {
    FirstExists(names);
    assert forall a, b | IsFirst(names, a) && IsFirst(names, b) :: a == b by {
      forall a, b | IsFirst(names, a) && IsFirst(names, b) ensures a == b {
        FirstUnique(names, a, b);
      }
    }
    var name :| name in names && IsFirst(names, name);
    name
  }

  function Sorted(names: set<string>): (r: seq<string>)
    ensures |r| == |names|
  {
    if names == {} then [] else [First(names)] + Sorted(names - {First(names)})
  }

  /** Every name once, in increasing order. */
  lemma {:induction false} SortedNames(names: set<string>)
    ensures forall i | 0 <= i < |Sorted(names)| :: Sorted(names)[i] in names
    ensures forall name | name in names :: name in Sorted(names)
    ensures forall i, j | 0 <= i < j < |Sorted(names)| :: Below(Sorted(names)[i], Sorted(names)[j]) && Sorted(names)[i] != Sorted(names)[j]
    decreases names
  {
    if names != {} {
      var first := First(names);
      SortedNames(names - {first});
    }
  }

  // ---- printing ----

  function Hex(d: nat): char
    requires d < 16
  {
    "0123456789abcdef"[d]
  }

  function EscapeChar(c: char): (r: string)
    ensures r != ""
  {
    if c == '"' then "\\\""
    else if c == '\\' then "\\\\"
    else if c == 8 as char then "\\b"
    else if c == '\t' then "\\t"
    else if c == '\n' then "\\n"
    else if c == 12 as char then "\\f"
    else if c == '\r' then "\\r"
    else if c < ' ' then "\\u00" + [Hex(c as int / 16), Hex(c as int % 16)]
    else [c]
  }

  function Escape(s: string): string {
    if s == "" then "" else EscapeChar(s[0]) + Escape(s[1..])
  }

  function Quote(s: string): string {
    "\"" + Escape(s) + "\""
  }

  function PrintNumber(n: Number): string {
    match n
    case Whole(i) => if i < 0 then "-" + Decimal(-i) else Decimal(i)
    case Other(literal) => literal
  }

  function Print(v: Value): string
    decreases v, 2
  {
    match v
    case Null => "null"
    case Bool(b) => if b then "true" else "false"
    case Num(n) => PrintNumber(n)
    case Str(s) => Quote(s)
    case Arr(items) => "[" + PrintItems(v, 0) + "]"
    case Obj(fields) => "{" + PrintMembers(v, Sorted(fields.Keys), 0) + "}"
  }

  function PrintItems(v: Value, i: nat): string
    requires v.Arr? && i <= |v.items|
    decreases v, 1, |v.items| - i
  {
    if i == |v.items| then ""
    else if i + 1 == |v.items| then Print(v.items[i])
    else Print(v.items[i]) + "," + PrintItems(v, i + 1)
  }

  function PrintMembers(v: Value, names: seq<string>, i: nat): string
    requires v.Obj? && i <= |names|
    decreases v, 1, |names| - i
  {
    if i == |names| || names[i] !in v.fields then ""
    else if i + 1 == |names| then Quote(names[i]) + ":" + Print(v.fields[names[i]])
    else Quote(names[i]) + ":" + Print(v.fields[names[i]]) + "," + PrintMembers(v, names, i + 1)
  }

  // ---- reading ----

  predicate Blank(c: char) {
    c == ' ' || c == '\n' || c == '\t' || c == '\r'
  }

  function SkipBlanks(s: string): (r: string)
    ensures |r| <= |s|
  {
    if s != "" && Blank(s[0]) then SkipBlanks(s[1..]) else s
  }

  function HexValue(c: char): Option<nat> {
    if '0' <= c <= '9' then Some(c as int - '0' as int)
    else if 'a' <= c <= 'f' then Some(c as int - 'a' as int + 10)
    else if 'A' <= c <= 'F' then Some(c as int - 'A' as int + 10)
    else None
  }

  /** Four hexadecimal digits. */
  function HexFour(s: string): Option<nat> {
    if |s| < 4 then None
    else match (HexValue(s[0]), HexValue(s[1]), HexValue(s[2]), HexValue(s[3]))
      case (Some(a), Some(b), Some(c), Some(d)) => Some(((a * 16 + b) * 16 + c) * 16 + d)
      case _ => None
  }

  /** The character an escape after the backslash stands for. */
  function Unescape(s: string): (r: Parsed<char>)
    ensures r.Got? ==> |r.rest| < |s|
  {
    if s == "" then Fail
    else if s[0] == '"' || s[0] == '\\' || s[0] == '/' then Got(s[0], s[1..])
    else if s[0] == 'b' then Got(8 as char, s[1..])
    else if s[0] == 'f' then Got(12 as char, s[1..])
    else if s[0] == 'n' then Got('\n', s[1..])
    else if s[0] == 'r' then Got('\r', s[1..])
    else if s[0] == 't' then Got('\t', s[1..])
    else if s[0] == 'u' && HexFour(s[1..]).Some? then
      var unit := HexFour(s[1..]).value;
      if unit < 0xD800 || 0xE000 <= unit < 0x1_0000 then Got(unit as char, s[5..])
      else if unit < 0xDC00 && |s| >= 11 && s[5] == '\\' && s[6] == 'u' && HexFour(s[7..]).Some?
              && 0xDC00 <= HexFour(s[7..]).value < 0xE000 then
        Got((0x1_0000 + (unit - 0xD800) * 0x400 + HexFour(s[7..]).value - 0xDC00) as char, s[11..])
      else Fail
    else Fail
  }

  /** The rest of a string after its opening quote. */
  function ReadString(s: string): (r: Parsed<string>)
    ensures r.Got? ==> |r.rest| < |s|
  {
    if s == "" then Fail
    else if s[0] == '"' then Got("", s[1..])
    else if s[0] == '\\' then
      match Unescape(s[1..])
      case Fail => Fail
      case Got(c, rest) =>
        (match ReadString(rest)
         case Fail => Fail
         case Got(t, rest') => Got([c] + t, rest'))
    else if s[0] < ' ' then Fail
    else
      match ReadString(s[1..])
      case Fail => Fail
      case Got(t, rest) => Got([s[0]] + t, rest)
  }

  predicate NumberChar(c: char) {
    IsDigit(c) || c == '-' || c == '+' || c == '.' || c == 'e' || c == 'E'
  }

  function RunLength(s: string): (n: nat)
    ensures n <= |s|
  {
    if s != "" && NumberChar(s[0]) then 1 + RunLength(s[1..]) else 0
  }

  /** No leading zero, except for zero itself. */
  predicate NaturalLiteral(s: string) {
    Digits(s) && (s[0] == '0' ==> |s| == 1)
  }

  const I64_MIN: int := -0x8000_0000_0000_0000
  const U64_MAX: int := 0xFFFF_FFFF_FFFF_FFFF

  predicate InRange(i: int) {
    I64_MIN <= i <= U64_MAX
  }

  function WholeOf(s: string): Option<int> {
    if NaturalLiteral(s) && InRange(DigitsValue(s)) then Some(DigitsValue(s))
    else if s != "" && s[0] == '-' && NaturalLiteral(s[1..]) && DigitsValue(s[1..]) != 0 && InRange(0 - DigitsValue(s[1..]))
    then Some(0 - DigitsValue(s[1..]))
    else None
  }

  predicate Fraction(s: string) {
    s == "" || (s[0] == '.' && Digits(s[1..]))
  }

  predicate Exponent(s: string) {
    s == "" || ((s[0] == 'e' || s[0] == 'E') && Digits(if |s| > 1 && (s[1] == '+' || s[1] == '-') then s[2..] else s[1..]))
  }

  /** The number grammar, section 6 of RFC 8259. */
  predicate NumberLiteral(s: string) {
    var t := if s != "" && s[0] == '-' then s[1..] else s;
    var e := IndexOf(t, 'e', 'E');
    var dot := IndexOf(t[..e], '.', '.');
    NaturalLiteral(t[..dot]) && Fraction(t[dot..e]) && Exponent(t[e..])
  }

  /** The literals of the numbers that are not whole ones of 64 bits. */
  predicate OtherLiteral(s: string) {
    NumberLiteral(s) && WholeOf(s).None? && Representable(LiteralReal(s))
  }

  function ReadNumber(s: string): (r: Parsed<Value>)
    ensures r.Got? ==> |r.rest| < |s|
  {
    var n := RunLength(s);
    var literal := s[..n];
    if WholeOf(literal).Some? then Got(Num(Whole(WholeOf(literal).value)), s[n..])
    else if OtherLiteral(literal) then Got(Num(Other(literal)), s[n..])
    else Fail
  }

  function PowerOfTen(x: int): real
    decreases if x < 0 then -x else x
  {
    if x == 0 then 1.0 else if x > 0 then 10.0 * PowerOfTen(x - 1) else PowerOfTen(x + 1) / 10.0
  }

  function IndexOf(s: string, a: char, b: char): (n: nat)
    ensures n <= |s|
  {
    if s == "" || s[0] == a || s[0] == b then 0 else 1 + IndexOf(s[1..], a, b)
  }

  function SignedDigits(s: string): int {
    if s != "" && s[0] == '-' then 0 - DigitsValue(s[1..])
    else if s != "" && s[0] == '+' then DigitsValue(s[1..])
    else DigitsValue(s)
  }

  function Unsigned(s: string): real {
    var dot := IndexOf(s, '.', '.');
    DigitsValue(s[..dot]) as real
    + if dot == |s| then 0.0 else DigitsValue(s[dot + 1..]) as real * PowerOfTen(-(|s| - dot - 1))
  }

  /** The number a literal stands for. */
  function LiteralReal(s: string): real {
    var e := IndexOf(s, 'e', 'E');
    var m := s[..e];
    var x := if e == |s| then 0 else SignedDigits(s[e + 1..]);
    (if m != "" && m[0] == '-' then -Unsigned(m[1..]) else Unsigned(m)) * PowerOfTen(x)
  }

  predicate Starts(s: string, word: string) {
    |s| >= |word| && s[..|word|] == word
  }

  function ReadValue(s: string): (r: Parsed<Value>)
    ensures r.Got? ==> |r.rest| < |s|
    decreases |s|, 0
  {
    var t := SkipBlanks(s);
    if t == "" then Fail
    else if t[0] == '"' then
      match ReadString(t[1..])
      case Fail => Fail
      case Got(x, rest) => Got(Str(x), rest)
    else if t[0] == '{' then
      var u := SkipBlanks(t[1..]);
      if u != "" && u[0] == '}' then Got(Obj(map[]), u[1..]) else ReadMembers(t[1..], map[])
    else if t[0] == '[' then
      var u := SkipBlanks(t[1..]);
      if u != "" && u[0] == ']' then Got(Arr([]), u[1..]) else ReadItems(t[1..], [])
    else if Starts(t, "null") then Got(Null, t[4..])
    else if Starts(t, "true") then Got(Bool(true), t[4..])
    else if Starts(t, "false") then Got(Bool(false), t[5..])
    else ReadNumber(t)
  }

  function ReadItems(s: string, items: seq<Value>): (r: Parsed<Value>)
    ensures r.Got? ==> |r.rest| < |s|
    decreases |s|, 1
  {
    match ReadValue(s)
    case Fail => Fail
    case Got(v, rest) =>
      var t := SkipBlanks(rest);
      if t == "" then Fail
      else if t[0] == ',' then ReadItems(t[1..], items + [v])
      else if t[0] == ']' then Got(Arr(items + [v]), t[1..])
      else Fail
  }

  function ReadMembers(s: string, fields: map<string, Value>): (r: Parsed<Value>)
    ensures r.Got? ==> |r.rest| < |s|
    decreases |s|, 1
  {
    var t := SkipBlanks(s);
    if t == "" || t[0] != '"' then Fail
    else match ReadString(t[1..])
      case Fail => Fail
      case Got(name, rest) =>
        var u := SkipBlanks(rest);
        if u == "" || u[0] != ':' then Fail
        else match ReadValue(u[1..])
          case Fail => Fail
          case Got(v, rest') => AfterMember(SkipBlanks(rest'), fields[name := v])
  }

  /** A comma and more members, or the closing brace. */
  function AfterMember(t: string, fields: map<string, Value>): (r: Parsed<Value>)
    ensures r.Got? ==> |r.rest| < |t|
    decreases |t|, 2
  {
    if t == "" then Fail
    else if t[0] == ',' then ReadMembers(t[1..], fields)
    else if t[0] == '}' then Got(Obj(fields), t[1..])
    else Fail
  }

  /** A whole document: one value and blanks. */
  function ReadDocument(s: string): Option<Value> {
    match ReadValue(s)
    case Fail => None
    case Got(v, rest) => if SkipBlanks(rest) == "" then Some(v) else None
  }
}
