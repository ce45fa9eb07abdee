/** JavaScript values as the strict copier sees them: own data properties, prototypes by realm, and
    whether a value is a proxy. */
module JsValues {
  import opened Options

  type Realm = nat

  /** UTF-16 code units. */
  type CodeUnit = c: int | 0 <= c < 0x1_0000
  type Text = seq<CodeUnit>

  datatype Number = Finite(value: real) | NegZero | NaN | PosInf | NegInf

  datatype Proto =
    | NoProto
    | ObjectProto(realm: Realm)
    | ArrayProto(realm: Realm)
    | EntityProto(realm: Realm)
    | OtherProto

  datatype Key = Index(index: nat) | Name(name: Text)

  datatype Property = Data(value: Value) | Accessor

  /** `own` has every own string-keyed property except an array's `length`; `symbols` counts the others. */
  datatype Value =
    | Undefined
    | Null
    | Boolean(truth: bool)
    | Num(number: Number)
    | Str(text: Text)
    | Function
    | Object(isProxy: bool, isArray: bool, length: nat, proto: Proto, own: map<Key, Property>, symbols: nat)

  const INDEX_NAME: Text := [0x69, 0x6E, 0x64, 0x65, 0x78]
  const ID_NAME: Text := [0x69, 0x64]
  const MAX_INDEX: real := 2147483647.0
  const MAX_ID: real := 9007199254740991.0

  /** `n - n === 0`. */
  predicate IsFinite(n: Number) {
    n.Finite? || n.NegZero?
  }

  /** An integer between zero and `top`; minus zero passes the comparisons and the remainder test. */
  predicate IntegerUpTo(n: Number, top: real) {
    match n
    case Finite(x) => 0.0 <= x <= top && x.Floor as real == x
    case NegZero => true
    case _ => false
  }

  /** No unpaired surrogate. */
  predicate WellFormed(s: Text) {
    if s == [] then true
    else if 0xD800 <= s[0] < 0xDC00 then
      |s| >= 2 && 0xDC00 <= s[1] < 0xE000 && WellFormed(s[2..])
    else
      !(0xDC00 <= s[0] < 0xE000) && WellFormed(s[1..])
  }

  /** The value of a number; both zeros are zero. */
  function Magnitude(n: Number): Option<real> {
    match n
    case Finite(x) => Some(x)
    case NegZero => Some(0.0)
    case _ => None
  }

  /** `a === b` for a primitive `b`. */
  predicate StrictlyEquals(a: Value, b: Value) {
    match (a, b)
    case (Num(x), Num(y)) =>
      if x.PosInf? || x.NegInf? then x == y else Magnitude(x).Some? && Magnitude(x) == Magnitude(y)
    case (Object(_, _, _, _, _, _), _) => false
    case (Function, _) => false
    case _ => a == b
  }

  /** The plain object `{...}`, the array `[...]` and the entity reference a realm builds. */
  function PlainObject(realm: Realm, own: map<Key, Property>): Value {
    Object(false, false, 0, ObjectProto(realm), own, 0)
  }

  function PlainArray(realm: Realm, items: seq<Value>): Value {
    Object(false, true, |items|, ArrayProto(realm), map k: Key | k in IndexKeys(|items|) :: Data(items[k.index]), 0)
  }

  function EntityRef(realm: Realm, index: Number, id: Number): Value {
    Object(false, false, 0, EntityProto(realm), map[Name(INDEX_NAME) := Data(Num(index)), Name(ID_NAME) := Data(Num(id))], 0)
  }

  /** The keys of a dense array of length `n`. */
  function IndexKeys(n: nat): (s: set<Key>)
    ensures |s| == n
    ensures forall k :: k in s <==> k.Index? && k.index < n
  {
    if n == 0 then {} else IndexKeys(n - 1) + {Index(n - 1)}
  }
}
