/** Interface schemas: what conforms to one, and the strict copy as a pure function. */
module Contract {
  import opened JsValues
  import opened Options

  datatype Simple = NullKind | BoolKind | NumKind | StrKind | VoidKind | EntityKind

  datatype Field = Field(key: Key, schema: Schema, optional: bool)

  datatype Schema =
    | Basic(kind: Simple)
    | Literal(literal: Value)
    | Array(item: Schema)
    | Record(fields: seq<Field>)
    | Union(variants: seq<Schema>)

  const MAX_DEPTH: nat := 64

  /** The fields of a record have different keys. */
  ghost predicate DistinctKeys(s: Schema) {
    match s
    case Array(item) => DistinctKeys(item)
    case Record(fields) =>
      && (forall i, j | 0 <= i < j < |fields| :: fields[i].key != fields[j].key)
      && (forall i | 0 <= i < |fields| :: DistinctKeys(fields[i].schema))
    case Union(variants) => forall i | 0 <= i < |variants| :: DistinctKeys(variants[i])
    case _ => true
  }

  // ---- conformance ----

  ghost predicate ConformsBasic(kind: Simple, v: Value, src: Realm) {
    match kind
    case NullKind => v == Null
    case BoolKind => v.Boolean?
    case NumKind => v.Num? && IsFinite(v.number)
    case StrKind => v.Str? && WellFormed(v.text)
    case VoidKind => false
    case EntityKind => IsEntity(v, src)
  }

  /** Exactly the data properties `index` and `id`, both integers in range. */
  predicate IsEntity(v: Value, src: Realm) {
    && v.Object? && !v.isProxy && v.proto == EntityProto(src) && !v.isArray && v.symbols == 0
    && v.own.Keys == {Name(INDEX_NAME), Name(ID_NAME)}
    && v.own[Name(INDEX_NAME)].Data? && v.own[Name(ID_NAME)].Data?
    && var index, id := v.own[Name(INDEX_NAME)].value, v.own[Name(ID_NAME)].value;
       index.Num? && id.Num? && IntegerUpTo(index.number, MAX_INDEX) && IntegerUpTo(id.number, MAX_ID)
  }

  /** `v` may be copied under `s`: exact keys, dense arrays, finite numbers, well-formed strings, bounded depth. */
  ghost predicate Conforms(s: Schema, v: Value, src: Realm, depth: nat)
    decreases s
  {
    && depth <= MAX_DEPTH
    && match s
       case Basic(kind) => ConformsBasic(kind, v, src)
       case Literal(literal) => StrictlyEquals(v, literal)
       case Array(item) =>
         && v.Object? && !v.isProxy && v.isArray && v.symbols == 0
         && v.own.Keys == IndexKeys(v.length)
         && forall k | k in v.own :: v.own[k].Data? && Conforms(item, v.own[k].value, src, depth + 1)
       case Record(fields) =>
         && v.Object? && !v.isProxy && !v.isArray && v.symbols == 0
         && (v.proto == NoProto || v.proto == ObjectProto(src))
         && (forall k | k in v.own :: exists i :: 0 <= i < |fields| && fields[i].key == k)
         && (forall i | 0 <= i < |fields| ::
               if fields[i].key in v.own
               then v.own[fields[i].key].Data? && Conforms(fields[i].schema, v.own[fields[i].key].value, src, depth + 1)
               else fields[i].optional)
       case Union(variants) => exists i :: 0 <= i < |variants| && Conforms(variants[i], v, src, depth)
  }

  // ---- the copy ----

  predicate Primitive(s: Schema) {
    match s
    case Basic(kind) => kind != EntityKind
    case Literal(_) => true
    case Union(variants) => forall i | 0 <= i < |variants| :: Primitive(variants[i])
    case _ => false
  }

  predicate Check(s: Schema, v: Value) {
    match s
    case Basic(NullKind) => v == Null
    case Basic(BoolKind) => v.Boolean?
    case Basic(NumKind) => v.Num? && IsFinite(v.number)
    case Basic(StrKind) => v.Str? && WellFormed(v.text)
    case Literal(literal) => StrictlyEquals(v, literal)
    case Union(variants) => exists i | 0 <= i < |variants| :: Check(variants[i], v)
    case _ => false
  }

  /** What a field contributes: absent, a copied value, or failure of the whole record. */
  datatype Outcome = Absent | Copied(value: Value)

  function Copy(s: Schema, v: Value, src: Realm, dst: Realm, depth: nat): (r: Option<Value>)
    decreases s, 3
  {
    if depth > MAX_DEPTH then None
    else if Primitive(s) then (if Check(s, v) then Some(v) else None)
    else match s
      case Basic(_) => CopyEntity(v, src, dst)
      case Literal(_) => None
      case Array(_) => CopyArray(s, v, src, dst, depth)
      case Record(_) => CopyRecord(s, v, src, dst, depth)
      case Union(variants) => CopyVariant(s, v, src, dst, depth, 0)
  }

  function CopyEntity(v: Value, src: Realm, dst: Realm): Option<Value> {
    if IsEntity(v, src)
    then Some(EntityRef(dst, v.own[Name(INDEX_NAME)].value.number, v.own[Name(ID_NAME)].value.number))
    else None
  }

  function CopyArray(s: Schema, v: Value, src: Realm, dst: Realm, depth: nat): Option<Value>
    requires s.Array?
    decreases s, 2
  {
    if !v.Object? || v.isProxy || !v.isArray || |v.own| != v.length || v.symbols != 0 then None
    else match CopyItems(s, v, src, dst, depth, v.length)
      case None => None
      case Some(items) => Some(PlainArray(dst, items))
  }

  /** The copies of the first `n` items. */
  function CopyItems(s: Schema, v: Value, src: Realm, dst: Realm, depth: nat, n: nat): (r: Option<seq<Value>>)
    requires s.Array? && v.Object?
    ensures r.Some? ==> |r.value| == n
    decreases s, 1, n
  {
    if n == 0 then Some([]) else
      match CopyItems(s, v, src, dst, depth, n - 1)
      case None => None
      case Some(items) =>
        if Index(n - 1) !in v.own || v.own[Index(n - 1)].Accessor? then None else
          match Copy(s.item, v.own[Index(n - 1)].value, src, dst, depth + 1)
          case None => None
          case Some(x) => Some(items + [x])
  }

  function CopyRecord(s: Schema, v: Value, src: Realm, dst: Realm, depth: nat): Option<Value>
    requires s.Record?
    decreases s, 2
  {
    if !v.Object? || v.isProxy || v.isArray || (v.proto != NoProto && v.proto != ObjectProto(src)) then None
    else match CopyFields(s, v, src, dst, depth, |s.fields|)
      case None => None
      case Some(outcomes) =>
        if |v.own| != CountCopied(outcomes) || v.symbols != 0 then None
        else Some(PlainObject(dst, Assemble(s.fields, outcomes)))
  }

  /** The outcomes of the first `n` fields. */
  function CopyFields(s: Schema, v: Value, src: Realm, dst: Realm, depth: nat, n: nat): (r: Option<seq<Outcome>>)
    requires s.Record? && v.Object? && n <= |s.fields|
    ensures r.Some? ==> |r.value| == n
    decreases s, 1, n
  {
    if n == 0 then Some([]) else
      match CopyFields(s, v, src, dst, depth, n - 1)
      case None => None
      case Some(outcomes) =>
        match CopyField(s, v, src, dst, depth, n - 1)
        case None => None
        case Some(o) => Some(outcomes + [o])
  }

  function CopyField(s: Schema, v: Value, src: Realm, dst: Realm, depth: nat, i: nat): Option<Outcome>
    requires s.Record? && v.Object? && i < |s.fields|
    decreases s, 0
  {
    var f := s.fields[i];
    if f.key !in v.own then (if f.optional then Some(Absent) else None)
    else if v.own[f.key].Accessor? then None
    else
      match Copy(f.schema, v.own[f.key].value, src, dst, depth + 1)
      case None => None
      case Some(x) => Some(Copied(x))
  }

  function CountCopied(outcomes: seq<Outcome>): nat {
    if outcomes == [] then 0
    else CountCopied(outcomes[..|outcomes| - 1]) + if outcomes[|outcomes| - 1].Copied? then 1 else 0
  }

  /** The own properties of the copy: the fields that are present. */
  function Assemble(fields: seq<Field>, outcomes: seq<Outcome>): map<Key, Property>
    requires |outcomes| <= |fields|
  {
    if outcomes == [] then map[] else
      var n := |outcomes| - 1;
      var before := Assemble(fields, outcomes[..n]);
      if outcomes[n].Copied? then before[fields[n].key := Data(outcomes[n].value)] else before
  }

  /** The first variant, from number `i` on, that accepts the value. */
  function CopyVariant(s: Schema, v: Value, src: Realm, dst: Realm, depth: nat, i: nat): Option<Value>
    requires s.Union?
    decreases s, 1, |s.variants| - i
  {
    if i >= |s.variants| then None else
      match Copy(s.variants[i], v, src, dst, depth)
      case Some(x) => Some(x)
      case None => CopyVariant(s, v, src, dst, depth, i + 1)
  }
}
