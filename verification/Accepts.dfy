/** Which values the strict copy accepts, kind by kind and in JavaScript's own terms. */
module Accepts {
  import opened JsValues
  import opened Options
  import opened Contract
  import opened ContractLaws

  predicate Lead(c: CodeUnit) {
    0xD800 <= c < 0xDC00
  }

  predicate Trail(c: CodeUnit) {
    0xDC00 <= c < 0xE000
  }

  /** Every leading surrogate is followed by a trailing one, and every trailing one follows a leading one. */
  ghost predicate AllPaired(s: Text) {
    && (forall i | 0 <= i < |s| && Lead(s[i]) :: i + 1 < |s| && Trail(s[i + 1]))
    && (forall i | 0 <= i < |s| && Trail(s[i]) :: i > 0 && Lead(s[i - 1]))
  }

  lemma {:induction false} WellFormedExactly(s: Text)
    ensures WellFormed(s) <==> AllPaired(s)
    decreases |s|
  {
    if s != [] && !Trail(s[0]) {
      var n := if Lead(s[0]) then 2 else 1;
      if n <= |s| && (n == 2 ==> Trail(s[1])) {
        WellFormedExactly(s[n..]);
        PairedFrom(s, n);
      }
    }
  }

  lemma {:induction false} PairedFrom(s: Text, n: nat)
    requires 0 < n <= |s| && !Lead(s[n - 1]) && AllPaired(s[..n])
    ensures AllPaired(s) <==> AllPaired(s[n..])
  {
    if AllPaired(s) {
      forall i | 0 <= i < |s| - n ensures (Lead(s[n..][i]) ==> i + 1 < |s| - n && Trail(s[n..][i + 1])) && (Trail(s[n..][i]) ==> i > 0 && Lead(s[n..][i - 1])) {
        assert s[n..][i] == s[n + i];
        assert Trail(s[n + i]) ==> Lead(s[n + i - 1]);
      }
    }
    if AllPaired(s[n..]) {
      forall i | 0 <= i < |s| ensures (Lead(s[i]) ==> i + 1 < |s| && Trail(s[i + 1])) && (Trail(s[i]) ==> i > 0 && Lead(s[i - 1])) {
        if i >= n {
          assert s[n..][i - n] == s[i];
          assert Trail(s[i]) ==> i - n > 0 && Lead(s[n..][i - n - 1]);
          assert Lead(s[i]) ==> i - n + 1 < |s| - n && Trail(s[n..][i - n + 1]);
        } else {
          assert s[..n][i] == s[i];
          assert Lead(s[i]) ==> i + 1 < n && Trail(s[..n][i + 1]);
          assert Trail(s[i]) ==> i > 0 && Lead(s[..n][i - 1]);
        }
      }
    }
  }

  /** Minus zero, or a whole number from 0 to `top`. */
  predicate WholeUpTo(n: Number, top: int) {
    n == NegZero || (n.Finite? && n.value == n.value.Floor as real && 0 <= n.value.Floor <= top)
  }

  /** A reference has no own property but `index`, of 31 bits, and `id`, of 53, and nothing stands between them and the reader. */
  ghost predicate Reference(v: Value, src: Realm) {
    && v.Object?
    && exists index, id :: WholeUpTo(index, 0x7FFF_FFFF) && WholeUpTo(id, 0x1F_FFFF_FFFF_FFFF)
         && v == Object(false, false, v.length, EntityProto(src), Members(index, id), 0)
  }

  function Members(index: Number, id: Number): map<Key, Property> {
    map[Name(['i' as int, 'n' as int, 'd' as int, 'e' as int, 'x' as int]) := Data(Num(index)), Name(['i' as int, 'd' as int]) := Data(Num(id))]
  }

  lemma {:induction false} EntityExactly(v: Value, src: Realm)
    ensures IsEntity(v, src) <==> Reference(v, src)
  {
    var a, b := Name(['i' as int, 'n' as int, 'd' as int, 'e' as int, 'x' as int]), Name(['i' as int, 'd' as int]);
    assert Name(INDEX_NAME) == a && Name(ID_NAME) == b && a != b by {
      assert |INDEX_NAME| != |ID_NAME|;
    }
    if IsEntity(v, src) {
      var index, id := v.own[a].value.number, v.own[b].value.number;
      assert v.own == Members(index, id);
      assert WholeUpTo(index, 0x7FFF_FFFF) && WholeUpTo(id, 0x1F_FFFF_FFFF_FFFF);
    }
    if Reference(v, src) {
      var index, id :| WholeUpTo(index, 0x7FFF_FFFF) && WholeUpTo(id, 0x1F_FFFF_FFFF_FFFF)
        && v == Object(false, false, v.length, EntityProto(src), Members(index, id), 0);
      assert v.own.Keys == {a, b};
    }
  }

  /** What each basic kind takes, down to 64 levels: a reference is made anew, and anything else is its own copy. */
  lemma {:induction false} BasicExactly(kind: Simple, v: Value, src: Realm, dst: Realm, depth: nat)
    ensures var good := && depth <= 64
                        && match kind
                           case NullKind => v == Null
                           case BoolKind => v == Boolean(true) || v == Boolean(false)
                           case NumKind => v.Num? && v.number != NaN && v.number != PosInf && v.number != NegInf
                           case StrKind => v.Str? && AllPaired(v.text)
                           case VoidKind => false
                           case EntityKind => Reference(v, src);
            Copy(Basic(kind), v, src, dst, depth)
            == if !good then None else if kind == EntityKind then Some(Object(false, false, 0, EntityProto(dst), v.own, 0)) else Some(v)
  {
    hide WellFormed, AllPaired, IsEntity, Reference, EntityRef;
    if v.Str? {
      WellFormedExactly(v.text);
    }
    EntityExactly(v, src);
    if kind == EntityKind && IsEntity(v, src) {
      SameMembers(v, src, dst);
    }
  }

  lemma {:induction false} SameMembers(v: Value, src: Realm, dst: Realm)
    requires IsEntity(v, src)
    ensures CopyEntity(v, src, dst) == Some(Object(false, false, 0, EntityProto(dst), v.own, 0))
  {
    var r := CopyEntity(v, src, dst).value;
    assert |INDEX_NAME| != |ID_NAME|;
    assert r.own == v.own;
  }

  /** A literal takes itself alone: of the numbers the two zeros are one, and NaN takes nothing. */
  lemma {:induction false} LiteralExactly(literal: Value, v: Value, src: Realm, dst: Realm, depth: nat)
    requires depth <= 64 && !literal.Object? && literal != Function
    ensures Copy(Literal(literal), v, src, dst, depth) ==
            if literal != Num(NaN) && (v == literal || (v in ZEROS && literal in ZEROS)) then Some(v) else None
  {
  }

  const ZEROS: set<Value> := {Num(Finite(0.0)), Num(NegZero)}

  // ---- the parts of a copy ----

  lemma {:induction false} ItemsCopied(s: Schema, v: Value, src: Realm, dst: Realm, depth: nat, n: nat)
    requires s.Array? && v.Object? && CopyItems(s, v, src, dst, depth, n).Some?
    ensures forall i | 0 <= i < n :: Index(i) in v.own && v.own[Index(i)].Data?
              && Copy(s.item, v.own[Index(i)].value, src, dst, depth + 1) == Some(CopyItems(s, v, src, dst, depth, n).value[i])
  {
    hide Copy;
    if n > 0 {
      ItemsCopied(s, v, src, dst, depth, n - 1);
    }
  }

  /** The copy of an array is a plain array of the destination, and at each index it has the copy of what was there, one level down. */
  lemma {:induction false} ArrayCopied(item: Schema, v: Value, src: Realm, dst: Realm, depth: nat)
    requires Copy(Array(item), v, src, dst, depth).Some?
    ensures var r := Copy(Array(item), v, src, dst, depth).value;
            && v.Object? && r.Object? && r == Object(false, true, v.length, ArrayProto(dst), r.own, 0)
            && (forall k :: k in r.own <==> k.Index? && k.index < v.length)
            && forall i | 0 <= i < v.length ::
                 && Index(i) in v.own && v.own[Index(i)].Data? && r.own[Index(i)].Data?
                 && Copy(item, v.own[Index(i)].value, src, dst, depth + 1) == Some(r.own[Index(i)].value)
  {
    ItemsCopied(Array(item), v, src, dst, depth, v.length);
    hide CopyItems;
    var r := Copy(Array(item), v, src, dst, depth).value;
    assert r == PlainArray(dst, CopyItems(Array(item), v, src, dst, depth, v.length).value);
  }

  lemma {:induction false} FieldsCopied(s: Schema, v: Value, src: Realm, dst: Realm, depth: nat, n: nat, i: nat)
    requires s.Record? && v.Object? && i < n <= |s.fields| && CopyFields(s, v, src, dst, depth, n).Some?
    requires forall a, b | 0 <= a < b < |s.fields| :: s.fields[a].key != s.fields[b].key
    requires s.fields[i].key in v.own
    ensures var own, key := Assemble(s.fields, CopyFields(s, v, src, dst, depth, n).value), s.fields[i].key;
            && v.own[key].Data? && key in own && own[key].Data?
            && Copy(s.fields[i].schema, v.own[key].value, src, dst, depth + 1) == Some(own[key].value)
    decreases n
  {
    hide Copy, CopyFields, Assemble;
    FieldsNext(s, v, src, dst, depth, n);
    AssembleNext(s.fields, CopyFields(s, v, src, dst, depth, n - 1).value, CopyField(s, v, src, dst, depth, n - 1).value);
    if i < n - 1 {
      FieldsCopied(s, v, src, dst, depth, n - 1, i);
      assert s.fields[i].key != s.fields[n - 1].key;
    }
  }

  lemma {:induction false} FieldsNext(s: Schema, v: Value, src: Realm, dst: Realm, depth: nat, n: nat)
    requires s.Record? && v.Object? && 0 < n <= |s.fields| && CopyFields(s, v, src, dst, depth, n).Some?
    ensures CopyFields(s, v, src, dst, depth, n - 1).Some? && CopyField(s, v, src, dst, depth, n - 1).Some?
    ensures CopyFields(s, v, src, dst, depth, n).value
            == CopyFields(s, v, src, dst, depth, n - 1).value + [CopyField(s, v, src, dst, depth, n - 1).value]
  {
    hide CopyField;
  }

  lemma {:induction false} AssembleNext(fields: seq<Field>, outcomes: seq<Outcome>, o: Outcome)
    requires |outcomes| < |fields|
    ensures Assemble(fields, outcomes + [o])
            == if o.Copied? then Assemble(fields, outcomes)[fields[|outcomes|].key := Data(o.value)] else Assemble(fields, outcomes)
  {
    assert (outcomes + [o])[..|outcomes|] == outcomes;
  }

  /** The copy of a record is a plain object of the destination with the same keys, and under each key it has the copy of what was
      there, one level down, by the schema of the field. */
  lemma {:induction false} RecordCopied(fields: seq<Field>, v: Value, src: Realm, dst: Realm, depth: nat)
    requires DistinctKeys(Record(fields)) && Copy(Record(fields), v, src, dst, depth).Some?
    ensures var r := Copy(Record(fields), v, src, dst, depth).value;
            && v.Object? && r.Object? && r == Object(false, false, 0, ObjectProto(dst), r.own, 0)
            && r.own.Keys == v.own.Keys
            && forall i | 0 <= i < |fields| && fields[i].key in v.own ::
                 && v.own[fields[i].key].Data? && r.own[fields[i].key].Data?
                 && Copy(fields[i].schema, v.own[fields[i].key].value, src, dst, depth + 1) == Some(r.own[fields[i].key].value)
  {
    var s := Record(fields);
    var n := |fields|;
    var r := Copy(s, v, src, dst, depth).value;
    assert r == PlainObject(dst, Assemble(fields, CopyFields(s, v, src, dst, depth, n).value));
    RecordKeys(s, v, src, dst, depth);
    forall i | 0 <= i < n && fields[i].key in v.own
      ensures v.own[fields[i].key].Data? && fields[i].key in r.own && r.own[fields[i].key].Data?
              && Copy(fields[i].schema, v.own[fields[i].key].value, src, dst, depth + 1) == Some(r.own[fields[i].key].value) {
      FieldsCopied(s, v, src, dst, depth, n, i);
    }
  }

  lemma {:induction false} RecordKeys(s: Schema, v: Value, src: Realm, dst: Realm, depth: nat)
    requires s.Record? && DistinctKeys(s) && CopyRecord(s, v, src, dst, depth).Some?
    ensures CopyRecord(s, v, src, dst, depth).value.own.Keys == v.own.Keys
  {
    hide Copy, Faithful;
    FieldsFaithful(s, v, src, dst, depth, |s.fields|);
    CountPresent(s, v, src, dst, depth, |s.fields|);
    SubsetOfSameSize(PresentKeys(s, v, |s.fields|), v.own.Keys);
  }

  /** A union copies by its first variant that accepts. */
  lemma {:induction false} UnionCopied(variants: seq<Schema>, v: Value, src: Realm, dst: Realm, depth: nat, i: nat)
    requires depth <= 64 && i < |variants| && Copy(variants[i], v, src, dst, depth).Some?
    requires forall j | 0 <= j < i :: Copy(variants[j], v, src, dst, depth).None?
    ensures Copy(Union(variants), v, src, dst, depth) == Copy(variants[i], v, src, dst, depth)
  {
    if !Primitive(Union(variants)) {
      VariantFirst(Union(variants), v, src, dst, depth, 0, i);
    }
  }

  lemma {:induction false} VariantFirst(s: Schema, v: Value, src: Realm, dst: Realm, depth: nat, from: nat, i: nat)
    requires s.Union? && from <= i < |s.variants| && Copy(s.variants[i], v, src, dst, depth).Some?
    requires forall j | from <= j < i :: Copy(s.variants[j], v, src, dst, depth).None?
    ensures CopyVariant(s, v, src, dst, depth, from) == Copy(s.variants[i], v, src, dst, depth)
    decreases i - from
  {
    hide Copy;
    if from < i {
      VariantFirst(s, v, src, dst, depth, from + 1, i);
    }
  }
}
