/** What the strict copy promises: it accepts exactly the conforming values, returns an equal tree, and
    copying a copy is the same as copying the original. */
module ContractLaws {
  import opened JsValues
  import opened Options
  import opened Contract

  // ---- acceptance ----

  lemma {:induction false} CheckIffConforms(s: Schema, v: Value, src: Realm, depth: nat)
    requires Primitive(s) && depth <= MAX_DEPTH
    ensures Check(s, v) <==> Conforms(s, v, src, depth)
    decreases s
  {
    if s.Union? {
      forall i | 0 <= i < |s.variants| ensures Check(s.variants[i], v) <==> Conforms(s.variants[i], v, src, depth) {
        CheckIffConforms(s.variants[i], v, src, depth);
      }
    }
  }

  lemma {:induction false} SubsetOfSameSize<T>(a: set<T>, b: set<T>)
    requires a <= b && |a| == |b|
    ensures a == b
  {
    assert |b - a| == |b| - |a|;
  }

  ghost predicate ItemOk(s: Schema, v: Value, src: Realm, depth: nat, i: nat)
    requires s.Array? && v.Object?
  {
    && Index(i) in v.own && v.own[Index(i)].Data?
    && Conforms(s.item, v.own[Index(i)].value, src, depth + 1)
  }

  ghost predicate FieldOk(s: Schema, v: Value, src: Realm, depth: nat, i: nat)
    requires s.Record? && v.Object? && i < |s.fields|
  {
    var f := s.fields[i];
    if f.key in v.own then v.own[f.key].Data? && Conforms(f.schema, v.own[f.key].value, src, depth + 1) else f.optional
  }

  lemma {:induction false} ItemsAccepted(s: Schema, v: Value, src: Realm, dst: Realm, depth: nat, n: nat)
    requires s.Array? && v.Object? && DistinctKeys(s)
    ensures CopyItems(s, v, src, dst, depth, n).Some? <==> forall i | 0 <= i < n :: ItemOk(s, v, src, depth, i)
    decreases s, 1, n
  {
    if n != 0 {
      ItemsAccepted(s, v, src, dst, depth, n - 1);
      if Index(n - 1) in v.own && v.own[Index(n - 1)].Data? {
        Accepted(s.item, v.own[Index(n - 1)].value, src, dst, depth + 1);
      }
      assert (forall i | 0 <= i < n :: ItemOk(s, v, src, depth, i)) <==>
             (forall i | 0 <= i < n - 1 :: ItemOk(s, v, src, depth, i)) && ItemOk(s, v, src, depth, n - 1);
    }
  }

  lemma {:induction false} FieldsAccepted(s: Schema, v: Value, src: Realm, dst: Realm, depth: nat, n: nat)
    requires s.Record? && v.Object? && n <= |s.fields| && DistinctKeys(s)
    ensures CopyFields(s, v, src, dst, depth, n).Some? <==> forall i | 0 <= i < n :: FieldOk(s, v, src, depth, i)
    decreases s, 1, n
  {
    if n != 0 {
      FieldsAccepted(s, v, src, dst, depth, n - 1);
      var f := s.fields[n - 1];
      if f.key in v.own && v.own[f.key].Data? {
        Accepted(f.schema, v.own[f.key].value, src, dst, depth + 1);
      }
      assert (forall i | 0 <= i < n :: FieldOk(s, v, src, depth, i)) <==>
             (forall i | 0 <= i < n - 1 :: FieldOk(s, v, src, depth, i)) && FieldOk(s, v, src, depth, n - 1);
    }
  }

  ghost function PresentKeys(s: Schema, v: Value, n: nat): set<Key>
    requires s.Record? && v.Object? && n <= |s.fields|
  {
    set i | 0 <= i < n && s.fields[i].key in v.own :: s.fields[i].key
  }

  /** The copied fields are the ones present, and counting them counts their keys. */
  lemma {:induction false} CountPresent(s: Schema, v: Value, src: Realm, dst: Realm, depth: nat, n: nat)
    requires s.Record? && v.Object? && n <= |s.fields| && DistinctKeys(s)
    requires CopyFields(s, v, src, dst, depth, n).Some?
    ensures CountCopied(CopyFields(s, v, src, dst, depth, n).value) == |PresentKeys(s, v, n)|
    ensures PresentKeys(s, v, n) <= v.own.Keys
    decreases n
  {
    if n == 0 {
      assert PresentKeys(s, v, 0) == {};
    } else {
      CountPresent(s, v, src, dst, depth, n - 1);
      var outcomes := CopyFields(s, v, src, dst, depth, n).value;
      assert outcomes[..n - 1] == CopyFields(s, v, src, dst, depth, n - 1).value;
      var key := s.fields[n - 1].key;
      if key in v.own {
        assert PresentKeys(s, v, n) == PresentKeys(s, v, n - 1) + {key};
        assert key !in PresentKeys(s, v, n - 1);
      } else {
        assert PresentKeys(s, v, n) == PresentKeys(s, v, n - 1);
      }
    }
  }

  ghost predicate Covered(s: Schema, v: Value)
    requires s.Record? && v.Object?
  {
    forall k | k in v.own :: exists i :: 0 <= i < |s.fields| && s.fields[i].key == k
  }

  lemma {:induction false} CoveredIffCounted(s: Schema, v: Value)
    requires s.Record? && v.Object?
    ensures Covered(s, v) <==> |PresentKeys(s, v, |s.fields|)| == |v.own|
  {
    var present := PresentKeys(s, v, |s.fields|);
    assert present <= v.own.Keys;
    if |present| == |v.own| {
      SubsetOfSameSize(present, v.own.Keys);
      forall k | k in v.own ensures exists i :: 0 <= i < |s.fields| && s.fields[i].key == k {
        assert k in present;
      }
    }
    if Covered(s, v) {
      assert present == v.own.Keys;
    }
  }

  lemma {:induction false} RecordConforms(s: Schema, v: Value, src: Realm, depth: nat)
    requires s.Record? && v.Object? && depth <= MAX_DEPTH
    ensures Conforms(s, v, src, depth) <==>
            && !v.isProxy && !v.isArray && v.symbols == 0
            && (v.proto == NoProto || v.proto == ObjectProto(src))
            && Covered(s, v) && forall i | 0 <= i < |s.fields| :: FieldOk(s, v, src, depth, i)
  {
    var n := |s.fields|;
    if forall i | 0 <= i < n :: FieldOk(s, v, src, depth, i) {
      forall i | 0 <= i < n
        ensures if s.fields[i].key in v.own
                then v.own[s.fields[i].key].Data? && Conforms(s.fields[i].schema, v.own[s.fields[i].key].value, src, depth + 1)
                else s.fields[i].optional
      {
        assert FieldOk(s, v, src, depth, i);
      }
    }
    if Conforms(s, v, src, depth) {
      forall i | 0 <= i < n ensures FieldOk(s, v, src, depth, i) {
        assert s.fields[i].key in v.own || s.fields[i].optional;
      }
    }
  }

  lemma {:induction false} RecordAccepted(s: Schema, v: Value, src: Realm, dst: Realm, depth: nat)
    requires s.Record? && DistinctKeys(s) && depth <= MAX_DEPTH
    ensures CopyRecord(s, v, src, dst, depth).Some? <==> Conforms(s, v, src, depth)
    decreases s, 2
  {
    if v.Object? {
      FieldsAccepted(s, v, src, dst, depth, |s.fields|);
      RecordConforms(s, v, src, depth);
      CoveredIffCounted(s, v);
      hide Conforms, Covered, CopyFields, FieldOk, DistinctKeys;
      if CopyFields(s, v, src, dst, depth, |s.fields|).Some? {
        CountPresent(s, v, src, dst, depth, |s.fields|);
      }
    } else {
      assert !Conforms(s, v, src, depth);
    }
  }

  lemma {:induction false} ArrayAccepted(s: Schema, v: Value, src: Realm, dst: Realm, depth: nat)
    requires s.Array? && DistinctKeys(s) && depth <= MAX_DEPTH
    ensures CopyArray(s, v, src, dst, depth).Some? <==> Conforms(s, v, src, depth)
    decreases s, 2
  {
    if v.Object? {
      ItemsAccepted(s, v, src, dst, depth, v.length);
      var ks := IndexKeys(v.length);
      if (forall i | 0 <= i < v.length :: ItemOk(s, v, src, depth, i)) && |v.own| == v.length {
        forall k | k in ks ensures k in v.own {
          assert ItemOk(s, v, src, depth, k.index);
        }
        SubsetOfSameSize(ks, v.own.Keys);
        forall k | k in v.own ensures v.own[k].Data? && Conforms(s.item, v.own[k].value, src, depth + 1) {
          assert ItemOk(s, v, src, depth, k.index);
        }
      }
      if Conforms(s, v, src, depth) {
        forall i | 0 <= i < v.length ensures ItemOk(s, v, src, depth, i) {
          assert Index(i) in ks;
        }
        assert |v.own.Keys| == v.length;
      }
    }
  }

  lemma {:induction false} VariantAccepted(s: Schema, v: Value, src: Realm, dst: Realm, depth: nat, from: nat)
    requires s.Union? && DistinctKeys(s)
    ensures CopyVariant(s, v, src, dst, depth, from).Some? <==>
            exists i :: from <= i < |s.variants| && Conforms(s.variants[i], v, src, depth)
    decreases s, 1, |s.variants| - from
  {
    if from < |s.variants| {
      Accepted(s.variants[from], v, src, dst, depth);
      VariantAccepted(s, v, src, dst, depth, from + 1);
    }
  }

  /** The copy fails exactly when the value does not conform. */
  lemma {:induction false} Accepted(s: Schema, v: Value, src: Realm, dst: Realm, depth: nat)
    requires DistinctKeys(s)
    ensures Copy(s, v, src, dst, depth).Some? <==> Conforms(s, v, src, depth)
    decreases s, 3
  {
    if depth <= MAX_DEPTH {
      if Primitive(s) {
        CheckIffConforms(s, v, src, depth);
      } else {
        match s
        case Array(_) => ArrayAccepted(s, v, src, dst, depth);
        case Record(_) => RecordAccepted(s, v, src, dst, depth);
        case Union(_) => VariantAccepted(s, v, src, dst, depth, 0);
        case _ =>
      }
    }
  }

  // ---- equal trees ----

  datatype Tree =
    | Leaf(value: Value)
    | EntityTree(index: Number, id: Number)
    | ListTree(items: seq<Tree>)
    | RecordTree(fields: map<Key, Tree>)

  /** What a value is, apart from the realm its prototypes belong to. */
  ghost function TreeOf(v: Value, realm: Realm): Tree
    decreases v
  {
    if !v.Object? then Leaf(v)
    else if v.isArray then
      ListTree(seq(v.length, i requires 0 <= i < v.length =>
        if Index(i) in v.own && v.own[Index(i)].Data? then TreeOf(v.own[Index(i)].value, realm) else Leaf(Undefined)))
    else if IsEntity(v, realm) then
      EntityTree(v.own[Name(INDEX_NAME)].value.number, v.own[Name(ID_NAME)].value.number)
    else RecordTree(map k | k in v.own && v.own[k].Data? :: TreeOf(v.own[k].value, realm))
  }

  /** Nothing hidden anywhere inside: no proxy, symbol, accessor, hole or foreign prototype. */
  ghost predicate Clean(v: Value, realm: Realm)
    decreases v
  {
    v.Object? ==>
      && !v.isProxy && v.symbols == 0
      && (forall k | k in v.own :: v.own[k].Data? && Clean(v.own[k].value, realm))
      && (if v.isArray then v.own.Keys == IndexKeys(v.length)
          else IsEntity(v, realm) || v.proto == NoProto || v.proto == ObjectProto(realm))
  }

  ghost predicate Faithful(v: Value, src: Realm, r: Value, dst: Realm) {
    Clean(v, src) && Clean(r, dst) && TreeOf(r, dst) == TreeOf(v, src)
  }

  lemma {:induction false} PrimitiveFaithful(s: Schema, v: Value, src: Realm, dst: Realm)
    requires Primitive(s) && Check(s, v)
    ensures !v.Object? && Faithful(v, src, v, dst)
    decreases s
  {
    if s.Union? {
      var i :| 0 <= i < |s.variants| && Check(s.variants[i], v);
      PrimitiveFaithful(s.variants[i], v, src, dst);
    }
  }

  lemma {:induction false} EntityFaithful(v: Value, src: Realm, dst: Realm)
    requires IsEntity(v, src)
    ensures Faithful(v, src, CopyEntity(v, src, dst).value, dst)
  {
    var r := CopyEntity(v, src, dst).value;
    assert Name(INDEX_NAME) != Name(ID_NAME) by {
      assert |INDEX_NAME| != |ID_NAME|;
    }
    assert r.own.Keys == {Name(INDEX_NAME), Name(ID_NAME)};
  }

  lemma {:induction false} ItemsFaithful(s: Schema, v: Value, src: Realm, dst: Realm, depth: nat, n: nat)
    requires s.Array? && DistinctKeys(s) && v.Object? && CopyItems(s, v, src, dst, depth, n).Some?
    ensures var items := CopyItems(s, v, src, dst, depth, n).value;
            forall i | 0 <= i < n :: Index(i) in v.own && v.own[Index(i)].Data? &&
                                     Faithful(v.own[Index(i)].value, src, items[i], dst)
    decreases s, 1, n
  {
    if n != 0 {
      ItemsFaithful(s, v, src, dst, depth, n - 1);
      CopyFaithful(s.item, v.own[Index(n - 1)].value, src, dst, depth + 1);
    }
  }

  lemma {:induction false} ArrayFaithful(s: Schema, v: Value, src: Realm, dst: Realm, depth: nat)
    requires s.Array? && DistinctKeys(s) && CopyArray(s, v, src, dst, depth).Some?
    ensures Faithful(v, src, CopyArray(s, v, src, dst, depth).value, dst)
    decreases s, 2
  {
    var items := CopyItems(s, v, src, dst, depth, v.length).value;
    ItemsFaithful(s, v, src, dst, depth, v.length);
    var ks := IndexKeys(v.length);
    assert forall k | k in ks :: k == Index(k.index) && k in v.own;
    SubsetOfSameSize(ks, v.own.Keys);
    DenseFaithful(v, src, items, dst);
  }

  lemma {:induction false} DenseFaithful(v: Value, src: Realm, items: seq<Value>, dst: Realm)
    requires v.Object? && v.isArray && !v.isProxy && v.symbols == 0 && |items| == v.length
    requires v.own.Keys == IndexKeys(v.length)
    requires forall i | 0 <= i < v.length :: Index(i) in v.own && v.own[Index(i)].Data? && Faithful(v.own[Index(i)].value, src, items[i], dst)
    ensures Faithful(v, src, PlainArray(dst, items), dst)
  {
    var r := PlainArray(dst, items);
    assert r.own.Keys == IndexKeys(v.length);
    forall k | k in v.own ensures v.own[k].Data? && Clean(v.own[k].value, src) && Clean(r.own[k].value, dst) {
      assert k == Index(k.index);
    }
    var a, b := TreeOf(v, src).items, TreeOf(r, dst).items;
    forall i | 0 <= i < v.length ensures a[i] == b[i] {
      assert Index(i) in r.own && r.own[Index(i)] == Data(items[i]);
    }
    assert a == b;
  }

  lemma {:induction false} FieldsFaithful(s: Schema, v: Value, src: Realm, dst: Realm, depth: nat, n: nat)
    requires s.Record? && DistinctKeys(s) && v.Object? && n <= |s.fields| && CopyFields(s, v, src, dst, depth, n).Some?
    ensures var own := Assemble(s.fields, CopyFields(s, v, src, dst, depth, n).value);
            && own.Keys == PresentKeys(s, v, n)
            && forall k | k in own :: && v.own[k].Data? && own[k].Data?
                                      && Faithful(v.own[k].value, src, own[k].value, dst)
    decreases s, 1, n
  {
    if n == 0 {
      assert PresentKeys(s, v, 0) == {};
    } else {
      FieldsFaithful(s, v, src, dst, depth, n - 1);
      var f := s.fields[n - 1];
      var outcomes := CopyFields(s, v, src, dst, depth, n).value;
      assert outcomes[..n - 1] == CopyFields(s, v, src, dst, depth, n - 1).value;
      if f.key in v.own {
        CopyFaithful(f.schema, v.own[f.key].value, src, dst, depth + 1);
        assert PresentKeys(s, v, n) == PresentKeys(s, v, n - 1) + {f.key};
      } else {
        assert PresentKeys(s, v, n) == PresentKeys(s, v, n - 1);
      }
    }
  }

  lemma {:induction false} RecordFaithful(s: Schema, v: Value, src: Realm, dst: Realm, depth: nat)
    requires s.Record? && DistinctKeys(s) && CopyRecord(s, v, src, dst, depth).Some?
    ensures Faithful(v, src, CopyRecord(s, v, src, dst, depth).value, dst)
    decreases s, 2
  {
    var n := |s.fields|;
    var outcomes := CopyFields(s, v, src, dst, depth, n).value;
    var r := PlainObject(dst, Assemble(s.fields, outcomes));
    FieldsFaithful(s, v, src, dst, depth, n);
    CountPresent(s, v, src, dst, depth, n);
    SubsetOfSameSize(PresentKeys(s, v, n), v.own.Keys);
    assert r.own.Keys == v.own.Keys;
    assert TreeOf(r, dst).fields == TreeOf(v, src).fields;
  }

  lemma {:induction false} VariantFaithful(s: Schema, v: Value, src: Realm, dst: Realm, depth: nat, from: nat)
    requires s.Union? && DistinctKeys(s) && CopyVariant(s, v, src, dst, depth, from).Some?
    ensures Faithful(v, src, CopyVariant(s, v, src, dst, depth, from).value, dst)
    decreases s, 1, |s.variants| - from
  {
    if Copy(s.variants[from], v, src, dst, depth).Some? {
      CopyFaithful(s.variants[from], v, src, dst, depth);
    } else {
      VariantFaithful(s, v, src, dst, depth, from + 1);
    }
  }

  /** A copy is the same tree as the original, with nothing but data of the destination realm in it. */
  lemma {:induction false} CopyFaithful(s: Schema, v: Value, src: Realm, dst: Realm, depth: nat)
    requires DistinctKeys(s) && Copy(s, v, src, dst, depth).Some?
    ensures Faithful(v, src, Copy(s, v, src, dst, depth).value, dst)
    decreases s, 3
  {
    if Primitive(s) {
      PrimitiveFaithful(s, v, src, dst);
    } else {
      match s
      case Basic(_) => EntityFaithful(v, src, dst);
      case Array(_) => ArrayFaithful(s, v, src, dst, depth);
      case Record(_) => RecordFaithful(s, v, src, dst, depth);
      case Union(_) => VariantFaithful(s, v, src, dst, depth, 0);
      case _ =>
    }
  }

  // ---- copying a copy ----

  ghost predicate SameTree(v: Value, vs: Realm, w: Value, ws: Realm) {
    Clean(v, vs) && Clean(w, ws) && TreeOf(v, vs) == TreeOf(w, ws)
  }

  lemma {:induction false} SameShape(v: Value, vs: Realm, w: Value, ws: Realm)
    requires SameTree(v, vs, w, ws)
    ensures v.Object? <==> w.Object?
    ensures !v.Object? ==> v == w
    ensures v.Object? ==> (v.isArray <==> w.isArray) && (IsEntity(v, vs) <==> IsEntity(w, ws))
    ensures v.Object? && v.isArray ==> v.length == w.length && |v.own| == |w.own|
    ensures v.Object? && !IsEntity(v, vs) ==> v.own.Keys == w.own.Keys
    ensures v.Object? && !IsEntity(v, vs) ==>
      forall k | k in v.own :: v.own[k].Data? && w.own[k].Data? && SameTree(v.own[k].value, vs, w.own[k].value, ws)
  {
    if v.Object? && v.isArray {
      var a, b := TreeOf(v, vs).items, TreeOf(w, ws).items;
      assert |a| == v.length && |b| == w.length;
      forall k | k in v.own ensures SameTree(v.own[k].value, vs, w.own[k].value, ws) {
        assert k == Index(k.index) && k.index < v.length;
        assert a[k.index] == b[k.index];
      }
      assert |v.own.Keys| == |w.own.Keys|;
    } else if v.Object? && !IsEntity(v, vs) {
      var a, b := TreeOf(v, vs).fields, TreeOf(w, ws).fields;
      assert a.Keys == v.own.Keys && b.Keys == w.own.Keys;
      forall k | k in v.own ensures SameTree(v.own[k].value, vs, w.own[k].value, ws) {
        assert a[k] == b[k];
      }
    }
  }

  lemma {:induction false} CheckByTree(s: Schema, v: Value, vs: Realm, w: Value, ws: Realm)
    requires SameTree(v, vs, w, ws)
    ensures Check(s, v) <==> Check(s, w)
    decreases s
  {
    SameShape(v, vs, w, ws);
    if s.Union? {
      forall i | 0 <= i < |s.variants| ensures Check(s.variants[i], v) <==> Check(s.variants[i], w) {
        CheckByTree(s.variants[i], v, vs, w, ws);
      }
    }
  }

  lemma {:induction false} CheckedIsPrimitive(s: Schema, v: Value)
    requires Check(s, v)
    ensures !v.Object?
    decreases s
  {
    if s.Union? {
      var i :| 0 <= i < |s.variants| && Check(s.variants[i], v);
      CheckedIsPrimitive(s.variants[i], v);
    }
  }

  lemma {:induction false} ItemsByTree(s: Schema, v: Value, vs: Realm, w: Value, ws: Realm, dst: Realm, depth: nat, n: nat)
    requires s.Array? && SameTree(v, vs, w, ws) && v.Object? && v.isArray && w.Object?
    ensures CopyItems(s, v, vs, dst, depth, n) == CopyItems(s, w, ws, dst, depth, n)
    decreases s, 1, n
  {
    hide SameTree, TreeOf, Copy;
    if n != 0 {
      ItemsByTree(s, v, vs, w, ws, dst, depth, n - 1);
      SameShape(v, vs, w, ws);
      if Index(n - 1) in v.own {
        CopyByTree(s.item, v.own[Index(n - 1)].value, vs, w.own[Index(n - 1)].value, ws, dst, depth + 1);
      }
    }
  }

  lemma {:induction false} FieldsByTree(s: Schema, v: Value, vs: Realm, w: Value, ws: Realm, dst: Realm, depth: nat, n: nat)
    requires s.Record? && SameTree(v, vs, w, ws) && v.Object? && !IsEntity(v, vs) && w.Object? && n <= |s.fields|
    ensures CopyFields(s, v, vs, dst, depth, n) == CopyFields(s, w, ws, dst, depth, n)
    decreases s, 1, n
  {
    if n != 0 {
      FieldsByTree(s, v, vs, w, ws, dst, depth, n - 1);
      SameShape(v, vs, w, ws);
      var f := s.fields[n - 1];
      if f.key in v.own {
        CopyByTree(f.schema, v.own[f.key].value, vs, w.own[f.key].value, ws, dst, depth + 1);
      }
    }
  }

  lemma {:induction false} VariantByTree(s: Schema, v: Value, vs: Realm, w: Value, ws: Realm, dst: Realm, depth: nat, from: nat)
    requires s.Union? && SameTree(v, vs, w, ws)
    ensures CopyVariant(s, v, vs, dst, depth, from) == CopyVariant(s, w, ws, dst, depth, from)
    decreases s, 1, |s.variants| - from
  {
    if from < |s.variants| {
      CopyByTree(s.variants[from], v, vs, w, ws, dst, depth);
      VariantByTree(s, v, vs, w, ws, dst, depth, from + 1);
    }
  }

  /** The copy depends on the tree alone. */
  lemma {:induction false} CopyByTree(s: Schema, v: Value, vs: Realm, w: Value, ws: Realm, dst: Realm, depth: nat)
    requires SameTree(v, vs, w, ws)
    ensures Copy(s, v, vs, dst, depth) == Copy(s, w, ws, dst, depth)
    decreases s, 3
  {
    SameShape(v, vs, w, ws);
    if depth <= MAX_DEPTH {
      if Primitive(s) {
        CheckByTree(s, v, vs, w, ws);
        if Check(s, v) {
          CheckedIsPrimitive(s, v);
        }
      } else {
        match s
        case Array(_) =>
          if v.Object? && v.isArray {
            ItemsByTree(s, v, vs, w, ws, dst, depth, v.length);
          }
        case Record(_) =>
          if v.Object? && !v.isArray && !IsEntity(v, vs) {
            FieldsByTree(s, v, vs, w, ws, dst, depth, |s.fields|);
            assert |v.own.Keys| == |w.own.Keys|;
          }
        case Union(_) => VariantByTree(s, v, vs, w, ws, dst, depth, 0);
        case _ =>
      }
    }
  }

  /** Passing a copy on to a third realm gives what copying the original there gives; in particular
      copying a copy again within its realm changes nothing. */
  lemma {:induction false} CopyOfCopy(s: Schema, v: Value, src: Realm, dst: Realm, third: Realm, depth: nat)
    requires DistinctKeys(s) && Copy(s, v, src, dst, depth).Some?
    ensures var r := Copy(s, v, src, dst, depth).value;
            && Copy(s, r, dst, third, depth) == Copy(s, v, src, third, depth)
            && Copy(s, r, dst, dst, depth) == Some(r)
  {
    var r := Copy(s, v, src, dst, depth).value;
    CopyFaithful(s, v, src, dst, depth);
    CopyByTree(s, v, src, r, dst, third, depth);
    CopyByTree(s, v, src, r, dst, dst, depth);
  }

  lemma {:induction false} NullFieldCopied(s: Schema, v: Value, i: nat)
    requires s.Record? && v.Object? && i < |s.fields| && s.fields[i].schema == Basic(NullKind)
    requires s.fields[i].key in v.own && v.own[s.fields[i].key] == Data(Null)
    ensures CopyField(s, v, 0, 1, 0, i) == Some(Copied(Null))
  {
  }

  lemma {:induction false} TwoNullsCopied(s: Schema, v: Value)
    requires s.Record? && v.Object? && |s.fields| == 2
    requires CopyField(s, v, 0, 1, 0, 0) == Some(Copied(Null)) && CopyField(s, v, 0, 1, 0, 1) == Some(Copied(Null))
    ensures CopyFields(s, v, 0, 1, 0, 2) == Some([Copied(Null), Copied(Null)])
  {
    hide CopyField;
    assert [] + [Copied(Null)] == [Copied(Null)] && [Copied(Null)] + [Copied(Null)] == [Copied(Null), Copied(Null)];
    assert CopyFields(s, v, 0, 1, 0, 0) == Some([]);
    assert CopyFields(s, v, 0, 1, 0, 1) == Some([Copied(Null)]);
  }

  lemma {:induction false} TwoNullsCounted()
    ensures CountCopied([Copied(Null), Copied(Null)]) == 2
  {
    assert [Copied(Null), Copied(Null)][..1] == [Copied(Null)] && [Copied(Null)][..0] == [];
    assert CountCopied([Copied(Null)]) == 1;
  }

  lemma {:induction false} TwoNullsAssembled(fields: seq<Field>, key: Key)
    requires |fields| == 2 && fields[0].key == key && fields[1].key == key
    ensures Assemble(fields, [Copied(Null), Copied(Null)]) == map[key := Data(Null)]
  {
    assert [Copied(Null), Copied(Null)][..1] == [Copied(Null)] && [Copied(Null)][..0] == [];
    assert Assemble(fields, [Copied(Null)]) == map[key := Data(Null)];
  }

  /** A record with the same key twice, and a value with one property more. */
  ghost function TwiceKeyed(): Schema {
    Record([Field(Index(0), Basic(NullKind), false), Field(Index(0), Basic(NullKind), false)])
  }

  ghost function OneMore(): Value {
    PlainObject(0, map[Index(0) := Data(Null), Index(1) := Data(Null)])
  }

  lemma {:induction false} TwiceKeyedCopies()
    ensures CopyFields(TwiceKeyed(), OneMore(), 0, 1, 0, 2) == Some([Copied(Null), Copied(Null)])
    ensures |OneMore().own| == 2
  {
    var s, v := TwiceKeyed(), OneMore();
    NullFieldCopied(s, v, 0);
    NullFieldCopied(s, v, 1);
    TwoNullsCopied(s, v);
    assert |v.own.Keys| == |{Index(0), Index(1)}| == 2;
  }

  /** Two fields with one key would let a value through that the copy does not reproduce. */
  lemma {:induction false} DuplicateKeysLoseAProperty()
    ensures !DistinctKeys(TwiceKeyed()) && Copy(TwiceKeyed(), OneMore(), 0, 1, 0).Some?
    ensures TreeOf(Copy(TwiceKeyed(), OneMore(), 0, 1, 0).value, 1) != TreeOf(OneMore(), 0)
  {
    hide Copy, TreeOf, DistinctKeys;
    SameKeyTwice();
    OneMoreCopied();
    OneMoreParts();
  }

  lemma {:induction false} SameKeyTwice()
    ensures !DistinctKeys(TwiceKeyed())
  {
    assert TwiceKeyed().fields[0].key == TwiceKeyed().fields[1].key;
  }

  lemma {:induction false} OneMoreCopied()
    ensures Copy(TwiceKeyed(), OneMore(), 0, 1, 0) == Some(PlainObject(1, map[Index(0) := Data(Null)]))
  {
    hide CopyField, CopyFields, Assemble, CountCopied;
    var s, v := TwiceKeyed(), OneMore();
    TwiceKeyedCopies();
    TwoNullsCounted();
    TwoNullsAssembled(s.fields, Index(0));
    assert CopyRecord(s, v, 0, 1, 0) == Some(PlainObject(1, map[Index(0) := Data(Null)]));
  }

  lemma {:induction false} OneMoreParts()
    ensures TreeOf(OneMore(), 0) != TreeOf(PlainObject(1, map[Index(0) := Data(Null)]), 1)
  {
    var v, r := OneMore(), PlainObject(1, map[Index(0) := Data(Null)]);
    assert Index(1) in TreeOf(v, 0).fields && Index(1) !in TreeOf(r, 1).fields;
  }
}
