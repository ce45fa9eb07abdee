/** The compiled plan nodes of an interface facade: each record node owns a scratch object that every
    copy writes into and none clears. */
module Facade {
  import opened JsValues
  import opened Options
  import opened Contract
  import opened Presence

  /** A record node's scratch: field number to the last value copied there. */
  class Scratch {
    var slots: map<nat, Value>

    constructor ()
      ensures slots == map[]
    {
      slots := map[];
    }
  }

  /** A plan node; frozen after compilation, except for its scratch. */
  class PlanNode {
    const schema: Schema
    const prim: bool
    const item: PlanNode?
    const plans: seq<PlanNode>
    const values: Scratch?
    ghost const footprint: set<Scratch>

    constructor Basic(schema: Schema)
      requires schema.Basic? || schema.Literal?
      ensures this.schema == schema && Valid() && footprint == {}
    {
      this.schema := schema;
      prim := schema != Schema.Basic(EntityKind);
      item := null;
      plans := [];
      values := null;
      footprint := {};
    }

    constructor List(schema: Schema, item: PlanNode)
      requires schema.Array? && item.schema == schema.item && item.Valid()
      ensures this.schema == schema && Valid() && footprint == item.footprint
    {
      this.schema := schema;
      prim := false;
      this.item := item;
      plans := [];
      values := null;
      footprint := item.footprint;
    }

    constructor Record(schema: Schema, plans: seq<PlanNode>, values: Scratch, ghost inner: set<Scratch>)
      requires schema.Record? && |plans| == |schema.fields|
      requires forall i | 0 <= i < |plans| :: plans[i].schema == schema.fields[i].schema && plans[i].Valid() && plans[i].footprint <= inner
      requires forall i, j | 0 <= i < j < |plans| :: plans[i].footprint !! plans[j].footprint
      requires values !in inner
      ensures this.schema == schema && Valid() && footprint == inner + {values}
    {
      this.schema := schema;
      prim := false;
      item := null;
      this.plans := plans;
      this.values := values;
      footprint := inner + {values};
    }

    constructor Choice(schema: Schema, plans: seq<PlanNode>, prim: bool, ghost inner: set<Scratch>)
      requires schema.Union? && |plans| == |schema.variants|
      requires forall i | 0 <= i < |plans| :: plans[i].schema == schema.variants[i] && plans[i].Valid() && plans[i].footprint <= inner
      requires prim <==> Primitive(schema)
      ensures this.schema == schema && Valid() && footprint == inner
    {
      this.schema := schema;
      this.prim := prim;
      item := null;
      this.plans := plans;
      values := null;
      footprint := inner;
    }

    /** A tree of nodes: no scratch object serves two positions. */
    ghost predicate Valid()
      decreases schema
    {
      && (prim <==> Primitive(schema))
      && match schema
         case Array(inner) => item != null && item.schema == inner && item.Valid() && item.footprint <= footprint
         case Record(fields) =>
           && |plans| == |fields|
           && (forall i | 0 <= i < |plans| ::
                 plans[i].schema == fields[i].schema && plans[i].Valid() && plans[i].footprint <= footprint)
           && (forall i, j | 0 <= i < j < |plans| :: plans[i].footprint !! plans[j].footprint)
           && values != null && values in footprint
           && (forall i | 0 <= i < |plans| :: values !in plans[i].footprint)
         case Union(variants) =>
           && |plans| == |variants|
           && forall i | 0 <= i < |plans| ::
                plans[i].schema == variants[i] && plans[i].Valid() && plans[i].footprint <= footprint
         case _ => true
    }
  }

  /** Compiles a schema into fresh nodes. */
  method Compile(schema: Schema) returns (node: PlanNode)
    ensures node.schema == schema && node.Valid() && fresh(node.footprint)
    decreases schema
  {
    if schema.Basic? || schema.Literal? {
      node := new PlanNode.Basic(schema);
    } else if schema.Array? {
      var item := Compile(schema.item);
      node := new PlanNode.List(schema, item);
    } else if schema.Record? {
      var fields := schema.fields;
      var values := new Scratch();
      var plans: seq<PlanNode> := [];
      ghost var inner: set<Scratch> := {};
      for i := 0 to |fields|
        invariant |plans| == i && fresh(inner) && values !in inner
        invariant forall j | 0 <= j < i :: plans[j].schema == fields[j].schema && plans[j].Valid() && plans[j].footprint <= inner
        invariant forall j, k | 0 <= j < k < i :: plans[j].footprint !! plans[k].footprint
      {
        label Before:
        var plan := Compile(fields[i].schema);
        assert fresh@Before(plan.footprint);
        plans := plans + [plan];
        inner := inner + plan.footprint;
      }
      node := new PlanNode.Record(schema, plans, values, inner);
    } else {
      var variants := schema.variants;
      var plans: seq<PlanNode> := [];
      var prim := true;
      ghost var inner: set<Scratch> := {};
      for i := 0 to |variants|
        invariant |plans| == i && fresh(inner)
        invariant forall j | 0 <= j < i :: plans[j].schema == variants[j] && plans[j].Valid() && plans[j].footprint <= inner
        invariant prim <==> forall j | 0 <= j < i :: Primitive(variants[j])
      {
        var plan := Compile(variants[i]);
        plans := plans + [plan];
        inner := inner + plan.footprint;
        if !plan.prim {
          prim := false;
        }
      }
      node := new PlanNode.Choice(schema, plans, prim, inner);
    }
  }

  /** The generated builder: an object literal over the fields, an optional one only when the mask has it. */
  function Build(fields: seq<Field>, slots: map<nat, Value>, mask: Mask, dst: Realm, n: nat): map<Key, Property>
    requires n <= |fields|
  {
    if n == 0 then map[] else
      var before := Build(fields, slots, mask, dst, n - 1);
      var f := fields[n - 1];
      if f.optional && !Has(mask, n - 1) then before
      else before[f.key := Data(if n - 1 in slots then slots[n - 1] else Undefined)]
  }

  ghost predicate Filled(slots: map<nat, Value>, outcomes: seq<Outcome>) {
    forall i | 0 <= i < |outcomes| && outcomes[i].Copied? :: i in slots && slots[i] == outcomes[i].value
  }

  ghost function Flags(outcomes: seq<Outcome>): (flags: seq<bool>)
    ensures |flags| == |outcomes|
    ensures forall i | 0 <= i < |outcomes| :: flags[i] <==> outcomes[i].Copied?
  {
    seq(|outcomes|, i requires 0 <= i < |outcomes| => outcomes[i].Copied?)
  }

  /** What the builder makes of the scratch is what the fields' outcomes say, whatever else the scratch holds. */
  lemma {:induction false} BuildAssembles(fields: seq<Field>, slots: map<nat, Value>, outcomes: seq<Outcome>, mask: Mask, dst: Realm, n: nat)
    requires |outcomes| == |fields| && n <= |fields| && Filled(slots, outcomes)
    requires mask == MaskOf(|fields|, Flags(outcomes))
    requires forall i | 0 <= i < |fields| && outcomes[i].Absent? :: fields[i].optional
    ensures Build(fields, slots, mask, dst, n) == Assemble(fields, outcomes[..n])
  {
    if n != 0 {
      BuildAssembles(fields, slots, outcomes, mask, dst, n - 1);
      MaskAgrees(|fields|, Flags(outcomes), n - 1);
      assert outcomes[..n][..n - 1] == outcomes[..n - 1];
    }
  }

  lemma {:induction false} NoOutcome(fields: nat, slots: map<nat, Value>)
    ensures Filled(slots, []) && MaskOf(fields, Flags([])) == EmptyMask(fields) && CountCopied([]) == 0
  {
  }

  /** One more field: its value goes to the scratch slot of its number, its presence to the mask. */
  lemma {:induction false} NextAbsent(fields: nat, slots: map<nat, Value>, outcomes: seq<Outcome>)
    requires Filled(slots, outcomes)
    ensures Filled(slots, outcomes + [Absent]) && CountCopied(outcomes + [Absent]) == CountCopied(outcomes)
    ensures MaskOf(fields, Flags(outcomes + [Absent])) == WithField(MaskOf(fields, Flags(outcomes)), |outcomes|, false)
  {
    assert (outcomes + [Absent])[..|outcomes|] == outcomes;
    assert Flags(outcomes + [Absent])[..|outcomes|] == Flags(outcomes);
  }

  lemma {:induction false} NextCopied(fields: nat, slots: map<nat, Value>, outcomes: seq<Outcome>, x: Value)
    requires Filled(slots, outcomes)
    ensures Filled(slots[|outcomes| := x], outcomes + [Copied(x)]) && CountCopied(outcomes + [Copied(x)]) == CountCopied(outcomes) + 1
    ensures MaskOf(fields, Flags(outcomes + [Copied(x)])) == WithField(MaskOf(fields, Flags(outcomes)), |outcomes|, true)
  {
    assert (outcomes + [Copied(x)])[..|outcomes|] == outcomes;
    assert Flags(outcomes + [Copied(x)])[..|outcomes|] == Flags(outcomes);
  }

  lemma {:induction false} AbsentIsOptional(s: Schema, v: Value, src: Realm, dst: Realm, depth: nat, n: nat)
    requires s.Record? && v.Object? && n <= |s.fields| && CopyFields(s, v, src, dst, depth, n).Some?
    ensures forall i | 0 <= i < n && CopyFields(s, v, src, dst, depth, n).value[i].Absent? :: s.fields[i].optional
    decreases n
  {
    if n != 0 {
      AbsentIsOptional(s, v, src, dst, depth, n - 1);
    }
  }

  /** The copier. Its result is the pure copy, no matter what earlier copies left in any scratch. */
  method CopyValue(p: PlanNode, v: Value, src: Realm, dst: Realm, depth: nat) returns (r: Option<Value>)
    requires p.Valid()
    modifies p.footprint
    ensures r == Copy(p.schema, v, src, dst, depth)
    decreases p.schema, 2
  {
    if depth > MAX_DEPTH {
      return None;
    }
    if p.prim {
      return if Check(p.schema, v) then Some(v) else None;
    }
    match p.schema
    case Basic(_) => r := CopyEntity(v, src, dst);
    case Literal(_) => r := None;
    case Array(_) => r := CopyList(p, v, src, dst, depth);
    case Record(_) => r := CopyFieldsOf(p, v, src, dst, depth);
    case Union(variants) =>
      for i := 0 to |variants|
        invariant CopyVariant(p.schema, v, src, dst, depth, 0) == CopyVariant(p.schema, v, src, dst, depth, i)
      {
        r := CopyValue(p.plans[i], v, src, dst, depth);
        if r.Some? {
          return;
        }
      }
      r := None;
  }

  method CopyList(p: PlanNode, v: Value, src: Realm, dst: Realm, depth: nat) returns (r: Option<Value>)
    requires p.Valid() && p.schema.Array?
    modifies p.footprint
    ensures r == CopyArray(p.schema, v, src, dst, depth)
    decreases p.schema, 1
  {
    if !v.Object? || v.isProxy || !v.isArray || |v.own| != v.length || v.symbols != 0 {
      return None;
    }
    var items: seq<Value> := [];
    for i := 0 to v.length
      invariant CopyItems(p.schema, v, src, dst, depth, i) == Some(items)
    {
      if Index(i) !in v.own || v.own[Index(i)].Accessor? {
        ItemsFail(p.schema, v, src, dst, depth, i + 1, v.length);
        return None;
      }
      var x := CopyValue(p.item, v.own[Index(i)].value, src, dst, depth + 1);
      if x.None? {
        ItemsFail(p.schema, v, src, dst, depth, i + 1, v.length);
        return None;
      }
      items := items + [x.value];
    }
    r := Some(PlainArray(dst, items));
  }

  /** A record: fields are copied into the node's scratch in order, then the builder reads it back. */
  method CopyFieldsOf(p: PlanNode, v: Value, src: Realm, dst: Realm, depth: nat) returns (r: Option<Value>)
    requires p.Valid() && p.schema.Record?
    modifies p.footprint
    ensures r == CopyRecord(p.schema, v, src, dst, depth)
    decreases p.schema, 1, 1
  {
    if !v.Object? || v.isProxy || v.isArray || (v.proto != NoProto && v.proto != ObjectProto(src)) {
      return None;
    }
    var fields := p.schema.fields;
    OwnScratch(p);
    hide MaskOf, Flags, Filled, CountCopied, Build, Assemble, PlanNode.Valid, CopyFields, CopyRecord;
    var filled, present, mask, outcomes := FillSlots(p, v, src, dst, depth);
    if !filled {
      RecordFails(p.schema, v, src, dst, depth);
      return None;
    }
    RecordCopied(p.schema, v, src, dst, depth, outcomes);
    if |v.own| != present || v.symbols != 0 {
      return None;
    }
    AbsentIsOptional(p.schema, v, src, dst, depth, |fields|);
    BuildAssembles(fields, p.values.slots, outcomes, mask, dst, |fields|);
    assert outcomes[..|fields|] == outcomes;
    r := Some(PlainObject(dst, Build(fields, p.values.slots, mask, dst, |fields|)));
  }

  /** Field by field into the scratch buffer, with the count and the mask of those present. */
  method FillSlots(p: PlanNode, v: Value, src: Realm, dst: Realm, depth: nat)
    returns (filled: bool, present: nat, mask: Mask, ghost outcomes: seq<Outcome>)
    requires p.Valid() && p.schema.Record? && v.Object? && p.values != null && p.values in p.footprint
    modifies p.footprint
    ensures CopyFields(p.schema, v, src, dst, depth, |p.schema.fields|) == if filled then Some(outcomes) else None
    ensures filled ==> Filled(p.values.slots, outcomes) && present == CountCopied(outcomes)
    ensures filled ==> mask == MaskOf(|p.schema.fields|, Flags(outcomes))
    decreases p.schema, 1, 0
  {
    hide MaskOf, EmptyMask, Flags, Filled, CountCopied, WithField, Contract.CopyField, PlanNode.Valid, CopyFields;
    var fields := p.schema.fields;
    FieldsStart(p.schema, v, src, dst, depth);
    NoOutcome(|fields|, p.values.slots);
    present, mask, outcomes := 0, EmptyMask(|fields|), [];
    for i := 0 to |fields|
      invariant CopyFields(p.schema, v, src, dst, depth, i) == Some(outcomes) && |outcomes| == i
      invariant Filled(p.values.slots, outcomes)
      invariant mask == MaskOf(|fields|, Flags(outcomes)) && present == CountCopied(outcomes)
    {
      PlanScratch(p, i);
      var o := CopyOne(p, i, v, src, dst, depth);
      FieldsNext(p.schema, v, src, dst, depth, i, outcomes, o);
      if o.None? {
        FieldsFail(p.schema, v, src, dst, depth, i + 1, |fields|);
        return false, present, mask, outcomes;
      }
      if o.value.Absent? {
        NextAbsent(|fields|, p.values.slots, outcomes);
        mask := WithField(mask, i, false);
      } else {
        NextCopied(|fields|, p.values.slots, outcomes, o.value.value);
        p.values.slots := p.values.slots[i := o.value.value];
        mask := WithField(mask, i, true);
        present := present + 1;
      }
      outcomes := outcomes + [o.value];
    }
    filled := true;
  }

  lemma {:induction false} PlanScratch(p: PlanNode, i: nat)
    requires p.Valid() && p.schema.Record? && i < |p.schema.fields|
    ensures i < |p.plans| && p.plans[i].footprint <= p.footprint && p.values !in p.plans[i].footprint
  {
  }

  lemma {:induction false} OwnScratch(p: PlanNode)
    requires p.Valid() && p.schema.Record?
    ensures |p.plans| == |p.schema.fields| && p.values != null && p.values in p.footprint
    ensures forall i | 0 <= i < |p.plans| :: p.plans[i].footprint <= p.footprint && p.values !in p.plans[i].footprint
  {
  }

  /** One field: absent, a copy made by the field's own plan, or failure. No other plan is touched. */
  method CopyOne(p: PlanNode, i: nat, v: Value, src: Realm, dst: Realm, depth: nat) returns (o: Option<Outcome>)
    requires p.Valid() && p.schema.Record? && i < |p.schema.fields| && v.Object?
    modifies p.plans[i].footprint
    ensures o == CopyField(p.schema, v, src, dst, depth, i)
    decreases p.schema, 0
  {
    var f := p.schema.fields[i];
    if f.key !in v.own {
      return if f.optional then Some(Absent) else None;
    }
    if v.own[f.key].Accessor? {
      return None;
    }
    var x := CopyValue(p.plans[i], v.own[f.key].value, src, dst, depth + 1);
    o := if x.Some? then Some(Copied(x.value)) else None;
  }

  lemma {:induction false} ItemsFail(s: Schema, v: Value, src: Realm, dst: Realm, depth: nat, i: nat, n: nat)
    requires s.Array? && v.Object? && i <= n && CopyItems(s, v, src, dst, depth, i).None?
    ensures CopyItems(s, v, src, dst, depth, n).None?
    decreases n
  {
    if i < n {
      ItemsFail(s, v, src, dst, depth, i, n - 1);
    }
  }

  lemma {:induction false} FieldsStart(s: Schema, v: Value, src: Realm, dst: Realm, depth: nat)
    requires s.Record? && v.Object?
    ensures CopyFields(s, v, src, dst, depth, 0) == Some([])
  {
  }

  lemma {:induction false} FieldsNext(s: Schema, v: Value, src: Realm, dst: Realm, depth: nat, i: nat, outcomes: seq<Outcome>, o: Option<Outcome>)
    requires s.Record? && v.Object? && i < |s.fields|
    requires CopyFields(s, v, src, dst, depth, i) == Some(outcomes) && CopyField(s, v, src, dst, depth, i) == o
    ensures CopyFields(s, v, src, dst, depth, i + 1) == if o.None? then None else Some(outcomes + [o.value])
  {
  }

  lemma {:induction false} RecordFails(s: Schema, v: Value, src: Realm, dst: Realm, depth: nat)
    requires s.Record? && v.Object? && CopyFields(s, v, src, dst, depth, |s.fields|).None?
    ensures CopyRecord(s, v, src, dst, depth).None?
  {
    hide CopyFields;
  }

  lemma {:induction false} RecordCopied(s: Schema, v: Value, src: Realm, dst: Realm, depth: nat, outcomes: seq<Outcome>)
    requires s.Record? && v.Object? && !v.isProxy && !v.isArray && (v.proto == NoProto || v.proto == ObjectProto(src))
    requires CopyFields(s, v, src, dst, depth, |s.fields|) == Some(outcomes)
    ensures CopyRecord(s, v, src, dst, depth) ==
              if |v.own| != CountCopied(outcomes) || v.symbols != 0 then None else Some(PlainObject(dst, Assemble(s.fields, outcomes)))
  {
    hide CopyFields, CountCopied, Assemble;
  }

  lemma {:induction false} FieldsFail(s: Schema, v: Value, src: Realm, dst: Realm, depth: nat, i: nat, n: nat)
    requires s.Record? && v.Object? && i <= n <= |s.fields| && CopyFields(s, v, src, dst, depth, i).None?
    ensures CopyFields(s, v, src, dst, depth, n).None?
    decreases n
  {
    if i < n {
      FieldsFail(s, v, src, dst, depth, i, n - 1);
    }
  }
}
