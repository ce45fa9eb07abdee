/** Calls through a facade: arguments copied in, the producer run, its result copied out, and the depth counter. */
module FacadeCalls {
  import opened JsValues
  import opened Options
  import opened Contract
  import opened ContractLaws
  import opened Facade

  const MAX_ACTIVE: nat := 32

  /** A method of a contract: its arguments, how many are required, and its result. */
  datatype Signature = Signature(args: seq<Schema>, required: nat, result: Schema)

  /** A method with its compiled plans. */
  datatype MethodPlan = MethodPlan(args: seq<PlanNode>, required: nat, result: PlanNode)

  /** A call, and how the producer behaves in it: the facade calls it makes, whether the producer is still bound
      afterwards, whether it threw, and what it returned. */
  datatype Call = Call(m: nat, args: seq<Value>, nested: seq<Call>, stillBound: bool, threw: bool, thenable: bool, result: Value)

  datatype Answer = Returned(value: Value) | Unavailable | RecursionLimit | BadArguments | BadReturn | CallError

  /** The realms of the two sides. */
  datatype Sides = Sides(consumer: Realm, producer: Realm)

  /** A producer was entered: at what depth, and with what arguments. */
  datatype Entry = Entry(depth: nat, m: nat, args: seq<Value>)

  class Slots {
    var depth: nat
    ghost var log: seq<Entry>

    constructor ()
      ensures depth == 0 && log == []
    {
      depth, log := 0, [];
    }
  }

  ghost predicate Compiled(table: seq<MethodPlan>, sigs: seq<Signature>) {
    |table| == |sigs| && forall i | 0 <= i < |table| :: CompiledMethod(table[i], sigs[i])
  }

  ghost predicate CompiledMethod(plan: MethodPlan, sig: Signature) {
    && |plan.args| == |sig.args| && plan.required == sig.required
    && (forall j | 0 <= j < |plan.args| :: plan.args[j].Valid() && plan.args[j].schema == sig.args[j])
    && plan.result.Valid() && plan.result.schema == sig.result
  }

  ghost function Scratches(plan: MethodPlan): set<Scratch> {
    (set j, x | 0 <= j < |plan.args| && x in plan.args[j].footprint :: x) + plan.result.footprint
  }

  ghost function AllScratches(table: seq<MethodPlan>): set<Scratch> {
    set i, x | 0 <= i < |table| && x in Scratches(table[i]) :: x
  }

  /** The copies of the first `n` arguments; an argument sits one level down, inside the argument list. */
  ghost function CopiedArgs(sig: Signature, args: seq<Value>, sides: Sides, n: nat): (r: Option<seq<Value>>)
    requires n <= |args| && n <= |sig.args|
    ensures r.Some? ==> |r.value| == n
  {
    if n == 0 then Some([]) else
      match CopiedArgs(sig, args, sides, n - 1)
      case None => None
      case Some(copies) =>
        (match Copy(sig.args[n - 1], args[n - 1], sides.consumer, sides.producer, 1)
         case None => None
         case Some(x) => Some(copies + [x]))
  }

  /** What becomes of the producer's ending. */
  ghost function Ending(sig: Signature, sides: Sides, call: Call): Answer {
    if !call.stillBound then Unavailable
    else if call.threw then CallError
    else if call.result == Undefined then (if sig.result == Basic(VoidKind) then Returned(Undefined) else BadReturn)
    else if call.thenable then BadReturn
    else match Copy(sig.result, call.result, sides.producer, sides.consumer, 0)
      case None => BadReturn
      case Some(x) => Returned(x)
  }

  /** What the caller gets: it depends on the depth, the arguments and the producer's own ending only, not on the calls
      the producer makes or on what any earlier copy left behind. */
  ghost function AnswerOf(sigs: seq<Signature>, sides: Sides, depth: nat, call: Call): Answer {
    if call.m >= |sigs| then Unavailable
    else
      var sig := sigs[call.m];
      if depth >= MAX_ACTIVE then RecursionLimit
      else if |call.args| > |sig.args| || |call.args| < sig.required then BadArguments
      else if CopiedArgs(sig, call.args, sides, |call.args|).None? then BadArguments
      else Ending(sig, sides, call)
  }

  /** The copied arguments of a call that gets past the refusals. */
  ghost function Let(sigs: seq<Signature>, depth: nat, sides: Sides, call: Call): Option<seq<Value>> {
    if call.m >= |sigs| || depth >= MAX_ACTIVE || |call.args| > |sigs[call.m].args| || |call.args| < sigs[call.m].required then None
    else CopiedArgs(sigs[call.m], call.args, sides, |call.args|)
  }

  /** The producers a call enters, in order: its own one level down with copied arguments, then those of the producer's calls. */
  ghost function LogOf(sigs: seq<Signature>, sides: Sides, depth: nat, call: Call): seq<Entry>
    decreases call, |call.nested| + 1
  {
    match Let(sigs, depth, sides, call)
    case None => []
    case Some(copies) => [Entry(depth + 1, call.m, copies)] + LogTo(sigs, sides, depth + 1, call, |call.nested|)
  }

  /** Those of the first `n` calls the producer makes. */
  ghost function LogTo(sigs: seq<Signature>, sides: Sides, depth: nat, call: Call, n: nat): seq<Entry>
    requires n <= |call.nested|
    decreases call, n
  {
    if n == 0 then [] else LogTo(sigs, sides, depth, call, n - 1) + LogOf(sigs, sides, depth, call.nested[n - 1])
  }

  method CopyArgs(plan: MethodPlan, ghost sig: Signature, args: seq<Value>, sides: Sides) returns (r: Option<seq<Value>>)
    requires CompiledMethod(plan, sig) && |args| <= |plan.args|
    modifies Scratches(plan)
    ensures r == CopiedArgs(sig, args, sides, |args|)
  {
    hide PlanNode.Valid, Copy, Check, Primitive;
    var copies: seq<Value> := [];
    for i := 0 to |args|
      invariant CopiedArgs(sig, args, sides, i) == Some(copies)
    {
      var x: Option<Value>;
      if plan.args[i].prim {
        PrimitiveCopy(plan.args[i], args[i], sides.consumer, sides.producer);
        x := if Check(plan.args[i].schema, args[i]) then Some(args[i]) else None;
      } else {
        x := CopyValue(plan.args[i], args[i], sides.consumer, sides.producer, 1);
      }
      if x.None? {
        ArgsFail(sig, args, sides, i + 1, |args|);
        return None;
      }
      copies := copies + [x.value];
    }
    r := Some(copies);
  }

  /** Where only primitives are allowed, an accepted value is its own copy. */
  lemma {:induction false} PrimitiveCopy(p: PlanNode, v: Value, src: Realm, dst: Realm)
    requires p.Valid() && p.prim
    ensures Copy(p.schema, v, src, dst, 1) == if Check(p.schema, v) then Some(v) else None
  {
  }

  lemma {:induction false} ArgsFail(sig: Signature, args: seq<Value>, sides: Sides, i: nat, n: nat)
    requires i <= n <= |args| && n <= |sig.args| && CopiedArgs(sig, args, sides, i).None?
    ensures CopiedArgs(sig, args, sides, n).None?
    decreases n
  {
    if i < n {
      ArgsFail(sig, args, sides, i, n - 1);
    }
  }

  /** Every producer entered since was entered at a depth of at most the limit, with as many arguments as its method
      takes, each of which conforms. */
  ghost predicate WellEntered(sigs: seq<Signature>, sides: Sides, e: Entry) {
    && e.depth <= MAX_ACTIVE && e.m < |sigs| && sigs[e.m].required <= |e.args| <= |sigs[e.m].args|
    && exists given: seq<Value> :: |given| == |e.args| && CopiedArgs(sigs[e.m], given, sides, |given|) == Some(e.args)
  }

  lemma {:induction false} LogWellEntered(sigs: seq<Signature>, sides: Sides, depth: nat, call: Call)
    ensures forall e | e in LogOf(sigs, sides, depth, call) :: WellEntered(sigs, sides, e) && e.depth > depth
    decreases call, |call.nested| + 1
  {
    hide WellEntered, CopiedArgs;
    var let := Let(sigs, depth, sides, call);
    if let.Some? {
      EnteredWell(sigs, sides, depth + 1, call, let.value);
      LogToWellEntered(sigs, sides, depth + 1, call, |call.nested|);
    }
  }

  lemma {:induction false} LogToWellEntered(sigs: seq<Signature>, sides: Sides, depth: nat, call: Call, n: nat)
    requires n <= |call.nested|
    ensures forall e | e in LogTo(sigs, sides, depth, call, n) :: WellEntered(sigs, sides, e) && e.depth > depth
    decreases call, n
  {
    hide WellEntered;
    if n > 0 {
      LogToWellEntered(sigs, sides, depth, call, n - 1);
      LogWellEntered(sigs, sides, depth, call.nested[n - 1]);
    }
  }

  /** The refusals before the producer is entered, in their order; otherwise the copied arguments. */
  method Enter(slots: Slots, table: seq<MethodPlan>, ghost sigs: seq<Signature>, sides: Sides, call: Call)
    returns (copies: Option<seq<Value>>, refusal: Answer)
    requires Compiled(table, sigs)
    modifies AllScratches(table)
    ensures copies == Let(sigs, slots.depth, sides, call)
    ensures copies.None? ==> refusal == AnswerOf(sigs, sides, slots.depth, call)
    ensures copies.Some? ==> call.m < |sigs| && slots.depth < MAX_ACTIVE
  {
    hide CompiledMethod, CopiedArgs, Copy;
    copies, refusal := None, BadArguments;
    if call.m >= |table| {
      return None, Unavailable;
    }
    var plan := table[call.m];
    ghost var sig := sigs[call.m];
    assert CompiledMethod(plan, sig);
    PlanParts(plan, sig);
    OwnScratches(table, call.m);
    if slots.depth >= MAX_ACTIVE {
      return None, RecursionLimit;
    }
    if |call.args| > |plan.args| || |call.args| < plan.required {
      return;
    }
    copies := CopyArgs(plan, sig, call.args, sides);
  }

  /** One call, and whatever calls the producer makes in turn. The depth comes back to what it was however the producer
      ends, never more than the limit are active, and exactly the calls that pass the refusals enter a producer. */
  method Invoke(slots: Slots, table: seq<MethodPlan>, ghost sigs: seq<Signature>, sides: Sides, call: Call) returns (answer: Answer)
    requires Compiled(table, sigs)
    modifies slots, AllScratches(table)
    ensures slots.depth == old(slots.depth)
    ensures answer == AnswerOf(sigs, sides, old(slots.depth), call)
    ensures slots.log == old(slots.log) + LogOf(sigs, sides, old(slots.depth), call)
    ensures forall i | |old(slots.log)| <= i < |slots.log| :: WellEntered(sigs, sides, slots.log[i])
    decreases call, 1
  {
    hide Compiled, CompiledMethod, CopiedArgs, Copy, WellEntered, Let, AnswerOf, AllScratches;
    Table(table, sigs);
    LogWellEntered(sigs, sides, slots.depth, call);
    var copies;
    copies, answer := Enter(slots, table, sigs, sides, call);
    if copies.None? {
      return;
    }
    slots.depth := slots.depth + 1;
    slots.log := slots.log + [Entry(slots.depth, call.m, copies.value)];
    Nested(slots, table, sigs, sides, call);
    slots.depth := slots.depth - 1;
    OwnScratches(table, call.m);
    answer := Finish(table[call.m], sigs[call.m], sides, call);
    LetAnswer(sigs, sides, slots.depth, call);
  }

  method Nested(slots: Slots, table: seq<MethodPlan>, ghost sigs: seq<Signature>, sides: Sides, call: Call)
    requires Compiled(table, sigs)
    modifies slots, AllScratches(table)
    ensures slots.depth == old(slots.depth)
    ensures slots.log == old(slots.log) + LogTo(sigs, sides, old(slots.depth), call, |call.nested|)
    decreases call, 0
  {
    hide Compiled, AnswerOf, LogOf, AllScratches, WellEntered;
    for k := 0 to |call.nested|
      invariant slots.depth == old(slots.depth)
      invariant slots.log == old(slots.log) + LogTo(sigs, sides, slots.depth, call, k)
    {
      var _ := Invoke(slots, table, sigs, sides, call.nested[k]);
    }
  }

  lemma {:induction false} Table(table: seq<MethodPlan>, sigs: seq<Signature>)
    requires Compiled(table, sigs)
    ensures |table| == |sigs| && forall i | 0 <= i < |table| :: CompiledMethod(table[i], sigs[i])
  {
  }

  /** A call that gets past the refusals is answered by how the producer ends. */
  lemma {:induction false} LetAnswer(sigs: seq<Signature>, sides: Sides, depth: nat, call: Call)
    requires Let(sigs, depth, sides, call).Some?
    ensures call.m < |sigs| && AnswerOf(sigs, sides, depth, call) == Ending(sigs[call.m], sides, call)
  {
  }

  lemma {:induction false} PlanParts(plan: MethodPlan, sig: Signature)
    requires CompiledMethod(plan, sig)
    ensures |plan.args| == |sig.args| && plan.required == sig.required && plan.result.schema == sig.result
  {
  }

  lemma {:induction false} OwnScratches(table: seq<MethodPlan>, i: nat)
    requires i < |table|
    ensures Scratches(table[i]) <= AllScratches(table)
  {
  }

  lemma {:induction false} EnteredWell(sigs: seq<Signature>, sides: Sides, depth: nat, call: Call, copies: seq<Value>)
    requires depth <= MAX_ACTIVE && call.m < |sigs| && sigs[call.m].required <= |call.args| <= |sigs[call.m].args|
    requires CopiedArgs(sigs[call.m], call.args, sides, |call.args|) == Some(copies)
    ensures WellEntered(sigs, sides, Entry(depth, call.m, copies))
  {
  }

  method Finish(plan: MethodPlan, ghost sig: Signature, sides: Sides, call: Call) returns (answer: Answer)
    requires CompiledMethod(plan, sig)
    modifies plan.result.footprint
    ensures answer == Ending(sig, sides, call)
  {
    hide Copy, PlanNode.Valid;
    if !call.stillBound {
      return Unavailable;
    }
    if call.threw {
      return CallError;
    }
    if call.result == Undefined {
      return if plan.result.schema == Basic(VoidKind) then Returned(Undefined) else BadReturn;
    }
    if call.thenable {
      return BadReturn;
    }
    var out := CopyValue(plan.result, call.result, sides.producer, sides.consumer, 0);
    answer := if out.Some? then Returned(out.value) else BadReturn;
  }

  /** The argument a producer receives is the one sent, as a tree, and conforms to its schema in the producer's realm. */
  lemma {:induction false} ReceivedConforms(sig: Signature, args: seq<Value>, sides: Sides, n: nat, i: nat)
    requires i < n <= |args| && n <= |sig.args| && CopiedArgs(sig, args, sides, n).Some?
    requires forall j | 0 <= j < |sig.args| :: DistinctKeys(sig.args[j])
    ensures Conforms(sig.args[i], args[i], sides.consumer, 1)
    ensures Conforms(sig.args[i], CopiedArgs(sig, args, sides, n).value[i], sides.producer, 1)
    ensures TreeOf(CopiedArgs(sig, args, sides, n).value[i], sides.producer) == TreeOf(args[i], sides.consumer)
    decreases n
  {
    if i == n - 1 {
      Accepted(sig.args[i], args[i], sides.consumer, sides.producer, 1);
      CopyFaithful(sig.args[i], args[i], sides.consumer, sides.producer, 1);
      CopyOfCopy(sig.args[i], args[i], sides.consumer, sides.producer, sides.producer, 1);
      Accepted(sig.args[i], CopiedArgs(sig, args, sides, n).value[i], sides.producer, sides.producer, 1);
    } else {
      ReceivedConforms(sig, args, sides, n - 1, i);
    }
  }

  // ---- what the caller and the producer get ----

  lemma {:induction false} ArgsAccepted(sig: Signature, args: seq<Value>, sides: Sides, n: nat)
    requires n <= |args| && n <= |sig.args| && forall j | 0 <= j < |sig.args| :: DistinctKeys(sig.args[j])
    ensures CopiedArgs(sig, args, sides, n).Some? <==> forall i | 0 <= i < n :: Conforms(sig.args[i], args[i], sides.consumer, 1)
    decreases n
  {
    if n > 0 {
      hide Copy, Conforms, DistinctKeys;
      ArgsAccepted(sig, args, sides, n - 1);
      Accepted(sig.args[n - 1], args[n - 1], sides.consumer, sides.producer, 1);
    }
  }

  /** Why a call is refused before its producer is entered, and what the caller is told: the four reasons in their order. */
  lemma {:induction false} RefusedExactly(sigs: seq<Signature>, sides: Sides, depth: nat, call: Call)
    requires forall m, j | 0 <= m < |sigs| && 0 <= j < |sigs[m].args| :: DistinctKeys(sigs[m].args[j])
    ensures Let(sigs, depth, sides, call).None? <==>
            || call.m >= |sigs| || depth >= 32
            || |call.args| < sigs[call.m].required || |call.args| > |sigs[call.m].args|
            || exists i :: 0 <= i < |call.args| && !Conforms(sigs[call.m].args[i], call.args[i], sides.consumer, 1)
    ensures Let(sigs, depth, sides, call).None? ==>
              AnswerOf(sigs, sides, depth, call)
              == if call.m >= |sigs| then Unavailable else if depth >= 32 then RecursionLimit else BadArguments
    ensures Let(sigs, depth, sides, call).None? ==> LogOf(sigs, sides, depth, call) == []
  {
    hide Conforms, DistinctKeys, CopiedArgs;
    if call.m < |sigs| && depth < 32 && sigs[call.m].required <= |call.args| <= |sigs[call.m].args| {
      ArgsAccepted(sigs[call.m], call.args, sides, |call.args|);
    }
  }

  /** Whether the producer of a call that was let in answered: it is bound, did not throw, and returned nothing where nothing is
      due or a value that conforms in its own realm. */
  ghost predicate Answered(sig: Signature, sides: Sides, call: Call) {
    && call.stillBound && !call.threw
    && if call.result == Undefined then sig.result == Basic(VoidKind)
       else !call.thenable && Conforms(sig.result, call.result, sides.producer, 0)
  }

  /** The caller of a call that was let in gets a value exactly if the producer answered; otherwise it is told which of three things
      went wrong, a producer that is gone before one that threw before a bad result. */
  lemma {:induction false} AnsweredExactly(sigs: seq<Signature>, sides: Sides, depth: nat, call: Call)
    requires Let(sigs, depth, sides, call).Some? && DistinctKeys(sigs[call.m].result)
    ensures var answer := AnswerOf(sigs, sides, depth, call);
            && (answer.Returned? <==> Answered(sigs[call.m], sides, call))
            && (!answer.Returned? ==> answer == if !call.stillBound then Unavailable else if call.threw then CallError else BadReturn)
  {
    hide Conforms, DistinctKeys, Copy, CopiedArgs;
    Accepted(sigs[call.m].result, call.result, sides.producer, sides.consumer, 0);
  }

  /** A value the caller gets is the one returned, as a tree, and conforms to the result's schema in the caller's own realm. */
  lemma {:induction false} ResultConforms(sigs: seq<Signature>, sides: Sides, depth: nat, call: Call)
    requires Let(sigs, depth, sides, call).Some? && DistinctKeys(sigs[call.m].result)
    requires AnswerOf(sigs, sides, depth, call).Returned?
    ensures var x, result := AnswerOf(sigs, sides, depth, call).value, sigs[call.m].result;
            if call.result == Undefined then x == Undefined
            else Conforms(result, x, sides.consumer, 0) && TreeOf(x, sides.consumer) == TreeOf(call.result, sides.producer)
  {
    hide Conforms, DistinctKeys, Copy, CopiedArgs, TreeOf;
    if call.result != Undefined {
      var schema, x := sigs[call.m].result, AnswerOf(sigs, sides, depth, call).value;
      CopyFaithful(schema, call.result, sides.producer, sides.consumer, 0);
      CopyOfCopy(schema, call.result, sides.producer, sides.consumer, sides.consumer, 0);
      Accepted(schema, x, sides.consumer, sides.consumer, 0);
    }
  }

  /** A producer let in is entered one level down with its copies, and then the calls it makes are logged one after another. */
  lemma {:induction false} EntersOnce(sigs: seq<Signature>, sides: Sides, depth: nat, call: Call)
    requires Let(sigs, depth, sides, call).Some?
    ensures var log := LogOf(sigs, sides, depth, call);
            && log != [] && log[0] == Entry(depth + 1, call.m, Let(sigs, depth, sides, call).value)
            && |log| == 1 + Entries(sigs, sides, depth + 1, call, |call.nested|)
  {
    hide Let;
    NestedEntries(sigs, sides, depth + 1, call, |call.nested|);
  }

  /** How many producers the first `n` calls a producer makes enter. */
  ghost function Entries(sigs: seq<Signature>, sides: Sides, depth: nat, call: Call, n: nat): nat
    requires n <= |call.nested|
  {
    if n == 0 then 0 else Entries(sigs, sides, depth, call, n - 1) + |LogOf(sigs, sides, depth, call.nested[n - 1])|
  }

  lemma {:induction false} NestedEntries(sigs: seq<Signature>, sides: Sides, depth: nat, call: Call, n: nat)
    requires n <= |call.nested|
    ensures |LogTo(sigs, sides, depth, call, n)| == Entries(sigs, sides, depth, call, n)
  {
    if n > 0 {
      NestedEntries(sigs, sides, depth, call, n - 1);
    }
  }
}
