/** The acceptance judge: what a set of evidence records comes to. */
module JudgeSpec {
  import opened Json
  import opened Options

  const SCHEMA: int := 1
  const PRODUCERS: set<string> := {"native", "js", "human"}
  const RESULTS: set<string> := {"pass", "fail", "pending"}

  /** A required check: its case, its name, and who reports it. */
  datatype Subcheck = Subcheck(case_: string, name: string, producer: string)

  /** An evidence rule; a non-empty `join` ties the native and the script reports of one case together. */
  datatype Rule = Rule(group: string, provenance: string, callbackOwner: string, target: string, join: string)

  datatype Verdict = Pass | Fail | Pending | Invalid

  datatype Provenance = Proved | Awaited | Refuted

  /** A suite and the run it is judged for. `details` is the per-record evidence rule, `provenance` the gamedata check,
      `signature` what two producers must agree on; each reads one record. */
  datatype Context = Context(
    suite: string,
    cases: seq<string>,
    required: seq<Subcheck>,
    rules: map<Subcheck, Rule>,
    gamedata: set<string>,
    runId: Value,
    revision: Value,
    receipt: Option<Value>,
    receiptValid: bool,
    details: (Value, Rule) -> bool,
    provenance: Value -> Provenance,
    signature: Value -> Value)

  /** Every required check is of a listed case, every case has one, and only native and script reports are joined. */
  ghost predicate WellFormedSuite(ctx: Context) {
    && ctx.cases != []
    && (forall i | 0 <= i < |ctx.required| :: ctx.required[i].case_ in ctx.cases)
    && (forall c | c in ctx.cases :: exists i :: 0 <= i < |ctx.required| && ctx.required[i].case_ == c)
    && (forall key | key in ctx.rules :: key.producer == "native" || key.producer == "js")
  }

  // ---- reading a record ----

  /** `rec.get(key)`. */
  function Get(rec: Value, key: string): Value {
    if rec.Obj? && key in rec.fields then rec.fields[key] else Null
  }

  predicate Truthy(v: Value) {
    match v
    case Null => false
    case Bool(b) => b
    case Num(Whole(i)) => i != 0
    case Num(Other(literal)) => LiteralReal(literal) != 0.0
    case Str(s) => s != ""
    case Arr(items) => items != []
    case Obj(fields) => fields != map[]
  }

  function LowerChar(c: char): char {
    if 'A' <= c <= 'Z' then c + 32 as char else c
  }

  function UpperChar(c: char): char {
    if 'a' <= c <= 'z' then c - 32 as char else c
  }

  function Lower(s: string): string {
    if s == "" then "" else [LowerChar(s[0])] + Lower(s[1..])
  }

  function Upper(s: string): string {
    if s == "" then "" else [UpperChar(s[0])] + Upper(s[1..])
  }

  /** The result word; a result that is not a string is none of the known words. */
  function ResultOf(rec: Value): string {
    var r := Get(rec, "result");
    if r.Str? then Lower(r.s) else ""
  }

  predicate Space(c: char) {
    var n := c as int;
    9 <= n <= 13 || 28 <= n <= 32 || n == 0x85 || n == 0xA0 || n == 0x1680 || 0x2000 <= n <= 0x200A
    || n == 0x2028 || n == 0x2029 || n == 0x202F || n == 0x205F || n == 0x3000
  }

  predicate NonBlank(v: Value) {
    v.Str? && exists i | 0 <= i < |v.s| :: !Space(v.s[i])
  }

  predicate LegacyContradicts(rec: Value) {
    rec.Obj? && "pass" in rec.fields &&
    var legacy := rec.fields["pass"];
    if !legacy.Bool? then true
    else
      || (ResultOf(rec) == "pass" && !legacy.b)
      || (ResultOf(rec) == "fail" && legacy.b)
      || (ResultOf(rec) == "pending" && legacy.b)
  }

  predicate EmptyCollection(v: Value) {
    (v.Str? && v.s == "") || (v.Arr? && v.items == []) || (v.Obj? && v.fields == map[])
  }

  predicate GoodActor(v: Value) {
    v.Obj? && "slot" in v.fields && Truthy(Get(v, "identity"))
  }

  /** What a passing report by a human must carry. */
  predicate HumanEvidence(rec: Value) {
    && !EmptyCollection(Get(rec, "expected")) && !EmptyCollection(Get(rec, "actual"))
    && Get(rec, "actors").Arr? && Get(rec, "actors").items != []
    && Truthy(Get(rec, "capture_path")) && Truthy(Get(rec, "timestamp"))
    && forall i | 0 <= i < |Get(rec, "actors").items| :: GoodActor(Get(rec, "actors").items[i])
  }

  function SubcheckVerdict(rec: Value): Verdict {
    var result := ResultOf(rec);
    if result !in RESULTS then Invalid
    else if LegacyContradicts(rec) then Invalid
    else if Get(rec, "expected") == Null || Get(rec, "actual") == Null then Invalid
    else if result != "pending" && !NonBlank(Get(rec, "evidence")) then Invalid
    else if Get(rec, "producer") == Str("human") && result == "pass" && !HumanEvidence(rec) then Invalid
    else if result == "pass" && Get(rec, "expected") != Get(rec, "actual") then Verdict.Fail
    else if result == "pass" then Pass
    else if result == "fail" then Verdict.Fail
    else Pending
  }

  // ---- admitting a record ----

  datatype Admission = Rejected | Diagnostic | Admitted(key: Subcheck)

  predicate HexDigit(c: char) {
    '0' <= c <= '9' || 'a' <= c <= 'f'
  }

  predicate Hex64(v: Value) {
    v.Str? && |v.s| == 64 && forall i | 0 <= i < |v.s| :: HexDigit(v.s[i])
  }

  function SuiteOf(rec: Value): string {
    var v := Get(rec, "suite");
    if !Truthy(v) then "A" else if v.Str? then Upper(v.s) else ""
  }

  function ArtifactOf(ctx: Context): Value {
    if ctx.receipt.Some? then Get(ctx.receipt.value, "artifact_identity") else Null
  }

  predicate Bound(ctx: Context, rec: Value) {
    var binding := Get(rec, "artifact_identity");
    binding == Null || binding == Str("") || (Hex64(binding) && (!Truthy(ArtifactOf(ctx)) || binding == ArtifactOf(ctx)))
  }

  predicate TerminalDiagnostic(rec: Value) {
    Get(rec, "kind") == Str("diagnostic") && Get(rec, "case") == Str("process_terminal") && Get(rec, "producer") == Str("native")
  }

  /** A pending report is exempt from the evidence rules. */
  predicate RuleBroken(ctx: Context, rec: Value, key: Subcheck) {
    key in ctx.rules && Get(rec, "result") != Str("pending") && ctx.details(rec, ctx.rules[key])
  }

  function Admit(ctx: Context, rec: Value): Admission {
    if !rec.Obj? then Rejected
    else if Get(rec, "schema") != Num(Whole(SCHEMA)) then Rejected
    else if SuiteOf(rec) != ctx.suite then Rejected
    else if Get(rec, "run_id") != ctx.runId then Rejected
    else if Get(rec, "source_revision") != ctx.revision then Rejected
    else if !Bound(ctx, rec) then Rejected
    else if TerminalDiagnostic(rec) then (if SubcheckVerdict(rec) == Invalid then Rejected else Diagnostic)
    else
      var c, name, producer := Get(rec, "case"), Get(rec, "subcheck"), Get(rec, "producer");
      if !c.Str? || c.s !in ctx.cases then Rejected
      else if !producer.Str? || producer.s !in PRODUCERS then Rejected
      else if !name.Str? then Rejected
      else
        var key := Subcheck(c.s, name.s, producer.s);
        if key !in ctx.required then Rejected
        else if RuleBroken(ctx, rec, key) then Rejected
        else Admitted(key)
  }

  // ---- judging an admitted record ----

  /** What one record says of its check: it is unusable, it leaves the check open, or it ends it. */
  datatype Finding = Unusable | Open | Ended(failed: bool)

  function FindingOf(ctx: Context, key: Subcheck, rec: Value): Finding {
    match SubcheckVerdict(rec)
    case Invalid => Unusable
    case Pending => Open
    case Fail => Ended(true)
    case Pass =>
      if key.name in ctx.gamedata && ctx.provenance(rec) == Awaited then Open
      else if key.name in ctx.gamedata && ctx.provenance(rec) == Refuted then Unusable
      else if ctx.receipt.None? || !Truthy(Get(rec, "artifact_identity")) then Open
      else Ended(false)
  }

  /** The join a passing, bound record takes part in. */
  datatype Group = Group(case_: string, join: string)

  function GroupOf(ctx: Context, rec: Value): Option<Group> {
    match Admit(ctx, rec)
    case Admitted(key) =>
      if key in ctx.rules && ctx.rules[key].join != "" && Get(rec, "result") == Str("pass") && Truthy(Get(rec, "artifact_identity"))
      then Some(Group(key.case_, ctx.rules[key].join)) else None
    case _ => None
  }

  function ProducerOf(rec: Value): Value {
    Get(rec, "producer")
  }

  // ---- the verdict of a set of records ----

  ghost predicate Reports(ctx: Context, recs: set<Value>, key: Subcheck, rec: Value) {
    rec in recs && Admit(ctx, rec) == Admitted(key)
  }

  ghost predicate Ends(ctx: Context, recs: set<Value>, key: Subcheck, rec: Value) {
    Reports(ctx, recs, key, rec) && FindingOf(ctx, key, rec).Ended?
  }

  ghost predicate SomeRejected(ctx: Context, recs: set<Value>) {
    exists rec :: rec in recs && Admit(ctx, rec) == Rejected
  }

  ghost predicate SomeUnusable(ctx: Context, recs: set<Value>, key: Subcheck) {
    exists rec :: Reports(ctx, recs, key, rec) && FindingOf(ctx, key, rec) == Unusable
  }

  ghost predicate Contradicted(ctx: Context, recs: set<Value>, key: Subcheck) {
    exists a, b :: Ends(ctx, recs, key, a) && Ends(ctx, recs, key, b) && a != b
  }

  ghost predicate SomeFailed(ctx: Context, recs: set<Value>, key: Subcheck) {
    exists rec :: Reports(ctx, recs, key, rec) && FindingOf(ctx, key, rec) == Ended(true)
  }

  ghost predicate Settled(ctx: Context, recs: set<Value>, key: Subcheck) {
    exists rec :: Ends(ctx, recs, key, rec)
  }

  ghost predicate InGroup(ctx: Context, recs: set<Value>, g: Group, rec: Value) {
    rec in recs && GroupOf(ctx, rec) == Some(g)
  }

  /** Both producers reported for the group, and some two of its records disagree. */
  ghost predicate JoinBroken(ctx: Context, recs: set<Value>, g: Group) {
    && (exists rec :: InGroup(ctx, recs, g, rec) && ProducerOf(rec) == Str("native"))
    && (exists rec :: InGroup(ctx, recs, g, rec) && ProducerOf(rec) == Str("js"))
    && (exists a, b :: InGroup(ctx, recs, g, a) && InGroup(ctx, recs, g, b) && ctx.signature(a) != ctx.signature(b))
  }

  ghost predicate CaseMissing(ctx: Context, recs: set<Value>, c: string) {
    !exists key: Subcheck, rec :: key.case_ == c && Reports(ctx, recs, key, rec)
  }

  ghost predicate SomeMissing(ctx: Context, recs: set<Value>) {
    exists c :: c in ctx.cases && CaseMissing(ctx, recs, c)
  }

  ghost predicate KeyBroken(ctx: Context, recs: set<Value>, key: Subcheck) {
    SomeUnusable(ctx, recs, key) || Contradicted(ctx, recs, key) || SomeFailed(ctx, recs, key)
  }

  /** What no later record can clear. `prior` says whether the files themselves could not be read. */
  ghost predicate Damned(ctx: Context, recs: set<Value>, prior: bool) {
    || prior || (ctx.receipt.Some? && !ctx.receiptValid)
    || SomeRejected(ctx, recs)
    || (exists g :: JoinBroken(ctx, recs, g))
    || (exists i :: 0 <= i < |ctx.required| && KeyBroken(ctx, recs, ctx.required[i]))
  }

  ghost predicate AllSettled(ctx: Context, recs: set<Value>) {
    forall i | 0 <= i < |ctx.required| :: Settled(ctx, recs, ctx.required[i])
  }

  /** 0 to pass, 1 to fail, 2 to wait. */
  ghost function ExitOf(ctx: Context, recs: set<Value>, prior: bool): int {
    if Damned(ctx, recs, prior) || SomeMissing(ctx, recs) then 1
    else if AllSettled(ctx, recs) then 0
    else 2
  }

  // ---- laws ----

  lemma {:induction false} KeyStaysBroken(ctx: Context, recs: set<Value>, more: set<Value>, key: Subcheck)
    requires recs <= more && KeyBroken(ctx, recs, key)
    ensures KeyBroken(ctx, more, key)
  {
    hide Admit, FindingOf;
    if SomeUnusable(ctx, recs, key) {
      var rec :| Reports(ctx, recs, key, rec) && FindingOf(ctx, key, rec) == Unusable;
      assert Reports(ctx, more, key, rec);
    } else if Contradicted(ctx, recs, key) {
      var a, b :| Ends(ctx, recs, key, a) && Ends(ctx, recs, key, b) && a != b;
      assert Ends(ctx, more, key, a) && Ends(ctx, more, key, b);
    } else {
      var rec :| Reports(ctx, recs, key, rec) && FindingOf(ctx, key, rec) == Ended(true);
      assert Reports(ctx, more, key, rec);
    }
  }

  lemma {:induction false} JoinStaysBroken(ctx: Context, recs: set<Value>, more: set<Value>, g: Group)
    requires recs <= more && JoinBroken(ctx, recs, g)
    ensures JoinBroken(ctx, more, g)
  {
    hide GroupOf;
    var n :| InGroup(ctx, recs, g, n) && ProducerOf(n) == Str("native");
    var j :| InGroup(ctx, recs, g, j) && ProducerOf(j) == Str("js");
    var a, b :| InGroup(ctx, recs, g, a) && InGroup(ctx, recs, g, b) && ctx.signature(a) != ctx.signature(b);
    assert InGroup(ctx, more, g, n) && InGroup(ctx, more, g, j) && InGroup(ctx, more, g, a) && InGroup(ctx, more, g, b);
  }

  /** A rejected, unusable, failed or contradicted record, or a broken join, fails the suite under every extension. */
  lemma {:induction false} FailurePersists(ctx: Context, recs: set<Value>, more: set<Value>, prior: bool, later: bool)
    requires recs <= more && (prior ==> later) && Damned(ctx, recs, prior)
    ensures Damned(ctx, more, later) && ExitOf(ctx, more, later) == 1
  {
    hide Admit, JoinBroken, KeyBroken;
    if SomeRejected(ctx, recs) {
      var rec :| rec in recs && Admit(ctx, rec) == Rejected;
      assert rec in more;
    } else if g :| JoinBroken(ctx, recs, g) {
      JoinStaysBroken(ctx, recs, more, g);
    } else if i :| 0 <= i < |ctx.required| && KeyBroken(ctx, recs, ctx.required[i]) {
      KeyStaysBroken(ctx, recs, more, ctx.required[i]);
    }
  }

  /** So the only failures a later record can clear are missing cases. */
  lemma {:induction false} OnlyMissingClears(ctx: Context, recs: set<Value>, more: set<Value>, prior: bool)
    requires recs <= more && ExitOf(ctx, recs, prior) == 1 && ExitOf(ctx, more, prior) != 1
    ensures SomeMissing(ctx, recs) && !SomeMissing(ctx, more) && !Damned(ctx, recs, prior)
  {
    if Damned(ctx, recs, prior) {
      FailurePersists(ctx, recs, more, prior, prior);
    }
  }

  /** A record that is admitted and only says that its check is pending. */
  predicate SaysPending(ctx: Context, rec: Value) {
    Admit(ctx, rec).Admitted? && SubcheckVerdict(rec) == Pending
  }

  lemma {:induction false} PendingOutOfGroups(ctx: Context, rec: Value)
    requires SaysPending(ctx, rec)
    ensures GroupOf(ctx, rec) == None
  {
  }

  /** Pending records take nothing away from a passing history. */
  lemma {:induction false} PendingKeepsPass(ctx: Context, recs: set<Value>, more: set<Value>, prior: bool)
    requires recs <= more && ExitOf(ctx, recs, prior) == 0
    requires forall rec | rec in more && rec !in recs :: SaysPending(ctx, rec)
    ensures ExitOf(ctx, more, prior) == 0
  {
    hide Admit, SubcheckVerdict;
    NoNewDamage(ctx, recs, more, prior);
    forall c | c in ctx.cases ensures !CaseMissing(ctx, more, c) {
      assert !CaseMissing(ctx, recs, c);
      var key: Subcheck, rec :| key.case_ == c && Reports(ctx, recs, key, rec);
      assert Reports(ctx, more, key, rec);
    }
    forall i | 0 <= i < |ctx.required| ensures Settled(ctx, more, ctx.required[i]) {
      var rec :| Ends(ctx, recs, ctx.required[i], rec);
      assert Ends(ctx, more, ctx.required[i], rec);
    }
  }

  lemma {:induction false} NoNewDamage(ctx: Context, recs: set<Value>, more: set<Value>, prior: bool)
    requires recs <= more && !Damned(ctx, recs, prior)
    requires forall rec | rec in more && rec !in recs :: SaysPending(ctx, rec)
    ensures !Damned(ctx, more, prior)
  {
    hide Admit, SubcheckVerdict, GroupOf, Get;
    forall g ensures !JoinBroken(ctx, more, g) {
      if JoinBroken(ctx, more, g) {
        NoNewJoin(ctx, recs, more, g);
      }
    }
    forall i | 0 <= i < |ctx.required| ensures !KeyBroken(ctx, more, ctx.required[i]) {
      if KeyBroken(ctx, more, ctx.required[i]) {
        NoNewBreak(ctx, recs, more, ctx.required[i]);
      }
    }
  }

  lemma {:induction false} NoNewJoin(ctx: Context, recs: set<Value>, more: set<Value>, g: Group)
    requires recs <= more && JoinBroken(ctx, more, g)
    requires forall rec | rec in more && rec !in recs :: SaysPending(ctx, rec)
    ensures JoinBroken(ctx, recs, g)
  {
    hide GroupOf, SaysPending, Get;
    forall rec | InGroup(ctx, more, g, rec) ensures InGroup(ctx, recs, g, rec) {
      if rec !in recs {
        PendingOutOfGroups(ctx, rec);
      }
    }
  }

  lemma {:induction false} NoNewBreak(ctx: Context, recs: set<Value>, more: set<Value>, key: Subcheck)
    requires recs <= more && KeyBroken(ctx, more, key)
    requires forall rec | rec in more && rec !in recs :: SaysPending(ctx, rec)
    ensures KeyBroken(ctx, recs, key)
  {
    hide Admit, SubcheckVerdict, Get;
    forall rec | Reports(ctx, more, key, rec) ensures Reports(ctx, recs, key, rec) || FindingOf(ctx, key, rec) == Open {
    }
    if SomeUnusable(ctx, more, key) {
      var rec :| Reports(ctx, more, key, rec) && FindingOf(ctx, key, rec) == Unusable;
      assert Reports(ctx, recs, key, rec);
    } else if Contradicted(ctx, more, key) {
      var x, y :| Ends(ctx, more, key, x) && Ends(ctx, more, key, y) && x != y;
      assert Ends(ctx, recs, key, x) && Ends(ctx, recs, key, y);
    } else {
      var rec :| Reports(ctx, more, key, rec) && FindingOf(ctx, key, rec) == Ended(true);
      assert Reports(ctx, recs, key, rec);
    }
  }

  /** A pass means that a valid runtime identity was supplied and that every required check was ended by a passing record
      bound to an artifact; when the receipt names an artifact, that is the one. */
  lemma {:induction false} PassNeedsIdentity(ctx: Context, recs: set<Value>, prior: bool, i: nat)
    requires WellFormedSuite(ctx) && ExitOf(ctx, recs, prior) == 0 && i < |ctx.required|
    ensures ctx.receipt.Some? && ctx.receiptValid
    ensures exists rec :: && Reports(ctx, recs, ctx.required[i], rec) && SubcheckVerdict(rec) == Pass
                          && Truthy(Get(rec, "artifact_identity"))
                          && (Truthy(ArtifactOf(ctx)) ==> Get(rec, "artifact_identity") == ArtifactOf(ctx))
  {
    var key := ctx.required[i];
    assert Settled(ctx, recs, key) && !KeyBroken(ctx, recs, key);
    var rec :| Ends(ctx, recs, key, rec);
    assert Reports(ctx, recs, key, rec);
    assert FindingOf(ctx, key, rec) == Ended(false);
    BindingMatches(ctx, rec, key);
    hide Admit, SubcheckVerdict, Get;
  }

  lemma {:induction false} BindingMatches(ctx: Context, rec: Value, key: Subcheck)
    requires Admit(ctx, rec) == Admitted(key) && Truthy(Get(rec, "artifact_identity"))
    ensures Truthy(ArtifactOf(ctx)) ==> Get(rec, "artifact_identity") == ArtifactOf(ctx)
  {
  }
}
